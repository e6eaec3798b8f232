/**
 The Top 10 swap editor (`tools/draft_editor/tool.py`): a list of operations exchanges entries
 of the Top 10 with each other or with articles of the inventory; the result is saved as one
 update per article.
 */
module DraftEditor {
  import opened Options

  type Ulid = string

  /** The target of an operation: a place in the Top 10, an article, or anything else. */
  datatype Target = Place(i: int) | Named(ulid: Ulid) | Other

  datatype Operation = Operation(index: Option<int>, target: Option<Target>)

  /** The two sides of the draft. */
  datatype Draft = Draft(top: seq<Ulid>, inventory: set<Ulid>)

  predicate Distinct(s: seq<Ulid>) {
    forall i, j :: 0 <= i < j < |s| ==> s[i] != s[j]
  }

  function Elements(s: seq<Ulid>): set<Ulid> {
    set x | x in s
  }

  /** No article is on both sides, nor twice in the Top 10. */
  predicate Valid(d: Draft) {
    Distinct(d.top) && Elements(d.top) !! d.inventory
  }

  /** All articles of the batch. */
  function Articles(d: Draft): set<Ulid> {
    Elements(d.top) + d.inventory
  }

  /** An operation that does something. */
  predicate Applies(d: Draft, op: Operation) {
    && op.index.Some? && op.target.Some? && 0 <= op.index.value < |d.top|
    && match op.target.value
       case Place(i) => 0 <= i < |d.top|
       case Named(ulid) => ulid in d.inventory
       case Other => false
  }

  function Swap(s: seq<Ulid>, i: int, j: int): (r: seq<Ulid>)
    requires 0 <= i < |s| && 0 <= j < |s|
    ensures |r| == |s|
  {
    s[i := s[j]][j := s[i]]
  }

  /** One operation; one that is out of range or names no inventory article is skipped. */
  function Apply(d: Draft, op: Operation): Draft {
    if !Applies(d, op) then d
    else
      var i := op.index.value;
      match op.target.value
      case Place(j) => d.(top := Swap(d.top, i, j))
      case Named(ulid) => Draft(d.top[i := ulid], d.inventory + {d.top[i]} - {ulid})
  }

  function ApplyAll(d: Draft, ops: seq<Operation>): Draft {
    if ops == [] then d else Apply(ApplyAll(d, ops[..|ops| - 1]), ops[|ops| - 1])
  }

  /** The loop over the operations, on the list and the inventory in place. */
  method RunOperations(start: Draft, ops: seq<Operation>) returns (end: Draft)
    requires Valid(start)
    ensures end == ApplyAll(start, ops) && Valid(end)
    ensures |end.top| == |start.top| && Articles(end) == Articles(start)
  {
    hide Valid, Articles;
    var top, inventory := start.top, start.inventory;
    assert ops[..0] == [];
    for k := 0 to |ops|
      invariant Draft(top, inventory) == ApplyAll(start, ops[..k])
      invariant Valid(Draft(top, inventory)) && |top| == |start.top|
      invariant Articles(Draft(top, inventory)) == Articles(start)
    {
      assert ops[..k + 1][..k] == ops[..k];
      ghost var before := Draft(top, inventory);
      ApplyKeeps(before, ops[k]);
      var index, target := ops[k].index, ops[k].target;
      if index == None || target == None || index.value < 0 || index.value >= |top| { continue; }
      var i := index.value;
      match target.value {
        case Place(j) =>
          if 0 <= j < |top| { top := top[i := top[j]][j := top[i]]; }
        case Named(ulid) =>
          if ulid in inventory {
            var replaced := top[i];
            top := top[i := ulid];
            inventory := inventory + {replaced};
            inventory := inventory - {ulid};
          }
        case Other =>
      }
    }
    assert ops[..|ops|] == ops;
    end := Draft(top, inventory);
  }

  lemma SwapElements(s: seq<Ulid>, i: int, j: int)
    requires 0 <= i < |s| && 0 <= j < |s|
    ensures Elements(Swap(s, i, j)) == Elements(s)
    ensures Distinct(s) ==> Distinct(Swap(s, i, j))
  {
    var t := Swap(s, i, j);
    assert t[i] == s[j] && t[j] == s[i];
    forall x | x in s ensures x in t {
      var k :| 0 <= k < |s| && s[k] == x;
      assert t[if k == i then j else if k == j then i else k] == x;
    }
  }

  lemma ReplaceElements(s: seq<Ulid>, i: int, x: Ulid)
    requires 0 <= i < |s| && Distinct(s) && x !in s
    ensures Distinct(s[i := x]) && Elements(s[i := x]) == Elements(s) - {s[i]} + {x}
  {
    var t := s[i := x];
    assert t[i] == x;
    forall y | y in s && y != s[i] ensures y in t {
      var k :| 0 <= k < |s| && s[k] == y;
      assert t[k] == y;
    }
  }

  /** Every operation, valid or not, keeps the length of the Top 10 and all articles, and
      leaves no article on both sides. */
  lemma ApplyKeeps(d: Draft, op: Operation)
    requires Valid(d)
    ensures Valid(Apply(d, op)) && |Apply(d, op).top| == |d.top| && Articles(Apply(d, op)) == Articles(d)
  {
    if Applies(d, op) {
      var i := op.index.value;
      match op.target.value
      case Place(j) => SwapElements(d.top, i, j);
      case Named(ulid) =>
        ReplaceElements(d.top, i, ulid);
        hide Distinct;
        ReplacedArticles(Elements(d.top), d.inventory, d.top[i], ulid);
    }
  }

  lemma ReplacedArticles(top: set<Ulid>, inventory: set<Ulid>, out: Ulid, named: Ulid)
    requires top !! inventory && out in top && named in inventory
    ensures (top - {out} + {named}) !! (inventory + {out} - {named})
    ensures (top - {out} + {named}) + (inventory + {out} - {named}) == top + inventory
  {
  }

  /** Each operation can be undone by one more: a swap by itself, a replacement by naming the
      replaced article. */
  lemma ApplyCanBeUndone(d: Draft, op: Operation) returns (undo: Operation)
    requires Valid(d)
    ensures Apply(Apply(d, op), undo) == d
  {
    if !Applies(d, op) {
      undo := op;
    } else {
      match op.target.value {
        case Place(j) =>
          undo := op;
          var s := d.top;
          assert Swap(Swap(s, op.index.value, j), op.index.value, j) == s;
        case Named(ulid) =>
          var i := op.index.value;
          undo := Operation(op.index, Some(Named(d.top[i])));
          assert d.top[i] in d.top;
          assert d.top[i := ulid][i := d.top[i]] == d.top;
          assert d.inventory + {d.top[i]} - {ulid} + {ulid} - {d.top[i]} == d.inventory;
      }
    }
  }

  // ---------------------------------------------------------------------------------
  // The saved updates
  // ---------------------------------------------------------------------------------

  /** The two columns of a row of broadcast_details. */
  datatype Row = Row(isTop10: bool, rank: Option<nat>)

  datatype Update = Update(ulid: Ulid, row: Row)

  /** An update of a row that is not there changes nothing. */
  function Save(rows: map<Ulid, Row>, u: Update): map<Ulid, Row> {
    if u.ulid in rows then rows[u.ulid := u.row] else rows
  }

  function SaveAll(rows: map<Ulid, Row>, updates: seq<Update>): map<Ulid, Row> {
    if updates == [] then rows else Save(SaveAll(rows, updates[..|updates| - 1]), updates[|updates| - 1])
  }

  function TopUpdate(top: seq<Ulid>, i: int): Update
    requires 0 <= i < |top|
  {
    Update(top[i], Row(true, Some(i)))
  }

  function CleanUpdate(ulid: Ulid): Update {
    Update(ulid, Row(false, None))
  }

  /** The loops that build the statements; the inventory comes in the order of `listed`. */
  method BuildStatements(top: seq<Ulid>, listed: seq<Ulid>) returns (statements: seq<Update>)
    ensures statements == seq(|top|, i requires 0 <= i < |top| => TopUpdate(top, i))
                        + seq(|listed|, i requires 0 <= i < |listed| => CleanUpdate(listed[i]))
  {
    statements := [];
    for i := 0 to |top|
      invariant statements == seq(i, k requires 0 <= k < i => TopUpdate(top, k))
    {
      statements := statements + [TopUpdate(top, i)];
    }
    ghost var ranked := statements;
    for i := 0 to |listed|
      invariant statements == ranked + seq(i, k requires 0 <= k < i => CleanUpdate(listed[k]))
    {
      statements := statements + [CleanUpdate(listed[i])];
    }
  }

  /** A list of updates to distinct articles sets each to its row and leaves the others. */
  lemma {:induction false} SaveAllSets(rows: map<Ulid, Row>, updates: seq<Update>, ulid: Ulid)
    requires forall i, j :: 0 <= i < j < |updates| ==> updates[i].ulid != updates[j].ulid
    ensures SaveAll(rows, updates).Keys == rows.Keys
    ensures ulid in rows ==> forall i :: 0 <= i < |updates| && updates[i].ulid == ulid ==>
              SaveAll(rows, updates)[ulid] == updates[i].row
    ensures ulid in rows && (forall i :: 0 <= i < |updates| ==> updates[i].ulid != ulid) ==>
              SaveAll(rows, updates)[ulid] == rows[ulid]
  {
    if updates != [] {
      var front := updates[..|updates| - 1];
      assert forall i :: 0 <= i < |front| ==> front[i] == updates[i];
      SaveAllSets(rows, front, ulid);
    }
  }

  /** After saving, the Top 10 has the ranks 0 to n-1 in its order, every other article of the
      batch is cleared, and rows of no article of the draft are untouched. */
  lemma SavedDraft(d: Draft, listed: seq<Ulid>, rows: map<Ulid, Row>, updates: seq<Update>)
    requires Valid(d) && Distinct(listed) && Elements(listed) == d.inventory && Articles(d) <= rows.Keys
    requires updates == seq(|d.top|, i requires 0 <= i < |d.top| => TopUpdate(d.top, i))
                      + seq(|listed|, i requires 0 <= i < |listed| => CleanUpdate(listed[i]))
    ensures var saved := SaveAll(rows, updates);
            && saved.Keys == rows.Keys
            && (forall i :: 0 <= i < |d.top| ==> saved[d.top[i]] == Row(true, Some(i)))
            && (forall x :: x in d.inventory ==> saved[x] == Row(false, None))
            && (forall x :: x in rows && x !in Articles(d) ==> saved[x] == rows[x])
  {
    UpdatesAreDistinct(d, listed, updates);
    SaveAllSets(rows, updates, "");
    forall i | 0 <= i < |d.top| ensures SaveAll(rows, updates)[d.top[i]] == Row(true, Some(i)) {
      assert d.top[i] in Elements(d.top) && updates[i] == TopUpdate(d.top, i);
      SaveAllSets(rows, updates, d.top[i]);
    }
    forall x | x in d.inventory ensures SaveAll(rows, updates)[x] == Row(false, None) {
      SavedInventory(d, listed, rows, updates, x);
    }
    hide Valid, Distinct;
    forall x | x in rows && x !in Articles(d) ensures SaveAll(rows, updates)[x] == rows[x] {
      OthersAreNotUpdated(d, listed, updates, x);
      SaveAllSets(rows, updates, x);
    }
  }

  lemma SavedInventory(d: Draft, listed: seq<Ulid>, rows: map<Ulid, Row>, updates: seq<Update>, x: Ulid)
    requires x in d.inventory && x in rows && Elements(listed) == d.inventory && |updates| == |d.top| + |listed|
    requires forall i :: |d.top| <= i < |updates| ==> updates[i] == CleanUpdate(listed[i - |d.top|])
    requires forall i, j :: 0 <= i < j < |updates| ==> updates[i].ulid != updates[j].ulid
    ensures x in SaveAll(rows, updates) && SaveAll(rows, updates)[x] == Row(false, None)
  {
    assert x in Elements(listed);
    var k :| 0 <= k < |listed| && listed[k] == x;
    SaveAllSets(rows, updates, x);
    assert updates[|d.top| + k].ulid == x;
  }

  lemma OthersAreNotUpdated(d: Draft, listed: seq<Ulid>, updates: seq<Update>, x: Ulid)
    requires x !in Articles(d) && Elements(listed) == d.inventory && |updates| == |d.top| + |listed|
    requires forall i :: 0 <= i < |d.top| ==> updates[i] == TopUpdate(d.top, i)
    requires forall i :: |d.top| <= i < |updates| ==> updates[i] == CleanUpdate(listed[i - |d.top|])
    ensures forall i :: 0 <= i < |updates| ==> updates[i].ulid != x
  {
    forall i | 0 <= i < |updates| ensures updates[i].ulid != x {
      if i < |d.top| {
        assert d.top[i] in Elements(d.top);
      } else {
        assert listed[i - |d.top|] in Elements(listed);
      }
    }
  }

  lemma UpdatesAreDistinct(d: Draft, listed: seq<Ulid>, updates: seq<Update>)
    requires Valid(d) && Distinct(listed) && Elements(listed) == d.inventory && |updates| == |d.top| + |listed|
    requires forall i :: 0 <= i < |d.top| ==> updates[i] == TopUpdate(d.top, i)
    requires forall i :: |d.top| <= i < |updates| ==> updates[i] == CleanUpdate(listed[i - |d.top|])
    ensures forall i, j :: 0 <= i < j < |updates| ==> updates[i].ulid != updates[j].ulid
  {
    forall i, j | 0 <= i < j < |updates| ensures updates[i].ulid != updates[j].ulid {
      if i < |d.top| <= j {
        assert d.top[i] in Elements(d.top) && listed[j - |d.top|] in Elements(listed);
      }
    }
  }
}
