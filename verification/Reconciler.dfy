/**
 A reconciliation pass (`database/management/reconciler.py`): prune unexpected tables, then
 review each expected one in declaration order.

 A type drift raises: computing the plan asks a declared type, which is a string, for its
 own type.  A drift in constraints alone yields a plan and leaves the table as it is.
 */
module Reconciler {
  import opened Options
  import opened PyText
  import opened Schema
  import opened TableAlterations

  type Tables = map<string, Table>

  datatype Action =
    | Pruned(table: string)
    | Created(table: string)
    | Unchanged(table: string)
    | NeedsMigration(table: string)
    | AddedColumn(table: string, column: string)
    | DroppedColumn(table: string, column: string)

  /** The expected tables, in the order they are declared. */
  datatype Expected = Expected(order: seq<string>, declared: map<string, Declaration>)

  ghost predicate Proper(e: Expected) {
    && (forall i, j :: 0 <= i < j < |e.order| ==> e.order[i] != e.order[j])
    && (forall n :: n in e.order <==> n in e.declared)
    && (forall n :: n in e.declared ==> Distinct(Desired(e.declared[n])))
  }

  /** A declaration that does not parse is taken to declare no column. */
  function Desired(d: Declaration): seq<Column> {
    if d.columns.Some? then d.columns.value else []
  }

  function Lookup(tables: Tables, name: string): Option<Table> {
    if name in tables then Some(tables[name]) else None
  }

  /** `schema_matches`, which takes a declaration that does not parse as met. */
  predicate SchemaMatches(t: Option<Table>, d: Declaration) {
    t.Some? && (t.value.isVirtual || d.columns.None? || ColumnsMatch(t.value.columns, d.columns.value))
  }

  // ---------------------------------------------------------------------------------
  // The review of one table
  // ---------------------------------------------------------------------------------

  function Fresh(d: Declaration): Table {
    Table(Desired(d), d.isVirtual, 0, map n | n in Names(Desired(d)) :: [])
  }

  /** The table after its review; None if the review raises. */
  function Review(name: string, t: Option<Table>, d: Declaration, o: Oracle): Option<Table> {
    if t.None? then (if d.columns.None? && !d.isVirtual then None else Some(Fresh(d)))
    else if t.value.isVirtual then t
    else
      var actual, desired := t.value.columns, Desired(d);
      if TypeDrift(actual, desired) then None
      else if ConstraintDrift(actual, desired) then t
      else if Reverting(Extra(actual, desired), name, o) then None
      else Some(Altered(t.value, desired, name, o))
  }

  function Additions(name: string, columns: set<string>): set<Action> {
    set n | n in columns :: AddedColumn(name, n)
  }

  function Removals(name: string, columns: set<string>): set<Action> {
    set n | n in columns :: DroppedColumn(name, n)
  }

  /** The ALTERs that work, or `unchanged` if none does. */
  function Alterations(name: string, actual: seq<Column>, desired: seq<Column>, o: Oracle): set<Action> {
    var added := Addable(Missing(actual, desired), name, o);
    var dropped := Droppable(Extra(actual, desired), name, o);
    if added == {} && dropped == {} then {Unchanged(name)} else Additions(name, added) + Removals(name, dropped)
  }

  /** What the review reports. */
  function ActionsOf(name: string, t: Option<Table>, d: Declaration, o: Oracle): set<Action> {
    if t.None? then {Created(name)}
    else if t.value.isVirtual then {Unchanged(name)}
    else if ConstraintDrift(t.value.columns, Desired(d)) then {NeedsMigration(name)}
    else Alterations(name, t.value.columns, Desired(d), o)
  }

  // ---------------------------------------------------------------------------------
  // A pass
  // ---------------------------------------------------------------------------------

  /** What pruning spares: SQLite's own tables, shadow tables, clones and dynamic tables by
      their prefix, and the expected tables. */
  predicate Kept(e: Expected, table: string) {
    || StartsWithAt(table, 0, "sqlite_")
    || (exists base :: base in e.declared && StartsWithAt(table, 0, base + "_"))
    || StartsWithAt(table, 0, "_migrate_") || StartsWithAt(table, 0, "_old_")
    || StartsWithAt(table, 0, "sn_dt_")
    || table in e.declared
  }

  /** What is spared begins with one of these, or is expected. */
  lemma KeptIff(e: Expected, table: string)
    ensures Kept(e, table) <==>
              || table in e.declared
              || "sqlite_" <= table || "_migrate_" <= table || "_old_" <= table || "sn_dt_" <= table
              || (exists base :: base in e.declared && base + "_" <= table)
  {
    forall p: string ensures StartsWithAt(table, 0, p) <==> p <= table {
      if p <= table { assert table[0..|p|] == p; }
    }
  }

  function PrunedTables(tables: Tables, e: Expected): Tables {
    map n | n in tables && Kept(e, n) :: tables[n]
  }

  predicate OnlyDeclared(e: Expected, order: seq<string>) {
    forall n :: n in order ==> n in e.declared
  }

  /** No table raises among those of the list. */
  predicate Passes(tables: Tables, e: Expected, order: seq<string>, o: Oracle)
    requires OnlyDeclared(e, order)
  {
    forall n :: n in order ==> Review(n, Lookup(tables, n), e.declared[n], o).Some?
  }

  /** The tables once those of the list are reviewed. */
  function Reviewed(tables: Tables, e: Expected, order: seq<string>, o: Oracle): Tables
    requires OnlyDeclared(e, order) && Passes(tables, e, order, o)
  {
    map n | n in tables.Keys + (set x | x in order) ::
      if n in order then Review(n, Lookup(tables, n), e.declared[n], o).value else tables[n]
  }

  function ReviewActions(tables: Tables, e: Expected, order: seq<string>, o: Oracle): set<Action>
    requires OnlyDeclared(e, order)
  {
    set n, a | n in order && a in ActionsOf(n, Lookup(tables, n), e.declared[n], o) :: a
  }

  /** The tables after a pass that does not raise. */
  function AfterPass(tables: Tables, e: Expected, o: Oracle): Tables
    requires OnlyDeclared(e, e.order) && Passes(PrunedTables(tables, e), e, e.order, o)
  {
    Reviewed(PrunedTables(tables, e), e, e.order, o)
  }

  function PassActions(tables: Tables, e: Expected, o: Oracle): set<Action>
    requires OnlyDeclared(e, e.order)
  {
    PruneActions(tables.Keys, e) + ReviewActions(PrunedTables(tables, e), e, e.order, o)
  }

  /** A table whose review raised: untouched, or with its missing columns added and some of
      the extra ones dropped. */
  ghost predicate Halfway(name: string, t: Option<Table>, u: Option<Table>, desired: seq<Column>, o: Oracle) {
    || u == t
    || (t.Some? && u.Some?
        && exists dropped :: dropped <= Extra(t.value.columns, desired)
                && u.value == DropColumns(AddAll(t.value, Missing(t.value.columns, desired), name, o), dropped))
  }

  /** The state a pass that raises leaves behind. */
  ghost predicate StoppedAt(before: Tables, after: Tables, e: Expected, k: nat, o: Oracle)
    requires k <= |e.order| && OnlyDeclared(e, e.order[..k]) && Passes(before, e, e.order[..k], o)
  {
    && k < |e.order| && e.order[k] in e.declared
    && Review(e.order[k], Lookup(before, e.order[k]), e.declared[e.order[k]], o).None?
    && Halfway(e.order[k], Lookup(before, e.order[k]), Lookup(after, e.order[k]), Desired(e.declared[e.order[k]]), o)
    && forall n :: n != e.order[k] ==> Lookup(after, n) == Lookup(Reviewed(before, e, e.order[..k], o), n)
  }

  function PruneActions(names: set<string>, e: Expected): set<Action> {
    set n | n in names && !Kept(e, n) :: Pruned(n)
  }

  /** The tables while those of `existing` are still to be looked at. */
  function PrunedSoFar(tables: Tables, existing: set<string>, e: Expected): Tables {
    map n | n in tables && (n in existing || Kept(e, n)) :: tables[n]
  }

  /** The report grew by exactly these actions, in some order. */
  ghost predicate Reports(before: seq<Action>, after: seq<Action>, what: set<Action>) {
    before <= after && forall a :: a in after[|before|..] <==> a in what
  }

  lemma ReportOne(actions: seq<Action>, a: Action)
    ensures Reports(actions, actions + [a], {a})
  {
    assert (actions + [a])[|actions|..] == [a];
  }

  lemma NothingReported(actions: seq<Action>, what: set<Action>)
    ensures what == {} ==> Reports(actions, actions, what)
  {
  }

  lemma ReportsMore(before: seq<Action>, after: seq<Action>, what: set<Action>, a: Action)
    requires Reports(before, after, what)
    ensures Reports(before, after + [a], what + {a})
  {
    assert (after + [a])[|before|..] == after[|before|..] + [a];
  }

  lemma ReportsThen(before: seq<Action>, middle: seq<Action>, after: seq<Action>, x: set<Action>, y: set<Action>)
    requires Reports(before, middle, x) && Reports(middle, after, y)
    ensures Reports(before, after, x + y)
  {
    assert after[|before|..] == middle[|before|..] + after[|middle|..];
  }

  lemma PruneStart(tables: Tables)
    ensures forall e :: PrunedSoFar(tables, tables.Keys, e) == tables
    ensures forall e :: PrunedSoFar(tables, {}, e) == PrunedTables(tables, e)
  {
  }

  lemma PruneStep(tables: Tables, existing: set<string>, table: string, e: Expected)
    requires table in existing && existing <= tables.Keys
    ensures PrunedSoFar(tables, existing - {table}, e)
         == if Kept(e, table) then PrunedSoFar(tables, existing, e) else PrunedSoFar(tables, existing, e) - {table}
    ensures var done := PruneActions(tables.Keys - existing, e);
            PruneActions(tables.Keys - (existing - {table}), e)
            == if Kept(e, table) then done else done + {Pruned(table)}
  {
    hide Kept;
  }

  class SchemaReconciler {
    var tables: Tables
    var actions: seq<Action>
    const expected: Expected
    const oracle: Oracle

    constructor (tables: Tables, expected: Expected, oracle: Oracle)
      ensures this.tables == tables && actions == [] && this.expected == expected && this.oracle == oracle
    {
      this.tables, actions, this.expected, this.oracle := tables, [], expected, oracle;
    }

    /** `_prune_unexpected`, over the tables found at the start. */
    method PruneUnexpected()
      modifies this
      ensures tables == PrunedTables(old(tables), expected)
      ensures Reports(old(actions), actions, PruneActions(old(tables).Keys, expected))
    {
      var existing := tables.Keys;
      PruneStart(tables);
      NothingReported(actions, PruneActions(tables.Keys - existing, expected));
      while existing != {}
        invariant existing <= old(tables).Keys
        invariant tables == PrunedSoFar(old(tables), existing, expected)
        invariant Reports(old(actions), actions, PruneActions(old(tables).Keys - existing, expected))
        decreases |existing|
      {
        hide *;
        var table :| table in existing;
        PruneStep(old(tables), existing, table, expected);
        ReportsMore(old(actions), actions, PruneActions(old(tables).Keys - existing, expected), Pruned(table));
        existing := existing - {table};
        if !Kept(expected, table) {
          tables := tables - {table};
          actions := actions + [Pruned(table)];
        }
      }
    }

    /** `_add_missing_columns`. */
    method AddMissingColumns(name: string, missing: seq<Column>) returns (altered: bool)
      requires name in tables
      modifies this
      ensures tables == old(tables)[name := AddAll(old(tables)[name], missing, name, oracle)]
      ensures altered <==> Addable(missing, name, oracle) != {}
      ensures Reports(old(actions), actions, Additions(name, Addable(missing, name, oracle)))
    {
      ghost var added: set<string> := {};
      altered := false;
      assert missing[0..] == missing;
      AddableSnoc([], missing, 0, name, oracle);
      NothingReported(actions, Additions(name, {}));
      for k := 0 to |missing|
        invariant name in tables && tables == old(tables)[name := tables[name]]
        invariant AddAll(tables[name], missing[k..], name, oracle) == AddAll(old(tables)[name], missing, name, oracle)
        invariant added == Addable(missing[..k], name, oracle)
        invariant altered <==> added != {}
        invariant Reports(old(actions), actions, Additions(name, added))
      {
        hide Addable, Additions, Reports, AddColumn;
        AddableSnoc(missing[..k], missing, k, name, oracle);
        var column := missing[k];
        ReportsMore(old(actions), actions, Additions(name, added), AddedColumn(name, column.name));
        AdditionsMore(name, added, column.name);
        if !oracle.addFails(name, column.name) {
          UpdateTwice(old(tables), name, tables[name], AddColumn(tables[name], column));
          tables := tables[name := AddColumn(tables[name], column)];
          actions := actions + [AddedColumn(name, column.name)];
          added, altered := added + {column.name}, true;
        }
      }
      assert missing[..|missing|] == missing;
    }

    /** `_drop_extra_columns`, in whatever order the set yields them. */
    method DropExtraColumns(name: string, extra: set<string>) returns (ok: bool, altered: bool,
                            ghost dropped: set<string>)
      requires name in tables
      modifies this
      ensures ok <==> !Reverting(extra, name, oracle)
      ensures dropped <= extra && (ok ==> dropped == Droppable(extra, name, oracle))
      ensures tables == old(tables)[name := DropColumns(old(tables)[name], dropped)]
      ensures altered <==> dropped != {}
      ensures ok ==> Reports(old(actions), actions, Removals(name, dropped))
    {
      dropped, altered := {}, false;
      var pending := extra;
      NothingDropped(tables[name]);
      NothingReported(actions, Removals(name, {}));
      while pending != {}
        invariant pending <= extra && dropped == Droppable(extra - pending, name, oracle)
        invariant !Reverting(extra - pending, name, oracle)
        invariant tables == old(tables)[name := DropColumns(old(tables)[name], dropped)]
        invariant altered <==> dropped != {}
        invariant Reports(old(actions), actions, Removals(name, dropped))
        decreases |pending|
      {
        hide *;
        var column :| column in pending;
        DropStep(pending, extra, column, name, oracle);
        pending := pending - {column};
        if oracle.drop(name, column) == Reverts { return false, altered, dropped; }
        if oracle.drop(name, column) == Works {
          DropTwice(old(tables)[name], dropped, {column});
          ReportsMore(old(actions), actions, Removals(name, dropped), DroppedColumn(name, column));
          RemovalsMore(name, dropped, column);
          UpdateTwice(old(tables), name, tables[name], DropColumns(tables[name], {column}));
          tables := tables[name := DropColumns(tables[name], {column})];
          actions := actions + [DroppedColumn(name, column)];
          dropped, altered := dropped + {column}, true;
        }
      }
      return true, altered, dropped;
    }

    /** The body of the loop of `_validate_structures`. */
    method ValidateOne(name: string) returns (ok: bool)
      requires name in expected.declared
      modifies this
      ensures var before, d := Lookup(old(tables), name), expected.declared[name];
              && (ok <==> Review(name, before, d, oracle).Some?)
              && (ok ==> tables == old(tables)[name := Review(name, before, d, oracle).value])
              && (ok ==> Reports(old(actions), actions, ActionsOf(name, before, d, oracle)))
              && (!ok ==> Halfway(name, before, Lookup(tables, name), Desired(d), oracle))
      ensures forall n :: n != name ==> Lookup(tables, n) == Lookup(old(tables), n)
    {
      hide AddAll, Missing, Addable, Droppable, Without, TypeDrift, ConstraintDrift, Reverting, Reports, Additions,
          Removals;
      var d := expected.declared[name];
      if name !in tables {
        if d.columns.None? && !d.isVirtual { return false; }
        ReportOne(actions, Created(name));
        tables, actions := tables[name := Fresh(d)], actions + [Created(name)];
        return true;
      }
      var t := tables[name];
      assert tables == tables[name := t];
      var actual, desired := t.columns, Desired(d);
      if t.isVirtual {
        ReportOne(actions, Unchanged(name));
        actions := actions + [Unchanged(name)];
        return true;
      }
      if TypeDrift(actual, desired) { return false; }
      if ConstraintDrift(actual, desired) {
        ReportOne(actions, NeedsMigration(name));
        actions := actions + [NeedsMigration(name)];
        return true;
      }
      ok := AlterTable(name, t, desired);
    }

    /** Its last part, for a table without drift. */
    method AlterTable(name: string, t: Table, desired: seq<Column>) returns (ok: bool)
      requires name in tables && tables[name] == t
      modifies this
      ensures ok <==> !Reverting(Extra(t.columns, desired), name, oracle)
      ensures ok ==> tables == old(tables)[name := Altered(t, desired, name, oracle)]
      ensures ok ==> Reports(old(actions), actions, Alterations(name, t.columns, desired, oracle))
      ensures !ok ==> Halfway(name, Some(t), Lookup(tables, name), desired, oracle)
      ensures forall n :: n != name ==> Lookup(tables, n) == Lookup(old(tables), n)
    {
      hide AddAll, Missing, Addable, Droppable, Without, Reverting, Reports, Additions, Removals;
      var missing, extra := Missing(t.columns, desired), Extra(t.columns, desired);
      var added := AddMissingColumns(name, missing);
      ghost var middle := actions;
      var removed;
      ghost var dropped;
      ok, removed, dropped := DropExtraColumns(name, extra);
      if ok {
        ReportsThen(old(actions), middle, actions,
                    Additions(name, Addable(missing, name, oracle)), Removals(name, dropped));
        if !added && !removed {
          NoAlterations(name);
          ReportsMore(old(actions), actions, {}, Unchanged(name));
          assert {} + {Unchanged(name)} == {Unchanged(name)};
          actions := actions + [Unchanged(name)];
        }
      }
    }

    /** `_validate_structures`: it stops at the first table that raises. */
    method ValidateStructures() returns (ok: bool, ghost reviewed: nat)
      requires Proper(expected)
      modifies this
      ensures reviewed <= |expected.order| && (ok <==> reviewed == |expected.order|)
      ensures OnlyDeclared(expected, expected.order[..reviewed])
      ensures Passes(old(tables), expected, expected.order[..reviewed], oracle)
      ensures ok ==> tables == Reviewed(old(tables), expected, expected.order[..reviewed], oracle)
      ensures ok ==>
                Reports(old(actions), actions, ReviewActions(old(tables), expected, expected.order[..reviewed], oracle))
      ensures !ok ==> StoppedAt(old(tables), tables, expected, reviewed, oracle)
    {
      reviewed := 0;
      assert expected.order[..0] == [];
      NothingReviewed(tables, expected, oracle);
      NothingReported(actions, ReviewActions(tables, expected, [], oracle));
      for k := 0 to |expected.order|
        invariant reviewed == k && OnlyDeclared(expected, expected.order[..k])
        invariant Passes(old(tables), expected, expected.order[..k], oracle)
        invariant tables == Reviewed(old(tables), expected, expected.order[..k], oracle)
        invariant Reports(old(actions), actions, ReviewActions(old(tables), expected, expected.order[..k], oracle))
      {
        hide *;
        var name := expected.order[k];
        ReviewStep(old(tables), expected, k, oracle);
        ghost var middle, before := actions, tables;
        ok := ValidateOne(name);
        if !ok {
          StopsHere(old(tables), before, tables, expected, k, oracle);
          return;
        }
        ReportsThen(old(actions), middle, actions, ReviewActions(old(tables), expected, expected.order[..k], oracle),
                    ActionsOf(name, Lookup(old(tables), name), expected.declared[name], oracle));
        reviewed := k + 1;
      }
      ok := true;
    }

    /** `reconcile`, up to the validation of triggers. */
    method Reconcile() returns (ok: bool, ghost reviewed: nat)
      requires Proper(expected)
      modifies this
      ensures OnlyDeclared(expected, expected.order)
      ensures ok <==> Passes(PrunedTables(old(tables), expected), expected, expected.order, oracle)
      ensures ok ==> tables == AfterPass(old(tables), expected, oracle)
      ensures ok ==> Reports(old(actions), actions, PassActions(old(tables), expected, oracle))
      ensures reviewed <= |expected.order| && OnlyDeclared(expected, expected.order[..reviewed])
      ensures Passes(PrunedTables(old(tables), expected), expected, expected.order[..reviewed], oracle)
      ensures !ok ==> StoppedAt(PrunedTables(old(tables), expected), tables, expected, reviewed, oracle)
    {
      PruneUnexpected();
      ghost var middle, pruned := actions, tables;
      ok, reviewed := ValidateStructures();
      hide *;
      if ok {
        assert expected.order[..reviewed] == expected.order;
        ReportsThen(old(actions), middle, actions, PruneActions(old(tables).Keys, expected),
                    ReviewActions(pruned, expected, expected.order, oracle));
        PassIs(old(tables), expected, oracle);
      } else {
        StoppedRaises(pruned, tables, expected, reviewed, oracle);
      }
    }
  }

  lemma UpdateTwice(tables: Tables, name: string, t: Table, u: Table)
    ensures tables[name := t][name := u] == tables[name := u]
  {
  }

  lemma NothingDropped(t: Table)
    ensures DropColumns(t, {}) == t
  {
    WithoutNone(t.columns);
  }

  lemma DropStep(pending: set<string>, extra: set<string>, column: string, name: string, o: Oracle)
    requires column in pending && pending <= extra
    ensures var done := Droppable(extra - pending, name, o);
            && done <= extra
            && Droppable(extra - (pending - {column}), name, o)
            == if o.drop(name, column).Works? then done + {column} else done
    ensures o.drop(name, column).Reverts? ==> Reverting(extra, name, o)
    ensures !Reverting(extra - pending, name, o) && !o.drop(name, column).Reverts? ==>
              !Reverting(extra - (pending - {column}), name, o)
  {
  }

  lemma RemovalsMore(name: string, columns: set<string>, column: string)
    ensures Removals(name, columns + {column}) == Removals(name, columns) + {DroppedColumn(name, column)}
    ensures columns + {column} != {}
  {
  }

  lemma AdditionsMore(name: string, columns: set<string>, column: string)
    ensures Additions(name, columns + {column}) == Additions(name, columns) + {AddedColumn(name, column)}
    ensures columns + {column} != {}
  {
  }

  /** The columns added once the k-th of the missing ones is looked at. */
  lemma AddableSnoc(before: seq<Column>, missing: seq<Column>, k: nat, name: string, o: Oracle)
    requires k <= |missing| && before == missing[..k]
    ensures before == [] ==> Addable(before, name, o) == {}
    ensures k < |missing| ==>
              missing[k..] != [] && missing[k..][0] == missing[k] && missing[k..][1..] == missing[k + 1..]
    ensures k < |missing| && o.addFails(name, missing[k].name) ==>
              Addable(missing[..k + 1], name, o) == Addable(before, name, o)
    ensures k < |missing| && !o.addFails(name, missing[k].name) ==>
              Addable(missing[..k + 1], name, o) == Addable(before, name, o) + {missing[k].name}
  {
    if k < |missing| {
      assert missing[..k + 1] == before + [missing[k]];
      NamesAppend(before, [missing[k]]);
      assert Names([missing[k]]) == {missing[k].name};
    }
  }

  lemma NoAlterations(name: string)
    ensures Additions(name, {}) + Removals(name, {}) == {}
  {
  }

  lemma NothingReviewed(tables: Tables, e: Expected, o: Oracle)
    ensures OnlyDeclared(e, []) && Passes(tables, e, [], o)
    ensures Reviewed(tables, e, [], o) == tables && ReviewActions(tables, e, [], o) == {}
  {
  }

  /** Reviewing one more table touches that table only. */
  lemma ReviewStep(tables: Tables, e: Expected, k: nat, o: Oracle)
    requires Proper(e) && k < |e.order|
    requires OnlyDeclared(e, e.order[..k]) && Passes(tables, e, e.order[..k], o)
    ensures OnlyDeclared(e, e.order[..k + 1]) && e.order[k] in e.declared
    ensures Lookup(Reviewed(tables, e, e.order[..k], o), e.order[k]) == Lookup(tables, e.order[k])
    ensures var after := Review(e.order[k], Lookup(tables, e.order[k]), e.declared[e.order[k]], o);
            && (Passes(tables, e, e.order[..k + 1], o) <==> after.Some?)
            && (after.Some? ==>
                  Reviewed(tables, e, e.order[..k + 1], o) ==
                      Reviewed(tables, e, e.order[..k], o)[e.order[k] := after.value])
    ensures ReviewActions(tables, e, e.order[..k + 1], o)
         == ReviewActions(tables, e, e.order[..k], o) +
             ActionsOf(e.order[k], Lookup(tables, e.order[k]), e.declared[e.order[k]], o)
  {
    var order, name := e.order[..k], e.order[k];
    assert e.order[..k + 1] == order + [name];
    assert name in e.order && name !in order;
    ReviewOneMore(tables, e, order, name, o);
    ReportOneMore(tables, e, order, name, o);
  }

  lemma ReviewOneMore(tables: Tables, e: Expected, order: seq<string>, name: string, o: Oracle)
    requires OnlyDeclared(e, order) && Passes(tables, e, order, o) && name in e.declared && name !in order
    ensures OnlyDeclared(e, order + [name])
    ensures Lookup(Reviewed(tables, e, order, o), name) == Lookup(tables, name)
    ensures var after := Review(name, Lookup(tables, name), e.declared[name], o);
            && (Passes(tables, e, order + [name], o) <==> after.Some?)
            && (after.Some? ==>
                Reviewed(tables, e, order + [name], o) == Reviewed(tables, e, order, o)[name := after.value])
  {
    hide Review;
    assert name in order + [name];
  }

  lemma ReportOneMore(tables: Tables, e: Expected, order: seq<string>, name: string, o: Oracle)
    requires OnlyDeclared(e, order) && name in e.declared
    ensures OnlyDeclared(e, order + [name])
    ensures ReviewActions(tables, e, order + [name], o)
         == ReviewActions(tables, e, order, o) + ActionsOf(name, Lookup(tables, name), e.declared[name], o)
  {
    hide ActionsOf;
    assert forall n :: n in order + [name] <==> n in order || n == name;
  }

  lemma StopsHere(first: Tables, before: Tables, after: Tables, e: Expected, k: nat, o: Oracle)
    requires k < |e.order| && OnlyDeclared(e, e.order[..k]) && Passes(first, e, e.order[..k], o)
    requires before == Reviewed(first, e, e.order[..k], o) && e.order[k] in e.declared
    requires Lookup(before, e.order[k]) == Lookup(first, e.order[k])
    requires Review(e.order[k], Lookup(first, e.order[k]), e.declared[e.order[k]], o).None?
    requires Halfway(e.order[k], Lookup(before, e.order[k]), Lookup(after, e.order[k]),
                     Desired(e.declared[e.order[k]]), o)
    requires forall n :: n != e.order[k] ==> Lookup(after, n) == Lookup(before, n)
    ensures StoppedAt(first, after, e, k, o)
  {
    hide Halfway, Review, Reviewed, Passes, Desired;
  }

  lemma StoppedRaises(before: Tables, after: Tables, e: Expected, k: nat, o: Oracle)
    requires Proper(e) && k <= |e.order| && OnlyDeclared(e, e.order[..k]) && Passes(before, e, e.order[..k], o)
    requires StoppedAt(before, after, e, k, o)
    ensures OnlyDeclared(e, e.order) && !Passes(before, e, e.order, o) && k < |e.order|
  {
    hide Halfway, Review, Reviewed;
    assert e.order[k] in e.order;
  }

  lemma PassIs(tables: Tables, e: Expected, o: Oracle)
    requires OnlyDeclared(e, e.order) && Passes(PrunedTables(tables, e), e, e.order, o)
    ensures AfterPass(tables, e, o) == Reviewed(PrunedTables(tables, e), e, e.order, o)
    ensures PassActions(tables, e, o) == PruneActions(tables.Keys, e) +
              ReviewActions(PrunedTables(tables, e), e, e.order, o)
  {
    hide Reviewed, ReviewActions, PruneActions;
  }
}
