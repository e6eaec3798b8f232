/**
 What the reconciler does to the columns of one table (`database/management/reconciler.py`):
 ADD COLUMN for the missing ones, DROP COLUMN for the extra ones.  A declaration stands for
 the columns it creates, or for nothing if it does not parse.  Which ALTER TABLE statements
 fail is decided by an oracle.
 */
module TableAlterations {
  import opened Options
  import opened PyText
  import opened Schema

  /** A table with the cells of each column. */
  datatype Table = Table(columns: seq<Column>, isVirtual: bool, rowCount: nat, cells: map<string, seq<string>>)

  datatype Declaration = Declaration(columns: Option<seq<Column>>, isVirtual: bool)

  /** A failed DROP COLUMN raises if the backup taken before it can be put back, and is
      skipped otherwise. */
  datatype Drop = Works | Skipped | Reverts

  /** What becomes of the ALTER TABLE statements; a failed ADD COLUMN is always skipped. */
  datatype Oracle = Oracle(addFails: (string, string) -> bool, drop: (string, string) -> Drop)

  // ---------------------------------------------------------------------------------
  // One table
  // ---------------------------------------------------------------------------------

  /** The desired columns the table lacks, in declaration order. */
  function Missing(actual: seq<Column>, desired: seq<Column>): seq<Column> {
    if desired == [] then []
    else (if desired[0].name in Names(actual) then [] else [desired[0]]) + Missing(actual, desired[1..])
  }

  function Extra(actual: seq<Column>, desired: seq<Column>): set<string> {
    Names(actual) - Names(desired)
  }

  /** A common column of another affinity. */
  predicate TypeDrift(actual: seq<Column>, desired: seq<Column>) {
    exists n :: n in Names(actual) * Names(desired)
      && NormalizeTypeAffinity(Find(actual, n).type_) != NormalizeTypeAffinity(Find(desired, n).type_)
  }

  /** A common column that differs in NOT NULL or in its place in the primary key. */
  predicate ConstraintDrift(actual: seq<Column>, desired: seq<Column>) {
    exists n :: n in Names(actual) * Names(desired)
      && (Find(actual, n).notNull != Find(desired, n).notNull || Find(actual, n).pk != Find(desired, n).pk)
  }

  predicate NoDrift(actual: seq<Column>, desired: seq<Column>) {
    !TypeDrift(actual, desired) && !ConstraintDrift(actual, desired)
  }

  /** The column ADD COLUMN creates: never part of the key, TEXT if declared without a type. */
  function AddedAs(d: Column): Column {
    var t := if d.type_ == "" then "TEXT" else d.type_;
    var fill := match NormalizeTypeAffinity(t)
                case INTEGER => "0"
                case REAL => "0.0"
                case _ => "''";
    Column(d.name, t, d.notNull,
           if d.notNull then Some(if d.default.Some? then d.default.value else fill) else d.default, 0)
  }

  function CellFor(c: Column): string {
    if c.default.Some? then c.default.value else "NULL"
  }

  function AddColumn(t: Table, d: Column): Table {
    var c := AddedAs(d);
    t.(columns := t.columns + [c], cells := t.cells[c.name := seq(t.rowCount, i => CellFor(c))])
  }

  /** ADD COLUMN for each missing column in turn. */
  function AddAll(t: Table, missing: seq<Column>, name: string, o: Oracle): Table
    decreases |missing|
  {
    if missing == [] then t
    else AddAll(if o.addFails(name, missing[0].name) then t else AddColumn(t, missing[0]), missing[1..], name, o)
  }

  function Without(cols: seq<Column>, names: set<string>): seq<Column> {
    if cols == [] then [] else (if cols[0].name in names then [] else [cols[0]]) + Without(cols[1..], names)
  }

  function DropColumns(t: Table, names: set<string>): Table {
    t.(columns := Without(t.columns, names), cells := t.cells - names)
  }

  /** The columns whose ADD COLUMN works. */
  function Addable(missing: seq<Column>, name: string, o: Oracle): (names: set<string>)
    ensures forall n :: n in names <==> n in Names(missing) && !o.addFails(name, n)
  {
    set n | n in Names(missing) && !o.addFails(name, n)
  }

  /** The columns whose DROP COLUMN works. */
  function Droppable(extra: set<string>, name: string, o: Oracle): (names: set<string>)
    ensures forall n :: n in names <==> n in extra && o.drop(name, n).Works?
  {
    set n | n in extra && o.drop(name, n).Works?
  }

  predicate Reverting(extra: set<string>, name: string, o: Oracle) {
    exists n :: n in extra && o.drop(name, n).Reverts?
  }

  /** An existing ordinary table after its ALTERs. */
  function Altered(t: Table, desired: seq<Column>, name: string, o: Oracle): Table {
    DropColumns(AddAll(t, Missing(t.columns, desired), name, o), Droppable(Extra(t.columns, desired), name, o))
  }

  predicate Sound(t: Table) {
    Distinct(t.columns) && t.cells.Keys == Names(t.columns)
  }

  // ---------------------------------------------------------------------------------
  // What the alterations make of a table
  // ---------------------------------------------------------------------------------

  lemma NamesAppend(a: seq<Column>, b: seq<Column>)
    ensures Names(a + b) == Names(a) + Names(b)
  {
    forall n ensures n in Names(a + b) <==> n in Names(a) + Names(b) {
      if n in Names(a) {
        var k :| 0 <= k < |a| && a[k].name == n;
        assert (a + b)[k] == a[k];
      }
      if n in Names(b) {
        var k :| 0 <= k < |b| && b[k].name == n;
        assert (a + b)[|a| + k] == b[k];
      }
    }
  }

  /** The names of a list, first column first. */
  lemma NamesCons(cols: seq<Column>)
    requires cols != []
    ensures Names(cols) == {cols[0].name} + Names(cols[1..])
  {
    assert cols == [cols[0]] + cols[1..];
    NamesAppend([cols[0]], cols[1..]);
    assert Names([cols[0]]) == {cols[0].name};
  }

  lemma DistinctTail(cols: seq<Column>)
    requires Distinct(cols) && cols != []
    ensures Distinct(cols[1..]) && cols[0].name !in Names(cols[1..])
  {
    var rest := cols[1..];
    assert forall i :: 0 <= i < |rest| ==> rest[i] == cols[i + 1];
  }

  lemma DistinctCons(c: Column, rest: seq<Column>)
    requires Distinct(rest) && c.name !in Names(rest)
    ensures Distinct([c] + rest)
  {
    forall i, j | 0 <= i < j < |[c] + rest| ensures ([c] + rest)[i].name != ([c] + rest)[j].name {
      if i > 0 {
        assert rest[i - 1].name != rest[j - 1].name;
      }
    }
  }

  lemma FindIs(cols: seq<Column>, c: Column)
    requires Distinct(cols) && c in cols
    ensures c.name in Names(cols) && Find(cols, c.name) == c
  {
    var k :| 0 <= k < |cols| && cols[k] == c;
  }

  lemma InNames(cols: seq<Column>, n: string)
    ensures n in Names(cols) <==> exists c :: c in cols && c.name == n
  {
    if n in Names(cols) {
      var k :| 0 <= k < |cols| && cols[k].name == n;
      assert cols[k] in cols;
    }
  }

  lemma {:induction false} NamesSize(a: seq<Column>)
    requires Distinct(a)
    ensures |Names(a)| == |a|
  {
    if a == [] {
      assert Names(a) == {};
    } else {
      NamesCons(a);
      DistinctTail(a);
      NamesSize(a[1..]);
    }
  }

  /** `r` has the columns and cells of `t`, and the added ones. */
  predicate Extends(t: Table, r: Table, missing: seq<Column>, added: set<string>) {
    && Sound(r) && r.isVirtual == t.isVirtual && r.rowCount == t.rowCount
    && Names(r.columns) == Names(t.columns) + added
    && (forall c :: c in t.columns ==> c in r.columns)
    && (forall c :: c in missing && c.name in added ==> HasAdded(r, c))
    && (forall n :: n in t.cells ==> n in r.cells && r.cells[n] == t.cells[n])
  }

  /** The column as ADD COLUMN creates it, with the same cell in every row. */
  predicate HasAdded(r: Table, c: Column) {
    AddedAs(c) in r.columns && c.name in r.cells && Same(r.cells[c.name], r.rowCount, CellFor(AddedAs(c)))
  }

  predicate Same(cells: seq<string>, rows: nat, cell: string) {
    |cells| == rows && forall i :: 0 <= i < |cells| ==> cells[i] == cell
  }

  lemma NamesOne(c: Column)
    ensures Names([c]) == {c.name}
  {
    assert [c][0] == c;
    forall n | n in Names([c]) ensures n == c.name {
    }
  }

  lemma AddOneEffect(t: Table, d: Column)
    requires Sound(t) && d.name !in Names(t.columns)
    ensures Extends(t, AddColumn(t, d), [d], {d.name})
  {
    var c := AddedAs(d);
    NamesAppend(t.columns, [c]);
    NamesOne(c);
    assert (t.columns + [c])[|t.columns|] == c;
    forall k | 0 <= k < |t.columns| ensures t.columns[k].name != d.name {
    }
  }

  /** Adding columns one by one: the old columns stay, each new one is added as ADD COLUMN
      creates it unless that fails, and the cells of the old columns are untouched. */
  lemma {:induction false} AddAllEffect(t: Table, missing: seq<Column>, name: string, o: Oracle)
    requires Sound(t) && Distinct(missing) && Names(missing) !! Names(t.columns)
    ensures Extends(t, AddAll(t, missing, name, o), missing, Addable(missing, name, o))
    decreases |missing|
  {
    if missing != [] {
      DistinctTail(missing);
      NamesCons(missing);
      var d := missing[0];
      AddOneEffect(t, d);
      var u := if o.addFails(name, d.name) then t else AddColumn(t, d);
      AddAllEffect(u, missing[1..], name, o);
      AddAllStep(t, u, AddAll(t, missing, name, o), missing, name, o);
    }
  }

  lemma AddAllStep(t: Table, u: Table, r: Table, missing: seq<Column>, name: string, o: Oracle)
    requires Sound(t) && missing != [] && Distinct(missing) && Names(missing) !! Names(t.columns)
    requires u == if o.addFails(name, missing[0].name) then t else AddColumn(t, missing[0])
    requires Extends(u, r, missing[1..], Addable(missing[1..], name, o))
    ensures Extends(t, r, missing, Addable(missing, name, o))
  {
    DistinctTail(missing);
    AddableCons(missing, name, o);
    var d, added := missing[0], Addable(missing[1..], name, o);
    if o.addFails(name, d.name) {
      hide *;
      SkipStep(t, r, missing, added);
    } else {
      HeadIsNew(missing, Names(t.columns));
      AddOneEffect(t, d);
      hide *;
      AddStep(t, u, r, missing, added);
    }
  }

  lemma HeadIsNew(missing: seq<Column>, names: set<string>)
    requires missing != [] && Names(missing) !! names
    ensures missing[0].name !in names
  {
    assert missing[0].name in Names(missing);
  }

  lemma AddableCons(missing: seq<Column>, name: string, o: Oracle)
    requires missing != []
    ensures Addable(missing[1..], name, o) <= Names(missing[1..])
    ensures Addable(missing, name, o) == if o.addFails(name, missing[0].name) then Addable(missing[1..], name, o)
                                         else {missing[0].name} + Addable(missing[1..], name, o)
  {
    NamesCons(missing);
    hide Names;
  }

  lemma SkipStep(t: Table, r: Table, missing: seq<Column>, added: set<string>)
    requires missing != [] && missing[0].name !in Names(missing[1..]) && added <= Names(missing[1..])
    requires Extends(t, r, missing[1..], added)
    ensures Extends(t, r, missing, added)
  {
    hide AddedAs, Names, Sound, HasAdded;
    assert forall c :: c in missing ==> c == missing[0] || c in missing[1..];
  }

  lemma AddStep(t: Table, u: Table, r: Table, missing: seq<Column>, added: set<string>)
    requires missing != [] && missing[0].name !in Names(missing[1..]) && added <= Names(missing[1..])
    requires Extends(t, u, [missing[0]], {missing[0].name}) && Extends(u, r, missing[1..], added)
    ensures Extends(t, r, missing, {missing[0].name} + added)
  {
    hide AddedAs, Names, Sound, Same;
    var d := missing[0];
    assert Names(t.columns) + {d.name} + added == Names(t.columns) + ({d.name} + added);
    assert HasAdded(u, d);
    forall c | c in missing && c.name in {d.name} + added ensures HasAdded(r, c) {
      NewlyAdded(u, r, missing, added, c);
    }
  }

  lemma NewlyAdded(u: Table, r: Table, missing: seq<Column>, added: set<string>, c: Column)
    requires missing != [] && added <= Names(missing[1..])
    requires c in missing && c.name in {missing[0].name} + added
    requires HasAdded(u, missing[0]) && missing[0].name !in Names(missing[1..]) && r.rowCount == u.rowCount
    requires forall e :: e in u.columns ==> e in r.columns
    requires forall n :: n in u.cells ==> n in r.cells && r.cells[n] == u.cells[n]
    requires forall e :: e in missing[1..] && e.name in added ==> HasAdded(r, e)
    ensures HasAdded(r, c)
  {
    hide AddedAs, Same;
    if c != missing[0] {
      assert c in missing[1..];
      InNames(missing[1..], c.name);
    }
  }

  lemma {:induction false} WithoutEffect(cols: seq<Column>, names: set<string>)
    requires Distinct(cols)
    ensures Distinct(Without(cols, names)) && Names(Without(cols, names)) == Names(cols) - names
    ensures forall c :: c in Without(cols, names) <==> c in cols && c.name !in names
  {
    if cols == [] {
      assert Names(cols) == {};
    } else {
      var rest := Without(cols[1..], names);
      DistinctTail(cols);
      NamesCons(cols);
      WithoutEffect(cols[1..], names);
      hide Names, Distinct;
      if cols[0].name in names {
        assert Without(cols, names) == rest;
      } else {
        DistinctCons(cols[0], rest);
        NamesCons([cols[0]] + rest);
        assert ([cols[0]] + rest)[1..] == rest;
      }
    }
  }

  /** Dropping in two steps is dropping both sets at once. */
  lemma {:induction false} WithoutTwice(cols: seq<Column>, a: set<string>, b: set<string>)
    ensures Without(Without(cols, a), b) == Without(cols, a + b)
  {
    if cols != [] {
      WithoutTwice(cols[1..], a, b);
      var rest := Without(cols[1..], a);
      if cols[0].name !in a {
        assert ([cols[0]] + rest)[1..] == rest;
      } else {
        assert [] + rest == rest;
      }
    }
  }

  lemma DropTwice(t: Table, a: set<string>, b: set<string>)
    ensures DropColumns(DropColumns(t, a), b) == DropColumns(t, a + b)
  {
    WithoutTwice(t.columns, a, b);
    assert t.cells - a - b == t.cells - (a + b);
  }

  lemma {:induction false} WithoutNone(cols: seq<Column>)
    ensures Without(cols, {}) == cols
  {
    if cols != [] { WithoutNone(cols[1..]); }
  }

  lemma {:induction false} MissingEffect(actual: seq<Column>, desired: seq<Column>)
    requires Distinct(desired)
    ensures Distinct(Missing(actual, desired)) && Names(Missing(actual, desired)) == Names(desired) - Names(actual)
    ensures forall c :: c in Missing(actual, desired) <==> c in desired && c.name !in Names(actual)
  {
    if desired == [] {
      assert Names(desired) == {};
    } else {
      var rest := Missing(actual, desired[1..]);
      DistinctTail(desired);
      NamesCons(desired);
      MissingEffect(actual, desired[1..]);
      hide Names, Distinct;
      if desired[0].name in Names(actual) {
        assert Missing(actual, desired) == rest;
      } else {
        DistinctCons(desired[0], rest);
        NamesCons([desired[0]] + rest);
        assert ([desired[0]] + rest)[1..] == rest;
      }
    }
  }

  /** What ADD COLUMN creates has the declared shape exactly if the column is no key column
      and its type is declared. */
  lemma AddedShapeIff(d: Column)
    ensures AddedAs(d).name == d.name
    ensures SameShape(AddedAs(d), d) <==> d.pk == 0 && d.type_ != ""
  {
    AffinityOfPlainTypes();
    hide NormalizeTypeAffinity;
  }

  lemma NoDriftIff(actual: seq<Column>, desired: seq<Column>)
    ensures NoDrift(actual, desired)
       <==> forall n :: n in Names(actual) && n in Names(desired) ==> SameShape(Find(actual, n), Find(desired, n))
  {
    hide NormalizeTypeAffinity, Find, Names;
    forall n | n in Names(actual) && n in Names(desired) && !SameShape(Find(actual, n), Find(desired, n))
      ensures !NoDrift(actual, desired)
    {
      assert n in Names(actual) * Names(desired);
    }
  }

  /** Every ALTER the table needs works. */
  predicate AltersWork(actual: seq<Column>, desired: seq<Column>, name: string, o: Oracle) {
    && (forall n :: n in Names(desired) - Names(actual) ==> !o.addFails(name, n))
    && (forall n :: n in Extra(actual, desired) ==> o.drop(name, n).Works?)
  }

  /** What ADD COLUMN can create as declared. */
  predicate Creatable(actual: seq<Column>, desired: seq<Column>) {
    forall c :: c in desired && c.name !in Names(actual) ==> c.pk == 0 && c.type_ != ""
  }

  /** The table after its ALTERs: no cell of a wanted column is touched. */
  lemma AlteredEffect(t: Table, desired: seq<Column>, name: string, o: Oracle)
    requires Sound(t) && Distinct(desired)
    ensures var r := Altered(t, desired, name, o);
            && Sound(r) && r.isVirtual == t.isVirtual && r.rowCount == t.rowCount
            && Names(r.columns) == Names(t.columns) + Addable(Missing(t.columns, desired), name, o)
                                 - Droppable(Extra(t.columns, desired), name, o)
            && (forall c :: c in t.columns && c.name in Names(desired) ==> c in r.columns)
            && (forall c :: c in desired && c.name !in Names(t.columns) && !o.addFails(name, c.name) ==>
                AddedAs(c) in r.columns)
            && (forall c :: c in desired && c.name !in Names(t.columns) && !o.addFails(name, c.name) ==> HasAdded(r, c))
            && (forall n :: n in Names(t.columns) * Names(desired) ==> n in r.cells && r.cells[n] == t.cells[n])
  {
    var missing := Missing(t.columns, desired);
    MissingEffect(t.columns, desired);
    AddAllEffect(t, missing, name, o);
    var u := AddAll(t, missing, name, o);
    var drop := Droppable(Extra(t.columns, desired), name, o);
    WithoutEffect(u.columns, drop);
    hide AddAll, Missing, Without, NormalizeTypeAffinity, HasAdded;
    forall c | c in desired && c.name !in Names(t.columns) && !o.addFails(name, c.name)
      ensures HasAdded(Altered(t, desired, name, o), c) && AddedAs(c) in Altered(t, desired, name, o).columns
    {
      assert c in missing;
      InNames(missing, c.name);
      DroppingKeepsAdded(u, drop, c);
    }
  }

  lemma DroppingKeepsAdded(u: Table, drop: set<string>, c: Column)
    requires Sound(u) && HasAdded(u, c) && c.name !in drop
    ensures HasAdded(DropColumns(u, drop), c) && AddedAs(c) in DropColumns(u, drop).columns
  {
    WithoutEffect(u.columns, drop);
    AddedShapeIff(c);
    hide Without, Same, NormalizeTypeAffinity, Names;
  }

  /** What a new column holds by default: the declared default; without one, nothing if it may
      be NULL, and otherwise the zero of its affinity. */
  ghost predicate IsDefaultOf(default: Option<string>, c: Column) {
    if c.default.Some? then default == c.default
    else if !c.notNull then default == None
    else
      var affinity := NormalizeTypeAffinity(if c.type_ == "" then "TEXT" else c.type_);
      default == Some(if affinity == INTEGER then "0" else if affinity == REAL then "0.0" else "''")
  }

  /** A column of the table as `c` was added, filled in every row. */
  ghost predicate IsNewColumn(r: Table, c: Column) {
    exists col :: col in r.columns && IsColumnFor(col, c) && c.name in r.cells && |r.cells[c.name]| == r.rowCount
      && forall i :: 0 <= i < r.rowCount ==>
           r.cells[c.name][i] == if col.default.Some? then col.default.value else "NULL"
  }

  ghost predicate IsColumnFor(col: Column, c: Column) {
    && col.name == c.name && col.type_ == (if c.type_ == "" then "TEXT" else c.type_)
    && col.notNull == c.notNull && col.pk == 0 && IsDefaultOf(col.default, c)
  }

  /** Every declared column the table lacked and whose ADD COLUMN worked is there, with its
      default in every row. */
  lemma NewColumnsAreFilled(t: Table, desired: seq<Column>, name: string, o: Oracle, c: Column)
    requires Sound(t) && Distinct(desired)
    requires c in desired && c.name !in Names(t.columns) && !o.addFails(name, c.name)
    ensures IsNewColumn(Altered(t, desired, name, o), c)
  {
    AlteredEffect(t, desired, name, o);
    hide Altered, NormalizeTypeAffinity;
    AddedIsNew(Altered(t, desired, name, o), c);
  }

  lemma AddedIsNew(r: Table, c: Column)
    requires HasAdded(r, c)
    ensures IsNewColumn(r, c)
  {
    hide NormalizeTypeAffinity;
    assert IsColumnFor(AddedAs(c), c);
  }

  /** A pass brings a table to its declaration exactly when nothing drifts, every ALTER it
      needs works, and no missing column is a key column or typeless. */
  lemma AlteredMatchesIff(t: Table, desired: seq<Column>, name: string, o: Oracle)
    requires Sound(t) && Distinct(desired) && NoDrift(t.columns, desired)
    ensures ColumnsMatch(Altered(t, desired, name, o).columns, desired)
       <==> AltersWork(t.columns, desired, name, o) && Creatable(t.columns, desired)
  {
    var r := Altered(t, desired, name, o);
    AlteredEffect(t, desired, name, o);
    AlteredNamesIff(t, desired, name, o);
    if AltersWork(t.columns, desired, name, o) {
      NamesSize(r.columns);
      NamesSize(desired);
      AlteredShapesIff(t, desired, name, o);
    }
  }

  lemma SetsMeet(had: set<string>, want: set<string>, added: set<string>, dropped: set<string>)
    requires added <= want - had && dropped <= had - want
    ensures had + added - dropped == want <==> added == want - had && dropped == had - want
  {
    if had + added - dropped == want {
      forall n | n in want - had ensures n in added {
        assert n in had + added - dropped;
      }
      forall n | n in had - want ensures n in dropped {
        assert n !in had + added - dropped;
      }
    }
  }

  lemma AlteredNamesIff(t: Table, desired: seq<Column>, name: string, o: Oracle)
    requires Sound(t) && Distinct(desired)
    ensures Names(Altered(t, desired, name, o).columns) == Names(desired) <==> AltersWork(t.columns, desired, name, o)
  {
    AlteredEffect(t, desired, name, o);
    MissingEffect(t.columns, desired);
    hide Altered, Missing, Names, AddedAs, Sound, Distinct;
    var added := Addable(Missing(t.columns, desired), name, o);
    var dropped := Droppable(Extra(t.columns, desired), name, o);
    SetsMeet(Names(t.columns), Names(desired), added, dropped);
    AddsWorkIff(t.columns, desired, name, o);
    DropsWorkIff(Extra(t.columns, desired), name, o);
  }

  lemma AddsWorkIff(actual: seq<Column>, desired: seq<Column>, name: string, o: Oracle)
    requires Distinct(desired)
    ensures Addable(Missing(actual, desired), name, o) == Names(desired) - Names(actual)
       <==> forall n :: n in Names(desired) - Names(actual) ==> !o.addFails(name, n)
  {
    MissingEffect(actual, desired);
    hide Missing, Names;
    if Addable(Missing(actual, desired), name, o) == Names(desired) - Names(actual) {
      forall n | n in Names(desired) - Names(actual) ensures !o.addFails(name, n) {
        assert n in Addable(Missing(actual, desired), name, o);
      }
    }
  }

  lemma DropsWorkIff(extra: set<string>, name: string, o: Oracle)
    ensures Droppable(extra, name, o) == extra <==> forall n :: n in extra ==> o.drop(name, n).Works?
  {
  }

  lemma AlteredShapesIff(t: Table, desired: seq<Column>, name: string, o: Oracle)
    requires Sound(t) && Distinct(desired) && NoDrift(t.columns, desired) && AltersWork(t.columns, desired, name, o)
    requires Names(Altered(t, desired, name, o).columns) == Names(desired)
    ensures (forall n :: n in Names(desired) ==>
             SameShape(Find(Altered(t, desired, name, o).columns, n), Find(desired, n)))
       <==> Creatable(t.columns, desired)
  {
    var r := Altered(t, desired, name, o);
    forall c | c in desired
      ensures c.name in Names(desired) && Find(desired, c.name) == c
      ensures SameShape(Find(r.columns, c.name), c) <==> (c.name !in Names(t.columns) ==> c.pk == 0 && c.type_ != "")
    {
      FindIs(desired, c);
      ColumnShape(t, desired, name, o, c);
    }
    assert forall n :: n in Names(desired) ==> Find(desired, n) in desired && Find(desired, n).name == n;
  }

  lemma ColumnShape(t: Table, desired: seq<Column>, name: string, o: Oracle, c: Column)
    requires Sound(t) && Distinct(desired) && NoDrift(t.columns, desired) && AltersWork(t.columns, desired, name, o)
    requires c in desired && c.name in Names(Altered(t, desired, name, o).columns)
    ensures SameShape(Find(Altered(t, desired, name, o).columns, c.name), c)
       <==> (c.name !in Names(t.columns) ==> c.pk == 0 && c.type_ != "")
  {
    var r := Altered(t, desired, name, o);
    AlteredEffect(t, desired, name, o);
    FindIs(desired, c);
    NoDriftIff(t.columns, desired);
    AddedShapeIff(c);
    hide Altered, NoDrift, SameShape, AddedAs, NormalizeTypeAffinity, Names;
    if c.name in Names(t.columns) {
      FindIs(r.columns, Find(t.columns, c.name));
    } else {
      assert c.name in Names(desired) - Names(t.columns);
      FindIs(r.columns, AddedAs(c));
    }
  }
}
