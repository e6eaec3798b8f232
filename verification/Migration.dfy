/**
 Clone, recreate, repopulate (`database/management/migration_coordinator.py`).

 A table is its columns and its rows.  Each SQL statement may fail, as an oracle decides,
 besides failing for the reasons the model can see; a failed statement changes nothing.
 Values are copied unchanged: conversion by column affinity is not modelled.
 */
module Migration {
  import opened Options
  import opened Schema

  datatype Value = Null | Literal(text: string)

  type Row = map<string, Value>

  datatype Table = Table(columns: seq<Column>, rows: seq<Row>)

  type Tables = map<string, Table>

  /** The parts of a `TypeMismatchPlan` that the coordinator uses; `columns` is what the new
      declaration creates. */
  datatype Plan = Plan(table: string, clone: string, columns: seq<Column>, skip: set<string>)

  /** The statements of one migration, as the oracle addresses them. */
  datatype Point = Rename | Create | Insert | Commit | DropBack | RenameBack

  datatype Status = SUCCESS | FAILED | ROLLED_BACK

  predicate WellFormed(t: Table) {
    Distinct(t.columns) && forall i :: 0 <= i < |t.rows| ==> t.rows[i].Keys == Names(t.columns)
  }

  predicate AllWellFormed(tables: Tables) {
    forall n :: n in tables ==> WellFormed(tables[n])
  }

  // ---------------------------------------------------------------------------------
  // What the INSERT ... SELECT copies
  // ---------------------------------------------------------------------------------

  /** One entry of the insert list: a column copied from the clone or filled with a value. */
  datatype Source = Copy(column: string) | Fill(column: string, literal: string)

  function DefaultLiteral(c: Column): string {
    if c.default.Some? then c.default.value
    else if NormalizeTypeAffinity(c.type_) in {INTEGER, REAL, NUMERIC} then "0" else "''"
  }

  /** The entry a new column gets, if any. */
  function SourceOf(c: Column, clone: set<string>, skip: set<string>): seq<Source> {
    if c.name in clone && c.name !in skip then [Copy(c.name)]
    else if c.name in skip && c.notNull then [Fill(c.name, DefaultLiteral(c))]
    else []
  }

  function Sources(columns: seq<Column>, clone: set<string>, skip: set<string>): seq<Source> {
    if columns == [] then [] else SourceOf(columns[0], clone, skip) + Sources(columns[1..], clone, skip)
  }

  /** The value a new column has in a new row. */
  function NewValue(c: Column, clone: set<string>, skip: set<string>, row: Row): Value
    requires c.name in clone ==> c.name in row
  {
    if c.name in clone && c.name !in skip then row[c.name]
    else if c.name in skip && c.notNull then Literal(DefaultLiteral(c))
    else if c.default.Some? then Literal(c.default.value)
    else Null
  }

  function NewRow(columns: seq<Column>, clone: set<string>, skip: set<string>, row: Row): (r: Row)
    requires Distinct(columns) && clone <= row.Keys
    ensures r.Keys == Names(columns)
  {
    map n | n in Names(columns) :: NewValue(Find(columns, n), clone, skip, row)
  }

  function NewRows(columns: seq<Column>, clone: Table, skip: set<string>): (rs: seq<Row>)
    requires Distinct(columns) && WellFormed(clone)
    ensures |rs| == |clone.rows|
  {
    seq(|clone.rows|, i requires 0 <= i < |clone.rows| => NewRow(columns, Names(clone.columns), skip, clone.rows[i]))
  }

  /** NOT NULL constraints of the new table. */
  predicate RowAllowed(columns: seq<Column>, r: Row) {
    forall k :: 0 <= k < |columns| && columns[k].notNull ==> columns[k].name in r && r[columns[k].name] != Null
  }

  predicate RowsAllowed(columns: seq<Column>, rows: seq<Row>) {
    forall i :: 0 <= i < |rows| ==> RowAllowed(columns, rows[i])
  }

  /** Nothing can be copied or filled. */
  predicate NothingToCopy(plan: Plan, clone: Table) {
    Sources(plan.columns, Names(clone.columns), plan.skip) == []
  }

  /** The rows of the new table before the fillers run. */
  function CopiedRows(plan: Plan, clone: Table): seq<Row>
    requires Distinct(plan.columns) && WellFormed(clone)
  {
    if NothingToCopy(plan, clone) then [] else NewRows(plan.columns, clone, plan.skip)
  }

  lemma SourcesTurn(columns: seq<Column>, clone: set<string>, skip: set<string>, k: nat, sources: seq<Source>)
    requires k < |columns|
    ensures sources + Sources(columns[k..], clone, skip)
         == (sources + SourceOf(columns[k], clone, skip)) + Sources(columns[k + 1..], clone, skip)
  {
    hide SourceOf;
    assert columns[k..][1..] == columns[k + 1..];
  }

  /** The loop that builds the insert and select lists. */
  method BuildSources(columns: seq<Column>, clone: set<string>, skip: set<string>) returns (sources: seq<Source>)
    ensures sources == Sources(columns, clone, skip)
  {
    hide DefaultLiteral, Sources;
    sources := [];
    assert columns[0..] == columns && sources + Sources(columns, clone, skip) == Sources(columns, clone, skip);
    for k := 0 to |columns|
      invariant sources + Sources(columns[k..], clone, skip) == Sources(columns, clone, skip)
    {
      var c := columns[k];
      SourcesTurn(columns, clone, skip, k, sources);
      ghost var before := sources;
      if c.name in clone && c.name !in skip {
        sources := sources + [Copy(c.name)];
      } else if c.name in skip && c.notNull {
        sources := sources + [Fill(c.name, DefaultLiteral(c))];
      }
      assert sources == before + SourceOf(c, clone, skip);
    }
    assert columns[|columns|..] == [];
    NoSources(clone, skip);
    assert sources + [] == sources;
  }

  lemma NoSources(clone: set<string>, skip: set<string>)
    ensures Sources([], clone, skip) == []
  {
  }

  /** A column gets one entry: copied if the clone has it and it is not skipped, filled with its
      default if it is skipped and NOT NULL, and none otherwise. */
  lemma {:induction false} SourcesIff(columns: seq<Column>, clone: set<string>, skip: set<string>, s: Source)
    requires Distinct(columns)
    ensures s in Sources(columns, clone, skip) <==>
              s.column in Names(columns) && s.column in clone + skip
              && (var c := Find(columns, s.column);
                  match s
                  case Copy(_) => s.column in clone && s.column !in skip
                  case Fill(_, literal) => s.column in skip && c.notNull && IsFillOf(literal, c))
  {
    if columns == [] {
      assert Names(columns) == {};
    } else {
      SourcesIff(columns[1..], clone, skip, s);
      FindFirst(columns, s.column);
      SourceOfIff(columns[0], clone, skip, s);
      hide Names, Find, IsFillOf, Distinct, SourceOf;
      var first, rest := SourceOf(columns[0], clone, skip), Sources(columns[1..], clone, skip);
      assert s in first + rest <==> s in first || s in rest;
    }
  }

  lemma SourceOfIff(c: Column, clone: set<string>, skip: set<string>, s: Source)
    ensures s in SourceOf(c, clone, skip) <==>
              s.column == c.name && c.name in clone + skip
              && match s
                 case Copy(_) => c.name in clone && c.name !in skip
                 case Fill(_, literal) => c.name in skip && c.notNull && IsFillOf(literal, c)
  {
    FillIs(c);
    hide DefaultLiteral, IsFillOf;
  }

  ghost predicate IsFillOf(literal: string, c: Column) {
    if c.default.Some? then c.default == Some(literal)
    else literal == if NormalizeTypeAffinity(c.type_) in {TEXT, BLOB} then "''" else "0"
  }

  lemma FillIs(c: Column)
    ensures forall literal :: IsFillOf(literal, c) <==> literal == DefaultLiteral(c)
  {
    hide NormalizeTypeAffinity;
    var a := NormalizeTypeAffinity(c.type_);
    assert a.INTEGER? || a.TEXT? || a.BLOB? || a.REAL? || a.NUMERIC?;
  }

  lemma FindFirst(columns: seq<Column>, name: string)
    requires columns != [] && Distinct(columns)
    ensures Distinct(columns[1..]) && columns[0].name !in Names(columns[1..])
    ensures name in Names(columns) <==> name == columns[0].name || name in Names(columns[1..])
    ensures name == columns[0].name ==> Find(columns, name) == columns[0]
    ensures name in Names(columns[1..]) ==> Find(columns, name) == Find(columns[1..], name)
  {
    assert forall k :: 0 < k < |columns| ==> columns[k] == columns[1..][k - 1];
  }

  /** The rows hold what INSERT ... SELECT with these lists gives: copied columns the value of
      the clone's row, filled ones their literal, and the others their default or NULL. */
  lemma NewRowFollowsTheLists(columns: seq<Column>, clone: set<string>, skip: set<string>, row: Row, k: nat)
    requires Distinct(columns) && clone <= row.Keys && k < |columns|
    ensures var c, sources := columns[k], Sources(columns, clone, skip);
            var value := NewRow(columns, clone, skip, row)[c.name];
            && (Copy(c.name) in sources ==> c.name in row && value == row[c.name])
            && (forall literal :: Fill(c.name, literal) in sources ==> value == Literal(literal))
            && (Copy(c.name) !in sources && (forall literal :: Fill(c.name, literal) !in sources) ==>
                value == if c.default.Some? then Literal(c.default.value) else Null)
  {
    var c := columns[k];
    assert Find(columns, c.name) == c;
    SourcesIff(columns, clone, skip, Copy(c.name));
    forall literal ensures Fill(c.name, literal) in Sources(columns, clone, skip)
                      <==> c.name in skip && c.notNull && literal == DefaultLiteral(c) {
      SourcesIff(columns, clone, skip, Fill(c.name, literal));
      FillIs(c);
    }
    assert Fill(c.name, DefaultLiteral(c)) in Sources(columns, clone, skip) <==> c.name in skip && c.notNull;
    hide Sources, Find, DefaultLiteral, Names;
  }

  /** The new rows meet the NOT NULL constraints exactly if no old row has NULL in such a column
      that is copied, and such a column that is not has a default, as skipped ones always do. */
  lemma RowsAllowedIff(columns: seq<Column>, clone: Table, skip: set<string>)
    requires Distinct(columns) && WellFormed(clone)
    ensures RowsAllowed(columns, NewRows(columns, clone, skip)) <==> AllFillable(columns, clone, skip)
  {
    var rows := NewRows(columns, clone, skip);
    hide *;
    NewRowsAre(columns, clone, skip);
    forall i: nat | i < |clone.rows|
      ensures RowAllowed(columns, rows[i]) <==> Fillable(columns, Names(clone.columns), skip, clone.rows[i])
    {
      RowAllowedIff(columns, Names(clone.columns), skip, clone.rows[i]);
    }
    AllRowsFillable(columns, clone, skip, rows);
  }

  /** The row has a value for every NOT NULL column. */
  ghost predicate Fillable(columns: seq<Column>, clone: set<string>, skip: set<string>, row: Row)
    requires clone <= row.Keys
  {
    forall c :: c in columns && c.notNull ==>
      if c.name in clone && c.name !in skip then row[c.name] != Null else c.name in skip || c.default.Some?
  }

  ghost predicate AllFillable(columns: seq<Column>, clone: Table, skip: set<string>)
    requires WellFormed(clone)
  {
    forall i: nat :: i < |clone.rows| ==> Fillable(columns, Names(clone.columns), skip, clone.rows[i])
  }

  lemma NewRowsAre(columns: seq<Column>, clone: Table, skip: set<string>)
    requires Distinct(columns) && WellFormed(clone)
    ensures forall i: nat :: i < |clone.rows| ==> Names(clone.columns) <= clone.rows[i].Keys
    ensures forall i: nat :: i < |clone.rows| ==>
              NewRows(columns, clone, skip)[i] == NewRow(columns, Names(clone.columns), skip, clone.rows[i])
  {
    hide NewRow, Names, Distinct;
  }

  lemma AllRowsFillable(columns: seq<Column>, clone: Table, skip: set<string>, rows: seq<Row>)
    requires |rows| == |clone.rows| && WellFormed(clone)
    requires forall i: nat :: i < |rows| ==>
               (RowAllowed(columns, rows[i]) <==> Fillable(columns, Names(clone.columns), skip, clone.rows[i]))
    ensures RowsAllowed(columns, rows) <==> AllFillable(columns, clone, skip)
  {
    hide RowAllowed, Names, Distinct, Fillable;
  }

  lemma RowAllowedIff(columns: seq<Column>, clone: set<string>, skip: set<string>, row: Row)
    requires Distinct(columns) && clone <= row.Keys
    ensures RowAllowed(columns, NewRow(columns, clone, skip, row)) <==> Fillable(columns, clone, skip, row)
  {
    var r := NewRow(columns, clone, skip, row);
    forall k | 0 <= k < |columns|
      ensures columns[k].name in r && r[columns[k].name] == NewValue(columns[k], clone, skip, row)
    {
      assert Find(columns, columns[k].name) == columns[k];
    }
    hide NewRow, Find, Names, DefaultLiteral;
    if RowAllowed(columns, r) {
      forall c | c in columns && c.notNull
        ensures if c.name in clone && c.name !in skip then row[c.name] != Null else c.name in skip || c.default.Some?
      {
        var k :| 0 <= k < |columns| && columns[k] == c;
      }
    }
  }

  /** A filler rewrites one column of every row. */
  function Filled(rows: seq<Row>, column: string, filler: (nat, Row) -> Value): (rs: seq<Row>)
    ensures |rs| == |rows|
    ensures forall i :: 0 <= i < |rows| && column in rows[i] ==> column in rs[i] && rs[i][column] == filler(i, rows[i])
    ensures forall i :: 0 <= i < |rows| ==> rs[i].Keys == rows[i].Keys
    ensures forall i, c :: 0 <= i < |rows| && c in rows[i] && c != column ==> rs[i][c] == rows[i][c]
  {
    seq(|rows|, i requires 0 <= i < |rows| =>
      if column in rows[i] then rows[i][column := filler(i, rows[i])] else rows[i])
  }

  /** The fillers registered for the skipped columns, one after the other. */
  function FilledAll(rows: seq<Row>, table: string, skipped: seq<string>,
                     fillers: (string, string) -> Option<(nat, Row) -> Value>): seq<Row>
  {
    if skipped == [] then rows
    else
      var n := |skipped| - 1;
      var before, filler := FilledAll(rows, table, skipped[..n], fillers), fillers(table, skipped[n]);
      if filler.Some? then Filled(before, skipped[n], filler.value) else before
  }

  function FilledRows(source: Table, plan: Plan, skipped: seq<string>,
                      fillers: (string, string) -> Option<(nat, Row) -> Value>): seq<Row>
    requires Distinct(plan.columns) && WellFormed(source)
  {
    FilledAll(CopiedRows(plan, source), plan.table, skipped, fillers)
  }

  /** The new table holds the rows copied from the old one once the fillers have run. */
  ghost predicate IsFilled(before: Tables, after: Tables, plan: Plan, skipped: seq<string>,
                           fillers: (string, string) -> Option<(nat, Row) -> Value>)
    requires Distinct(plan.columns) && AllWellFormed(before)
  {
    && plan.table in before && plan.table in after
    && after[plan.table].rows == FilledRows(before[plan.table], plan, skipped, fillers)
  }

  // ---------------------------------------------------------------------------------
  // The coordinator
  // ---------------------------------------------------------------------------------

  class Coordinator {
    var tables: Tables
    const fails: (string, Point) -> bool
    /** The filler registered for a table and column, if there is one. */
    const fillers: (string, string) -> Option<(nat, Row) -> Value>

    ghost predicate Valid()
      reads this
    {
      AllWellFormed(tables)
    }

    constructor (tables: Tables, fails: (string, Point) -> bool,
                 fillers: (string, string) -> Option<(nat, Row) -> Value>)
      requires AllWellFormed(tables)
      ensures Valid() && this.tables == tables && this.fails == fails && this.fillers == fillers
    {
      this.tables, this.fails, this.fillers := tables, fails, fillers;
    }

    /** ALTER TABLE ... RENAME TO: needs the table, and a free name. */
    method RenameTable(from: string, target: string, oracle: bool) returns (ok: bool)
      requires Valid()
      modifies this
      ensures Valid()
      ensures ok <==> !oracle && from in old(tables) && target !in old(tables)
      ensures tables == if ok then (old(tables) - {from})[target := old(tables)[from]] else old(tables)
    {
      ok := !oracle && from in tables && target !in tables;
      if ok { tables := (tables - {from})[target := tables[from]]; }
    }

    /** `_repopulate_from_clone`; the list of columns is empty when nothing can be copied,
        and then no row is inserted. */
    method RepopulateFromClone(plan: Plan) returns (ok: bool)
      requires Valid() && plan.table in tables && plan.clone in tables
      requires plan.table != plan.clone && Distinct(plan.columns)
      requires tables[plan.table] == Table(plan.columns, [])
      modifies this
      ensures Valid()
      ensures ok <==> CopyWorks(plan, old(tables)[plan.clone], fails)
      ensures tables == if ok then old(tables)[plan.table :=
                                               Table(plan.columns, CopiedRows(plan, old(tables)[plan.clone]))]
                        else old(tables)
    {
      var clone := tables[plan.clone];
      var sources := BuildSources(plan.columns, Names(clone.columns), plan.skip);
      if sources == [] { return true; }
      var rows := NewRows(plan.columns, clone, plan.skip);
      if fails(plan.table, Insert) || !RowsAllowed(plan.columns, rows) {
        return false;
      }
      tables := tables[plan.table := Table(plan.columns, rows)];
      return true;
    }

    /** `_autofill_skipped_columns`: fillers touch only the skipped columns. */
    method AutofillSkippedColumns(plan: Plan, skipped: seq<string>)
      requires Valid() && plan.table in tables
      requires forall k :: 0 <= k < |skipped| ==> skipped[k] in plan.skip
      modifies this
      ensures Valid() && tables.Keys == old(tables).Keys
      ensures forall n :: n in tables && n != plan.table ==> tables[n] == old(tables)[n]
      ensures tables[plan.table].columns == old(tables)[plan.table].columns
      ensures tables[plan.table].rows == FilledAll(old(tables)[plan.table].rows, plan.table, skipped, fillers)
      ensures SameOutside(old(tables)[plan.table].rows, tables[plan.table].rows, plan.skip)
    {
      assert skipped[..0] == [];
      for k := 0 to |skipped|
        invariant Valid() && tables.Keys == old(tables).Keys
        invariant forall n :: n in tables && n != plan.table ==> tables[n] == old(tables)[n]
        invariant tables[plan.table].columns == old(tables)[plan.table].columns
        invariant tables[plan.table].rows == FilledAll(old(tables)[plan.table].rows, plan.table, skipped[..k], fillers)
        invariant SameOutside(old(tables)[plan.table].rows, tables[plan.table].rows, plan.skip)
      {
        assert skipped[..k + 1][..k] == skipped[..k];
        var filler := fillers(plan.table, skipped[k]);
        if filler.Some? {
          var t := tables[plan.table];
          tables := tables[plan.table := t.(rows := Filled(t.rows, skipped[k], filler.value))];
        }
      }
      assert skipped[..|skipped|] == skipped;
    }

    /** `_rollback_from_clone`: drop the table, rename the clone back. */
    method RollbackFromClone(plan: Plan)
      requires Valid() && plan.table != plan.clone
      modifies this
      ensures Valid() && tables == RolledBack(old(tables), plan, fails)
    {
      if fails(plan.table, DropBack) { return; }
      tables := tables - {plan.table};
      var ok := RenameTable(plan.clone, plan.table, fails(plan.table, RenameBack));
    }

    /** Everything after the clone step, up to the commit. */
    method RecreateAndFill(plan: Plan, skipped: seq<string>) returns (ok: bool)
      requires Valid() && plan.clone in tables && plan.table !in tables && Distinct(plan.columns)
      requires forall k :: 0 <= k < |skipped| ==> skipped[k] in plan.skip
      modifies this
      ensures Valid() && SameBut(old(tables), tables, plan.table)
      ensures ok <==> RestWorks(plan, old(tables)[plan.clone], fails)
      ensures ok ==> plan.table in tables && tables[plan.table].columns == plan.columns
                     && SameOutside(CopiedRows(plan, old(tables)[plan.clone]), tables[plan.table].rows, plan.skip)
      ensures ok ==>
                && plan.table in tables
                && tables[plan.table].rows == FilledRows(old(tables)[plan.clone], plan, skipped, fillers)
    {
      if fails(plan.table, Create) { return false; }
      tables := tables[plan.table := Table(plan.columns, [])];
      ok := RepopulateFromClone(plan);
      if ok {
        AutofillSkippedColumns(plan, skipped);
        ok := !fails(plan.table, Commit);
      }
    }

    /** `_migrate_operational`; `renamed` tells whether the clone step got through. */
    method MigrateOperational(plan: Plan, skipped: seq<string>) returns (status: Status, ghost renamed: bool)
      requires Valid() && plan.table != plan.clone && Distinct(plan.columns)
      requires forall k :: 0 <= k < |skipped| ==> skipped[k] in plan.skip
      modifies this
      ensures Valid()
      ensures renamed <==> Renames(old(tables), plan, fails)
      ensures CarriedOut(old(tables), tables, plan, skipped, fails, fillers, status)
    {
      ghost var before := tables;
      var cloned := RenameTable(plan.table, plan.clone, fails(plan.table, Rename));
      renamed := cloned;
      if cloned {
        var ok := RecreateAndFill(plan, skipped);
        if ok {
          MigrationSucceeded(before, tables, plan);
          return SUCCESS, renamed;
        }
        RollbackRestores(before, tables, plan, fails);
      }
      RollbackFromClone(plan);
      return ROLLED_BACK, renamed;
    }

    /** `execute`: each plan starts from what the one before it left, and its status tells
        what became of its table.  No plan ends as FAILED, so none of the later plans is
        given up. */
    method Execute(plans: seq<Plan>, skipped: seq<seq<string>>)
      returns (statuses: seq<Status>, ghost stages: seq<Tables>)
      requires Valid() && |skipped| == |plans|
      requires forall p :: 0 <= p < |plans| ==> plans[p].table != plans[p].clone && Distinct(plans[p].columns)
      requires forall p, k :: 0 <= p < |plans| && 0 <= k < |skipped[p]| ==> skipped[p][k] in plans[p].skip
      modifies this
      ensures Valid() && |statuses| == |plans| && |stages| == |plans| + 1
      ensures stages[0] == old(tables) && stages[|plans|] == tables
      ensures forall p :: 0 <= p < |plans| ==>
                CarriedOut(stages[p], stages[p + 1], plans[p], skipped[p], fails, fillers, statuses[p])
      ensures forall n :: (forall p :: 0 <= p < |plans| ==> n != plans[p].table && n != plans[p].clone) ==>
                Lookup(tables, n) == Lookup(old(tables), n)
    {
      hide CarriedOut, Outcome, IsFilled, Lookup, AllWellFormed, Distinct;
      statuses, stages := [], [tables];
      for p := 0 to |plans|
        invariant Valid() && |statuses| == p && |stages| == p + 1
        invariant stages[0] == old(tables) && stages[p] == tables
        invariant forall q :: 0 <= q < p ==>
                    CarriedOut(stages[q], stages[q + 1], plans[q], skipped[q], fails, fillers, statuses[q])
      {
        var status, _ := MigrateOperational(plans[p], skipped[p]);
        NeverFailed(stages[p], tables, plans[p], skipped[p], fails, fillers, status);
        statuses, stages := statuses + [status], stages + [tables];
        if status == FAILED { break; }
      }
      forall n | forall p :: 0 <= p < |plans| ==> n != plans[p].table && n != plans[p].clone
        ensures Lookup(tables, n) == Lookup(old(tables), n)
      {
        OthersStay(plans, skipped, fails, fillers, statuses, stages, |plans|, n);
      }
    }
  }

  /** The clone step gets through. */
  predicate Renames(before: Tables, plan: Plan, fails: (string, Point) -> bool) {
    !fails(plan.table, Rename) && plan.table in before && plan.clone !in before
  }

  /** The rows can be copied from the clone, or there is nothing to copy. */
  predicate CopyWorks(plan: Plan, clone: Table, fails: (string, Point) -> bool)
    requires Distinct(plan.columns) && WellFormed(clone)
  {
    NothingToCopy(plan, clone)
    || (!fails(plan.table, Insert) && RowsAllowed(plan.columns, NewRows(plan.columns, clone, plan.skip)))
  }

  /** The steps after the clone step get through. */
  predicate RestWorks(plan: Plan, clone: Table, fails: (string, Point) -> bool)
    requires Distinct(plan.columns) && WellFormed(clone)
  {
    !fails(plan.table, Create) && CopyWorks(plan, clone, fails) && !fails(plan.table, Commit)
  }

  /** The table is there, under its own name or as the clone. */
  predicate HoldsUnderEither(tables: Tables, plan: Plan, table: Table) {
    Lookup(tables, plan.table) == Some(table) || Lookup(tables, plan.clone) == Some(table)
  }

  /** What a status says about the tables before and after its plan: success exactly if every
      step gets through, and then the table is migrated; otherwise what the rollback makes
      of it, which is the tables as they were if the clone step got through and the
      rollback's own two statements do.  Once the clone exists the original table is never
      lost, even if they fail. */
  ghost predicate Outcome(before: Tables, after: Tables, plan: Plan, fails: (string, Point) -> bool, status: Status)
    requires Distinct(plan.columns) && AllWellFormed(before)
  {
    && status != FAILED
    && (status == SUCCESS <==> Renames(before, plan, fails) && RestWorks(plan, before[plan.table], fails))
    && (status == SUCCESS ==> Migrated(before, after, plan))
    && (status != SUCCESS && Renames(before, plan, fails) && !fails(plan.table, DropBack) &&
        !fails(plan.table, RenameBack)
        ==> after == before)
    && (Renames(before, plan, fails) ==> HoldsUnderEither(after, plan, before[plan.table]))
    && (status != SUCCESS && !Renames(before, plan, fails) ==> after == RolledBack(before, plan, fails))
    && (forall n :: n != plan.table && n != plan.clone ==> Lookup(after, n) == Lookup(before, n))
  }

  /** What became of one plan: its outcome, and the fillers' work if it succeeded. */
  ghost predicate CarriedOut(before: Tables, after: Tables, plan: Plan, skipped: seq<string>,
                             fails: (string, Point) -> bool,
                             fillers: (string, string) -> Option<(nat, Row) -> Value>, status: Status)
    requires Distinct(plan.columns)
  {
    && AllWellFormed(before) && Outcome(before, after, plan, fails, status)
    && (status == SUCCESS ==> IsFilled(before, after, plan, skipped, fillers))
  }

  lemma NeverFailed(before: Tables, after: Tables, plan: Plan, skipped: seq<string>,
                    fails: (string, Point) -> bool,
                    fillers: (string, string) -> Option<(nat, Row) -> Value>, status: Status)
    requires Distinct(plan.columns) && CarriedOut(before, after, plan, skipped, fails, fillers, status)
    ensures status != FAILED
  {
    hide Lookup, Migrated, IsFilled, Renames, RestWorks, RolledBack, HoldsUnderEither;
  }

  /** A table that no plan names is as it was after each of them. */
  lemma {:induction false} OthersStay(plans: seq<Plan>, skipped: seq<seq<string>>, fails: (string, Point) -> bool,
                                      fillers: (string, string) -> Option<(nat, Row) -> Value>,
                                      statuses: seq<Status>, stages: seq<Tables>, k: nat, n: string)
    requires |skipped| == |plans| == |statuses| && |stages| == |plans| + 1 && k <= |plans|
    requires forall p :: 0 <= p < |plans| ==> Distinct(plans[p].columns)
    requires forall p :: 0 <= p < |plans| ==>
               CarriedOut(stages[p], stages[p + 1], plans[p], skipped[p], fails, fillers, statuses[p])
    requires forall p :: 0 <= p < |plans| ==> n != plans[p].table && n != plans[p].clone
    ensures Lookup(stages[k], n) == Lookup(stages[0], n)
  {
    hide Lookup, IsFilled, AllWellFormed, Migrated, Renames, RestWorks, RolledBack, HoldsUnderEither, Distinct;
    if k > 0 {
      OthersStay(plans, skipped, fails, fillers, statuses, stages, k - 1, n);
      var p := k - 1;
      assert CarriedOut(stages[p], stages[p + 1], plans[p], skipped[p], fails, fillers, statuses[p]);
    }
  }

  /** The two databases agree on every table but one. */
  predicate SameBut(before: Tables, after: Tables, name: string) {
    after - {name} == before - {name}
  }

  /** The rows agree on every column that is not skipped. */
  predicate SameOutside(before: seq<Row>, after: seq<Row>, skip: set<string>) {
    && |before| == |after|
    && (forall i :: 0 <= i < |before| ==> before[i].Keys == after[i].Keys)
    && (forall i, c :: 0 <= i < |before| && c in before[i] && c !in skip ==> after[i][c] == before[i][c])
  }

  function Lookup(tables: Tables, name: string): Option<Table> {
    if name in tables then Some(tables[name]) else None
  }

  /** What the two statements of the rollback make of the tables. */
  function RolledBack(tables: Tables, plan: Plan, fails: (string, Point) -> bool): Tables {
    if fails(plan.table, DropBack) then tables
    else
      var dropped := tables - {plan.table};
      if !fails(plan.table, RenameBack) && plan.clone in tables && plan.clone != plan.table
      then (dropped - {plan.clone})[plan.table := tables[plan.clone]]
      else dropped
  }

  /** A successful migration: the clone holds the old table; the new one has the new columns
      and, unless there was nothing to copy, the old rows on every shared column that is
      not skipped. */
  predicate Migrated(before: Tables, after: Tables, plan: Plan)
    requires plan.table in before
  {
    var source := before[plan.table];
    var nothing := NothingToCopy(plan, source);
    && plan.clone in after && after[plan.clone] == source
    && plan.table in after && after[plan.table].columns == plan.columns
    && |after[plan.table].rows| == (if nothing then 0 else |source.rows|)
    && (!nothing ==> CarriesOver(source, after[plan.table], plan))
  }

  predicate CarriesOver(source: Table, target: Table, plan: Plan) {
    && |source.rows| == |target.rows|
    && forall i, c :: 0 <= i < |source.rows| && c in Names(plan.columns) * Names(source.columns) - plan.skip ==>
         c in source.rows[i] && c in target.rows[i] && target.rows[i][c] == source.rows[i][c]
  }

  lemma MigrationSucceeded(before: Tables, after: Tables, plan: Plan)
    requires plan.table in before && plan.table != plan.clone
    requires Distinct(plan.columns) && WellFormed(before[plan.table])
    requires SameBut((before - {plan.table})[plan.clone := before[plan.table]], after, plan.table)
    requires plan.table in after && after[plan.table].columns == plan.columns
    requires SameOutside(CopiedRows(plan, before[plan.table]), after[plan.table].rows, plan.skip)
    ensures Migrated(before, after, plan)
    ensures forall n :: n != plan.table && n != plan.clone ==> Lookup(after, n) == Lookup(before, n)
  {
    var cloned := (before - {plan.table})[plan.clone := before[plan.table]];
    forall n | n != plan.table ensures Lookup(after, n) == Lookup(cloned, n) {
      assert n in after <==> n in after - {plan.table};
      assert n in cloned <==> n in cloned - {plan.table};
    }
    assert Lookup(after, plan.clone) == Some(before[plan.table]);
    var source := before[plan.table];
    if !NothingToCopy(plan, source) {
      CopyCarriesOver(source, after[plan.table], plan);
    }
  }

  lemma CopyCarriesOver(source: Table, target: Table, plan: Plan)
    requires Distinct(plan.columns) && WellFormed(source)
    requires SameOutside(NewRows(plan.columns, source, plan.skip), target.rows, plan.skip)
    ensures CarriesOver(source, target, plan)
  {
    var rows := NewRows(plan.columns, source, plan.skip);
    forall i, c | 0 <= i < |source.rows| && c in Names(plan.columns) * Names(source.columns) - plan.skip
      ensures c in source.rows[i] && c in target.rows[i] && target.rows[i][c] == source.rows[i][c]
    {
      assert rows[i] == NewRow(plan.columns, Names(source.columns), plan.skip, source.rows[i]);
      assert rows[i][c] == source.rows[i][c];
    }
  }

  /** A rollback after the clone step restores everything, if its own statements work. */
  lemma RollbackRestores(before: Tables, stopped: Tables, plan: Plan, fails: (string, Point) -> bool)
    requires plan.table in before && plan.clone !in before && plan.table != plan.clone
    requires SameBut((before - {plan.table})[plan.clone := before[plan.table]], stopped, plan.table)
    ensures !fails(plan.table, DropBack) && !fails(plan.table, RenameBack) ==>
              RolledBack(stopped, plan, fails) == before
    ensures HoldsUnderEither(RolledBack(stopped, plan, fails), plan, before[plan.table])
    ensures forall n :: n != plan.table && n != plan.clone ==>
              Lookup(RolledBack(stopped, plan, fails), n) == Lookup(before, n)
  {
    var cloned := (before - {plan.table})[plan.clone := before[plan.table]];
    forall n | n != plan.table ensures Lookup(stopped, n) == Lookup(cloned, n) {
      assert n in stopped <==> n in stopped - {plan.table};
      assert n in cloned <==> n in cloned - {plan.table};
    }
    assert Lookup(stopped, plan.clone) == Some(before[plan.table]);
    var back := (stopped - {plan.table} - {plan.clone})[plan.table := before[plan.table]];
    assert forall n :: Lookup(back, n) == Lookup(before, n) by {
      forall n ensures Lookup(back, n) == Lookup(before, n) {
        assert n != plan.table ==> Lookup(stopped, n) == Lookup(cloned, n);
      }
    }
    SameLookups(back, before);
  }

  lemma SameLookups(a: Tables, b: Tables)
    requires forall n :: Lookup(a, n) == Lookup(b, n)
    ensures a == b
  {
    assert forall n :: n in a <==> Lookup(a, n).Some?;
    assert forall n :: n in b <==> Lookup(b, n).Some?;
    forall n | n in a ensures n in b && a[n] == b[n] {
      assert Lookup(a, n) == Lookup(b, n);
    }
  }

  // ---------------------------------------------------------------------------------
  // Where the coordinator loses data
  // ---------------------------------------------------------------------------------

  /** When the clone step itself fails, the rollback drops the original table.  The table
      survives exactly when the clone's name already held an identical table, or neither
      existed. */
  lemma FailedCloneKeepsTableIff(before: Tables, plan: Plan, fails: (string, Point) -> bool)
    requires plan.table != plan.clone && !fails(plan.table, DropBack) && !fails(plan.table, RenameBack)
    ensures Lookup(RolledBack(before, plan, fails), plan.table) == Lookup(before, plan.table)
       <==> Lookup(before, plan.table) == Lookup(before, plan.clone)
  {
  }

  /** A successful migration keeps the number of rows exactly when there was something to
      copy or nothing to lose. */
  lemma RowCountKeptIff(before: Tables, after: Tables, plan: Plan)
    requires plan.table in before && Migrated(before, after, plan)
    ensures |after[plan.table].rows| == |before[plan.table].rows|
       <==> !NothingToCopy(plan, before[plan.table]) || before[plan.table].rows == []
  {
  }

  /** Nothing can be copied exactly when every new column is either unknown to the old table
      or skipped, and no skipped one is NOT NULL. */
  lemma {:induction false} NothingToCopyIff(columns: seq<Column>, clone: set<string>, skip: set<string>)
    ensures Sources(columns, clone, skip) == []
       <==> forall k :: 0 <= k < |columns| ==>
              (columns[k].name in clone ==> columns[k].name in skip) &&
                  (columns[k].name in skip ==> !columns[k].notNull)
  {
    if columns != [] {
      NothingToCopyIff(columns[1..], clone, skip);
      assert forall k :: 0 < k < |columns| ==> columns[k] == columns[1..][k - 1];
    }
  }

  /** Before the fillers run, a skipped NOT NULL column holds its default in every row. */
  lemma SkippedColumnsGetDefaults(plan: Plan, source: Table, i: nat, k: nat)
    requires Distinct(plan.columns) && WellFormed(source) && i < |source.rows| && k < |plan.columns|
    requires plan.columns[k].name in plan.skip && plan.columns[k].notNull
    ensures !NothingToCopy(plan, source)
    ensures plan.columns[k].name in CopiedRows(plan, source)[i]
         && CopiedRows(plan, source)[i][plan.columns[k].name] == Literal(DefaultLiteral(plan.columns[k]))
  {
    NothingToCopyIff(plan.columns, Names(source.columns), plan.skip);
    assert Find(plan.columns, plan.columns[k].name) == plan.columns[k];
  }
}
