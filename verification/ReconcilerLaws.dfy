/**
 What a reconciliation pass guarantees: when a table counts as unchanged, when a pass brings
 the database to its declarations, that a second pass then does nothing, and which cells
 survive.
 */
module ReconcilerLaws {
  import opened Options
  import opened Schema
  import opened TableAlterations
  import opened Reconciler

  // ---------------------------------------------------------------------------------
  // When a table is reported unchanged
  // ---------------------------------------------------------------------------------

  /** `schema_matches` holds exactly when nothing drifts and the names agree. */
  lemma ColumnsMatchIff(actual: seq<Column>, desired: seq<Column>)
    requires Distinct(actual) && Distinct(desired)
    ensures ColumnsMatch(actual, desired) <==> NoDrift(actual, desired) && Names(actual) == Names(desired)
  {
    hide NoDrift, SameShape, Find, Names;
    NoDriftIff(actual, desired);
    if Names(actual) == Names(desired) {
      NamesSize(actual);
      NamesSize(desired);
    }
  }

  /** No ALTER that the table needs works. */
  predicate NoAlterWorks(actual: seq<Column>, desired: seq<Column>, name: string, o: Oracle) {
    && (forall n :: n in Names(desired) - Names(actual) ==> o.addFails(name, n))
    && (forall n :: n in Extra(actual, desired) ==> !o.drop(name, n).Works?)
  }

  lemma NoAlterWorksIff(actual: seq<Column>, desired: seq<Column>, name: string, o: Oracle)
    requires Distinct(desired)
    ensures NoAlterWorks(actual, desired, name, o)
       <==> Addable(Missing(actual, desired), name, o) == {} && Droppable(Extra(actual, desired), name, o) == {}
  {
    MissingEffect(actual, desired);
    hide Missing, Names;
    var added, dropped := Addable(Missing(actual, desired), name, o), Droppable(Extra(actual, desired), name, o);
    forall n | n in Names(desired) - Names(actual) ensures n in added <==> !o.addFails(name, n) {
    }
    forall n | n in Extra(actual, desired) ensures n in dropped <==> o.drop(name, n).Works? {
    }
  }

  lemma NotUnchanged(name: string, added: set<string>, dropped: set<string>)
    ensures Unchanged(name) !in Additions(name, added) + Removals(name, dropped)
  {
  }

  /** A review that does not raise reports an existing ordinary table as unchanged exactly
      when nothing drifts and no ALTER it needs works. */
  lemma UnchangedIff(name: string, t: Table, d: Declaration, o: Oracle)
    requires Distinct(Desired(d)) && !t.isVirtual && Review(name, Some(t), d, o).Some?
    ensures Unchanged(name) in ActionsOf(name, Some(t), d, o)
       <==> NoDrift(t.columns, Desired(d)) && NoAlterWorks(t.columns, Desired(d), name, o)
  {
    hide TypeDrift, ConstraintDrift, Addable, Droppable, Missing, Additions, Removals, Altered;
    NoAlterWorksIff(t.columns, Desired(d), name, o);
    NotUnchanged(name, Addable(Missing(t.columns, Desired(d)), name, o),
                 Droppable(Extra(t.columns, Desired(d)), name, o));
  }

  /** If no ALTER fails, that is exactly when the introspector says that the schema matches. */
  lemma UnchangedExactlyWhenSchemaMatches(name: string, t: Table, d: Declaration, o: Oracle)
    requires Sound(t) && !t.isVirtual && d.columns.Some? && Distinct(Desired(d))
    requires Review(name, Some(t), d, o).Some? && AltersWork(t.columns, Desired(d), name, o)
    ensures Unchanged(name) in ActionsOf(name, Some(t), d, o) <==> SchemaMatches(Some(t), d)
  {
    UnchangedIff(name, t, d, o);
    ColumnsMatchIff(t.columns, Desired(d));
    NothingNeeded(t.columns, Desired(d), name, o);
  }

  lemma NothingNeeded(actual: seq<Column>, desired: seq<Column>, name: string, o: Oracle)
    requires AltersWork(actual, desired, name, o)
    ensures NoAlterWorks(actual, desired, name, o) <==> Names(actual) == Names(desired)
  {
    hide Names;
    if NoAlterWorks(actual, desired, name, o) {
      forall n ensures n in Names(actual) <==> n in Names(desired) {
        assert n !in Names(desired) - Names(actual) && n !in Extra(actual, desired);
      }
    }
  }

  /** A declaration that does not parse is met in the eyes of the introspector, but the
      reconciler takes every column for an extra one and drops all it can. */
  lemma UnparsedDeclarationDropsColumns(name: string, t: Table, d: Declaration, o: Oracle)
    requires Sound(t) && !t.isVirtual && d.columns.None? && !Reverting(Names(t.columns), name, o)
    ensures SchemaMatches(Some(t), d)
    ensures Review(name, Some(t), d, o).Some?
    ensures Names(Review(name, Some(t), d, o).value.columns) == set n | n in Names(t.columns) && !o.drop(name, n).Works?
  {
    NothingDesired(name, t, d, o);
    AlteredEffect(t, Desired(d), name, o);
    hide Names, Review, SchemaMatches, Missing, Extra, Altered;
  }

  lemma NothingDesired(name: string, t: Table, d: Declaration, o: Oracle)
    requires !t.isVirtual && d.columns.None? && !Reverting(Names(t.columns), name, o)
    ensures Desired(d) == [] && Missing(t.columns, Desired(d)) == [] && Extra(t.columns, Desired(d)) == Names(t.columns)
    ensures SchemaMatches(Some(t), d) && Review(name, Some(t), d, o) == Some(Altered(t, Desired(d), name, o))
  {
    hide Altered;
    assert Names(Desired(d)) == {};
    assert Extra(t.columns, Desired(d)) == Names(t.columns);
    MissingEffect(t.columns, Desired(d));
    assert Missing(t.columns, Desired(d)) == [];
  }

  // ---------------------------------------------------------------------------------
  // When a pass settles
  // ---------------------------------------------------------------------------------

  /** The condition under which the review of one table brings it to its declaration. */
  predicate Settles(name: string, t: Option<Table>, d: Declaration, o: Oracle) {
    t.None? || t.value.isVirtual
    || (NoDrift(t.value.columns, Desired(d)) && AltersWork(t.value.columns, Desired(d), name, o) &&
        Creatable(t.value.columns, Desired(d)))
  }

  ghost predicate SoundOption(t: Option<Table>) {
    t.Some? ==> Sound(t.value)
  }

  lemma SettlesIff(name: string, t: Option<Table>, d: Declaration, o: Oracle)
    requires d.columns.Some? && Distinct(Desired(d)) && SoundOption(t) && Review(name, t, d, o).Some?
    ensures SoundOption(Review(name, t, d, o))
    ensures SchemaMatches(Review(name, t, d, o), d) <==> Settles(name, t, d, o)
  {
    var desired := Desired(d);
    if t.None? {
      SameColumnsMatch(desired);
    } else if !t.value.isVirtual {
      ColumnsMatchIff(t.value.columns, desired);
      AlteredEffect(t.value, desired, name, o);
      hide Altered, TypeDrift, AltersWork, Creatable, ConstraintDrift, ColumnsMatch, Sound;
      if !ConstraintDrift(t.value.columns, desired) {
        AlteredMatchesIff(t.value, desired, name, o);
      }
    }
  }

  lemma SameColumnsMatch(columns: seq<Column>)
    requires Distinct(columns)
    ensures ColumnsMatch(columns, columns)
  {
    hide NormalizeTypeAffinity;
  }

  ghost predicate AllSound(tables: Tables) {
    forall n :: n in tables ==> Sound(tables[n])
  }

  ghost predicate AllParse(e: Expected) {
    forall n :: n in e.declared ==> e.declared[n].columns.Some?
  }

  /** Every expected table meets its declaration. */
  ghost predicate AllMatch(tables: Tables, e: Expected) {
    forall n :: n in e.declared ==> SchemaMatches(Lookup(tables, n), e.declared[n])
  }

  lemma AfterPassLookup(tables: Tables, e: Expected, o: Oracle, n: string)
    requires Proper(e) && OnlyDeclared(e, e.order) && Passes(PrunedTables(tables, e), e, e.order, o)
    ensures Lookup(AfterPass(tables, e, o), n)
         == if n in e.declared then Review(n, Lookup(tables, n), e.declared[n], o)
            else if Kept(e, n) then Lookup(tables, n) else None
  {
    hide Review;
    if n in e.declared {
      assert n in e.order && Lookup(PrunedTables(tables, e), n) == Lookup(tables, n);
    }
  }

  /** A pass brings the whole database to its declarations exactly when every expected
      table settles. */
  lemma PassSettlesIff(tables: Tables, e: Expected, o: Oracle)
    requires Proper(e) && AllParse(e) && AllSound(tables)
    requires OnlyDeclared(e, e.order) && Passes(PrunedTables(tables, e), e, e.order, o)
    ensures AllSound(AfterPass(tables, e, o))
    ensures AllMatch(AfterPass(tables, e, o), e)
       <==> forall n :: n in e.declared ==> Settles(n, Lookup(tables, n), e.declared[n], o)
  {
    var after := AfterPass(tables, e, o);
    forall n | n in e.declared
      ensures SoundOption(Lookup(after, n))
      ensures SchemaMatches(Lookup(after, n), e.declared[n]) <==> Settles(n, Lookup(tables, n), e.declared[n], o)
    {
      AfterPassLookup(tables, e, o, n);
      ReviewedSome(tables, e, o, n);
      SettlesIff(n, Lookup(tables, n), e.declared[n], o);
    }
    forall n | n in after ensures Sound(after[n]) {
      AfterPassLookup(tables, e, o, n);
      assert SoundOption(Lookup(after, n));
    }
  }

  lemma ReviewedSome(tables: Tables, e: Expected, o: Oracle, n: string)
    requires Proper(e) && n in e.declared && OnlyDeclared(e, e.order) && Passes(PrunedTables(tables, e), e, e.order, o)
    ensures Review(n, Lookup(tables, n), e.declared[n], o).Some?
  {
    hide Review;
    assert n in e.order && Lookup(PrunedTables(tables, e), n) == Lookup(tables, n);
  }

  /** A review of a table that matches leaves it alone, whatever the oracle says. */
  lemma MatchingReviewIsQuiet(name: string, t: Table, d: Declaration, o: Oracle)
    requires Sound(t) && Distinct(Desired(d)) && d.columns.Some? && SchemaMatches(Some(t), d)
    ensures Review(name, Some(t), d, o) == Some(t)
    ensures ActionsOf(name, Some(t), d, o) == {Unchanged(name)}
  {
    if !t.isVirtual {
      ColumnsMatchIff(t.columns, Desired(d));
      NothingAltered(name, t, Desired(d), o);
      hide Altered, TypeDrift, ConstraintDrift, Missing, Addable, Droppable, Extra, Sound, Distinct, ColumnsMatch,
          Names;
    }
  }

  lemma NoNamesIff(cols: seq<Column>)
    ensures Names(cols) == {} <==> cols == []
  {
    if cols != [] { assert cols[0].name in Names(cols); }
  }

  lemma NothingAltered(name: string, t: Table, desired: seq<Column>, o: Oracle)
    requires Distinct(desired) && Names(t.columns) == Names(desired)
    ensures Altered(t, desired, name, o) == t
    ensures Addable(Missing(t.columns, desired), name, o) == {} && Extra(t.columns, desired) == {}
    ensures Droppable({}, name, o) == {} && !Reverting({}, name, o)
  {
    var missing := Missing(t.columns, desired);
    MissingEffect(t.columns, desired);
    NoNamesIff(missing);
    assert Extra(t.columns, desired) == {} && Droppable({}, name, o) == {};
    NothingDropped(t);
    hide Missing, Without, Names;
  }

  /** Once every expected table matches, a further pass changes nothing and reports every
      expected table as unchanged, and nothing else. */
  lemma SecondPassIsQuiet(tables: Tables, e: Expected, first: Oracle, second: Oracle)
    requires Proper(e) && AllParse(e) && AllSound(tables)
    requires OnlyDeclared(e, e.order) && Passes(PrunedTables(tables, e), e, e.order, first)
    requires AllMatch(AfterPass(tables, e, first), e)
    ensures var after := AfterPass(tables, e, first);
            && PrunedTables(after, e) == after
            && Passes(after, e, e.order, second)
            && AfterPass(after, e, second) == after
            && PassActions(after, e, second) == set n | n in e.declared :: Unchanged(n)
  {
    var after := AfterPass(tables, e, first);
    PassSettlesIff(tables, e, first);
    forall n | n in after ensures Kept(e, n) {
      AfterPassLookup(tables, e, first, n);
    }
    assert PrunedTables(after, e) == after;
    QuietPass(after, e, second);
  }

  lemma QuietPass(tables: Tables, e: Expected, o: Oracle)
    requires Proper(e) && AllParse(e) && AllSound(tables) && AllMatch(tables, e)
    requires PrunedTables(tables, e) == tables && OnlyDeclared(e, e.order)
    ensures Passes(tables, e, e.order, o)
    ensures AfterPass(tables, e, o) == tables
    ensures PassActions(tables, e, o) == set n | n in e.declared :: Unchanged(n)
  {
    forall n | n in e.declared
      ensures n in tables && Review(n, Lookup(tables, n), e.declared[n], o) == Some(tables[n])
      ensures ActionsOf(n, Lookup(tables, n), e.declared[n], o) == {Unchanged(n)}
    {
      MatchingReviewIsQuiet(n, tables[n], e.declared[n], o);
    }
    hide Review, ActionsOf, Kept;
    assert PruneActions(tables.Keys, e) == {} by {
      forall n | n in tables ensures Kept(e, n) {
        assert n in PrunedTables(tables, e);
      }
    }
    QuietReviews(tables, e, o);
  }

  lemma QuietReviews(tables: Tables, e: Expected, o: Oracle)
    requires Proper(e) && OnlyDeclared(e, e.order)
    requires forall n :: n in e.declared ==>
               n in tables && Review(n, Lookup(tables, n), e.declared[n], o) == Some(tables[n])
    requires forall n :: n in e.declared ==> ActionsOf(n, Lookup(tables, n), e.declared[n], o) == {Unchanged(n)}
    ensures Passes(tables, e, e.order, o)
    ensures Reviewed(tables, e, e.order, o) == tables
    ensures ReviewActions(tables, e, e.order, o) == set n | n in e.declared :: Unchanged(n)
  {
    hide Review, ActionsOf;
  }

  // ---------------------------------------------------------------------------------
  // Which cells survive
  // ---------------------------------------------------------------------------------

  /** Every declared column that the table had is still there with the same cells. */
  predicate CellsKept(t: Table, u: Table, desired: seq<Column>) {
    && u.rowCount == t.rowCount
    && forall c :: c in Names(t.columns) * Names(desired) ==> c in t.cells && c in u.cells && u.cells[c] == t.cells[c]
  }

  lemma ReviewKeepsCells(name: string, t: Table, d: Declaration, o: Oracle)
    requires Sound(t) && Distinct(Desired(d)) && Review(name, Some(t), d, o).Some?
    ensures CellsKept(t, Review(name, Some(t), d, o).value, Desired(d))
  {
    hide *;
    ReviewLeavesOrAlters(name, t, d, o);
    SameCellsKept(t, Desired(d));
    AlteredKeepsCells(t, Desired(d), name, o);
  }

  lemma ReviewLeavesOrAlters(name: string, t: Table, d: Declaration, o: Oracle)
    requires Review(name, Some(t), d, o).Some?
    ensures Review(name, Some(t), d, o).value == t ||
              Review(name, Some(t), d, o).value == Altered(t, Desired(d), name, o)
  {
    hide Altered, TypeDrift, ConstraintDrift, Reverting, Desired;
  }

  lemma SameCellsKept(t: Table, desired: seq<Column>)
    requires Sound(t)
    ensures CellsKept(t, t, desired)
  {
  }

  lemma AlteredKeepsCells(t: Table, desired: seq<Column>, name: string, o: Oracle)
    requires Sound(t) && Distinct(desired)
    ensures CellsKept(t, Altered(t, desired, name, o), desired)
  {
    hide Altered, Addable, Droppable, Missing, Extra, AddedAs, Names, Distinct;
    AlteredEffect(t, desired, name, o);
    SameCellsKept(t, desired);
  }

  /** Even the table on which a pass stops keeps the cells of its declared columns. */
  lemma HalfwayKeepsCells(name: string, t: Table, u: Option<Table>, desired: seq<Column>, o: Oracle)
    requires Sound(t) && Distinct(desired) && Halfway(name, Some(t), u, desired, o)
    ensures u.Some? && CellsKept(t, u.value, desired)
  {
    hide AddAll, Missing, Without, Names, Addable, Extra, Sound, Distinct, CellsKept, DropColumns;
    SameCellsKept(t, desired);
    if u != Some(t) {
      var added := AddAll(t, Missing(t.columns, desired), name, o);
      MissingEffect(t.columns, desired);
      AddAllEffect(t, Missing(t.columns, desired), name, o);
      var dropped :| dropped <= Extra(t.columns, desired) && u.value == DropColumns(added, dropped);
      DroppingKeepsCells(t, added, dropped, desired);
    }
  }

  lemma DroppingKeepsCells(t: Table, added: Table, dropped: set<string>, desired: seq<Column>)
    requires Sound(t) && added.rowCount == t.rowCount && dropped <= Extra(t.columns, desired)
    requires forall n :: n in t.cells ==> n in added.cells && added.cells[n] == t.cells[n]
    ensures CellsKept(t, DropColumns(added, dropped), desired)
  {
    hide Without, Names, Distinct;
  }

  /** A pass, whether it ends or stops halfway, loses no cell of a declared column. */
  lemma PassKeepsCells(tables: Tables, e: Expected, o: Oracle, n: string)
    requires Proper(e) && AllSound(tables) && OnlyDeclared(e, e.order)
    requires Passes(PrunedTables(tables, e), e, e.order, o) && n in tables && n in e.declared
    ensures n in AfterPass(tables, e, o)
    ensures CellsKept(tables[n], AfterPass(tables, e, o)[n], Desired(e.declared[n]))
  {
    AfterPassLookup(tables, e, o, n);
    ReviewedSome(tables, e, o, n);
    ReviewKeepsCells(n, tables[n], e.declared[n], o);
  }

  /** It creates a missing table as declared, without rows, unless its declaration makes it raise. */
  lemma PassCreatesMissingTables(tables: Tables, e: Expected, o: Oracle, n: string)
    requires Proper(e) && OnlyDeclared(e, e.order) && Passes(PrunedTables(tables, e), e, e.order, o)
    requires n !in tables && n in e.declared
    ensures n in AfterPass(tables, e, o)
    ensures var t, d := AfterPass(tables, e, o)[n], e.declared[n];
            && (d.columns.Some? ==> t.columns == d.columns.value) && t.isVirtual == d.isVirtual && t.rowCount == 0
            && forall c :: c in Names(t.columns) <==> c in t.cells && t.cells[c] == []
  {
    AfterPassLookup(tables, e, o, n);
    ReviewedSome(tables, e, o, n);
    hide AfterPass, Names;
  }

  /** A pass that ends fills every declared column it could add with its default. */
  lemma PassFillsNewColumns(tables: Tables, e: Expected, o: Oracle, n: string, c: Column)
    requires Proper(e) && AllSound(tables) && OnlyDeclared(e, e.order)
    requires Passes(PrunedTables(tables, e), e, e.order, o) && n in tables && n in e.declared
    requires !tables[n].isVirtual && NoDrift(tables[n].columns, Desired(e.declared[n]))
    requires c in Desired(e.declared[n]) && c.name !in Names(tables[n].columns) && !o.addFails(n, c.name)
    ensures n in AfterPass(tables, e, o) && IsNewColumn(AfterPass(tables, e, o)[n], c)
  {
    AfterPassLookup(tables, e, o, n);
    ReviewedSome(tables, e, o, n);
    NewColumnsAreFilled(tables[n], Desired(e.declared[n]), n, o, c);
    hide Altered, IsNewColumn, AfterPass, TypeDrift, ConstraintDrift;
  }

  lemma StoppedPassKeepsCells(before: Tables, after: Tables, e: Expected, k: nat, o: Oracle, n: string)
    requires Proper(e) && AllSound(before) && k <= |e.order| && OnlyDeclared(e, e.order[..k])
    requires Passes(before, e, e.order[..k], o) && StoppedAt(before, after, e, k, o)
    requires n in before && n in e.declared
    ensures n in after && CellsKept(before[n], after[n], Desired(e.declared[n]))
  {
    var desired := Desired(e.declared[n]);
    if n == e.order[k] {
      HalfwayKeepsCells(n, before[n], Lookup(after, n), desired, o);
    } else {
      var reviewed := Reviewed(before, e, e.order[..k], o);
      assert Lookup(after, n) == Lookup(reviewed, n);
      if n in e.order[..k] {
        assert Lookup(before, n) == Some(before[n]);
        ReviewKeepsCells(n, before[n], e.declared[n], o);
      } else {
        SoundCells(before[n], desired);
      }
    }
  }

  lemma SoundCells(t: Table, desired: seq<Column>)
    requires Sound(t)
    ensures CellsKept(t, t, desired)
  {
    hide Names;
  }
}
