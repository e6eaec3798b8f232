/**
 The tidy form of a note table (`tools/stock_notes/tidy_transform.py`): one record for each
 row and period column, with a key built by joining its coordinates with "|".
 */
module TidyNotes {
  import opened Options
  import opened PyText

  /** A note table: the concept of each row, the period columns, and the cells by row and
      column; a missing cell is None. */
  datatype NoteTable = NoteTable(
    accession: string, note: nat, detail: nat,
    concepts: seq<string>, periods: seq<string>, cells: seq<seq<Option<string>>>)

  datatype Record = Record(concept: string, period: string, rowOrder: nat, value: string, detailId: string)

  predicate WellFormed(t: NoteTable) {
    && |t.cells| == |t.concepts| && (forall r :: 0 <= r < |t.cells| ==> |t.cells[r]| == |t.periods|)
    && (forall i, j :: 0 <= i < j < |t.periods| ==> t.periods[i] != t.periods[j])
  }

  function Text(cell: Option<string>): string {
    if cell.Some? then cell.value else ""
  }

  const SEP: char := '|'

  /** Two parts and the separator between them. */
  function Glue(a: string, b: string): string {
    a + [SEP] + b
  }

  function Tail(detail: nat, cell: string, row: nat): string {
    Glue(Decimal(detail), Glue(cell, Decimal(row)))
  }

  function Numbers(note: nat, detail: nat, cell: string, row: nat): string {
    Glue(Decimal(note), Tail(detail, cell, row))
  }

  function Key(accession: string, note: nat, detail: nat, cell: string, row: nat): string {
    Glue(accession, Numbers(note, detail, cell, row))
  }

  /** `"|".join(detail_id_parts)`. */
  function DetailId(t: NoteTable, r: nat, c: nat): string
    requires r < |t.concepts| && c < |t.periods|
  {
    Key(t.accession, t.note, t.detail, Glue(t.concepts[r], t.periods[c]), r)
  }

  function RecordAt(t: NoteTable, r: nat, c: nat): Record
    requires WellFormed(t) && r < |t.concepts| && c < |t.periods|
  {
    Record(t.concepts[r], t.periods[c], r, Text(t.cells[r][c]), DetailId(t, r, c))
  }

  /** A record is the concept of its row, its period, the row's place and the text of the cell,
      which is empty if the cell is missing. */
  lemma RecordIs(t: NoteTable, r: nat, c: nat)
    requires WellFormed(t) && r < |t.concepts| && c < |t.periods|
    ensures var record := RecordAt(t, r, c);
            && record.concept == t.concepts[r] && record.period == t.periods[c] && record.rowOrder == r
            && (t.cells[r][c].Some? ==> record.value == t.cells[r][c].value)
            && (t.cells[r][c].None? ==> record.value == "")
            && record.detailId == t.accession + "|" + Decimal(t.note) + "|" + Decimal(t.detail) + "|"
                                  + t.concepts[r] + "|" + t.periods[c] + "|" + Decimal(r)
  {
    var a, n, d, x, p, o := t.accession, Decimal(t.note), Decimal(t.detail), t.concepts[r], t.periods[c], Decimal(r);
    hide Decimal;
    assert [SEP] == "|";
    JoinedSix(a, n, d, x, p, o);
  }

  lemma JoinedSix(a: string, n: string, d: string, x: string, p: string, o: string)
    ensures Glue(a, Glue(n, Glue(d, Glue(Glue(x, p), o))))
         == a + "|" + n + "|" + d + "|" + x + "|" + p + "|" + o
  {
  }

  /** The place of a cell in the molten table, which goes through the columns one by one. */
  function PlaceOf(t: NoteTable, r: nat, c: nat): nat {
    c * |t.concepts| + r
  }

  /** `melt`, and the loop that completes each record. */
  method TransformToTidy(t: NoteTable) returns (records: seq<Record>)
    requires WellFormed(t)
    ensures |records| == |t.concepts| * |t.periods|
    ensures forall r: nat, c: nat | r < |t.concepts| && c < |t.periods| ::
              0 <= PlaceOf(t, r, c) < |records| && records[PlaceOf(t, r, c)] == RecordAt(t, r, c)
  {
    records := [];
    var rows := |t.concepts|;
    for c := 0 to |t.periods|
      invariant |records| == c * rows
      invariant forall r: nat, d: nat | r < rows && d < c ::
                  PlaceOf(t, r, d) < |records| && records[PlaceOf(t, r, d)] == RecordAt(t, r, d)
    {
      hide RecordAt, PlaceOf;
      ghost var before := records;
      for r := 0 to rows
        invariant |records| == c * rows + r && before <= records && |before| == c * rows
        invariant forall q :: 0 <= q < r ==> records[c * rows + q] == RecordAt(t, q, c)
      {
        records := records + [RecordAt(t, r, c)];
      }
      ColumnDone(t, before, records, c);
    }
    assert |t.periods| * rows == rows * |t.periods|;
  }

  lemma ColumnDone(t: NoteTable, before: seq<Record>, records: seq<Record>, c: nat)
    requires WellFormed(t) && c < |t.periods|
    requires before <= records && |before| == c * |t.concepts| && |records| == c * |t.concepts| + |t.concepts|
    requires forall r: nat, d: nat | r < |t.concepts| && d < c ::
               PlaceOf(t, r, d) < |before| && before[PlaceOf(t, r, d)] == RecordAt(t, r, d)
    requires forall q :: 0 <= q < |t.concepts| ==> records[c * |t.concepts| + q] == RecordAt(t, q, c)
    ensures |records| == (c + 1) * |t.concepts|
    ensures forall r: nat, d: nat | r < |t.concepts| && d < c + 1 ::
              PlaceOf(t, r, d) < |records| && records[PlaceOf(t, r, d)] == RecordAt(t, r, d)
  {
    hide RecordAt;
    forall r: nat, d: nat | r < |t.concepts| && d < c + 1
      ensures PlaceOf(t, r, d) < |records| && records[PlaceOf(t, r, d)] == RecordAt(t, r, d)
    {
      if d < c {
        assert records[PlaceOf(t, r, d)] == before[PlaceOf(t, r, d)];
      }
    }
  }

  /** Every record is that of one cell, so the records hold nothing besides the table. */
  lemma EveryRecordIsACell(t: NoteTable, k: nat) returns (r: nat, c: nat)
    requires k < |t.concepts| * |t.periods|
    ensures r < |t.concepts| && c < |t.periods| && PlaceOf(t, r, c) == k
  {
    var rows := |t.concepts|;
    r, c := k % rows, k / rows;
    assert k == rows * (k / rows) + k % rows;
    if c >= |t.periods| { MulMonotone(rows, |t.periods|, c); }
  }

  lemma MulMonotone(a: nat, b: nat, c: nat)
    requires b <= c
    ensures a * b <= a * c
  {
  }

  // ---------------------------------------------------------------------------------
  // The key
  // ---------------------------------------------------------------------------------

  predicate NoSep(s: string) {
    forall i :: 0 <= i < |s| ==> s[i] != SEP
  }

  /** Up to its first separator a string determines its head and its tail. */
  lemma SplitFirst(a: string, x: string, b: string, y: string)
    requires NoSep(a) && NoSep(b) && Glue(a, x) == Glue(b, y)
    ensures a == b && x == y
  {
    var s := Glue(a, x);
    assert s[|a|] == SEP && s[|b|] == SEP;
    assert forall i :: 0 <= i < |a| ==> s[i] == a[i];
    assert forall i :: 0 <= i < |b| ==> s[i] == b[i];
    assert |a| == |b|;
    assert a == s[..|a|] == b && x == s[|a| + 1..] == y;
  }

  lemma NoSepAfter(x: string, a: string, k: nat)
    requires NoSep(a) && k < |Glue(x, a)| && Glue(x, a)[k] == SEP
    ensures k <= |x|
  {
    if k > |x| { CharAfter(x, a, k); }
  }

  lemma CharAfter(x: string, a: string, k: nat)
    requires |x| < k < |Glue(x, a)|
    ensures Glue(x, a)[k] == a[k - |x| - 1]
  {
  }

  lemma DecimalHasNoSep(n: nat)
    ensures NoSep(Decimal(n))
  {
    hide Decimal;
  }

  /** And from its last separator on. */
  lemma SplitLast(x: string, a: string, y: string, b: string)
    requires NoSep(a) && NoSep(b) && Glue(x, a) == Glue(y, b)
    ensures a == b && x == y
  {
    var s := Glue(x, a);
    assert s[|x|] == SEP && s[|y|] == SEP;
    NoSepAfter(x, a, |y|);
    NoSepAfter(y, b, |x|);
    assert x == s[..|x|] == y && a == s[|x| + 1..] == b;
  }

  /** The coordinates that name the table. */
  predicate SameKey(t: NoteTable, u: NoteTable) {
    t.accession == u.accession && t.note == u.note && t.detail == u.detail
  }

  /** Two cells have the same key exactly if they are the same cell of the same table, even
      when concepts or periods contain the separator; accession numbers do not contain it. */
  lemma DetailIdIsAKey(t: NoteTable, r: nat, c: nat, u: NoteTable, q: nat, d: nat)
    requires WellFormed(t) && WellFormed(u) && (SameKey(t, u) ==> t == u)
    requires NoSep(t.accession) && NoSep(u.accession)
    requires r < |t.concepts| && c < |t.periods| && q < |u.concepts| && d < |u.periods|
    ensures DetailId(t, r, c) == DetailId(u, q, d) <==> SameKey(t, u) && r == q && c == d
  {
    if DetailId(t, r, c) == DetailId(u, q, d) {
      TableAndRow(t.accession, t.note, t.detail, Glue(t.concepts[r], t.periods[c]), r,
                  u.accession, u.note, u.detail, Glue(u.concepts[q], u.periods[d]), q);
      GlueTail(t.concepts[r], t.periods[c], u.periods[d]);
    }
  }

  /** An accession number with the separator can read like a shorter one followed by a note
      number: these two cells of different tables have the same key. */
  lemma SeparatorInAccessionCollides(t: NoteTable, u: NoteTable, r: nat, c: nat, d: nat)
    requires r < |t.concepts| && r < |u.concepts| && c < |t.periods| && d < |u.periods|
    requires t.accession == Glue(u.accession, Decimal(u.note)) && t.note == u.detail
    requires u.concepts[r] == Glue(Decimal(t.detail), t.concepts[r]) && u.periods[d] == t.periods[c]
    ensures DetailId(t, r, c) == DetailId(u, r, d) && !SameKey(t, u)
  {
    var tail := Glue(Glue(t.concepts[r], t.periods[c]), Decimal(r));
    assert |t.accession| > |u.accession|;
    hide *;
    GlueAssoc(Decimal(t.detail), t.concepts[r], t.periods[c]);
    GlueAssoc(Decimal(t.detail), Glue(t.concepts[r], t.periods[c]), Decimal(r));
    GlueAssoc(u.accession, Decimal(u.note), Glue(Decimal(t.note), Glue(Decimal(t.detail), tail)));
    DetailIdIs(t, r, c);
    DetailIdIs(u, r, d);
    KeysDiffer(t, u);
  }

  lemma GlueAssoc(a: string, b: string, c: string)
    ensures Glue(Glue(a, b), c) == Glue(a, Glue(b, c))
  {
  }

  lemma DetailIdIs(t: NoteTable, r: nat, c: nat)
    requires r < |t.concepts| && c < |t.periods|
    ensures DetailId(t, r, c) == Glue(t.accession, Glue(Decimal(t.note), Glue(Decimal(t.detail),
                                   Glue(Glue(t.concepts[r], t.periods[c]), Decimal(r)))))
  {
    hide Glue, Decimal;
  }

  lemma KeysDiffer(t: NoteTable, u: NoteTable)
    requires |t.accession| > |u.accession|
    ensures !SameKey(t, u)
  {
  }

  lemma GlueTail(a: string, x: string, y: string)
    ensures Glue(a, x) == Glue(a, y) <==> x == y
  {
    assert Glue(a, x)[|a| + 1..] == x && Glue(a, y)[|a| + 1..] == y;
  }

  /** The four parts of a key, one inside the other. */
  lemma TableAndRow(a: string, n: nat, m: nat, x: string, r: nat, a': string, n': nat, m': nat, x': string, r': nat)
    requires NoSep(a) && NoSep(a') && Key(a, n, m, x, r) == Key(a', n', m', x', r')
    ensures a == a' && n == n' && m == m' && r == r' && x == x'
  {
    SplitFirst(a, Numbers(n, m, x, r), a', Numbers(n', m', x', r'));
    hide *;
    SplitNumbers(n, m, x, r, n', m', x', r');
  }

  lemma SplitNumbers(n: nat, m: nat, x: string, r: nat, n': nat, m': nat, x': string, r': nat)
    requires Numbers(n, m, x, r) == Numbers(n', m', x', r')
    ensures n == n' && m == m' && r == r' && x == x'
  {
    NumberFirst(n, Tail(m, x, r), n', Tail(m', x', r'));
    hide *;
    SplitTail(m, x, r, m', x', r');
  }

  lemma SplitTail(m: nat, x: string, r: nat, m': nat, x': string, r': nat)
    requires Tail(m, x, r) == Tail(m', x', r')
    ensures m == m' && r == r' && x == x'
  {
    NumberFirst(m, Glue(x, Decimal(r)), m', Glue(x', Decimal(r')));
    hide *;
    NumberLast(x, r, x', r');
  }

  lemma NumberFirst(n: nat, x: string, n': nat, x': string)
    requires Glue(Decimal(n), x) == Glue(Decimal(n'), x')
    ensures n == n' && x == x'
  {
    DecimalHasNoSep(n);
    DecimalHasNoSep(n');
    hide *;
    SplitFirst(Decimal(n), x, Decimal(n'), x');
    DecimalInjective(n, n');
  }

  lemma NumberLast(x: string, n: nat, x': string, n': nat)
    requires Glue(x, Decimal(n)) == Glue(x', Decimal(n'))
    ensures n == n' && x == x'
  {
    DecimalHasNoSep(n);
    DecimalHasNoSep(n');
    hide *;
    SplitLast(x, Decimal(n), x', Decimal(n'));
    DecimalInjective(n, n');
  }
}
