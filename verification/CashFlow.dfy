/**
 Quarterly cash flows (`tools/stock_financials/extractor.py`, `process_cashflow`): filings give
 year-to-date values, and each quarter is the difference of two of them.  Sorting is pandas'
 own: it enters as a list that is known to be sorted.
 */
module CashFlow {
  import opened Options
  import opened PyText

  datatype Period = Q1 | Q2 | Q3 | Q4

  datatype End = NoEnd | Day(year: nat, month: nat) | Unreadable(text: string)

  /** A year-to-date value; None is NaN. */
  datatype Fact = Fact(end: End, value: Option<real>)

  /** The facts of one concept and period start, by how far the period reaches: to the end of
      Q1, Q2, Q3 and of the year. */
  datatype Group = Group(concept: string, fiscalYear: int, facts: map<Period, Fact>)

  datatype Quarter = Quarter(concept: string, period: Period, quarterLabel: string, fiscalYear: int, value: real)

  function PeriodName(p: Period): string {
    match p case Q1 => "Q1" case Q2 => "Q2" case Q3 => "Q3" case Q4 => "Q4"
  }

  /** `_period_end_to_quarter_label`: a fourth quarter that ends by March belongs to the year
      before. */
  function QuarterLabel(end: End, p: Period): string {
    match end
    case NoEnd => "Unknown"
    case Day(year, month) => Decimal(if p == Q4 && month <= 3 && year > 0 then year - 1 else year) + "-" + PeriodName(p)
    case Unreadable(text) => text + "-" + PeriodName(p)
  }

  /** Dated quarters have the same label exactly if they are the same quarter of the same year,
      where a fourth quarter that ends by March counts for the year before. */
  lemma SameLabelIff(y: nat, m: nat, p: Period, y': nat, m': nat, p': Period)
    ensures QuarterLabel(Day(y, m), p) == QuarterLabel(Day(y', m'), p') <==>
              p == p' && LabelYear(y, m, p) == LabelYear(y', m', p')
  {
    var s, t := Decimal(LabelYear(y, m, p)), Decimal(LabelYear(y', m', p'));
    hide Decimal;
    assert |PeriodName(p)| == |PeriodName(p')| == 2;
    var a, b := s + "-" + PeriodName(p), t + "-" + PeriodName(p');
    if a == b {
      assert a[|a| - 1] == PeriodName(p)[1] && b[|b| - 1] == PeriodName(p')[1];
      assert a[..|a| - 3] == s && b[..|b| - 3] == t;
      DecimalInjective(LabelYear(y, m, p), LabelYear(y', m', p'));
    }
  }

  function LabelYear(year: nat, month: nat, p: Period): nat {
    if p == Q4 && month < 4 && year != 0 then year - 1 else year
  }

  /** The year-to-date value up to the end of a period. */
  function Ytd(g: Group, p: Period): Option<real> {
    if p in g.facts then g.facts[p].value else None
  }

  function Prior(p: Period): Option<Period> {
    match p case Q1 => None case Q2 => Some(Q1) case Q3 => Some(Q2) case Q4 => Some(Q3)
  }

  /** The value up to the beginning of a period: 0 for the first. */
  function YtdBefore(g: Group, p: Period): Option<real> {
    match Prior(p) case None => Some(0.0) case Some(q) => Ytd(g, q)
  }

  /** The quarter derived for a period, if both values are there. */
  function Derived(g: Group, p: Period): seq<Quarter> {
    if Ytd(g, p).Some? && YtdBefore(g, p).Some? then
      [Quarter(g.concept, p, QuarterLabel(g.facts[p].end, p), g.fiscalYear, Ytd(g, p).value - YtdBefore(g, p).value)]
    else []
  }

  function DerivedOf(g: Group): seq<Quarter> {
    Derived(g, Q1) + Derived(g, Q2) + Derived(g, Q3) + Derived(g, Q4)
  }

  function DerivedFrom(groups: seq<Group>): seq<Quarter> {
    if groups == [] then []
    else DerivedFrom(groups[..|groups| - 1]) + DerivedOf(groups[|groups| - 1])
  }

  /** The loops that append the derived quarters. */
  method DeriveQuarters(groups: seq<Group>) returns (derived: seq<Quarter>)
    ensures derived == DerivedFrom(groups)
  {
    hide DerivedOf;
    derived := [];
    for i := 0 to |groups|
      invariant derived == DerivedFrom(groups[..i])
    {
      assert groups[..i + 1][..i] == groups[..i];
      var more := DeriveGroup(groups[i]);
      derived := derived + more;
    }
    assert groups[..|groups|] == groups;
  }

  /** The body of the inner loop. */
  method DeriveGroup(g: Group) returns (derived: seq<Quarter>)
    ensures derived == DerivedOf(g)
  {
    hide QuarterLabel;
    var q1, q2, q3, fy := Ytd(g, Q1), Ytd(g, Q2), Ytd(g, Q3), Ytd(g, Q4);
    var first, second, third, fourth := [], [], [], [];
    if q1.Some? { first := [Quarter(g.concept, Q1, QuarterLabel(g.facts[Q1].end, Q1), g.fiscalYear, q1.value)]; }
    if q2.Some? && q1.Some? {
      second := [Quarter(g.concept, Q2, QuarterLabel(g.facts[Q2].end, Q2), g.fiscalYear, q2.value - q1.value)];
    }
    if q3.Some? && q2.Some? {
      third := [Quarter(g.concept, Q3, QuarterLabel(g.facts[Q3].end, Q3), g.fiscalYear, q3.value - q2.value)];
    }
    if fy.Some? && q3.Some? {
      fourth := [Quarter(g.concept, Q4, QuarterLabel(g.facts[Q4].end, Q4), g.fiscalYear, fy.value - q3.value)];
    }
    assert first == Derived(g, Q1) && second == Derived(g, Q2);
    assert third == Derived(g, Q3) && fourth == Derived(g, Q4);
    hide Derived;
    derived := first + second + third + fourth;
  }

  /** The value of a group's fact for a period. */
  predicate HasValue(g: Group, p: Period, value: real) {
    p in g.facts && g.facts[p].value == Some(value)
  }

  ghost predicate IsDifference(g: Group, p: Period, before: Period, value: real) {
    exists now, earlier :: HasValue(g, p, now) && HasValue(g, before, earlier) && value == now - earlier
  }

  /** Exactly these quarters are derived: the first with its value, each later one with the
      difference to the value of the period before. */
  lemma DerivedIff(g: Group, q: Quarter)
    ensures q in DerivedOf(g) <==>
              && q.concept == g.concept && q.fiscalYear == g.fiscalYear && q.period in g.facts
              && q.quarterLabel == QuarterLabel(g.facts[q.period].end, q.period)
              && match q.period
                 case Q1 => HasValue(g, Q1, q.value)
                 case Q2 => IsDifference(g, Q2, Q1, q.value)
                 case Q3 => IsDifference(g, Q3, Q2, q.value)
                 case Q4 => IsDifference(g, Q4, Q3, q.value)
  {
    hide *;
    OneDerivedIff(g, Q1, q);
    OneDerivedIff(g, Q2, q);
    OneDerivedIff(g, Q3, q);
    OneDerivedIff(g, Q4, q);
    DerivedOfIs(g, q);
  }

  lemma DerivedOfIs(g: Group, q: Quarter)
    ensures q in DerivedOf(g) <==>
              q in Derived(g, Q1) || q in Derived(g, Q2) || q in Derived(g, Q3) || q in Derived(g, Q4)
  {
    hide Derived;
  }

  lemma OneDerivedIff(g: Group, p: Period, q: Quarter)
    ensures q in Derived(g, p) <==>
              && q.period == p && q.concept == g.concept && q.fiscalYear == g.fiscalYear && p in g.facts
              && q.quarterLabel == QuarterLabel(g.facts[p].end, p)
              && match p
                 case Q1 => HasValue(g, Q1, q.value)
                 case Q2 => IsDifference(g, Q2, Q1, q.value)
                 case Q3 => IsDifference(g, Q3, Q2, q.value)
                 case Q4 => IsDifference(g, Q4, Q3, q.value)
  {
    hide QuarterLabel;
    forall p: Period, value: real ensures HasValue(g, p, value) <==> Ytd(g, p) == Some(value) {
    }
    hide HasValue, Ytd;
  }

  // ---------------------------------------------------------------------------------
  // Telescoping
  // ---------------------------------------------------------------------------------

  function Total(quarters: seq<Quarter>): real {
    if quarters == [] then 0.0 else Total(quarters[..|quarters| - 1]) + quarters[|quarters| - 1].value
  }

  lemma {:induction false} TotalAppend(a: seq<Quarter>, b: seq<Quarter>)
    ensures Total(a + b) == Total(a) + Total(b)
    decreases |b|
  {
    if b == [] {
      assert a + b == a;
    } else {
      assert (a + b)[..|a + b| - 1] == a + b[..|b| - 1];
      TotalAppend(a, b[..|b| - 1]);
    }
  }

  function Order(p: Period): nat {
    match p case Q1 => 0 case Q2 => 1 case Q3 => 2 case Q4 => 3
  }

  /** The quarters from one period to another. */
  function DerivedSpan(g: Group, from: Period, last: Period): seq<Quarter>
    decreases Order(last)
  {
    if Order(last) < Order(from) then []
    else if from == last then Derived(g, last)
    else DerivedSpan(g, from, Prior(last).value) + Derived(g, last)
  }

  /** Every value between is there. */
  predicate Unbroken(g: Group, from: Period, last: Period) {
    YtdBefore(g, from).Some? && forall p :: Order(from) <= Order(p) <= Order(last) ==> Ytd(g, p).Some?
  }

  /** An unbroken run of quarters adds up to the difference of the values at its two ends. */
  lemma {:induction false} QuartersTelescope(g: Group, from: Period, last: Period)
    requires Order(from) <= Order(last) && Unbroken(g, from, last)
    ensures Total(DerivedSpan(g, from, last)) == Ytd(g, last).value - YtdBefore(g, from).value
    decreases Order(last)
  {
    TotalOfOne(g, last);
    hide Derived, Total;
    if from != last {
      var p := Prior(last).value;
      assert Ytd(g, p).Some?;
      QuartersTelescope(g, from, p);
      TotalAppend(DerivedSpan(g, from, p), Derived(g, last));
    }
  }

  lemma TotalOfOne(g: Group, p: Period)
    ensures Ytd(g, p).Some? && YtdBefore(g, p).Some? ==> Total(Derived(g, p)) == Ytd(g, p).value - YtdBefore(g, p).value
  {
    hide Ytd, YtdBefore, QuarterLabel;
    assert Derived(g, p)[..0] == [] && Total([]) == 0.0;
  }

  /** If all four values are there, the four quarters add up to the year. */
  lemma QuartersAddUpToTheYear(g: Group)
    requires forall p :: Ytd(g, p).Some?
    ensures Total(DerivedOf(g)) == Ytd(g, Q4).value
  {
    QuartersTelescope(g, Q1, Q4);
    assert DerivedSpan(g, Q1, Q2) == Derived(g, Q1) + Derived(g, Q2);
    assert DerivedSpan(g, Q1, Q3) == DerivedSpan(g, Q1, Q2) + Derived(g, Q3);
  }

  // ---------------------------------------------------------------------------------
  // One record for each concept and label
  // ---------------------------------------------------------------------------------

  predicate SameFact(a: Quarter, b: Quarter) {
    a.concept == b.concept && a.quarterLabel == b.quarterLabel
  }

  /** Sorted so that of two records of the same fact the later fiscal year comes first. */
  predicate LatestFirst(list: seq<Quarter>) {
    forall i, j :: 0 <= i < j < |list| && SameFact(list[i], list[j]) ==> list[i].fiscalYear >= list[j].fiscalYear
  }

  /** The fact is among the records. */
  predicate Has(records: seq<Quarter>, q: Quarter) {
    exists i :: 0 <= i < |records| && SameFact(records[i], q)
  }

  /** `drop_duplicates(..., keep="first")`. */
  function KeepFirst(list: seq<Quarter>): seq<Quarter> {
    if list == [] then []
    else
      var n := |list| - 1;
      var before := KeepFirst(list[..n]);
      if Has(before, list[n]) then before else before + [list[n]]
  }

  method DropDuplicates(list: seq<Quarter>) returns (kept: seq<Quarter>)
    ensures kept == KeepFirst(list)
  {
    kept := [];
    for i := 0 to |list|
      invariant kept == KeepFirst(list[..i])
    {
      hide Has;
      assert list[..i + 1][..i] == list[..i];
      if !Has(kept, list[i]) { kept := kept + [list[i]]; }
    }
    assert list[..|list|] == list;
  }

  /** No two kept records are of the same fact. */
  lemma {:induction false} KeptAreDistinct(list: seq<Quarter>)
    ensures forall i, j :: 0 <= i < j < |KeepFirst(list)| ==> !SameFact(KeepFirst(list)[i], KeepFirst(list)[j])
  {
    hide SameFact;
    if list != [] { KeptAreDistinct(list[..|list| - 1]); }
  }

  lemma SameFactIff(a: Quarter, b: Quarter)
    ensures SameFact(a, b) <==> (a.concept, a.quarterLabel) == (b.concept, b.quarterLabel)
  {
  }

  /** Every fact of the list is kept, by the first of its records. */
  lemma {:induction false} FirstIsKept(list: seq<Quarter>, k: nat) returns (f: nat, a: nat)
    requires k < |list|
    ensures f <= k && a < |KeepFirst(list)| && KeepFirst(list)[a] == list[f] && SameFact(list[f], list[k])
    ensures forall i :: 0 <= i < f ==> !SameFact(list[i], list[k])
  {
    var n := |list| - 1;
    var before := KeepFirst(list[..n]);
    hide *;
    KeepFirstIs(list);
    if k < n {
      f, a := FirstIsKept(list[..n], k);
    } else if Has(before, list[n]) {
      var b := HasAt(before, list[n]);
      var from := KeptIsFromList(list[..n], b);
      f, a := FirstIsKept(list[..n], from);
      SameFactBy(list[f], before[b], list[n]);
      forall i | 0 <= i < f ensures !SameFact(list[i], list[n]) {
        DifferentFact(list[i], before[b], list[n]);
      }
    } else {
      f, a := n, |before|;
      SameFactIff(list[n], list[n]);
      forall i | 0 <= i < n ensures !SameFact(list[i], list[n]) {
        var g, c := FirstIsKept(list[..n], i);
        HasNot(before, list[n], c);
        DifferentFact(list[n], before[c], list[i]);
      }
    }
  }

  lemma HasAt(records: seq<Quarter>, q: Quarter) returns (b: nat)
    requires Has(records, q)
    ensures b < |records| && SameFact(records[b], q)
  {
    hide SameFact;
    b :| 0 <= b < |records| && SameFact(records[b], q);
  }

  lemma HasNot(records: seq<Quarter>, q: Quarter, c: nat)
    requires !Has(records, q) && c < |records|
    ensures !SameFact(q, records[c])
  {
  }

  lemma SameFactBy(a: Quarter, b: Quarter, c: Quarter)
    requires SameFact(a, b) && SameFact(b, c)
    ensures SameFact(a, c)
  {
  }

  lemma DifferentFact(a: Quarter, b: Quarter, c: Quarter)
    requires !SameFact(a, b) && SameFact(b, c)
    ensures !SameFact(a, c) && !SameFact(c, a)
  {
  }

  lemma KeepFirstIs(list: seq<Quarter>)
    requires list != []
    ensures var n := |list| - 1;
            var before := KeepFirst(list[..n]);
            KeepFirst(list) == if Has(before, list[n]) then before else before + [list[n]]
  {
    hide Has;
  }

  lemma {:induction false} KeptIsFromList(list: seq<Quarter>, a: nat) returns (k: nat)
    requires a < |KeepFirst(list)|
    ensures k < |list| && list[k] == KeepFirst(list)[a]
  {
    var n := |list| - 1;
    if a < |KeepFirst(list[..n])| {
      k := KeptIsFromList(list[..n], a);
    } else {
      k := n;
    }
  }

  /** On a list sorted by fiscal year, latest first, each fact is kept with its latest year. */
  lemma LatestIsKept(list: seq<Quarter>, k: nat, a: nat)
    requires LatestFirst(list) && k < |list| && a < |KeepFirst(list)| && SameFact(KeepFirst(list)[a], list[k])
    ensures KeepFirst(list)[a].fiscalYear >= list[k].fiscalYear
  {
    var f, b := FirstIsKept(list, k);
    KeptAreDistinct(list);
    assert a == b;
  }

  // ---------------------------------------------------------------------------------
  // The latest quarters
  // ---------------------------------------------------------------------------------

  /** The labels, latest first. */
  predicate Descending(labels: seq<string>, date: string -> int) {
    forall i, j :: 0 <= i < j < |labels| ==> labels[i] != labels[j] && date(labels[i]) >= date(labels[j])
  }

  /** `_limit_quarters`. */
  function LimitQuarters(list: seq<Quarter>, labels: seq<string>, n: int): seq<Quarter> {
    if list == [] || n <= 0 then list else Having(list, if n < |labels| then labels[..n] else labels)
  }

  function Having(list: seq<Quarter>, labels: seq<string>): seq<Quarter> {
    if list == [] then []
    else (if list[0].quarterLabel in labels then [list[0]] else []) + Having(list[1..], labels)
  }

  lemma {:induction false} HavingIs(list: seq<Quarter>, labels: seq<string>)
    ensures forall q :: q in Having(list, labels) <==> q in list && q.quarterLabel in labels
  {
    if list != [] { HavingIs(list[1..], labels); }
  }

  function Labels(list: seq<Quarter>): set<string> {
    set q | q in list :: q.quarterLabel
  }

  /** With a positive limit at most that many labels remain, all records of a remaining label
      do, and no label that is dropped is later than one that remains. */
  lemma LimitKeepsTheLatest(list: seq<Quarter>, labels: seq<string>, n: int, date: string -> int)
    requires Descending(labels, date) && (forall l :: l in labels <==> l in Labels(list)) && n > 0
    ensures var kept := LimitQuarters(list, labels, n);
            && |Labels(kept)| <= n
            && (forall q :: q in kept <==> q in list && q.quarterLabel in Labels(kept))
            && (forall l, m :: l in Labels(kept) && m in Labels(list) && m !in Labels(kept) ==> date(l) >= date(m))
  {
    var kept := LimitQuarters(list, labels, n);
    var top := if n < |labels| then labels[..n] else labels;
    HavingIs(list, top);
    if list == [] {
      assert Labels(kept) == {};
    } else {
      AtMost(Labels(kept), top);
      forall l, m | l in Labels(kept) && m in Labels(list) && m !in Labels(kept) ensures date(l) >= date(m) {
        var i :| 0 <= i < |top| && top[i] == l;
        var j :| 0 <= j < |labels| && labels[j] == m;
        DroppedLabel(list, kept, top, m);
        assert top[i] == labels[i] && i < j;
      }
    }
  }

  /** Without a positive limit everything is kept. */
  lemma NoLimitKeepsAll(list: seq<Quarter>, labels: seq<string>, n: int)
    requires n < 1
    ensures LimitQuarters(list, labels, n) == list
  {
  }

  lemma DroppedLabel(list: seq<Quarter>, kept: seq<Quarter>, top: seq<string>, m: string)
    requires forall q :: q in kept <==> q in list && q.quarterLabel in top
    requires m in Labels(list)
    ensures m in Labels(kept) <==> m in top
  {
    var q :| q in list && q.quarterLabel == m;
    assert q in kept <==> m in top;
  }

  /** A set of entries of a list is no larger than the list. */
  lemma {:induction false} AtMost(s: set<string>, list: seq<string>)
    requires forall x :: x in s ==> x in list
    ensures |s| <= |list|
    decreases |list|
  {
    if list == [] {
      assert s == {};
    } else {
      var x, rest := list[|list| - 1], list[..|list| - 1];
      AtMost(s - {x}, rest);
    }
  }
}
