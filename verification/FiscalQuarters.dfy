/**
 Fiscal quarters (`tools/stock_notes/fiscal.py`).  A fiscal year is named after the calendar
 year in which it ends.  `%` and `//` are Python's; with a positive divisor they agree with
 Dafny's.
 */
module FiscalQuarters {
  import opened Options

  /** Months on one line: months since January of year 0. */
  function MonthNumber(year: int, month: int): int {
    12 * year + month - 1
  }

  /** Quarters on one line. */
  function QuarterNumber(q: int, fy: int): int {
    4 * (fy - 1) + (q - 1)
  }

  predicate IsMonth(m: int) {
    1 <= m <= 12
  }

  /** `fiscal_quarter_from_period_end`. */
  function FiscalQuarter(year: int, month: int, fiscalYearEnd: int): (r: (int, int))
    requires IsMonth(month) && IsMonth(fiscalYearEnd)
  {
    var q := ((month - fiscalYearEnd - 1) % 12) / 3 + 1;
    var fy := if month <= fiscalYearEnd then year else year + 1;
    if month == fiscalYearEnd then (4, year) else (q, fy)
  }

  /** The quarter number is that of the month, counted in threes from the end of the fiscal
      year. */
  lemma FiscalQuarterIsFloor(year: int, month: int, fiscalYearEnd: int)
    requires 1 <= month <= 12 && 1 <= fiscalYearEnd <= 12
    ensures var (q, fy) := FiscalQuarter(year, month, fiscalYearEnd);
            1 <= q <= 4 && QuarterNumber(q, fy) == (MonthNumber(year, month) - fiscalYearEnd) / 3
  {
    var d := month - fiscalYearEnd - 1;
    if d < 0 {
      assert d % 12 == d + 12;
    } else {
      assert d % 12 == d;
    }
  }

  /** Later months are never in earlier quarters, and three months later is the next one. */
  lemma FiscalQuarterIsMonotone(year: int, month: int, year': int, month': int, fiscalYearEnd: int)
    requires IsMonth(month) && IsMonth(month') && IsMonth(fiscalYearEnd)
    requires MonthNumber(year, month) <= MonthNumber(year', month')
    ensures var (q, fy) := FiscalQuarter(year, month, fiscalYearEnd);
            var (q', fy') := FiscalQuarter(year', month', fiscalYearEnd);
            && QuarterNumber(q, fy) <= QuarterNumber(q', fy')
            && (MonthNumber(year', month') == MonthNumber(year, month) + 3 ==>
                QuarterNumber(q', fy') == QuarterNumber(q, fy) + 1)
  {
    FiscalQuarterIsFloor(year, month, fiscalYearEnd);
    FiscalQuarterIsFloor(year', month', fiscalYearEnd);
    hide FiscalQuarter;
  }

  /** A month belongs to a quarter exactly if it is one of the three that end it. */
  lemma MonthsOfAQuarter(year: int, month: int, fiscalYearEnd: int, q: int, fy: int)
    requires 1 <= month <= 12 && 1 <= fiscalYearEnd <= 12 && 1 <= q <= 4
    ensures FiscalQuarter(year, month, fiscalYearEnd) == (q, fy)
       <==> var first := 3 * QuarterNumber(q, fy) + fiscalYearEnd; first <= MonthNumber(year, month) < first + 3
  {
    FiscalQuarterIsFloor(year, month, fiscalYearEnd);
    var (q', fy') := FiscalQuarter(year, month, fiscalYearEnd);
    SameQuarter(q, fy, q', fy');
    hide FiscalQuarter;
  }

  lemma SameQuarter(q: int, fy: int, q': int, fy': int)
    requires 1 <= q <= 4 && 1 <= q' <= 4
    ensures QuarterNumber(q, fy) == QuarterNumber(q', fy') <==> q == q' && fy == fy'
  {
  }

  /** The comparison of (fiscal year, quarter) pairs. */
  predicate NotAfter(q: int, fy: int, q': int, fy': int) {
    fy < fy' || (fy == fy' && q <= q')
  }

  lemma NotAfterIsNumeric(q: int, fy: int, q': int, fy': int)
    requires 1 <= q <= 4 && 1 <= q' <= 4
    ensures NotAfter(q, fy, q', fy') <==> QuarterNumber(q, fy) <= QuarterNumber(q', fy')
  {
  }

  // ---------------------------------------------------------------------------------
  // Ranges
  // ---------------------------------------------------------------------------------

  /** What `parse_quarter_date` makes of a date whose first two fields are these integers;
      None if one of them is missing or not a number. */
  function ParseQuarterDate(fields: Option<(int, int)>): (r: (int, int))
    ensures r == (0, 0) || (r.0 > 1900 && IsMonth(r.1) && fields == Some(r))
    ensures fields.Some? && fields.value.0 >= 1901 && 1 <= fields.value.1 < 13 ==> r == fields.value
  {
    match fields
    case Some((year, month)) => if IsMonth(month) && year > 1900 then (year, month) else (0, 0)
    case None => (0, 0)
  }

  const MAX_YEAR := 9999

  /** A list of quarters (q, fy), or the ValueError of `date`. */
  datatype Range = Quarters(list: seq<(int, int)>) | BadYear

  predicate IsQuarter(p: (int, int)) {
    1 <= p.0 <= 4
  }

  /** The quarters are consecutive, beginning with this number. */
  predicate Consecutive(list: seq<(int, int)>, start: int) {
    forall i :: 0 <= i < |list| ==> IsQuarter(list[i]) && QuarterNumber(list[i].0, list[i].1) == start + i
  }

  function Number(p: (int, int), fiscalYearEnd: int): int
    requires IsMonth(p.1) && IsMonth(fiscalYearEnd)
  {
    var (q, fy) := FiscalQuarter(p.0, p.1, fiscalYearEnd);
    QuarterNumber(q, fy)
  }

  /** The number of quarters from one to the other, capped; the cap is looked at only after a
      quarter was appended. */
  function RangeLength(first: int, last: int, maxQuarters: int): (n: nat) {
    if last < first then 0
    else if maxQuarters <= 1 then 1
    else if last - first + 1 <= maxQuarters then last - first + 1
    else maxQuarters
  }

  /** `quarter_date_range`. */
  method QuarterDateRange(start: Option<(int, int)>, end: Option<(int, int)>, fiscalYearEnd: int, maxQuarters: int)
    returns (r: Range)
    requires IsMonth(fiscalYearEnd)
    ensures var s, e := ParseQuarterDate(start), ParseQuarterDate(end);
            && (s.0 == 0 || e.0 == 0 ==> r == Quarters([]))
            && (s.0 != 0 && e.0 != 0 ==> (r.BadYear? <==> s.0 > 9999 || e.0 > 9999))
            && (s.0 != 0 && e.0 != 0 && r.Quarters? ==>
                  && Consecutive(r.list, Number(s, fiscalYearEnd))
                  && |r.list| == RangeLength(Number(s, fiscalYearEnd), Number(e, fiscalYearEnd), maxQuarters))
  {
    var (startYear, startMonth) := ParseQuarterDate(start);
    var (endYear, endMonth) := ParseQuarterDate(end);
    if startYear == 0 || endYear == 0 { return Quarters([]); }
    if startYear > MAX_YEAR || endYear > MAX_YEAR { return BadYear; }
    FiscalQuarterIsFloor(startYear, startMonth, fiscalYearEnd);
    FiscalQuarterIsFloor(endYear, endMonth, fiscalYearEnd);
    var (q, fy) := FiscalQuarter(startYear, startMonth, fiscalYearEnd);
    var (endQ, endFy) := FiscalQuarter(endYear, endMonth, fiscalYearEnd);
    ghost var first, last := QuarterNumber(q, fy), QuarterNumber(endQ, endFy);
    hide FiscalQuarter, ParseQuarterDate;
    var list := [];
    while NotAfter(q, fy, endQ, endFy)
      invariant 1 <= q <= 4 && QuarterNumber(q, fy) == first + |list|
      invariant Consecutive(list, first)
      invariant |list| > 0 ==> |list| < maxQuarters && first + |list| - 1 <= last
      decreases last - QuarterNumber(q, fy)
    {
      NotAfterIsNumeric(q, fy, endQ, endFy);
      list := list + [(q, fy)];
      q := q + 1;
      if q > 4 { q, fy := 1, fy + 1; }
      if |list| >= maxQuarters { break; }
    }
    NotAfterIsNumeric(q, fy, endQ, endFy);
    return Quarters(list);
  }

  /** If the cap is not reached, the quarter of every month between the two dates is in the
      list. */
  lemma UncappedRangeCoversEveryMonth(list: seq<(int, int)>, start: (int, int), end: (int, int), fiscalYearEnd: int,
                                      maxQuarters: int, year: int, month: int)
    requires IsMonth(fiscalYearEnd) && IsMonth(start.1) && IsMonth(end.1) && IsMonth(month)
    requires Consecutive(list, Number(start, fiscalYearEnd))
    requires |list| == RangeLength(Number(start, fiscalYearEnd), Number(end, fiscalYearEnd), maxQuarters) < maxQuarters
    requires MonthNumber(start.0, start.1) <= MonthNumber(year, month) <= MonthNumber(end.0, end.1)
    ensures FiscalQuarter(year, month, fiscalYearEnd) in list
  {
    FiscalQuarterIsMonotone(start.0, start.1, year, month, fiscalYearEnd);
    FiscalQuarterIsMonotone(year, month, end.0, end.1, fiscalYearEnd);
    FiscalQuarterIsFloor(year, month, fiscalYearEnd);
    var (q, fy) := FiscalQuarter(year, month, fiscalYearEnd);
    hide FiscalQuarter;
    var i := QuarterNumber(q, fy) - Number(start, fiscalYearEnd);
    SameQuarter(q, fy, list[i].0, list[i].1);
    assert list[i] == (q, fy);
  }
}
