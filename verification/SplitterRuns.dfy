/**
 Whole calls of the message splitter, told from the text and the limit alone: when a call
 returns, how long its messages can get, and when a negative search bound lets a chunk
 outgrow the limit.
 */
module SplitterRuns {
  import opened PyText
  import opened MarkdownLexer
  import opened MessageSplitter
  import opened SplitterState
  import opened SplitterChoices
  import opened SplitterLimits
  import opened SplitterLengths

  // ---------------------------------------------------------------------------------
  // Returning
  // ---------------------------------------------------------------------------------

  /** A call returns exactly if the text fits into one message, or the fallback has a
      positive limit or only blanks to drop, or the loop never comes to a blocked turn. */
  lemma SplitReturnsIff(text: string, max: nat, mode: ParseMode)
    ensures SmartSplit(text, max, mode).Returned? <==>
            || |text| <= max
            || (mode == Unconfigured && (max >= 1 || AllSpace(text)))
            || (mode != Unconfigured && forall n: nat :: !BlockedAfter(mode, max, Start(text), n))
  {
    hide Run, PlainRun, MergeFrom, RenderAll, AllSpace, BlockedAfter;
    PlainReturnsIff(text, max);
    NeverReturnsIff(mode, max, Start(text));
  }

  // ---------------------------------------------------------------------------------
  // The carry of a run
  // ---------------------------------------------------------------------------------

  /** The length of the delimiter that starts at position i, 0 if none does. */
  function TokenLength(mode: ParseMode, text: string, i: nat): nat {
    var t := FirstToken(Tokens(mode), text, i);
    if IsToggle(mode, t) then |t| else 0
  }

  /** The total length of the delimiters that start in text[i..end]. */
  function TokenWeight(mode: ParseMode, text: string, i: nat, end: nat): nat
    requires end <= |text|
    decreases end - i
  {
    if i >= end then 0 else TokenLength(mode, text, i) + TokenWeight(mode, text, i + 1, end)
  }

  lemma {:induction false} WeightSplits(mode: ParseMode, text: string, i: nat, j: nat, end: nat)
    requires i <= j && end <= |text|
    ensures TokenWeight(mode, text, i, end) >= TokenWeight(mode, text, j, end)
    ensures j <= end ==>
              TokenWeight(mode, text, i, end) == TokenWeight(mode, text, i, j) + TokenWeight(mode, text, j, end)
    decreases j - i
  {
    hide TokenLength;
    if i < j {
      WeightSplits(mode, text, i + 1, j, end);
    }
  }

  lemma {:induction false} WeightOfRest(mode: ParseMode, text: string, k: nat, i: nat)
    requires k + i <= |text|
    ensures TokenWeight(mode, text[k..], i, |text| - k) == TokenWeight(mode, text, k + i, |text|)
    decreases |text| - i
  {
    hide *;
    WeightStep(mode, text[k..], i, |text| - k);
    WeightStep(mode, text, k + i, |text|);
    if k + i < |text| {
      SameTokenLength(mode, text, k, i);
      WeightOfRest(mode, text, k, i + 1);
    }
  }

  lemma WeightStep(mode: ParseMode, text: string, i: nat, end: nat)
    requires i <= end <= |text|
    ensures TokenWeight(mode, text, i, end)
         == if i == end then 0 else TokenLength(mode, text, i) + TokenWeight(mode, text, i + 1, end)
  {
    hide TokenLength;
  }

  lemma SameTokenLength(mode: ParseMode, text: string, k: nat, i: nat)
    requires k <= |text|
    ensures TokenLength(mode, text[k..], i) == TokenLength(mode, text, k + i)
  {
    hide FirstToken, Tokens;
    SuffixFirstToken(Tokens(mode), text, k, i);
  }

  /** One step of the scanner opens at most the delimiter that starts where it stands. */
  lemma StepOpens(mode: ParseMode, text: string, i: nat, stack: seq<string>)
    requires i < |text|
    ensures |Join(ScanStep(mode, text, i, stack).stack)| <= |Join(stack)| + TokenLength(mode, text, i)
  {
    var t := FirstToken(Tokens(mode), text, i);
    hide FirstToken, StartsWithAt, Tokens, IsToggle, Join;
    JoinOne(stack, t);
    if stack != [] {
      var n := |stack| - 1;
      assert stack == stack[..n] + [stack[n]];
      JoinOne(stack[..n], stack[n]);
    }
  }

  lemma JoinOne(stack: seq<string>, t: string)
    ensures |Join(stack + [t])| == |Join(stack)| + |t|
  {
    JoinAppend(stack, [t]);
    assert Join([t]) == t + Join([]);
  }

  /** A scan opens at most the delimiters that start in the span it reads. */
  lemma {:induction false} ScanOpens(mode: ParseMode, text: string, i: nat, end: nat, stack: seq<string>)
    requires end <= |text|
    ensures |Join(ScanFrom(mode, text, i, end, stack).stack)| <= |Join(stack)| + TokenWeight(mode, text, i, end)
    decreases end - i
  {
    hide ScanStep, TokenLength;
    if i < end {
      StepOpens(mode, text, i, stack);
      var s := ScanStep(mode, text, i, stack);
      ScanOpens(mode, text, s.pos, end, s.stack);
      WeightSplits(mode, text, i + 1, s.pos, end);
    }
  }

  /** What is open and what can still be opened. */
  function Delimiters(mode: ParseMode, s: State): nat {
    |Join(s.stack)| + TokenWeight(mode, s.remaining, 0, |s.remaining|)
  }

  /** No turn adds to what is open and can still be opened, wherever it cuts. */
  lemma TurnOpens(mode: ParseMode, max: nat, s: State)
    ensures Delimiters(mode, Next(mode, max, s)) <= Delimiters(mode, s)
  {
    var text, cut := s.remaining, Cut(mode, max, s);
    hide Cut, ScanFrom, TokenWeight, InBlockquoteAt, Openers;
    assert Next(mode, max, s).stack == ScanFrom(mode, text, 0, cut, s.stack).stack;
    assert Next(mode, max, s).remaining == text[cut..];
    hide Next, Join;
    ScanOpens(mode, text, 0, cut, s.stack);
    WeightSplits(mode, text, 0, cut, |text|);
    WeightOfRest(mode, text, cut, 0);
  }

  /** So the carry never exceeds the delimiters of the text. */
  lemma {:induction false} CarryWithinDelimiters(mode: ParseMode, max: nat, s: State, carry: nat)
    requires Inv(mode, s) && Delimiters(mode, s) <= carry
    ensures CarriesAtMost(mode, max, s, carry)
    decreases |s.remaining|
  {
    InvOpeners(mode, s);
    if Cutting(mode, max, s) && Cut(mode, max, s) > 0 {
      RestShrinks(mode, max, s);
      NextInv(mode, max, s);
      TurnOpens(mode, max, s);
      hide Cut, Next, Inv, Delimiters, Cutting;
      CarryWithinDelimiters(mode, max, Next(mode, max, s), carry);
    }
  }

  /** If the delimiters of the text, a quotation mark and the buffer fit into the limit, no
      message is longer than the limit plus the text's delimiters on each side. */
  lemma MessagesWithin(mode: ParseMode, max: nat, text: string)
    requires mode != Unconfigured && SmartSplit(text, max, mode).Returned?
    requires TokenWeight(mode, text, 0, |text|) + 2 + DELIMITER_BUFFER <= max
    ensures AllWithin(SmartSplit(text, max, mode).value, max + 2 * TokenWeight(mode, text, 0, |text|))
  {
    hide *;
    var carry := TokenWeight(mode, text, 0, |text|);
    StartCarries(mode, text);
    CarryWithinDelimiters(mode, max, Start(text), carry);
    MessagesWithinCarry(mode, max, text, carry);
  }

  lemma StartCarries(mode: ParseMode, text: string)
    ensures Inv(mode, Start(text)) && Delimiters(mode, Start(text)) == TokenWeight(mode, text, 0, |text|)
  {
    hide TokenWeight;
    StartInv(mode, text);
  }

  /** The `gap` characters from i on, if there are as many, have a blank among them. */
  ghost predicate BlankFrom(text: string, i: nat, gap: nat) {
    i + gap <= |text| ==> !Blankless(text, i, i + gap)
  }

  /** Each stretch of `gap` characters has a blank in it. */
  ghost predicate BlankEvery(text: string, gap: nat) {
    forall i: nat :: BlankFrom(text, i, gap)
  }

  lemma RestHasBlanks(text: string, gap: nat, cut: nat)
    requires cut <= |text| && BlankEvery(text, gap)
    ensures BlankEvery(text[cut..], gap)
  {
    forall i: nat ensures BlankFrom(text[cut..], i, gap) {
      assert BlankFrom(text, cut + i, gap);
      BlanksShift(text, cut, i, gap);
    }
  }

  lemma BlanksShift(text: string, cut: nat, i: nat, gap: nat)
    requires cut <= |text| && BlankFrom(text, cut + i, gap)
    ensures BlankFrom(text[cut..], i, gap)
  {
    assert forall k :: cut <= k < |text| ==> text[k] == text[cut..][k - cut];
  }

  /** Within a search bound of `gap` or more there is then a boundary to cut at. */
  lemma BlankIsFound(mode: ParseMode, max: nat, s: State, weight: nat, gap: nat)
    requires Inv(mode, s) && Cutting(mode, max, s) && Delimiters(mode, s) <= weight
    requires weight + 2 + DELIMITER_BUFFER + gap <= max && gap > 0 && BlankEvery(s.remaining, gap)
    ensures EffectiveLimit(mode, max, s) >= gap && Boundary(s.remaining, EffectiveLimit(mode, max, s)) != -1
  {
    var limit := EffectiveLimit(mode, max, s);
    CarryIsOpen(mode, s);
    assert CarryCost(mode, s) <= weight + 2 && |s.remaining| > max - CarryCost(mode, s) >= gap;
    assert BlankFrom(s.remaining, 0, gap);
    HardSplitIff(s.remaining, limit);
    hide Boundary, Inv, Delimiters;
  }

  lemma CarryIsOpen(mode: ParseMode, s: State)
    requires Inv(mode, s)
    ensures |s.openers| <= Delimiters(mode, s)
  {
    hide TokenWeight;
    InvOpeners(mode, s);
  }

  /** One turn of such a run: its chunk fits, and the rest is no worse. */
  lemma FittingTurn(mode: ParseMode, max: nat, s: State, weight: nat, gap: nat)
    requires Inv(mode, s) && Cutting(mode, max, s) && Delimiters(mode, s) <= weight <= DELIMITER_BUFFER
    requires weight + 2 + DELIMITER_BUFFER + gap <= max && gap > 0 && BlankEvery(s.remaining, gap)
    ensures |Render(mode, CutPiece(mode, max, s))| <= max
    ensures var next := Next(mode, max, s);
            Inv(mode, next) && Delimiters(mode, next) <= weight && BlankEvery(next.remaining, gap)
  {
    hide *;
    BlankIsFound(mode, max, s, weight, gap);
    TurnOpens(mode, max, s);
    NextInv(mode, max, s);
    RestShrinks(mode, max, s);
    RestHasBlanks(s.remaining, gap, Cut(mode, max, s));
    CarryIsOpen(mode, Next(mode, max, s));
    InvOpeners(mode, Next(mode, max, s));
    BoundaryChunkLength(mode, max, s);
    NextStack(mode, max, s);
  }

  lemma NextStack(mode: ParseMode, max: nat, s: State)
    ensures Next(mode, max, s).stack == StackAfter(mode, max, s)
    ensures ChunkOf(mode, max, s) == Render(mode, CutPiece(mode, max, s))
    ensures Cut(mode, max, s) <= |s.remaining|
  {
    hide Cut, StackAfter, Render, CutPiece;
  }

  lemma {:induction false} RunChunksFit(mode: ParseMode, max: nat, s: State, weight: nat, gap: nat)
    requires Inv(mode, s) && Run(mode, max, s).Returned? && Delimiters(mode, s) <= weight <= DELIMITER_BUFFER
    requires weight + 2 + DELIMITER_BUFFER + gap <= max && gap > 0 && BlankEvery(s.remaining, gap)
    ensures AllWithin(RenderAll(mode, Run(mode, max, s).value), max)
    decreases |s.remaining|
  {
    hide *;
    if Cutting(mode, max, s) {
      RunTurn(mode, max, s);
      FittingTurn(mode, max, s, weight, gap);
      RunChunksFit(mode, max, Next(mode, max, s), weight, gap);
      RenderCons(mode, CutPiece(mode, max, s), Run(mode, max, Next(mode, max, s)).value, max);
    } else {
      LastTurnFits(mode, max, s);
    }
  }

  lemma LastTurnFits(mode: ParseMode, max: nat, s: State)
    requires Inv(mode, s) && !Cutting(mode, max, s)
    ensures Run(mode, max, s).Returned? && AllWithin(RenderAll(mode, Run(mode, max, s).value), max)
  {
    hide Render;
    if s.remaining != "" { LastChunkFits(mode, max, s); }
  }

  /** If the text has at most 50 characters of delimiters, and a blank in every stretch as long
      as the limit leaves after these, the quotation mark and the buffer, then no message is
      longer than the limit. */
  lemma MessagesFit(mode: ParseMode, max: nat, text: string, gap: nat)
    requires mode != Unconfigured && SmartSplit(text, max, mode).Returned?
    requires TokenWeight(mode, text, 0, |text|) <= DELIMITER_BUFFER && gap > 0 && BlankEvery(text, gap)
    requires TokenWeight(mode, text, 0, |text|) + 2 + DELIMITER_BUFFER + gap <= max
    ensures AllWithin(SmartSplit(text, max, mode).value, max)
  {
    StartCarries(mode, text);
    if |text| > max {
      hide Run, AllWithin, TokenWeight, BlankEvery, Delimiters, RenderAll;
      RunChunksFit(mode, max, Start(text), TokenWeight(mode, text, 0, |text|), gap);
      MergeKeepsTheBound([], RenderAll(mode, Run(mode, max, Start(text)).value), max, max);
      NoneExceeds(max);
    }
  }

  lemma NoneExceeds(max: nat)
    ensures AllWithin([], max)
  {
  }

  // ---------------------------------------------------------------------------------
  // Negative search bounds
  // ---------------------------------------------------------------------------------

  /** A negative search bound leaves out that many characters at the end of the text, and
      its last quarter is empty (or, for -1, everything). */
  lemma NegativeBoundaryIff(text: string, limit: int, b: int)
    requires limit < 0
    ensures Boundary(text, limit) == b <==> IsBestCut(text, 0, SliceBound(limit, |text|), b)
  {
    hide *;
    BoundaryShortOf(text, limit);
    BoundaryFromIff(text, 0, SliceBound(limit, |text|), b);
  }

  lemma BoundaryShortOf(text: string, limit: int)
    requires limit < 0
    ensures SliceBound(limit, |text|) <= |text|
    ensures Boundary(text, limit) == BoundaryFrom(text, 0, SliceBound(limit, |text|))
  {
    hide BoundaryFrom;
    SameBoundaryFrom(text, limit);
    if limit < -1 { NothingNear(text, limit); }
  }

  lemma SameBoundaryFrom(text: string, limit: int)
    requires limit < 0
    ensures BoundaryFrom(text, 0, limit) == BoundaryFrom(text, 0, SliceBound(limit, |text|))
  {
    hide *;
    SameRange(text, "\n", limit);
    SameRange(text, ". ", limit);
    SameRange(text, "! ", limit);
    SameRange(text, "? ", limit);
    SameRange(text, " ", limit);
    BoundaryFromIs(text, 0, limit);
    BoundaryFromIs(text, 0, SliceBound(limit, |text|));
  }

  /** The cut that the results of the five searches give. */
  function CutAfter(newline: int, stop: int, call: int, ask: int, space: int): int {
    if newline != -1 then newline + 1
    else if Max(stop, Max(call, ask)) != -1 then Max(stop, Max(call, ask)) + 2
    else if space != -1 then space + 1
    else -1
  }

  lemma BoundaryFromIs(text: string, start: int, limit: int)
    ensures BoundaryFrom(text, start, limit)
         == CutAfter(RFind(text, "\n", start, limit), RFind(text, ". ", start, limit), RFind(text, "! ", start, limit),
                     RFind(text, "? ", start, limit), RFind(text, " ", start, limit))
  {
    hide RFind, StartsWithAt, SliceBound, Min;
  }

  lemma SameRange(text: string, pat: string, limit: int)
    requires limit < 0
    ensures RFind(text, pat, 0, limit) == RFind(text, pat, 0, SliceBound(limit, |text|))
  {
  }

  lemma NothingNear(text: string, limit: int)
    requires limit < -1
    ensures BoundaryFrom(text, ThreeQuarters(limit), limit) == -1
  {
    EmptyRange(text, "\n", limit);
    EmptyRange(text, ". ", limit);
    EmptyRange(text, "! ", limit);
    EmptyRange(text, "? ", limit);
    EmptyRange(text, " ", limit);
    hide RFind;
  }

  lemma EmptyRange(text: string, pat: string, limit: int)
    requires limit < -1 && pat != ""
    ensures RFind(text, pat, ThreeQuarters(limit), limit) == -1
  {
  }

  /** The last newline of text[..e], or else the last sentence end, or else the last space,
      lies within the first `max` characters (or there is none of these). */
  predicate BestCutBy(text: string, e: nat, max: nat) {
    if !Without(text, '\n', 0, e) then Without(text, '\n', max, e)
    else if !NoSentence(text, 0, e) then NoSentence(text, max - 1, e)
    else Without(text, ' ', max, e)
  }

  lemma BestCutByIff(text: string, e: nat, max: nat, b: int)
    requires e <= |text| && IsBestCut(text, 0, e, b)
    ensures b <= max <==> BestCutBy(text, e, max)
  {
  }

  /** A link across the split starts within the first `max` characters. */
  ghost predicate LinkStartsBy(text: string, split: int, max: nat) {
    exists p: nat :: p <= max && OpensLinkAcross(text, split, p)
  }

  lemma RollbackByIff(mode: ParseMode, text: string, split: nat, max: nat)
    requires max < split <= |text| && SafeCut(mode, text, split)
    ensures Rollback(mode, text, split) <= max <==> LinkStartsBy(text, split, max)
  {
    hide Rollback, OpensLinkAcross, SafeCut;
    RollbackToLinkIff(mode, text, split, Rollback(mode, text, split));
    if LinkStartsBy(text, split, max) {
      var p: nat :| p <= max && OpensLinkAcross(text, split, p);
      RollbackToLinkIff(mode, text, split, p);
    }
  }

  /** Once the carry and the buffer exceed the limit, a chunk stays within the limit and its
      own openers and closers exactly if the best cut of the text short of the negative
      bound lies within the limit, or a link across that cut takes it back there. */
  lemma TinyLimitChunkFitsIff(mode: ParseMode, max: nat, s: State)
    requires Inv(mode, s) && EffectiveLimit(mode, max, s) < 0
    ensures var e := SliceBound(EffectiveLimit(mode, max, s), |s.remaining|);
            |ChunkOf(mode, max, s)| <= max + |Join(s.stack)| + |Join(StackAfter(mode, max, s))| <==>
            || BestCutBy(s.remaining, e, max)
            || (exists b: nat :: IsBestCut(s.remaining, 0, e, b) && LinkStartsBy(s.remaining, b, max))
  {
    var text, limit := s.remaining, EffectiveLimit(mode, max, s);
    var e, b := SliceBound(limit, |text|), Boundary(text, limit);
    hide *;
    ChunkLength(mode, max, s);
    TinyLimitCut(mode, max, s, e, b);
  }

  lemma TinyLimitCut(mode: ParseMode, max: nat, s: State, e: nat, b: int)
    requires EffectiveLimit(mode, max, s) < 0 && b == Boundary(s.remaining, EffectiveLimit(mode, max, s))
    requires e == SliceBound(EffectiveLimit(mode, max, s), |s.remaining|)
    ensures Cut(mode, max, s) <= max <==>
            || BestCutBy(s.remaining, e, max)
            || (exists b: nat :: IsBestCut(s.remaining, 0, e, b) && LinkStartsBy(s.remaining, b, max))
  {
    var text, limit := s.remaining, EffectiveLimit(mode, max, s);
    hide Cut, RawCut, Boundary, IsBestCut, BestCutBy, LinkStartsBy, EffectiveLimit, Rollback, SafeCut, SliceBound;
    BoundaryShortOf(text, limit);
    NegativeBoundaryIff(text, limit, b);
    forall c: int | IsBestCut(text, 0, e, c) ensures c == b { NegativeBoundaryIff(text, limit, c); }
    BestCutByIff(text, e, max, b);
    CutIsRollback(mode, max, s);
    BoundaryRawCut(mode, max, s);
    BoundaryWithin(text, limit);
    if b > max {
      AfterBlankIsSafe(mode, text, b);
      RollbackByIff(mode, text, b, max);
    }
  }
}
