/**
 How long a chunk can get, what merging and the plain fallback keep, and the inputs on
 which the splitter does not do what it is for.
 */
module SplitterLengths {
  import opened PyText
  import opened MarkdownLexer
  import opened MessageSplitter
  import opened SplitterState
  import opened SplitterChoices
  import opened SplitterLimits

  // ---------------------------------------------------------------------------------
  // One chunk
  // ---------------------------------------------------------------------------------

  function ChunkOf(mode: ParseMode, max: nat, s: State): string { Render(mode, CutPiece(mode, max, s)) }

  lemma ChunkLength(mode: ParseMode, max: nat, s: State)
    requires Inv(mode, s)
    ensures |ChunkOf(mode, max, s)| == Cut(mode, max, s) + |Join(s.stack)| + |Join(StackAfter(mode, max, s))|
    ensures WellFormed(mode, StackAfter(mode, max, s))
  {
    var cut, after := Cut(mode, max, s), StackAfter(mode, max, s);
    ScanKeepsWellFormed(mode, s.remaining, 0, cut, s.stack);
    OpenersSpellTheStack(mode, after);
    assert CutPiece(mode, max, s) == Piece(s.remaining[..cut], s.openers, Closers(after), s.inQuote);
    hide Cut, StackAfter, Render, Inv, CutPiece, WellFormed, Closers;
    QuotePrefixNeverInserted(mode, s, cut, Closers(after));
    InvOpeners(mode, s);
  }

  lemma InvOpeners(mode: ParseMode, s: State)
    requires Inv(mode, s)
    ensures s.openers == Join(s.stack) && WellFormed(mode, s.stack)
  {
  }

  /** The rest is the last chunk exactly if that chunk, with its openers and, in a quotation,
      the two characters set aside for its prefix, is within the limit. */
  lemma LastIff(mode: ParseMode, max: nat, s: State)
    requires Inv(mode, s)
    ensures IsLast(mode, max, s) <==>
              |Render(mode, LastPiece(s))| + (if s.inQuote then 2 else 0) <= max
  {
    var text := s.remaining;
    assert text[..|text|] == text;
    QuotePrefixNeverInserted(mode, s, |text|, "");
  }

  /** The cut is searched for below the limit less the openers, that prefix and 50 characters. */
  lemma SearchBoundIs(mode: ParseMode, max: nat, s: State)
    requires Inv(mode, s)
    ensures EffectiveLimit(mode, max, s) + |Join(s.stack)| + (if s.inQuote then 2 else 0) + 50 == max
  {
    hide WellFormed;
  }

  /** After a cut the rest counts as a quotation exactly if it starts with the prefix. */
  lemma NextQuoteIff(mode: ParseMode, max: nat, s: State)
    ensures Next(mode, max, s).inQuote <==> mode == MarkdownV2 && "> " <= Next(mode, max, s).remaining
  {
    QuoteAtStartIff(mode, s.remaining[Cut(mode, max, s)..]);
    hide Cut, StackAfter, Openers, InBlockquoteAt;
  }

  lemma QuoteAtStartIff(mode: ParseMode, text: string)
    ensures InBlockquoteAt(text, 0, mode) <==> mode == MarkdownV2 && "> " <= text
  {
    assert LineStart(text, 0) == 0 && text[0..] == text;
  }

  /** The limits under which the searched range is what it looks like. */
  lemma RawCutWithin(mode: ParseMode, max: nat, s: State)
    ensures Boundary(s.remaining, EffectiveLimit(mode, max, s)) == -1 ==>
              RawCut(mode, max, s) == Min(max, |s.remaining|)
    ensures Boundary(s.remaining, EffectiveLimit(mode, max, s)) != -1 && EffectiveLimit(mode, max, s) >= 0
            ==> RawCut(mode, max, s) <= EffectiveLimit(mode, max, s)
    ensures Cut(mode, max, s) <= RawCut(mode, max, s)
  {
    BoundaryWithin(s.remaining, EffectiveLimit(mode, max, s));
    hide Boundary, Rollback;
  }

  /** A chunk cut at a boundary leaves the buffer free for its closers. */
  lemma BoundaryChunkLength(mode: ParseMode, max: nat, s: State)
    requires Inv(mode, s) && EffectiveLimit(mode, max, s) >= 0
    requires Boundary(s.remaining, EffectiveLimit(mode, max, s)) != -1
    ensures |ChunkOf(mode, max, s)| + DELIMITER_BUFFER <= max + |Join(StackAfter(mode, max, s))|
    ensures |Join(StackAfter(mode, max, s))| <= DELIMITER_BUFFER ==> |ChunkOf(mode, max, s)| <= max
  {
    ChunkLength(mode, max, s);
    RawCutWithin(mode, max, s);
    InvOpeners(mode, s);
    hide Cut, RawCut, StackAfter, Boundary, ChunkOf;
  }

  /** Any chunk exceeds the limit by no more than its own openers and closers, as long as
      the limit leaves room for the carry and the buffer. */
  lemma AnyChunkLength(mode: ParseMode, max: nat, s: State)
    requires Inv(mode, s) && EffectiveLimit(mode, max, s) >= 0
    ensures |ChunkOf(mode, max, s)| <= max + |Join(s.stack)| + |Join(StackAfter(mode, max, s))|
  {
    ChunkLength(mode, max, s);
    RawCutWithin(mode, max, s);
    hide Cut, RawCut, StackAfter, Boundary, ChunkOf;
  }

  /** A hard cut that is not rolled back meets the limit exactly when no delimiter is open
      on either side of it, or when the rest was short enough all along and only the two
      characters set aside for a quotation kept it from being the last chunk. */
  lemma HardChunkFitsIff(mode: ParseMode, max: nat, s: State)
    requires Inv(mode, s) && Cutting(mode, max, s)
    requires Boundary(s.remaining, EffectiveLimit(mode, max, s)) == -1 && Cut(mode, max, s) == RawCut(mode, max, s)
    ensures |ChunkOf(mode, max, s)| <= max <==>
            || (s.stack == [] && StackAfter(mode, max, s) == [])
            || (s.inQuote && |s.remaining| + |s.openers| + |Join(StackAfter(mode, max, s))| <= max)
  {
    ChunkLength(mode, max, s);
    RawCutWithin(mode, max, s);
    InvOpeners(mode, s);
    EmptyJoinIff(mode, s.stack);
    EmptyJoinIff(mode, StackAfter(mode, max, s));
    hide Cut, RawCut, StackAfter, Boundary, ChunkOf, WellFormed, Inv;
  }

  lemma EmptyJoinIff(mode: ParseMode, stack: seq<string>)
    requires WellFormed(mode, stack)
    ensures |Join(stack)| == 0 <==> stack == []
  {
    if stack != [] {
      assert IsToggle(mode, stack[0]);
    }
  }

  lemma LastChunkFits(mode: ParseMode, max: nat, s: State)
    requires Inv(mode, s) && IsLast(mode, max, s)
    ensures |Render(mode, LastPiece(s))| <= max
  {
    var text := s.remaining;
    assert text[..|text|] == text;
    QuotePrefixNeverInserted(mode, s, |text|, "");
  }

  // ---------------------------------------------------------------------------------
  // A whole run
  // ---------------------------------------------------------------------------------

  /** No state of the run carries more than `carry` characters of openers. */
  predicate CarriesAtMost(mode: ParseMode, max: nat, s: State, carry: nat)
    decreases |s.remaining|
  {
    |s.openers| <= carry
    && (Cutting(mode, max, s) && Cut(mode, max, s) > 0 ==> CarriesAtMost(mode, max, Next(mode, max, s), carry))
  }

  predicate AllWithin(cs: seq<string>, bound: nat) {
    forall k :: 0 <= k < |cs| ==> |cs[k]| <= bound
  }

  /** In a run whose carry and buffer always fit into the limit, no chunk is longer than
      the limit plus one carry on each side. */
  lemma {:induction false} RunChunksWithin(mode: ParseMode, max: nat, s: State, carry: nat)
    requires Inv(mode, s) && Run(mode, max, s).Returned?
    requires CarriesAtMost(mode, max, s, carry) && carry + 2 + DELIMITER_BUFFER <= max
    ensures AllWithin(RenderAll(mode, Run(mode, max, s).value), max + 2 * carry)
    decreases |s.remaining|
  {
    if Cutting(mode, max, s) {
      RunTurn(mode, max, s);
      var next := Next(mode, max, s);
      NextInv(mode, max, s);
      CutChunkWithin(mode, max, s, carry);
      assert CarriesAtMost(mode, max, next, carry);
      hide Next, Cut, Run, Inv, CutPiece, Render, CarriesAtMost, Cutting;
      RunChunksWithin(mode, max, next, carry);
      RenderCons(mode, CutPiece(mode, max, s), Run(mode, max, next).value, max + 2 * carry);
    } else if s.remaining != "" {
      LastChunkFits(mode, max, s);
      assert Run(mode, max, s).value == [LastPiece(s)];
    }
  }

  lemma RenderCons(mode: ParseMode, p: Piece, ps: seq<Piece>, bound: nat)
    requires |Render(mode, p)| <= bound && AllWithin(RenderAll(mode, ps), bound)
    ensures AllWithin(RenderAll(mode, [p] + ps), bound)
  {
    hide Render;
    forall k | 0 <= k < |[p] + ps| ensures |RenderAll(mode, [p] + ps)[k]| <= bound {
      if k > 0 {
        assert ([p] + ps)[k] == ps[k - 1];
        assert RenderAll(mode, ps)[k - 1] == Render(mode, ps[k - 1]);
      }
    }
  }

  lemma CutChunkWithin(mode: ParseMode, max: nat, s: State, carry: nat)
    requires Inv(mode, s) && CarriesAtMost(mode, max, s, carry) && carry + 2 + DELIMITER_BUFFER <= max
    requires Cutting(mode, max, s) && Cut(mode, max, s) > 0
    ensures |Render(mode, CutPiece(mode, max, s))| <= max + 2 * carry
  {
    AnyChunkLength(mode, max, s);
    NextInv(mode, max, s);
    InvOpeners(mode, s);
    InvOpeners(mode, Next(mode, max, s));
    var next := Next(mode, max, s);
    assert next.stack == StackAfter(mode, max, s);
    assert |next.openers| <= carry by {
      assert CarriesAtMost(mode, max, next, carry);
    }
    hide Cut, StackAfter, Next, Inv, Render, CutPiece;
  }

  // ---------------------------------------------------------------------------------
  // Merging
  // ---------------------------------------------------------------------------------

  lemma {:induction false} MergeKeepsTheText(merged: seq<string>, rest: seq<string>, max: nat)
    ensures Join(MergeFrom(merged, rest, max)) == Join(merged) + Join(rest)
    decreases |rest|
  {
    hide DelimiterOnly;
    if rest != [] {
      var c, n := rest[0], |merged|;
      if DelimiterOnly(c) && merged != [] && |merged[n - 1] + c| <= max {
        var grown := merged[n - 1 := merged[n - 1] + c];
        MergeKeepsTheText(grown, rest[1..], max);
        JoinGrown(merged, c);
      } else {
        MergeKeepsTheText(merged + [c], rest[1..], max);
        JoinAppend(merged, [c]);
        assert Join([c]) == c + Join([]);
      }
      assert Join(rest) == c + Join(rest[1..]);
    }
  }

  lemma JoinGrown(merged: seq<string>, c: string)
    requires merged != []
    ensures Join(merged[|merged| - 1 := merged[|merged| - 1] + c]) == Join(merged) + c
  {
    var n := |merged| - 1;
    var last := merged[n];
    assert merged == merged[..n] + [last];
    assert merged[n := last + c] == merged[..n] + [last + c];
    JoinAppend(merged[..n], [last]);
    JoinAppend(merged[..n], [last + c]);
    assert Join([last]) == last + Join([]) && Join([last + c]) == (last + c) + Join([]);
    assert Join(merged[..n]) + (last + c) == (Join(merged[..n]) + last) + c;
  }

  /** Merging makes no chunk longer than the limit that was not so already. */
  lemma {:induction false} MergeKeepsTheBound(merged: seq<string>, rest: seq<string>, max: nat, bound: nat)
    requires AllWithin(merged, bound) && AllWithin(rest, bound) && max <= bound
    ensures AllWithin(MergeFrom(merged, rest, max), bound)
    decreases |rest|
  {
    hide DelimiterOnly;
    if rest != [] {
      var c, n := rest[0], |merged|;
      assert AllWithin(rest[1..], bound);
      if DelimiterOnly(c) && merged != [] && |merged[n - 1] + c| <= max {
        MergeKeepsTheBound(merged[n - 1 := merged[n - 1] + c], rest[1..], max, bound);
      } else {
        MergeKeepsTheBound(merged + [c], rest[1..], max, bound);
      }
    }
  }

  /** The messages sent for a text: joined they are the joined chunks of the run, and the
      raw parts of those chunks are the text. */
  lemma MessagesCarryTheText(mode: ParseMode, max: nat, text: string)
    requires mode != Unconfigured && |text| > max && SmartSplit(text, max, mode).Returned?
    ensures Run(mode, max, Start(text)).Returned?
    ensures var ps := Run(mode, max, Start(text)).value;
            && Join(SmartSplit(text, max, mode).value) == Join(RenderAll(mode, ps))
            && Join(Raws(ps)) == text
  {
    hide Run, MergeFrom, RenderAll, Raws, PlainRun;
    var ps := Run(mode, max, Start(text)).value;
    MergeKeepsTheText([], RenderAll(mode, ps), max);
    PiecesSpellTheText(mode, max, Start(text));
  }

  /** ... and none of them is longer than the limit plus one carry on each side, if no turn
      carries more than that. */
  lemma MessagesWithinCarry(mode: ParseMode, max: nat, text: string, carry: nat)
    requires mode != Unconfigured && SmartSplit(text, max, mode).Returned?
    requires CarriesAtMost(mode, max, Start(text), carry) && carry + 2 + DELIMITER_BUFFER <= max
    ensures AllWithin(SmartSplit(text, max, mode).value, max + 2 * carry)
  {
    if |text| > max {
      StartInv(mode, text);
      hide Run, CarriesAtMost, Inv;
      RunChunksWithin(mode, max, Start(text), carry);
      MergeKeepsTheBound([], RenderAll(mode, Run(mode, max, Start(text)).value), max, max + 2 * carry);
    }
  }

  // ---------------------------------------------------------------------------------
  // The plain fallback
  // ---------------------------------------------------------------------------------

  /** The chunks appear in the text in order, with nothing but whitespace between and
      after them. */
  ghost predicate WeavesTo(chunks: seq<string>, text: string)
    decreases |chunks|
  {
    if chunks == [] then AllSpace(text)
    else
      chunks[0] <= text
      && exists gap :: 0 <= gap <= |text| - |chunks[0]| && GapThen(chunks, text, gap)
  }

  ghost predicate GapThen(chunks: seq<string>, text: string, gap: nat)
    requires chunks != [] && chunks[0] <= text && gap <= |text| - |chunks[0]|
    decreases |chunks|, 0
  {
    var n := |chunks[0]|;
    AllSpace(text[n..n + gap]) && WeavesTo(chunks[1..], text[n + gap..])
  }

  /** What one turn of the fallback leaves. */
  function PlainRest(text: string, max: nat): (rest: string)
    requires max < |text|
    ensures |rest| <= |text|
  {
    LStrip(text[PlainCut(text, max)..])
  }

  lemma PlainStep(text: string, max: nat)
    requires max < |text|
    ensures PlainRun(text, max) == if |PlainRest(text, max)| == |text| then NeverReturns
                                   else Prepended([text[..PlainCut(text, max)]], PlainRun(PlainRest(text, max), max))
  {
    hide PlainCut, LStrip;
    PlainTurn(text, max);
  }

  /** The fallback returns exactly when the limit is positive or there is nothing but
      whitespace to split. */
  lemma {:induction false} PlainReturnsIff(text: string, max: nat)
    ensures PlainRun(text, max).Returned? <==> max >= 1 || AllSpace(text)
    decreases |text|
  {
    if |text| <= max {
      hide AllSpace;
    } else {
      PlainStep(text, max);
      PlainProgressIff(text, max);
      hide PlainRun, PlainCut, AllSpace, PlainRest;
      if |PlainRest(text, max)| < |text| {
        PlainReturnsIff(PlainRest(text, max), max);
      }
    }
  }

  /** A turn of the fallback makes progress if the limit is positive or the text starts with
      a blank, and strips no more than blanks from an empty cut. */
  lemma PlainProgressIff(text: string, max: nat)
    requires max < |text|
    ensures max >= 1 ==> |PlainRest(text, max)| < |text|
    ensures max == 0 && |PlainRest(text, max)| < |text| ==> (AllSpace(PlainRest(text, max)) <==> AllSpace(text))
    ensures max == 0 && |PlainRest(text, max)| == |text| ==> !AllSpace(text)
  {
    var rest := PlainRest(text, max);
    if max >= 1 {
      NewlineCutStrips(text, max);
    } else {
      assert PlainCut(text, max) == 0 && text[0..] == text;
      if |rest| < |text| {
        StripsToSpace(text, rest);
      } else {
        assert rest == text && !IsSpace(text[0]);
      }
    }
  }

  lemma StripsToSpace(text: string, rest: string)
    requires rest == LStrip(text[0..]) && |rest| < |text|
    ensures AllSpace(rest) <==> AllSpace(text)
  {
    hide LStrip, IsSpace;
    assert text[0..] == text;
    SpaceBehindSpace(text, |text| - |rest|);
  }

  lemma SpaceBehindSpace(text: string, d: nat)
    requires d <= |text| && forall k :: 0 <= k < d ==> IsSpace(text[k])
    ensures AllSpace(text[d..]) <==> AllSpace(text)
  {
    hide IsSpace;
    assert forall k :: 0 <= k < |text[d..]| ==> text[d..][k] == text[d + k];
    if AllSpace(text[d..]) {
      forall k | 0 <= k < |text| ensures IsSpace(text[k]) {
        if k >= d { assert text[d..][k - d] == text[k]; }
      }
    }
  }

  lemma NewlineCutStrips(text: string, max: nat)
    requires 1 <= max < |text|
    ensures |LStrip(text[PlainCut(text, max)..])| < |text|
  {
    var split := PlainCut(text, max);
    if split == 0 {
      MatchShows(text, 0, "\n");
      assert text[0..] == text && IsSpace(text[0]);
    }
  }

  lemma {:induction false} PlainChunksFit(text: string, max: nat)
    requires PlainRun(text, max).Returned?
    ensures AllWithin(PlainRun(text, max).value, max)
    decreases |text|
  {
    if |text| > max {
      PlainStep(text, max);
      hide PlainRun, LStrip, PlainRest;
      PlainChunksFit(PlainRest(text, max), max);
    }
  }

  lemma {:induction false} PlainLosesOnlySpace(text: string, max: nat)
    requires PlainRun(text, max).Returned?
    ensures WeavesTo(PlainRun(text, max).value, text)
    decreases |text|
  {
    hide *;
    if |text| <= max {
      ShortWeaves(text, max);
    } else {
      PlainStep(text, max);
      RestAfterGap(text, max);
      PlainLosesOnlySpace(PlainRest(text, max), max);
      CutWeaves(text, PlainCut(text, max), PlainRest(text, max), PlainRun(PlainRest(text, max), max).value);
      WeavesFirst(text, max);
    }
  }

  lemma ShortWeaves(text: string, max: nat)
    requires |text| <= max
    ensures PlainRun(text, max).Returned? && WeavesTo(PlainRun(text, max).value, text)
  {
    if text != "" { WholeWeaves(text); }
  }

  lemma WeavesFirst(text: string, max: nat)
    requires max < |text| && PlainRun(text, max).Returned?
    requires PlainRun(text, max) == if |PlainRest(text, max)| == |text| then NeverReturns
                                    else Prepended([text[..PlainCut(text, max)]], PlainRun(PlainRest(text, max), max))
    requires PlainRun(PlainRest(text, max), max).Returned?
             && WeavesTo([text[..PlainCut(text, max)]] + PlainRun(PlainRest(text, max), max).value, text)
    ensures WeavesTo(PlainRun(text, max).value, text)
  {
    hide PlainRun, PlainCut, PlainRest, WeavesTo;
  }

  lemma RestAfterGap(text: string, max: nat)
    requires max < |text|
    ensures var split, rest := PlainCut(text, max), PlainRest(text, max);
            split + |rest| <= |text| && rest == text[|text| - |rest|..] && AllSpace(text[split..|text| - |rest|])
            && (PlainRun(text, max).Returned? ==> |rest| < |text| && PlainRun(rest, max).Returned?)
  {
    hide PlainCut, LStrip, IsSpace, AllSpace;
    StripIsGap(text, PlainCut(text, max));
    PlainStep(text, max);
  }

  lemma StripIsGap(text: string, split: nat)
    requires split <= |text|
    ensures var rest := LStrip(text[split..]);
            split + |rest| <= |text| && rest == text[|text| - |rest|..] && AllSpace(text[split..|text| - |rest|])
  {
    hide *;
    var tail := text[split..];
    var rest := LStrip(tail);
    var end := |text| - |rest|;
    assert |tail| == |text| - split;
    assert rest == tail[|tail| - |rest|..] == text[end..];
    forall k | split <= k < end ensures IsSpace(text[k]) {
      assert text[k] == tail[k - split];
    }
    SpaceSpan(text, split, end);
  }

  lemma SpaceSpan(text: string, a: nat, b: nat)
    requires a <= b <= |text| && forall k :: a <= k < b ==> IsSpace(text[k])
    ensures AllSpace(text[a..b])
  {
    hide IsSpace;
  }

  lemma WholeWeaves(text: string)
    ensures WeavesTo([text], text)
  {
    assert text[|text|..] == "" && text[|text|..|text| + 0] == "";
    assert [text][1..] == [] && WeavesTo([], "");
    assert GapThen([text], text, 0);
  }

  lemma CutWeaves(text: string, split: nat, rest: string, tail: seq<string>)
    requires split + |rest| <= |text| && rest == text[|text| - |rest|..] && AllSpace(text[split..|text| - |rest|])
    requires WeavesTo(tail, rest)
    ensures WeavesTo([text[..split]] + tail, text)
  {
    hide *;
    var gap := |text| - |rest| - split;
    var all := [text[..split]] + tail;
    assert all[1..] == tail && split + gap == |text| - |rest|;
    assert all[0] == text[..split] && |all[0]| == split;
    GapAt(all, text, split, gap);
  }

  lemma GapAt(chunks: seq<string>, text: string, n: nat, gap: nat)
    requires chunks != [] && chunks[0] <= text && n == |chunks[0]| && n + gap <= |text|
    requires AllSpace(text[n..n + gap]) && WeavesTo(chunks[1..], text[n + gap..])
    ensures WeavesTo(chunks, text)
  {
    hide AllSpace;
    assert GapThen(chunks, text, gap);
  }

  // ---------------------------------------------------------------------------------
  // Where the splitter fails
  // ---------------------------------------------------------------------------------

  predicate Letters(s: string) {
    forall k :: 0 <= k < |s| ==> 'a' <= s[k] <= 'z'
  }

  /** A link whose text is longer than the limit and has no blank in it is never split:
      the call does not return. */
  lemma LongLinkNeverReturns(mode: ParseMode, max: nat, anchor: string)
    requires mode != Unconfigured && max >= 3 && Letters(anchor) && |anchor| >= max
    ensures SmartSplit("[" + anchor + ")", max, mode).NeverReturns?
  {
    hide Cut, RawCut, Boundary, LeadingLinkBlocks, EffectiveLimit, MergeFrom, RenderAll, PlainRun;
    var text := "[" + anchor + ")";
    var s := Start(text);
    LinkChars(text, anchor);
    LongLinkBlocks(text, max);
    NoBlankNoBoundary(text, EffectiveLimit(mode, max, s));
    RawCutWithin(mode, max, s);
    PlainCharsAreSafe(mode, text, max);
    OnlyLinksBlock(mode, max, s);
  }

  lemma LongLinkBlocks(text: string, split: nat)
    requires 0 < split < |text| && text[0] == '[' && text[|text| - 1] == ')'
    requires forall k :: 0 < k < |text| - 1 ==> 'a' <= text[k] <= 'z'
    ensures LeadingLinkBlocks(text, split)
  {
  }

  lemma LinkChars(text: string, anchor: string)
    requires text == "[" + anchor + ")" && Letters(anchor)
    ensures text[0] == '[' && text[|text| - 1] == ')' && forall k :: 0 < k < |text| - 1 ==> 'a' <= text[k] <= 'z'
  {
    assert forall k :: 0 < k < |text| - 1 ==> text[k] == anchor[k - 1];
  }

  lemma NoBlankNoBoundary(text: string, limit: int)
    requires forall k :: 0 <= k < |text| ==> text[k] != ' ' && text[k] != '\n'
    ensures Boundary(text, limit) == -1
  {
    BoundaryWithin(text, limit);
  }

  lemma PlainCharsAreSafe(mode: ParseMode, text: string, p: nat)
    requires 0 < p < |text| && 'a' <= text[p] <= 'z'
    ensures SafeCut(mode, text, p)
  {
    forall t | t in Tokens(mode) ensures !Straddled(text, p, t) {
      LongTokens(mode, t);
      if Straddled(text, p, t) {
        var o :| Straddles(text, p, t, o);
        StraddleShows(text, p, t, o);
        LongTokenChars(t, o);
      }
    }
  }

  /** Below the buffer size the limit does not limit: the search bound turns negative, counts
      from the end of the text, and the first chunk is as long as the text's first part. */
  lemma TinyLimitBoundsNothing(mode: ParseMode, max: nat, first: string, second: string)
    requires max < DELIMITER_BUFFER <= |second| && Letters(first) && Letters(second)
    ensures var s := Start(first + " " + second);
            Cutting(mode, max, s) && Cut(mode, max, s) == |first| + 1 && |ChunkOf(mode, max, s)| > |first|
  {
    var text := first + " " + second;
    var s := Start(text);
    hide Boundary, Rollback, ChunkOf, StackAfter, RawCut, Cut;
    TwoPartChars(text, first, second);
    OneSpaceBoundary(text, |first|, max - DELIMITER_BUFFER);
    assert EffectiveLimit(mode, max, s) == max - DELIMITER_BUFFER;
    BoundaryRawCut(mode, max, s);
    AfterBlankIsSafe(mode, text, |first| + 1);
    BracketFree(text, |first| + 1);
    RollbackStays(mode, text, |first| + 1);
    CutIsRollback(mode, max, s);
    StartInv(mode, text);
    ChunkLength(mode, max, s);
  }

  lemma TwoPartChars(text: string, first: string, second: string)
    requires text == first + " " + second && Letters(first) && Letters(second)
    ensures |text| == |first| + 1 + |second| && text[|first|] == ' '
    ensures forall k :: 0 <= k < |text| && k != |first| ==> 'a' <= text[k] <= 'z'
  {
    assert forall k :: |first| < k < |text| ==> text[k] == second[k - |first| - 1];
  }

  lemma OneSpaceBoundary(text: string, at: nat, limit: int)
    requires -50 <= limit < 0 && at + 51 <= |text| && text[at] == ' '
    requires forall k :: 0 <= k < |text| && k != at ==> 'a' <= text[k] <= 'z'
    ensures Boundary(text, limit) == at + 1
  {
    var near := ThreeQuarters(limit);
    OnlySpaceFound(text, at, near, limit);
    OnlySpaceFound(text, at, 0, limit);
    hide RFind;
  }

  lemma OnlySpaceFound(text: string, at: nat, start: int, limit: int)
    requires -50 <= limit < 0 && at + 51 <= |text| && text[at] == ' '
    requires forall k :: 0 <= k < |text| && k != at ==> 'a' <= text[k] <= 'z'
    ensures BoundaryFrom(text, start, limit) == -1 || BoundaryFrom(text, start, limit) == at + 1
    ensures start == 0 ==> BoundaryFrom(text, start, limit) == at + 1
  {
    AbsentPattern(text, at, "\n", start, limit);
    AbsentPattern(text, at, ". ", start, limit);
    AbsentPattern(text, at, "! ", start, limit);
    AbsentPattern(text, at, "? ", start, limit);
    SpaceFound(text, at, start, limit);
    hide RFind;
  }

  lemma AbsentPattern(text: string, at: nat, pat: string, start: int, limit: int)
    requires pat != "" && pat[0] != ' ' && !('a' <= pat[0] <= 'z') && at < |text| && text[at] == ' '
    requires forall k :: 0 <= k < |text| && k != at ==> 'a' <= text[k] <= 'z'
    ensures RFind(text, pat, start, limit) == -1
  {
    MatchShows(text, RFind(text, pat, start, limit), pat);
  }

  lemma SpaceFound(text: string, at: nat, start: int, limit: int)
    requires -50 <= limit < 0 && at + 51 <= |text| && text[at] == ' '
    requires forall k :: 0 <= k < |text| && k != at ==> 'a' <= text[k] <= 'z'
    ensures RFind(text, " ", start, limit) == -1 || RFind(text, " ", start, limit) == at
    ensures start == 0 ==> RFind(text, " ", start, limit) == at
  {
    MatchShows(text, RFind(text, " ", start, limit), " ");
    assert text[at..at + 1] == " ";
    assert StartsWithAt(text, at, " ");
  }

  /** A hard cut can fall between a backslash and the character it escapes; the carried
      stack is then no longer that of the text. */
  lemma HardCutSplitsEscape(mode: ParseMode, max: nat, head: string, tail: string)
    requires mode != Unconfigured && Letters(head) && |head| + 1 == max && max >= DELIMITER_BUFFER
    ensures !CutIsAligned(mode, max, Start(head + "\\*" + tail))
  {
    var text := head + "\\*" + tail;
    var s := Start(text);
    var n := |head|;
    assert text[n] == '\\' && text[n + 1] == '*' && forall k :: 0 <= k < n ==> text[k] == head[k];
    CutAtEscape(mode, max, text);
    LettersRead(mode, text, 0, n);
    ScanUnfold(mode, text, n, max, []);
    ScanUnfold(mode, text, n + 2, max, []);
    ScanCompose(mode, text, 0, n, max, []);
    assert ScanStep(mode, text, n, []) == Scanned(n + 2, []);
  }

  lemma CutAtEscape(mode: ParseMode, max: nat, text: string)
    requires mode != Unconfigured && DELIMITER_BUFFER <= max < |text| && text[max] == '*'
    requires forall k :: 0 <= k < max ==> text[k] == '\\' || 'a' <= text[k] <= 'z'
    ensures Cut(mode, max, Start(text)) == max
  {
    var limit := EffectiveLimit(mode, max, Start(text));
    assert 0 <= limit == max - DELIMITER_BUFFER;
    hide Boundary, Rollback, RawCut, Cut, TokenRollback, Tokens, RFind;
    BoundaryWithin(text, limit);
    BoundaryRawCut(mode, max, Start(text));
    StarIsSafe(mode, text, max);
    BracketFree(text, max);
    RollbackStays(mode, text, max);
    CutIsRollback(mode, max, Start(text));
  }

  /** A hard cut can also fall into a token: of three bars around the limit the rollback goes to
      the last two, but the scan reads the first two as one token. */
  lemma HardCutSplitsToken(max: nat, head: string, tail: string)
    requires Letters(head) && |head| + 2 == max && max >= DELIMITER_BUFFER
    ensures var s := Start(head + "|||" + tail);
            && Cut(MarkdownV2, max, s) == max - 1
            && CutSplitsToken(MarkdownV2, max, s) && !CutSplitsEscape(MarkdownV2, max, s)
            && !CutIsAligned(MarkdownV2, max, s)
  {
    var text, n := head + "|||" + tail, |head|;
    var s := Start(text);
    assert forall k :: 0 <= k < n ==> text[k] == head[k];
    assert text[n] == '|' && text[n + 1] == '|' && text[n + 2] == '|';
    hide Cut, TokenAcross, EscapeAcross, StepsAcross, EscapesAt, ScanFrom, Tokens, Escapes, Letters;
    CutAtBars(max, text);
    LettersThenBar(text, n, head);
    BarsAcross(text, n);
    CutsAlignIff(MarkdownV2, max, s);
  }

  lemma LettersThenBar(text: string, n: nat, head: string)
    requires Letters(head) && n == |head| < |text| && forall k :: 0 <= k < n ==> text[k] == head[k]
    ensures ScanFrom(MarkdownV2, text, 0, n, []) == Scanned(n, [])
  {
    hide ScanFrom;
    LettersRead(MarkdownV2, text, 0, n);
  }

  /** The rollback from behind the second of three bars goes back by one. */
  lemma CutAtBars(max: nat, text: string)
    requires DELIMITER_BUFFER <= max < |text| && text[max - 2] == text[max - 1] == text[max] == '|'
    requires forall k :: 0 <= k < max - 2 ==> 'a' <= text[k] <= 'z'
    ensures Cut(MarkdownV2, max, Start(text)) == max - 1
  {
    var s := Start(text);
    hide Boundary, Rollback, RawCut, Cut, TokenRollback, Tokens, RFind;
    BoundaryWithin(text, EffectiveLimit(MarkdownV2, max, s));
    BoundaryRawCut(MarkdownV2, max, s);
    CutIsRollback(MarkdownV2, max, s);
    BarsRollBack(text, max);
  }

  lemma BarsRollBack(text: string, p: nat)
    requires 0 < p < |text| && text[p - 1] == text[p] == '|'
    ensures Rollback(MarkdownV2, text, p) == p - 1
  {
    var tokens := Tokens(MarkdownV2);
    assert tokens[0] == "```" && tokens[1..][0] == "||";
    var fence := StraddleOffset(text, p, "```", 1);
    if fence != -1 { StraddleShows(text, p, "```", fence); }
    assert text[p - 1..p + 1] == "||";
    assert StartsWithAt(text, p - 1, "||") && StraddleOffset(text, p, "||", 1) == 1;
    hide StraddleOffset, Tokens;
    assert TokenRollback(tokens, text, p) == p - 1;
  }

  lemma BarsAcross(text: string, n: nat)
    requires n + 2 < |text| && text[n] == text[n + 1] == '|'
    requires ScanFrom(MarkdownV2, text, 0, n, []) == Scanned(n, [])
    ensures TokenAcross(MarkdownV2, text, 0, n + 1, []) && !EscapeAcross(MarkdownV2, text, 0, n + 1, [])
  {
    hide ScanFrom, ScanStep;
    BarsStep(text, n);
    assert StepsAcross(MarkdownV2, text, 0, n, n + 1, []) && !EscapesAt(MarkdownV2, text, 0, n, []);
  }

  lemma BarsStep(text: string, n: nat)
    requires n + 2 < |text| && text[n] == text[n + 1] == '|'
    ensures ScanStep(MarkdownV2, text, n, []) == Scanned(n + 2, ["||"])
  {
    assert text[n..n + 2] == "||";
    BarsAreAToken(text, n);
    hide FirstToken, Tokens;
  }

  lemma BarsAreAToken(text: string, n: nat)
    requires StartsWithAt(text, n, "||")
    ensures FirstToken(Tokens(MarkdownV2), text, n) == "||"
  {
    var tokens := Tokens(MarkdownV2);
    assert tokens[0] == "```" && tokens[1..][0] == "||";
    MatchShows(text, n, "```");
    MatchShows(text, n, "||");
  }

  lemma BracketFree(text: string, p: nat)
    requires p <= |text| && forall k :: 0 <= k < p ==> text[k] != '['
    ensures RFind(text, "[", 0, p) == -1
  {
    MatchShows(text, RFind(text, "[", 0, p), "[");
  }

  lemma RollbackStays(mode: ParseMode, text: string, p: nat)
    requires p <= |text| && SafeCut(mode, text, p) && RFind(text, "[", 0, p) == -1
    ensures Rollback(mode, text, p) == p
  {
    NoTokenRollback(mode, text, p);
    hide RFind, TokenRollback;
  }

  lemma StarIsSafe(mode: ParseMode, text: string, max: nat)
    requires max < |text| && text[max] == '*'
    ensures SafeCut(mode, text, max)
  {
    forall t | t in Tokens(mode) ensures !Straddled(text, max, t) {
      LongTokens(mode, t);
      if Straddled(text, max, t) {
        var o :| Straddles(text, max, t, o);
        StraddleShows(text, max, t, o);
        LongTokenChars(t, o);
      }
    }
  }

  lemma {:induction false} LettersRead(mode: ParseMode, text: string, i: nat, end: nat)
    requires i <= end <= |text| && forall k :: i <= k < end ==> 'a' <= text[k] <= 'z'
    ensures ScanFrom(mode, text, i, end, []) == Scanned(end, [])
    decreases end - i
  {
    hide *;
    ScanUnfold(mode, text, i, end, []);
    if i < end {
      LetterStep(mode, text, i);
      LettersRead(mode, text, i + 1, end);
    }
  }

  lemma LetterStep(mode: ParseMode, text: string, i: nat)
    requires i < |text| && 'a' <= text[i] <= 'z'
    ensures ScanStep(mode, text, i, []) == Scanned(i + 1, [])
  {
    MatchShows(text, i, FirstToken(Tokens(mode), text, i));
    TokensAvoidLetters(mode);
    hide Tokens, StartsWithAt, FirstToken;
  }

  lemma TokensAvoidLetters(mode: ParseMode)
    ensures forall t :: t in Tokens(mode) ==> t != "" && !('a' <= t[0] <= 'z')
  {
  }
}
