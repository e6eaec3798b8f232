/**
 Progress, termination and length of the message splitter: exactly which turn makes no
 progress, exactly when a run never returns, and how long a chunk can get.
 */
module SplitterLimits {
  import opened PyText
  import opened MarkdownLexer
  import opened MessageSplitter
  import opened SplitterState
  import opened SplitterChoices

  // ---------------------------------------------------------------------------------
  // Progress
  // ---------------------------------------------------------------------------------

  /** The text opens with a '[' whose nearest ')' lies at or past the split, and there is
      no later '[' before the split. */
  predicate LeadingLinkBlocks(text: string, split: nat) {
    && 0 < split <= |text| && text[0] == '['
    && (forall k :: 0 < k < split ==> text[k] != '[')
    && (exists p :: split <= p < |text| && text[p] == ')')
    && (forall k :: 0 <= k < split ==> text[k] != ')')
  }

  /** The rollback reaches the very start exactly when a leading link blocks the split
      (or a token straddles the split from position 0). */
  lemma RollbackToStart(mode: ParseMode, text: string, split: nat)
    requires 0 < split <= |text| && SafeCut(mode, text, split)
    ensures Rollback(mode, text, split) == 0 <==> LeadingLinkBlocks(text, split)
  {
    hide *;
    RollbackToLinkIff(mode, text, split, 0);
    LeadingLinkIs(text, split);
  }

  lemma LeadingLinkIs(text: string, split: nat)
    requires 0 < split <= |text|
    ensures LeadingLinkBlocks(text, split) <==> OpensLinkAcross(text, split, 0)
  {
  }

  /** The text opens with a token that runs across the split, and no token that starts
      later does. */
  ghost predicate LeadingTokenBlocks(mode: ParseMode, text: string, split: nat) {
    && split > 0
    && (exists t :: t in Tokens(mode) && Straddles(text, split, t, split))
    && (forall t, o :: t in Tokens(mode) && 0 < o < split ==> !Straddles(text, split, t, o))
  }

  /** What moves a split all the way back to the start. */
  ghost predicate Blocks(mode: ParseMode, text: string, split: nat) {
    (SafeCut(mode, text, split) && LeadingLinkBlocks(text, split)) || LeadingTokenBlocks(mode, text, split)
  }

  /** Tokens are tried longest first and from the nearest offset, so of two that cover the
      split the one that starts later wins. */
  lemma TokenRollbackToStart(mode: ParseMode, text: string, split: nat)
    requires 0 < split && !SafeCut(mode, text, split)
    ensures TokenRollback(Tokens(mode), text, split) != -1
    ensures TokenRollback(Tokens(mode), text, split) == 0 <==> LeadingTokenBlocks(mode, text, split)
  {
    var r := TokenRollback(Tokens(mode), text, split);
    hide Tokens, StraddleOffset, StartsWithAt;
    var u, o :| u in Tokens(mode) && Straddles(text, split, u, o) && r == split - o;
    if r == 0 {
      forall t, q | t in Tokens(mode) && 0 < q < split ensures !Straddles(text, split, t, q) {
        TwoTokens(mode, text, split, u, t, q);
      }
    } else {
      StartsInside(text, split - o, u);
    }
  }

  lemma StartsInside(text: string, at: int, t: string)
    requires StartsWithAt(text, at, t)
    ensures 0 <= at && at + |t| <= |text|
  {
  }

  lemma TwoTokens(mode: ParseMode, text: string, split: nat, u: string, t: string, q: nat)
    requires u in Tokens(mode) && t in Tokens(mode) && 0 < q < split
    requires Straddles(text, split, u, split) && TokenRollback(Tokens(mode), text, split) == 0
    ensures !Straddles(text, split, t, q)
  {
    hide *;
    if Straddles(text, split, t, q) {
      LongTokens(mode, u);
      LongTokens(mode, t);
      StraddleIs(text, split, u, split);
      StraddleIs(text, split, t, q);
      assert u == "```" && split == 2 && q == 1;
      OnlyAFenceInAFence(text, t);
      FencesFirst(mode, text, split);
    }
  }

  lemma StraddleIs(text: string, p: int, t: string, offset: int)
    ensures Straddles(text, p, t, offset) <==> 0 < offset < |t| && StartsWithAt(text, p - offset, t)
  {
  }

  lemma OnlyAFenceInAFence(text: string, t: string)
    requires StartsWithAt(text, 0, "```") && StartsWithAt(text, 1, t)
    requires t == "```" || t == "||" || t == "__" || |t| == 1
    ensures t == "```" || |t| == 1
  {
    assert text[0..3][1] == '`';
    MatchShows(text, 1, t);
  }

  lemma FencesFirst(mode: ParseMode, text: string, split: nat)
    requires "```" in Tokens(mode) && Straddles(text, split, "```", 1)
    ensures TokenRollback(Tokens(mode), text, split) == split - 1
  {
    assert Tokens(mode)[0] == "```";
  }

  /** A turn makes no progress exactly when the limit is 0 and there is no boundary, or a
      leading link or a leading token blocks the split; in every other case it consumes at
      least one character. */
  lemma NoProgressIff(mode: ParseMode, max: nat, s: State)
    requires Cutting(mode, max, s)
    ensures RawCut(mode, max, s) == 0 <==> max == 0 && Boundary(s.remaining, EffectiveLimit(mode, max, s)) == -1
    ensures Cut(mode, max, s) == 0
       <==> RawCut(mode, max, s) == 0 || Blocks(mode, s.remaining, RawCut(mode, max, s))
  {
    var raw := RawCut(mode, max, s);
    hide Cut, RawCut, Boundary, EffectiveLimit, Rollback, Blocks, Cutting;
    BoundaryWithin(s.remaining, EffectiveLimit(mode, max, s));
    CutIsRollback(mode, max, s);
    BoundaryRawCut(mode, max, s);
    if raw > 0 {
      RollbackIsZeroIff(mode, s.remaining, raw);
    }
  }

  lemma CutIsRollback(mode: ParseMode, max: nat, s: State)
    ensures Cut(mode, max, s) == Rollback(mode, s.remaining, RawCut(mode, max, s)) <= RawCut(mode, max, s)
  {
  }

  lemma BoundaryRawCut(mode: ParseMode, max: nat, s: State)
    ensures var b := Boundary(s.remaining, EffectiveLimit(mode, max, s));
            RawCut(mode, max, s) == if b != -1 then b else Min(max, |s.remaining|)
    ensures Cutting(mode, max, s) ==> s.remaining != ""
  {
    hide Boundary;
  }

  lemma RollbackIsZeroIff(mode: ParseMode, text: string, raw: nat)
    requires 0 < raw <= |text|
    ensures Rollback(mode, text, raw) == 0 <==> Blocks(mode, text, raw)
  {
    if SafeCut(mode, text, raw) {
      hide Rollback, LeadingLinkBlocks;
      RollbackToStart(mode, text, raw);
    } else {
      hide TokenRollback, LeadingLinkBlocks, LeadingTokenBlocks, SafeCut, RFind, FindChar;
      TokenRollbackToStart(mode, text, raw);
    }
  }

  /** From a limit of 3 up no token can block: every token fits into the limit. */
  lemma OnlyLinksBlock(mode: ParseMode, max: nat, s: State)
    requires max >= 3 && Cutting(mode, max, s)
    ensures Cut(mode, max, s) == 0
       <==> SafeCut(mode, s.remaining, RawCut(mode, max, s)) && LeadingLinkBlocks(s.remaining, RawCut(mode, max, s))
    ensures Blocked(mode, max, s) <==> Cut(mode, max, s) == 0
  {
    NoProgressIff(mode, max, s);
    hide Cut, RawCut, LeadingLinkBlocks, Boundary, Cutting, EffectiveLimit, Tokens;
    if LeadingTokenBlocks(mode, s.remaining, RawCut(mode, max, s)) {
      BlockingTokenIsLong(mode, max, s);
    }
  }

  lemma BlockingTokenIsLong(mode: ParseMode, max: nat, s: State)
    requires LeadingTokenBlocks(mode, s.remaining, RawCut(mode, max, s))
    ensures exists t :: t in Tokens(mode) && max < |t| <= 3 && StartsWithAt(s.remaining, 0, t)
  {
    var text, raw := s.remaining, RawCut(mode, max, s);
    var t :| t in Tokens(mode) && Straddles(text, raw, t, raw);
    assert Straddled(text, raw, t);
    hide RawCut, Boundary, Tokens, LeadingTokenBlocks, EffectiveLimit;
    LongTokens(mode, t);
    BoundaryWithin(text, EffectiveLimit(mode, max, s));
    BoundaryRawCut(mode, max, s);
    if Boundary(text, EffectiveLimit(mode, max, s)) != -1 {
      AfterBlankIsSafe(mode, text, raw);
    }
  }

  /** No token longer than the limit occurs in the text (all tokens are of at most three
      characters). */
  ghost predicate TokensFit(mode: ParseMode, max: nat, text: string) {
    forall t, k: nat :: t in Tokens(mode) && |t| > max ==> !StartsWithAt(text, k, t)
  }

  /** A text without '[' or without ')' is split under any positive limit that has room for
      the tokens in it, and so under any limit from 3 up. */
  lemma {:induction false} WithoutLinksItReturns(mode: ParseMode, max: nat, s: State)
    requires max >= 1 && ('[' !in s.remaining || ')' !in s.remaining)
    requires TokensFit(mode, max, s.remaining)
    ensures Run(mode, max, s).Returned?
    decreases |s.remaining|
  {
    if Cutting(mode, max, s) {
      hide *;
      NotBlocked(mode, max, s);
      RestShrinks(mode, max, s);
      FitsAfter(mode, max, s.remaining, Cut(mode, max, s));
      WithoutLinksItReturns(mode, max, Next(mode, max, s));
      RunTurnReturns(mode, max, s);
    }
  }

  lemma NotBlocked(mode: ParseMode, max: nat, s: State)
    requires Cutting(mode, max, s) && max >= 1 && ('[' !in s.remaining || ')' !in s.remaining)
    requires TokensFit(mode, max, s.remaining)
    ensures Cut(mode, max, s) > 0
  {
    NoProgressIff(mode, max, s);
    NoLinkNoBlock(s.remaining, RawCut(mode, max, s));
    hide Cut, RawCut, LeadingLinkBlocks, Boundary, Cutting, EffectiveLimit, Tokens, LeadingTokenBlocks;
    if LeadingTokenBlocks(mode, s.remaining, RawCut(mode, max, s)) {
      BlockingTokenIsLong(mode, max, s);
    }
  }

  lemma FitsAfter(mode: ParseMode, max: nat, text: string, cut: nat)
    requires cut <= |text| && TokensFit(mode, max, text)
    ensures TokensFit(mode, max, text[cut..])
  {
    hide Tokens, StartsWithAt;
    forall t, k: nat | t in Tokens(mode) && |t| > max ensures !StartsWithAt(text[cut..], k, t) {
      SuffixMatches(text, cut, k);
    }
  }

  lemma NoLinkNoBlock(text: string, split: nat)
    requires '[' !in text || ')' !in text
    ensures !LeadingLinkBlocks(text, split)
  {
  }

  lemma RestShrinks(mode: ParseMode, max: nat, s: State)
    ensures var next := Next(mode, max, s).remaining;
            && |next| == |s.remaining| - Cut(mode, max, s) && next == s.remaining[Cut(mode, max, s)..]
            && forall c :: c in next ==> c in s.remaining
  {
    hide Cut, StackAfter, InBlockquoteAt, Openers;
    var cut, next := Cut(mode, max, s), Next(mode, max, s).remaining;
    assert next == s.remaining[cut..];
    assert forall k :: 0 <= k < |next| ==> next[k] == s.remaining[cut + k];
  }

  lemma RunTurnReturns(mode: ParseMode, max: nat, s: State)
    requires Cutting(mode, max, s) && Cut(mode, max, s) > 0
    ensures Run(mode, max, s).Returned? <==> Run(mode, max, Next(mode, max, s)).Returned?
  {
    hide Cut, StackAfter, IsLast, InBlockquoteAt, Openers, Closers;
  }

  // ---------------------------------------------------------------------------------
  // A turn without progress is repeated for ever
  // ---------------------------------------------------------------------------------

  predicate Stuck(mode: ParseMode, max: nat, s: State) {
    Cutting(mode, max, s) && Cut(mode, max, s) == 0
  }

  /** A turn without progress can only change whether the rest counts as a quotation. */
  lemma StuckTurn(mode: ParseMode, max: nat, s: State)
    requires Inv(mode, s) && Stuck(mode, max, s)
    ensures Next(mode, max, s) == s.(inQuote := InBlockquoteAt(s.remaining, 0, mode))
  {
    OpenersSpellTheStack(mode, s.stack);
    ScanUnfold(mode, s.remaining, 0, 0, s.stack);
    assert s.remaining[0..] == s.remaining;
    hide Cut, Openers, InBlockquoteAt, ScanFrom;
  }

  /** Without progress once, without progress ever after. */
  lemma StuckStays(mode: ParseMode, max: nat, s: State)
    requires Inv(mode, s) && Stuck(mode, max, s)
    ensures Stuck(mode, max, Next(mode, max, s)) && Inv(mode, Next(mode, max, s))
  {
    StuckTurn(mode, max, s);
    NextInv(mode, max, s);
    var next := Next(mode, max, s);
    if next.inQuote != s.inQuote {
      QuoteSeenLate(mode, max, s, next);
    }
  }

  lemma QuoteSeenLate(mode: ParseMode, max: nat, s: State, next: State)
    requires Inv(mode, s) && Stuck(mode, max, s) && Inv(mode, next)
    requires next == s.(inQuote := InBlockquoteAt(s.remaining, 0, mode)) && next.inQuote != s.inQuote
    ensures Stuck(mode, max, next)
  {
    var text := s.remaining;
    assert text[..0] == "" && LineStart(text, 0) == 0 && text[0..] == text;
    assert mode == MarkdownV2 && next.inQuote && "> " <= text;
    assert text[0] == '>';
    var raw := RawCut(mode, max, s);
    BoundaryWithin(text, EffectiveLimit(mode, max, s));
    QuoteNotRolledToZero(mode, text, raw);
    assert raw == 0 && Boundary(text, EffectiveLimit(mode, max, s)) == -1;
    assert max == 0;
    assert EffectiveLimit(mode, max, next) <= EffectiveLimit(mode, max, s) < 0;
    NoBoundaryBelow(text, EffectiveLimit(mode, max, next), EffectiveLimit(mode, max, s));
    assert RawCut(mode, max, next) == 0;
  }

  lemma QuoteNotRolledToZero(mode: ParseMode, text: string, raw: nat)
    requires 0 < |text| && text[0] == '>' && raw <= |text|
    ensures Rollback(mode, text, raw) == 0 ==> raw == 0
  {
    if raw > 0 {
      MatchShows(text, 0, "[");
      var r := TokenRollback(Tokens(mode), text, raw);
      if r == 0 {
        var u, o :| u in Tokens(mode) && Straddles(text, raw, u, o) && r == raw - o;
        LongTokens(mode, u);
        MatchShows(text, 0, u);
      }
    }
  }

  /** With a negative limit, a smaller limit finds no boundary where a larger one found none. */
  lemma NoBoundaryBelow(text: string, lower: int, higher: int)
    requires lower <= higher < 0 && Boundary(text, higher) == -1
    ensures Boundary(text, lower) == -1
  {
    NothingFound(text, higher);
    NothingBelow(text, "\n", ThreeQuarters(lower), lower, higher);
    NothingBelow(text, ". ", ThreeQuarters(lower), lower, higher);
    NothingBelow(text, "! ", ThreeQuarters(lower), lower, higher);
    NothingBelow(text, "? ", ThreeQuarters(lower), lower, higher);
    NothingBelow(text, " ", ThreeQuarters(lower), lower, higher);
    NothingBelow(text, "\n", 0, lower, higher);
    NothingBelow(text, ". ", 0, lower, higher);
    NothingBelow(text, "! ", 0, lower, higher);
    NothingBelow(text, "? ", 0, lower, higher);
    NothingBelow(text, " ", 0, lower, higher);
    hide RFind;
  }

  lemma NothingFound(text: string, higher: int)
    requires higher < 0 && Boundary(text, higher) == -1
    ensures RFind(text, "\n", 0, higher) == RFind(text, ". ", 0, higher) == RFind(text, "! ", 0, higher)
         == RFind(text, "? ", 0, higher) == RFind(text, " ", 0, higher) == -1
  {
    hide RFind;
  }

  lemma NothingBelow(text: string, pat: string, start: int, lower: int, higher: int)
    requires lower <= higher < 0 && RFind(text, pat, 0, higher) == -1
    ensures RFind(text, pat, start, lower) == -1
  {
  }

  // ---------------------------------------------------------------------------------
  // When a run never returns
  // ---------------------------------------------------------------------------------

  /** A turn the loop cannot get past. */
  ghost predicate Blocked(mode: ParseMode, max: nat, s: State) {
    Cutting(mode, max, s) && (RawCut(mode, max, s) == 0 || Blocks(mode, s.remaining, RawCut(mode, max, s)))
  }

  /** After n turns that all cut something off, the next turn is blocked. */
  ghost predicate BlockedAfter(mode: ParseMode, max: nat, s: State, n: nat)
    decreases n
  {
    if n == 0 then Blocked(mode, max, s)
    else Cutting(mode, max, s) && !Blocked(mode, max, s) && BlockedAfter(mode, max, Next(mode, max, s), n - 1)
  }

  /** A run fails to return exactly when, after some number of turns that cut something
      off, it comes to one that is blocked. */
  lemma NeverReturnsIff(mode: ParseMode, max: nat, s: State)
    ensures Run(mode, max, s).NeverReturns? <==> exists n: nat :: BlockedAfter(mode, max, s, n)
  {
    hide *;
    if Run(mode, max, s).NeverReturns? {
      var n := ComesToABlock(mode, max, s);
      assert BlockedAfter(mode, max, s, n);
    }
    if n: nat :| BlockedAfter(mode, max, s, n) {
      BlockEndsTheRun(mode, max, s, n);
    }
  }

  lemma BlockedTurn(mode: ParseMode, max: nat, s: State)
    requires Cutting(mode, max, s)
    ensures Blocked(mode, max, s) <==> Cut(mode, max, s) == 0
    ensures Blocked(mode, max, s) ==> Run(mode, max, s).NeverReturns? && BlockedAfter(mode, max, s, 0)
    ensures !Blocked(mode, max, s) ==>
              |Next(mode, max, s).remaining| < |s.remaining|
              && (Run(mode, max, s).NeverReturns? <==> Run(mode, max, Next(mode, max, s)).NeverReturns?)
  {
    NoProgressIff(mode, max, s);
    RestShrinks(mode, max, s);
    hide Cut, RawCut, Blocks, Boundary, EffectiveLimit, Next;
  }

  lemma {:induction false} ComesToABlock(mode: ParseMode, max: nat, s: State) returns (n: nat)
    requires Run(mode, max, s).NeverReturns?
    ensures BlockedAfter(mode, max, s, n)
    decreases |s.remaining|
  {
    hide *;
    OnlyCuttingRunsOn(mode, max, s);
    BlockedTurn(mode, max, s);
    if Blocked(mode, max, s) {
      n := 0;
    } else {
      var k := ComesToABlock(mode, max, Next(mode, max, s));
      OneTurnMore(mode, max, s, k);
      n := k + 1;
    }
  }

  lemma OnlyCuttingRunsOn(mode: ParseMode, max: nat, s: State)
    requires Run(mode, max, s).NeverReturns?
    ensures Cutting(mode, max, s)
  {
    hide Cut, Next, IsLast;
  }

  lemma OneTurnMore(mode: ParseMode, max: nat, s: State, k: nat)
    requires Cutting(mode, max, s) && !Blocked(mode, max, s)
    ensures BlockedAfter(mode, max, s, k + 1) <==> BlockedAfter(mode, max, Next(mode, max, s), k)
  {
    hide Blocked, Next, Cutting;
  }

  lemma BlockedIsCutting(mode: ParseMode, max: nat, s: State, n: nat)
    requires BlockedAfter(mode, max, s, n)
    ensures Cutting(mode, max, s)
  {
    hide Next, Cutting, Blocks, RawCut;
  }

  lemma {:induction false} BlockEndsTheRun(mode: ParseMode, max: nat, s: State, n: nat)
    requires BlockedAfter(mode, max, s, n)
    ensures Run(mode, max, s).NeverReturns?
    decreases n
  {
    hide Blocked, Next, Cutting, Run;
    BlockedIsCutting(mode, max, s, n);
    BlockedTurn(mode, max, s);
    if n > 0 {
      BlockEndsTheRun(mode, max, Next(mode, max, s), n - 1);
    }
  }

  /** `NeverReturns` means what it says: the loop is still cutting after every number of
      turns. */
  lemma NeverReturnsIsEndless(mode: ParseMode, max: nat, s: State)
    requires Inv(mode, s)
    ensures Run(mode, max, s).NeverReturns? <==> forall n: nat :: Cutting(mode, max, StateAt(mode, max, s, n))
  {
    if Run(mode, max, s).NeverReturns? {
      forall n: nat ensures Cutting(mode, max, StateAt(mode, max, s, n)) {
        StillCutting(mode, max, s, n);
      }
    } else {
      SomeTurnIsLast(mode, max, s);
    }
  }

  lemma {:induction false} StillCutting(mode: ParseMode, max: nat, s: State, n: nat)
    requires Inv(mode, s) && Run(mode, max, s).NeverReturns?
    ensures Cutting(mode, max, StateAt(mode, max, s, n))
    decreases n
  {
    hide Next, Cut, Cutting, Run, Inv;
    NeverReturningTurn(mode, max, s);
    if n > 0 {
      StillCutting(mode, max, Next(mode, max, s), n - 1);
    }
  }

  lemma NeverReturningTurn(mode: ParseMode, max: nat, s: State)
    requires Inv(mode, s) && Run(mode, max, s).NeverReturns?
    ensures Cutting(mode, max, s) && Inv(mode, Next(mode, max, s)) && Run(mode, max, Next(mode, max, s)).NeverReturns?
  {
    hide Cut, StackAfter, Openers, Closers, InBlockquoteAt, IsLast, Inv;
    NextInv(mode, max, s);
    if Cut(mode, max, s) == 0 {
      assert Stuck(mode, max, s);
      StuckStays(mode, max, s);
    }
  }

  lemma {:induction false} SomeTurnIsLast(mode: ParseMode, max: nat, s: State)
    requires Run(mode, max, s).Returned?
    ensures exists n: nat :: !Cutting(mode, max, StateAt(mode, max, s, n))
    decreases |s.remaining|
  {
    if !Cutting(mode, max, s) {
      assert !Cutting(mode, max, StateAt(mode, max, s, 0));
    } else {
      RunTurn(mode, max, s);
      hide Next, Cut, Cutting, Run;
      SomeTurnIsLast(mode, max, Next(mode, max, s));
      var n: nat :| !Cutting(mode, max, StateAt(mode, max, Next(mode, max, s), n));
      assert StateAt(mode, max, s, n + 1) == StateAt(mode, max, Next(mode, max, s), n);
    }
  }
}
