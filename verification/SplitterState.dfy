/**
 What every turn of the splitter keeps: no text is lost, the stack is well formed, the
 carried openers spell the stack, and the carried stack is the one a single scan of the
 whole prefix would have, whenever every cut so far fell between two scanner steps.
 */
module SplitterState {
  import opened PyText
  import opened MarkdownLexer
  import opened MessageSplitter

  /** The invariant of the loop. */
  predicate Inv(mode: ParseMode, s: State) {
    && WellFormed(mode, s.stack)
    && s.openers == Join(s.stack)
    && (s.inQuote ==> mode == MarkdownV2 && "> " <= s.remaining)
  }

  /** The '[' case of the closer and opener builders is dead: '[' is never on the stack. */
  lemma {:induction false} OpenersSpellTheStack(mode: ParseMode, stack: seq<string>)
    requires forall k :: 0 <= k < |stack| ==> IsToggle(mode, stack[k])
    ensures Openers(stack) == Join(stack)
    ensures |Closers(stack)| == |Join(stack)|
    ensures forall k :: 0 <= k < |Closers(stack)| ==> Closers(stack)[k] != ']'
  {
    hide IsToggle;
    if stack != [] {
      ToggleNotBracket(mode, stack[0]);
      ToggleNotBracket(mode, stack[|stack| - 1]);
      OpenersSpellTheStack(mode, stack[1..]);
      var n := |stack|;
      OpenersSpellTheStack(mode, stack[..n - 1]);
      assert stack == stack[..n - 1] + [stack[n - 1]];
      JoinAppend(stack[..n - 1], [stack[n - 1]]);
      assert Join([stack[n - 1]]) == stack[n - 1] + Join([]);
    }
  }

  lemma ToggleNotBracket(mode: ParseMode, t: string)
    requires IsToggle(mode, t)
    ensures t != "[" && forall k :: 0 <= k < |t| ==> t[k] != ']'
  {
  }

  lemma StartInv(mode: ParseMode, text: string)
    ensures Inv(mode, Start(text))
  {
  }

  lemma NextInv(mode: ParseMode, max: nat, s: State)
    requires Inv(mode, s)
    ensures Inv(mode, Next(mode, max, s))
  {
    ScanKeepsWellFormed(mode, s.remaining, 0, Cut(mode, max, s), s.stack);
    OpenersSpellTheStack(mode, StackAfter(mode, max, s));
    var rest := s.remaining[Cut(mode, max, s)..];
    assert LineStart(rest, 0) == 0;
    assert rest[0..] == rest;
  }

  /** The "> " prefix is never inserted: a chunk is its leading newlines, the carried
      openers, the rest of its text and the closers. */
  lemma QuotePrefixNeverInserted(mode: ParseMode, s: State, cut: nat, closers: string)
    requires Inv(mode, s) && cut <= |s.remaining|
    ensures var raw := s.remaining[..cut];
            var n := LeadingNewlines(raw);
            Render(mode, Piece(raw, s.openers, closers, s.inQuote)) == raw[..n] + s.openers + raw[n..] + closers
  {
    var raw := s.remaining[..cut];
    var n := LeadingNewlines(raw);
    assert raw[..n] + "" == raw[..n];
    if s.inQuote && raw != "" {
      assert raw[0] == s.remaining[0] == "> "[0];
      assert n == 0 && raw[0..] == raw;
    }
  }

  function Raws(ps: seq<Piece>): seq<string> {
    if ps == [] then [] else [ps[0].raw] + Raws(ps[1..])
  }

  /** Nothing is lost and nothing is repeated: the pieces spell the text. */
  lemma {:induction false} PiecesSpellTheText(mode: ParseMode, max: nat, s: State)
    requires Run(mode, max, s).Returned?
    ensures Join(Raws(Run(mode, max, s).value)) == s.remaining
    decreases |s.remaining|
  {
    if Cutting(mode, max, s) {
      RunTurn(mode, max, s);
      var next := Next(mode, max, s);
      PiecesSpellTheText(mode, max, next);
      JoinRaws(CutPiece(mode, max, s), Run(mode, max, next).value);
    } else if s.remaining != "" {
      JoinRaws(LastPiece(s), []);
    }
  }

  lemma JoinRaws(p: Piece, ps: seq<Piece>)
    ensures Join(Raws([p] + ps)) == p.raw + Join(Raws(ps))
  {
    assert ([p] + ps)[1..] == ps;
  }

  /** A cutting turn of a run that returns: one piece, then the run from the next state. */
  lemma RunTurn(mode: ParseMode, max: nat, s: State)
    requires Run(mode, max, s).Returned? && Cutting(mode, max, s)
    ensures Cut(mode, max, s) > 0 && Run(mode, max, Next(mode, max, s)).Returned?
    ensures Run(mode, max, s).value == [CutPiece(mode, max, s)] + Run(mode, max, Next(mode, max, s)).value
    ensures s.remaining == CutPiece(mode, max, s).raw + Next(mode, max, s).remaining
    ensures |Next(mode, max, s).remaining| < |s.remaining|
  {
    hide *;
    RunUnfolds(mode, max, s);
    CutSplitsRest(mode, max, s);
  }

  lemma RunUnfolds(mode: ParseMode, max: nat, s: State)
    requires Cutting(mode, max, s)
    ensures Cut(mode, max, s) == 0 ==> Run(mode, max, s).NeverReturns?
    ensures var rest := Run(mode, max, Next(mode, max, s));
            && (Run(mode, max, s).Returned? ==>
                rest.Returned? && Run(mode, max, s).value == [CutPiece(mode, max, s)] + rest.value)
  {
    hide Cut, Next, CutPiece, IsLast;
  }

  lemma CutSplitsRest(mode: ParseMode, max: nat, s: State)
    ensures s.remaining == CutPiece(mode, max, s).raw + Next(mode, max, s).remaining
    ensures |Next(mode, max, s).remaining| == |s.remaining| - Cut(mode, max, s)
  {
    hide Cut, StackAfter, InBlockquoteAt, Openers, Closers;
  }

  // ---------------------------------------------------------------------------------
  // The carried stack is the stack of the whole prefix
  // ---------------------------------------------------------------------------------

  /** The state after n turns. */
  function StateAt(mode: ParseMode, max: nat, s: State, n: nat): State
    decreases n
  {
    if n == 0 then s else StateAt(mode, max, Next(mode, max, s), n - 1)
  }

  /** The cut of this turn falls between two scanner steps. */
  predicate CutIsAligned(mode: ParseMode, max: nat, s: State) {
    ScanFrom(mode, s.remaining, 0, Cut(mode, max, s), s.stack).pos == Cut(mode, max, s)
  }

  predicate AlignedFor(mode: ParseMode, max: nat, s: State, n: nat)
    decreases n
  {
    n == 0 || (CutIsAligned(mode, max, s) && AlignedFor(mode, max, Next(mode, max, s), n - 1))
  }

  /** The rest is a suffix of the text, and the carried stack is what one scan of all the
      text before that suffix yields, stopping exactly where the suffix begins. */
  predicate CarriesPrefixScan(mode: ParseMode, text: string, s: State) {
    |s.remaining| <= |text|
    && var done := |text| - |s.remaining|;
       s.remaining == text[done..] && ScanFrom(mode, text, 0, done, []) == Scanned(done, s.stack)
  }

  /** After any number of aligned turns the carried stack is the stack of the whole prefix. */
  lemma CarriedStackIsPrefixScan(mode: ParseMode, max: nat, text: string, n: nat)
    requires AlignedFor(mode, max, Start(text), n)
    ensures CarriesPrefixScan(mode, text, StateAt(mode, max, Start(text), n))
  {
    PrefixScanFrom(mode, max, text, Start(text), n);
  }

  lemma {:induction false} PrefixScanFrom(mode: ParseMode, max: nat, text: string, s: State, n: nat)
    requires CarriesPrefixScan(mode, text, s) && AlignedFor(mode, max, s, n)
    ensures CarriesPrefixScan(mode, text, StateAt(mode, max, s, n))
    decreases n
  {
    hide Next, CarriesPrefixScan, CutIsAligned;
    if n > 0 {
      AlignedTurn(mode, max, text, s);
      PrefixScanFrom(mode, max, text, Next(mode, max, s), n - 1);
    }
  }

  lemma AlignedTurn(mode: ParseMode, max: nat, text: string, s: State)
    requires CarriesPrefixScan(mode, text, s) && CutIsAligned(mode, max, s)
    ensures CarriesPrefixScan(mode, text, Next(mode, max, s))
  {
    hide Cut, EffectiveLimit, ScanFrom;
    var off, cut := |text| - |s.remaining|, Cut(mode, max, s);
    ScanOnward(mode, text, off, cut, s.stack);
    assert text[off..][cut..] == text[off + cut..];
  }

  lemma ScanOnward(mode: ParseMode, text: string, off: nat, cut: nat, stack: seq<string>)
    requires off + cut <= |text|
    requires ScanFrom(mode, text, 0, off, []) == Scanned(off, stack)
    requires ScanFrom(mode, text[off..], 0, cut, stack).pos == cut
    ensures ScanFrom(mode, text, 0, off + cut, []) ==
              Scanned(off + cut, ScanFrom(mode, text[off..], 0, cut, stack).stack)
  {
    hide ScanFrom;
    ScanSuffix(mode, text, off, 0, cut, stack);
    ScanCompose(mode, text, 0, off, off + cut, []);
  }

  lemma StraddleShows(text: string, p: nat, t: string, o: int)
    requires Straddles(text, p, t, o)
    ensures 0 < p < |text| && 0 < o < |t| && text[p - 1] == t[o - 1] && text[p] == t[o]
  {
    assert text[p - o..p - o + |t|][o - 1] == text[p - 1];
    assert text[p - o..p - o + |t|][o] == text[p];
  }

  /** What the long tokens are made of. */
  lemma LongTokens(mode: ParseMode, t: string)
    requires t in Tokens(mode)
    ensures t == "```" || t == "||" || t == "__" || |t| == 1
  {
  }

  lemma LongTokenChars(t: string, j: nat)
    requires j < |t| && (t == "```" || t == "||" || t == "__")
    ensures t[j] == '`' || t[j] == '|' || t[j] == '_'
  {
  }

  /** No token contains a blank, so a cut right after one is safe. */
  lemma AfterBlankIsSafe(mode: ParseMode, text: string, p: nat)
    requires 0 < p <= |text| && (text[p - 1] == '\n' || text[p - 1] == ' ')
    ensures SafeCut(mode, text, p)
  {
    forall t | t in Tokens(mode) ensures !Straddled(text, p, t) {
      LongTokens(mode, t);
      if Straddled(text, p, t) {
        var o :| Straddles(text, p, t, o);
        StraddleShows(text, p, t, o);
        LongTokenChars(t, o - 1);
      }
    }
  }

  /** No multi-character token contains '[', so a cut right before one is safe. */
  lemma BeforeBracketIsSafe(mode: ParseMode, text: string, p: nat)
    requires p < |text| && text[p] == '['
    ensures SafeCut(mode, text, p)
  {
    forall t | t in Tokens(mode) ensures !Straddled(text, p, t) {
      LongTokens(mode, t);
      if Straddled(text, p, t) {
        var o :| Straddles(text, p, t, o);
        StraddleShows(text, p, t, o);
        LongTokenChars(t, o);
      }
    }
  }

  /** What the rollback does: at a safe position it only ever moves to a '['; a position
      it leaves alone is safe. */
  lemma RollbackMoves(mode: ParseMode, text: string, raw: nat)
    requires raw <= |text|
    ensures SafeCut(mode, text, raw) ==>
              Rollback(mode, text, raw) == raw ||
                  (Rollback(mode, text, raw) < raw && text[Rollback(mode, text, raw)] == '[')
    ensures Rollback(mode, text, raw) == raw ==> SafeCut(mode, text, raw)
  {
    var r := TokenRollback(Tokens(mode), text, raw);
    var bracket := RFind(text, "[", 0, raw);
    if bracket != -1 {
      assert text[bracket..bracket + 1] == "[";
    }
  }

  /** Which cuts no token straddles: every cut whose raw position was a boundary, every
      rollback to a '[', and every hard cut that was not rolled back. */
  lemma WhichCutsAreSafe(mode: ParseMode, max: nat, s: State)
    requires Boundary(s.remaining, EffectiveLimit(mode, max, s)) != -1
          || Cut(mode, max, s) == RawCut(mode, max, s)
          || (Cut(mode, max, s) < |s.remaining| && s.remaining[Cut(mode, max, s)] == '[')
    ensures SafeCut(mode, s.remaining, Cut(mode, max, s))
  {
    var text, raw, cut := s.remaining, RawCut(mode, max, s), Cut(mode, max, s);
    assert cut == Rollback(mode, text, raw);
    hide SafeCut, Rollback, Cut, RawCut;
    RollbackMoves(mode, text, raw);
    BoundaryIsSafe(mode, max, s);
    if cut < |text| && text[cut] == '[' {
      BeforeBracketIsSafe(mode, text, cut);
    }
  }

  lemma BoundaryIsSafe(mode: ParseMode, max: nat, s: State)
    ensures Boundary(s.remaining, EffectiveLimit(mode, max, s)) != -1 ==>
              SafeCut(mode, s.remaining, RawCut(mode, max, s))
  {
    hide SafeCut, Boundary, EffectiveLimit;
    if Boundary(s.remaining, EffectiveLimit(mode, max, s)) != -1 {
      BoundaryWithin(s.remaining, EffectiveLimit(mode, max, s));
      AfterBlankIsSafe(mode, s.remaining, RawCut(mode, max, s));
    }
  }

  /** A cut is one that no token straddles exactly unless the split was rolled back to a token
      with the same character before it. */
  lemma SafeCutIff(mode: ParseMode, max: nat, s: State)
    ensures var text, raw, cut := s.remaining, RawCut(mode, max, s), Cut(mode, max, s);
            SafeCut(mode, text, cut) <==>
              SafeCut(mode, text, raw) || cut == 0 || (cut < |text| && text[cut - 1] != text[cut])
  {
    var text, raw := s.remaining, RawCut(mode, max, s);
    hide SafeCut, Rollback, RawCut;
    assert Cut(mode, max, s) == Rollback(mode, text, raw);
    if SafeCut(mode, text, raw) {
      SafeRollback(mode, text, raw);
    } else {
      TokenRollbackIsSafeIff(mode, text, raw);
    }
  }

  lemma SafeRollback(mode: ParseMode, text: string, raw: nat)
    requires raw <= |text| && SafeCut(mode, text, raw)
    ensures SafeCut(mode, text, Rollback(mode, text, raw))
  {
    hide SafeCut, Rollback;
    RollbackMoves(mode, text, raw);
    if Rollback(mode, text, raw) < raw {
      BeforeBracketIsSafe(mode, text, Rollback(mode, text, raw));
    }
  }

  lemma TokenRollbackIsSafeIff(mode: ParseMode, text: string, raw: nat)
    requires raw <= |text| && !SafeCut(mode, text, raw)
    ensures var cut := Rollback(mode, text, raw);
            cut < |text| && (SafeCut(mode, text, cut) <==> cut == 0 || text[cut - 1] != text[cut])
  {
    hide *;
    var cut := Rollback(mode, text, raw);
    var t := RolledBackTo(mode, text, raw);
    TokenStartIsSafeIff(mode, text, cut, t);
  }

  lemma RolledBackTo(mode: ParseMode, text: string, raw: nat) returns (t: string)
    requires raw <= |text| && !SafeCut(mode, text, raw)
    ensures t in Tokens(mode) && |t| > 1 && StartsWithAt(text, Rollback(mode, text, raw), t)
    ensures Rollback(mode, text, raw) + |t| <= |text|
  {
    hide Tokens;
    var r := TokenRollback(Tokens(mode), text, raw);
    var u, o :| u in Tokens(mode) && Straddles(text, raw, u, o) && r == raw - o;
    t := u;
  }

  /** All long tokens are one character repeated, so the start of one is straddled exactly if
      that character comes before it as well. */
  lemma TokenStartIsSafeIff(mode: ParseMode, text: string, cut: nat, t: string)
    requires t in Tokens(mode) && |t| > 1 && cut + |t| <= |text| && StartsWithAt(text, cut, t)
    ensures SafeCut(mode, text, cut) <==> cut == 0 || text[cut - 1] != text[cut]
  {
    hide *;
    LongTokens(mode, t);
    if cut > 0 && text[cut - 1] == text[cut] {
      OneEarlier(text, cut, t);
      StraddledFrom(mode, text, cut, t);
    } else {
      StartIsSafe(mode, text, cut);
    }
  }

  lemma OneEarlier(text: string, cut: nat, t: string)
    requires t == "```" || t == "||" || t == "__"
    requires StartsWithAt(text, cut, t) && cut > 0 && text[cut - 1] == text[cut]
    ensures StartsWithAt(text, cut - 1, t)
  {
    var here, before := text[cut..cut + |t|], text[cut - 1..cut - 1 + |t|];
    assert here == t && before[0] == text[cut - 1] && here[0] == text[cut];
    assert before == [text[cut - 1]] + here[..|t| - 1];
  }

  lemma StraddledFrom(mode: ParseMode, text: string, cut: nat, t: string)
    requires t in Tokens(mode) && |t| > 1 && StartsWithAt(text, cut - 1, t)
    ensures !SafeCut(mode, text, cut)
  {
    hide Tokens, StartsWithAt;
    assert Straddles(text, cut, t, 1);
    assert Straddled(text, cut, t);
  }

  lemma StartIsSafe(mode: ParseMode, text: string, cut: nat)
    requires cut < |text| && (cut == 0 || text[cut - 1] != text[cut])
    ensures SafeCut(mode, text, cut)
  {
    forall t | t in Tokens(mode) ensures !Straddled(text, cut, t) {
      LongTokens(mode, t);
      if Straddled(text, cut, t) {
        var o :| Straddles(text, cut, t, o);
        StraddleShows(text, cut, t, o);
      }
    }
  }

  /** The cut comes right behind a backslash that escapes the next character. */
  predicate CutSplitsEscape(mode: ParseMode, max: nat, s: State) {
    EscapeAcross(mode, s.remaining, 0, Cut(mode, max, s), s.stack)
  }

  /** The cut comes inside a token that the scan reads. */
  predicate CutSplitsToken(mode: ParseMode, max: nat, s: State) {
    TokenAcross(mode, s.remaining, 0, Cut(mode, max, s), s.stack)
  }

  /** A cut is aligned exactly if it splits neither an escape nor a token. */
  lemma CutsAlignIff(mode: ParseMode, max: nat, s: State)
    ensures CutIsAligned(mode, max, s) <==> !CutSplitsEscape(mode, max, s) && !CutSplitsToken(mode, max, s)
  {
    AlignedIff(mode, s.remaining, 0, Cut(mode, max, s), s.stack);
    hide Cut, EscapeAcross, TokenAcross, ScanFrom;
  }

  /** A cut that no token straddles can only split an escape. */
  lemma SafeCutsAlignIff(mode: ParseMode, max: nat, s: State)
    requires WellFormed(mode, s.stack) && SafeCut(mode, s.remaining, Cut(mode, max, s))
    ensures !CutSplitsToken(mode, max, s)
    ensures CutIsAligned(mode, max, s) <==> !CutSplitsEscape(mode, max, s)
  {
    hide *;
    CutsAlignIff(mode, max, s);
    SafeCutSplitsNoToken(mode, max, s);
  }

  lemma SafeCutSplitsNoToken(mode: ParseMode, max: nat, s: State)
    requires WellFormed(mode, s.stack) && SafeCut(mode, s.remaining, Cut(mode, max, s))
    ensures !CutSplitsToken(mode, max, s)
  {
    hide Cut, WellFormed, SafeCut, TokenAcross;
    if CutSplitsToken(mode, max, s) {
      TokenAcrossStraddles(mode, s.remaining, 0, Cut(mode, max, s), s.stack);
    }
  }

  /** A cut at a boundary that is kept as it is aligns unconditionally. */
  lemma BoundaryCutsAlign(mode: ParseMode, max: nat, s: State)
    requires WellFormed(mode, s.stack)
    requires Boundary(s.remaining, EffectiveLimit(mode, max, s)) != -1
    requires Cut(mode, max, s) == RawCut(mode, max, s)
    ensures CutIsAligned(mode, max, s)
  {
    BoundaryWithin(s.remaining, EffectiveLimit(mode, max, s));
    WhichCutsAreSafe(mode, max, s);
    SafeCutsAlignIff(mode, max, s);
  }
}
