/**
 The loops of the message splitter, each proved to compute its function in
 `MessageSplitter`.
 */
module SplitterLoops {
  import opened PyText
  import opened MarkdownLexer
  import opened MessageSplitter

  /** The best of the three sentence ends, or -1. */
  method BestSentence(text: string, start: int, ceiling: int) returns (best: int)
    ensures best == Max(RFind(text, ". ", start, ceiling),
                        Max(RFind(text, "! ", start, ceiling), RFind(text, "? ", start, ceiling)))
  {
    best := -1;
    var marks := [". ", "! ", "? "];
    for m := 0 to 3
      invariant m == 0 ==> best == -1
      invariant m == 1 ==> best == RFind(text, ". ", start, ceiling)
      invariant m == 2 ==> best == Max(RFind(text, ". ", start, ceiling), RFind(text, "! ", start, ceiling))
      invariant m == 3 ==> best == Max(RFind(text, ". ", start, ceiling),
                                       Max(RFind(text, "! ", start, ceiling), RFind(text, "? ", start, ceiling)))
    {
      var p := RFind(text, marks[m], start, ceiling);
      if p > best { best := p; }
    }
  }

  method FindSplitPoint(text: string, effectiveLimit: int, hardMax: nat) returns (split: int)
    ensures split == SplitPoint(text, effectiveLimit, hardMax)
  {
    var ceiling := Min(effectiveLimit, |text|);
    var near := ThreeQuarters(ceiling);
    var starts := [near, 0];
    for k := 0 to 2
      invariant k >= 1 ==> BoundaryFrom(text, near, ceiling) == -1
      invariant k == 2 ==> BoundaryFrom(text, 0, ceiling) == -1
    {
      var start := starts[k];
      assert k == 0 ==> start == near;
      assert k == 1 ==> start == 0;
      var idx := RFind(text, "\n", start, ceiling);
      if idx != -1 {
        assert BoundaryFrom(text, start, ceiling) == idx + 1;
        return idx + 1;
      }
      var best := BestSentence(text, start, ceiling);
      if best != -1 {
        assert BoundaryFrom(text, start, ceiling) == best + 2;
        return best + 2;
      }
      idx := RFind(text, " ", start, ceiling);
      if idx != -1 {
        assert BoundaryFrom(text, start, ceiling) == idx + 1;
        return idx + 1;
      }
      assert BoundaryFrom(text, start, ceiling) == -1;
    }
    return Min(hardMax, |text|);
  }

  /** The inner loop of the rollback: does token t cover both sides of `split`? */
  method FindStraddle(text: string, split: nat, t: string) returns (start: int)
    ensures var o := StraddleOffset(text, split, t, 1);
            if o == -1 then start == -1 else start == split - o
  {
    var offset := 1;
    while offset < |t|
      invariant 1 <= offset
      invariant StraddleOffset(text, split, t, 1) == StraddleOffset(text, split, t, offset)
    {
      start := split - offset;
      if start >= 0 && StartsWithAt(text, start, t) { return; }
      offset := offset + 1;
    }
    start := -1;
  }

  /** The token loop of the rollback. */
  method FindTokenRollback(tokens: seq<string>, text: string, split: nat) returns (start: int)
    ensures start == TokenRollback(tokens, text, split)
  {
    for k := 0 to |tokens|
      invariant TokenRollback(tokens, text, split) == TokenRollback(tokens[k..], text, split)
    {
      start := FindStraddle(text, split, tokens[k]);
      if start != -1 { return; }
      assert tokens[k..][1..] == tokens[k + 1..];
    }
    start := -1;
  }

  method RollbackIfInsideAtom(mode: ParseMode, text: string, split: nat) returns (cut: nat)
    requires split <= |text|
    ensures cut == Rollback(mode, text, split)
  {
    var start := FindTokenRollback(Tokens(mode), text, split);
    if start != -1 { return start; }
    var bracket := RFind(text, "[", 0, split);
    if bracket != -1 {
      var close := FindChar(text, ')', bracket);
      if close != -1 && split <= close { return bracket; }
    }
    return split;
  }

  method Assemble(raw: string, openers: string, closers: string, inQuote: bool, mode: ParseMode) returns (chunk: string)
    ensures chunk == AssembleChunk(raw, openers, closers, inQuote, mode)
  {
    var n := 0;
    while n < |raw| && raw[n] == '\n'
      invariant n <= |raw|
      invariant LeadingNewlines(raw) == n + LeadingNewlines(raw[n..])
    {
      n := n + 1;
    }
    var body := raw[n..];
    var quote := "";
    if inQuote && mode == MarkdownV2 && body != "" && body[0] != '>' { quote := "> "; }
    chunk := raw[..n] + quote + openers + body + closers;
  }

  method MergeDelimiterOnlyChunks(chunks: seq<string>, maxLength: nat) returns (merged: seq<string>)
    ensures merged == MergeFrom([], chunks, maxLength)
  {
    merged := [];
    var i := 0;
    while i < |chunks|
      invariant i <= |chunks|
      invariant MergeFrom(merged, chunks[i..], maxLength) == MergeFrom([], chunks, maxLength)
    {
      var c := chunks[i];
      assert chunks[i..][1..] == chunks[i + 1..];
      if DelimiterOnly(c) && merged != [] {
        var candidate := merged[|merged| - 1] + c;
        if |candidate| <= maxLength {
          merged := merged[|merged| - 1 := candidate];
          i := i + 1;
          continue;
        }
      }
      merged := merged + [c];
      i := i + 1;
    }
  }

  method SplitBoundaryOnly(text: string, max: nat) returns (r: Outcome<seq<string>>)
    ensures r == PlainRun(text, max)
  {
    if text == "" { return Returned([]); }
    if |text| <= max { return Returned([text]); }
    var chunks: seq<string> := [];
    var remaining := text;
    PrependNothing(PlainRun(text, max));
    while remaining != ""
      invariant PlainRun(text, max) == Prepended(chunks, PlainRun(remaining, max))
      decreases |remaining|
    {
      if |remaining| <= max {
        return Returned(chunks + [remaining]);
      }
      var split := FindPlainCut(remaining, max);
      var rest := LStrip(remaining[split..]);
      PlainTurn(remaining, max);
      if |rest| == |remaining| { return NeverReturns; }
      PrependMore(chunks, remaining[..split], PlainRun(rest, max));
      chunks := chunks + [remaining[..split]];
      remaining := rest;
    }
    assert chunks + [] == chunks;
    r := Returned(chunks);
  }

  method FindPlainCut(remaining: string, max: nat) returns (split: nat)
    requires max < |remaining|
    ensures split == PlainCut(remaining, max)
  {
    var nl := RFind(remaining, "\n", 0, max);
    if nl == -1 { split := max; } else { split := nl; }
  }

  lemma PrependNothing<T>(o: Outcome<seq<T>>)
    ensures Prepended([], o) == o
  {
    if o.Returned? {
      assert [] + o.value == o.value;
    }
  }

  lemma PrependMore<T>(done: seq<T>, x: T, o: Outcome<seq<T>>)
    ensures Prepended(done, Prepended([x], o)) == Prepended(done + [x], o)
  {
    if o.Returned? {
      assert done + ([x] + o.value) == (done + [x]) + o.value;
    }
  }

  /** The part of a turn that decides where to cut. */
  method ChooseCut(mode: ParseMode, max: nat, s: State) returns (split: nat, chunkStack: seq<string>)
    ensures split == Cut(mode, max, s) && chunkStack == StackAfter(mode, max, s)
  {
    var raw := FindSplitPoint(s.remaining, EffectiveLimit(mode, max, s), max);
    RawCutIs(mode, max, s, raw);
    split := raw;
    chunkStack := ScanState(mode, s.remaining, split, s.stack);
    var adjusted := RollbackIfInsideAtom(mode, s.remaining, split);
    CutIs(mode, max, s, adjusted);
    if adjusted != split {
      split := adjusted;
      chunkStack := ScanState(mode, s.remaining, split, s.stack);
    }
    StackAfterIs(mode, max, s, split, chunkStack);
  }

  lemma RawCutIs(mode: ParseMode, max: nat, s: State, raw: int)
    requires raw == SplitPoint(s.remaining, EffectiveLimit(mode, max, s), max)
    ensures raw == RawCut(mode, max, s)
  {
  }

  lemma CutIs(mode: ParseMode, max: nat, s: State, cut: nat)
    requires cut == Rollback(mode, s.remaining, RawCut(mode, max, s))
    ensures cut == Cut(mode, max, s)
  {
  }

  lemma StackAfterIs(mode: ParseMode, max: nat, s: State, cut: nat, stack: seq<string>)
    requires cut == Cut(mode, max, s)
    requires stack == ScanFrom(mode, s.remaining, 0, cut, s.stack).stack
    ensures stack == StackAfter(mode, max, s)
  {
  }

  lemma RunCases(mode: ParseMode, max: nat, s: State)
    ensures Run(mode, max, s)
         == if s.remaining == "" then Returned([])
            else if IsLast(mode, max, s) then Returned([LastPiece(s)])
            else if Cut(mode, max, s) == 0 then NeverReturns
            else Prepended([CutPiece(mode, max, s)], Run(mode, max, Next(mode, max, s)))
  {
    hide Cut, Next, CutPiece, IsLast;
  }

  /** The main loop: the chunks of a run before merging. */
  method CutLoop(text: string, max: nat, mode: ParseMode) returns (r: Outcome<seq<string>>)
    ensures r == match Run(mode, max, Start(text))
                 case Returned(ps) => Returned(RenderAll(mode, ps))
                 case NeverReturns => NeverReturns
  {
    var chunks: seq<string> := [];
    ghost var pieces: seq<Piece> := [];
    hide Cut, StackAfter, Openers, Closers, InBlockquoteAt, AssembleChunk, Run, IsLast;
    var s := Start(text);
    PrependNothing(Run(mode, max, s));
    while s.remaining != ""
      invariant chunks == RenderAll(mode, pieces)
      invariant Run(mode, max, Start(text)) == Prepended(pieces, Run(mode, max, s))
      decreases |s.remaining|
    {
      RunCases(mode, max, s);
      if IsLast(mode, max, s) {
        var chunk := Assemble(s.remaining, s.openers, "", s.inQuote, mode);
        assert chunk == Render(mode, LastPiece(s));
        assert RenderAll(mode, pieces + [LastPiece(s)]) == chunks + [chunk];
        return Returned(chunks + [chunk]);
      }
      var split, chunkStack := ChooseCut(mode, max, s);
      if split == 0 {
        return NeverReturns;
      }
      var chunk := Assemble(s.remaining[..split], s.openers, Closers(chunkStack), s.inQuote, mode);
      assert chunk == Render(mode, CutPiece(mode, max, s));
      PrependMore(pieces, CutPiece(mode, max, s), Run(mode, max, Next(mode, max, s)));
      chunks := chunks + [chunk];
      pieces := pieces + [CutPiece(mode, max, s)];
      var rest := s.remaining[split..];
      s := State(rest, chunkStack, Openers(chunkStack), InBlockquoteAt(rest, 0, mode));
    }
    RunCases(mode, max, s);
    assert pieces + [] == pieces;
    r := Returned(chunks);
  }

  method SmartSplitMessage(text: string, max: nat, mode: ParseMode) returns (r: Outcome<seq<string>>)
    ensures r == SmartSplit(text, max, mode)
  {
    if text == "" { return Returned([]); }
    if |text| <= max { return Returned([text]); }
    if mode == Unconfigured {
      r := SplitBoundaryOnly(text, max);
      return;
    }
    r := CutLoop(text, max, mode);
    if r.Returned? {
      var merged := MergeDelimiterOnlyChunks(r.value, max);
      r := Returned(merged);
    }
  }
}
