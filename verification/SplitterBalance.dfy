/**
 Every chunk stands on its own: when the inserted delimiters do not run together with
 their neighbours, scanning a chunk from an empty stack ends with an empty stack.
 */
module SplitterBalance {
  import opened PyText
  import opened MarkdownLexer
  import opened MessageSplitter
  import opened SplitterState

  // ---------------------------------------------------------------------------------
  // A token that stands apart from its neighbours is lexed as itself
  // ---------------------------------------------------------------------------------

  predicate LongestFirst(tokens: seq<string>) {
    forall a, b :: 0 <= a < b < |tokens| ==> |tokens[a]| >= |tokens[b]|
  }

  lemma TokensLongestFirst(mode: ParseMode)
    ensures LongestFirst(Tokens(mode))
  {
  }

  lemma TailLongestFirst(tokens: seq<string>)
    requires LongestFirst(tokens) && tokens != []
    ensures LongestFirst(tokens[1..])
  {
    forall a, b | 0 <= a < b < |tokens| - 1 ensures |tokens[1..][a]| >= |tokens[1..][b]| {
      assert tokens[1..][a] == tokens[a + 1] && tokens[1..][b] == tokens[b + 1];
    }
  }

  lemma {:induction false} FirstTokenIs(tokens: seq<string>, text: string, i: nat, t: string)
    requires LongestFirst(tokens) && t in tokens && t != "" && StartsWithAt(text, i, t)
    requires forall x :: x in tokens ==> !Straddled(text, i + |t|, x)
    ensures FirstToken(tokens, text, i) == t
  {
    var head := tokens[0];
    assert head in tokens && !Straddled(text, i + |t|, head);
    var k :| 0 <= k < |tokens| && tokens[k] == t;
    if StartsWithAt(text, i, head) {
      assert !Straddles(text, i + |t|, head, |t|);
      assert |tokens[0]| >= |tokens[k]|;
      SameLengthMatches(text, i, head, t);
    } else {
      assert k > 0 && tokens[1..][k - 1] == t;
      TailLongestFirst(tokens);
      assert forall x :: x in tokens[1..] ==> x in tokens;
      FirstTokenIs(tokens[1..], text, i, t);
    }
  }

  lemma SameLengthMatches(text: string, i: nat, a: string, b: string)
    requires StartsWithAt(text, i, a) && StartsWithAt(text, i, b)
    ensures |a| == |b| ==> a == b
  {
  }

  /** A toggle token in plain text, not glued to what follows, is one scanner step. */
  lemma ToggleStep(mode: ParseMode, text: string, i: nat, t: string, stack: seq<string>)
    requires IsToggle(mode, t) && StartsWithAt(text, i, t) && SafeCut(mode, text, i + |t|)
    requires !InCode(stack)
    ensures i < |text| && ScanStep(mode, text, i, stack) == Scanned(i + |t|, Toggle(stack, t))
  {
    ToggleIsToken(mode, t);
    TokensLongestFirst(mode);
    ToggleChars(mode, t);
    FirstTokenIs(Tokens(mode), text, i, t);
    assert text[i] == text[i..i + |t|][0];
  }

  lemma ToggleChars(mode: ParseMode, t: string)
    requires IsToggle(mode, t)
    ensures t != "" && t[0] != '\\' && t[0] != '\n'
  {
  }

  lemma OneStepReads(mode: ParseMode, text: string, i: nat, end: nat, before: seq<string>, after: seq<string>)
    requires i < end <= |text| && ScanStep(mode, text, i, before) == Scanned(end, after)
    ensures Reads(mode, text, i, end, before, after)
  {
    hide ScanStep;
    ScanUnfold(mode, text, i, end, before);
    ScanUnfold(mode, text, end, end, after);
  }

  // ---------------------------------------------------------------------------------
  // Newlines, openers, closers
  // ---------------------------------------------------------------------------------

  /** Newlines leave any stack alone. */
  lemma {:induction false} NewlinesRead(mode: ParseMode, text: string, i: nat, end: nat, stack: seq<string>)
    requires i <= end <= |text| && WellFormed(mode, stack)
    requires forall k :: i <= k < end ==> text[k] == '\n'
    ensures Reads(mode, text, i, end, stack, stack)
    decreases end - i
  {
    if i < end {
      NewlineStep(mode, text, i, stack);
      OneStepReads(mode, text, i, i + 1, stack, stack);
      NewlinesRead(mode, text, i + 1, end, stack);
      ReadsOn(mode, text, i, i + 1, end, stack, stack, stack);
    }
  }

  lemma NewlineStep(mode: ParseMode, text: string, i: nat, stack: seq<string>)
    requires i < |text| && text[i] == '\n' && WellFormed(mode, stack)
    ensures ScanStep(mode, text, i, stack) == Scanned(i + 1, stack)
  {
    if InCode(stack) {
      ToggleChars(mode, stack[|stack| - 1]);
      MatchShows(text, i, stack[|stack| - 1]);
    } else {
      TokensAvoidNewline(mode);
      MatchShows(text, i, FirstToken(Tokens(mode), text, i));
    }
  }

  lemma TokensAvoidNewline(mode: ParseMode)
    ensures forall t :: t in Tokens(mode) ==> t != "" && t[0] != '\n'
  {
  }

  /** No token runs across the end of any of these parts, laid out from position i. */
  ghost predicate CutsAfter(mode: ParseMode, text: string, i: nat, parts: seq<string>)
    decreases |parts|
  {
    parts == [] || (SafeCut(mode, text, i + |parts[0]|) && CutsAfter(mode, text, i + |parts[0]|, parts[1..]))
  }

  lemma SpelledStep(text: string, i: nat, a: string, b: string)
    requires i <= |text| && a + b <= text[i..]
    ensures StartsWithAt(text, i, a) && b <= text[i + |a|..]
  {
    assert text[i..i + |a|] == text[i..][..|a|] == (a + b)[..|a|];
    assert text[i + |a|..] == text[i..][|a|..];
    assert (a + b)[|a|..] == b;
  }

  /** Reading the carried openers rebuilds the carried stack, opener by opener. */
  lemma {:induction false} OpenersRead(mode: ParseMode, text: string, i: nat, end: nat, done: seq<string>,
                                       rest: seq<string>)
    requires WellFormed(mode, done + rest) && i <= |text| && Join(rest) <= text[i..] && CutsAfter(mode, text, i, rest)
    requires end == i + |Join(rest)|
    ensures end <= |text| && Reads(mode, text, i, end, done, done + rest)
    decreases |rest|
  {
    if rest == [] {
      assert done + rest == done;
      ScanUnfold(mode, text, i, i, done);
    } else {
      var t, j := rest[0], i + |rest[0]|;
      SpelledStep(text, i, t, Join(rest[1..]));
      PushStep(mode, text, i, done, rest);
      assert (done + [t]) + rest[1..] == done + rest;
      assert end == j + |Join(rest[1..])|;
      hide WellFormed, SafeCut, StartsWithAt, Reads;
      OpenersRead(mode, text, j, end, done + [t], rest[1..]);
      hide *;
      ReadsOn(mode, text, i, j, end, done, done + [t], done + rest);
    }
  }

  lemma PushStep(mode: ParseMode, text: string, i: nat, done: seq<string>, rest: seq<string>)
    requires WellFormed(mode, done + rest) && rest != []
    requires StartsWithAt(text, i, rest[0]) && SafeCut(mode, text, i + |rest[0]|)
    ensures Reads(mode, text, i, i + |rest[0]|, done, done + [rest[0]])
  {
    hide *;
    var t := rest[0];
    NextOpens(mode, done, rest);
    MatchFits(mode, text, i, t);
    ToggleStep(mode, text, i, t, done);
    OneStepReads(mode, text, i, i + |t|, done, done + [t]);
  }

  /** The next opener of a well-formed stack opens, on top of those before it. */
  lemma NextOpens(mode: ParseMode, done: seq<string>, rest: seq<string>)
    requires WellFormed(mode, done + rest) && rest != []
    ensures IsToggle(mode, rest[0]) && !InCode(done) && Toggle(done, rest[0]) == done + [rest[0]]
  {
    hide IsToggle;
    var k := |done|;
    assert (done + rest)[k] == rest[0];
    if k > 0 {
      assert (done + rest)[k - 1] == done[k - 1];
    }
  }

  lemma MatchFits(mode: ParseMode, text: string, i: nat, t: string)
    requires IsToggle(mode, t) && StartsWithAt(text, i, t)
    ensures i < i + |t| <= |text|
  {
    ToggleChars(mode, t);
    hide IsToggle;
  }

  /** The closers of a stack, innermost first. */
  function ClosingParts(stack: seq<string>): seq<string> {
    if stack == [] then [] else [stack[|stack| - 1]] + ClosingParts(stack[..|stack| - 1])
  }

  lemma {:induction false} ClosersSpellTheParts(mode: ParseMode, stack: seq<string>)
    requires WellFormed(mode, stack)
    ensures Closers(stack) == Join(ClosingParts(stack))
  {
    if stack != [] {
      var n := |stack| - 1;
      TopIsNoBracket(mode, stack);
      hide WellFormed;
      ClosersSpellTheParts(mode, stack[..n]);
      assert ClosingParts(stack)[1..] == ClosingParts(stack[..n]);
    }
  }

  lemma TopIsNoBracket(mode: ParseMode, stack: seq<string>)
    requires WellFormed(mode, stack) && stack != []
    ensures stack[|stack| - 1] != "[" && WellFormed(mode, stack[..|stack| - 1])
  {
    assert IsToggle(mode, stack[|stack| - 1]);
  }

  /** Reading the closers of a stack empties it. */
  lemma {:induction false} ClosersRead(mode: ParseMode, text: string, i: nat, end: nat, stack: seq<string>)
    requires WellFormed(mode, stack) && i <= |text| && Join(ClosingParts(stack)) <= text[i..]
    requires CutsAfter(mode, text, i, ClosingParts(stack))
    requires end == i + |Join(ClosingParts(stack))|
    ensures end <= |text| && Reads(mode, text, i, end, stack, [])
    decreases |stack|
  {
    if stack == [] {
      ScanUnfold(mode, text, i, i, []);
    } else {
      hide *;
      var j, rest := CloserTurn(mode, text, i, end, stack);
      ClosersRead(mode, text, j, end, rest);
      ReadsOn(mode, text, i, j, end, stack, rest, []);
    }
  }

  lemma CloserTurn(mode: ParseMode, text: string, i: nat, end: nat, stack: seq<string>) returns (j: nat,
                   rest: seq<string>)
    requires WellFormed(mode, stack) && stack != [] && i <= |text|
    requires Join(ClosingParts(stack)) <= text[i..] && CutsAfter(mode, text, i, ClosingParts(stack))
    requires end == i + |Join(ClosingParts(stack))|
    ensures |rest| < |stack| && WellFormed(mode, rest) && i <= j <= end <= |text|
    ensures Join(ClosingParts(rest)) <= text[j..] && CutsAfter(mode, text, j, ClosingParts(rest))
    ensures end == j + |Join(ClosingParts(rest))|
    ensures Reads(mode, text, i, j, stack, rest)
  {
    hide *;
    var n := |stack| - 1;
    j, rest := i + |stack[n]|, stack[..n];
    FirstCloser(mode, text, i, stack);
    TopIsNoBracket(mode, stack);
    SpelledStep(text, i, stack[n], Join(ClosingParts(rest)));
    PopStep(mode, text, i, stack);
    MatchWithin(text, i, stack[n], Join(ClosingParts(rest)));
  }

  lemma FirstCloser(mode: ParseMode, text: string, i: nat, stack: seq<string>)
    requires stack != [] && CutsAfter(mode, text, i, ClosingParts(stack))
    ensures var top, rest := stack[|stack| - 1], stack[..|stack| - 1];
            && Join(ClosingParts(stack)) == top + Join(ClosingParts(rest))
            && SafeCut(mode, text, i + |top|) && CutsAfter(mode, text, i + |top|, ClosingParts(rest))
  {
    hide SafeCut;
    assert ClosingParts(stack)[1..] == ClosingParts(stack[..|stack| - 1]);
  }

  lemma MatchWithin(text: string, i: nat, a: string, b: string)
    requires i <= |text| && a + b <= text[i..]
    ensures i + |a| + |b| <= |text|
  {
  }

  lemma PopStep(mode: ParseMode, text: string, i: nat, stack: seq<string>)
    requires WellFormed(mode, stack) && stack != []
    requires var top := stack[|stack| - 1]; StartsWithAt(text, i, top) && SafeCut(mode, text, i + |top|)
    ensures Reads(mode, text, i, i + |stack[|stack| - 1]|, stack, stack[..|stack| - 1])
  {
    hide *;
    var top := stack[|stack| - 1];
    TopFits(mode, text, i, stack);
    if InCode(stack) {
      PopCode(mode, text, i, stack);
    } else {
      PopToggle(mode, text, i, stack);
    }
    OneStepReads(mode, text, i, i + |top|, stack, stack[..|stack| - 1]);
  }

  lemma TopFits(mode: ParseMode, text: string, i: nat, stack: seq<string>)
    requires WellFormed(mode, stack) && stack != [] && StartsWithAt(text, i, stack[|stack| - 1])
    ensures IsToggle(mode, stack[|stack| - 1]) && i < i + |stack[|stack| - 1]| <= |text|
  {
    hide IsToggle, Tokens;
    ToggleChars(mode, stack[|stack| - 1]);
  }

  lemma PopCode(mode: ParseMode, text: string, i: nat, stack: seq<string>)
    requires InCode(stack) && StartsWithAt(text, i, stack[|stack| - 1]) && i < |text|
    ensures ScanStep(mode, text, i, stack) == Scanned(i + |stack[|stack| - 1]|, stack[..|stack| - 1])
  {
    hide StartsWithAt, Tokens, FirstToken, IsToggle;
  }

  lemma PopToggle(mode: ParseMode, text: string, i: nat, stack: seq<string>)
    requires stack != [] && !InCode(stack) && i < |text|
    requires var top := stack[|stack| - 1];
             IsToggle(mode, top) && StartsWithAt(text, i, top) && SafeCut(mode, text, i + |top|)
    ensures ScanStep(mode, text, i, stack) == Scanned(i + |stack[|stack| - 1]|, stack[..|stack| - 1])
  {
    assert Toggle(stack, stack[|stack| - 1]) == stack[..|stack| - 1];
    hide *;
    ToggleStep(mode, text, i, stack[|stack| - 1], stack);
  }

  // ---------------------------------------------------------------------------------
  // The chunk
  // ---------------------------------------------------------------------------------

  /** In a chunk laid out as newlines, openers, body and closers, no token runs across the
      end of the newlines, of an opener, of the body or of a closer. */
  ghost predicate LexesApart(mode: ParseMode, chunk: string, newlines: string, before: seq<string>, body: string,
                             after: seq<string>) {
    var o := |newlines|;
    var e := o + |Join(before)| + |body|;
    CutsAfter(mode, chunk, o, before) && SafeCut(mode, chunk, e) && CutsAfter(mode, chunk, e, ClosingParts(after))
  }

  lemma LexesApartParts(mode: ParseMode, chunk: string, newlines: string, before: seq<string>, body: string,
                        after: seq<string>,
                        n: nat, e: nat)
    requires LexesApart(mode, chunk, newlines, before, body, after)
    requires n == |newlines| && e == n + |Join(before)| + |body|
    ensures CutsAfter(mode, chunk, n, before) && SafeCut(mode, chunk, e)
    ensures CutsAfter(mode, chunk, e, ClosingParts(after))
  {
  }

  predicate AllNewlines(s: string) {
    forall k :: 0 <= k < |s| ==> s[k] == '\n'
  }

  /** A chunk put together from newlines, openers, body and closers scans from the empty
      stack back to the empty stack, if in the original text the newlines and the body
      took the carried stack to the stack that is closed. */
  lemma AssembledChunkIsBalanced(mode: ParseMode, text: string, newlines: string, body: string,
                                 before: seq<string>, after: seq<string>, chunk: string)
    requires WellFormed(mode, before) && WellFormed(mode, after) && AllNewlines(newlines)
    requires newlines + body <= text && SafeCut(mode, text, |newlines + body|)
    requires Reads(mode, text, 0, |newlines + body|, before, after)
    requires chunk == newlines + Join(before) + body + Closers(after)
    requires LexesApart(mode, chunk, newlines, before, body, after)
    ensures Reads(mode, chunk, 0, |chunk|, [], [])
  {
    hide *;
    var n, o := |newlines|, |newlines| + |Join(before)|;
    var e := o + |body|;
    ClosersSpellTheParts(mode, after);
    ChunkLayout(chunk, newlines, Join(before), body, Closers(after));
    LexesApartParts(mode, chunk, newlines, before, body, after, n, e);
    EndsRead(mode, chunk, n, o, e, before, after);
    BodyReads(mode, text, newlines, body, before, after, chunk, o);
    FourReads(mode, chunk, n, o, e, before, after);
  }

  lemma EndsRead(mode: ParseMode, chunk: string, n: nat, o: nat, e: nat, before: seq<string>, after: seq<string>)
    requires WellFormed(mode, before) && WellFormed(mode, after) && n <= o <= e <= |chunk|
    requires forall k :: 0 <= k < n ==> chunk[k] == '\n'
    requires Join(before) <= chunk[n..] && o == n + |Join(before)| && CutsAfter(mode, chunk, n, before)
    requires Join(ClosingParts(after)) <= chunk[e..] && |chunk| == e + |Join(ClosingParts(after))|
    requires CutsAfter(mode, chunk, e, ClosingParts(after))
    ensures Reads(mode, chunk, 0, n, [], []) && Reads(mode, chunk, n, o, [], before)
    ensures Reads(mode, chunk, e, |chunk|, after, [])
  {
    hide *;
    OpenersEndRead(mode, chunk, n, o, before);
    ClosersRead(mode, chunk, e, |chunk|, after);
  }

  lemma FourReads(mode: ParseMode, chunk: string, n: nat, o: nat, e: nat, before: seq<string>, after: seq<string>)
    requires n <= o <= e <= |chunk|
    requires Reads(mode, chunk, 0, n, [], []) && Reads(mode, chunk, n, o, [], before)
    requires Reads(mode, chunk, o, e, before, after) && Reads(mode, chunk, e, |chunk|, after, [])
    ensures Reads(mode, chunk, 0, |chunk|, [], [])
  {
    hide *;
    ReadsOn(mode, chunk, 0, n, o, [], [], before);
    ReadsOn(mode, chunk, 0, o, e, [], before, after);
    ReadsOn(mode, chunk, 0, e, |chunk|, [], after, []);
  }

  lemma ChunkLayout(chunk: string, a: string, b: string, c: string, d: string)
    requires chunk == a + b + c + d
    ensures chunk[..|a|] == a && b <= chunk[|a|..]
    ensures chunk[|a| + |b|..|a| + |b| + |c|] == c
    ensures d <= chunk[|a| + |b| + |c|..] && |a| + |b| + |c| + |d| == |chunk|
    ensures AllNewlines(a) ==> forall k :: 0 <= k < |a| ==> chunk[k] == '\n'
  {
    assert forall k :: 0 <= k < |a| ==> chunk[k] == a[k];
  }

  lemma BodyReads(mode: ParseMode, text: string, newlines: string, body: string,
                  before: seq<string>, after: seq<string>, chunk: string, o: nat)
    requires WellFormed(mode, before) && AllNewlines(newlines)
    requires newlines + body <= text && SafeCut(mode, text, |newlines + body|)
    requires Reads(mode, text, 0, |newlines + body|, before, after)
    requires o + |body| <= |chunk| && chunk[o..o + |body|] == body && SafeCut(mode, chunk, o + |body|)
    ensures Reads(mode, chunk, o, o + |body|, before, after)
  {
    hide *;
    var n, d := |newlines|, |body|;
    TextLayout(text, newlines, body);
    NewlinesRead(mode, text, 0, n, before);
    ReadsRest(mode, text, 0, n, n + d, before, after);
    SameSpanReads(mode, text, n, chunk, o, d, before, after);
  }

  lemma TextLayout(text: string, newlines: string, body: string)
    requires newlines + body <= text && AllNewlines(newlines)
    ensures forall k :: 0 <= k < |newlines| ==> text[k] == '\n'
    ensures |newlines + body| == |newlines| + |body| <= |text|
    ensures text[|newlines|..|newlines| + |body|] == body
    ensures body != "" ==> text[|newlines| + |body| - 1] == body[|body| - 1]
  {
    assert forall k :: 0 <= k < |newlines + body| ==> text[k] == (newlines + body)[k];
  }

  /** Two readings of a prefix and of the whole give the reading of the rest. */
  lemma ReadsRest(mode: ParseMode, text: string, a: nat, b: nat, c: nat, s0: seq<string>, s2: seq<string>)
    requires b <= c <= |text| && Reads(mode, text, a, b, s0, s0) && Reads(mode, text, a, c, s0, s2)
    ensures Reads(mode, text, b, c, s0, s2)
  {
    ScanCompose(mode, text, a, b, c, s0);
  }

  /** A chunk cut off by the loop scans from the empty stack back to the empty stack. */
  lemma ChunkClosesItself(mode: ParseMode, max: nat, s: State)
    requires Inv(mode, s)
    requires SafeCut(mode, s.remaining, Cut(mode, max, s))
    requires CutIsAligned(mode, max, s)
    requires var raw := CutPiece(mode, max, s).raw;
             var n := LeadingNewlines(raw);
             LexesApart(mode, Render(mode, CutPiece(mode, max, s)), raw[..n], s.stack, raw[n..],
                        StackAfter(mode, max, s))
    ensures var chunk := Render(mode, CutPiece(mode, max, s));
            Reads(mode, chunk, 0, |chunk|, [], [])
  {
    var newlines, body := CutFacts(mode, max, s);
    hide *;
    AssembledChunkIsBalanced(mode, s.remaining, newlines, body, s.stack, StackAfter(mode, max, s),
                             Render(mode, CutPiece(mode, max, s)));
  }

  /** How a cut piece is laid out and what the scan of its raw text does. */
  lemma CutFacts(mode: ParseMode, max: nat, s: State) returns (newlines: string, body: string)
    requires Inv(mode, s)
    requires SafeCut(mode, s.remaining, Cut(mode, max, s))
    requires CutIsAligned(mode, max, s)
    ensures var raw := CutPiece(mode, max, s).raw;
            newlines == raw[..LeadingNewlines(raw)] && body == raw[LeadingNewlines(raw)..]
    ensures WellFormed(mode, s.stack) && WellFormed(mode, StackAfter(mode, max, s)) && AllNewlines(newlines)
    ensures newlines + body <= s.remaining && |newlines + body| == Cut(mode, max, s)
    ensures Reads(mode, s.remaining, 0, |newlines + body|, s.stack, StackAfter(mode, max, s))
    ensures Render(mode, CutPiece(mode, max, s)) == newlines + Join(s.stack) + body + Closers(StackAfter(mode, max, s))
  {
    newlines, body := PieceFacts(mode, s, Cut(mode, max, s), StackAfter(mode, max, s));
  }

  lemma PieceFacts(mode: ParseMode, s: State, cut: nat, after: seq<string>) returns (newlines: string, body: string)
    requires Inv(mode, s) && cut <= |s.remaining|
    requires ScanFrom(mode, s.remaining, 0, cut, s.stack) == Scanned(cut, after)
    ensures var raw := s.remaining[..cut];
            newlines == raw[..LeadingNewlines(raw)] && body == raw[LeadingNewlines(raw)..]
    ensures WellFormed(mode, s.stack) && WellFormed(mode, after) && AllNewlines(newlines)
    ensures newlines + body <= s.remaining && |newlines + body| == cut
    ensures Reads(mode, s.remaining, 0, |newlines + body|, s.stack, after)
    ensures Render(mode, Piece(s.remaining[..cut], s.openers, Closers(after), s.inQuote)) ==
              newlines + Join(s.stack) + body + Closers(after)
  {
    hide Render, SafeCut, WellFormed, ScanFrom;
    var raw := s.remaining[..cut];
    newlines, body := raw[..LeadingNewlines(raw)], raw[LeadingNewlines(raw)..];
    assert newlines + body == raw;
    QuotePrefixNeverInserted(mode, s, cut, Closers(after));
    ScanKeepsWellFormed(mode, s.remaining, 0, cut, s.stack);
  }

  /** The last chunk gets no closers: its scan ends as that of the rest of the text does,
      with the same stack and, if the text ends in a backslash that escapes nothing, the
      same one position past the end. */
  lemma LastChunkIsBalancedIff(mode: ParseMode, s: State)
    requires Inv(mode, s)
    requires var n := LeadingNewlines(s.remaining);
             CutsAfter(mode, Render(mode, LastPiece(s)), n, s.stack)
    ensures var chunk := Render(mode, LastPiece(s));
            var rest := ScanFrom(mode, s.remaining, 0, |s.remaining|, s.stack);
            ScanFrom(mode, chunk, 0, |chunk|, []) == Scanned(|chunk| + (rest.pos - |s.remaining|), rest.stack)
  {
    var text, n := s.remaining, LeadingNewlines(s.remaining);
    var chunk := Render(mode, LastPiece(s));
    assert text[..|text|] == text && Piece(text[..|text|], s.openers, "", s.inQuote) == LastPiece(s);
    QuotePrefixNeverInserted(mode, s, |text|, "");
    assert text[..n] + text[n..] == text;
    assert chunk == text[..n] + Join(s.stack) + text[n..] + "";
    hide *;
    LastReads(mode, text, text[..n], text[n..], s.stack, chunk);
  }

  lemma LastReads(mode: ParseMode, text: string, newlines: string, body: string, before: seq<string>, chunk: string)
    requires WellFormed(mode, before) && AllNewlines(newlines) && newlines + body == text
    requires chunk == newlines + Join(before) + body + "" && CutsAfter(mode, chunk, |newlines|, before)
    ensures var rest := ScanFrom(mode, text, 0, |text|, before);
            ScanFrom(mode, chunk, 0, |chunk|, []) == Scanned(|chunk| + (rest.pos - |text|), rest.stack)
  {
    hide *;
    var n, o := LastLayout(text, newlines, body, before, chunk);
    OpenersEndRead(mode, chunk, n, o, before);
    ReadsOn(mode, chunk, 0, n, o, [], [], before);
    NewlinesRead(mode, text, 0, n, before);
    TailScan(mode, chunk, o, body, [], before);
    TailScan(mode, text, n, body, before, before);
  }

  /** The scan of a text from a place it stops at is the scan of its tail. */
  lemma TailScan(mode: ParseMode, text: string, k: nat, body: string, before: seq<string>, at: seq<string>)
    requires k <= |text| && text[k..] == body && Reads(mode, text, 0, k, before, at)
    ensures var tail := ScanFrom(mode, body, 0, |body|, at);
            ScanFrom(mode, text, 0, |text|, before) == Scanned(k + tail.pos, tail.stack)
  {
    hide ScanFrom;
    ScanCompose(mode, text, 0, k, |text|, before);
    ScanSuffix(mode, text, k, 0, |body|, at);
  }

  lemma LastLayout(text: string, newlines: string, body: string, before: seq<string>, chunk: string) returns (n: nat,
                   o: nat)
    requires AllNewlines(newlines) && newlines + body == text
    requires chunk == newlines + Join(before) + body + ""
    ensures n == |newlines| && o == n + |Join(before)| && |chunk| == o + |body| && |text| == n + |body|
    ensures (forall k :: 0 <= k < n ==> chunk[k] == '\n' && text[k] == '\n')
    ensures Join(before) <= chunk[n..] && chunk[o..] == body && text[n..] == body
  {
    n, o := |newlines|, |newlines| + |Join(before)|;
    ChunkLayout(chunk, newlines, Join(before), body, "");
    assert chunk[o..] == chunk[o..o + |body|];
    assert forall k :: 0 <= k < n ==> text[k] == newlines[k];
  }

  lemma OpenersEndRead(mode: ParseMode, chunk: string, n: nat, o: nat, before: seq<string>)
    requires WellFormed(mode, before) && n <= o <= |chunk|
    requires forall k :: 0 <= k < n ==> chunk[k] == '\n'
    requires Join(before) <= chunk[n..] && o == n + |Join(before)| && CutsAfter(mode, chunk, n, before)
    ensures Reads(mode, chunk, 0, n, [], []) && Reads(mode, chunk, n, o, [], before)
  {
    assert WellFormed(mode, []);
    hide *;
    assert [] + before == before;
    NewlinesRead(mode, chunk, 0, n, []);
    OpenersRead(mode, chunk, n, o, [], before);
  }
}
