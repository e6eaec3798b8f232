/**
 The delimiter scanner of the message splitter (`utils/text_processing.py`): the token
 tables, the delimiter stack, `_scan_state` and the token half of
 `_rollback_if_inside_atom`.

 `ScanFrom` is the scan as a function; it remembers where the scan stopped, because a
 two-character escape or a long token may carry it past the requested end.
 */
module MarkdownLexer {
  import opened PyText

  /** The parse modes the splitter has a delimiter table for, and every other value. */
  datatype ParseMode = Markdown | MarkdownV2 | Unconfigured

  /** The configured tokens, longest first (the sort is stable). */
  function Tokens(mode: ParseMode): seq<string> {
    match mode
    case Markdown => ["```", "`", "*", "_", "["]
    case MarkdownV2 => ["```", "||", "__", "`", "*", "_", "~", "[", ">"]
    case Unconfigured => []
  }

  predicate IsToggle(mode: ParseMode, t: string) {
    match mode
    case Markdown => t == "```" || t == "`" || t == "*" || t == "_"
    case MarkdownV2 => t == "```" || t == "||" || t == "__" || t == "`" || t == "*" || t == "_" || t == "~"
    case Unconfigured => false
  }

  predicate IsCode(t: string) { t == "`" || t == "```" }

  predicate InCode(stack: seq<string>) {
    stack != [] && IsCode(stack[|stack| - 1])
  }

  /** `next((t for t in tokens if text.startswith(t, i)), None)`, with "" for None. */
  function FirstToken(tokens: seq<string>, text: string, i: nat): (t: string)
    ensures t == "" || (t in tokens && StartsWithAt(text, i, t))
  {
    if tokens == [] then ""
    else if StartsWithAt(text, i, tokens[0]) then tokens[0]
    else FirstToken(tokens[1..], text, i)
  }

  /** A toggle token closes the innermost open delimiter of its own kind or opens a new one. */
  function Toggle(stack: seq<string>, t: string): seq<string> {
    if stack != [] && stack[|stack| - 1] == t then stack[..|stack| - 1] else stack + [t]
  }

  datatype Scanned = Scanned(pos: nat, stack: seq<string>)

  /** One turn of the scanning loop. */
  function ScanStep(mode: ParseMode, text: string, i: nat, stack: seq<string>): (r: Scanned)
    requires i < |text|
    ensures i < r.pos
  {
    if InCode(stack) then
      var closer := stack[|stack| - 1];
      if StartsWithAt(text, i, closer) then Scanned(i + |closer|, stack[..|stack| - 1])
      else Scanned(i + 1, stack)
    else if text[i] == '\\' then Scanned(i + 2, stack)
    else
      var t := FirstToken(Tokens(mode), text, i);
      if t == "" then Scanned(i + 1, stack)
      else if IsToggle(mode, t) then Scanned(i + |t|, Toggle(stack, t))
      else Scanned(i + |t|, stack)
  }

  function ScanFrom(mode: ParseMode, text: string, i: nat, end: nat, stack: seq<string>): (r: Scanned)
    requires end <= |text|
    ensures i <= r.pos && end <= r.pos
    decreases end - i
  {
    if i >= end then Scanned(i, stack)
    else
      var s := ScanStep(mode, text, i, stack);
      ScanFrom(mode, text, s.pos, end, s.stack)
  }

  lemma ScanUnfold(mode: ParseMode, text: string, i: nat, end: nat, stack: seq<string>)
    requires end <= |text|
    ensures i >= end ==> ScanFrom(mode, text, i, end, stack) == Scanned(i, stack)
    ensures i < end ==> var s := ScanStep(mode, text, i, stack);
                        ScanFrom(mode, text, i, end, stack) == ScanFrom(mode, text, s.pos, end, s.stack)
  {
    hide ScanStep;
  }

  /** `_scan_state`, the loop itself. */
  method ScanState(mode: ParseMode, text: string, end: nat, initial: seq<string>) returns (stack: seq<string>)
    requires end <= |text|
    ensures stack == ScanFrom(mode, text, 0, end, initial).stack
  {
    var i := 0;
    stack := initial;
    while i < end
      invariant 0 <= i
      invariant ScanFrom(mode, text, i, end, stack) == ScanFrom(mode, text, 0, end, initial)
    {
      ghost var s := ScanStep(mode, text, i, stack);
      if InCode(stack) {
        var closer := stack[|stack| - 1];
        if StartsWithAt(text, i, closer) {
          stack := stack[..|stack| - 1];
          i := i + |closer|;
        } else {
          i := i + 1;
        }
      } else if text[i] == '\\' {
        i := i + 2;
      } else {
        var matched := FirstToken(Tokens(mode), text, i);
        if matched == "" {
          i := i + 1;
        } else {
          if IsToggle(mode, matched) {
            if stack != [] && stack[|stack| - 1] == matched {
              stack := stack[..|stack| - 1];
            } else {
              stack := stack + [matched];
            }
          }
          i := i + |matched|;
        }
      }
      assert s == Scanned(i, stack);
    }
  }

  // ---------------------------------------------------------------------------------
  // The stack
  // ---------------------------------------------------------------------------------

  /** What the scanner keeps of its stack: only toggles, never twice the same in a row,
      and nothing above an open code delimiter. */
  predicate WellFormed(mode: ParseMode, stack: seq<string>) {
    && (forall k :: 0 <= k < |stack| ==> IsToggle(mode, stack[k]))
    && (forall k :: 0 <= k < |stack| - 1 ==> stack[k] != stack[k + 1])
    && (forall k :: 0 <= k < |stack| - 1 ==> !IsCode(stack[k]))
  }

  lemma {:induction false} ScanKeepsWellFormed(mode: ParseMode, text: string, i: nat, end: nat, stack: seq<string>)
    requires end <= |text| && WellFormed(mode, stack)
    ensures WellFormed(mode, ScanFrom(mode, text, i, end, stack).stack)
    decreases end - i
  {
    hide ScanStep, WellFormed;
    if i < end {
      var s := ScanStep(mode, text, i, stack);
      StepKeepsWellFormed(mode, text, i, stack);
      ScanKeepsWellFormed(mode, text, s.pos, end, s.stack);
    }
  }

  // ---------------------------------------------------------------------------------
  // Composition: scanning in pieces
  // ---------------------------------------------------------------------------------

  /** Stopping a scan at `mid` and going on from wherever it landed is the scan to `end`. */
  lemma {:induction false} ScanCompose(mode: ParseMode, text: string, i: nat, mid: nat, end: nat, stack: seq<string>)
    requires mid <= end <= |text|
    ensures var m := ScanFrom(mode, text, i, mid, stack);
            ScanFrom(mode, text, i, end, stack) == ScanFrom(mode, text, m.pos, end, m.stack)
    decreases mid - i
  {
    if i < mid {
      var s := ScanStep(mode, text, i, stack);
      ScanCompose(mode, text, s.pos, mid, end, s.stack);
    }
  }

  /** A token longer than one character that covers both sides of position p. */
  predicate Straddles(text: string, p: int, t: string, offset: int) {
    0 < offset < |t| && StartsWithAt(text, p - offset, t)
  }

  ghost predicate Straddled(text: string, p: int, t: string) {
    exists offset :: Straddles(text, p, t, offset)
  }

  /** No token of the mode covers both sides of position p. */
  ghost predicate SafeCut(mode: ParseMode, text: string, p: int) {
    forall t :: t in Tokens(mode) ==> !Straddled(text, p, t)
  }

  /** Scanning a suffix is scanning the whole text from that offset. */
  lemma {:induction false} ScanSuffix(mode: ParseMode, text: string, k: nat, i: nat, end: nat, stack: seq<string>)
    requires k + end <= |text|
    ensures var whole := ScanFrom(mode, text, k + i, k + end, stack);
            var part := ScanFrom(mode, text[k..], i, end, stack);
            whole == Scanned(k + part.pos, part.stack)
    decreases end - i
  {
    hide ScanStep;
    if i < end {
      SuffixStep(mode, text, k, i, stack);
      var s := ScanStep(mode, text[k..], i, stack);
      ScanSuffix(mode, text, k, s.pos, end, s.stack);
    }
  }

  lemma SuffixStep(mode: ParseMode, text: string, k: nat, i: nat, stack: seq<string>)
    requires k + i < |text|
    ensures var s := ScanStep(mode, text[k..], i, stack);
            ScanStep(mode, text, k + i, stack) == Scanned(k + s.pos, s.stack)
  {
    hide StartsWithAt, Tokens, IsToggle, Toggle, FirstToken;
    SuffixMatches(text, k, i);
    SuffixFirstToken(Tokens(mode), text, k, i);
  }

  lemma SuffixMatches(text: string, k: nat, i: nat)
    requires k <= |text|
    ensures forall t :: StartsWithAt(text[k..], i, t) == StartsWithAt(text, k + i, t)
  {
    forall t: string ensures StartsWithAt(text[k..], i, t) == StartsWithAt(text, k + i, t) {
      if k + i + |t| <= |text| {
        assert text[k..][i..i + |t|] == text[k + i..k + i + |t|];
      }
    }
  }

  lemma {:induction false} SuffixFirstToken(tokens: seq<string>, text: string, k: nat, i: nat)
    requires k <= |text|
    ensures FirstToken(tokens, text[k..], i) == FirstToken(tokens, text, k + i)
  {
    if tokens != [] {
      SuffixMatches(text, k, i);
      SuffixFirstToken(tokens[1..], text, k, i);
    }
  }

  // ---------------------------------------------------------------------------------
  // The same characters scan the same way in two texts
  // ---------------------------------------------------------------------------------

  /** Both texts begin with the same n characters, and no token leaks over position n. */
  ghost predicate SharePrefix(mode: ParseMode, a: string, b: string, n: nat) {
    n <= |a| && n <= |b| && a[..n] == b[..n] && SafeCut(mode, a, n) && SafeCut(mode, b, n)
  }

  lemma MatchInPrefix(a: string, n: nat, i: nat, t: string)
    requires i + |t| <= n <= |a|
    ensures StartsWithAt(a, i, t) == StartsWithAt(a[..n], i, t)
  {
    assert a[i..i + |t|] == a[..n][i..i + |t|];
  }

  lemma SameMatch(mode: ParseMode, a: string, b: string, n: nat, i: nat, t: string)
    requires SharePrefix(mode, a, b, n) && i < n && t in Tokens(mode)
    ensures StartsWithAt(a, i, t) == StartsWithAt(b, i, t)
    ensures StartsWithAt(a, i, t) ==> i + |t| <= n
  {
    hide Tokens;
    assert !Straddled(a, n, t) && !Straddled(b, n, t);
    if i + |t| <= n {
      MatchInPrefix(a, n, i, t);
      MatchInPrefix(b, n, i, t);
    } else {
      assert !Straddles(a, n, t, n - i);
      assert !Straddles(b, n, t, n - i);
    }
  }

  lemma {:induction false} SameFirstToken(mode: ParseMode, tokens: seq<string>, a: string, b: string, n: nat, i: nat)
    requires SharePrefix(mode, a, b, n) && i < n
    requires forall t :: t in tokens ==> t in Tokens(mode)
    ensures FirstToken(tokens, a, i) == FirstToken(tokens, b, i)
    ensures i + |FirstToken(tokens, a, i)| <= n
  {
    hide SharePrefix, StartsWithAt, Tokens;
    if tokens != [] {
      SameMatch(mode, a, b, n, i, tokens[0]);
      SameFirstToken(mode, tokens[1..], a, b, n, i);
    }
  }

  /** Every toggle is a token. */
  lemma ToggleIsToken(mode: ParseMode, t: string)
    requires IsToggle(mode, t)
    ensures t in Tokens(mode)
  {
    match mode
    case Markdown => assert Tokens(mode)[0] == "```" && Tokens(mode)[1] == "`" && Tokens(mode)[2] == "*" &&
        Tokens(mode)[3] == "_";
    case MarkdownV2 =>
      assert Tokens(mode)[0] == "```" && Tokens(mode)[1] == "||" && Tokens(mode)[2] == "__" && Tokens(mode)[3] == "`";
      assert Tokens(mode)[4] == "*" && Tokens(mode)[5] == "_" && Tokens(mode)[6] == "~";
    case Unconfigured =>
  }

  /** In code, of whichever kind, nothing but its own delimiter is read. */
  lemma {:induction false} CodeIsOpaque(mode: ParseMode, text: string, i: nat, end: nat, stack: seq<string>,
                                        code: string)
    requires i <= end <= |text| && stack != [] && code == stack[|stack| - 1] && code in {"`", "```"}
    requires forall k :: i <= k < end ==> !StartsWithAt(text, k, code)
    ensures ScanFrom(mode, text, i, end, stack) == Scanned(end, stack)
    decreases end - i
  {
    hide StartsWithAt;
    if i < end {
      assert ScanStep(mode, text, i, stack) == Scanned(i + 1, stack);
      CodeIsOpaque(mode, text, i + 1, end, stack, code);
    }
  }

  /** And only there: elsewhere every token but a bracket or quotation mark takes effect. */
  lemma TokensTakeEffect(mode: ParseMode, text: string, i: nat, stack: seq<string>, t: string)
    requires i < |text| && (stack == [] || stack[|stack| - 1] !in {"`", "```"}) && text[i] != '\\'
    requires t == FirstToken(Tokens(mode), text, i) && t != "" && t != "[" && t != ">"
    ensures ScanStep(mode, text, i, stack)
         == Scanned(i + |t|, if stack != [] && stack[|stack| - 1] == t then stack[..|stack| - 1] else stack + [t])
  {
    TogglesAre(mode, t);
    hide Tokens, IsToggle, FirstToken, StartsWithAt;
  }

  /** Every token opens and closes something, except those of links and quotations. */
  lemma TogglesAre(mode: ParseMode, t: string)
    ensures IsToggle(mode, t) <==> t in Tokens(mode) && t != "[" && t != ">"
  {
    if IsToggle(mode, t) { ToggleIsToken(mode, t); }
  }

  /** The step escapes the character after it. */
  predicate Escapes(text: string, i: nat, stack: seq<string>)
    requires i < |text|
  {
    text[i] == '\\' && !InCode(stack)
  }

  lemma SameStep(mode: ParseMode, a: string, b: string, n: nat, i: nat, stack: seq<string>)
    requires SharePrefix(mode, a, b, n) && i < n && WellFormed(mode, stack)
    ensures ScanStep(mode, a, i, stack) == ScanStep(mode, b, i, stack)
    ensures Escapes(a, i, stack) ==> ScanStep(mode, a, i, stack).pos == i + 2
    ensures !Escapes(a, i, stack) ==> ScanStep(mode, a, i, stack).pos <= n
  {
    if InCode(stack) {
      ToggleIsToken(mode, stack[|stack| - 1]);
      SameCodeStep(mode, a, b, n, i, stack);
    } else {
      SamePlainStep(mode, a, b, n, i, stack);
    }
  }

  lemma SameCodeStep(mode: ParseMode, a: string, b: string, n: nat, i: nat, stack: seq<string>)
    requires SharePrefix(mode, a, b, n) && i < n
    requires InCode(stack) && stack[|stack| - 1] in Tokens(mode)
    ensures ScanStep(mode, a, i, stack) == ScanStep(mode, b, i, stack)
    ensures ScanStep(mode, a, i, stack).pos <= n
  {
    assert n <= |a| && n <= |b|;
    hide SharePrefix, Tokens, StartsWithAt;
    SameMatch(mode, a, b, n, i, stack[|stack| - 1]);
  }

  lemma SamePlainStep(mode: ParseMode, a: string, b: string, n: nat, i: nat, stack: seq<string>)
    requires SharePrefix(mode, a, b, n) && i < n && !InCode(stack)
    ensures ScanStep(mode, a, i, stack) == ScanStep(mode, b, i, stack)
    ensures ScanStep(mode, a, i, stack).pos <= if a[i] == '\\' then i + 2 else n
    ensures a[i] == '\\' ==> ScanStep(mode, a, i, stack).pos == i + 2
  {
    assert n <= |a| && n <= |b|;
    assert a[i] == a[..n][i] == b[..n][i] == b[i];
    hide SharePrefix, Tokens, IsToggle, Toggle, FirstToken, InCode, StartsWithAt;
    if a[i] != '\\' {
      SameFirstToken(mode, Tokens(mode), a, b, n, i);
    }
  }

  lemma StepKeepsWellFormed(mode: ParseMode, text: string, i: nat, stack: seq<string>)
    requires i < |text| && WellFormed(mode, stack)
    ensures WellFormed(mode, ScanStep(mode, text, i, stack).stack)
  {
    hide StartsWithAt, FirstToken, Tokens, IsToggle;
  }

  lemma {:induction false} ScanSamePrefix(mode: ParseMode, a: string, b: string, n: nat, i: nat, stack: seq<string>)
    requires SharePrefix(mode, a, b, n) && WellFormed(mode, stack)
    ensures ScanFrom(mode, a, i, n, stack) == ScanFrom(mode, b, i, n, stack)
    decreases n - i
  {
    hide ScanStep, WellFormed, SafeCut;
    if i < n {
      SameStep(mode, a, b, n, i, stack);
      StepKeepsWellFormed(mode, a, i, stack);
      var s := ScanStep(mode, a, i, stack);
      ScanSamePrefix(mode, a, b, n, s.pos, s.stack);
    }
  }

  lemma SafeCutInSuffix(mode: ParseMode, text: string, k: nat, n: nat)
    requires k + n <= |text| && SafeCut(mode, text, k + n)
    ensures SafeCut(mode, text[k..], n)
  {
    hide Tokens;
    forall t | t in Tokens(mode) ensures !Straddled(text[k..], n, t) {
      StraddledInSuffix(text, k, n, t);
    }
  }

  lemma StraddledInSuffix(text: string, k: nat, n: nat, t: string)
    requires k <= |text|
    ensures Straddled(text[k..], n, t) ==> Straddled(text, k + n, t)
  {
    if Straddled(text[k..], n, t) {
      var o :| Straddles(text[k..], n, t, o);
      SuffixMatches(text, k, n - o);
      assert Straddles(text, k + n, t, o);
    }
  }

  /** Reading text[from..end] takes the stack `before` to `after` and stops at `end`. */
  predicate Reads(mode: ParseMode, text: string, from: nat, end: nat, before: seq<string>, after: seq<string>)
    requires end <= |text|
  {
    ScanFrom(mode, text, from, end, before) == Scanned(end, after)
  }

  lemma ReadsOn(mode: ParseMode, text: string, a: nat, b: nat, c: nat, s0: seq<string>, s1: seq<string>,
                s2: seq<string>)
    requires b <= c <= |text|
    requires Reads(mode, text, a, b, s0, s1) && Reads(mode, text, b, c, s1, s2)
    ensures Reads(mode, text, a, c, s0, s2)
  {
    ScanCompose(mode, text, a, b, c, s0);
  }

  lemma ReadsSuffix(mode: ParseMode, text: string, k: nat, n: nat, before: seq<string>, after: seq<string>)
    requires k + n <= |text|
    ensures Reads(mode, text, k, k + n, before, after) <==> Reads(mode, text[k..], 0, n, before, after)
  {
    hide ScanFrom;
    ScanSuffix(mode, text, k, 0, n, before);
  }

  /** The scanner reads the same n characters the same way in two different texts, as long
      as no token leaks over their end. */
  lemma SameSpanReads(mode: ParseMode, text: string, i: nat, other: string, j: nat, n: nat, before: seq<string>,
                      after: seq<string>)
    requires i + n <= |text| && j + n <= |other| && text[i..i + n] == other[j..j + n]
    requires SafeCut(mode, text, i + n) && SafeCut(mode, other, j + n)
    requires WellFormed(mode, before)
    requires Reads(mode, text, i, i + n, before, after)
    ensures Reads(mode, other, j, j + n, before, after)
  {
    var a, b := text[i..], other[j..];
    assert a[..n] == text[i..i + n] && b[..n] == other[j..j + n];
    SafeCutInSuffix(mode, text, i, n);
    SafeCutInSuffix(mode, other, j, n);
    assert SharePrefix(mode, a, b, n);
    ReadsSuffix(mode, text, i, n, before, after);
    ReadsSuffix(mode, other, j, n, before, after);
    hide SafeCut, WellFormed, ScanFrom, SharePrefix;
    ScanSamePrefix(mode, a, b, n, 0, before);
  }

  // ---------------------------------------------------------------------------------
  // Where a scan does not stop at its end
  // ---------------------------------------------------------------------------------

  /** The scan comes to q, and its step from there goes past p. */
  predicate StepsAcross(mode: ParseMode, text: string, i: nat, q: nat, p: nat, stack: seq<string>)
    requires p <= |text|
  {
    i <= q < p && var m := ScanFrom(mode, text, i, q, stack); m.pos == q && ScanStep(mode, text, q, m.stack).pos > p
  }

  /** What the scan reads at q is a backslash that escapes the character after it. */
  predicate EscapesAt(mode: ParseMode, text: string, i: nat, q: nat, stack: seq<string>)
    requires q < |text|
  {
    Escapes(text, q, ScanFrom(mode, text, i, q, stack).stack)
  }

  /** The last character before p is a backslash that escapes the one at p. */
  predicate EscapeAcross(mode: ParseMode, text: string, i: nat, p: nat, stack: seq<string>)
    requires p <= |text|
  {
    i < p && ScanFrom(mode, text, i, p - 1, stack).pos == p - 1 && EscapesAt(mode, text, i, p - 1, stack)
  }

  /** The scan reads a token that begins before p and ends behind it. */
  predicate TokenAcross(mode: ParseMode, text: string, i: nat, p: nat, stack: seq<string>)
    requires p <= |text|
  {
    exists q :: i <= q < p <= q + 2 && StepsAcross(mode, text, i, q, p, stack) && !EscapesAt(mode, text, i, q, stack)
  }

  /** A scan stops exactly at p unless an escape or a token it reads lies across p. */
  lemma AlignedIff(mode: ParseMode, text: string, i: nat, p: nat, stack: seq<string>)
    requires i <= p <= |text|
    ensures ScanFrom(mode, text, i, p, stack).pos == p
       <==> !EscapeAcross(mode, text, i, p, stack) && !TokenAcross(mode, text, i, p, stack)
  {
    hide *;
    ReachesEnd(mode, text, i, p, stack);
    if ScanFrom(mode, text, i, p, stack).pos > p {
      var q := LastStep(mode, text, i, p, stack);
      AcrossIs(mode, text, i, q, p, stack);
    }
    if EscapeAcross(mode, text, i, p, stack) {
      EscapeStepsAcross(mode, text, i, p, stack);
      AcrossOvershoots(mode, text, i, p - 1, p, stack);
    }
    if TokenAcross(mode, text, i, p, stack) {
      var q := TokenAt(mode, text, i, p, stack);
      AcrossOvershoots(mode, text, i, q, p, stack);
    }
  }

  lemma ReachesEnd(mode: ParseMode, text: string, i: nat, p: nat, stack: seq<string>)
    requires i <= p <= |text|
    ensures ScanFrom(mode, text, i, p, stack).pos >= p
  {
    hide ScanFrom;
  }

  /** The step that carries an overshooting scan past the end. */
  lemma {:induction false} LastStep(mode: ParseMode, text: string, i: nat, p: nat, stack: seq<string>) returns (q: nat)
    requires i <= p <= |text| && ScanFrom(mode, text, i, p, stack).pos > p
    ensures StepsAcross(mode, text, i, q, p, stack)
    decreases p - i
  {
    hide ScanStep;
    ScanUnfold(mode, text, i, p, stack);
    var s := ScanStep(mode, text, i, stack);
    if s.pos > p {
      q := i;
    } else {
      q := LastStep(mode, text, s.pos, p, s.stack);
      ScanUnfold(mode, text, i, q, stack);
    }
  }

  lemma AcrossOvershoots(mode: ParseMode, text: string, i: nat, q: nat, p: nat, stack: seq<string>)
    requires p <= |text| && StepsAcross(mode, text, i, q, p, stack)
    ensures ScanFrom(mode, text, i, p, stack).pos > p
  {
    hide ScanStep, ScanFrom;
    ScanCompose(mode, text, i, q, p, stack);
    ScanUnfold(mode, text, q, p, ScanFrom(mode, text, i, q, stack).stack);
  }

  lemma EscapeStepsAcross(mode: ParseMode, text: string, i: nat, p: nat, stack: seq<string>)
    requires p <= |text| && EscapeAcross(mode, text, i, p, stack)
    ensures i < p && StepsAcross(mode, text, i, p - 1, p, stack)
  {
    hide ScanStep, ScanFrom;
    StepReach(mode, text, p - 1, ScanFrom(mode, text, i, p - 1, stack).stack);
  }

  lemma TokenAt(mode: ParseMode, text: string, i: nat, p: nat, stack: seq<string>) returns (q: nat)
    requires p <= |text| && TokenAcross(mode, text, i, p, stack)
    ensures i <= q < p <= q + 2 && StepsAcross(mode, text, i, q, p, stack) && !EscapesAt(mode, text, i, q, stack)
  {
    hide StepsAcross, EscapesAt;
    q :| i <= q < p <= q + 2 && StepsAcross(mode, text, i, q, p, stack) && !EscapesAt(mode, text, i, q, stack);
  }

  /** Such a step reads an escape right before p or a token. */
  lemma AcrossIs(mode: ParseMode, text: string, i: nat, q: nat, p: nat, stack: seq<string>)
    requires p <= |text| && StepsAcross(mode, text, i, q, p, stack)
    ensures EscapeAcross(mode, text, i, p, stack) || TokenAcross(mode, text, i, p, stack)
  {
    hide ScanStep, ScanFrom;
    StepReach(mode, text, q, ScanFrom(mode, text, i, q, stack).stack);
  }

  /** An escape takes two characters, any other step at most three. */
  lemma StepReach(mode: ParseMode, text: string, i: nat, stack: seq<string>)
    requires i < |text|
    ensures Escapes(text, i, stack) ==> ScanStep(mode, text, i, stack).pos == i + 2
    ensures ScanStep(mode, text, i, stack).pos <= i + 3
  {
    hide StartsWithAt, IsToggle, Toggle;
    ShortTokens(mode);
    hide Tokens;
  }

  lemma ShortTokens(mode: ParseMode)
    ensures forall t :: t in Tokens(mode) ==> |t| <= 3
  {
  }

  /** A token the scan reads across p straddles p. */
  lemma TokenAcrossStraddles(mode: ParseMode, text: string, i: nat, p: nat, stack: seq<string>)
    requires p <= |text| && WellFormed(mode, stack) && TokenAcross(mode, text, i, p, stack)
    ensures !SafeCut(mode, text, p)
  {
    hide *;
    var q := TokenAt(mode, text, i, p, stack);
    ScanKeepsWellFormed(mode, text, i, q, stack);
    AcrossReads(mode, text, i, q, p, stack);
    StepReadsToken(mode, text, q, p, ScanFrom(mode, text, i, q, stack).stack);
  }

  lemma AcrossReads(mode: ParseMode, text: string, i: nat, q: nat, p: nat, stack: seq<string>)
    requires p <= |text| && StepsAcross(mode, text, i, q, p, stack) && !EscapesAt(mode, text, i, q, stack)
    ensures var m := ScanFrom(mode, text, i, q, stack);
            ScanStep(mode, text, q, m.stack).pos > p && !Escapes(text, q, m.stack)
  {
    hide ScanFrom, ScanStep, Escapes;
  }

  lemma StepReadsToken(mode: ParseMode, text: string, q: nat, p: nat, stack: seq<string>)
    requires q < p <= |text| && WellFormed(mode, stack) && !Escapes(text, q, stack)
    requires ScanStep(mode, text, q, stack).pos > p
    ensures !SafeCut(mode, text, p)
  {
    var t := if InCode(stack) then stack[|stack| - 1] else FirstToken(Tokens(mode), text, q);
    if InCode(stack) { ToggleIsToken(mode, t); }
    hide Tokens, IsToggle, Toggle, FirstToken;
    assert t in Tokens(mode) && Straddles(text, p, t, p - q);
    assert Straddled(text, p, t);
  }

  /** So at a cut that no token straddles only an escape is left. */
  lemma SafeCutIsAlignedIff(mode: ParseMode, text: string, i: nat, p: nat, stack: seq<string>)
    requires i <= p <= |text| && SafeCut(mode, text, p) && WellFormed(mode, stack)
    ensures ScanFrom(mode, text, i, p, stack).pos == p <==> !EscapeAcross(mode, text, i, p, stack)
  {
    hide *;
    AlignedIff(mode, text, i, p, stack);
    if TokenAcross(mode, text, i, p, stack) {
      TokenAcrossStraddles(mode, text, i, p, stack);
    }
  }
}
