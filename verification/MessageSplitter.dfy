/**
 The Markdown-aware message splitter (`utils/text_processing.py`, `smart_split_message`
 and its helpers).

 The functions say what one turn of the loop does and what a whole run does; the methods
 are the loops of the source, proved equal to them.  A turn that cuts nothing off leaves
 the loop where it was, and `NeverReturns` is the outcome of such a run.
 */
module MessageSplitter {
  import opened PyText
  import opened MarkdownLexer

  const DELIMITER_BUFFER := 50

  // ---------------------------------------------------------------------------------
  // Helpers of the loop
  // ---------------------------------------------------------------------------------

  function Closers(stack: seq<string>): string {
    if stack == [] then ""
    else
      var top := stack[|stack| - 1];
      (if top == "[" then "]" else top) + Closers(stack[..|stack| - 1])
  }

  function Openers(stack: seq<string>): string {
    if stack == [] then ""
    else (if stack[0] == "[" then "" else stack[0]) + Openers(stack[1..])
  }

  function LineStart(text: string, idx: nat): nat {
    var nl := RFind(text, "\n", 0, idx);
    if nl == -1 then 0 else nl + 1
  }

  predicate InBlockquoteAt(text: string, idx: nat, mode: ParseMode) {
    mode == MarkdownV2 && idx <= |text| && "> " <= text[LineStart(text, Min(idx, |text|))..]
  }

  /** `int(n * 0.75)`, truncated toward zero. */
  function ThreeQuarters(n: int): (r: int)
    ensures n >= 0 ==> 4 * r <= 3 * n < 4 * r + 4
    ensures n < 0 ==> 4 * r - 4 < 3 * n <= 4 * r
  {
    if n >= 0 then 3 * n / 4 else -(3 * -n / 4)
  }

  function Max(a: int, b: int): int { if a >= b then a else b }

  /** The best cut between `start` and `ceiling`: after a newline, else after a sentence,
      else after a space; -1 when there is none. */
  function BoundaryFrom(text: string, start: int, ceiling: int): int {
    var newline := RFind(text, "\n", start, ceiling);
    if newline != -1 then newline + 1
    else
      var sentence := Max(RFind(text, ". ", start, ceiling),
                          Max(RFind(text, "! ", start, ceiling), RFind(text, "? ", start, ceiling)));
      if sentence != -1 then sentence + 2
      else
        var space := RFind(text, " ", start, ceiling);
        if space != -1 then space + 1 else -1
  }

  /** The boundary the search settles on: near the ceiling if possible, else anywhere. */
  function Boundary(text: string, effectiveLimit: int): int {
    var ceiling := Min(effectiveLimit, |text|);
    var near := BoundaryFrom(text, ThreeQuarters(ceiling), ceiling);
    if near != -1 then near else BoundaryFrom(text, 0, ceiling)
  }

  function SplitPoint(text: string, effectiveLimit: int, hardMax: nat): (split: int) {
    var b := Boundary(text, effectiveLimit);
    if b != -1 then b else Min(hardMax, |text|)
  }

  /** The smallest offset >= `offset` at which token t covers both sides of `split`, or -1. */
  function StraddleOffset(text: string, split: int, t: string, offset: nat): (r: int)
    requires offset >= 1
    ensures r == -1 || Straddles(text, split, t, r)
    ensures r == -1 ==> forall o :: offset <= o ==> !Straddles(text, split, t, o)
    ensures r == -1 && offset == 1 ==> !Straddled(text, split, t)
    decreases |t| - offset
  {
    if offset >= |t| then -1
    else if StartsWithAt(text, split - offset, t) then offset
    else StraddleOffset(text, split, t, offset + 1)
  }

  /** Where the token half of `_rollback_if_inside_atom` moves the cut, or -1. */
  function TokenRollback(tokens: seq<string>, text: string, split: int): (r: int)
    ensures r == -1 || exists t, o :: t in tokens && Straddles(text, split, t, o) && r == split - o
    ensures r == -1 ==> forall t :: t in tokens ==> !Straddled(text, split, t)
  {
    if tokens == [] then -1
    else
      var o := StraddleOffset(text, split, tokens[0], 1);
      if o != -1 then split - o else TokenRollback(tokens[1..], text, split)
  }

  /** `_rollback_if_inside_atom`. */
  function Rollback(mode: ParseMode, text: string, split: nat): (cut: nat)
    requires split <= |text|
    ensures cut <= split
  {
    var r := TokenRollback(Tokens(mode), text, split);
    if r != -1 then r
    else
      var bracket := RFind(text, "[", 0, split);
      if bracket != -1 then
        var close := FindChar(text, ')', bracket);
        if close != -1 && split <= close then bracket else split
      else split
  }

  function LeadingNewlines(s: string): (n: nat)
    ensures n <= |s| && (forall k :: 0 <= k < n ==> s[k] == '\n')
    ensures n < |s| ==> s[n] != '\n'
  {
    if s != "" && s[0] == '\n' then 1 + LeadingNewlines(s[1..]) else 0
  }

  function AssembleChunk(raw: string, openers: string, closers: string, inQuote: bool, mode: ParseMode): string {
    var n := LeadingNewlines(raw);
    var body := raw[n..];
    var quote := if inQuote && mode == MarkdownV2 && body != "" && body[0] != '>' then "> " else "";
    raw[..n] + quote + openers + body + closers
  }

  predicate DelimiterOnly(c: string) {
    Strip(c) in ["", "```", "`", "*", "_"]
  }

  /** `_merge_delimiter_only_chunks`: `merged` is what is already out, `rest` still to come. */
  function MergeFrom(merged: seq<string>, rest: seq<string>, maxLength: nat): seq<string>
    decreases |rest|
  {
    if rest == [] then merged
    else
      var c := rest[0];
      if DelimiterOnly(c) && merged != [] && |merged[|merged| - 1] + c| <= maxLength then
        MergeFrom(merged[|merged| - 1 := merged[|merged| - 1] + c], rest[1..], maxLength)
      else MergeFrom(merged + [c], rest[1..], maxLength)
  }

  // ---------------------------------------------------------------------------------
  // One turn, and a whole run
  // ---------------------------------------------------------------------------------

  /** The variables the loop carries from turn to turn. */
  datatype State = State(remaining: string, stack: seq<string>, openers: string, inQuote: bool)

  /** A stretch of the text and what is put around it. */
  datatype Piece = Piece(raw: string, openers: string, closers: string, inQuote: bool)

  datatype Outcome<T> = Returned(value: T) | NeverReturns

  /** What a run returns when `done` is already out and the rest of the run returns `o`. */
  function Prepended<T>(done: seq<T>, o: Outcome<seq<T>>): Outcome<seq<T>> {
    match o
    case Returned(v) => Returned(done + v)
    case NeverReturns => NeverReturns
  }

  function Start(text: string): State { State(text, [], "", false) }

  function CarryCost(mode: ParseMode, s: State): nat {
    |s.openers| + (if s.inQuote && mode == MarkdownV2 then 2 else 0)
  }

  /** The rest fits into one message: the run ends with this turn. */
  predicate IsLast(mode: ParseMode, max: nat, s: State) {
    |s.remaining| + CarryCost(mode, s) <= max
  }

  /** The turn cuts a piece off and the loop goes on. */
  predicate Cutting(mode: ParseMode, max: nat, s: State) {
    s.remaining != "" && !IsLast(mode, max, s)
  }

  function EffectiveLimit(mode: ParseMode, max: nat, s: State): int {
    max - CarryCost(mode, s) - DELIMITER_BUFFER
  }

  function RawCut(mode: ParseMode, max: nat, s: State): (r: nat)
    ensures r <= |s.remaining|
  {
    BoundaryWithin(s.remaining, EffectiveLimit(mode, max, s));
    SplitPoint(s.remaining, EffectiveLimit(mode, max, s), max)
  }

  function Cut(mode: ParseMode, max: nat, s: State): (r: nat)
    ensures r <= RawCut(mode, max, s) <= |s.remaining|
  {
    Rollback(mode, s.remaining, RawCut(mode, max, s))
  }

  function StackAfter(mode: ParseMode, max: nat, s: State): seq<string> {
    ScanFrom(mode, s.remaining, 0, Cut(mode, max, s), s.stack).stack
  }

  function CutPiece(mode: ParseMode, max: nat, s: State): Piece {
    Piece(s.remaining[..Cut(mode, max, s)], s.openers, Closers(StackAfter(mode, max, s)), s.inQuote)
  }

  function LastPiece(s: State): Piece { Piece(s.remaining, s.openers, "", s.inQuote) }

  function Render(mode: ParseMode, p: Piece): string {
    AssembleChunk(p.raw, p.openers, p.closers, p.inQuote, mode)
  }

  function Next(mode: ParseMode, max: nat, s: State): State {
    var rest := s.remaining[Cut(mode, max, s)..];
    var stack := StackAfter(mode, max, s);
    State(rest, stack, Openers(stack), InBlockquoteAt(rest, 0, mode))
  }

  /** All pieces of a run from state s, in order. */
  function Run(mode: ParseMode, max: nat, s: State): Outcome<seq<Piece>>
    decreases |s.remaining|
  {
    if s.remaining == "" then Returned([])
    else if IsLast(mode, max, s) then Returned([LastPiece(s)])
    else if Cut(mode, max, s) == 0 then NeverReturns
    else
      Prepended([CutPiece(mode, max, s)], Run(mode, max, Next(mode, max, s)))
  }

  function RenderAll(mode: ParseMode, ps: seq<Piece>): (cs: seq<string>)
    ensures |cs| == |ps| && forall k :: 0 <= k < |ps| ==> cs[k] == Render(mode, ps[k])
  {
    seq(|ps|, i requires 0 <= i < |ps| => Render(mode, ps[i]))
  }

  /** `_split_boundary_only`, from a given rest. */
  function PlainRun(remaining: string, max: nat): Outcome<seq<string>>
    decreases |remaining|
  {
    if remaining == "" then Returned([])
    else if |remaining| <= max then Returned([remaining])
    else
      var split := PlainCut(remaining, max);
      var rest := LStrip(remaining[split..]);
      if |rest| == |remaining| then NeverReturns
      else
        Prepended([remaining[..split]], PlainRun(rest, max))
  }

  function PlainCut(remaining: string, max: nat): (split: nat)
    requires max < |remaining|
    ensures split <= max
  {
    var nl := RFind(remaining, "\n", 0, max);
    if nl == -1 then max else nl
  }

  /** `smart_split_message`. */
  function SmartSplit(text: string, max: nat, mode: ParseMode): Outcome<seq<string>> {
    if text == "" then Returned([])
    else if |text| <= max then Returned([text])
    else if mode == Unconfigured then PlainRun(text, max)
    else
      match Run(mode, max, Start(text))
      case Returned(ps) => Returned(MergeFrom([], RenderAll(mode, ps), max))
      case NeverReturns => NeverReturns
  }

  /** One turn of the fallback's loop. */
  lemma PlainTurn(remaining: string, max: nat)
    requires max < |remaining|
    ensures var split := PlainCut(remaining, max);
            var rest := LStrip(remaining[split..]);
            PlainRun(remaining, max) == if |rest| == |remaining| then NeverReturns
                                        else Prepended([remaining[..split]], PlainRun(rest, max))
  {
  }

  lemma BoundaryFromWithin(text: string, start: int, ceiling: int)
    ensures var b := BoundaryFrom(text, start, ceiling);
            b == -1 || (1 <= b <= Min(SliceBound(ceiling, |text|), |text|) &&
                        (text[b - 1] == '\n' || text[b - 1] == ' '))
  {
    hide RFind;
    var newline := RFind(text, "\n", start, ceiling);
    var stop, call, ask := RFind(text, ". ", start, ceiling), RFind(text, "! ", start, ceiling),
        RFind(text, "? ", start, ceiling);
    var sentence := Max(stop, Max(call, ask));
    var space := RFind(text, " ", start, ceiling);
    if newline != -1 {
      assert text[newline..newline + 1] == "\n";
    } else if sentence != -1 {
      var two := text[sentence..sentence + 2];
      assert two == ". " || two == "! " || two == "? ";
      assert text[sentence + 1] == two[1] == ' ';
    } else if space != -1 {
      assert text[space..space + 1] == " ";
    }
  }

  /** A boundary cut lies inside the searched range, right after a blank. */
  lemma BoundaryWithin(text: string, effectiveLimit: int)
    ensures var b := Boundary(text, effectiveLimit);
            b == -1 || (1 <= b <= |text| && (text[b - 1] == '\n' || text[b - 1] == ' ') &&
                        (effectiveLimit >= 0 ==> b <= effectiveLimit))
  {
    hide BoundaryFrom, ThreeQuarters;
    var ceiling := Min(effectiveLimit, |text|);
    BoundaryFromWithin(text, ThreeQuarters(ceiling), ceiling);
    BoundaryFromWithin(text, 0, ceiling);
  }
}
