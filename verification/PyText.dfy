/**
 The few Python string operations the message splitter relies on, with Python's own
 index conventions: a negative bound counts from the end of the string, an end past the
 string is clipped, and a failed search yields -1.
 */
module PyText {

  /** `text.startswith(pat, at)` for a non-negative `at`. */
  predicate StartsWithAt(text: string, at: int, pat: string) {
    0 <= at && at + |pat| <= |text| && text[at..at + |pat|] == pat
  }

  lemma MatchShows(text: string, i: int, t: string)
    ensures StartsWithAt(text, i, t) && t != "" ==> i < |text| && text[i] == t[0]
  {
    if StartsWithAt(text, i, t) && t != "" {
      assert text[i..i + |t|][0] == text[i];
    }
  }

  function Min(a: int, b: int): int { if a <= b then a else b }

  /** A slice bound as Python reads it: negative bounds are taken from the end. */
  function SliceBound(i: int, n: nat): nat {
    if i >= 0 then i else if i + n >= 0 then i + n else 0
  }

  /** The greatest match of `pat` that starts in [lo, top], or -1. */
  function LastMatch(text: string, pat: string, lo: nat, top: int): (r: int)
    ensures r == -1 || (lo <= r <= top && StartsWithAt(text, r, pat))
    ensures forall k :: lo <= k <= top && StartsWithAt(text, k, pat) ==> k <= r
    decreases top + 1 - lo
  {
    if top < lo then -1
    else if StartsWithAt(text, top, pat) then top
    else LastMatch(text, pat, lo, top - 1)
  }

  /** `text.rfind(pat, lo, hi)`. */
  function RFind(text: string, pat: string, lo: int, hi: int): (r: int)
    ensures r == -1 || (0 <= r && r + |pat| <= Min(SliceBound(hi, |text|), |text|) && StartsWithAt(text, r, pat))
    ensures forall k | SliceBound(lo, |text|) <= k && k + |pat| <= Min(SliceBound(hi, |text|), |text|) ::
              StartsWithAt(text, k, pat) ==> k <= r
  {
    LastMatch(text, pat, SliceBound(lo, |text|), Min(SliceBound(hi, |text|), |text|) - |pat|)
  }

  /** `text.find(c, from)` for a single character. */
  function FindChar(text: string, c: char, from: nat): (r: int)
    ensures r == -1 || (from <= r < |text| && text[r] == c)
    ensures r == -1 ==> forall k :: from <= k < |text| ==> text[k] != c
    ensures r != -1 ==> forall k :: from <= k < r ==> text[k] != c
    decreases |text| - from
  {
    if from >= |text| then -1
    else if text[from] == c then from
    else FindChar(text, c, from + 1)
  }

  /** The characters `str.strip()` removes. */
  predicate IsSpace(c: char) {
    var n := c as int;
    9 <= n <= 13 || 28 <= n <= 32 || n == 0x85 || n == 0xA0 || n == 0x1680 || 0x2000 <= n <= 0x200A
    || n == 0x2028 || n == 0x2029 || n == 0x202F || n == 0x205F || n == 0x3000
  }

  /** The tabs and line ends, the four separators, the blank, and the wider and narrower
      blanks of Unicode. */
  lemma IsSpaceIff(c: char)
    ensures IsSpace(c) <==> c as int in {
              9, 10, 11, 12, 13, 28, 29, 30, 31, 32, 133, 160, 5760,
              8192, 8193, 8194, 8195, 8196, 8197, 8198, 8199, 8200, 8201, 8202,
              8232, 8233, 8239, 8287, 12288
            }
  {
  }

  predicate AllSpace(s: string) {
    forall k :: 0 <= k < |s| ==> IsSpace(s[k])
  }

  /** `s.lstrip()`: drops the longest leading run of whitespace. */
  function LStrip(s: string): (r: string)
    ensures |r| <= |s| && r == s[|s| - |r|..]
    ensures forall k :: 0 <= k < |s| - |r| ==> IsSpace(s[k])
    ensures r != "" ==> !IsSpace(r[0])
  {
    if s == "" || !IsSpace(s[0]) then s else LStrip(s[1..])
  }

  /** `s.rstrip()`. */
  function RStrip(s: string): (r: string)
    ensures r <= s
    ensures forall k :: |r| <= k < |s| ==> IsSpace(s[k])
    ensures r != "" ==> !IsSpace(r[|r| - 1])
  {
    if s == "" || !IsSpace(s[|s| - 1]) then s else RStrip(s[..|s| - 1])
  }

  function Strip(s: string): string { RStrip(LStrip(s)) }

  /** `''.join(parts)`. */
  function Join(parts: seq<string>): string {
    if parts == [] then "" else parts[0] + Join(parts[1..])
  }

  lemma {:induction false} JoinAppend(a: seq<string>, b: seq<string>)
    ensures Join(a + b) == Join(a) + Join(b)
  {
    if a == [] {
      assert a + b == b;
    } else {
      assert (a + b)[1..] == a[1..] + b;
      JoinAppend(a[1..], b);
    }
  }

  function Digit(d: nat): char
    requires d < 10
  {
    ('0' as int + d) as char
  }

  /** `str(n)`. */
  function Decimal(n: nat): (s: string)
    ensures |s| > 0 && forall i :: 0 <= i < |s| ==> '0' <= s[i] <= '9'
  {
    if n < 10 then [Digit(n)] else Decimal(n / 10) + [Digit(n % 10)]
  }

  /** The number a string of digits stands for. */
  function NumberOf(s: string): int {
    if s == "" then 0 else 10 * NumberOf(s[..|s| - 1]) + (s[|s| - 1] as int - '0' as int)
  }

  /** It stands for the number, and has no leading zero. */
  lemma {:induction false} DecimalReadsBack(n: nat)
    ensures NumberOf(Decimal(n)) == n
    ensures n > 0 ==> Decimal(n)[0] != '0'
  {
    assert NumberOf("") == 0;
    if n < 10 {
      assert Decimal(n)[..0] == "";
    } else {
      DecimalReadsBack(n / 10);
      var s := Decimal(n);
      assert s[..|s| - 1] == Decimal(n / 10) && s[0] == Decimal(n / 10)[0];
    }
  }

  lemma {:induction false} DecimalInjective(m: nat, n: nat)
    requires Decimal(m) == Decimal(n)
    ensures m == n
  {
    var s, t := Decimal(m), Decimal(n);
    assert s[|s| - 1] == Digit(m % 10) && t[|t| - 1] == Digit(n % 10);
    if m >= 10 && n >= 10 {
      assert s[..|s| - 1] == Decimal(m / 10) && t[..|t| - 1] == Decimal(n / 10);
      DecimalInjective(m / 10, n / 10);
    }
  }
}
