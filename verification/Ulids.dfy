/**
 Monotonic ULIDs (`utils/id_generator.py`): a 48-bit timestamp and 80 random bits, written as
 26 digits in Crockford's base 32.  The clock and the random source are oracles; the clock may
 go backwards.
 */
module Ulids {

  const ENCODING: string := "0123456789ABCDEFGHJKMNPQRSTVWXYZ"
  const DIGITS := 26
  const RANDOM_LIMIT: nat := 0x1_00000_00000_00000_00000
  /** 26 digits hold 130 bits, so 50 are left for the timestamp. */
  const CLOCK_LIMIT: nat := 0x4_00_00000_00000

  // ---------------------------------------------------------------------------------
  // Digits
  // ---------------------------------------------------------------------------------

  /** The last n digits of a number. */
  function Encode(value: nat, n: nat): (s: string)
    ensures |s| == n
  {
    if n == 0 then "" else Encode(value / 32, n - 1) + [ENCODING[value % 32]]
  }

  function Pow32(n: nat): (p: nat)
    ensures p > 0
  {
    if n == 0 then 1 else 32 * Pow32(n - 1)
  }

  function DigitValue(c: char, from: nat): (d: nat)
    requires from <= 32
    ensures d <= 32 && (d < 32 ==> ENCODING[d] == c)
    decreases 32 - from
  {
    if from == 32 then 32 else if ENCODING[from] == c then from else DigitValue(c, from + 1)
  }

  function Decode(s: string): nat {
    if s == "" then 0 else 32 * Decode(s[..|s| - 1]) + DigitValue(s[|s| - 1], 0)
  }

  /** The order of strings of the same length. */
  predicate Before(s: string, t: string) {
    exists k :: 0 <= k < |s| && k < |t| && s[..k] == t[..k] && s[k] < t[k]
  }

  /** The digits are the decimal ones and the capital letters but four, in order. */
  lemma EncodingIs(c: char)
    ensures |ENCODING| == 32
    ensures c in ENCODING <==> ('0' <= c <= '9' || 'A' <= c <= 'Z') && c !in {'I', 'L', 'O', 'U'}
  {
    var digits, toH, toN, toT, toZ := "0123456789", "ABCDEFGH", "JKMN", "PQRST", "VWXYZ";
    assert ENCODING == digits + toH + toN + toT + toZ;
    assert c in digits <==> '0' <= c <= '9';
    assert c in toH <==> 'A' <= c <= 'H';
    assert c in toN <==> 'J' <= c <= 'N' && c != 'L';
    assert c in toT <==> 'P' <= c <= 'T';
    assert c in toZ <==> 'V' <= c <= 'Z';
  }

  lemma EncodingGrowsNext(i: nat)
    requires i < 31
    ensures ENCODING[i] < ENCODING[i + 1]
  {
  }

  lemma {:induction false} EncodingGrows(i: nat, j: nat)
    requires i < j < 32
    ensures ENCODING[i] < ENCODING[j]
    decreases j
  {
    EncodingGrowsNext(j - 1);
    if i < j - 1 { EncodingGrows(i, j - 1); }
  }

  lemma {:induction false} DigitValueIs(d: nat, from: nat)
    requires from <= d < 32
    ensures DigitValue(ENCODING[d], from) == d
    decreases 32 - from
  {
    if from < d {
      EncodingGrows(from, d);
      DigitValueIs(d, from + 1);
    }
  }

  lemma DivSmall(value: nat, p: nat)
    requires value < 32 * p
    ensures value / 32 < p
  {
  }

  lemma EncodeUnfolds(v: nat, n: nat)
    requires n > 0
    ensures Encode(v, n) == Encode(v / 32, n - 1) + [ENCODING[v % 32]]
  {
  }

  /** Decoding undoes encoding. */
  lemma {:induction false} RoundTrip(value: nat, n: nat)
    requires value < Pow32(n)
    ensures Decode(Encode(value, n)) == value
  {
    if n > 0 {
      DivSmall(value, Pow32(n - 1));
      hide Pow32, Encode, Decode;
      RoundTrip(value / 32, n - 1);
      DigitValueIs(value % 32, 0);
      EncodeUnfolds(value, n);
      DecodeLast(Encode(value / 32, n - 1), ENCODING[value % 32]);
    }
  }

  lemma DecodeLast(s: string, c: char)
    ensures Decode(s + [c]) == 32 * Decode(s) + DigitValue(c, 0)
  {
    hide DigitValue;
    assert (s + [c])[..|s|] == s;
  }

  /** Encoding preserves the order. */
  lemma {:induction false} EncodeGrows(v: nat, w: nat, n: nat)
    requires v < w < Pow32(n)
    ensures Before(Encode(v, n), Encode(w, n))
  {
    if n > 0 {
      EncodeUnfolds(v, n);
      EncodeUnfolds(w, n);
      if v / 32 < w / 32 {
        DivSmall(w, Pow32(n - 1));
        hide Before, Encode;
        EncodeGrows(v / 32, w / 32, n - 1);
        BeforeAppended(Encode(v / 32, n - 1), Encode(w / 32, n - 1), ENCODING[v % 32], ENCODING[w % 32]);
      } else {
        hide Pow32, Before, Encode;
        EncodingGrows(v % 32, w % 32);
        BeforeByLast(Encode(v / 32, n - 1), ENCODING[v % 32], ENCODING[w % 32]);
      }
    }
  }

  lemma BeforeAppended(s: string, t: string, c: char, d: char)
    requires Before(s, t) && |s| == |t|
    ensures Before(s + [c], t + [d])
  {
    var k :| 0 <= k < |s| && s[..k] == t[..k] && s[k] < t[k];
    assert (s + [c])[..k] == s[..k] && (t + [d])[..k] == t[..k];
  }

  lemma BeforeByLast(s: string, c: char, d: char)
    requires c < d
    ensures Before(s + [c], s + [d])
  {
    assert (s + [c])[..|s|] == (s + [d])[..|s|];
  }

  lemma SamePrefix(s: string, t: string, k: nat, m: nat)
    requires m < k <= |s| && k <= |t| && s[..k] == t[..k]
    ensures s[m] == t[m]
  {
    assert s[..k][m] == t[..k][m];
  }

  lemma BeforeIsStrict(s: string, t: string)
    requires Before(s, t)
    ensures s != t && !Before(t, s)
  {
    var k :| 0 <= k < |s| && k < |t| && s[..k] == t[..k] && s[k] < t[k];
    if Before(t, s) {
      var m :| 0 <= m < |t| && m < |s| && t[..m] == s[..m] && t[m] < s[m];
      if m < k {
        SamePrefix(s, t, k, m);
      } else if k < m {
        SamePrefix(s, t, m, k);
      }
    }
  }

  /** Strings compare as the numbers they encode. */
  lemma EncodeOrderIff(v: nat, w: nat, n: nat)
    requires v < Pow32(n) && w < Pow32(n)
    ensures Before(Encode(v, n), Encode(w, n)) <==> v < w
    ensures Encode(v, n) == Encode(w, n) <==> v == w
  {
    if v < w {
      EncodeGrows(v, w, n);
      BeforeIsStrict(Encode(v, n), Encode(w, n));
    } else if w < v {
      EncodeGrows(w, v, n);
      BeforeIsStrict(Encode(w, n), Encode(v, n));
    }
  }

  lemma Capacity()
    ensures Pow32(DIGITS) == CLOCK_LIMIT * RANDOM_LIMIT && DIGITS == 26
    ensures RANDOM_LIMIT == 1024 * 1024 * 1024 * 1024 * 1024 * 1024 * 1024 * 1024
  {
    assert Pow32(2) == 1024;
    assert Pow32(4) == 0x1_00000;
    assert Pow32(6) == 0x400_00000;
    assert Pow32(8) == 0x1_00000_00000;
    assert Pow32(10) == 0x400_00000_00000;
    assert Pow32(12) == 0x1_00000_00000_00000;
    assert Pow32(14) == 0x400_00000_00000_00000;
    assert Pow32(16) == 0x1_00000_00000_00000_00000;
    assert Pow32(18) == 0x400_00000_00000_00000_00000;
    assert Pow32(20) == 0x1_00000_00000_00000_00000_00000;
    assert Pow32(22) == 0x400_00000_00000_00000_00000_00000;
    assert Pow32(24) == 0x1_00000_00000_00000_00000_00000_00000;
    assert Pow32(26) == 0x400_00000_00000_00000_00000_00000_00000;
  }

  // ---------------------------------------------------------------------------------
  // The generator
  // ---------------------------------------------------------------------------------

  /** The 128-bit value. */
  function Value(timestamp: nat, random: nat): nat {
    timestamp * RANDOM_LIMIT + random
  }

  /** What the generator reads: the clock, reading by reading, and the random bits. */
  datatype Source = Source(clock: nat -> nat, random: nat)

  ghost predicate InRange(source: Source) {
    source.random < RANDOM_LIMIT && forall i: nat :: source.clock(i) < CLOCK_LIMIT
  }

  /** A clock that will at some time pass the last timestamp. */
  ghost predicate Advances(source: Source, timestamp: int) {
    exists i: nat :: source.clock(i) > timestamp
  }

  /** The first reading of the clock that is past the timestamp. */
  ghost predicate FirstPast(source: Source, timestamp: int, reading: int) {
    exists i: nat :: source.clock(i) == reading > timestamp && forall j: nat :: j < i ==> source.clock(j) <= timestamp
  }

  /** Each number is greater than those before it, and all can be encoded. */
  ghost predicate Growing(values: seq<nat>) {
    && (forall i, j :: 0 <= i < j < |values| ==> values[i] < values[j])
    && (forall i :: 0 <= i < |values| ==> values[i] < Pow32(DIGITS))
  }

  lemma GrowingAppend(values: seq<nat>, value: nat)
    requires Growing(values) && value < Pow32(DIGITS)
    requires values != [] ==> values[|values| - 1] < value
    ensures Growing(values + [value])
  {
    hide Pow32;
    var more := values + [value];
    forall i, j | 0 <= i < j < |more| ensures more[i] < more[j] {
      if j == |values| && i < |values| - 1 { assert values[i] < values[|values| - 1]; }
    }
  }

  class Generator {
    var lastTimestamp: int
    var lastRandom: nat
    /** The values handed out so far. */
    ghost var issued: seq<nat>

    ghost predicate Valid()
      reads this
    {
      && 0 <= lastTimestamp + 1 <= CLOCK_LIMIT && lastRandom < RANDOM_LIMIT && Growing(issued)
      && (if lastTimestamp < 0 then issued == []
          else issued != [] && issued[|issued| - 1] == Value(lastTimestamp, lastRandom))
    }

    constructor ()
      ensures Valid() && issued == [] && lastTimestamp == -1
    {
      lastTimestamp, lastRandom, issued := -1, 0, [];
    }

    /** `generate`.  It waits for the clock only when the random part overflows. */
    method Generate(source: Source) returns (id: string)
      requires Valid() && InRange(source)
      requires lastRandom + 1 == RANDOM_LIMIT ==> Advances(source, lastTimestamp)
      modifies this
      ensures Valid()
      ensures lastTimestamp >= 0 && issued == old(issued) + [Value(lastTimestamp, lastRandom)]
      ensures id == Encode(Value(lastTimestamp, lastRandom), DIGITS)
      ensures source.clock(0) > old(lastTimestamp) ==> lastTimestamp == source.clock(0) && lastRandom == source.random
      ensures source.clock(0) <= old(lastTimestamp) ==>
                if old(lastRandom) + 1 < RANDOM_LIMIT
                then lastTimestamp == old(lastTimestamp) && lastRandom == old(lastRandom) + 1
                else FirstPast(source, old(lastTimestamp), lastTimestamp) && lastRandom == source.random
    {
      hide Encode, Pow32, Value;
      var timestamp := source.clock(0);
      if timestamp > lastTimestamp {
        lastTimestamp, lastRandom := timestamp, source.random;
      } else {
        lastRandom := (lastRandom + 1) % RANDOM_LIMIT;
        if lastRandom == 0 {
          timestamp := WaitPast(source);
          lastTimestamp, lastRandom := timestamp, source.random;
        }
      }
      var value := Value(lastTimestamp, lastRandom);
      ValueGrows(old(lastTimestamp), old(lastRandom), lastTimestamp, lastRandom);
      GrowingAppend(issued, value);
      issued := issued + [value];
      id := Encode128Bit(value);
    }

    /** The waiting loop. */
    method WaitPast(source: Source) returns (timestamp: nat)
      requires InRange(source) && Advances(source, lastTimestamp)
      ensures lastTimestamp < timestamp < CLOCK_LIMIT && FirstPast(source, lastTimestamp, timestamp)
    {
      ghost var later: nat :| source.clock(later) > lastTimestamp;
      var i := 0;
      timestamp := source.clock(i);
      while timestamp <= lastTimestamp
        invariant i <= later && timestamp == source.clock(i)
        invariant forall j: nat :: j < i ==> source.clock(j) <= lastTimestamp
        decreases later - i
      {
        i := i + 1;
        timestamp := source.clock(i);
      }
    }

    /** `_encode_128bit`: the digits are collected last first. */
    method Encode128Bit(value: nat) returns (id: string)
      ensures id == Encode(value, DIGITS)
    {
      var chars, rest := [], value;
      for i := 0 to DIGITS
        invariant |chars| == i
        invariant Encode(rest, DIGITS - i) + Reversed(chars) == Encode(value, DIGITS)
      {
        ghost var tail := Reversed(chars);
        chars := chars + [ENCODING[rest % 32]];
        assert chars[..i] == chars[..|chars| - 1];
        assert Reversed(chars) == [ENCODING[rest % 32]] + tail;
        assert Encode(rest, DIGITS - i) + tail == Encode(rest / 32, DIGITS - i - 1) + ([ENCODING[rest % 32]] + tail);
        rest := rest / 32;
      }
      id := Reversed(chars);
    }
  }

  function Reversed(s: string): string {
    if s == "" then "" else [s[|s| - 1]] + Reversed(s[..|s| - 1])
  }

  /** A later timestamp outweighs any random part; so does the next random part. */
  lemma ValueGrows(timestamp: int, random: nat, timestamp': nat, random': nat)
    requires random < RANDOM_LIMIT && random' < RANDOM_LIMIT && timestamp' < CLOCK_LIMIT
    requires timestamp < timestamp' || (timestamp == timestamp' && random < random')
    ensures timestamp >= 0 ==> Value(timestamp, random) < Value(timestamp', random')
    ensures Value(timestamp', random') < Pow32(DIGITS)
  {
    Capacity();
  }

  /** Every identifier is greater, as a string, than all that were issued before it. */
  lemma IssuedStringsGrow(values: seq<nat>, i: nat, j: nat)
    requires Growing(values) && i < j < |values|
    ensures Before(Encode(values[i], DIGITS), Encode(values[j], DIGITS))
    ensures Encode(values[i], DIGITS) != Encode(values[j], DIGITS)
  {
    EncodeOrderIff(values[i], values[j], DIGITS);
  }

  /** Timestamp and random part can be read off the identifier. */
  lemma IdentifierDeterminesParts(timestamp: nat, random: nat)
    requires timestamp < CLOCK_LIMIT && random < RANDOM_LIMIT
    ensures var value := Decode(Encode(Value(timestamp, random), DIGITS));
            value / RANDOM_LIMIT == timestamp && value % RANDOM_LIMIT == random
  {
    Capacity();
    RoundTrip(Value(timestamp, random), DIGITS);
  }

  lemma PowUnfolds(n: nat)
    requires n > 0
    ensures Pow32(n) == 32 * Pow32(n - 1)
  {
  }

  lemma AddMultiple(value: nat, p: nat)
    ensures (value + 32 * p) / 32 == value / 32 + p && (value + 32 * p) % 32 == value % 32
  {
  }

  /** Beyond the limit the leading digits are cut off, and identifiers repeat. */
  lemma {:induction false} HighDigitsAreCutOff(value: nat, n: nat)
    ensures Encode(value + Pow32(n), n) == Encode(value, n)
  {
    hide *;
    if n > 0 {
      var p := Pow32(n - 1);
      PowUnfolds(n);
      EncodeUnfolds(value, n);
      EncodeUnfolds(value + 32 * p, n);
      AddMultiple(value, p);
      HighDigitsAreCutOff(value / 32, n - 1);
    }
  }
}
