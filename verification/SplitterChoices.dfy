/**
 What the single choices of the splitter mean, stated on positions of the text: where a
 boundary is, what the rollback moves to, and what merging leaves.
 */
module SplitterChoices {
  import opened PyText
  import opened MarkdownLexer
  import opened MessageSplitter

  // ---------------------------------------------------------------------------------
  // Boundaries
  // ---------------------------------------------------------------------------------

  /** Nowhere in [from, below) is this character. */
  predicate Without(text: string, c: char, from: int, below: int) {
    forall k :: 0 <= k < |text| && from <= k < below ==> text[k] != c
  }

  predicate EndAt(text: string, p: int, c: char) {
    0 <= p && p + 1 < |text| && text[p] == c && text[p + 1] == ' '
  }

  predicate SentenceEndAt(text: string, p: int) {
    EndAt(text, p, '.') || EndAt(text, p, '!') || EndAt(text, p, '?')
  }

  /** No sentence ends with its blank inside [from, below). */
  predicate NoSentence(text: string, from: int, below: int) {
    forall k :: from <= k && k + 2 <= below ==> !SentenceEndAt(text, k)
  }

  /** The cut after the last newline of the range, else after the last sentence, else after
      the last space; -1 if there is none of these. */
  predicate IsBestCut(text: string, from: int, below: int, b: int) {
    if !Without(text, '\n', from, below) then
      from < b <= below && 0 < b <= |text| && text[b - 1] == '\n' && Without(text, '\n', b, below)
    else if !NoSentence(text, from, below) then
      from + 2 <= b <= below && SentenceEndAt(text, b - 2) && NoSentence(text, b - 1, below)
    else if !Without(text, ' ', from, below) then
      from < b <= below && 0 < b <= |text| && text[b - 1] == ' ' && Without(text, ' ', b, below)
    else b == -1
  }

  lemma OneCharMatch(text: string, p: int, c: char)
    ensures StartsWithAt(text, p, [c]) <==> 0 <= p < |text| && text[p] == c
  {
    if 0 <= p < |text| {
      assert text[p..p + 1] == [text[p]];
    }
  }

  lemma TwoCharMatch(text: string, p: int, c: char, d: char)
    ensures StartsWithAt(text, p, [c, d]) <==> 0 <= p && p + 1 < |text| && text[p] == c && text[p + 1] == d
  {
    if 0 <= p && p + 1 < |text| {
      assert text[p..p + 2] == [text[p], text[p + 1]];
    }
  }

  /** A search for one character. */
  lemma RFindChar(text: string, c: char, from: nat, below: nat)
    requires from <= below <= |text|
    ensures var r := RFind(text, [c], from, below);
            && (r == -1 <==> Without(text, c, from, below))
            && (r != -1 ==> from <= r < below && text[r] == c && Without(text, c, r + 1, below))
  {
    forall k: int ensures StartsWithAt(text, k, [c]) <==> 0 <= k < |text| && text[k] == c {
      OneCharMatch(text, k, c);
    }
  }

  /** A search for the end of one kind of sentence. */
  lemma RFindEnd(text: string, c: char, from: nat, below: nat)
    requires from <= below <= |text|
    ensures var r := RFind(text, [c, ' '], from, below);
            && (r != -1 ==> from <= r && r + 2 <= below && EndAt(text, r, c))
            && (forall k :: from <= k && k + 2 <= below && EndAt(text, k, c) ==> k <= r)
  {
    forall k: int ensures StartsWithAt(text, k, [c, ' ']) <==> EndAt(text, k, c) {
      TwoCharMatch(text, k, c, ' ');
    }
  }

  /** The last sentence end is the last of the three kinds. */
  lemma LastSentence(text: string, from: nat, below: nat)
    requires from <= below <= |text|
    ensures var s := Max(RFind(text, ". ", from, below),
                         Max(RFind(text, "! ", from, below), RFind(text, "? ", from, below)));
            && (s == -1 <==> NoSentence(text, from, below))
            && (s != -1 ==> from <= s && s + 2 <= below && SentenceEndAt(text, s) && NoSentence(text, s + 1, below))
  {
    assert ". " == ['.', ' '] && "! " == ['!', ' '] && "? " == ['?', ' '];
    RFindEnd(text, '.', from, below);
    RFindEnd(text, '!', from, below);
    RFindEnd(text, '?', from, below);
    hide RFind, EndAt, StartsWithAt;
    var s := Max(RFind(text, ". ", from, below), Max(RFind(text, "! ", from, below), RFind(text, "? ", from, below)));
    assert s != -1 ==> SentenceEndAt(text, s);
  }

  /** The boundary found in a range is the best cut, and the only one. */
  lemma BoundaryFromIff(text: string, from: nat, below: nat, b: int)
    requires from <= below <= |text|
    ensures BoundaryFrom(text, from, below) == b <==> IsBestCut(text, from, below, b)
  {
    hide *;
    BoundaryIsBest(text, from, below);
    if IsBestCut(text, from, below, b) {
      BestCutIsUnique(text, from, below, b, BoundaryFrom(text, from, below));
    }
  }

  lemma BoundaryIsBest(text: string, from: nat, below: nat)
    requires from <= below <= |text|
    ensures IsBestCut(text, from, below, BoundaryFrom(text, from, below))
  {
    hide RFind, Without, NoSentence, SentenceEndAt;
    RFindChar(text, '\n', from, below);
    LastSentence(text, from, below);
    RFindChar(text, ' ', from, below);
  }

  lemma BestCutIsUnique(text: string, from: nat, below: nat, b: int, c: int)
    requires from <= below <= |text| && IsBestCut(text, from, below, b) && IsBestCut(text, from, below, c)
    ensures b == c
  {
  }

  /** A place is in a quotation exactly if the line it is in starts with the prefix. */
  lemma InBlockquoteIff(text: string, idx: nat, mode: ParseMode)
    requires idx <= |text|
    ensures InBlockquoteAt(text, idx, mode) <==>
              mode == MarkdownV2 && exists start: nat :: StartsLineOf(text, start, idx) && "> " <= text[start..]
  {
    RFindChar(text, '\n', 0, idx);
    var start := LineStart(text, idx);
    hide RFind;
    assert StartsLineOf(text, start, idx);
    forall other: nat | StartsLineOf(text, other, idx) ensures other == start {
    }
  }

  /** The line that idx is in starts there. */
  predicate StartsLineOf(text: string, start: nat, idx: nat) {
    start <= idx <= |text| && Without(text, '\n', start, idx) && (start == 0 || text[start - 1] == '\n')
  }

  /** The range has neither a newline nor a space. */
  predicate Blankless(text: string, from: int, below: int) {
    Without(text, '\n', from, below) && Without(text, ' ', from, below)
  }

  lemma NoBestCutIff(text: string, from: int, below: int)
    requires 0 <= from <= below <= |text|
    ensures IsBestCut(text, from, below, -1) <==> Blankless(text, from, below)
  {
    if !NoSentence(text, from, below) {
      var k :| from <= k && k + 2 <= below && SentenceEndAt(text, k);
      assert text[k + 1] == ' ';
    }
  }

  /** The boundary is the best cut of the last quarter if that has a blank at all, and of the
      whole range otherwise; the last quarter starts at three quarters, rounded down. */
  lemma BoundaryIff(text: string, limit: nat, quarter: nat, b: int)
    requires 4 * quarter <= 3 * Min(limit, |text|) < 4 * quarter + 4
    ensures var ceiling := Min(limit, |text|);
            var from := if Blankless(text, quarter, ceiling) then 0 else quarter;
            Boundary(text, limit) == b <==> IsBestCut(text, from, ceiling, b)
  {
    var ceiling := Min(limit, |text|);
    assert quarter == ThreeQuarters(ceiling);
    var near := BoundaryFrom(text, quarter, ceiling);
    BoundaryFromIff(text, quarter, ceiling, near);
    BoundaryFromIff(text, quarter, ceiling, b);
    BoundaryFromIff(text, 0, ceiling, b);
    NoBestCutIff(text, quarter, ceiling);
    BoundaryFromIff(text, quarter, ceiling, -1);
    hide BoundaryFrom, IsBestCut, Blankless, ThreeQuarters;
  }

  /** A text is split hard exactly if there is no blank within the search bound. */
  lemma HardSplitIff(text: string, limit: nat)
    ensures Boundary(text, limit) == -1 <==> Blankless(text, 0, Min(limit, |text|))
  {
    var quarter := ThreeQuarters(Min(limit, |text|));
    BoundaryIff(text, limit, quarter, -1);
    NoBestCutIff(text, 0, Min(limit, |text|));
    NoBestCutIff(text, quarter, Min(limit, |text|));
    hide Boundary, IsBestCut;
  }

  // ---------------------------------------------------------------------------------
  // The rollback
  // ---------------------------------------------------------------------------------

  /** p is the last '[' before the split, and its nearest ')' is at or past the split. */
  predicate OpensLinkAcross(text: string, split: int, p: int) {
    && 0 <= p < split <= |text| && text[p] == '['
    && Without(text, '[', p + 1, split) && Without(text, ')', p, split) && !Without(text, ')', split, |text|)
  }

  /** At a split that no token straddles the rollback moves to the link that lies across it,
      and nowhere else. */
  lemma RollbackToLinkIff(mode: ParseMode, text: string, split: nat, p: nat)
    requires split <= |text| && SafeCut(mode, text, split)
    ensures Rollback(mode, text, split) == p && p < split <==> OpensLinkAcross(text, split, p)
  {
    NoTokenRollback(mode, text, split);
    RFindChar(text, '[', 0, split);
    var bracket := RFind(text, "[", 0, split);
    hide SafeCut, TokenRollback, RFind, FindChar, StartsWithAt;
    if bracket != -1 {
      CloseIff(text, bracket, split);
      OnlyLastBracket(text, split, bracket, p);
    }
  }

  lemma CloseIff(text: string, from: nat, split: nat)
    requires from < split <= |text|
    ensures var close := FindChar(text, ')', from);
            close != -1 && split <= close <==> Without(text, ')', from, split) && !Without(text, ')', split, |text|)
  {
    hide FindChar;
  }

  lemma OnlyLastBracket(text: string, split: nat, bracket: nat, p: nat)
    requires bracket < split <= |text| && text[bracket] == '[' && Without(text, '[', bracket + 1, split)
    ensures OpensLinkAcross(text, split, p) <==> p == bracket && OpensLinkAcross(text, split, bracket)
  {
  }

  lemma NoTokenRollback(mode: ParseMode, text: string, split: nat)
    requires SafeCut(mode, text, split)
    ensures TokenRollback(Tokens(mode), text, split) == -1
  {
    hide Tokens;
  }

  /** At any other split it moves to the start of a token that lies across it. */
  lemma RollbackToToken(mode: ParseMode, text: string, split: nat)
    requires split <= |text| && !SafeCut(mode, text, split)
    ensures exists t :: t in Tokens(mode) && Rollback(mode, text, split) < split < Rollback(mode, text, split) + |t|
              && StartsWithAt(text, Rollback(mode, text, split), t)
  {
    hide Tokens;
    var r := TokenRollback(Tokens(mode), text, split);
    var t, o :| t in Tokens(mode) && Straddles(text, split, t, o) && r == split - o;
  }

  /** The plain fallback cuts at the last newline before the limit, and at the limit if there
      is none. */
  lemma PlainCutIff(text: string, max: nat, cut: nat)
    requires max < |text|
    ensures PlainCut(text, max) == cut <==>
            if Without(text, '\n', 0, max) then cut == max
            else cut < max && text[cut] == '\n' && Without(text, '\n', cut + 1, max)
  {
    RFindChar(text, '\n', 0, max);
    hide RFind;
  }

  // ---------------------------------------------------------------------------------
  // Merging
  // ---------------------------------------------------------------------------------

  /** From a to b the text is what is left without the whitespace at both ends. */
  ghost predicate StrippedAt(s: string, a: int, b: int) {
    && 0 <= a <= b <= |s| && (forall k :: 0 <= k < a || b <= k < |s| ==> IsSpace(s[k]))
    && (a < b ==> !IsSpace(s[a]) && !IsSpace(s[b - 1]))
  }

  lemma StripIs(s: string) returns (a: nat, b: nat)
    ensures StrippedAt(s, a, b) && Strip(s) == s[a..b]
  {
    hide IsSpace, LStrip, RStrip;
    var left := LStrip(s);
    a := |s| - |left|;
    b := a + |RStrip(left)|;
    assert forall k :: a <= k < |s| ==> s[k] == left[k - a];
  }

  lemma OneStripped(s: string, a: nat, b: nat, c: nat, d: nat)
    requires StrippedAt(s, a, b) && StrippedAt(s, c, d)
    ensures s[a..b] == s[c..d]
  {
    hide IsSpace;
    if a < b || c < d {
      assert a == c && b == d;
    }
  }

  /** Chunks are merged only if they are blank or one of these delimiters between blanks. */
  lemma DelimiterOnlyIff(c: string)
    ensures DelimiterOnly(c) <==>
              exists a, b :: StrippedAt(c, a, b) && c[a..b] in {"", "```", "`", "*", "_"}
  {
    var a, b := StripIs(c);
    forall x, y | StrippedAt(c, x, y) ensures c[x..y] == c[a..b] {
      OneStripped(c, x, y, a, b);
    }
    hide Strip, StrippedAt;
  }

  /** A message made of consecutive chunks: after the first, only delimiters, and as long as
      they fit. */
  predicate IsMerged(group: seq<string>, message: string, max: nat) {
    && group != [] && Join(group) == message
    && forall k :: 0 < k < |group| ==> DelimiterOnly(group[k]) && |Join(group[..k + 1])| <= max
  }

  /** The chunk could have been added to the message before it. */
  predicate Mergeable(message: string, chunk: string, max: nat) {
    DelimiterOnly(chunk) && |message| + |chunk| <= max
  }

  function Flatten(groups: seq<seq<string>>): seq<string> {
    if groups == [] then [] else Flatten(groups[..|groups| - 1]) + groups[|groups| - 1]
  }

  /** The messages are the chunks merged group by group, and no group begins with a chunk that
      could have been added to the one before. */
  ghost predicate Grouped(groups: seq<seq<string>>, messages: seq<string>, max: nat) {
    && |groups| == |messages| && (forall i :: 0 <= i < |groups| ==> groups[i] != [])
    && (forall i :: 0 <= i < |groups| ==> IsMerged(groups[i], messages[i], max))
    && (forall i :: 0 < i < |groups| ==> !Mergeable(messages[i - 1], groups[i][0], max))
  }

  lemma {:induction false} MergeGroupsFrom(groups: seq<seq<string>>, merged: seq<string>, rest: seq<string>, max: nat)
    returns (all: seq<seq<string>>)
    requires Grouped(groups, merged, max)
    ensures Grouped(all, MergeFrom(merged, rest, max), max) && Flatten(all) == Flatten(groups) + rest
    decreases |rest|
  {
    if rest == [] {
      all := groups;
      assert Flatten(groups) + rest == Flatten(groups);
    } else {
      var next, now := MergeOne(groups, merged, rest, max);
      all := MergeGroupsFrom(next, now, rest[1..], max);
      hide *;
      FlattenTurn(groups, rest);
    }
  }

  lemma FlattenTurn(groups: seq<seq<string>>, rest: seq<string>)
    requires rest != []
    ensures (Flatten(groups) + [rest[0]]) + rest[1..] == Flatten(groups) + rest
  {
    hide Flatten;
  }

  /** One chunk of the merge loop. */
  lemma MergeOne(groups: seq<seq<string>>, merged: seq<string>, rest: seq<string>, max: nat)
    returns (next: seq<seq<string>>, now: seq<string>)
    requires rest != [] && Grouped(groups, merged, max)
    ensures Grouped(next, now, max) && Flatten(next) == Flatten(groups) + [rest[0]]
    ensures MergeFrom(merged, rest, max) == MergeFrom(now, rest[1..], max)
  {
    hide *;
    var c, n := rest[0], |groups|;
    GroupedSizes(groups, merged, max);
    MergeTurn(merged, rest, max);
    if merged != [] && Mergeable(merged[n - 1], c, max) {
      next, now := groups[n - 1 := groups[n - 1] + [c]], merged[n - 1 := merged[n - 1] + c];
      GroupGrows(groups, merged, c, max);
    } else {
      next, now := groups + [[c]], merged + [c];
      GroupStarts(groups, merged, c, max);
    }
  }

  lemma GroupedSizes(groups: seq<seq<string>>, merged: seq<string>, max: nat)
    requires Grouped(groups, merged, max)
    ensures |groups| == |merged|
  {
    hide IsMerged, Mergeable;
  }

  lemma LastGroup(groups: seq<seq<string>>, merged: seq<string>, max: nat)
    requires Grouped(groups, merged, max) && merged != []
    ensures |groups| == |merged|
    ensures var n := |groups| - 1; groups[n] != [] && IsMerged(groups[n], merged[n], max)
  {
    hide IsMerged, Mergeable;
  }

  /** The first chunk joins the last message if it can, and starts a new one otherwise. */
  lemma MergeTurn(merged: seq<string>, rest: seq<string>, max: nat)
    requires rest != []
    ensures var c, n := rest[0], |merged|;
            MergeFrom(merged, rest, max)
            == if merged != [] && Mergeable(merged[n - 1], c, max)
               then MergeFrom(merged[n - 1 := merged[n - 1] + c], rest[1..], max)
               else MergeFrom(merged + [c], rest[1..], max)
  {
    hide DelimiterOnly;
    if merged != [] { assert |merged[|merged| - 1] + rest[0]| == |merged[|merged| - 1]| + |rest[0]|; }
  }

  lemma GroupGrows(groups: seq<seq<string>>, merged: seq<string>, c: string, max: nat)
    requires Grouped(groups, merged, max) && merged != []
    requires Mergeable(merged[|merged| - 1], c, max)
    ensures var n := |groups|;
            var next := groups[n - 1 := groups[n - 1] + [c]];
            Grouped(next, merged[n - 1 := merged[n - 1] + c], max) && Flatten(next) == Flatten(groups) + [c]
  {
    hide *;
    var n := |groups|;
    LastGroup(groups, merged, max);
    MergedGrows(groups[n - 1], merged[n - 1], c, max);
    FlattenGrows(groups, c);
    GroupedReplaced(groups, merged, groups[n - 1] + [c], merged[n - 1] + c, max);
  }

  /** The last group may be replaced by one that begins with the same chunk. */
  lemma GroupedReplaced(groups: seq<seq<string>>, merged: seq<string>, last: seq<string>, message: string, max: nat)
    requires Grouped(groups, merged, max) && groups != [] && groups[|groups| - 1] != []
    requires IsMerged(last, message, max) && last != [] && last[0] == groups[|groups| - 1][0]
    ensures Grouped(groups[|groups| - 1 := last], merged[|groups| - 1 := message], max)
  {
    hide IsMerged, Mergeable;
  }

  lemma FlattenGrows(groups: seq<seq<string>>, c: string)
    requires groups != []
    ensures Flatten(groups[|groups| - 1 := groups[|groups| - 1] + [c]]) == Flatten(groups) + [c]
  {
    var n := |groups|;
    var next := groups[n - 1 := groups[n - 1] + [c]];
    assert next[..n - 1] == groups[..n - 1];
    assert Flatten(groups[..n - 1]) + (groups[n - 1] + [c]) == (Flatten(groups[..n - 1]) + groups[n - 1]) + [c];
  }

  lemma MergedGrows(group: seq<string>, message: string, c: string, max: nat)
    requires IsMerged(group, message, max) && group != [] && Mergeable(message, c, max)
    ensures IsMerged(group + [c], message + c, max) && (group + [c])[0] == group[0]
  {
    hide DelimiterOnly;
    JoinAppend(group, [c]);
    assert Join([c]) == c + Join([]) == c;
    forall k | 0 < k < |group + [c]| ensures DelimiterOnly((group + [c])[k]) && |Join((group + [c])[..k + 1])| <= max {
      if k < |group| {
        assert (group + [c])[..k + 1] == group[..k + 1];
      } else {
        assert (group + [c])[..k + 1] == group + [c];
      }
    }
  }

  lemma GroupStarts(groups: seq<seq<string>>, merged: seq<string>, c: string, max: nat)
    requires Grouped(groups, merged, max)
    requires merged != [] ==> !Mergeable(merged[|merged| - 1], c, max)
    ensures Grouped(groups + [[c]], merged + [c], max) && Flatten(groups + [[c]]) == Flatten(groups) + [c]
  {
    hide *;
    OneIsMerged(c, max);
    GroupAdded(groups, merged, [c], c, max);
    FlattenAdded(groups, [c]);
  }

  lemma OneIsMerged(c: string, max: nat)
    ensures IsMerged([c], c, max)
  {
    assert Join([c]) == c + Join([]) == c;
  }

  lemma GroupAdded(groups: seq<seq<string>>, merged: seq<string>, last: seq<string>, message: string, max: nat)
    requires Grouped(groups, merged, max) && last != [] && IsMerged(last, message, max)
    requires merged != [] ==> !Mergeable(merged[|merged| - 1], last[0], max)
    ensures Grouped(groups + [last], merged + [message], max)
  {
    hide IsMerged, Mergeable;
  }

  lemma FlattenAdded(groups: seq<seq<string>>, last: seq<string>)
    ensures Flatten(groups + [last]) == Flatten(groups) + last
  {
    assert (groups + [last])[..|groups|] == groups;
  }

  /** Merging groups the chunks in order; within a group everything after the first chunk is a
      bare delimiter, and nothing that could still be merged is left. */
  lemma MergeGroups(chunks: seq<string>, max: nat) returns (groups: seq<seq<string>>)
    ensures Grouped(groups, MergeFrom([], chunks, max), max) && Flatten(groups) == chunks
  {
    groups := MergeGroupsFrom([], [], chunks, max);
    assert [] + chunks == chunks;
  }
}
