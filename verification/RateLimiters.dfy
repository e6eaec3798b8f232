/**
 The two sliding-window rate limiters.  Timestamps are reals: rounding is not modelled.
 Every clock reading is a parameter; the ghost history holds all reservations ever made.
 */
module SlidingWindow {

  /** Each reservation comes at least `period` after the one `rate` places before it. */
  predicate Spaced(history: seq<real>, rate: nat, period: real) {
    forall k :: rate <= k < |history| ==> history[k] >= history[k - rate] + period
  }

  /** `recent` is what is left of the history after dropping entries older than a period. */
  predicate IsPrunedTail(recent: seq<real>, history: seq<real>, period: real, now: real) {
    && |recent| <= |history| && recent == history[|history| - |recent|..]
    && forall k :: 0 <= k < |history| - |recent| ==> history[k] + period < now
  }

  /** The reservations that fall into the half-open window of one period from `start`. */
  function InWindow(history: seq<real>, start: real, period: real): set<nat> {
    set k: nat | k < |history| && start <= history[k] < start + period
  }

  /** The pruning loop: drop leading entries older than a period. */
  method Prune(recent: seq<real>, now: real, period: real) returns (kept: seq<real>)
    ensures |kept| <= |recent| && kept == recent[|recent| - |kept|..]
    ensures forall k :: 0 <= k < |recent| - |kept| ==> recent[k] + period < now
    ensures kept != [] ==> kept[0] >= now - period
  {
    kept := recent;
    while kept != [] && kept[0] < now - period
      invariant |kept| <= |recent| && kept == recent[|recent| - |kept|..]
      invariant forall k :: 0 <= k < |recent| - |kept| ==> recent[k] + period < now
    {
      assert kept[0] == recent[|recent| - |kept|];
      kept := kept[1..];
    }
  }

  lemma PruneKeepsTail(kept: seq<real>, recent: seq<real>, history: seq<real>, period: real, before: real, now: real)
    requires IsPrunedTail(recent, history, period, before) && before <= now
    requires |kept| <= |recent| && kept == recent[|recent| - |kept|..]
    requires forall k :: 0 <= k < |recent| - |kept| ==> recent[k] + period < now
    ensures IsPrunedTail(kept, history, period, now)
  {
    var d := |history| - |recent|;
    forall k | 0 <= k < |history| - |kept| ensures history[k] + period < now {
      if k >= d {
        assert history[k] == recent[k - d];
      }
    }
  }

  /** A reservation that respects the entry `rate` places back, if that entry is still
      remembered, respects it in the whole history: a forgotten entry is too old to matter. */
  lemma ReserveKeepsSpacing(recent: seq<real>, history: seq<real>, rate: nat, period: real, now: real, target: real)
    requires rate >= 1 && Spaced(history, rate, period) && IsPrunedTail(recent, history, period, now)
    requires now <= target && (|recent| >= rate ==> target >= recent[|recent| - rate] + period)
    ensures Spaced(history + [target], rate, period)
    ensures IsPrunedTail(recent + [target], history + [target], period, now)
  {
    var n := |history|;
    if n >= rate {
      if |recent| >= rate {
        assert recent[|recent| - rate] == history[n - rate];
      } else {
        assert history[n - rate] + period < now;
      }
    }
  }

  // ---------------------------------------------------------------------------------
  // The window bound, by pigeonhole over the residues modulo the rate
  // ---------------------------------------------------------------------------------

  lemma {:induction false} SameResidueIsLater(history: seq<real>, rate: nat, period: real, i: nat, j: nat)
    requires rate >= 1 && period >= 0.0 && Spaced(history, rate, period)
    requires i < j < |history| && i % rate == j % rate
    ensures history[j] >= history[i] + period
    decreases j
  {
    StepBack(i, j, rate);
    assert history[j] >= history[j - rate] + period;
    if j - rate > i {
      SameResidueIsLater(history, rate, period, i, j - rate);
    }
  }

  lemma StepBack(i: nat, j: nat, rate: nat)
    requires rate >= 1 && i < j && i % rate == j % rate
    ensures i <= j - rate && (j - rate) % rate == i % rate
  {
    var qi, qj, r := i / rate, j / rate, i % rate;
    assert i == qi * rate + r && j == qj * rate + r;
    assert (qj - qi) * rate == j - i;
    Multiples(qj - qi, rate);
    assert j - rate == (qj - 1) * rate + r;
    QuotientAndRemainder(j - rate, qj - 1, r, rate);
  }

  lemma Multiples(d: int, rate: nat)
    requires rate >= 1
    ensures d >= 1 ==> d * rate >= rate
    ensures d <= -1 ==> d * rate + rate <= 0
    ensures d == 0 ==> d * rate == 0
  {
    assert d >= 1 ==> (d - 1) * rate >= 0;
    assert d <= -1 ==> (-1 - d) * rate >= 0;
  }

  lemma QuotientAndRemainder(x: int, q: int, r: nat, rate: nat)
    requires r < rate && x == q * rate + r
    ensures x % rate == r
  {
    var d := x / rate - q;
    assert x == (x / rate) * rate + x % rate;
    assert d * rate == r - x % rate;
    Multiples(d, rate);
  }

  function Below(n: nat): (s: set<nat>)
    ensures |s| == n && forall k: nat :: k in s <==> k < n
  {
    if n == 0 then {}
    else
      var smaller := Below(n - 1);
      assert n - 1 !in smaller;
      smaller + {n - 1}
  }

  /** A set whose members have different residues is no larger than the modulus. */
  lemma {:induction false} DifferentResidues(s: set<nat>, residues: set<nat>, rate: nat)
    requires rate >= 1
    requires forall i :: i in s ==> i % rate in residues
    requires forall i, j :: i in s && j in s && i != j ==> i % rate != j % rate
    ensures |s| <= |residues|
    decreases |s|
  {
    if s != {} {
      var i :| i in s;
      DifferentResidues(s - {i}, residues - {i % rate}, rate);
    }
  }

  /** No half-open window of one period holds more than `rate` reservations, whatever the
      order of the reservation times. */
  lemma WindowBound(history: seq<real>, rate: nat, period: real, start: real)
    requires rate >= 1 && period >= 0.0 && Spaced(history, rate, period)
    ensures |InWindow(history, start, period)| <= rate
  {
    var s := InWindow(history, start, period);
    forall i, j | i in s && j in s && i != j ensures i % rate != j % rate {
      if i % rate == j % rate {
        SameResidueIsLater(history, rate, period, if i < j then i else j, if i < j then j else i);
      }
    }
    DifferentResidues(s, Below(rate), rate);
  }
}

/** `utils/telegram/rate_limiter.py`. */
module TelegramRateLimiter {
  import opened SlidingWindow

  function Max(a: real, b: real): real { if a >= b then a else b }

  /** The earliest time from `floor` on that leaves room in the window of a history. */
  function WindowFloor(history: seq<real>, rate: nat, period: real, floor: real): (t: real)
    requires rate >= 1
    ensures floor <= t
  {
    if |history| >= rate then Max(floor, history[|history| - rate] + period) else floor
  }

  /** What a limiter that never forgets a reservation would answer. */
  function UnprunedTarget(overall: seq<real>, overallMax: nat, overallPeriod: real,
                          group: seq<real>, groupMax: nat, groupPeriod: real,
                          isGroup: bool, frozen: real, now: real): real
    requires overallMax >= 1 && groupMax >= 1
  {
    var byOverall := WindowFloor(overall, overallMax, overallPeriod, now);
    var byChat := if isGroup then WindowFloor(group, groupMax, groupPeriod, byOverall)
                  else WindowFloor(overall, 1, 1.0, byOverall);
    Max(byChat, frozen)
  }

  /** Every reservation is older than the period, so all are forgotten, but the last of them
      is not yet a second before the slot. */
  predicate ForgetsTooSoon(overall: seq<real>, period: real, frozen: real, now: real) {
    && overall != [] && (forall k :: 0 <= k < |overall| ==> overall[k] + period < now)
    && overall[|overall| - 1] + 1.0 > Max(now, frozen)
  }

  /** With a period of a second or more this never happens. */
  lemma LongPeriodsForgetInTime(overall: seq<real>, period: real, frozen: real, now: real)
    requires period >= 1.0
    ensures !ForgetsTooSoon(overall, period, frozen, now)
  {
  }

  /** The slot a limiter that forgets reservations after a period gives. */
  function Slot(overall: seq<real>, overallMax: nat, overallPeriod: real,
                group: seq<real>, groupMax: nat, groupPeriod: real,
                isGroup: bool, frozen: real, now: real): real
    requires overallMax >= 1 && groupMax >= 1
  {
    if !isGroup && ForgetsTooSoon(overall, overallPeriod, frozen, now) then Max(now, frozen)
    else UnprunedTarget(overall, overallMax, overallPeriod, group, groupMax, groupPeriod, isGroup, frozen, now)
  }

  /** It is the slot of a limiter that never forgets, except exactly when a private chat's
      last reservation is forgotten too soon; then it is earlier. */
  lemma ForgettingMattersIff(overall: seq<real>, overallMax: nat, overallPeriod: real, group: seq<real>, groupMax: nat,
                             groupPeriod: real, isGroup: bool, frozen: real, now: real)
    requires overallMax >= 1 && groupMax >= 1
    ensures var unpruned := UnprunedTarget(overall, overallMax, overallPeriod, group, groupMax, groupPeriod, isGroup,
                                           frozen, now);
            var slot := Slot(overall, overallMax, overallPeriod, group, groupMax, groupPeriod, isGroup, frozen, now);
            slot <= unpruned && (slot < unpruned <==> !isGroup && ForgetsTooSoon(overall, overallPeriod, frozen, now))
  {
  }

  /** Once everything is forgotten the window leaves any slot from now on. */
  lemma NothingRemembered(kept: seq<real>, overall: seq<real>, overallMax: nat, overallPeriod: real, frozen: real,
                          now: real)
    requires overallMax >= 1 && IsPrunedTail(kept, overall, overallPeriod, now)
    requires kept != [] ==> kept[0] + overallPeriod >= now
    ensures kept == [] ==> WindowFloor(overall, overallMax, overallPeriod, now) == now
    ensures kept == [] && !ForgetsTooSoon(overall, overallPeriod, frozen, now)
            ==> Max(WindowFloor(overall, 1, 1.0, now), frozen) == Max(now, frozen)
    ensures kept != [] ==> !ForgetsTooSoon(overall, overallPeriod, frozen, now)
  {
    if kept != [] {
      assert kept[0] == overall[|overall| - |kept|];
    }
  }

  ghost predicate GroupsValid(groups: map<string, seq<real>>, histories: map<string, seq<real>>, rate: nat,
                              period: real, clock: real) {
    && groups.Keys == histories.Keys
    && forall chat :: chat in groups ==> GroupValid(groups[chat], histories[chat], rate, period, clock)
  }

  ghost predicate GroupValid(recent: seq<real>, history: seq<real>, rate: nat, period: real, clock: real) {
    Spaced(history, rate, period) && IsPrunedTail(recent, history, period, clock)
  }

  lemma GroupsLater(groups: map<string, seq<real>>, histories: map<string, seq<real>>, rate: nat, period: real,
                    before: real, now: real)
    requires GroupsValid(groups, histories, rate, period, before) && before <= now
    ensures GroupsValid(groups, histories, rate, period, now)
  {
    forall chat | chat in groups ensures GroupValid(groups[chat], histories[chat], rate, period, now) {
      assert GroupValid(groups[chat], histories[chat], rate, period, before);
    }
  }

  lemma GroupsReplaced(groups: map<string, seq<real>>, histories: map<string, seq<real>>, rate: nat, period: real,
                       now: real,
                       chat: string, recent: seq<real>, history: seq<real>)
    requires GroupsValid(groups, histories, rate, period, now)
    requires Spaced(history, rate, period) && IsPrunedTail(recent, history, period, now)
    ensures GroupsValid(groups[chat := recent], histories[chat := history], rate, period, now)
  {
    assert GroupValid(recent, history, rate, period, now);
    hide GroupValid;
  }

  class SlidingWindowRateLimiter {
    const overallMax: nat
    const overallPeriod: real
    const groupMax: nat
    const groupPeriod: real
    var overall: seq<real>
    var groups: map<string, seq<real>>
    var frozenUntil: real
    ghost var clock: real
    ghost var history: seq<real>
    ghost var groupHistory: map<string, seq<real>>

    ghost function GroupHistory(chat: string): seq<real>
      reads this
    {
      if chat in groupHistory then groupHistory[chat] else []
    }

    ghost predicate Valid()
      reads this
    {
      && overallMax >= 1 && groupMax >= 1
      && Spaced(history, overallMax, overallPeriod) && IsPrunedTail(overall, history, overallPeriod, clock)
      && GroupsValid(groups, groupHistory, groupMax, groupPeriod, clock)
    }

    constructor (overallMax: nat, overallPeriod: real, groupMax: nat, groupPeriod: real)
      requires overallMax >= 1 && groupMax >= 1
      ensures Valid() && history == [] && groupHistory == map[] && frozenUntil == 0.0
    {
      this.overallMax, this.overallPeriod := overallMax, overallPeriod;
      this.groupMax, this.groupPeriod := groupMax, groupPeriod;
      overall, groups, frozenUntil := [], map[], 0.0;
      clock, history, groupHistory := 0.0, [], map[];
    }

    /** Reserves the next send slot for a chat and returns it. */
    method WaitAndBlock(now: real, chat: string, isGroup: bool) returns (target: real)
      requires Valid() && clock <= now
      modifies this
      ensures Valid() && clock == now && frozenUntil == old(frozenUntil)
      ensures now <= target && frozenUntil <= target
      ensures history == old(history) + [target]
      ensures groupHistory == if isGroup
                              then old(groupHistory)[chat := old(GroupHistory(chat)) + [target]]
                              else old(groupHistory)
      ensures target == Slot(old(history), overallMax, overallPeriod, old(GroupHistory(chat)), groupMax, groupPeriod,
                             isGroup, frozenUntil, now)
    {
      ghost var h := history;
      assert Spaced(h, overallMax, overallPeriod) && IsPrunedTail(overall, h, overallPeriod, clock);
      hide Spaced, IsPrunedTail, GroupsValid, Slot;
      var kept := PruneTail(overall, h, now, overallPeriod, clock);
      target := ChooseTarget(kept, h, now, chat, isGroup);
      ReserveKeepsSpacing(kept, h, overallMax, overallPeriod, now, target);
      overall := kept + [target];
      history := h + [target];
      clock := now;
    }

    /** Computes the slot and, for a group, records it in the group's deque. */
    method ChooseTarget(kept: seq<real>, ghost h: seq<real>, now: real, chat: string,
                        isGroup: bool) returns (target: real)
      requires overallMax >= 1 && groupMax >= 1 && clock <= now
      requires IsPrunedTail(kept, h, overallPeriod, now) && (kept != [] ==> kept[0] + overallPeriod >= now)
      requires GroupsValid(groups, groupHistory, groupMax, groupPeriod, clock)
      modifies this`groups, this`groupHistory
      ensures now <= target && frozenUntil <= target
      ensures |kept| >= overallMax ==> target >= kept[|kept| - overallMax] + overallPeriod
      ensures groupHistory == if isGroup
                              then old(groupHistory)[chat := old(GroupHistory(chat)) + [target]]
                              else old(groupHistory)
      ensures GroupsValid(groups, groupHistory, groupMax, groupPeriod, now)
      ensures target == Slot(h, overallMax, overallPeriod, old(GroupHistory(chat)), groupMax, groupPeriod,
                             isGroup, frozenUntil, now)
    {
      hide Spaced, IsPrunedTail, GroupsValid, ForgetsTooSoon;
      NothingRemembered(kept, h, overallMax, overallPeriod, frozenUntil, now);
      var byOverall := RaiseToWindow(kept, h, overallMax, overallPeriod, now, now);
      if isGroup {
        target := ReserveInGroup(now, chat, byOverall);
      } else {
        GroupsLater(groups, groupHistory, groupMax, groupPeriod, clock, now);
        target := ReservePrivate(kept, h, now, byOverall);
      }
    }

    /** The private chat's part: one second after the last remembered reservation. */
    method ReservePrivate(kept: seq<real>, ghost h: seq<real>, ghost now: real, floor: real) returns (target: real)
      requires IsPrunedTail(kept, h, overallPeriod, now) && now <= floor
      ensures floor <= target && frozenUntil <= target
      ensures target == Max(if kept == [] then floor else WindowFloor(h, 1, 1.0, floor), frozenUntil)
    {
      target := floor;
      if |kept| > 0 {
        target := Max(target, kept[|kept| - 1] + 1.0);
        LastRemembered(kept, h, overallPeriod, now, floor);
      }
      if frozenUntil > target { target := frozenUntil; }
    }

    /** The group's part of a reservation: prune its deque, raise the target to its window
        and the freeze, and record it. */
    method ReserveInGroup(now: real, chat: string, floor: real) returns (target: real)
      requires groupMax >= 1 && now <= floor && clock <= now
      requires GroupsValid(groups, groupHistory, groupMax, groupPeriod, clock)
      modifies this`groups, this`groupHistory
      ensures target == Max(WindowFloor(old(GroupHistory(chat)), groupMax, groupPeriod, floor), frozenUntil)
      ensures groupHistory == old(groupHistory)[chat := old(GroupHistory(chat)) + [target]]
      ensures GroupsValid(groups, groupHistory, groupMax, groupPeriod, now)
    {
      ghost var g := GroupHistory(chat);
      assert chat in groups ==> GroupValid(groups[chat], g, groupMax, groupPeriod, clock);
      var recent := [];
      if chat in groups {
        recent := PruneTail(groups[chat], g, now, groupPeriod, clock);
      }
      target := RaiseToWindow(recent, g, groupMax, groupPeriod, now, floor);
      if frozenUntil > target { target := frozenUntil; }
      ReserveKeepsSpacing(recent, g, groupMax, groupPeriod, now, target);
      GroupsLater(groups, groupHistory, groupMax, groupPeriod, clock, now);
      GroupsReplaced(groups, groupHistory, groupMax, groupPeriod, now, chat, recent + [target], g + [target]);
      groups := groups[chat := recent + [target]];
      groupHistory := groupHistory[chat := g + [target]];
    }

    /** A 429 answer freezes every chat; a later, shorter one replaces an earlier freeze. */
    method RecordRetryAfter(now: real, retryAfter: real)
      requires Valid() && clock <= now
      modifies this`frozenUntil, this`clock
      ensures Valid() && frozenUntil == now + retryAfter + 0.1
    {
      GroupsLater(groups, groupHistory, groupMax, groupPeriod, clock, now);
      frozenUntil := now + retryAfter + 0.1;
      clock := now;
    }

    /** Over any run: no window of a period holds more than the configured number of
        reservations, neither over all chats nor within one group. */
    lemma RunBound(start: real, chat: string)
      requires Valid() && overallPeriod >= 0.0 && groupPeriod >= 0.0
      ensures |InWindow(history, start, overallPeriod)| <= overallMax
      ensures |InWindow(GroupHistory(chat), start, groupPeriod)| <= groupMax
    {
      WindowBound(history, overallMax, overallPeriod, start);
      WindowBound(GroupHistory(chat), groupMax, groupPeriod, start);
    }
  }

  /** Pruning a deque leaves a pruned tail of its history. */
  method PruneTail(recent: seq<real>, ghost history: seq<real>, now: real, period: real,
                   ghost before: real) returns (kept: seq<real>)
    requires IsPrunedTail(recent, history, period, before) && before <= now
    ensures IsPrunedTail(kept, history, period, now) && (kept != [] ==> kept[0] + period >= now)
  {
    kept := Prune(recent, now, period);
    PruneKeepsTail(kept, recent, history, period, before, now);
  }

  /** Raises a target to the window of the remembered tail, which is the window of the
      whole history: what was forgotten is too old to matter. */
  method RaiseToWindow(recent: seq<real>, ghost history: seq<real>, rate: nat, period: real, ghost now: real,
                       floor: real) returns (target: real)
    requires rate >= 1 && IsPrunedTail(recent, history, period, now) && now <= floor
    ensures target == WindowFloor(history, rate, period, floor)
    ensures |recent| >= rate ==> target >= recent[|recent| - rate] + period
  {
    target := floor;
    if |recent| >= rate {
      target := Max(target, recent[|recent| - rate] + period);
      assert recent[|recent| - rate] == history[|history| - rate];
    }
  }

  /** The one-second floor of a private chat, from the remembered tail. */
  lemma LastRemembered(recent: seq<real>, history: seq<real>, period: real, now: real, floor: real)
    requires IsPrunedTail(recent, history, period, now) && now <= floor
    requires recent != []
    ensures WindowFloor(history, 1, 1.0, floor) == Max(floor, recent[|recent| - 1] + 1.0)
  {
    if |recent| > 0 {
      assert recent[|recent| - 1] == history[|history| - 1];
    }
  }
}

/** `utils/edgar_rate_limiter.py`. */
module EdgarRateLimiter {
  import opened SlidingWindow

  const RATE: nat := 8
  const PERIOD := 1.0

  predicate Sorted(history: seq<real>) {
    forall i, j :: 0 <= i < j < |history| ==> history[i] <= history[j]
  }

  /** The deque is the unforgotten end of a history recorded by a clock that does not go back. */
  ghost predicate Tracks(stamps: seq<real>, history: seq<real>) {
    && Sorted(history) && |stamps| <= |history|
    && (history != [] ==> IsPrunedTail(stamps, history, PERIOD, history[|history| - 1]))
  }

  /** The clock has not gone back behind the last stamp. */
  predicate NotBefore(history: seq<real>, now: real) {
    history != [] ==> history[|history| - 1] <= now
  }

  /** More entries than the rate are unforgotten, so that the sleep, which looks at the oldest
      of them, is not enough for the one `RATE` places back. */
  predicate Crowded(stamps: seq<real>, now: real, later: real) {
    var kept := DropOld(stamps, now);
    |kept| > RATE && later < kept[|kept| - RATE] + PERIOD
  }

  /** A call keeps the spacing of the history exactly if it is not crowded. */
  lemma StepKeepsSpacingIff(stamps: seq<real>, history: seq<real>, now: real, later: real)
    requires Tracks(stamps, history) && NotBefore(history, now) && now <= later && SleptEnough(stamps, now, later)
    ensures Tracks(NextStamps(stamps, now, later), history + [later])
    ensures Spaced(history + [later], RATE, PERIOD) <==> Spaced(history, RATE, PERIOD) && !Crowded(stamps, now, later)
  {
    KeptTail(stamps, history, now);
    SpacedMoreIff(history, later);
    EightBackIff(stamps, history, now, later);
    TracksMore(DropOld(stamps, now), history, now, later);
    hide *;
    NextIs(stamps, now, later);
  }

  lemma NextIs(stamps: seq<real>, now: real, later: real)
    ensures NextStamps(stamps, now, later) == DropOld(stamps, now) + [later]
  {
  }

  lemma TracksMore(kept: seq<real>, history: seq<real>, now: real, later: real)
    requires Sorted(history) && NotBefore(history, now) && now <= later && IsPrunedTail(kept, history, PERIOD, now)
    ensures Tracks(kept + [later], history + [later])
  {
    var more := history + [later];
    assert kept + [later] == more[|more| - |kept + [later]|..];
    forall k | 0 <= k < |history| - |kept| ensures more[k] + PERIOD < later {
      assert more[k] == history[k];
    }
  }

  lemma SpacedMoreIff(history: seq<real>, later: real)
    ensures Spaced(history + [later], RATE, PERIOD)
       <==> Spaced(history, RATE, PERIOD) && (|history| >= RATE ==> later >= history[|history| - RATE] + PERIOD)
  {
    var more, n := history + [later], |history|;
    if Spaced(more, RATE, PERIOD) {
      forall k | RATE <= k < n ensures history[k] >= history[k - RATE] + PERIOD {
        assert more[k] == history[k] && more[k - RATE] == history[k - RATE];
      }
      assert n >= RATE ==> more[n] >= more[n - RATE] + PERIOD;
    }
  }

  /** The entry `RATE` places back is respected unless the deque is crowded: a forgotten one
      is too old, and the oldest remembered one is slept for. */
  lemma EightBackIff(stamps: seq<real>, history: seq<real>, now: real, later: real)
    requires IsPrunedTail(DropOld(stamps, now), history, PERIOD, now) && now <= later && SleptEnough(stamps, now, later)
    ensures (|history| >= RATE ==> later >= history[|history| - RATE] + PERIOD) <==> !Crowded(stamps, now, later)
  {
    var kept, n := DropOld(stamps, now), |history|;
    hide DropOld;
    if |kept| >= RATE {
      assert kept[|kept| - RATE] == history[n - RATE];
    } else if n >= RATE {
      assert history[n - RATE] + PERIOD < now;
    }
  }

  lemma KeptTail(stamps: seq<real>, history: seq<real>, now: real)
    requires Tracks(stamps, history) && NotBefore(history, now)
    ensures IsPrunedTail(DropOld(stamps, now), history, PERIOD, now)
  {
    DropOldIs(stamps, now);
    if history != [] {
      PruneKeepsTail(DropOld(stamps, now), stamps, history, PERIOD, history[|history| - 1], now);
    }
  }

  /** In a spaced history more entries than the rate are unforgotten exactly when the clock
      still shows the time of the entry `RATE` before the last plus one period. */
  lemma CrowdIff(stamps: seq<real>, history: seq<real>, now: real)
    requires Tracks(stamps, history) && Spaced(history, RATE, PERIOD) && NotBefore(history, now)
    ensures |DropOld(stamps, now)| > RATE <==> |stamps| > RATE && now == stamps[|stamps| - 1 - RATE] + PERIOD
  {
    var kept, l, n := DropOld(stamps, now), |stamps|, |history|;
    DropOldIs(stamps, now);
    hide DropOld;
    if l > RATE {
      assert stamps[l - 1] == history[n - 1] && stamps[l - 1 - RATE] == history[n - 1 - RATE];
      if |kept| > RATE {
        assert kept[0] == history[n - |kept|] <= history[n - 1 - RATE];
      } else {
        assert stamps[l - 1 - RATE] + PERIOD < now;
      }
    }
  }

  /** A call on a spaced history is crowded exactly when the clock still shows that time, and
      the second reading is less than a period after the entry `RATE` places back. */
  lemma CrowdedIff(stamps: seq<real>, history: seq<real>, now: real, later: real)
    requires Tracks(stamps, history) && Spaced(history, RATE, PERIOD) && NotBefore(history, now)
    ensures Crowded(stamps, now, later) <==>
            && |stamps| > RATE && now == stamps[|stamps| - 1 - RATE] + PERIOD
            && later < stamps[|stamps| - RATE] + PERIOD
  {
    CrowdIff(stamps, history, now);
    DropOldIs(stamps, now);
    hide DropOld;
    var kept := DropOld(stamps, now);
    if |kept| > RATE {
      assert kept[|kept| - RATE] == stamps[|stamps| - RATE];
    }
  }

  /** So a clock that has moved past the last stamp never meets a crowded deque. */
  lemma AdvancingClockIsNeverCrowded(stamps: seq<real>, history: seq<real>, now: real, later: real)
    requires Tracks(stamps, history) && Spaced(history, RATE, PERIOD)
    requires history != [] ==> history[|history| - 1] < now
    ensures !Crowded(stamps, now, later)
  {
    CrowdIff(stamps, history, now);
    hide DropOld;
    if |stamps| > RATE {
      assert stamps[|stamps| - 1 - RATE] == history[|history| - 1 - RATE];
    }
  }

  /** In a sorted history the spacing is not only enough for the window bound, but needed. */
  lemma WindowBoundIff(history: seq<real>)
    requires Sorted(history)
    ensures (forall start :: |InWindow(history, start, 1.0)| <= 8) <==> Spaced(history, RATE, PERIOD)
  {
    if Spaced(history, RATE, PERIOD) {
      forall start ensures |InWindow(history, start, PERIOD)| <= RATE {
        WindowBound(history, RATE, PERIOD, start);
      }
    } else {
      var k :| RATE <= k < |history| && history[k] < history[k - RATE] + PERIOD;
      CrowdedWindow(history, k);
    }
  }

  lemma CrowdedWindow(history: seq<real>, k: nat)
    requires Sorted(history) && RATE <= k < |history| && history[k] < history[k - RATE] + PERIOD
    ensures |InWindow(history, history[k - RATE], PERIOD)| > RATE
  {
    var window, nine := InWindow(history, history[k - RATE], PERIOD), Range(k - RATE, k + 1);
    forall i | i in nine ensures i in window {
      assert history[k - RATE] <= history[i] <= history[k];
    }
    SubsetSize(nine, window);
  }

  function Range(from: nat, below: nat): (r: set<nat>)
    requires from <= below
    ensures |r| == below - from && forall i :: i in r <==> from <= i < below
    decreases below
  {
    if from == below then {} else Range(from, below - 1) + {below - 1}
  }

  lemma SubsetSize(a: set<nat>, b: set<nat>)
    requires a <= b
    ensures |a| <= |b|
  {
    assert |b| == |a| + |b - a| by {
      assert b == a + (b - a);
    }
  }

  class EdgarLimiter {
    var timestamps: seq<real>
    ghost var history: seq<real>
    /** Whether some call so far was crowded. */
    ghost var wasCrowded: bool

    ghost predicate Valid()
      reads this
    {
      Tracks(timestamps, history) && (Spaced(history, RATE, PERIOD) <==> !wasCrowded)
    }

    constructor ()
      ensures Valid() && history == [] && !wasCrowded
    {
      timestamps, history, wasCrowded := [], [], false;
    }

    /** Blocks until a request may go out.  `now` and `later` are the two clock readings;
        between them the call has slept as long as it asked to. */
    method Wait(now: real, later: real)
      requires Valid() && NotBefore(history, now) && now <= later
      requires SleptEnough(timestamps, now, later)
      modifies this
      ensures Valid() && history == old(history) + [later]
      ensures timestamps == NextStamps(old(timestamps), now, later)
      ensures wasCrowded == (old(wasCrowded) || Crowded(old(timestamps), now, later))
    {
      hide Tracks, Spaced, Crowded, SleptEnough, NotBefore, NextStamps, DropOld;
      var kept := Prune(timestamps, now, PERIOD);
      PruneIsDropOld(kept, timestamps, now);
      StepKeepsSpacingIff(timestamps, history, now, later);
      NextIs(timestamps, now, later);
      wasCrowded := wasCrowded || Crowded(timestamps, now, later);
      timestamps := kept + [later];
      history := history + [later];
    }

    /** Over any run: no window of a second holds more than the rate exactly if no call so
        far was crowded. */
    lemma RunBoundIff()
      requires Valid()
      ensures (forall start :: |InWindow(history, start, 1.0)| <= 8) <==> !wasCrowded
    {
      WindowBoundIff(history);
    }
  }

  /** What is dropped is too old, and what is kept is not. */
  lemma {:induction false} DropOldIs(stamps: seq<real>, now: real)
    ensures var kept := DropOld(stamps, now);
            && |kept| <= |stamps| && kept == stamps[|stamps| - |kept|..]
            && (forall k :: 0 <= k < |stamps| - |kept| ==> stamps[k] + PERIOD < now)
            && (kept != [] ==> kept[0] >= now - PERIOD)
  {
    if stamps != [] && stamps[0] < now - PERIOD {
      DropOldIs(stamps[1..], now);
      var kept := DropOld(stamps[1..], now);
      assert forall k :: 0 < k < |stamps| - |kept| ==> stamps[k] == stamps[1..][k - 1];
    }
  }

  function DropOld(stamps: seq<real>, now: real): seq<real> {
    if stamps != [] && stamps[0] < now - PERIOD then DropOld(stamps[1..], now) else stamps
  }

  /** The sleep the call asks for, if any, is over when the second reading is taken. */
  predicate SleptEnough(stamps: seq<real>, now: real, later: real) {
    var kept := DropOld(stamps, now);
    |kept| >= RATE && kept[0] + PERIOD - now > 0.0 ==> later >= kept[0] + PERIOD
  }

  /** The deque after one call. */
  function NextStamps(stamps: seq<real>, now: real, later: real): seq<real> {
    DropOld(stamps, now) + [later]
  }

  lemma {:induction false} PruneIsDropOld(kept: seq<real>, stamps: seq<real>, now: real)
    requires |kept| <= |stamps| && kept == stamps[|stamps| - |kept|..]
    requires forall k :: 0 <= k < |stamps| - |kept| ==> stamps[k] + PERIOD < now
    requires kept != [] ==> kept[0] >= now - PERIOD
    ensures kept == DropOld(stamps, now)
    decreases |stamps|
  {
    if |kept| < |stamps| {
      assert kept == stamps[1..][|stamps| - 1 - |kept|..];
      PruneIsDropOld(kept, stamps[1..], now);
    } else if stamps != [] {
      assert kept == stamps;
    }
  }

  // ---------------------------------------------------------------------------------
  // How far a clock that stands still can break the bound
  // ---------------------------------------------------------------------------------

  function Repeat(x: real, n: nat): (s: seq<real>)
    ensures |s| == n && forall k :: 0 <= k < n ==> s[k] == x
  {
    seq(n, i => x)
  }

  /** The stamps of a run in which every call reads the given pairs of clock values. */
  function RunStamps(stamps: seq<real>, readings: seq<(real, real)>): seq<real>
    decreases |readings|
  {
    if readings == [] then stamps
    else RunStamps(NextStamps(stamps, readings[0].0, readings[0].1), readings[1..])
  }

  /** Every call of the run sleeps as long as it should, and the clock never goes back. */
  predicate Honest(stamps: seq<real>, readings: seq<(real, real)>)
    decreases |readings|
  {
    readings == []
    || (&& readings[0].0 <= readings[0].1 && (stamps != [] ==> stamps[|stamps| - 1] <= readings[0].0)
        && SleptEnough(stamps, readings[0].0, readings[0].1)
        && Honest(NextStamps(stamps, readings[0].0, readings[0].1), readings[1..]))
  }

  function RepeatReading(x: real, n: nat): (s: seq<(real, real)>)
    ensures |s| == n && forall k :: 0 <= k < n ==> s[k] == (x, x)
  {
    seq(n, i => (x, x))
  }

  /** Eight requests at time 0, one that sleeps until 1, and then any number n at time 1,
      all honest: n + 1 requests at the same instant. */
  lemma RepeatedClockBreaksTheBound(n: nat)
    ensures var readings := RepeatReading(0.0, RATE) + [(0.0, 1.0)] + RepeatReading(1.0, n);
            && Honest([], readings)
            && RunStamps([], readings) == Repeat(0.0, RATE) + Repeat(1.0, n + 1)
  {
    var sleeping := [(0.0, 1.0)] + RepeatReading(1.0, n);
    assert RepeatReading(0.0, RATE) + [(0.0, 1.0)] + RepeatReading(1.0, n) == RepeatReading(0.0, RATE) + sleeping;
    assert Repeat(0.0, 0) == [];
    var eight := Repeat(0.0, RATE);
    FillUp(0, sleeping);
    assert DropOld(eight, 0.0) == eight;
    assert NextStamps(eight, 0.0, 1.0) == eight + Repeat(1.0, 1);
    assert sleeping[1..] == RepeatReading(1.0, n);
    PileUp(1, n);
  }

  lemma {:induction false} FillUp(k: nat, rest: seq<(real, real)>)
    requires k <= RATE
    ensures var readings := RepeatReading(0.0, RATE - k) + rest;
            && RunStamps(Repeat(0.0, k), readings) == RunStamps(Repeat(0.0, RATE), rest)
            && (Honest(Repeat(0.0, k), readings) <==> Honest(Repeat(0.0, RATE), rest))
    decreases RATE - k
  {
    var readings := RepeatReading(0.0, RATE - k) + rest;
    if k == RATE {
      assert readings == rest;
    } else {
      assert readings[1..] == RepeatReading(0.0, RATE - k - 1) + rest;
      assert DropOld(Repeat(0.0, k), 0.0) == Repeat(0.0, k);
      assert NextStamps(Repeat(0.0, k), 0.0, 0.0) == Repeat(0.0, k + 1);
      FillUp(k + 1, rest);
    }
  }

  lemma {:induction false} PileUp(k: nat, n: nat)
    requires k >= 1
    ensures var stamps := Repeat(0.0, RATE) + Repeat(1.0, k);
            && RunStamps(stamps, RepeatReading(1.0, n)) == Repeat(0.0, RATE) + Repeat(1.0, k + n)
            && Honest(stamps, RepeatReading(1.0, n))
    decreases n
  {
    var stamps := Repeat(0.0, RATE) + Repeat(1.0, k);
    if n > 0 {
      assert RepeatReading(1.0, n)[1..] == RepeatReading(1.0, n - 1);
      assert DropOld(stamps, 1.0) == stamps;
      assert NextStamps(stamps, 1.0, 1.0) == Repeat(0.0, RATE) + Repeat(1.0, k + 1);
      PileUp(k + 1, n - 1);
    }
  }
}
