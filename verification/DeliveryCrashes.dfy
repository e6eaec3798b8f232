/**
 Delivery of one article and phase across crashes (`utils/telegram/publisher.py`).  A message
 that went out is recorded through the writer queue, so the record may lag behind; a process
 that dies takes its unrecorded count with it, and the next run starts from the record.

 Messages are numbered 0 (the link), 1, 2, ... up to `total`.
 */
module DeliveryCrashes {

  /** `sent` is the count in memory, `recorded` the one the database holds.  `lost` lists, for
      each restart, the messages that were sent but not recorded. */
  datatype State = State(chat: seq<nat>, sent: nat, recorded: nat, lost: seq<(int, int)>)

  datatype Event = SendNext | RecordLands | Restart

  const START := State([], 0, 0, [])

  function Next(total: nat, s: State, e: Event): State {
    match e
    case SendNext =>
      if s.sent < total then s.(chat := s.chat + [s.sent], sent := s.sent + 1) else s
    case RecordLands =>
      if s.recorded < s.sent then s.(recorded := s.recorded + 1) else s
    case Restart =>
      s.(sent := s.recorded, lost := s.lost + [(s.recorded, s.sent)])
  }

  function Run(total: nat, events: seq<Event>): State {
    if events == [] then START else Next(total, Run(total, events[..|events| - 1]), events[|events| - 1])
  }

  /** How often a message has arrived. */
  function Arrivals(chat: seq<nat>, m: nat): nat {
    if chat == [] then 0 else Arrivals(chat[..|chat| - 1], m) + (if chat[|chat| - 1] == m then 1 else 0)
  }

  /** The number of restarts that forgot a message. */
  function Losses(lost: seq<(int, int)>, m: nat): nat {
    if lost == [] then 0
    else
      var last := lost[|lost| - 1];
      Losses(lost[..|lost| - 1], m) + (if last.0 <= m < last.1 then 1 else 0)
  }

  /** The number of messages forgotten over all restarts. */
  function Forgotten(lost: seq<(int, int)>): int {
    if lost == [] then 0
    else
      var last := lost[|lost| - 1];
      Forgotten(lost[..|lost| - 1]) + (last.1 - last.0)
  }

  /** No message arrives before all its predecessors have. */
  ghost predicate Orderly(chat: seq<nat>) {
    forall j, i :: 0 <= j < |chat| && 0 <= i < chat[j] ==> i in chat[..j]
  }

  /** 0 to n-1 are all in the list. */
  ghost predicate HasAll(list: seq<nat>, n: nat) {
    forall m :: 0 <= m < n ==> m in list
  }

  ghost predicate Inv(total: nat, s: State) {
    && s.recorded <= s.sent <= total
    && |s.chat| == s.sent + Forgotten(s.lost)
    && (forall m: nat :: Arrivals(s.chat, m) == (if m < s.sent then 1 else 0) + Losses(s.lost, m))
    && Orderly(s.chat) && HasAll(s.chat, s.sent)
    && (forall m :: m in s.chat ==> m < total)
  }

  lemma SendKeepsInv(total: nat, s: State)
    requires Inv(total, s) && s.sent < total
    ensures Inv(total, Next(total, s, SendNext))
  {
    var chat := s.chat + [s.sent];
    assert chat[..|chat| - 1] == s.chat;
    forall m: nat ensures Arrivals(chat, m) == Arrivals(s.chat, m) + (if m == s.sent then 1 else 0) {
    }
    forall j, i | 0 <= j < |chat| && 0 <= i < chat[j] ensures i in chat[..j] {
      if j < |s.chat| {
        assert chat[..j] == s.chat[..j] && i in s.chat[..j];
      } else {
        assert chat[..j] == s.chat;
      }
    }
  }

  lemma RestartKeepsInv(total: nat, s: State)
    requires Inv(total, s)
    ensures Inv(total, Next(total, s, Restart))
  {
    var lost := s.lost + [(s.recorded, s.sent)];
    assert lost[..|lost| - 1] == s.lost;
    forall m: nat ensures Losses(lost, m) == Losses(s.lost, m) + (if s.recorded <= m < s.sent then 1 else 0) {
    }
    hide Arrivals, Orderly;
  }

  lemma {:induction false} RunKeepsInv(total: nat, events: seq<Event>)
    ensures Inv(total, Run(total, events))
  {
    if events != [] {
      RunKeepsInv(total, events[..|events| - 1]);
      var s, e := Run(total, events[..|events| - 1]), events[|events| - 1];
      hide Inv;
      StepKeepsInv(total, s, e);
    }
  }

  lemma StepKeepsInv(total: nat, s: State, e: Event)
    requires Inv(total, s)
    ensures Inv(total, Next(total, s, e))
  {
    match e
    case SendNext =>
      if s.sent < total { SendKeepsInv(total, s); }
    case RecordLands =>
      hide Arrivals, Orderly, Losses, Forgotten;
    case Restart =>
      RestartKeepsInv(total, s);
  }

  /** Whatever crashes happen, no message overtakes another, and each message below the count
      has arrived once, plus once for every restart that had forgotten it. */
  lemma EachArrivesOncePlusItsLosses(total: nat, events: seq<Event>, m: nat)
    ensures var s := Run(total, events);
            && Orderly(s.chat)
            && Arrivals(s.chat, m) == (if m < s.sent then 1 else 0) + Losses(s.lost, m)
            && |s.chat| == s.sent + Forgotten(s.lost)
  {
    RunKeepsInv(total, events);
    hide Run, Arrivals, Losses, Forgotten, Orderly;
  }

  /** A run that ends with the count at the total has delivered everything. */
  lemma CompletedMeansAll(total: nat, events: seq<Event>, m: nat)
    requires Run(total, events).sent == total && m < total
    ensures m in Run(total, events).chat
  {
    RunKeepsInv(total, events);
    hide Run, Arrivals, Losses, Forgotten, Orderly;
  }

  /** At most one message is unrecorded when the process dies. */
  ghost predicate PromptRecords(lost: seq<(int, int)>) {
    forall i :: 0 <= i < |lost| ==> lost[i].1 - lost[i].0 <= 1
  }

  lemma {:induction false} PromptForgets(lost: seq<(int, int)>)
    requires PromptRecords(lost)
    ensures Forgotten(lost) <= |lost|
  {
    if lost != [] { PromptForgets(lost[..|lost| - 1]); }
  }

  /** Whenever a message goes out, all before it are recorded. */
  ghost predicate RecordsFirst(total: nat, events: seq<Event>) {
    forall k :: 0 <= k < |events| && events[k] == SendNext ==> UpToDate(Run(total, events[..k]))
  }

  predicate UpToDate(s: State) {
    s.recorded == s.sent
  }

  lemma {:induction false} RecordsFirstIsPrompt(total: nat, events: seq<Event>)
    requires RecordsFirst(total, events)
    ensures var s := Run(total, events); s.sent - s.recorded <= 1 && PromptRecords(s.lost)
  {
    if events != [] {
      var n := |events| - 1;
      forall k | 0 <= k < n && events[..n][k] == SendNext ensures UpToDate(Run(total, events[..n][..k])) {
        assert events[..n][..k] == events[..k];
      }
      RecordsFirstIsPrompt(total, events[..n]);
      RunKeepsInv(total, events[..n]);
      PromptStep(total, Run(total, events[..n]), events[n]);
      hide RecordsFirst, Inv, PromptRecords, Next;
    }
  }

  lemma PromptStep(total: nat, s: State, e: Event)
    requires Inv(total, s) && s.sent - s.recorded <= 1 && PromptRecords(s.lost) && (e == SendNext ==> UpToDate(s))
    ensures var n := Next(total, s, e); n.sent - n.recorded <= 1 && PromptRecords(n.lost)
  {
    hide Arrivals, Losses, Forgotten, Orderly, HasAll;
  }

  /** If every record lands before the next message goes out, each restart repeats at most
      one message. */
  lemma PromptRecordsRepeatOnePerRestart(total: nat, events: seq<Event>)
    requires RecordsFirst(total, events)
    ensures var s := Run(total, events); |s.chat| <= s.sent + |s.lost|
  {
    RecordsFirstIsPrompt(total, events);
    RunKeepsInv(total, events);
    PromptForgets(Run(total, events).lost);
    hide Run, Arrivals, Losses, Forgotten, Orderly;
  }

  /** Nothing makes the records, which go through a queue, land that early: a single restart
      can forget any number of messages. */
  lemma LateRecordsForgetMany(total: nat, n: nat)
    requires n <= total
    ensures var s := Run(total, seq(n, _ => SendNext) + [Restart]);
            s.sent == 0 && |s.lost| == 1 && |s.chat| == s.sent + n
  {
    var sends := seq(n, _ => SendNext);
    OnlySends(total, n);
    assert (sends + [Restart])[..n] == sends;
  }

  lemma {:induction false} OnlySends(total: nat, n: nat)
    requires n <= total
    ensures var s := Run(total, seq(n, _ => SendNext)); s.sent == n == |s.chat| && s.recorded == 0 && s.lost == []
  {
    if n > 0 {
      OnlySends(total, n - 1);
      assert seq(n, _ => SendNext)[..n - 1] == seq(n - 1, _ => SendNext);
    }
  }

  /** n messages, each recorded before the next. */
  function Prompt(n: nat): seq<Event> {
    if n == 0 then [] else Prompt(n - 1) + [SendNext, RecordLands]
  }

  /** Such a run delivers and records them in order, so that a restart then forgets nothing. */
  lemma {:induction false} PromptRunIsExact(total: nat, n: nat)
    requires n <= total
    ensures var s := Run(total, Prompt(n)); s.sent == s.recorded == n == |s.chat| && s.lost == []
    ensures Run(total, Prompt(n) + [Restart]) == Run(total, Prompt(n)).(lost := [(n, n)])
  {
    var events := Prompt(n);
    assert (events + [Restart])[..|events|] == events;
    if n > 0 {
      PromptRunIsExact(total, n - 1);
      var before := Prompt(n - 1);
      assert events[..|events| - 1] == before + [SendNext] && (before + [SendNext])[..|before|] == before;
    }
  }

  /** Without restarts, or if nothing was ever unrecorded at one, the channel holds exactly the
      first `sent` messages in order. */
  lemma NothingForgottenMeansExact(total: nat, events: seq<Event>)
    ensures var s := Run(total, events);
            Forgotten(s.lost) == 0 <==> s.chat == seq(s.sent, i requires 0 <= i < s.sent => i)
  {
    RunKeepsInv(total, events);
    var s := Run(total, events);
    hide Run, Arrivals, Losses, Forgotten;
    if Forgotten(s.lost) == 0 {
      OrderlyIsCounting(s.chat, s.sent);
    }
  }

  /** An orderly list that contains 0 to n-1 in n places is 0, 1, ..., n-1. */
  lemma {:induction false} OrderlyIsCounting(chat: seq<nat>, n: nat)
    requires Orderly(chat) && |chat| == n && HasAll(chat, n)
    ensures chat == seq(n, i requires 0 <= i < n => i)
  {
    if n > 0 {
      LastIsNew(chat, n);
      OrderlyIsCounting(chat[..n - 1], n - 1);
    }
  }

  lemma LastIsNew(chat: seq<nat>, n: nat)
    requires Orderly(chat) && |chat| == n > 0 && HasAll(chat, n)
    ensures chat[n - 1] == n - 1 && Orderly(chat[..n - 1]) && HasAll(chat[..n - 1], n - 1)
  {
    SmallEntries(chat);
    assert n - 1 in chat;
    var front := chat[..n - 1];
    forall j, i | 0 <= j < |front| && 0 <= i < front[j] ensures i in front[..j] {
      assert front[..j] == chat[..j];
    }
    forall m: nat | m < n - 1 ensures m in front {
      assert m in chat;
      var k: nat :| k < n && chat[k] == m;
      assert chat[n - 1] == n - 1;
      assert front[k] == m;
    }
  }

  /** In an orderly list the j-th entry is at most j. */
  lemma {:induction false} SmallEntries(chat: seq<nat>)
    requires Orderly(chat)
    ensures forall j :: 0 <= j < |chat| ==> chat[j] <= j
  {
    forall j | 0 <= j < |chat| ensures chat[j] <= j {
      Pigeonhole(chat[..j], chat[j]);
    }
  }

  /** A list that contains 0 to k-1 has at least k entries. */
  lemma {:induction false} Pigeonhole(list: seq<nat>, k: nat)
    requires HasAll(list, k)
    ensures |list| >= k
    decreases k
  {
    if k > 0 {
      assert k - 1 in list;
      var at: nat :| at < |list| && list[at] == k - 1;
      var rest := list[..at] + list[at + 1..];
      forall m | 0 <= m < k - 1 ensures m in rest {
        assert m in list;
        var i: nat :| i < |list| && list[i] == m;
        assert if i < at then rest[i] == m else rest[i - 1] == m;
      }
      Pigeonhole(rest, k - 1);
    }
  }
}
