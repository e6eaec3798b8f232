/**
 Resumable delivery to the Telegram channels (`utils/telegram/publisher.py`): for each
 article and phase the link goes first and then the chunks, and the number of messages sent
 so far is recorded with the job so that a later run goes on from there.

 The messages of an article and phase are the same in every run.  What Telegram answers is
 an oracle.  A record is taken to be read back by the next run; `DeliveryCrashes` drops that.
 */
module Delivery {
  import opened Options

  datatype Phase = BRIEFING | ARCHIVE

  /** The article of a phase. */
  datatype Key = Key(phase: Phase, ulid: string)

  datatype Reply = Sent | Transient | Refused

  /** The replies to the messages of one run. */
  type Replies = (Key, nat) -> Reply

  datatype ItemStatus = PENDING | RUNNING | COMPLETED | FAILED

  datatype PublishStatus = OPEN | PUBLISHED_BRIEFING | PUBLISHED_ARCHIVE | UNSUCCESSFUL

  datatype Article = Article(ulid: string, isTop10: bool, translated: bool, status: PublishStatus)

  /** The row of `job_items`: `chunks_sent` is 0 if no output was ever recorded. */
  datatype Item = Item(status: ItemStatus, chunksSent: nat)

  /** Where a run that starts at message `from` stops: past the last message, or at the first
      one that does not get through. */
  function StopAt(total: nat, from: nat, key: Key, replies: Replies): (stop: nat)
    ensures from <= stop && (from <= total ==> stop <= total)
    ensures stop < total ==> !replies(key, stop).Sent?
    ensures forall i :: from <= i < stop ==> replies(key, i).Sent?
    decreases total - from
  {
    if from < total && replies(key, from).Sent? then StopAt(total, from + 1, key, replies) else from
  }

  /** Whether a phase takes an article up at all. */
  predicate Takes(phase: Phase, a: Article) {
    && a.translated
    && (match phase
        case BRIEFING => a.isTop10 && a.status !in {PUBLISHED_BRIEFING, PUBLISHED_ARCHIVE}
        case ARCHIVE => a.status != PUBLISHED_ARCHIVE)
  }

  /** The briefing takes the translated Top 10 that no phase has published, the archive every
      translated article that the archive itself has not. */
  lemma TakesIff(a: Article)
    ensures Takes(BRIEFING, a) <==> a.translated && a.isTop10 && (a.status == OPEN || a.status == UNSUCCESSFUL)
    ensures Takes(ARCHIVE, a) <==>
              a.translated && (a.status == OPEN || a.status == UNSUCCESSFUL || a.status == PUBLISHED_BRIEFING)
  {
  }

  function Received(chat: map<Key, seq<string>>, key: Key): seq<string> {
    if key in chat then chat[key] else []
  }

  function Recorded(items: map<Key, Item>, key: Key): nat {
    if key in items then items[key].chunksSent else 0
  }

  /** The two maps agree on every other key. */
  ghost predicate SameBut<V>(before: map<Key, V>, after: map<Key, V>, key: Key) {
    after - {key} == before - {key}
  }

  /** The channel has received exactly the messages that are recorded as sent. */
  predicate Exact(chat: map<Key, seq<string>>, items: map<Key, Item>, key: Key, all: seq<string>) {
    && Recorded(items, key) <= |all|
    && Received(chat, key) == all[..Recorded(items, key)]
    && (key in items && items[key].status == COMPLETED ==> Recorded(items, key) == |all|)
  }

  function Published(phase: Phase): PublishStatus {
    match phase case BRIEFING => PUBLISHED_BRIEFING case ARCHIVE => PUBLISHED_ARCHIVE
  }

  /** The phase takes up the article of the key. */
  predicate Touches(articles: seq<Article>, key: Key) {
    exists i :: 0 <= i < |articles| && articles[i].ulid == key.ulid && Takes(key.phase, articles[i])
  }

  class ChannelPublisher {
    /** What each channel has received for an article, in order. */
    var chat: map<Key, seq<string>>
    var items: map<Key, Item>
    var details: map<string, PublishStatus>
    /** Every message handed to Telegram, whatever the answer. */
    ghost var tried: seq<(Key, nat)>
    /** Whether the run belongs to a job; without one nothing is recorded. */
    const hasJob: bool
    /** The link, then the chunks. */
    const messages: Key -> seq<string>

    constructor (hasJob: bool, messages: Key -> seq<string>)
      ensures this.hasJob == hasJob && this.messages == messages
      ensures chat == map[] && items == map[] && details == map[] && tried == []
    {
      this.hasJob, this.messages := hasJob, messages;
      chat, items, details, tried := map[], map[], map[], [];
    }

    /** Every article has a link, and with a job every channel is up to its record. */
    ghost predicate Valid()
      reads this
    {
      (forall key :: messages(key) != []) && (hasJob ==> forall key :: Exact(chat, items, key, messages(key)))
    }

    /** One message: a delivered one is recorded. */
    method SendMessage(key: Key, i: nat, replies: Replies) returns (reply: Reply)
      requires i < |messages(key)|
      modifies this`chat, this`items, this`tried
      ensures reply == replies(key, i) && tried == old(tried) + [(key, i)]
      ensures SameBut(old(chat), chat, key) && SameBut(old(items), items, key)
      ensures Received(chat, key) == Received(old(chat), key) + (if reply.Sent? then [messages(key)[i]] else [])
      ensures !reply.Sent? ==> items == old(items)
      ensures reply.Sent? && hasJob ==> key in items && items[key] == Item(RUNNING, i + 1)
      ensures !hasJob ==> items == old(items)
    {
      reply := replies(key, i);
      tried := tried + [(key, i)];
      if reply.Sent? {
        chat := chat[key := Received(chat, key) + [messages(key)[i]]];
        if hasJob { items := items[key := Item(RUNNING, i + 1)]; }
      }
    }

    /** The body of the loop over the articles of a phase, from the link on.  A transient
        failure raises. */
    method Publish(key: Key, replies: Replies) returns (raised: bool)
      requires messages(key) != [] && (hasJob ==> Exact(chat, items, key, messages(key)))
      modifies this
      ensures SameBut(old(chat), chat, key) && SameBut(old(items), items, key)
      ensures var from := if hasJob then Recorded(old(items), key) else 0;
              var stop := StopAt(|messages(key)|, from, key, replies);
              && from <= |messages(key)|
              && tried == old(tried) + Tries(key, from, if stop < |messages(key)| then stop + 1 else stop)
              && Received(chat, key) == Received(old(chat), key) + messages(key)[from..stop]
              && (raised <==> stop < |messages(key)| && replies(key, stop).Transient?)
              && (hasJob ==> Recorded(items, key) == stop && Exact(chat, items, key, messages(key)))
              && (hasJob && !raised ==>
                  key in items && items[key].status == if stop == |messages(key)| then COMPLETED else FAILED)
              && details == (if raised then old(details)
                             else old(details)[key.ulid := if stop == |messages(key)|
                                                           then if key.phase == BRIEFING then PUBLISHED_BRIEFING
                                                                else PUBLISHED_ARCHIVE
                                                           else UNSUCCESSFUL])
      ensures !hasJob ==> items == old(items)
    {
      hide SameBut, StopAt, Tries;
      var sent := StartItem(key);
      ghost var from, items0 := sent, items;
      var success;
      raised, sent, success := SendArticle(key, sent, replies);
      SameButTrans(old(items), items0, items, key);
      if raised {
        if hasJob { ExactAt(old(chat), chat, items, key, messages(key), from, sent); }
        return;
      }
      details := details[key.ulid := if success then Published(key.phase) else UNSUCCESSFUL];
      if hasJob {
        SameButUpdate(old(items), items, key, Item(if success then COMPLETED else FAILED, sent));
        items := items[key := Item(if success then COMPLETED else FAILED, sent)];
        ExactAt(old(chat), chat, items, key, messages(key), from, sent);
      }
      return false;
    }

    /** `add_job_item` and the read of its output. */
    method StartItem(key: Key) returns (sent: nat)
      modifies this`items
      ensures SameBut(old(items), items, key)
      ensures sent == if hasJob then Recorded(old(items), key) else 0
      ensures hasJob ==> key in items && items[key].chunksSent == sent
      ensures hasJob ==> items[key].status == if key in old(items) then old(items)[key].status else PENDING
      ensures !hasJob ==> items == old(items)
    {
      sent := 0;
      if hasJob {
        if key !in items { items := items[key := Item(PENDING, 0)]; }
        sent := items[key].chunksSent;
      }
    }

    /** The link, unless it has gone out before, and the chunks if it got through. */
    method SendArticle(key: Key, start: nat, replies: Replies) returns (raised: bool, sent: nat, success: bool)
      requires start <= |messages(key)| && messages(key) != []
      requires hasJob ==> key in items && items[key].chunksSent == start
      requires hasJob && start < |messages(key)| ==> items[key].status != COMPLETED
      modifies this`chat, this`items, this`tried
      ensures tried == old(tried) + Tries(key, start, if sent < |messages(key)| then sent + 1 else sent)
      ensures SameBut(old(chat), chat, key) && SameBut(old(items), items, key)
      ensures sent == StopAt(|messages(key)|, start, key, replies)
      ensures Received(chat, key) == Received(old(chat), key) + messages(key)[start..sent]
      ensures hasJob ==> key in items && items[key].chunksSent == sent
      ensures hasJob && sent < |messages(key)| ==> items[key].status != COMPLETED
      ensures !hasJob ==> items == old(items)
      ensures success <==> sent == |messages(key)|
      ensures raised <==> sent < |messages(key)| && replies(key, sent).Transient?
    {
      hide SameBut, StopAt, Tries;
      var all := messages(key);
      sent := start;
      if start == 0 {
        OneTry(tried, key);
        var reply := SendMessage(key, 0, replies);
        StopAtLink(|all|, key, replies);
        if !reply.Sent? {
          NothingSent(old(chat), chat, key, all, 0);
          return reply.Transient?, 0, false;
        }
        sent := 1;
        assert all[0..1] == [all[0]];
      } else {
        SameButSelf(chat, key);
        SameButSelf(items, key);
        NoTry(tried, key, start);
        assert Received(chat, key) == Received(old(chat), key) + all[start..sent];
      }
      ghost var middle, items0, first := chat, items, sent;
      raised, sent, success := SendChunks(key, sent, replies);
      SameButTrans(old(items), items0, items, key);
      SameButTrans(old(chat), middle, chat, key);
      TriesJoin(old(tried), key, start, first, if sent < |all| then sent + 1 else sent);
      JoinSlices(old(chat), middle, chat, key, all, start, first, sent);
    }

    /** The loop over the chunks that are still to be sent. */
    method SendChunks(key: Key, start: nat, replies: Replies) returns (raised: bool, sent: nat, success: bool)
      requires start <= |messages(key)|
      requires hasJob ==> key in items && items[key].chunksSent == start
      requires hasJob && start < |messages(key)| ==> items[key].status != COMPLETED
      modifies this`chat, this`items, this`tried
      ensures tried == old(tried) + Tries(key, start, if sent < |messages(key)| then sent + 1 else sent)
      ensures SameBut(old(chat), chat, key) && SameBut(old(items), items, key)
      ensures sent == StopAt(|messages(key)|, start, key, replies)
      ensures Received(chat, key) == Received(old(chat), key) + messages(key)[start..sent]
      ensures hasJob ==> key in items && items[key].chunksSent == sent
      ensures hasJob && sent < |messages(key)| ==> items[key].status != COMPLETED
      ensures !hasJob ==> items == old(items)
      ensures success <==> sent == |messages(key)|
      ensures raised <==> sent < |messages(key)| && replies(key, sent).Transient?
    {
      hide *;
      var all := messages(key);
      sent := start;
      UpToStart(all, key, start, chat, items, tried, hasJob);
      while sent < |all|
        invariant start <= sent <= |all|
        invariant StopAt(|all|, sent, key, replies) == StopAt(|all|, start, key, replies)
        invariant UpTo(all, key, start, sent, old(chat), chat, old(items), items, old(tried), tried, hasJob)
      {
        ghost var chat0, items0, tried0 := chat, items, tried;
        var reply := SendMessage(key, sent, replies);
        StopAtNext(|all|, sent, key, replies);
        if !reply.Sent? {
          UpToRefused(all, key, start, sent, old(chat), chat0, chat, old(items), items, old(tried), tried0, tried,
                      hasJob);
          return reply.Transient?, sent, false;
        }
        UpToSent(all, key, start, sent, old(chat), chat0, chat, old(items), items0, items, old(tried), tried0, tried,
                 hasJob);
        sent := sent + 1;
      }
      StopAtNext(|all|, sent, key, replies);
      UpToIs(all, key, start, sent, old(chat), chat, old(items), items, old(tried), tried, hasJob);
      return false, sent, true;
    }

    /** `publish_briefing` and `publish_archive`: the run takes up `done` articles. */
    method PublishPhase(phase: Phase, articles: seq<Article>, replies: Replies) returns (raised: bool, ghost done: nat)
      requires Valid()
      modifies this
      ensures Valid() && done <= |articles| && (!raised ==> done == |articles|)
      ensures hasJob ==> RanOver(old(items), items, messages, phase, articles[..done], replies)
      ensures var run := Run(hasJob, old(items), messages, replies);
              && (raised <==> done > 0 && Takes(phase, articles[done - 1])
                              && Breaks(run, Key(phase, articles[done - 1].ulid)))
              && (var through := articles[..if raised then done - 1 else done];
                  NoneBreaks(run, phase, through) && Told(run, phase, through, old(details), details))
              && (!hasJob ==> SentOver(run, phase, articles[..done], old(chat), chat))
    {
      done := 0;
      ghost var run := Run(hasJob, items, messages, replies);
      NothingRan(items, messages, phase, articles[..0], replies);
      NothingTold(run, phase, articles[..0], details, chat);
      for n := 0 to |articles|
        invariant Valid() && done == n
        invariant hasJob ==> RanOver(old(items), items, messages, phase, articles[..n], replies)
        invariant NoneBreaks(run, phase, articles[..n]) && Told(run, phase, articles[..n], old(details), details)
        invariant !hasJob ==> SentOver(run, phase, articles[..n], old(chat), chat)
      {
        hide *;
        ghost var before, chatBefore, detailsBefore := items, chat, details;
        done := n + 1;
        ReachNow(run, before, phase, articles[..n], Key(phase, articles[n].ulid));
        var key := Key(phase, articles[n].ulid);
        if Takes(phase, articles[n]) {
          ValidAt(key);
          raised := Publish(key, replies);
          StillValid(chatBefore, before, key);
          if hasJob { RanOneMore(old(items), before, items, messages, phase, articles, n, replies); }
          if !hasJob { SentOneMore(run, phase, articles, n, old(chat), chatBefore, chat); }
          if raised { return; }
          ToldOneMore(run, phase, articles, n, old(details), detailsBefore, details);
        } else {
          TouchesMore(articles, phase, n);
          ToldTheSame(run, phase, articles, n, old(details), details);
          if !hasJob { SentTheSame(run, phase, articles, n, old(chat), chat); }
          if hasJob { RanTheSame(old(items), items, messages, phase, articles, n, replies); }
        }
      }
      assert articles[..|articles|] == articles;
      return false, |articles|;
    }

    lemma ValidAt(key: Key)
      requires Valid()
      ensures messages(key) != [] && (hasJob ==> Exact(chat, items, key, messages(key)))
    {
    }

    lemma StillValid(chatBefore: map<Key, seq<string>>, itemsBefore: map<Key, Item>, key: Key)
      requires forall k :: messages(k) != []
      requires hasJob ==> forall k :: Exact(chatBefore, itemsBefore, k, messages(k))
      requires SameBut(chatBefore, chat, key) && SameBut(itemsBefore, items, key)
      requires hasJob ==> Exact(chat, items, key, messages(key))
      ensures Valid()
    {
      OneMore(chatBefore, chat, itemsBefore, items, key);
    }
  }

  /** Each article a run took up is recorded up to where its messages got through; the
      others are recorded as before. */
  ghost predicate RanOver(before: map<Key, Item>, after: map<Key, Item>, messages: Key -> seq<string>,
                          phase: Phase, articles: seq<Article>, replies: Replies)
  {
    forall key :: Recorded(after, key) ==
      if key.phase == phase && Touches(articles, key) then StopAt(|messages(key)|, Recorded(before, key), key, replies)
      else Recorded(before, key)
  }

  /** The messages of an article from one to before another, as handed over. */
  function Tries(key: Key, from: nat, below: nat): seq<(Key, nat)>
    decreases below
  {
    if below <= from then [] else Tries(key, from, below - 1) + [(key, below - 1)]
  }

  lemma OneTry(before: seq<(Key, nat)>, key: Key)
    ensures before + [(key, 0)] == before + Tries(key, 0, 1)
  {
    assert Tries(key, 0, 0) == [];
  }

  lemma NoTry(before: seq<(Key, nat)>, key: Key, from: nat)
    ensures before == before + Tries(key, from, from)
  {
  }

  lemma TriesMore(before: seq<(Key, nat)>, key: Key, from: nat, below: nat)
    requires from <= below
    ensures (before + Tries(key, from, below)) + [(key, below)] == before + Tries(key, from, below + 1)
  {
  }

  lemma {:induction false} TriesJoin(before: seq<(Key, nat)>, key: Key, from: nat, middle: nat, below: nat)
    requires from <= middle <= below
    ensures (before + Tries(key, from, middle)) + Tries(key, middle, below) == before + Tries(key, from, below)
    decreases below
  {
    var front := before + Tries(key, from, middle);
    if middle < below {
      TriesJoin(before, key, from, middle, below - 1);
      assert front + (Tries(key, middle, below - 1) + [(key, below - 1)])
          == (front + Tries(key, middle, below - 1)) + [(key, below - 1)];
      TriesMore(before, key, from, below - 1);
    } else {
      assert front + [] == front;
    }
  }

  /** The messages from `start` to before `sent` have gone out, and nothing else happened. */
  ghost predicate UpTo(all: seq<string>, key: Key, start: nat, sent: nat,
                       chat0: map<Key, seq<string>>, chat: map<Key, seq<string>>, items0: map<Key, Item>,
                       items: map<Key, Item>, tried0: seq<(Key, nat)>, tried: seq<(Key, nat)>, hasJob: bool)
  {
    && start <= sent <= |all| && SameBut(chat0, chat, key) && SameBut(items0, items, key)
    && Received(chat, key) == Received(chat0, key) + all[start..sent] && tried == tried0 + Tries(key, start, sent)
    && (hasJob ==> key in items && items[key].chunksSent == sent)
    && (hasJob && sent < |all| ==> items[key].status != COMPLETED)
    && (!hasJob ==> items == items0)
  }

  lemma UpToStart(all: seq<string>, key: Key, start: nat, chat: map<Key, seq<string>>, items: map<Key, Item>,
                  tried: seq<(Key, nat)>, hasJob: bool)
    requires start <= |all| && (hasJob ==> key in items && items[key].chunksSent == start)
    requires hasJob && start < |all| ==> items[key].status != COMPLETED
    ensures UpTo(all, key, start, start, chat, chat, items, items, tried, tried, hasJob)
  {
    NoTry(tried, key, start);
    assert Received(chat, key) + all[start..start] == Received(chat, key);
  }

  lemma UpToSent(all: seq<string>, key: Key, start: nat, sent: nat,
                 first: map<Key, seq<string>>, chat0: map<Key, seq<string>>, chat: map<Key, seq<string>>,
                 firstItems: map<Key, Item>, items0: map<Key, Item>, items: map<Key, Item>,
                 firstTried: seq<(Key, nat)>, tried0: seq<(Key, nat)>, tried: seq<(Key, nat)>, hasJob: bool)
    requires sent < |all| && UpTo(all, key, start, sent, first, chat0, firstItems, items0, firstTried, tried0, hasJob)
    requires SameBut(chat0, chat, key) && SameBut(items0, items, key) && tried == tried0 + [(key, sent)]
    requires Received(chat, key) == Received(chat0, key) + [all[sent]]
    requires if hasJob then key in items && items[key] == Item(RUNNING, sent + 1) else items == items0
    ensures UpTo(all, key, start, sent + 1, first, chat, firstItems, items, firstTried, tried, hasJob)
  {
    hide SameBut, Received, Tries;
    SameButTrans(first, chat0, chat, key);
    SameButTrans(firstItems, items0, items, key);
    TriesMore(firstTried, key, start, sent);
    SliceMore(Received(first, key), all, start, sent);
  }

  lemma UpToRefused(all: seq<string>, key: Key, start: nat, sent: nat,
                    first: map<Key, seq<string>>, chat0: map<Key, seq<string>>, chat: map<Key, seq<string>>,
                    firstItems: map<Key, Item>, items: map<Key, Item>,
                    firstTried: seq<(Key, nat)>, tried0: seq<(Key, nat)>, tried: seq<(Key, nat)>, hasJob: bool)
    requires sent < |all| && UpTo(all, key, start, sent, first, chat0, firstItems, items, firstTried, tried0, hasJob)
    requires SameBut(chat0, chat, key) && Received(chat, key) == Received(chat0, key) + []
    requires tried == tried0 + [(key, sent)]
    ensures SameBut(first, chat, key) && SameBut(firstItems, items, key)
    ensures tried == firstTried + Tries(key, start, sent + 1)
    ensures Received(chat, key) == Received(first, key) + all[start..sent]
    ensures hasJob ==> key in items && items[key].chunksSent == sent && items[key].status != COMPLETED
    ensures !hasJob ==> items == firstItems
  {
    hide SameBut, Received, Tries;
    SameButTrans(first, chat0, chat, key);
    TriesMore(firstTried, key, start, sent);
  }

  lemma UpToIs(all: seq<string>, key: Key, start: nat, sent: nat,
               chat0: map<Key, seq<string>>, chat: map<Key, seq<string>>, items0: map<Key, Item>,
               items: map<Key, Item>, tried0: seq<(Key, nat)>, tried: seq<(Key, nat)>, hasJob: bool)
    requires UpTo(all, key, start, sent, chat0, chat, items0, items, tried0, tried, hasJob)
    ensures SameBut(chat0, chat, key) && SameBut(items0, items, key) && tried == tried0 + Tries(key, start, sent)
    ensures start <= sent <= |all| && Received(chat, key) == Received(chat0, key) + all[start..sent]
    ensures hasJob ==> key in items && items[key].chunksSent == sent
    ensures hasJob && sent < |all| ==> items[key].status != COMPLETED
    ensures !hasJob ==> items == items0
  {
    hide SameBut, Received, Tries;
  }

  /** A run of a phase and what it starts from. */
  datatype Run = Run(hasJob: bool, items: map<Key, Item>, messages: Key -> seq<string>, replies: Replies)

  /** How far the messages of an article get in a run: from the record on, or without a job
      from the link on. */
  function Reach(run: Run, key: Key): nat {
    StopAt(|run.messages(key)|, if run.hasJob then Recorded(run.items, key) else 0, key, run.replies)
  }

  /** The run raises at this article. */
  predicate Breaks(run: Run, key: Key) {
    Reach(run, key) < |run.messages(key)| && run.replies(key, Reach(run, key)).Transient?
  }

  ghost predicate NoneBreaks(run: Run, phase: Phase, articles: seq<Article>) {
    forall key: Key :: key.phase == phase && Touches(articles, key) ==> !Breaks(run, key)
  }

  function Status(details: map<string, PublishStatus>, ulid: string): Option<PublishStatus> {
    if ulid in details then Some(details[ulid]) else None
  }

  /** Each article the run took up ends as published by the phase if all its messages got
      through, and as unsuccessful otherwise; the others keep their status. */
  ghost predicate Told(run: Run, phase: Phase, articles: seq<Article>,
                       before: map<string, PublishStatus>, after: map<string, PublishStatus>)
  {
    forall ulid: string :: Status(after, ulid) ==
      if !Touches(articles, Key(phase, ulid)) then Status(before, ulid) else Some(StatusFor(run, Key(phase, ulid)))
  }

  function StatusFor(run: Run, key: Key): PublishStatus {
    if Reach(run, key) < |run.messages(key)| then UNSUCCESSFUL
    else if key.phase == BRIEFING then PUBLISHED_BRIEFING else PUBLISHED_ARCHIVE
  }

  /** How often a list takes an article up. */
  function Times(articles: seq<Article>, key: Key): nat {
    if articles == [] then 0
    else
      var n := |articles| - 1;
      Times(articles[..n], key) + (if articles[n].ulid == key.ulid && Takes(key.phase, articles[n]) then 1 else 0)
  }

  function Repeat(all: seq<string>, n: nat): seq<string> {
    if n == 0 then [] else Repeat(all, n - 1) + all
  }

  /** Without a job each time an article is taken up its messages are sent from the start. */
  ghost predicate SentOver(run: Run, phase: Phase, articles: seq<Article>,
                           before: map<Key, seq<string>>, after: map<Key, seq<string>>)
  {
    forall key: Key :: Received(after, key) == Received(before, key) + SentTo(run, phase, articles, key)
  }

  function SentTo(run: Run, phase: Phase, articles: seq<Article>, key: Key): seq<string> {
    if key.phase != phase || Reach(run, key) > |run.messages(key)| then []
    else Repeat(run.messages(key)[..Reach(run, key)], Times(articles, key))
  }

  lemma NothingTold(run: Run, phase: Phase, articles: seq<Article>, details: map<string, PublishStatus>,
                    chat: map<Key, seq<string>>)
    requires articles == []
    ensures NoneBreaks(run, phase, articles) && Told(run, phase, articles, details, details)
    ensures SentOver(run, phase, articles, chat, chat)
  {
    hide Reach;
  }

  /** An article taken up again is taken up from where it got to before. */
  lemma ReachNow(run: Run, items: map<Key, Item>, phase: Phase, articles: seq<Article>, key: Key)
    requires run.hasJob ==> RanOver(run.items, items, run.messages, phase, articles, run.replies)
    ensures Reach(run, key)
         == StopAt(|run.messages(key)|, if run.hasJob then Recorded(items, key) else 0, key, run.replies)
  {
    StopAtAgain(|run.messages(key)|, Recorded(run.items, key), key, run.replies);
    hide StopAt, Recorded, Touches;
  }

  lemma ToldOneMore(run: Run, phase: Phase, articles: seq<Article>, n: nat, first: map<string, PublishStatus>,
                    before: map<string, PublishStatus>, after: map<string, PublishStatus>)
    requires n < |articles| && Takes(phase, articles[n]) && !Breaks(run, Key(phase, articles[n].ulid))
    requires Told(run, phase, articles[..n], first, before) && NoneBreaks(run, phase, articles[..n])
    requires after == before[articles[n].ulid := StatusFor(run, Key(phase, articles[n].ulid))]
    ensures Told(run, phase, articles[..n + 1], first, after) && NoneBreaks(run, phase, articles[..n + 1])
  {
    TouchesMore(articles, phase, n);
    hide Takes, Touches, Reach, Breaks, StatusFor;
  }

  lemma ToldTheSame(run: Run, phase: Phase, articles: seq<Article>, n: nat, first: map<string, PublishStatus>,
                    details: map<string, PublishStatus>)
    requires n < |articles| && !Takes(phase, articles[n])
    requires Told(run, phase, articles[..n], first, details) && NoneBreaks(run, phase, articles[..n])
    ensures Told(run, phase, articles[..n + 1], first, details) && NoneBreaks(run, phase, articles[..n + 1])
  {
    TouchesMore(articles, phase, n);
    hide Takes, Touches, Reach, Breaks, StatusFor;
  }

  lemma TimesMore(articles: seq<Article>, n: nat, key: Key)
    requires n < |articles|
    ensures Times(articles[..n + 1], key)
         == Times(articles[..n], key) + (if articles[n].ulid == key.ulid && Takes(key.phase, articles[n]) then 1 else 0)
  {
    hide Takes;
    assert articles[..n + 1][..n] == articles[..n];
  }

  lemma SentTheSame(run: Run, phase: Phase, articles: seq<Article>, n: nat, first: map<Key, seq<string>>,
                    chat: map<Key, seq<string>>)
    requires n < |articles| && !Takes(phase, articles[n])
    requires SentOver(run, phase, articles[..n], first, chat)
    ensures SentOver(run, phase, articles[..n + 1], first, chat)
  {
    forall key: Key | key.phase == phase ensures Times(articles[..n + 1], key) == Times(articles[..n], key) {
      TimesMore(articles, n, key);
    }
    hide Takes, Times, Reach, Repeat, Received;
  }

  lemma SentOneMore(run: Run, phase: Phase, articles: seq<Article>, n: nat, first: map<Key, seq<string>>,
                    before: map<Key, seq<string>>, after: map<Key, seq<string>>)
    requires n < |articles| && Takes(phase, articles[n])
    requires SentOver(run, phase, articles[..n], first, before)
    requires var key := Key(phase, articles[n].ulid);
             && SameBut(before, after, key) && Reach(run, key) <= |run.messages(key)|
             && Received(after, key) == Received(before, key) + run.messages(key)[0..Reach(run, key)]
    ensures SentOver(run, phase, articles[..n + 1], first, after)
  {
    hide Takes, Reach, SameBut, Received, Times, Repeat;
    var now := Key(phase, articles[n].ulid);
    OneMore(before, after, map[], map[], now);
    forall key: Key
      ensures Received(after, key) == Received(first, key) + SentTo(run, phase, articles[..n + 1], key)
    {
      TimesMore(articles, n, key);
      if key == now {
        RepeatMore(run.messages(key)[..Reach(run, key)], Times(articles[..n], key));
      } else {
        assert key.phase == phase ==> key.ulid != articles[n].ulid;
      }
    }
  }

  lemma RepeatMore(all: seq<string>, n: nat)
    ensures Repeat(all, n + 1) == Repeat(all, n) + all
  {
  }

  lemma NothingSent(before: map<Key, seq<string>>, after: map<Key, seq<string>>, key: Key, all: seq<string>, from: nat)
    requires from <= |all| && Received(after, key) == Received(before, key) + []
    ensures Received(after, key) == Received(before, key) + all[from..from]
  {
  }

  lemma JoinSlices(before: map<Key, seq<string>>, middle: map<Key, seq<string>>, after: map<Key, seq<string>>,
                   key: Key, all: seq<string>, from: nat, start: nat, sent: nat)
    requires from <= start <= sent <= |all|
    requires Received(middle, key) == Received(before, key) + all[from..start]
    requires Received(after, key) == Received(middle, key) + all[start..sent]
    ensures Received(after, key) == Received(before, key) + all[from..sent]
  {
    assert all[from..start] + all[start..sent] == all[from..sent];
  }

  /** A channel that was up to its record still is. */
  lemma ExactAt(before: map<Key, seq<string>>, after: map<Key, seq<string>>, items: map<Key, Item>,
                key: Key, all: seq<string>, from: nat, sent: nat)
    requires from <= sent <= |all| && Recorded(items, key) == sent
    requires Received(before, key) == all[..from] && Received(after, key) == Received(before, key) + all[from..sent]
    requires key in items && items[key].status == COMPLETED ==> sent == |all|
    ensures Exact(after, items, key, all)
  {
    assert all[..from] + all[from..sent] == all[..sent];
  }

  lemma SameButSelf<V>(m: map<Key, V>, key: Key)
    ensures SameBut(m, m, key)
  {
  }

  lemma SameButTrans<V>(a: map<Key, V>, b: map<Key, V>, c: map<Key, V>, key: Key)
    requires SameBut(a, b, key) && SameBut(b, c, key)
    ensures SameBut(a, c, key)
  {
  }

  lemma SameButUpdate<V>(a: map<Key, V>, b: map<Key, V>, key: Key, v: V)
    requires SameBut(a, b, key)
    ensures SameBut(a, b[key := v], key)
  {
    assert b[key := v] - {key} == b - {key};
  }

  lemma SliceMore(before: seq<string>, all: seq<string>, start: nat, sent: nat)
    requires start <= sent < |all|
    ensures (before + all[start..sent]) + [all[sent]] == before + all[start..sent + 1]
  {
  }

  lemma StopAtNext(total: nat, from: nat, key: Key, replies: Replies)
    ensures StopAt(total, from, key, replies)
         == if from < total && replies(key, from).Sent? then StopAt(total, from + 1, key, replies) else from
  {
  }

  lemma StopAtLink(total: nat, key: Key, replies: Replies)
    requires total > 0
    ensures StopAt(total, 0, key, replies) == if replies(key, 0).Sent? then StopAt(total, 1, key, replies) else 0
  {
  }

  lemma {:induction false} StopAtAgain(total: nat, from: nat, key: Key, replies: Replies)
    ensures StopAt(total, StopAt(total, from, key, replies), key, replies) == StopAt(total, from, key, replies)
    decreases total - from
  {
    if from < total && replies(key, from).Sent? { StopAtAgain(total, from + 1, key, replies); }
  }

  lemma NothingRan(items: map<Key, Item>,
                   messages: Key -> seq<string>, phase: Phase, articles: seq<Article>, replies: Replies)
    requires articles == []
    ensures RanOver(items, items, messages, phase, articles, replies)
  {
  }

  lemma TouchesMore(articles: seq<Article>, phase: Phase, n: nat)
    requires n < |articles|
    ensures forall key: Key :: key.phase == phase ==>
              (Touches(articles[..n + 1], key) <==>
               Touches(articles[..n], key) || (key == Key(phase, articles[n].ulid) && Takes(phase, articles[n])))
  {
    hide Takes;
    assert articles[..n + 1] == articles[..n] + [articles[n]];
    forall key: Key | key.phase == phase
      ensures Touches(articles[..n + 1], key) <==>
              Touches(articles[..n], key) || (key == Key(phase, articles[n].ulid) && Takes(phase, articles[n]))
    {
      TouchesAppend(articles[..n], articles[n], key);
    }
  }

  lemma TouchesAppend(articles: seq<Article>, a: Article, key: Key)
    ensures Touches(articles + [a], key) <==> Touches(articles, key) || (a.ulid == key.ulid && Takes(key.phase, a))
  {
    hide Takes;
    var more := articles + [a];
    assert more[|articles|] == a;
    if Touches(articles, key) {
      var i :| 0 <= i < |articles| && articles[i].ulid == key.ulid && Takes(key.phase, articles[i]);
      assert more[i] == articles[i];
    }
  }

  lemma RanTheSame(first: map<Key, Item>, items: map<Key, Item>, messages: Key -> seq<string>,
                   phase: Phase, articles: seq<Article>, n: nat, replies: Replies)
    requires n < |articles| && !Takes(phase, articles[n])
    requires RanOver(first, items, messages, phase, articles[..n], replies)
    ensures RanOver(first, items, messages, phase, articles[..n + 1], replies)
  {
    TouchesMore(articles, phase, n);
    hide Takes, Touches, StopAt, Recorded;
  }

  lemma RanOneMore(first: map<Key, Item>, before: map<Key, Item>, after: map<Key, Item>, messages: Key -> seq<string>,
                   phase: Phase, articles: seq<Article>, n: nat, replies: Replies)
    requires n < |articles| && Takes(phase, articles[n])
    requires RanOver(first, before, messages, phase, articles[..n], replies)
    requires var key := Key(phase, articles[n].ulid);
             SameBut(before, after, key) && Recorded(after, key) ==
                 StopAt(|messages(key)|, Recorded(before, key), key, replies)
    ensures RanOver(first, after, messages, phase, articles[..n + 1], replies)
  {
    var key := Key(phase, articles[n].ulid);
    TouchesMore(articles, phase, n);
    OneMore(map[], map[], before, after, key);
    StopAtAgain(|messages(key)|, Recorded(first, key), key, replies);
    hide Takes, Touches, StopAt, Recorded, SameBut;
  }

  lemma OneMore(chat: map<Key, seq<string>>, chat': map<Key, seq<string>>, items: map<Key, Item>,
                items': map<Key, Item>, key: Key)
    requires SameBut(chat, chat', key) && SameBut(items, items', key)
    ensures forall k :: k != key ==>
              Received(chat', k) == Received(chat, k) && Recorded(items', k) == Recorded(items, k)
    ensures forall k :: k != key ==> (k in items' <==> k in items) && (k in items' ==> items'[k] == items[k])
  {
    forall k | k != key
      ensures Received(chat', k) == Received(chat, k) && Recorded(items', k) == Recorded(items, k)
      ensures (k in items' <==> k in items) && (k in items' ==> items'[k] == items[k])
    {
      assert k in chat' <==> k in chat' - {key};
      assert k in chat <==> k in chat - {key};
      assert k in items' <==> k in items' - {key};
      assert k in items <==> k in items - {key};
    }
  }
}
