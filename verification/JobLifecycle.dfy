/**
 The life of one job (`bot/engine/worker.py`, `api/routes.py`): polled, executed by a thread,
 restarted after system errors, resumed through the API, and its result handed over by a
 callback that is retried.

 One process; a status write lands before the status is read again.  Threads may overlap: a
 job can be resumed while an execution of it is still going on.
 */
module JobLifecycle {

  datatype Status =
    | QUEUED | RUNNING | INTERRUPTED | PAUSED_FOR_HITL | PENDING_CALLBACK
    | COMPLETED | PARTIAL | FAILED | ABANDONED | CANCELLING

  /** How an execution ends: with a result, by asking for a human, or with an exception. */
  datatype Ending = Finishes(success: bool, delivered: bool) | Pauses | Crashes

  datatype Event =
    | Poll(due: bool)
    | ExecutionEnds(ending: Ending)
    | CallbackEnds(success: bool)
    | Resume(resumable: bool)
    | Overwrite(status: Status)

  const MAX_ERRORS := 3
  const MAX_CALLBACKS := 3

  /** The row, the manager's memory of the job, and a tally of what happened so far: `threads`
      execute the job, `retrying` holds the retry count each callback thread was started with.

      `crashes` counts executions restarted after an error, `settled` those that finished or
      were abandoned, `paused` those that paused, and `forgotten` the waiting states that some
      write replaced before the loop saw them. */
  datatype Job = Job(
    status: Status, retryCount: nat, resumeCount: nat, systemErrors: nat, threads: nat, retrying: seq<nat>,
    executions: nat, crashes: nat, settled: nat, paused: nat, forgotten: nat, deliveries: nat, finishes: nat)

  const NEW_JOB := Job(QUEUED, 0, 0, 0, 0, [], 0, 0, 0, 0, 0, 0, 0)

  predicate Waiting(s: Status) {
    s == QUEUED || s == INTERRUPTED
  }

  function Write(j: Job, s: Status): Job {
    j.(status := s, forgotten := if Waiting(j.status) then j.forgotten + 1 else j.forgotten)
  }

  /** One row of the poll: `due` tells whether a pending callback has waited long enough. */
  function Polled(j: Job, due: bool): Job {
    if Waiting(j.status) then j.(status := RUNNING, threads := j.threads + 1, executions := j.executions + 1)
    else if j.status == PENDING_CALLBACK && due then
      j.(retrying := j.retrying + [j.retryCount], deliveries := j.deliveries + 1)
    else j
  }

  /** `_run_job`, from the end of the tool on. */
  function Ended(j: Job, e: Ending): Job
    requires j.threads > 0
  {
    var i := j.(threads := j.threads - 1);
    match e
    case Finishes(success, delivered) =>
      var k := i.(systemErrors := 0, settled := i.settled + 1);
      if !success then Write(k, FAILED)
      else
        var c := k.(finishes := k.finishes + 1, deliveries := k.deliveries + 1);
        if delivered then Write(c, COMPLETED) else Write(c, PENDING_CALLBACK).(retryCount := 1)
    case Pauses => Write(i.(paused := i.paused + 1), PAUSED_FOR_HITL)
    case Crashes =>
      if i.systemErrors + 1 >= MAX_ERRORS then
        Write(i.(systemErrors := 0, settled := i.settled + 1), ABANDONED)
      else
        Write(i.(systemErrors := i.systemErrors + 1, crashes := i.crashes + 1), INTERRUPTED)
  }

  /** `_retry_callback_only`, from the end of the callback on. */
  function Called(j: Job, success: bool): Job
    requires j.retrying != []
  {
    var i := j.(retrying := j.retrying[1..]);
    var count := j.retrying[0] + 1;
    if success then Write(i, COMPLETED)
    else if count >= MAX_CALLBACKS then Write(i.(retryCount := count), PARTIAL)
    else i.(retryCount := count)
  }

  /** The resume endpoint. */
  function Resumed(j: Job, resumable: bool, maxResumes: nat): Job {
    if j.status == PAUSED_FOR_HITL || !resumable then j
    else if j.resumeCount >= maxResumes then Write(j, FAILED)
    else Write(j, QUEUED).(resumeCount := j.resumeCount + 1)
  }

  /** The row of the job and what the manager keeps in memory about it. */
  class WorkerManager {
    var status: Status
    var retryCount: nat
    var resumeCount: nat
    /** 0 when the job has no entry. */
    var systemErrors: nat
    var threads: nat
    var retrying: seq<nat>
    ghost var tally: Job

    ghost function State(): Job
      reads this
    {
      tally.(status := status, retryCount := retryCount, resumeCount := resumeCount,
             systemErrors := systemErrors, threads := threads, retrying := retrying)
    }

    constructor ()
      ensures State() == NEW_JOB
    {
      status, retryCount, resumeCount, systemErrors, threads, retrying := QUEUED, 0, 0, 0, 0, [];
      tally := NEW_JOB;
    }

    /** One row of `_run_loop`. */
    method PollRow(due: bool)
      modifies this
      ensures State() == Polled(old(State()), due)
    {
      tally := Polled(State(), due);
      if status == PENDING_CALLBACK {
        if due { retrying := retrying + [retryCount]; }
      } else if Waiting(status) {
        status := RUNNING;
        threads := threads + 1;
      }
    }

    /** `_run_job` once the tool has returned or raised. */
    method EndExecution(ending: Ending)
      requires threads > 0
      modifies this
      ensures State() == Ended(old(State()), ending)
    {
      tally := Ended(State(), ending);
      match ending {
        case Finishes(success, delivered) =>
          if success && !delivered {
            status, retryCount := PENDING_CALLBACK, 1;
          } else {
            status := if success then COMPLETED else FAILED;
          }
          systemErrors := 0;
        case Pauses =>
          status := PAUSED_FOR_HITL;
        case Crashes =>
          systemErrors := systemErrors + 1;
          if systemErrors >= MAX_ERRORS {
            status, systemErrors := ABANDONED, 0;
          } else {
            status := INTERRUPTED;
          }
      }
      threads := threads - 1;
    }

    /** `_retry_callback_only` once the callback has returned. */
    method EndCallback(success: bool)
      requires retrying != []
      modifies this
      ensures State() == Called(old(State()), success)
    {
      tally := Called(State(), success);
      if success {
        status := COMPLETED;
      } else {
        var newRetryCount := retrying[0] + 1;
        if newRetryCount >= MAX_CALLBACKS { status := PARTIAL; }
        retryCount := newRetryCount;
      }
      retrying := retrying[1..];
    }

    /** `resume_job`; `ok` is false where it answers with an error. */
    method ResumeJob(resumable: bool, maxResumes: nat) returns (ok: bool)
      modifies this
      ensures State() == Resumed(old(State()), resumable, maxResumes)
      ensures ok <==> old(status) != PAUSED_FOR_HITL && resumable && old(resumeCount) < maxResumes
    {
      tally := Resumed(State(), resumable, maxResumes);
      if status == PAUSED_FOR_HITL { return false; }
      if !resumable { return false; }
      if resumeCount >= maxResumes {
        status := FAILED;
        return false;
      }
      status, resumeCount := QUEUED, resumeCount + 1;
      return true;
    }
  }

  /** Whether an event can happen.  Other parts of the program write the status too, but never
      one that the poll loop acts on. */
  predicate Possible(j: Job, e: Event) {
    match e
    case Poll(_) => true
    case ExecutionEnds(_) => j.threads > 0
    case CallbackEnds(_) => j.retrying != []
    case Resume(_) => true
    case Overwrite(s) => !Waiting(s) && s != PENDING_CALLBACK
  }

  function Next(j: Job, e: Event, maxResumes: nat): Job
    requires Possible(j, e)
  {
    match e
    case Poll(due) => Polled(j, due)
    case ExecutionEnds(ending) => Ended(j, ending)
    case CallbackEnds(success) => Called(j, success)
    case Resume(resumable) => Resumed(j, resumable, maxResumes)
    case Overwrite(s) => Write(j, s)
  }

  /** The events are possible one after the other and lead from one state to the other. */
  predicate Runs(events: seq<Event>, maxResumes: nat, from: Job, end: Job)
    decreases |events|
  {
    if events == [] then end == from
    else Possible(from, events[0]) && Runs(events[1..], maxResumes, Next(from, events[0], maxResumes), end)
  }

  // ---------------------------------------------------------------------------------
  // Executions
  // ---------------------------------------------------------------------------------

  function Tokens(j: Job): nat {
    j.threads + if Waiting(j.status) then 1 else 0
  }

  /** Every start of an execution uses up a waiting state, and these come from the creation of
      the job, from a resume or from a crash; after a settled execution no error is counted. */
  predicate ExecutionInv(j: Job, maxResumes: nat) {
    && j.resumeCount <= maxResumes
    && j.executions + (if Waiting(j.status) then 1 else 0) + j.forgotten == 1 + j.resumeCount + j.crashes
    && j.executions == j.threads + j.crashes + j.settled + j.paused
    && j.crashes <= (MAX_ERRORS - 1) * j.settled + j.systemErrors
    && j.systemErrors < MAX_ERRORS
    && (j.systemErrors > 0 ==> Tokens(j) + j.forgotten + j.paused > 0)
  }

  lemma EndKeepsExecutionInv(j: Job, ending: Ending, maxResumes: nat)
    requires ExecutionInv(j, maxResumes) && j.threads > 0
    ensures ExecutionInv(Ended(j, ending), maxResumes)
  {
    match ending
    case Finishes(_, _) =>
    case Pauses =>
    case Crashes =>
  }

  lemma StepKeepsExecutionInv(j: Job, e: Event, maxResumes: nat)
    requires ExecutionInv(j, maxResumes) && Possible(j, e)
    ensures ExecutionInv(Next(j, e, maxResumes), maxResumes)
  {
    match e
    case Poll(_) =>
    case ExecutionEnds(ending) =>
      EndKeepsExecutionInv(j, ending, maxResumes);
      hide *;
    case CallbackEnds(_) =>
    case Resume(_) =>
    case Overwrite(_) =>
  }

  lemma {:induction false} RunKeepsExecutionInv(events: seq<Event>, maxResumes: nat, from: Job, end: Job)
    requires ExecutionInv(from, maxResumes) && Runs(events, maxResumes, from, end)
    ensures ExecutionInv(end, maxResumes)
    decreases |events|
  {
    if events != [] {
      StepKeepsExecutionInv(from, events[0], maxResumes);
      RunKeepsExecutionInv(events[1..], maxResumes, Next(from, events[0], maxResumes), end);
    }
  }

  /** However its executions, retries and resumes overlap, a job is executed at most three
      times for its creation and for each resume. */
  lemma ExecutionsAreBounded(events: seq<Event>, maxResumes: nat, end: Job)
    requires Runs(events, maxResumes, NEW_JOB, end)
    ensures end.executions <= 3 * (1 + end.resumeCount) <= 3 * (1 + maxResumes)
  {
    RunKeepsExecutionInv(events, maxResumes, NEW_JOB, end);
  }

  /** The run in which every execution crashes and every abandoned job is resumed. */
  function CrashRun(resumes: nat): seq<Event> {
    var once := [Poll(true), ExecutionEnds(Crashes)];
    var thrice := once + once + once;
    if resumes == 0 then thrice else CrashRun(resumes - 1) + [Resume(true)] + thrice
  }

  /** The bound is reached. */
  lemma {:induction false} ExecutionBoundIsReached(maxResumes: nat, resumes: nat) returns (end: Job)
    requires resumes <= maxResumes
    ensures Runs(CrashRun(resumes), maxResumes, NEW_JOB, end)
    ensures end.status == ABANDONED && end.resumeCount == resumes && end.systemErrors == 0
    ensures end.executions == 3 * (1 + resumes)
  {
    var once := [Poll(true), ExecutionEnds(Crashes)];
    if resumes == 0 {
      end := ThreeCrashes(NEW_JOB, maxResumes);
    } else {
      var before := ExecutionBoundIsReached(maxResumes, resumes - 1);
      var queued := Next(before, Resume(true), maxResumes);
      end := ThreeCrashes(queued, maxResumes);
      assert Runs([Resume(true)], maxResumes, before, queued);
      RunsAppend(CrashRun(resumes - 1), [Resume(true)], maxResumes, NEW_JOB, before, queued);
      RunsAppend(CrashRun(resumes - 1) + [Resume(true)], once + once + once, maxResumes, NEW_JOB, queued, end);
    }
  }

  lemma ThreeCrashes(j: Job, maxResumes: nat) returns (end: Job)
    requires Waiting(j.status) && j.systemErrors == 0
    ensures var once := [Poll(true), ExecutionEnds(Crashes)]; Runs(once + once + once, maxResumes, j, end)
    ensures end.status == ABANDONED && end.systemErrors == 0 && end.resumeCount == j.resumeCount
    ensures end.executions == j.executions + MAX_ERRORS
  {
    var once := [Poll(true), ExecutionEnds(Crashes)];
    var one := CrashOnce(j, maxResumes);
    var two := CrashOnce(one, maxResumes);
    end := CrashOnce(two, maxResumes);
    RunsAppend(once, once, maxResumes, j, one, two);
    RunsAppend(once + once, once, maxResumes, j, two, end);
  }

  lemma CrashOnce(j: Job, maxResumes: nat) returns (end: Job)
    requires Waiting(j.status) && j.systemErrors < MAX_ERRORS
    ensures Runs([Poll(true), ExecutionEnds(Crashes)], maxResumes, j, end)
    ensures end.executions == j.executions + 1 && end.resumeCount == j.resumeCount
    ensures if j.systemErrors + 1 < MAX_ERRORS then end.status == INTERRUPTED && end.systemErrors == j.systemErrors + 1
            else end.status == ABANDONED && end.systemErrors == 0
  {
    var running := Next(j, Poll(true), maxResumes);
    end := Next(running, ExecutionEnds(Crashes), maxResumes);
    var events := [Poll(true), ExecutionEnds(Crashes)];
    assert events[1..] == [ExecutionEnds(Crashes)] && events[1..][1..] == [];
    assert Runs(events[1..][1..], maxResumes, end, end);
    assert Runs(events[1..], maxResumes, running, end);
  }

  lemma {:induction false} RunsAppend(a: seq<Event>, b: seq<Event>, maxResumes: nat, from: Job, middle: Job, end: Job)
    requires Runs(a, maxResumes, from, middle) && Runs(b, maxResumes, middle, end)
    ensures Runs(a + b, maxResumes, from, end)
    decreases |a|
  {
    if a == [] {
      assert a + b == b;
    } else {
      RunsAppend(a[1..], b, maxResumes, Next(from, a[0], maxResumes), middle, end);
      assert (a + b)[0] == a[0] && (a + b)[1..] == a[1..] + b;
    }
  }

  // ---------------------------------------------------------------------------------
  // Callbacks
  // ---------------------------------------------------------------------------------

  /** The loop does not look at a pending callback while a retry of it is still under way. */
  predicate OneRetryAtATime(events: seq<Event>, maxResumes: nat, from: Job)
    decreases |events|
  {
    events == []
    || (Possible(from, events[0])
        && (events[0].Poll? && from.status == PENDING_CALLBACK && events[0].due ==> from.retrying == [])
        && OneRetryAtATime(events[1..], maxResumes, Next(from, events[0], maxResumes)))
  }

  /** The rounds a pending callback still has. */
  function RoundsLeft(j: Job): int {
    if j.status != PENDING_CALLBACK then 0
    else if j.retrying == [] then MAX_CALLBACKS - j.retryCount
    else MAX_CALLBACKS - 1 - j.retrying[0]
  }

  /** At most one retry is under way, and the counts are in range. */
  predicate Controlled(j: Job) {
    && |j.retrying| <= 1
    && (j.retrying != [] ==> 1 <= j.retrying[0] < MAX_CALLBACKS)
    && (j.status == PENDING_CALLBACK ==> 1 <= j.retryCount < MAX_CALLBACKS)
    && (j.status == PENDING_CALLBACK && j.retrying != [] ==> j.retryCount <= j.retrying[0])
  }

  predicate CallbackInv(j: Job) {
    Controlled(j) && j.deliveries + RoundsLeft(j) <= MAX_CALLBACKS * j.finishes
  }

  lemma StepKeepsCallbackInv(j: Job, e: Event, maxResumes: nat)
    requires CallbackInv(j) && Possible(j, e)
    requires e.Poll? && j.status == PENDING_CALLBACK && e.due ==> j.retrying == []
    ensures CallbackInv(Next(j, e, maxResumes))
  {
    match e
    case Poll(_) =>
    case ExecutionEnds(ending) =>
      match ending {
        case Finishes(_, _) =>
        case Pauses =>
        case Crashes =>
      }
    case CallbackEnds(_) =>
    case Resume(_) =>
    case Overwrite(_) =>
  }

  lemma {:induction false} RunKeepsCallbackInv(events: seq<Event>, maxResumes: nat, from: Job, end: Job)
    requires CallbackInv(from) && Runs(events, maxResumes, from, end) && OneRetryAtATime(events, maxResumes, from)
    ensures CallbackInv(end)
    decreases |events|
  {
    if events != [] {
      StepKeepsCallbackInv(from, events[0], maxResumes);
      RunKeepsCallbackInv(events[1..], maxResumes, Next(from, events[0], maxResumes), end);
    }
  }

  /** If retries do not overlap, there are at most three callback rounds for each finished
      execution in total ... */
  lemma CallbackRoundsInTotal(events: seq<Event>, maxResumes: nat, end: Job)
    requires Runs(events, maxResumes, NEW_JOB, end) && OneRetryAtATime(events, maxResumes, NEW_JOB)
    ensures end.deliveries <= 3 * end.finishes
  {
    RunKeepsCallbackInv(events, maxResumes, NEW_JOB, end);
  }

  /** Only a finished execution raises the number of rounds made and left, and then to one made
      and two left. */
  lemma StepKeepsBudget(j: Job, e: Event, maxResumes: nat)
    requires Controlled(j) && Possible(j, e)
    requires e.Poll? && j.status == PENDING_CALLBACK && e.due ==> j.retrying == []
    ensures var n := Next(j, e, maxResumes);
            && Controlled(n) && n.finishes >= j.finishes
            && (n.finishes == j.finishes ==> n.deliveries + RoundsLeft(n) <= j.deliveries + RoundsLeft(j))
            && (n.finishes > j.finishes ==> n.deliveries == j.deliveries + 1 && RoundsLeft(n) <= MAX_CALLBACKS - 1)
  {
    match e
    case Poll(_) =>
    case ExecutionEnds(ending) =>
      match ending {
        case Finishes(_, _) =>
        case Pauses =>
        case Crashes =>
      }
    case CallbackEnds(_) =>
    case Resume(_) =>
    case Overwrite(_) =>
  }

  /** Without a further finish and without overlap, the rounds made and left do not grow. */
  lemma {:induction false} RunKeepsBudget(events: seq<Event>, maxResumes: nat, from: Job, end: Job)
    requires Controlled(from) && Runs(events, maxResumes, from, end) && OneRetryAtATime(events, maxResumes, from)
    ensures Controlled(end) && end.finishes >= from.finishes
    ensures end.finishes == from.finishes ==> end.deliveries + RoundsLeft(end) <= from.deliveries + RoundsLeft(from)
    decreases |events|
  {
    if events != [] {
      StepKeepsBudget(from, events[0], maxResumes);
      hide Next, Controlled, RoundsLeft;
      RunKeepsBudget(events[1..], maxResumes, Next(from, events[0], maxResumes), end);
    }
  }

  /** ... and for each single one: from where it finishes to the next finish, the callback is
      called at most three times. */
  lemma CallbackRoundsAreBounded(before: seq<Event>, delivered: bool, later: seq<Event>, maxResumes: nat, j: Job,
                                 end: Job)
    requires Runs(before, maxResumes, NEW_JOB, j) && OneRetryAtATime(before, maxResumes, NEW_JOB) && j.threads > 0
    requires var finished := Ended(j, Finishes(true, delivered));
             && Runs(later, maxResumes, finished, end) && OneRetryAtATime(later, maxResumes, finished)
             && end.finishes == finished.finishes
    ensures end.deliveries <= j.deliveries + 3
  {
    RunKeepsBudget(before, maxResumes, NEW_JOB, j);
    StepKeepsBudget(j, ExecutionEnds(Finishes(true, delivered)), maxResumes);
    RunKeepsBudget(later, maxResumes, Ended(j, Finishes(true, delivered)), end);
    hide Runs, OneRetryAtATime;
    assert RoundsLeft(end) >= 0;
  }

  /** A run after a due poll of job j, without a further finish and without overlap. */
  ghost predicate Continues(j: Job, events: seq<Event>, maxResumes: nat, end: Job) {
    var polled := Polled(j, true);
    && Runs(events, maxResumes, polled, end) && OneRetryAtATime(events, maxResumes, polled)
    && end.finishes == j.finishes
  }

  /** A due poll of a pending callback keeps everything that can follow within the rounds left
      exactly if no retry is under way: overlap is what breaks the bound, and any overlap can. */
  lemma DuePollKeepsBudgetIff(j: Job, maxResumes: nat)
    requires Controlled(j) && j.status == PENDING_CALLBACK
    ensures j.retrying == [] <==>
              forall events, end :: Continues(j, events, maxResumes, end) ==>
                  end.deliveries <= j.deliveries + RoundsLeft(j)
  {
    if j.retrying == [] {
      forall events, end | Continues(j, events, maxResumes, end)
        ensures end.deliveries <= j.deliveries + RoundsLeft(j)
      {
        StepKeepsBudget(j, Poll(true), maxResumes);
        RunKeepsBudget(events, maxResumes, Polled(j, true), end);
      }
    } else {
      var events, end := OverlapExceedsBudget(j, maxResumes);
      assert Continues(j, events, maxResumes, end);
    }
  }

  /** One overlapping poll is enough for a round too many. */
  lemma OverlapExceedsBudget(j: Job, maxResumes: nat) returns (events: seq<Event>, end: Job)
    requires Controlled(j) && j.status == PENDING_CALLBACK && j.retrying != []
    ensures Continues(j, events, maxResumes, end) && end.deliveries == j.deliveries + RoundsLeft(j) + 1
  {
    var polled := Polled(j, true);
    if j.retrying[0] == MAX_CALLBACKS - 1 {
      events, end := [], polled;
    } else {
      var once := Called(polled, false);
      var twice := Called(once, false);
      end := Polled(twice, true);
      events := [CallbackEnds(false), CallbackEnds(false), Poll(true)];
      hide Called, Polled;
      ThreeEvents(events, maxResumes, polled, once, twice, end);
    }
  }

  lemma ThreeEvents(events: seq<Event>, maxResumes: nat, from: Job, first: Job, second: Job, end: Job)
    requires |events| == 3 && !events[0].Poll? && !events[1].Poll?
    requires Possible(from, events[0]) && first == Next(from, events[0], maxResumes)
    requires Possible(first, events[1]) && second == Next(first, events[1], maxResumes)
    requires events[2] == Poll(true) && second.retrying == [] && end == Next(second, events[2], maxResumes)
    ensures Runs(events, maxResumes, from, end) && OneRetryAtATime(events, maxResumes, from)
  {
    hide Next;
    assert events[1..][1..][1..] == [];
    assert Runs(events[1..][1..], maxResumes, second, end) && OneRetryAtATime(events[1..][1..], maxResumes, second);
    assert Runs(events[1..], maxResumes, first, end) && OneRetryAtATime(events[1..], maxResumes, first);
  }

  /** If polls go on overlapping, the rounds are unbounded: the row stays as it is while a retry is under way,
      and every poll starts another one. */
  lemma {:induction false} OverlappingRetriesAreUnbounded(j: Job, maxResumes: nat, n: nat) returns (end: Job)
    requires j.status == PENDING_CALLBACK
    ensures Runs(seq(n, _ => Poll(true)), maxResumes, j, end)
    ensures end.status == PENDING_CALLBACK && end.finishes == j.finishes && end.deliveries == j.deliveries + n
    decreases n
  {
    if n == 0 {
      end := j;
    } else {
      var polls := seq(n, _ => Poll(true));
      end := OverlappingRetriesAreUnbounded(Next(j, Poll(true), maxResumes), maxResumes, n - 1);
      assert polls[1..] == seq(n - 1, _ => Poll(true));
    }
  }

  // ---------------------------------------------------------------------------------
  // Coming to rest
  // ---------------------------------------------------------------------------------

  /** The manager does something at this event. */
  predicate Works(j: Job, e: Event) {
    match e
    case Poll(due) => Waiting(j.status) || (j.status == PENDING_CALLBACK && due)
    case ExecutionEnds(_) => true
    case CallbackEnds(_) => true
    case Resume(_) => false
    case Overwrite(_) => false
  }

  /** What the manager can still do before it needs a resume. */
  function StepsLeft(j: Job): int {
    10 * Tokens(j) + 2 * (MAX_ERRORS - j.systemErrors) + (if Waiting(j.status) then 1 else 0)
    + |j.retrying| + 2 * RoundsLeft(j)
  }

  lemma EndBringsRest(j: Job, ending: Ending)
    requires CallbackInv(j) && j.systemErrors < MAX_ERRORS && j.threads > 0
    ensures StepsLeft(Ended(j, ending)) < StepsLeft(j)
  {
    match ending
    case Finishes(_, _) =>
    case Pauses =>
    case Crashes =>
  }

  /** Each thing the manager does brings the job closer to rest, and nothing but a resume takes
      it further away. */
  lemma StepsLeftDecreases(j: Job, e: Event, maxResumes: nat)
    requires ExecutionInv(j, maxResumes) && CallbackInv(j) && Possible(j, e)
    requires e.Poll? && j.status == PENDING_CALLBACK && e.due ==> j.retrying == []
    ensures 0 <= StepsLeft(j)
    ensures Works(j, e) ==> StepsLeft(Next(j, e, maxResumes)) < StepsLeft(j)
    ensures !Works(j, e) && !e.Resume? ==> StepsLeft(Next(j, e, maxResumes)) <= StepsLeft(j)
    ensures e.Resume? && Next(j, e, maxResumes).resumeCount == j.resumeCount ==>
              StepsLeft(Next(j, e, maxResumes)) <= StepsLeft(j)
  {
    match e
    case Poll(_) =>
    case ExecutionEnds(ending) =>
      EndBringsRest(j, ending);
      hide Ended;
    case CallbackEnds(_) =>
    case Resume(_) =>
    case Overwrite(_) =>
  }

  /** It does something exactly if what it sees at that event changes the job. */
  lemma WorksIff(j: Job, e: Event, maxResumes: nat)
    requires Possible(j, e) && (e.Poll? || e.ExecutionEnds? || e.CallbackEnds?)
    ensures Works(j, e) <==> Next(j, e, maxResumes) != j
  {
    match e
    case Poll(_) =>
    case ExecutionEnds(ending) =>
      assert Next(j, e, maxResumes).threads == j.threads - 1 by {
        match ending
        case Finishes(_, _) =>
        case Pauses =>
        case Crashes =>
      }
    case CallbackEnds(_) =>
      assert |Next(j, e, maxResumes).retrying| == |j.retrying| - 1;
  }

  /** How often the manager does something in a run. */
  function WorkDone(events: seq<Event>, maxResumes: nat, from: Job): nat
    requires OneRetryAtATime(events, maxResumes, from)
    decreases |events|
  {
    if events == [] then 0
    else
      (if Works(from, events[0]) then 1 else 0)
      + WorkDone(events[1..], maxResumes, Next(from, events[0], maxResumes))
  }

  /** Without a resume the manager is done with the job after a bounded number of steps. */
  lemma {:induction false} WorkIsBounded(events: seq<Event>, maxResumes: nat, from: Job)
    requires ExecutionInv(from, maxResumes) && CallbackInv(from) && OneRetryAtATime(events, maxResumes, from)
    requires forall i :: 0 <= i < |events| ==> !events[i].Resume?
    ensures WorkDone(events, maxResumes, from) <= StepsLeft(from)
    decreases |events|
  {
    if events == [] {
      StepsLeftDecreases(from, Poll(false), maxResumes);
    } else {
      StepsLeftDecreases(from, events[0], maxResumes);
      StepKeepsExecutionInv(from, events[0], maxResumes);
      StepKeepsCallbackInv(from, events[0], maxResumes);
      hide ExecutionInv, CallbackInv, StepsLeft, Works, Next;
      assert forall i :: 0 <= i < |events[1..]| ==> events[1..][i] == events[i + 1];
      WorkIsBounded(events[1..], maxResumes, Next(from, events[0], maxResumes));
    }
  }

  /** The manager does something at every event of the run. */
  predicate AlwaysWorks(events: seq<Event>, maxResumes: nat, from: Job)
    requires OneRetryAtATime(events, maxResumes, from)
    decreases |events|
  {
    events == []
    || (Works(from, events[0]) && AlwaysWorks(events[1..], maxResumes, Next(from, events[0], maxResumes)))
  }

  /** So a run in which it never rests is over after that many events. */
  lemma RestComesInTime(events: seq<Event>, maxResumes: nat, from: Job)
    requires ExecutionInv(from, maxResumes) && CallbackInv(from) && OneRetryAtATime(events, maxResumes, from)
    requires AlwaysWorks(events, maxResumes, from)
    ensures |events| <= StepsLeft(from)
  {
    NeverAResume(events, maxResumes, from);
    WorkIsBounded(events, maxResumes, from);
    hide StepsLeft, WorkDone;
  }

  lemma {:induction false} NeverAResume(events: seq<Event>, maxResumes: nat, from: Job)
    requires OneRetryAtATime(events, maxResumes, from) && AlwaysWorks(events, maxResumes, from)
    ensures WorkDone(events, maxResumes, from) == |events|
    ensures forall i :: 0 <= i < |events| ==> !events[i].Resume?
    decreases |events|
  {
    if events != [] {
      hide Next;
      NeverAResume(events[1..], maxResumes, Next(from, events[0], maxResumes));
      assert forall i :: 0 < i < |events| ==> events[i] == events[1..][i - 1];
    }
  }
}
