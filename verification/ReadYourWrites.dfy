/**
 The writer's commit, bump, resolve sequence (`database/writer.py`) interleaved with any
 number of threads inside `get_read_connection` (`database/connection.py`).

 Commits are numbered in the order they become durable; a connection is represented by the
 number of commits that existed when it was opened, which is the least it can show.
 Connections may be closed and opening may fail at any moment.
 */
module ReadYourWrites {
  import opened Options

  /** Where the writer is with the write it is working on. */
  datatype WriterPc = Idle | Durable | Bumped

  /** Where a thread is inside `get_read_connection`; `g` is the generation it read. */
  datatype ReaderPc = Outside | HasGeneration(g: nat) | StaleDropped(g: nat) | Connected(g: nat)

  /** A thread's local connection and the generation it last recorded (-1 for none). */
  datatype Reader = Reader(pc: ReaderPc, conn: Option<nat>, lastSeen: int)

  datatype State = State(commits: nat, generation: nat, writer: WriterPc, resolved: set<nat>, readers: seq<Reader>)

  datatype Step =
    | Commit
    | Bump
    | Resolve
    | ReadGeneration(r: nat)
    | DropStale(r: nat)
    | Open(r: nat)
    | OpenFails(r: nat)
    | Stamp(r: nat)
    | Close(r: nat)

  predicate Enabled(s: State, step: Step) {
    match step
    case Commit => s.writer.Idle?
    case Bump => s.writer.Durable?
    case Resolve => s.writer.Bumped?
    case ReadGeneration(r) => r < |s.readers| && s.readers[r].pc.Outside?
    case DropStale(r) => r < |s.readers| && s.readers[r].pc.HasGeneration?
    case Open(r) => r < |s.readers| && s.readers[r].pc.StaleDropped?
    case OpenFails(r) => r < |s.readers| && s.readers[r].pc.StaleDropped? && s.readers[r].conn.None?
    case Stamp(r) => r < |s.readers| && s.readers[r].pc.Connected?
    case Close(r) => r < |s.readers| && s.readers[r].pc.Outside?
  }

  /** One atomic step.  Write number n is the n-th commit, counting from 1. */
  function Do(s: State, step: Step): State
    requires Enabled(s, step)
  {
    match step
    case Commit => s.(commits := s.commits + 1, writer := Durable)
    case Bump => s.(generation := s.generation + 1, writer := Bumped)
    case Resolve => s.(resolved := s.resolved + {s.commits}, writer := Idle)
    case ReadGeneration(r) => With(s, r, s.readers[r].(pc := HasGeneration(s.generation)))
    case DropStale(r) =>
      var me := s.readers[r];
      var g := me.pc.g;
      With(s, r, me.(pc := StaleDropped(g), conn := if me.conn.Some? && me.lastSeen < g then None else me.conn))
    case Open(r) =>
      var me := s.readers[r];
      With(s, r, me.(pc := Connected(me.pc.g), conn := if me.conn.None? then Some(s.commits) else me.conn))
    case OpenFails(r) => With(s, r, s.readers[r].(pc := Outside))
    case Stamp(r) =>
      var me := s.readers[r];
      With(s, r, me.(pc := Outside, lastSeen := me.pc.g))
    case Close(r) => With(s, r, s.readers[r].(conn := None))
  }

  function With(s: State, r: nat, me: Reader): State
    requires r < |s.readers|
  {
    s.(readers := s.readers[r := me])
  }

  predicate Init(s: State) {
    s.commits == 0 && s.generation == 0 && s.writer.Idle? && s.resolved == {}
    && forall r :: 0 <= r < |s.readers| ==> s.readers[r] == Reader(Outside, None, -1)
  }

  /** A reader's connection shows every commit up to the generation it recorded, and once
      it has passed the check, every commit up to the generation it read. */
  predicate ReaderOk(me: Reader, commits: nat, generation: nat) {
    && me.lastSeen <= generation
    && (me.conn.Some? ==> me.conn.value <= commits && me.lastSeen <= me.conn.value)
    && (me.pc != Outside ==> me.lastSeen <= me.pc.g <= generation)
    && ((me.pc.StaleDropped? || me.pc.Connected?) && me.conn.Some? ==> me.pc.g <= me.conn.value)
    && (me.pc.Connected? ==> me.conn.Some?)
  }

  /** Write n is durable, and the writer is done with it. */
  predicate ReceiptDue(s: State, n: nat) {
    1 <= n <= s.commits && (n == s.commits ==> s.writer.Idle?)
  }

  ghost predicate Inv(s: State) {
    && s.commits == s.generation + (if s.writer.Durable? then 1 else 0)
    && (s.writer.Bumped? ==> s.commits >= 1)
    && (forall n :: n in s.resolved <==> ReceiptDue(s, n))
    && (forall r :: 0 <= r < |s.readers| ==> ReaderOk(s.readers[r], s.commits, s.generation))
  }

  lemma StepKeepsInv(s: State, step: Step)
    requires Inv(s) && Enabled(s, step)
    ensures Inv(Do(s, step))
  {
    var t := Do(s, step);
    forall r | 0 <= r < |t.readers| ensures ReaderOk(t.readers[r], t.commits, t.generation) {
      assert ReaderOk(s.readers[r], s.commits, s.generation);
    }
  }

  /** The states of a run: trace[k+1] is trace[k] after steps[k]. */
  predicate IsRun(trace: seq<State>, steps: seq<Step>) {
    && |trace| == |steps| + 1 && Init(trace[0])
    && forall k :: 0 <= k < |steps| ==> Enabled(trace[k], steps[k]) && trace[k + 1] == Do(trace[k], steps[k])
  }

  /** In every interleaving, at every moment, every reader's connection contains all the
      commits up to the generation it recorded. */
  lemma {:induction false} RunKeepsInv(trace: seq<State>, steps: seq<Step>, k: nat)
    requires IsRun(trace, steps) && k < |trace|
    ensures Inv(trace[k])
    decreases k
  {
    if k > 0 {
      RunKeepsInv(trace, steps, k - 1);
      StepKeepsInv(trace[k - 1], steps[k - 1]);
    }
  }

  /** In every run, at every moment, exactly the receipts of the writes the writer is done with
      are resolved. */
  lemma ResolvedIff(trace: seq<State>, steps: seq<Step>, k: nat, n: nat)
    requires IsRun(trace, steps) && k < |trace|
    ensures n in trace[k].resolved <==> 1 <= n <= trace[k].commits && (n == trace[k].commits ==> trace[k].writer.Idle?)
  {
    RunKeepsInv(trace, steps, k);
  }

  /** The resolve step answers the last commit. */
  lemma ResolveAnswers(trace: seq<State>, steps: seq<Step>, k: nat)
    requires IsRun(trace, steps) && k < |steps| && steps[k] == Resolve
    ensures trace[k].commits >= 1 && trace[k].commits in trace[k + 1].resolved
    ensures trace[k + 1].commits == trace[k].commits
  {
    RunKeepsInv(trace, steps, k);
    RunKeepsInv(trace, steps, k + 1);
  }

  /** While a thread is inside the call it keeps the generation it read. */
  lemma {:induction false} GenerationIsKept(trace: seq<State>, steps: seq<Step>, r: nat, i: nat, j: nat)
    requires IsRun(trace, steps) && i < j <= |steps| && r < |trace[i].readers|
    requires steps[i] == ReadGeneration(r)
    requires forall k :: i < k < j ==> steps[k] != Stamp(r) && steps[k] != OpenFails(r)
    ensures |trace[j].readers| == |trace[i].readers|
    ensures trace[j].readers[r].pc != Outside && trace[j].readers[r].pc.g == trace[i].generation
    decreases j
  {
    assert trace[j] == Do(trace[j - 1], steps[j - 1]);
    if j > i + 1 {
      GenerationIsKept(trace, steps, r, i, j - 1);
    }
  }

  /** Read your writes: a thread that asks for a connection after the receipt of write n
      was resolved gets one that contains write n, whatever the writer and all other
      threads do in the meantime. */
  lemma ReadYourWrite(trace: seq<State>, steps: seq<Step>, r: nat, n: nat, i: nat, j: nat)
    requires IsRun(trace, steps) && i < j < |steps| && r < |trace[i].readers|
    requires n in trace[i].resolved
    requires steps[i] == ReadGeneration(r) && steps[j] == Stamp(r)
    requires forall k :: i < k < j ==> steps[k] != Stamp(r) && steps[k] != OpenFails(r)
    ensures var me := trace[j + 1].readers[r];
            |trace[j + 1].readers| == |trace[i].readers| && me.pc == Outside && me.conn.Some? && n <= me.conn.value
  {
    RunKeepsInv(trace, steps, i);
    RunKeepsInv(trace, steps, j);
    GenerationIsKept(trace, steps, r, i, j);
    assert ReaderOk(trace[j].readers[r], trace[j].commits, trace[j].generation);
    assert trace[j + 1] == Do(trace[j], steps[j]);
  }

  /** The connection a thread has is not older than the generation. */
  predicate IsCurrent(me: Reader, generation: nat) {
    me.conn.Some? && me.lastSeen >= generation
  }

  /** Where a call of thread r that read the generation at step i stands before step k. */
  ghost predicate CallStands(trace: seq<State>, steps: seq<Step>, r: nat, i: nat, k: nat)
    requires IsRun(trace, steps) && i < k <= |steps| && r < |trace[i].readers| && r < |trace[k].readers|
  {
    var was, g, me := trace[i].readers[r], trace[i].generation, trace[k].readers[r];
    && me.lastSeen == was.lastSeen && me.pc != Outside && me.pc.g == g
    && (me.pc.HasGeneration? ==> me.conn == was.conn)
    && (me.pc.StaleDropped? ==> me.conn == if IsCurrent(was, g) then was.conn else None)
    && (me.pc.Connected? ==>
          if IsCurrent(was, g) then me.conn == was.conn
          else exists o :: i < o < k && steps[o] == Open(r) && me.conn == Some(trace[o].commits))
  }

  lemma {:induction false} CallProceeds(trace: seq<State>, steps: seq<Step>, r: nat, i: nat, k: nat)
    requires IsRun(trace, steps) && i < k <= |steps| && r < |trace[i].readers| && steps[i] == ReadGeneration(r)
    requires forall q :: i < q < k ==> steps[q] != Stamp(r) && steps[q] != OpenFails(r)
    ensures |trace[k].readers| == |trace[i].readers| && CallStands(trace, steps, r, i, k)
    decreases k
  {
    assert trace[k] == Do(trace[k - 1], steps[k - 1]);
    if k > i + 1 {
      CallProceeds(trace, steps, r, i, k - 1);
    }
  }

  /** What a call hands out: the connection the thread has if that is current, and otherwise
      one opened during the call, which shows every commit made until then. */
  lemma CallReusesOrOpens(trace: seq<State>, steps: seq<Step>, r: nat, i: nat, j: nat)
    requires IsRun(trace, steps) && i < j < |steps| && r < |trace[i].readers|
    requires steps[i] == ReadGeneration(r) && steps[j] == Stamp(r)
    requires forall q :: i < q < j ==> steps[q] != Stamp(r) && steps[q] != OpenFails(r)
    ensures |trace[j + 1].readers| == |trace[i].readers|
    ensures var was, g, me := trace[i].readers[r], trace[i].generation, trace[j + 1].readers[r];
            && me.pc == Outside && me.lastSeen == g
            && if IsCurrent(was, g) then me.conn == was.conn
               else exists o :: i < o < j && steps[o] == Open(r) && me.conn == Some(trace[o].commits)
  {
    CallProceeds(trace, steps, r, i, j);
    assert trace[j + 1] == Do(trace[j], steps[j]);
  }

  /** The order of the writer's steps matters: were the receipt resolved before the bump, a
      thread could be handed a connection from before the write.  In this run a reader that
      opened its connection at generation 0 asks again while write 1 is durable but not yet
      bumped, and is handed the old connection. */
  lemma BeforeTheBumpIsTooEarly() returns (trace: seq<State>, steps: seq<Step>)
    ensures IsRun(trace, steps) && |steps| == 9
    ensures steps[4] == Commit && trace[5].writer.Durable? && trace[5].commits == 1
    ensures steps[5] == ReadGeneration(0) && steps[8] == Stamp(0)
    ensures |trace[9].readers| == 1 && trace[9].readers[0].conn == Some(0)
  {
    trace, steps := [State(0, 0, Idle, {}, [Reader(Outside, None, -1)])], [];
    trace, steps := Ask(trace, steps);
    trace, steps := Extended(trace, steps, Commit);
    trace, steps := Ask(trace, steps);
  }

  lemma Extended(trace: seq<State>, steps: seq<Step>, step: Step) returns (longer: seq<State>, more: seq<Step>)
    requires IsRun(trace, steps) && Enabled(trace[|steps|], step)
    ensures IsRun(longer, more) && more == steps + [step] && longer == trace + [Do(trace[|steps|], step)]
    ensures |longer| == |more| + 1 && longer[|more|] == Do(trace[|steps|], step)
  {
    hide Do, Enabled, Init;
    longer, more := trace + [Do(trace[|steps|], step)], steps + [step];
    forall k | 0 <= k < |more| ensures Enabled(longer[k], more[k]) && longer[k + 1] == Do(longer[k], more[k]) {
      if k < |steps| { assert more[k] == steps[k] && longer[k] == trace[k] && longer[k + 1] == trace[k + 1]; }
    }
  }

  /** One undisturbed call by the only reader. */
  lemma Ask(trace: seq<State>, steps: seq<Step>) returns (longer: seq<State>, more: seq<Step>)
    requires IsRun(trace, steps) && |trace[|steps|].readers| == 1 && trace[|steps|].readers[0].pc.Outside?
    ensures IsRun(longer, more) && more == steps + [ReadGeneration(0), DropStale(0), Open(0), Stamp(0)]
    ensures trace <= longer
    ensures longer[|more|] == Asked(trace[|steps|])
  {
    hide IsRun;
    longer, more := Extended(trace, steps, ReadGeneration(0));
    longer, more := Extended(longer, more, DropStale(0));
    longer, more := Extended(longer, more, Open(0));
    longer, more := Extended(longer, more, Stamp(0));
  }

  function Asked(s: State): State
    requires |s.readers| == 1
  {
    var me := s.readers[0];
    var conn := if me.conn.None? || me.lastSeen < s.generation then Some(s.commits) else me.conn;
    s.(readers := [Reader(Outside, conn, s.generation)])
  }
}
