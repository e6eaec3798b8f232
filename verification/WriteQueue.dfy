/**
 The single database writer (`database/writer.py`, `db_writer_worker`).

 The database and its statements are type parameters; `apply` is what a statement does.
 Whether an engine call fails, and how, is decided by an oracle indexed by a call counter,
 so a proof about every writer object is a proof about every pattern of failures.
 */
module WriteQueue {
  import opened Options
  import opened WriteOutcomes

  /** What one durable change consisted of: a committed task, which bumps the write
      generation, or a stretch of script that was executed outside of one. */
  datatype Entry<Stmt> = Committed(stmts: seq<Stmt>) | Residue(stmts: seq<Stmt>)

  function StmtsOf<Stmt>(w: Work<Stmt>): seq<Stmt> {
    match w
    case Single(s) => [s]
    case Transaction(ss) => ss
    case Script(ss) => ss
  }

  function ApplyAll<Db, Stmt>(apply: (Stmt, Db) -> Db, db: Db, stmts: seq<Stmt>): Db
    decreases |stmts|
  {
    if stmts == [] then db else ApplyAll(apply, apply(stmts[0], db), stmts[1..])
  }

  function Replay<Db, Stmt>(apply: (Stmt, Db) -> Db, db: Db, log: seq<Entry<Stmt>>): Db
    decreases |log|
  {
    if log == [] then db else Replay(apply, ApplyAll(apply, db, log[0].stmts), log[1..])
  }

  lemma {:induction false} ReplayAppend<Db,
          Stmt>(apply: (Stmt, Db) -> Db, db: Db, log: seq<Entry<Stmt>>, e: Entry<Stmt>)
    ensures Replay(apply, db, log + [e]) == ApplyAll(apply, Replay(apply, db, log), e.stmts)
    decreases |log|
  {
    if log == [] {
      assert Replay(apply, db, [e]) == Replay(apply, ApplyAll(apply, db, e.stmts), []);
      assert log + [e] == [e];
    } else {
      assert (log + [e])[1..] == log[1..] + [e];
      ReplayAppend(apply, ApplyAll(apply, db, log[0].stmts), log[1..], e);
    }
  }

  lemma {:induction false} ApplyAllAppend<Db, Stmt>(apply: (Stmt, Db) -> Db, db: Db, a: seq<Stmt>, s: Stmt)
    ensures ApplyAll(apply, db, a + [s]) == apply(s, ApplyAll(apply, db, a))
    decreases |a|
  {
    if a == [] {
      assert ApplyAll(apply, db, [s]) == ApplyAll(apply, apply(s, db), []);
      assert a + [s] == [s];
    } else {
      assert (a + [s])[1..] == a[1..] + [s];
      ApplyAllAppend(apply, apply(a[0], db), a[1..], s);
    }
  }

  /** The committed tasks of a log, in order. */
  function CommittedOf<Stmt>(log: seq<Entry<Stmt>>): seq<seq<Stmt>> {
    if log == [] then []
    else (if log[0].Committed? then [log[0].stmts] else []) + CommittedOf(log[1..])
  }

  lemma {:induction false} CommittedOfAppend<Stmt>(a: seq<Entry<Stmt>>, b: seq<Entry<Stmt>>)
    ensures CommittedOf(a + b) == CommittedOf(a) + CommittedOf(b)
    decreases |a|
  {
    if a == [] {
      assert a + b == b;
    } else {
      assert (a + b)[1..] == a[1..] + b;
      CommittedOfAppend(a[1..], b);
    }
  }

  lemma {:induction false} ResidueCommitsNothing<Stmt>(log: seq<Entry<Stmt>>)
    requires forall k :: 0 <= k < |log| ==> log[k].Residue?
    ensures CommittedOf(log) == []
    decreases |log|
  {
    if log != [] {
      ResidueCommitsNothing(log[1..]);
    }
  }

  const MAX_REPAIR_RETRIES := 1
  const MAX_VEC0_RETRIES := 2
  const POISONED := 3

  /** Residues left by the repair scripts of some tables. */
  ghost predicate RepairsOnly<Stmt>(e: Engine<Stmt>, es: seq<Entry<Stmt>>) {
    forall k :: 0 <= k < |es| ==> IsRepair(e, es[k])
  }

  ghost predicate IsRepair<Stmt>(e: Engine<Stmt>, left: Entry<Stmt>) {
    left.Residue? && exists table :: e.repairScript(table).Some? && left.stmts <= e.repairScript(table).value
  }

  /** What a task may leave behind besides its commit: repairs for a single statement,
      nothing for a transaction, the beginning of a failed script. */
  ghost predicate LeftBy<Stmt>(e: Engine<Stmt>, work: Work<Stmt>, ok: bool, left: seq<Entry<Stmt>>) {
    match work
    case Single(_) => RepairsOnly(e, left) && |left| <= MAX_REPAIR_RETRIES + 1
    case Transaction(_) => left == []
    case Script(script) => if ok then left == [] else |left| == 1 && left[0].Residue? && left[0].stmts <= script
  }

  /** Every task handled so far left behind what its kind allows. */
  ghost predicate AllLeftBy<Stmt>(e: Engine<Stmt>, queue: seq<Task<Stmt>>, oks: seq<bool>,
                                  lefts: seq<seq<Entry<Stmt>>>) {
    |oks| == |lefts| <= |queue| && forall k :: 0 <= k < |oks| ==> LeftBy(e, queue[k].work, oks[k], lefts[k])
  }

  lemma LeftByOne<Stmt>(e: Engine<Stmt>, queue: seq<Task<Stmt>>, oks: seq<bool>, lefts: seq<seq<Entry<Stmt>>>, ok: bool,
                  left: seq<Entry<Stmt>>)
    requires AllLeftBy(e, queue, oks, lefts) && |oks| < |queue| && LeftBy(e, queue[|oks|].work, ok, left)
    ensures AllLeftBy(e, queue, oks + [ok], lefts + [left])
  {
    hide LeftBy;
  }

  /** The failures in a row, and how often the connection was replaced. */
  datatype Health = Health(errors: nat, reconnects: nat)

  /** A success ends the row; a failed single statement neither ends nor lengthens it; of other
      failures the third in a row replaces the connection and ends the row. */
  function HealthAfter<Stmt>(h: Health, work: Work<Stmt>, ok: bool): Health {
    if ok then h.(errors := 0)
    else if work.Single? then h
    else if h.errors + 1 < POISONED then h.(errors := h.errors + 1)
    else Health(0, h.reconnects + 1)
  }

  function HealthOver<Stmt>(h: Health, queue: seq<Task<Stmt>>, oks: seq<bool>): Health
    requires |queue| == |oks|
  {
    if queue == [] then h
    else
      var n := |queue| - 1;
      HealthAfter(HealthOver(h, queue[..n], oks[..n]), queue[n].work, oks[n])
  }

  lemma HealthMore<Stmt>(h: Health, queue: seq<Task<Stmt>>, oks: seq<bool>, ok: bool)
    requires |oks| < |queue|
    ensures HealthOver(h, queue[..|oks| + 1], oks + [ok])
         == HealthAfter(HealthOver(h, queue[..|oks|], oks), queue[|oks|].work, ok)
  {
    hide *;
    var i := |oks|;
    HealthLast(h, queue[..i + 1], oks + [ok]);
    assert queue[..i + 1][..i] == queue[..i] && (oks + [ok])[..i] == oks;
  }

  lemma HealthLast<Stmt>(h: Health, queue: seq<Task<Stmt>>, oks: seq<bool>)
    requires |queue| == |oks| > 0
    ensures var n := |queue| - 1;
            HealthOver(h, queue, oks) == HealthAfter(HealthOver(h, queue[..n], oks[..n]), queue[n].work, oks[n])
  {
    hide HealthAfter;
  }

  /** How many of the tasks are transactions and scripts that failed. */
  function Raised<Stmt>(queue: seq<Task<Stmt>>, oks: seq<bool>): nat
    requires |queue| == |oks|
  {
    if queue == [] then 0
    else
      var n := |queue| - 1;
      Raised(queue[..n], oks[..n]) + (if !oks[n] && !queue[n].work.Single? then 1 else 0)
  }

  /** A run of tasks without a success replaces the connection at every third that raises. */
  lemma {:induction false} EveryThirdReconnects<Stmt>(queue: seq<Task<Stmt>>, oks: seq<bool>)
    requires |queue| == |oks| && forall i :: 0 <= i < |oks| ==> !oks[i]
    ensures HealthOver(Health(0, 0), queue, oks) == Health(Raised(queue, oks) % 3, Raised(queue, oks) / 3)
  {
    if queue != [] {
      EveryThirdReconnects(queue[..|queue| - 1], oks[..|oks| - 1]);
    }
  }

  class Writer<Db, Stmt(!new)> {
    const apply: (Stmt, Db) -> Db
    const initial: Db
    const engine: Engine<Stmt>

    var calls: nat
    var committed: Db
    var working: Db
    var generation: nat
    var consecutiveErrors: nat
    /** How often the connection was replaced. */
    var reconnects: nat
    var resolved: set<nat>
    var rejected: set<nat>
    var done: nat
    ghost var log: seq<Entry<Stmt>>

    /** Nothing is pending on the connection, the database is the replay of the log, and
        the generation counts the committed tasks. */
    ghost predicate Valid()
      reads this
    {
      && working == committed
      && committed == Replay(apply, initial, log)
      && generation == |CommittedOf(log)|
      && resolved !! rejected
      && (forall k :: !(engine.commits(k).Some? && engine.commits(k).value.NoSuchTable?))
    }

    /** A commit never reports a missing table: names are resolved when a statement runs. */
    constructor (apply: (Stmt, Db) -> Db, initial: Db, engine: Engine<Stmt>)
      requires forall k :: !(engine.commits(k).Some? && engine.commits(k).value.NoSuchTable?)
      ensures Valid() && log == [] && committed == initial && generation == 0
      ensures resolved == {} && rejected == {} && done == 0 && consecutiveErrors == reconnects == 0
    {
      this.apply, this.initial, this.engine := apply, initial, engine;
      calls, committed, working, generation, consecutiveErrors, reconnects := 0, initial, initial, 0, 0, 0;
      resolved, rejected, done, log := {}, {}, 0, [];
    }

    /** `conn.execute` inside a transaction: a failed statement changes nothing. */
    method Execute(s: Stmt) returns (failure: Option<Failure>)
      modifies this`calls, this`working
      ensures failure == engine.executes(old(calls)) && calls == old(calls) + 1
      ensures working == if failure.None? then apply(s, old(working)) else old(working)
    {
      failure := engine.executes(calls);
      calls := calls + 1;
      if failure.None? { working := apply(s, working); }
    }

    /** `conn.commit`. */
    method Commit() returns (failure: Option<Failure>)
      modifies this`calls, this`committed
      ensures working == old(working)
      ensures committed == if failure.None? then working else old(committed)
      ensures failure == engine.commits(old(calls)) && calls == old(calls) + 1
    {
      failure := engine.commits(calls);
      calls := calls + 1;
      if failure.None? { committed := working; }
    }

    method Rollback()
      modifies this`working
      ensures working == committed
    {
      working := committed;
    }

    method Resolve(receipt: Option<nat>)
      modifies this`resolved
      ensures resolved == old(resolved) + ReceiptSet(receipt)
    {
      if receipt.Some? { resolved := resolved + {receipt.value}; }
    }

    method Reject(receipt: Option<nat>)
      modifies this`rejected
      ensures rejected == old(rejected) + ReceiptSet(receipt)
    {
      if receipt.Some? { rejected := rejected + {receipt.value}; }
    }

    /** `conn.executescript`: every statement that succeeds is durable at once. */
    method ExecuteScript(script: seq<Stmt>) returns (failure: Option<Failure>, ghost n: nat)
      requires working == committed
      modifies this`calls, this`working, this`committed
      ensures working == committed && n == Passed(engine, old(calls), |script|)
      ensures committed == ApplyAll(apply, old(committed), script[..n])
      ensures failure.None? <==> AllPass(engine, old(calls), |script|)
      ensures calls == AfterScript(engine, old(calls), |script|)
    {
      failure, n := None, 0;
      NonePassYet(engine, calls);
      hide Passed, AllPass, AfterScript;
      for i := 0 to |script|
        invariant failure.None? && n == i && working == committed && calls == old(calls) + i
        invariant AllPass(engine, old(calls), i)
        invariant committed == ApplyAll(apply, old(committed), script[..i])
      {
        hide *;
        failure := Execute(script[i]);
        if failure.Some? {
          FailsAt(engine, old(calls), |script|, i);
          return;
        }
        OneMorePasses(engine, old(calls), i);
        committed := working;
        assert script[..i + 1] == script[..i] + [script[i]];
        ApplyAllAppend(apply, old(committed), script[..i], script[i]);
        n := i + 1;
      }
      assert script[..|script|] == script;
      NoneFails(engine, old(calls), |script|);
    }

    /** `_attempt_table_repair`: at most one residue of the table's repair script. */
    method AttemptTableRepair(table: string) returns (repaired: bool, ghost left: seq<Entry<Stmt>>)
      requires Valid()
      modifies this`calls, this`working, this`committed, this`log
      ensures repaired <==> RepairPasses(engine, table, old(calls))
      ensures calls == AfterRepair(engine, table, old(calls))
      ensures Valid() && log == old(log) + left && RepairsOnly(engine, left) && |left| <= 1
      ensures CommittedOf(log) == CommittedOf(old(log))
    {
      left := [];
      var script := engine.repairScript(table);
      if script.None? { return false, []; }
      ghost var before := log;
      var failure, n := ExecuteScript(script.value);
      left := [Residue(script.value[..n])];
      log := log + left;
      ReplayAppend(apply, initial, before, left[0]);
      CommittedOfAppend(before, left);
      ResidueCommitsNothing(left);
      if failure.Some? {
        Rollback();
        return false, left;
      }
      return true, left;
    }

    /** The bookkeeping after a successful commit. */
    method RecordCommit(receipt: Option<nat>, ghost stmts: seq<Stmt>)
      requires working == committed && committed == ApplyAll(apply, Replay(apply, initial, log), stmts)
      requires generation == |CommittedOf(log)|
      modifies this`generation, this`resolved, this`consecutiveErrors, this`log
      ensures log == old(log) + [Committed(stmts)] && committed == Replay(apply, initial, log)
      ensures CommittedOf(log) == CommittedOf(old(log)) + [stmts]
      ensures generation == old(generation) + 1 == |CommittedOf(log)| && consecutiveErrors == 0
      ensures resolved == old(resolved) + ReceiptSet(receipt)
    {
      generation := generation + 1;
      Resolve(receipt);
      consecutiveErrors := 0;
      ReplayAppend(apply, initial, log, Committed(stmts));
      CommittedOfAppend(log, [Committed(stmts)]);
      log := log + [Committed(stmts)];
    }

    /** A single statement, with up to one retry after repairing a missing table. */
    method ProcessSingle(receipt: Option<nat>, stmt: Stmt) returns (ok: bool, ghost repairs: seq<Entry<Stmt>>)
      requires Valid() && ReceiptSet(receipt) !! resolved + rejected
      modifies this`calls, this`working, this`committed, this`generation
      modifies this`resolved, this`rejected, this`consecutiveErrors, this`log
      ensures ok <==> SinglePasses(engine, old(calls))
      ensures consecutiveErrors == if ok then 0 else old(consecutiveErrors)
      ensures calls == AfterSingle(engine, old(calls))
      ensures Valid() && RepairsOnly(engine, repairs) && |repairs| <= MAX_REPAIR_RETRIES + 1
      ensures log == old(log) + repairs + (if ok then [Committed([stmt])] else [])
      ensures CommittedOf(log) == CommittedOf(old(log)) + (if ok then [[stmt]] else [])
      ensures resolved == old(resolved) + (if ok then ReceiptSet(receipt) else {})
      ensures rejected == old(rejected) + (if ok then {} else ReceiptSet(receipt))
    {
      hide Replay, CommittedOf, ApplyAll, IsRepair, ReceiptSet;
      hide Answer, After, SinglePasses, AfterSingle, RepairPasses, AfterRepair, StartsAt;
      StartsFirst(engine, calls);
      repairs := [];
      for attempt := 0 to MAX_REPAIR_RETRIES + 1
        invariant Valid() && log == old(log) + repairs && RepairsOnly(engine, repairs) && |repairs| <= attempt
        invariant CommittedOf(log) == CommittedOf(old(log))
        invariant resolved == old(resolved) && rejected == old(rejected)
        invariant attempt <= MAX_REPAIR_RETRIES && consecutiveErrors == old(consecutiveErrors)
        invariant StartsAt(engine, old(calls), attempt, calls)
      {
        ghost var start := calls;
        var committedNow, failure := TryOnce(receipt, stmt);
        if committedNow {
          SinglePassesNow(engine, old(calls), attempt, start);
          return true, repairs;
        }
        SingleFails(engine, old(calls), attempt, start, failure);
        if failure.NoSuchTable? && failure.table.Some? {
          var repaired, left := AttemptTableRepair(failure.table.value);
          repairs := repairs + left;
          if repaired && attempt < MAX_REPAIR_RETRIES { continue; }
        }
        Rollback();
        Reject(receipt);
        return false, repairs;
      }
    }

    /** One attempt at a single statement: execute, commit, bump, resolve.  A missing table
        shows up before anything is pending. */
    method TryOnce(receipt: Option<nat>, stmt: Stmt) returns (ok: bool, failure: Failure)
      requires Valid() && ReceiptSet(receipt) !! rejected
      modifies this`calls, this`working, this`committed
      modifies this`generation, this`resolved, this`consecutiveErrors, this`log
      ensures ok <==> engine.executes(old(calls)).None? && engine.commits(old(calls) + 1).None?
      ensures consecutiveErrors == if ok then 0 else old(consecutiveErrors)
      ensures !ok ==> Some(failure) == Answer(engine, old(calls), 1)
      ensures calls == After(engine, old(calls), 1)
      ensures ok ==> Valid() && log == old(log) + [Committed([stmt])]
                     && CommittedOf(log) == CommittedOf(old(log)) + [[stmt]] &&
                          resolved == old(resolved) + ReceiptSet(receipt)
      ensures !ok ==>
          log == old(log) && committed == old(committed) && generation == old(generation) && resolved == old(resolved)
                      && (failure.NoSuchTable? ==> working == committed)
    {
      var failed := Execute(stmt);
      if failed.Some? { return false, failed.value; }
      failed := Commit();
      if failed.Some? { return false, failed.value; }
      ReplayOne(stmt);
      RecordCommit(receipt, [stmt]);
      return true, Other;
    }

    lemma ReplayOne(stmt: Stmt)
      ensures forall d :: ApplyAll(apply, d, [stmt]) == apply(stmt, d)
    {
      forall d: Db ensures ApplyAll(apply, d, [stmt]) == apply(stmt, d) {
        assert ApplyAll(apply, d, [stmt]) == ApplyAll(apply, apply(stmt, d), []);
      }
    }

    /** A transaction: all statements and the commit succeed, or everything is rolled back;
        recoverable vector-table errors are retried twice.  A failure is raised. */
    method ProcessTransaction(receipt: Option<nat>, stmts: seq<Stmt>) returns (ok: bool)
      requires Valid() && ReceiptSet(receipt) !! resolved + rejected
      modifies this`calls, this`working, this`committed, this`generation
      modifies this`resolved, this`rejected, this`consecutiveErrors, this`log
      ensures ok <==> TransactionPasses(engine, old(calls), |stmts|)
      ensures consecutiveErrors == if ok then 0 else old(consecutiveErrors)
      ensures calls == AttemptAt(engine, old(calls), |stmts|, Attempts(engine, old(calls), |stmts|))
      ensures Valid() && log == old(log) + (if ok then [Committed(stmts)] else [])
      ensures CommittedOf(log) == CommittedOf(old(log)) + (if ok then [stmts] else [])
      ensures resolved == old(resolved) + (if ok then ReceiptSet(receipt) else {})
      ensures rejected == old(rejected) + (if ok then {} else ReceiptSet(receipt))
    {
      hide Answer, After, TransactionPasses, Attempts, Replay, ApplyAll, CommittedOf, ReceiptSet;
      var retries := 0;
      assert AttemptAt(engine, calls, |stmts|, 0) == calls;
      while true
        invariant Valid() && log == old(log) && retries <= MAX_VEC0_RETRIES
        invariant calls == AttemptAt(engine, old(calls), |stmts|, retries)
        invariant FailedBefore(engine, old(calls), |stmts|, retries)
        invariant resolved == old(resolved) && rejected == old(rejected) && consecutiveErrors == old(consecutiveErrors)
        decreases MAX_VEC0_RETRIES - retries
      {
        hide AttemptAt, FailedBefore;
        var failure := RunStatements(stmts);
        OneMoreFailed(engine, old(calls), |stmts|, retries);
        NextAttempt(engine, old(calls), |stmts|, retries);
        if failure.None? || failure.value != RecoverableVec0 || retries == 2 {
          TransactionEnds(engine, old(calls), |stmts|, retries);
        }
        if failure.None? {
          RecordCommit(receipt, stmts);
          return true;
        }
        Rollback();
        if failure.value.RecoverableVec0? && retries < MAX_VEC0_RETRIES {
          retries := retries + 1;
          continue;
        }
        Reject(receipt);
        return false;
      }
    }

    /** The statements of a transaction and its commit. */
    method RunStatements(stmts: seq<Stmt>) returns (failure: Option<Failure>)
      requires Valid()
      modifies this`calls, this`working, this`committed
      ensures failure.None? <==> AllPass(engine, old(calls), |stmts|) && engine.commits(old(calls) + |stmts|).None?
      ensures failure == Answer(engine, old(calls), |stmts|) && calls == After(engine, old(calls), |stmts|)
      ensures failure.None? ==> working == committed == ApplyAll(apply, old(committed), stmts)
      ensures failure.Some? ==> committed == old(committed)
    {
      NonePassYet(engine, calls);
      hide Passed, AllPass, Answer, After;
      for i := 0 to |stmts|
        invariant committed == old(committed) && working == ApplyAll(apply, old(committed), stmts[..i])
        invariant calls == old(calls) + i && AllPass(engine, old(calls), i)
      {
        hide *;
        failure := Execute(stmts[i]);
        if failure.Some? {
          FailsAt(engine, old(calls), |stmts|, i);
          return;
        }
        OneMorePasses(engine, old(calls), i);
        assert stmts[..i + 1] == stmts[..i] + [stmts[i]];
        ApplyAllAppend(apply, old(committed), stmts[..i], stmts[i]);
      }
      assert stmts[..|stmts|] == stmts;
      NoneFails(engine, old(calls), |stmts|);
      failure := Commit();
    }

    /** A script: executed statement by statement, so a failure leaves its beginning behind. */
    method ProcessScript(receipt: Option<nat>, script: seq<Stmt>) returns (ok: bool, ghost left: seq<Entry<Stmt>>)
      requires Valid() && ReceiptSet(receipt) !! resolved + rejected
      modifies this`calls, this`working, this`committed
      modifies this`generation, this`resolved, this`consecutiveErrors, this`log
      ensures ok <==> AllPass(engine, old(calls), |script|)
      ensures calls == AfterScript(engine, old(calls), |script|)
      ensures consecutiveErrors == if ok then 0 else old(consecutiveErrors)
      ensures Valid() && rejected == old(rejected)
      ensures log == old(log) + left + (if ok then [Committed(script)] else [])
      ensures if ok then left == [] else |left| == 1 && left[0].Residue? && left[0].stmts <= script
      ensures CommittedOf(log) == CommittedOf(old(log)) + (if ok then [script] else [])
      ensures resolved == old(resolved) + (if ok then ReceiptSet(receipt) else {})
    {
      hide Passed, AllPass, AfterScript, ReceiptSet, Replay, ApplyAll, CommittedOf;
      ghost var before := log;
      var failure, n := ExecuteScript(script);
      if failure.None? {
        NoneFails(engine, old(calls), |script|);
        assert script[..|script|] == script;
        RecordCommit(receipt, script);
        assert before + [] == before;
        return true, [];
      }
      left := [Residue(script[..n])];
      log := log + left;
      ReplayAppend(apply, initial, before, left[0]);
      CommittedOfAppend(before, left);
      ResidueCommitsNothing(left);
      assert script[..n] <= script && log + [] == before + left;
      return false, left;
    }

    /** One turn of the worker loop: process the task, handle a raised failure, reconnect a
        poisoned connection, mark the task done. */
    method ProcessTask(task: Task<Stmt>) returns (ok: bool, ghost left: seq<Entry<Stmt>>)
      requires Valid() && ReceiptSet(task.receipt) !! resolved + rejected
      modifies this
      ensures ok <==> TaskPasses(engine, task.work, old(calls))
      ensures Health(consecutiveErrors, reconnects)
           == HealthAfter(Health(old(consecutiveErrors), old(reconnects)), task.work, ok)
      ensures calls == AfterTask(engine, task.work, old(calls))
      ensures Valid() && done == old(done) + 1
      ensures log == old(log) + left + (if ok then [Committed(StmtsOf(task.work))] else [])
      ensures CommittedOf(log) == CommittedOf(old(log)) + (if ok then [StmtsOf(task.work)] else [])
      ensures LeftBy(engine, task.work, ok, left)
      ensures resolved == old(resolved) + (if ok then ReceiptSet(task.receipt) else {})
      ensures rejected == old(rejected) + (if ok then {} else ReceiptSet(task.receipt))
    {
      hide Replay, CommittedOf, ApplyAll, IsRepair, ReceiptSet, RepairsOnly;
      hide SinglePasses, AfterSingle, TransactionPasses, AttemptAt, Attempts, AllPass, AfterScript;
      left := [];
      var raised := false;
      match task.work {
        case Single(stmt) =>
          ok, left := ProcessSingle(task.receipt, stmt);
        case Transaction(stmts) =>
          ok := ProcessTransaction(task.receipt, stmts);
          raised := !ok;
        case Script(script) =>
          ok, left := ProcessScript(task.receipt, script);
          raised := !ok;
      }
      if raised {
        Reject(task.receipt);
        Rollback();
        consecutiveErrors := consecutiveErrors + 1;
        if consecutiveErrors >= POISONED {
          Reconnect();
          consecutiveErrors := 0;
        }
      }
      done := done + 1;
    }

    /** A new connection starts from the durable database. */
    method Reconnect()
      modifies this`working, this`reconnects
      ensures working == committed && reconnects == old(reconnects) + 1
    {
      working, reconnects := committed, reconnects + 1;
    }

    /** The worker loop over a queue.  The log grows task by task: what the task left behind,
        and its commit if it succeeded.  Each task is marked done once, and each receipt ends
        resolved or rejected, never both. */
    method Drain(queue: seq<Task<Stmt>>) returns (oks: seq<bool>, ghost lefts: seq<seq<Entry<Stmt>>>)
      requires Valid() && DistinctReceipts(queue) && Unanswered(queue, 0, resolved + rejected)
      modifies this
      ensures Valid() && |oks| == |lefts| == |queue| && done == old(done) + |queue|
      ensures AsAnswered(engine, queue, oks, old(calls))
      ensures Health(consecutiveErrors, reconnects)
           == HealthOver(Health(old(consecutiveErrors), old(reconnects)), queue, oks)
      ensures log == old(log) + LogOf(queue, oks, lefts)
      ensures AllLeftBy(engine, queue, oks, lefts)
      ensures CommittedOf(log) == CommittedOf(old(log)) + Succeeded(queue, oks)
      ensures generation == old(generation) + |Succeeded(queue, oks)|
      ensures Answered(queue, oks, resolved, rejected)
    {
      oks, lefts := [], [];
      ProgressStart(engine, queue, calls, log, resolved, rejected);
      assert queue[..0] == [];
      for i := 0 to |queue|
        invariant Valid() && |oks| == i && done == old(done) + i
        invariant Health(consecutiveErrors, reconnects)
               == HealthOver(Health(old(consecutiveErrors), old(reconnects)), queue[..i], oks)
        invariant Progress(engine, queue, i, old(calls), old(log), oks, lefts, calls, log, resolved, rejected)
      {
        hide *;
        NextToDo(engine, queue, old(calls), old(log), oks, lefts, calls, log, resolved, rejected);
        ghost var calls0, log0, resolved0, rejected0 := calls, log, resolved, rejected;
        var ok, left := ProcessTask(queue[i]);
        ProgressOne(engine, queue, old(calls), old(log), oks, lefts, calls0, log0, resolved0, rejected0, ok, left);
        HealthMore(Health(old(consecutiveErrors), old(reconnects)), queue, oks, ok);
        oks, lefts := oks + [ok], lefts + [left];
      }
      assert queue[..|queue|] == queue;
    }
  }

  /** The tasks from the i-th on have receipts that nothing has answered. */
  predicate Unanswered<Stmt>(queue: seq<Task<Stmt>>, i: nat, answered: set<nat>) {
    forall k :: i <= k < |queue| ==> ReceiptSet(queue[k].receipt) !! answered
  }

  /** The receipt of a task is resolved if the task succeeded, and rejected otherwise. */
  predicate Answered<Stmt>(queue: seq<Task<Stmt>>, oks: seq<bool>, resolved: set<nat>, rejected: set<nat>) {
    && |oks| <= |queue| && resolved !! rejected
    && forall k :: 0 <= k < |oks| ==> ReceiptSet(queue[k].receipt) <= (if oks[k] then resolved else rejected)
  }

  lemma NextUnanswered<Stmt>(queue: seq<Task<Stmt>>, i: nat, resolved: set<nat>, rejected: set<nat>)
    requires i < |queue| && Unanswered(queue, i, resolved + rejected)
    ensures ReceiptSet(queue[i].receipt) !! resolved + rejected
  {
  }

  lemma AnswerOne<Stmt>(queue: seq<Task<Stmt>>, oks: seq<bool>, ok: bool, resolved: set<nat>, rejected: set<nat>)
    requires |oks| < |queue| && DistinctReceipts(queue)
    requires Answered(queue, oks, resolved, rejected) && Unanswered(queue, |oks|, resolved + rejected)
    ensures var now := ReceiptSet(queue[|oks|].receipt);
            var resolved', rejected' := resolved + (if ok then now else {}), rejected + (if ok then {} else now);
            && Answered(queue, oks + [ok], resolved', rejected')
            && Unanswered(queue, |oks| + 1, resolved' + rejected')
  {
    hide ReceiptSet;
  }

  /** How far the worker has come after i tasks: what the engine's answers, the log and the
      receipts say. */
  ghost predicate Progress<Stmt>(e: Engine<Stmt>, queue: seq<Task<Stmt>>, i: nat, c: nat, before: seq<Entry<Stmt>>,
                                 oks: seq<bool>, lefts: seq<seq<Entry<Stmt>>>,
                                 calls: nat, log: seq<Entry<Stmt>>, resolved: set<nat>, rejected: set<nat>) {
    && |oks| == |lefts| == i <= |queue| && calls == TaskAt(e, queue, c, i) && AsAnswered(e, queue, oks, c)
    && log == before + LogOf(queue[..i], oks, lefts) && AllLeftBy(e, queue, oks, lefts)
    && CommittedOf(log) == CommittedOf(before) + Succeeded(queue[..i], oks)
    && Answered(queue, oks, resolved, rejected) && Unanswered(queue, i, resolved + rejected)
  }

  lemma ProgressStart<Stmt>(e: Engine<Stmt>, queue: seq<Task<Stmt>>, c: nat, log: seq<Entry<Stmt>>,
                            resolved: set<nat>, rejected: set<nat>)
    requires resolved !! rejected && Unanswered(queue, 0, resolved + rejected)
    ensures Progress(e, queue, 0, c, log, [], [], c, log, resolved, rejected)
  {
    assert log + [] == log && queue[..0] == [];
    assert CommittedOf(log) + [] == CommittedOf(log);
    hide CommittedOf, LeftBy, TaskPasses, ReceiptSet;
  }

  lemma NextToDo<Stmt>(e: Engine<Stmt>, queue: seq<Task<Stmt>>, c: nat, before: seq<Entry<Stmt>>,
                       oks: seq<bool>, lefts: seq<seq<Entry<Stmt>>>,
                       calls: nat, log: seq<Entry<Stmt>>, resolved: set<nat>, rejected: set<nat>)
    requires |oks| < |queue| && Progress(e, queue, |oks|, c, before, oks, lefts, calls, log, resolved, rejected)
    ensures ReceiptSet(queue[|oks|].receipt) !! resolved + rejected
  {
    NextUnanswered(queue, |oks|, resolved, rejected);
  }

  lemma ProgressIff<Stmt>(e: Engine<Stmt>, queue: seq<Task<Stmt>>, i: nat, c: nat, before: seq<Entry<Stmt>>,
                          oks: seq<bool>, lefts: seq<seq<Entry<Stmt>>>,
                          calls: nat, log: seq<Entry<Stmt>>, resolved: set<nat>, rejected: set<nat>)
    ensures Progress(e, queue, i, c, before, oks, lefts, calls, log, resolved, rejected) <==>
            && |oks| == |lefts| == i <= |queue| && calls == TaskAt(e, queue, c, i) && AsAnswered(e, queue, oks, c)
            && log == before + LogOf(queue[..i], oks, lefts) && AllLeftBy(e, queue, oks, lefts)
            && CommittedOf(log) == CommittedOf(before) + Succeeded(queue[..i], oks)
            && Answered(queue, oks, resolved, rejected) && Unanswered(queue, i, resolved + rejected)
  {
    hide TaskAt, AsAnswered, LogOf, AllLeftBy, CommittedOf, Succeeded, Answered, Unanswered;
  }

  /** One more task. */
  lemma ProgressOne<Stmt>(e: Engine<Stmt>, queue: seq<Task<Stmt>>, c: nat, before: seq<Entry<Stmt>>,
                          oks: seq<bool>, lefts: seq<seq<Entry<Stmt>>>,
                          calls: nat, log: seq<Entry<Stmt>>, resolved: set<nat>, rejected: set<nat>,
                          ok: bool, left: seq<Entry<Stmt>>)
    requires |oks| < |queue| && DistinctReceipts(queue)
    requires Progress(e, queue, |oks|, c, before, oks, lefts, calls, log, resolved, rejected)
    requires (ok <==> TaskPasses(e, queue[|oks|].work, calls)) && LeftBy(e, queue[|oks|].work, ok, left)
    ensures var work, now := queue[|oks|].work, ReceiptSet(queue[|oks|].receipt);
            var more := log + left + (if ok then [Committed(StmtsOf(work))] else []);
            CommittedOf(more) == CommittedOf(log) + (if ok then [StmtsOf(work)] else []) ==>
              Progress(e, queue, |oks| + 1, c, before, oks + [ok], lefts + [left], AfterTask(e, work, calls), more,
                       resolved + (if ok then now else {}), rejected + (if ok then {} else now))
  {
    hide *;
    var i, work, now := |oks|, queue[|oks|].work, ReceiptSet(queue[|oks|].receipt);
    var more := log + left + (if ok then [Committed(StmtsOf(work))] else []);
    ProgressIff(e, queue, i, c, before, oks, lefts, calls, log, resolved, rejected);
    ProgressIff(e, queue, i + 1, c, before, oks + [ok], lefts + [left], AfterTask(e, work, calls), more,
                resolved + (if ok then now else {}), rejected + (if ok then {} else now));
    assert queue[..i + 1] == queue[..i] + [queue[i]];
    SucceededAppend(queue[..i], oks, queue[i], ok);
    LogOfAppend(queue[..i], oks, lefts, queue[i], ok, left);
    LeftByOne(e, queue, oks, lefts, ok, left);
    AppendTwice(CommittedOf(before), Succeeded(queue[..i], oks), if ok then [StmtsOf(work)] else []);
    AppendThrice(before, LogOf(queue[..i], oks, lefts), left, if ok then [Committed(StmtsOf(work))] else []);
    AnswerOne(queue, oks, ok, resolved, rejected);
    AnsweredOne(e, queue, oks, ok, c);
  }

  /** What the log gains from a queue: for each task what it left behind and its commit. */
  function LogOf<Stmt>(queue: seq<Task<Stmt>>, oks: seq<bool>, lefts: seq<seq<Entry<Stmt>>>): seq<Entry<Stmt>>
    requires |queue| == |oks| == |lefts|
  {
    if queue == [] then []
    else
      var n := |queue| - 1;
      LogOf(queue[..n], oks[..n], lefts[..n]) + lefts[n] + (if oks[n] then [Committed(StmtsOf(queue[n].work))] else [])
  }

  lemma LogOfAppend<Stmt>(queue: seq<Task<Stmt>>, oks: seq<bool>, lefts: seq<seq<Entry<Stmt>>>,
                          task: Task<Stmt>, ok: bool, left: seq<Entry<Stmt>>)
    requires |queue| == |oks| == |lefts|
    ensures LogOf(queue + [task], oks + [ok], lefts + [left])
         == LogOf(queue, oks, lefts) + left + (if ok then [Committed(StmtsOf(task.work))] else [])
  {
    var n := |queue|;
    assert (queue + [task])[..n] == queue && (oks + [ok])[..n] == oks && (lefts + [left])[..n] == lefts;
  }

  lemma AppendTwice<T>(a: seq<T>, b: seq<T>, c: seq<T>)
    ensures (a + b) + c == a + (b + c)
  {
  }

  lemma AppendThrice<T>(a: seq<T>, b: seq<T>, c: seq<T>, d: seq<T>)
    ensures (a + b) + c + d == a + (b + c + d)
  {
  }

  /** A queue of transactions leaves nothing but the commits of those that succeeded. */
  lemma {:induction false} TransactionsLeaveTheirCommits<Stmt>(queue: seq<Task<Stmt>>, oks: seq<bool>,
                                                               lefts: seq<seq<Entry<Stmt>>>)
    requires |queue| == |oks| == |lefts|
    requires forall k :: 0 <= k < |lefts| ==> lefts[k] == []
    ensures LogOf(queue, oks, lefts) == AsCommits(Succeeded(queue, oks))
  {
    if queue != [] {
      var n := |queue| - 1;
      TransactionsLeaveTheirCommits(queue[..n], oks[..n], lefts[..n]);
      assert queue == queue[..n] + [queue[n]] && oks == oks[..n] + [oks[n]];
      SucceededAppend(queue[..n], oks[..n], queue[n], oks[n]);
      AsCommitsAppend(Succeeded(queue[..n], oks[..n]), if oks[n] then [StmtsOf(queue[n].work)] else []);
    }
  }

  /** The statements of the tasks that succeeded, in queue order. */
  function Succeeded<Stmt>(queue: seq<Task<Stmt>>, oks: seq<bool>): seq<seq<Stmt>>
    requires |queue| == |oks|
  {
    if queue == [] then []
    else (if oks[0] then [StmtsOf(queue[0].work)] else []) + Succeeded(queue[1..], oks[1..])
  }

  lemma {:induction false} SucceededAppend<Stmt>(queue: seq<Task<Stmt>>, oks: seq<bool>, task: Task<Stmt>, ok: bool)
    requires |queue| == |oks|
    ensures Succeeded(queue + [task], oks + [ok]) == Succeeded(queue, oks) + (if ok then [StmtsOf(task.work)] else [])
    decreases |queue|
  {
    if queue == [] {
      assert queue + [task] == [task] && oks + [ok] == [ok];
    } else {
      assert (queue + [task])[1..] == queue[1..] + [task] && (oks + [ok])[1..] == oks[1..] + [ok];
      SucceededAppend(queue[1..], oks[1..], task, ok);
    }
  }

  function AsCommits<Stmt>(txs: seq<seq<Stmt>>): seq<Entry<Stmt>> {
    if txs == [] then [] else [Committed(txs[0])] + AsCommits(txs[1..])
  }

  lemma {:induction false} AsCommitsAppend<Stmt>(a: seq<seq<Stmt>>, b: seq<seq<Stmt>>)
    ensures AsCommits(a + b) == AsCommits(a) + AsCommits(b)
    decreases |a|
  {
    if a == [] {
      assert a + b == b;
    } else {
      assert (a + b)[1..] == a[1..] + b;
      AsCommitsAppend(a[1..], b);
    }
  }

  predicate DistinctReceipts<Stmt>(queue: seq<Task<Stmt>>) {
    forall i, j :: 0 <= i < j < |queue| ==> ReceiptSet(queue[i].receipt) !! ReceiptSet(queue[j].receipt)
  }

  function ReceiptSet(receipt: Option<nat>): set<nat> {
    if receipt.Some? then {receipt.value} else {}
  }
}
