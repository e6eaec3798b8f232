/**
 What the engine's answers make of the writer's work (`database/writer.py`): whether, and how,
 each call fails is decided by an oracle, and the call counter says which answer is next.
 */
module WriteOutcomes {
  import opened Options

  /** What the error classifiers can tell about an exception; a missing-table message may or
      may not let the table's name be extracted. */
  datatype Failure = NoSuchTable(table: Option<string>) | ForeignKey | RecoverableVec0 | FatalVec0 | Other

  datatype Work<Stmt> = Single(stmt: Stmt) | Transaction(stmts: seq<Stmt>) | Script(script: seq<Stmt>)

  /** A queue entry: the work and the receipt that tracks it, if any. */
  datatype Task<Stmt> = Task(receipt: Option<nat>, work: Work<Stmt>)

  /** Whether, and how, the engine call of a given number fails if it executes a statement or
      commits, and the repair script registered for a table. */
  datatype Engine<Stmt> = Engine(
    executes: nat -> Option<Failure>, commits: nat -> Option<Failure>, repairScript: string -> Option<seq<Stmt>>)

  // ---------------------------------------------------------------------------------
  // What the engine's answers make of a piece of work that starts with call c
  // ---------------------------------------------------------------------------------

  /** How many of n statements pass before the first that fails. */
  function Passed<Stmt>(e: Engine<Stmt>, c: nat, n: nat): (k: nat)
    ensures k <= n && (forall i :: c <= i < c + k ==> e.executes(i).None?)
    ensures k < n ==> e.executes(c + k).Some?
    decreases n
  {
    if n == 0 || e.executes(c).Some? then 0 else 1 + Passed(e, c + 1, n - 1)
  }

  ghost predicate AllPass<Stmt>(e: Engine<Stmt>, c: nat, n: nat) {
    forall i :: c <= i < c + n ==> e.executes(i).None?
  }

  lemma NonePassYet<Stmt>(e: Engine<Stmt>, c: nat)
    ensures AllPass(e, c, 0)
  {
  }

  lemma OneMorePasses<Stmt>(e: Engine<Stmt>, c: nat, i: nat)
    requires AllPass(e, c, i) && e.executes(c + i).None?
    ensures AllPass(e, c, i + 1)
  {
  }

  /** The i-th statement is the first that fails. */
  lemma FailsAt<Stmt>(e: Engine<Stmt>, c: nat, n: nat, i: nat)
    requires AllPass(e, c, i) && i < n && e.executes(c + i).Some?
    ensures !AllPass(e, c, n) && Passed(e, c, n) == i
    ensures Answer(e, c, n) == e.executes(c + i) && After(e, c, n) == AfterScript(e, c, n) == c + i + 1
  {
  }

  lemma NoneFails<Stmt>(e: Engine<Stmt>, c: nat, n: nat)
    requires AllPass(e, c, n)
    ensures Passed(e, c, n) == n && Answer(e, c, n) == e.commits(c + n)
    ensures After(e, c, n) == c + n + 1 && AfterScript(e, c, n) == c + n
  {
  }

  /** How n statements and a commit end, and the call after them. */
  function Answer<Stmt>(e: Engine<Stmt>, c: nat, n: nat): Option<Failure> {
    if Passed(e, c, n) < n then e.executes(c + Passed(e, c, n)) else e.commits(c + n)
  }

  function After<Stmt>(e: Engine<Stmt>, c: nat, n: nat): nat { c + Passed(e, c, n) + 1 }

  /** The call after a script. */
  function AfterScript<Stmt>(e: Engine<Stmt>, c: nat, n: nat): nat {
    c + Passed(e, c, n) + (if Passed(e, c, n) < n then 1 else 0)
  }

  lemma AnswerIff<Stmt>(e: Engine<Stmt>, c: nat, n: nat)
    ensures Answer(e, c, n).None? <==> AllPass(e, c, n) && e.commits(c + n).None?
  {
    if Passed(e, c, n) == n { NoneFails(e, c, n); }
  }

  /** The call at which the k-th attempt at a transaction starts, counting from 0. */
  function AttemptAt<Stmt>(e: Engine<Stmt>, c: nat, n: nat, k: nat): nat {
    if k == 0 then c else After(e, AttemptAt(e, c, n, k - 1), n)
  }

  /** The k-th attempt goes through, and all before it failed recoverably. */
  ghost predicate PassesAt<Stmt>(e: Engine<Stmt>, c: nat, n: nat, k: nat) {
    && AllPass(e, AttemptAt(e, c, n, k), n) && e.commits(AttemptAt(e, c, n, k) + n).None?
    && FailedBefore(e, c, n, k)
  }

  /** The attempts before the k-th failed recoverably. */
  ghost predicate FailedBefore<Stmt>(e: Engine<Stmt>, c: nat, n: nat, k: nat) {
    forall i: nat :: i < k ==> Answer(e, AttemptAt(e, c, n, i), n) == Some(RecoverableVec0)
  }

  lemma OneMoreFailed<Stmt>(e: Engine<Stmt>, c: nat, n: nat, k: nat)
    ensures FailedBefore(e, c, n, 0)
    ensures FailedBefore(e, c, n, k + 1) <==>
              FailedBefore(e, c, n, k) && Answer(e, AttemptAt(e, c, n, k), n) == Some(RecoverableVec0)
  {
    hide Answer, AttemptAt;
  }

  /** A transaction gets three attempts. */
  ghost predicate TransactionPasses<Stmt>(e: Engine<Stmt>, c: nat, n: nat) {
    PassesAt(e, c, n, 0) || PassesAt(e, c, n, 1) || PassesAt(e, c, n, 2)
  }

  function Attempts<Stmt>(e: Engine<Stmt>, c: nat, n: nat): nat {
    if Answer(e, c, n) != Some(RecoverableVec0) then 1
    else if Answer(e, AttemptAt(e, c, n, 1), n) != Some(RecoverableVec0) then 2
    else 3
  }

  lemma NextAttempt<Stmt>(e: Engine<Stmt>, c: nat, n: nat, k: nat)
    ensures AttemptAt(e, c, n, k + 1) == After(e, AttemptAt(e, c, n, k), n)
  {
  }

  /** How a transaction ends with its k-th attempt. */
  lemma TransactionEnds<Stmt>(e: Engine<Stmt>, c: nat, n: nat, k: nat)
    requires k <= 2 && FailedBefore(e, c, n, k)
    requires k == 2 || Answer(e, AttemptAt(e, c, n, k), n) != Some(RecoverableVec0)
    ensures TransactionPasses(e, c, n) <==> Answer(e, AttemptAt(e, c, n, k), n).None?
    ensures AttemptAt(e, c, n, Attempts(e, c, n)) == After(e, AttemptAt(e, c, n, k), n)
  {
    PassesAtIff(e, c, n, 0);
    PassesAtIff(e, c, n, 1);
    PassesAtIff(e, c, n, 2);
    NextAttempt(e, c, n, k);
    FirstAttempt(e, c, n);
    hide Answer, After, PassesAt, AttemptAt;
  }

  lemma FirstAttempt<Stmt>(e: Engine<Stmt>, c: nat, n: nat)
    ensures AttemptAt(e, c, n, 0) == c
  {
  }

  lemma PassesAtIff<Stmt>(e: Engine<Stmt>, c: nat, n: nat, k: nat)
    ensures PassesAt(e, c, n, k) <==>
            Answer(e, AttemptAt(e, c, n, k), n).None? && FailedBefore(e, c, n, k)
  {
    AnswerIff(e, AttemptAt(e, c, n, k), n);
    hide Answer, AttemptAt, AllPass, FailedBefore;
  }

  /** A repair that starts with call c works. */
  ghost predicate RepairPasses<Stmt>(e: Engine<Stmt>, table: string, c: nat) {
    e.repairScript(table).Some? && AllPass(e, c, |e.repairScript(table).value|)
  }

  function AfterRepair<Stmt>(e: Engine<Stmt>, table: string, c: nat): nat {
    if e.repairScript(table).Some? then AfterScript(e, c, |e.repairScript(table).value|) else c
  }

  /** A single statement fails for want of a table that can be named. */
  predicate LacksTable<Stmt>(e: Engine<Stmt>, c: nat) {
    Answer(e, c, 1).Some? && Answer(e, c, 1).value.NoSuchTable? && Answer(e, c, 1).value.table.Some?
  }

  /** The call of the second attempt at a single statement. */
  function Retried<Stmt>(e: Engine<Stmt>, c: nat): nat
    requires LacksTable(e, c)
  {
    AfterRepair(e, Answer(e, c, 1).value.table.value, After(e, c, 1))
  }

  /** A single statement passes at once, or after a repair that works. */
  ghost predicate SinglePasses<Stmt>(e: Engine<Stmt>, c: nat) {
    || (e.executes(c).None? && e.commits(c + 1).None?)
    || (LacksTable(e, c) && RepairPasses(e, Answer(e, c, 1).value.table.value, After(e, c, 1))
        && e.executes(Retried(e, c)).None? && e.commits(Retried(e, c) + 1).None?)
  }

  ghost function AfterSingle<Stmt>(e: Engine<Stmt>, c: nat): nat {
    if !LacksTable(e, c) then After(e, c, 1)
    else if !RepairPasses(e, Answer(e, c, 1).value.table.value, After(e, c, 1)) then Retried(e, c)
    else if !LacksTable(e, Retried(e, c)) then After(e, Retried(e, c), 1)
    else Retried(e, Retried(e, c))
  }

  /** The call at which an attempt at a single statement starts; the second follows a repair
      that works. */
  ghost predicate StartsAt<Stmt>(e: Engine<Stmt>, c: nat, attempt: nat, start: nat) {
    || (attempt == 0 && start == c)
    || (attempt == 1 && LacksTable(e, c) && start == Retried(e, c)
        && RepairPasses(e, Answer(e, c, 1).value.table.value, After(e, c, 1)))
  }

  lemma StartsFirst<Stmt>(e: Engine<Stmt>, c: nat)
    ensures StartsAt(e, c, 0, c)
  {
  }

  /** How a single statement ends if an attempt goes through, and if it fails. */
  lemma SinglePassesNow<Stmt>(e: Engine<Stmt>, c: nat, attempt: nat, start: nat)
    requires StartsAt(e, c, attempt, start) && e.executes(start).None? && e.commits(start + 1).None?
    ensures SinglePasses(e, c) && AfterSingle(e, c) == After(e, start, 1)
  {
    OneAnswer(e, c);
    OneAnswer(e, start);
    hide Answer, After, RepairPasses, AfterRepair;
  }

  lemma SingleFails<Stmt>(e: Engine<Stmt>, c: nat, attempt: nat, start: nat, failure: Failure)
    requires StartsAt(e, c, attempt, start) && Answer(e, start, 1) == Some(failure)
    ensures !(failure.NoSuchTable? && failure.table.Some?) ==>
              !SinglePasses(e, c) && AfterSingle(e, c) == After(e, start, 1)
    ensures failure.NoSuchTable? && failure.table.Some? ==>
              var table, d := failure.table.value, After(e, start, 1);
              if attempt == 0 && RepairPasses(e, table, d) then StartsAt(e, c, 1, AfterRepair(e, table, d))
              else !SinglePasses(e, c) && AfterSingle(e, c) == AfterRepair(e, table, d)
  {
    OneAnswer(e, c);
    OneAnswer(e, start);
    if LacksTable(e, c) { OneAnswer(e, Retried(e, c)); }
    hide Answer, After, RepairPasses, AfterRepair;
  }

  lemma OneAnswer<Stmt>(e: Engine<Stmt>, c: nat)
    ensures Answer(e, c, 1).None? <==> e.executes(c).None? && e.commits(c + 1).None?
    ensures Answer(e, c, 1) == if e.executes(c).Some? then e.executes(c) else e.commits(c + 1)
    ensures After(e, c, 1) == if e.executes(c).Some? then c + 1 else c + 2
  {
    assert Passed(e, c + 1, 0) == 0;
  }

  ghost predicate TaskPasses<Stmt>(e: Engine<Stmt>, work: Work<Stmt>, c: nat) {
    match work
    case Single(_) => SinglePasses(e, c)
    case Transaction(stmts) => TransactionPasses(e, c, |stmts|)
    case Script(script) => AllPass(e, c, |script|)
  }

  ghost function AfterTask<Stmt>(e: Engine<Stmt>, work: Work<Stmt>, c: nat): nat {
    match work
    case Single(_) => AfterSingle(e, c)
    case Transaction(stmts) => AttemptAt(e, c, |stmts|, Attempts(e, c, |stmts|))
    case Script(script) => AfterScript(e, c, |script|)
  }

  /** The call at which the i-th task of a queue starts. */
  ghost function TaskAt<Stmt>(e: Engine<Stmt>, queue: seq<Task<Stmt>>, c: nat, i: nat): nat
    requires i <= |queue|
  {
    if i == 0 then c else AfterTask(e, queue[i - 1].work, TaskAt(e, queue, c, i - 1))
  }

  /** Where no engine call fails, every task passes. */
  lemma NothingFails<Stmt>(e: Engine<Stmt>, work: Work<Stmt>, c: nat)
    requires forall i :: e.executes(i).None? && e.commits(i).None?
    ensures TaskPasses(e, work, c)
  {
  }

  /** Each task handled so far succeeded exactly if the engine's answers let it. */
  ghost predicate AsAnswered<Stmt>(e: Engine<Stmt>, queue: seq<Task<Stmt>>, oks: seq<bool>, c: nat) {
    && |oks| <= |queue|
    && forall i :: 0 <= i < |oks| ==> (oks[i] <==> TaskPasses(e, queue[i].work, TaskAt(e, queue, c, i)))
  }

  lemma AnsweredOne<Stmt>(e: Engine<Stmt>, queue: seq<Task<Stmt>>, oks: seq<bool>, ok: bool, c: nat)
    requires AsAnswered(e, queue, oks, c) && |oks| < |queue|
    requires ok <==> TaskPasses(e, queue[|oks|].work, TaskAt(e, queue, c, |oks|))
    ensures AsAnswered(e, queue, oks + [ok], c)
    ensures TaskAt(e, queue, c, |oks| + 1) == AfterTask(e, queue[|oks|].work, TaskAt(e, queue, c, |oks|))
  {
    hide TaskPasses, AfterTask;
  }

  /** If no engine call fails, every task of the queue succeeds. */
  lemma AllSucceedWithoutFailures<Stmt>(e: Engine<Stmt>, queue: seq<Task<Stmt>>, oks: seq<bool>, c: nat)
    requires AsAnswered(e, queue, oks, c) && forall i :: e.executes(i).None? && e.commits(i).None?
    ensures forall i :: 0 <= i < |oks| ==> oks[i]
  {
    hide TaskPasses, TaskAt;
    forall i | 0 <= i < |oks| ensures oks[i] {
      NothingFails(e, queue[i].work, TaskAt(e, queue, c, i));
    }
  }
}
