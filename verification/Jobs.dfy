/** The job runner of backend/app/core/jobs.py and the sweep steps of backend/app/core/job_sweeper.py
    as one state machine: any number of dispatches, runners and sweepers interleave, and any of them
    may crash at any point.

    A sweep's two conditional UPDATEs and their commit are one step: the rows they match stay locked
    until the commit, and a row they did not match never matches later. */
module Jobs {

  type JobId = nat
  type RunnerId = nat
  type SweeperId = nat
  type Time = nat

  /** Seconds. */
  const PENDING_RECLAIM_AFTER: nat := 600
  const RUNNING_ABANDON_AFTER: nat := 7200
  const SWEEP_BUDGET: nat := 50

  datatype Status = PENDING | RUNNING | COMPLETED | FAILED
  datatype Job = Job(status: Status, attempts: nat, updatedAt: Time)

  datatype Runner =
    | Dispatched(job: JobId)  // scheduled, has not claimed yet
    | Running(job: JobId)     // won the claim, handler executing
    | Failing(job: JobId)     // handler raised; the unit of work rolled back
    | Gone

  /** What a sweeper's scan selected. */
  datatype Sweeper = Scanned(pending: set<JobId>, running: set<JobId>) | Idle

  datatype Claim = Claim(job: JobId, runner: RunnerId)

  /** claims and effects are history: claims won, and handler runs whose business writes committed. */
  datatype State = State(
    now: Time, jobs: map<JobId, Job>, runners: map<RunnerId, Runner>, sweepers: map<SweeperId, Sweeper>,
    claims: seq<Claim>, effects: seq<Claim>)

  const INITIAL := State(0, map[], map[], map[], [], [])

  datatype Action =
    | Submit(j: JobId)
    | Dispatch(x: RunnerId, j: JobId)
    | ClaimJob(x: RunnerId)
    | Complete(x: RunnerId)
    | Raise(x: RunnerId)
    | WriteFailed(x: RunnerId)
    | Stop(x: RunnerId)
    | Scan(w: SweeperId, picked: set<JobId>)
    | Sweep(w: SweeperId)
    | Tick(time: Time)

  // ---- Statements -------------------------------------------------------------------------

  function Grace(status: Status): nat {
    if status == PENDING then PENDING_RECLAIM_AFTER else RUNNING_ABANDON_AFTER
  }

  predicate Stale(job: Job, now: Time) {
    (job.status == PENDING || job.status == RUNNING) && job.updatedAt + Grace(job.status) < now
  }

  /** UPDATE ... SET status = 'RUNNING' WHERE id = :id AND status = 'PENDING'. */
  function Claimed(jobs: map<JobId, Job>, j: JobId, now: Time): map<JobId, Job> {
    if j in jobs && jobs[j].status == PENDING then jobs[j := jobs[j].(status := RUNNING, updatedAt := now)] else jobs
  }

  /** The unconditional terminal write of the claim holder. */
  function Written(jobs: map<JobId, Job>, j: JobId, status: Status, now: Time): map<JobId, Job> {
    if j in jobs then jobs[j := jobs[j].(status := status, updatedAt := now)] else jobs
  }

  /** _reclaim_batch: conditional on PENDING. */
  function Reclaimed(jobs: map<JobId, Job>, ids: set<JobId>, now: Time): map<JobId, Job> {
    map j | j in jobs ::
      if j in ids && jobs[j].status == PENDING then Job(PENDING, jobs[j].attempts + 1, now) else jobs[j]
  }

  /** _abandon: conditional on RUNNING. */
  function Abandoned(jobs: map<JobId, Job>, ids: set<JobId>, now: Time): map<JobId, Job> {
    map j | j in jobs ::
      if j in ids && jobs[j].status == RUNNING then jobs[j].(status := FAILED, updatedAt := now) else jobs[j]
  }

  predicate Enabled(s: State, a: Action) {
    match a
    case Submit(j) => j !in s.jobs
    case Dispatch(x, _) => x !in s.runners
    case ClaimJob(x) => x in s.runners && s.runners[x].Dispatched?
    case Complete(x) => x in s.runners && s.runners[x].Running?
    case Raise(x) => x in s.runners && s.runners[x].Running?
    case WriteFailed(x) => x in s.runners && s.runners[x].Failing?
    case Stop(x) => x in s.runners
    case Scan(_, picked) => |picked| <= SWEEP_BUDGET && forall j :: j in picked ==>
      j in s.jobs && Stale(s.jobs[j], s.now)
    case Sweep(w) => w in s.sweepers && s.sweepers[w].Scanned?
    case Tick(time) => s.now <= time
  }

  function Apply(s: State, a: Action): State
    requires Enabled(s, a)
  {
    match a
    case Submit(j) => s.(jobs := s.jobs[j := Job(PENDING, 0, s.now)])
    case Dispatch(x, j) => s.(runners := s.runners[x := Dispatched(j)])
    case ClaimJob(x) =>
      var j := s.runners[x].job;
      if j in s.jobs && s.jobs[j].status == PENDING then
        s.(jobs := Claimed(s.jobs, j, s.now), runners := s.runners[x := Running(j)], claims := s.claims + [Claim(j, x)])
      else s.(runners := s.runners[x := Gone])
    case Complete(x) =>
      var j := s.runners[x].job;
      s.(jobs := Written(s.jobs, j, COMPLETED, s.now), runners := s.runners[x := Gone],
        effects := s.effects + [Claim(j, x)])
    case Raise(x) => s.(runners := s.runners[x := Failing(s.runners[x].job)])
    case WriteFailed(x) => s.(jobs := Written(s.jobs, s.runners[x].job, FAILED, s.now), runners := s.runners[x := Gone])
    case Stop(x) => s.(runners := s.runners[x := Gone])
    case Scan(w, picked) =>
      s.(sweepers := s.sweepers[w := Scanned(
        set j | j in picked && j in s.jobs && s.jobs[j].status == PENDING,
        set j | j in picked && j in s.jobs && s.jobs[j].status == RUNNING)])
    case Sweep(w) =>
      s.(jobs := Abandoned(Reclaimed(s.jobs, s.sweepers[w].pending, s.now), s.sweepers[w].running, s.now),
        sweepers := s.sweepers[w := Idle])
    case Tick(time) => s.(now := time)
  }

  predicate Legal(s: State, acts: seq<Action>)
    decreases |acts|
  {
    acts == [] || (Enabled(s, acts[0]) && Legal(Apply(s, acts[0]), acts[1..]))
  }

  function Final(s: State, acts: seq<Action>): State
    requires Legal(s, acts)
    decreases |acts|
  {
    if acts == [] then s else Final(Apply(s, acts[0]), acts[1..])
  }

  // ---- The invariant ----------------------------------------------------------------------

  predicate Works(s: State, x: RunnerId) {
    x in s.runners && (s.runners[x].Running? || s.runners[x].Failing?)
  }

  /** A job was claimed exactly when it has left PENDING. */
  ghost predicate JobOk(s: State, j: JobId) {
    && (j in s.jobs && s.jobs[j].status != PENDING <==> exists c :: c in s.claims && c.job == j)
    && ((j in s.jobs && s.jobs[j].status == COMPLETED) <==> exists c :: c in s.effects && c.job == j)
  }

  /** A runner past the claim holds it, and its job is unfinished or given up on. */
  ghost predicate RunnerOk(s: State, x: RunnerId) {
    Works(s, x) ==>
      var j := s.runners[x].job;
      Claim(j, x) in s.claims && j in s.jobs && (s.jobs[j].status == RUNNING || s.jobs[j].status == FAILED)
  }

  ghost predicate OncePerJob(cs: seq<Claim>) {
    forall i, k :: 0 <= i < k < |cs| ==> cs[i].job != cs[k].job
  }

  ghost predicate Inv(s: State) {
    && (forall j :: JobOk(s, j))
    && (forall x :: RunnerOk(s, x))
    && OncePerJob(s.claims) && OncePerJob(s.effects)
    && (forall c :: c in s.effects ==> c in s.claims)
    && (forall c :: c in s.claims ==> c.runner in s.runners)
  }

  lemma InitialInv()
    ensures Inv(INITIAL)
  {
  }

  lemma OneClaim(s: State, c: Claim, d: Claim)
    requires OncePerJob(s.claims) && c in s.claims && d in s.claims && c.job == d.job
    ensures c == d
  {
    var i :| 0 <= i < |s.claims| && s.claims[i] == c;
    var k :| 0 <= k < |s.claims| && s.claims[k] == d;
  }

  lemma KeepJob(s: State, a: Action, j: JobId)
    requires Inv(s) && Enabled(s, a)
    ensures JobOk(Apply(s, a), j)
  {
    assert JobOk(s, j);
    var s' := Apply(s, a);
    forall c | c in s.claims ensures c in s'.claims { }
    forall c | c in s.effects ensures c in s'.effects { }
    match a
    case ClaimJob(x) =>
      var i := s.runners[x].job;
      if i in s.jobs && s.jobs[i].status == PENDING { assert Claim(i, x) in s'.claims && Claim(i, x).job == i; }
    case Complete(x) =>
      var i := s.runners[x].job;
      assert RunnerOk(s, x);
      assert Claim(i, x) in s'.effects && Claim(i, x).job == i;
    case WriteFailed(x) =>
      assert RunnerOk(s, x);
    case _ =>
  }

  lemma KeepRunner(s: State, a: Action, x: RunnerId)
    requires Inv(s) && Enabled(s, a)
    ensures RunnerOk(Apply(s, a), x)
  {
    assert RunnerOk(s, x);
    match a
    case Complete(u) =>
      assert RunnerOk(s, u);
      var j := s.runners[u].job;
      if Works(s, x) && s.runners[x].job == j { OneClaim(s, Claim(j, x), Claim(j, u)); }
    case ClaimJob(u) =>
      if Works(s, x) { assert JobOk(s, s.runners[x].job); }
    case _ =>
  }

  lemma KeepOnce(s: State, a: Action)
    requires Inv(s) && Enabled(s, a)
    ensures OncePerJob(Apply(s, a).claims) && OncePerJob(Apply(s, a).effects)
  {
    match a
    case ClaimJob(x) => assert JobOk(s, s.runners[x].job);
    case Complete(x) => assert RunnerOk(s, x) && JobOk(s, s.runners[x].job);
    case _ =>
  }

  lemma KeepHistory(s: State, a: Action)
    requires Inv(s) && Enabled(s, a)
    ensures var s' := Apply(s, a);
      && (forall c :: c in s'.effects ==> c in s'.claims)
      && (forall c :: c in s'.claims ==> c.runner in s'.runners)
  {
    if a.Complete? { assert RunnerOk(s, a.x); }
  }

  lemma StepKeepsInv(s: State, a: Action)
    requires Inv(s) && Enabled(s, a)
    ensures Inv(Apply(s, a))
  {
    var s' := Apply(s, a);
    forall j ensures JobOk(s', j) { KeepJob(s, a, j); }
    forall x ensures RunnerOk(s', x) { KeepRunner(s, a, x); }
    KeepOnce(s, a);
    KeepHistory(s, a);
  }

  lemma {:induction false} RunKeepsInv(s: State, acts: seq<Action>)
    requires Inv(s) && Legal(s, acts)
    ensures Inv(Final(s, acts))
    decreases |acts|
  {
    if acts != [] {
      StepKeepsInv(s, acts[0]);
      RunKeepsInv(Apply(s, acts[0]), acts[1..]);
    }
  }

  // ---- Main results -----------------------------------------------------------------------

  /** However often a job is dispatched and swept, at most one runner ever passes its claim. */
  lemma AtMostOneClaim(acts: seq<Action>, i: nat, k: nat)
    requires Legal(INITIAL, acts) && i < |Final(INITIAL, acts).claims| && k < |Final(INITIAL, acts).claims|
    requires Final(INITIAL, acts).claims[i].job == Final(INITIAL, acts).claims[k].job
    ensures i == k
  {
    InitialInv();
    RunKeepsInv(INITIAL, acts);
  }

  function Runs(effects: seq<Claim>, j: JobId): nat {
    if effects == [] then 0 else Runs(effects[..|effects| - 1], j) + if effects[|effects| - 1].job == j then 1 else 0
  }

  lemma {:induction false} RunsOnce(cs: seq<Claim>, j: JobId)
    requires OncePerJob(cs)
    ensures Runs(cs, j) == if exists c :: c in cs && c.job == j then 1 else 0
  {
    if cs != [] {
      var n := |cs| - 1;
      RunsOnce(cs[..n], j);
      assert cs == cs[..n] + [cs[n]];
    }
  }

  /** A job's business writes are committed exactly once when it is COMPLETED and not at all
      otherwise. */
  lemma EffectsIffCompleted(acts: seq<Action>, j: JobId)
    requires Legal(INITIAL, acts)
    ensures var s := Final(INITIAL, acts);
      Runs(s.effects, j) == if j in s.jobs && s.jobs[j].status == COMPLETED then 1 else 0
  {
    InitialInv();
    RunKeepsInv(INITIAL, acts);
    var s := Final(INITIAL, acts);
    assert JobOk(s, j);
    RunsOnce(s.effects, j);
  }

  /** x is running j's handler on the claim it won. */
  predicate ClaimHolder(s: State, x: RunnerId, j: JobId) {
    x in s.runners && s.runners[x] == Running(j) && Claim(j, x) in s.claims
  }

  /** The status changes a step may make to a row: COMPLETED is final, no row returns to PENDING,
      RUNNING comes only from PENDING, and FAILED is only ever changed by the one claim holder. */
  ghost predicate StatusStep(s: State, a: Action, j: JobId)
    requires Enabled(s, a) && j in s.jobs
  {
    var s' := Apply(s, a);
    && j in s'.jobs
    && var was, now := s.jobs[j].status, s'.jobs[j].status;
       was == now || (was == PENDING && now == RUNNING && a.ClaimJob?)
       || (was == RUNNING && (now == COMPLETED || now == FAILED))
       || (was == FAILED && now == COMPLETED && a.Complete? && ClaimHolder(s, a.x, j))
  }

  lemma StatusChanges(s: State, a: Action, j: JobId)
    requires Inv(s) && Enabled(s, a) && j in s.jobs
    ensures StatusStep(s, a, j)
  {
    if a.Complete? || a.WriteFailed? { assert RunnerOk(s, a.x); }
  }

  /** The row a step leaves for a job that exists, by what happened: the winning claim, the handler's
      commit, its failure, a sweep of a row that still is as the scan saw it, or nothing. */
  function RowAfter(s: State, a: Action, j: JobId): Job
    requires j in s.jobs
  {
    var row := s.jobs[j];
    var runs := (a.ClaimJob? || a.Complete? || a.WriteFailed?) && a.x in s.runners && !s.runners[a.x].Gone? &&
      s.runners[a.x].job == j;
    var scan := if a.Sweep? && a.w in s.sweepers then s.sweepers[a.w] else Idle;
    if runs && a.ClaimJob? && row.status == PENDING then Job(RUNNING, row.attempts, s.now)
    else if runs && a.Complete? then Job(COMPLETED, row.attempts, s.now)
    else if runs && a.WriteFailed? then Job(FAILED, row.attempts, s.now)
    else if scan.Scanned? && j in scan.pending && row.status == PENDING then Job(PENDING, row.attempts + 1, s.now)
    else if scan.Scanned? && j in scan.running && row.status == RUNNING then Job(FAILED, row.attempts, s.now)
    else row
  }

  /** What each step writes: a claim wins exactly a PENDING row; the claim holder's commit leaves
      COMPLETED and its failure FAILED, whatever the sweeper wrote; a sweep counts one more attempt or gives
      up; every such write is stamped now and no other row changes. Only Submit adds a row, PENDING. */
  lemma StepWrites(s: State, a: Action)
    requires Inv(s) && Enabled(s, a)
    ensures var s' := Apply(s, a);
      && (forall j :: j in s.jobs ==> j in s'.jobs && s'.jobs[j] == RowAfter(s, a, j))
      && (forall j :: j in s'.jobs && j !in s.jobs ==> a == Submit(j) && s'.jobs[j] == Job(PENDING, 0, s.now))
      && (a.Complete? || a.WriteFailed? ==> s.runners[a.x].job in s.jobs)
      && (a.Submit? ==> a.j in s'.jobs)
  {
    if a.Complete? || a.WriteFailed? { assert RunnerOk(s, a.x); }
  }

  /** Over whole runs: a COMPLETED row stays COMPLETED and keeps its single effect, and a row that has
      left PENDING never returns. */
  lemma {:induction false} CompletedIsFinal(s: State, acts: seq<Action>, j: JobId)
    requires Inv(s) && Legal(s, acts) && j in s.jobs
    ensures var e := Final(s, acts);
      && j in e.jobs
      && (s.jobs[j].status == COMPLETED ==> e.jobs[j].status == COMPLETED)
      && (s.jobs[j].status != PENDING ==> e.jobs[j].status != PENDING)
    decreases |acts|
  {
    if acts != [] {
      StatusChanges(s, acts[0], j);
      StepKeepsInv(s, acts[0]);
      CompletedIsFinal(Apply(s, acts[0]), acts[1..], j);
    }
  }

  // ---- When FAILED is final ---------------------------------------------------------------------

  /** Some runner is still executing the job's handler. */
  predicate Alive(s: State, j: JobId) {
    exists x :: x in s.runners && s.runners[x] == Running(j)
  }

  lemma FailedStepStays(s: State, a: Action, j: JobId)
    requires Enabled(s, a) && j in s.jobs && s.jobs[j].status == FAILED && !Alive(s, j)
    ensures var s' := Apply(s, a); j in s'.jobs && s'.jobs[j].status == FAILED && !Alive(s', j)
  {
    var s' := Apply(s, a);
    forall x | x in s'.runners ensures s'.runners[x] != Running(j) {
      assert x in s.runners ==> s.runners[x] != Running(j);
    }
  }

  lemma {:induction false} FailedRunStays(s: State, acts: seq<Action>, j: JobId)
    requires Legal(s, acts) && j in s.jobs && s.jobs[j].status == FAILED && !Alive(s, j)
    ensures var e := Final(s, acts); j in e.jobs && e.jobs[j].status == FAILED
    decreases |acts|
  {
    if acts != [] {
      FailedStepStays(s, acts[0], j);
      FailedRunStays(Apply(s, acts[0]), acts[1..], j);
    }
  }

  ghost predicate StaysFailed(s: State, j: JobId) {
    forall acts :: Legal(s, acts) ==> var e := Final(s, acts); j in e.jobs && e.jobs[j].status == FAILED
  }

  /** A FAILED row stays FAILED in every continuation if and only if no runner is still executing its
      handler. */
  lemma FailedIsFinalIffNoRunner(s: State, j: JobId)
    requires j in s.jobs && s.jobs[j].status == FAILED
    ensures StaysFailed(s, j) <==> !Alive(s, j)
  {
    if Alive(s, j) {
      var x :| x in s.runners && s.runners[x] == Running(j);
      var acts := [Complete(x)];
      assert Enabled(s, acts[0]) && acts[1..] == [];
      assert Legal(s, acts);
      assert Final(s, acts) == Apply(s, Complete(x));
    } else {
      forall acts | Legal(s, acts) ensures var e := Final(s, acts); j in e.jobs && e.jobs[j].status == FAILED {
        FailedRunStays(s, acts, j);
      }
    }
  }

  lemma Chain(s: State, a: Action, rest: seq<Action>)
    requires Enabled(s, a) && Legal(Apply(s, a), rest)
    ensures Legal(s, [a] + rest) && Final(s, [a] + rest) == Final(Apply(s, a), rest)
  {
    assert ([a] + rest)[1..] == rest;
  }

  /** A run that reaches the other case: the sweeper gives up on a slow handler, whose runner then
      commits COMPLETED over the FAILED row. */
  lemma SlowHandlerOverwritesFailed()
    ensures var giveUp := [Submit(1), Dispatch(7, 1), ClaimJob(7), Tick(7201), Scan(0, {1}), Sweep(0)];
      && Legal(INITIAL, giveUp)
      && var s := Final(INITIAL, giveUp);
         && 1 in s.jobs && s.jobs[1].status == FAILED && Alive(s, 1)
         && Enabled(s, Complete(7)) && Apply(s, Complete(7)).jobs[1].status == COMPLETED
  {
    assert Alive(GIVEN_UP, 1) by { assert GIVEN_UP.runners[7] == Running(1); }
    SweptWhileRunning();
    var rest := [Tick(7201), Scan(0, {1}), Sweep(0)];
    var s1 := Apply(INITIAL, Submit(1));
    var s2 := Apply(s1, Dispatch(7, 1));
    assert Apply(s2, ClaimJob(7)) == BUSY;
    Chain(s2, ClaimJob(7), rest);
    Chain(s1, Dispatch(7, 1), [ClaimJob(7)] + rest);
    Chain(INITIAL, Submit(1), [Dispatch(7, 1)] + ([ClaimJob(7)] + rest));
    assert [Submit(1)] + ([Dispatch(7, 1)] + ([ClaimJob(7)] + rest)) ==
      [Submit(1), Dispatch(7, 1), ClaimJob(7), Tick(7201), Scan(0, {1}), Sweep(0)];
  }

  /** Job 1 claimed by runner 7 at time 0. */
  const BUSY := State(0, map[1 := Job(RUNNING, 0, 0)], map[7 := Running(1)], map[], [Claim(1, 7)], [])

  /** Two hours and a second later, swept. */
  const GIVEN_UP := State(7201, map[1 := Job(FAILED, 0, 7201)], map[7 := Running(1)], map[0 := Idle], [Claim(1, 7)], [])

  lemma SweptWhileRunning()
    ensures var rest := [Tick(7201), Scan(0, {1}), Sweep(0)]; Legal(BUSY, rest) && Final(BUSY, rest) == GIVEN_UP
  {
    var s4 := Apply(BUSY, Tick(7201));
    var s5 := Apply(s4, Scan(0, {1}));
    assert s5.sweepers[0] == Scanned({}, {1});
    assert Apply(s5, Sweep(0)) == GIVEN_UP;
    Chain(s5, Sweep(0), []);
    Chain(s4, Scan(0, {1}), [Sweep(0)]);
    Chain(BUSY, Tick(7201), [Scan(0, {1}), Sweep(0)]);
  }

  // ---- Undisturbed runs of the machine ----------------------------------------------------------

  /** Last written more than the grace period ago: ten minutes for PENDING, two hours for RUNNING, in seconds. */
  predicate Overdue(job: Job, now: Time) {
    match job.status
    case PENDING => job.updatedAt + 600 < now
    case RUNNING => job.updatedAt + 7200 < now
    case _ => false
  }

  lemma StaleIffOverdue(job: Job, now: Time)
    ensures Stale(job, now) <==> Overdue(job, now)
  {
  }

  /** A runner dispatched for a PENDING job takes it to COMPLETED, or to FAILED when the handler raises,
      and nothing else changes. */
  lemma RunnerFinishes(s: State, x: RunnerId, succeeds: bool)
    requires x in s.runners && s.runners[x].Dispatched?
    requires s.runners[x].job in s.jobs && s.jobs[s.runners[x].job].status == PENDING
    ensures var acts := if succeeds then [ClaimJob(x), Complete(x)] else [ClaimJob(x), Raise(x), WriteFailed(x)];
      && Legal(s, acts)
      && var e, j := Final(s, acts), s.runners[x].job;
         && e.jobs == s.jobs[j := Job(if succeeds then COMPLETED else FAILED, s.jobs[j].attempts, s.now)]
         && e.runners == s.runners[x := Gone] && e.claims == s.claims + [Claim(j, x)]
         && e.effects == if succeeds then s.effects + [Claim(j, x)] else s.effects
  {
    var s1 := Apply(s, ClaimJob(x));
    if succeeds {
      Chain(s1, Complete(x), []);
      Chain(s, ClaimJob(x), [Complete(x)]);
    } else {
      var s2 := Apply(s1, Raise(x));
      Chain(s2, WriteFailed(x), []);
      Chain(s1, Raise(x), [WriteFailed(x)]);
      Chain(s, ClaimJob(x), [Raise(x), WriteFailed(x)]);
    }
  }

  /** A sweep nothing races may take any 50 overdue rows: it counts an attempt on the PENDING ones, fails
      the RUNNING ones, and leaves all other rows alone. */
  lemma SweepWithoutRaces(s: State, w: SweeperId, picked: set<JobId>)
    requires |picked| <= 50 && forall j :: j in picked ==> j in s.jobs && Overdue(s.jobs[j], s.now)
    ensures Legal(s, [Scan(w, picked), Sweep(w)])
    ensures var e := Final(s, [Scan(w, picked), Sweep(w)]);
      && e.jobs.Keys == s.jobs.Keys && e.runners == s.runners
      && forall j :: j in s.jobs ==>
        var row := s.jobs[j];
        e.jobs[j] ==
          if j !in picked then row
          else if row.status == PENDING then Job(PENDING, row.attempts + 1, s.now) else Job(FAILED, row.attempts, s.now)
  {
    forall j | j in picked ensures Stale(s.jobs[j], s.now) { StaleIffOverdue(s.jobs[j], s.now); }
    var s1 := Apply(s, Scan(w, picked));
    Chain(s1, Sweep(w), []);
    Chain(s, Scan(w, picked), [Sweep(w)]);
  }

  /** A runner that dies in its handler leaves a RUNNING row; two hours later a sweep fails it, and it
      stays FAILED for good. */
  lemma CrashedJobIsGivenUp(s: State, x: RunnerId, j: JobId, time: Time, w: SweeperId)
    requires Inv(s) && x in s.runners && s.runners[x] == Running(j)
    requires j in s.jobs && s.jobs[j].status == RUNNING
    requires s.now <= time && s.jobs[j].updatedAt + 7200 < time
    ensures var acts := [Stop(x), Tick(time), Scan(w, {j}), Sweep(w)];
      && Legal(s, acts)
      && Final(s, acts).jobs == s.jobs[j := Job(FAILED, s.jobs[j].attempts, time)] && StaysFailed(Final(s, acts), j)
  {
    var s1 := Apply(s, Stop(x));
    var s2 := Apply(s1, Tick(time));
    StaleIffOverdue(s2.jobs[j], time);
    var s3 := Apply(s2, Scan(w, {j}));
    assert s3.sweepers[w] == Scanned({}, {j});
    var s4 := Apply(s3, Sweep(w));
    Chain(s3, Sweep(w), []);
    Chain(s2, Scan(w, {j}), [Sweep(w)]);
    Chain(s1, Tick(time), [Scan(w, {j}), Sweep(w)]);
    Chain(s, Stop(x), [Tick(time), Scan(w, {j}), Sweep(w)]);
    OnlyRunnerOf(s, x, j);
    FailedIsFinalIffNoRunner(s4, j);
  }

  lemma OnlyRunnerOf(s: State, x: RunnerId, j: JobId)
    requires Inv(s) && x in s.runners && s.runners[x] == Running(j)
    ensures forall y :: y in s.runners && y != x ==> s.runners[y] != Running(j)
  {
    forall y | y in s.runners && y != x ensures s.runners[y] != Running(j) {
      if s.runners[y] == Running(j) {
        assert RunnerOk(s, x) && RunnerOk(s, y);
        OneClaim(s, Claim(j, x), Claim(j, y));
      }
    }
  }

  // ---- The job table ----------------------------------------------------------------------

  class JobTable {
    var jobs: map<JobId, Job>

    constructor ()
      ensures jobs == map[]
    {
      jobs := map[];
    }

    /** An unregistered job type is refused with nothing changed; an accepted job is the one new row. */
    method SubmitJob(registered: set<string>, jobType: string, j: JobId, now: Time) returns (accepted: bool)
      requires j !in jobs
      modifies this
      ensures accepted <==> jobType in registered
      ensures !accepted ==> jobs == old(jobs)
      ensures accepted ==> jobs == old(jobs)[j := Job(PENDING, 0, now)]
    {
      accepted := jobType in registered;
      if accepted {
        jobs := jobs[j := Job(PENDING, 0, now)];
      }
    }

    /** The conditional claim: rowcount 1 for the winner only. */
    method ClaimPending(j: JobId, now: Time) returns (won: bool)
      modifies this
      ensures won <==> j in old(jobs) && old(jobs)[j].status == PENDING
      ensures jobs == if won then old(jobs)[j := Job(RUNNING, old(jobs)[j].attempts, now)] else old(jobs)
    {
      won := j in jobs && jobs[j].status == PENDING;
      if won {
        jobs := jobs[j := jobs[j].(status := RUNNING, updatedAt := now)];
      }
    }

    /** _run_handler, run without interleaving: the handler runs at most once, and its outcome is the
        row's final status. */
    method RunHandler(j: JobId, now: Time, handler: () -> bool) returns (ran: bool)
      modifies this
      ensures ran <==> j in old(jobs) && old(jobs)[j].status == PENDING
      ensures !ran ==> jobs == old(jobs)
      ensures ran ==> jobs == old(jobs)[j := Job(if handler() then COMPLETED else FAILED, old(jobs)[j].attempts, now)]
    {
      ran := ClaimPending(j, now);
      if ran {
        if handler() {
          jobs := Written(jobs, j, COMPLETED, now);
        } else {
          jobs := Written(jobs, j, FAILED, now);
        }
      }
    }
  }
}
