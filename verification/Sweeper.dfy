/** One tick of backend/app/core/job_sweeper.py, and why its budget never starves a stale job. */
module Sweeper {
  import opened Jobs
  import Idempotency

  function StaleIds(jobs: map<JobId, Job>, moment: Time): set<JobId> {
    set j | j in jobs && Stale(jobs[j], moment)
  }

  function Min(a: nat, b: nat): nat {
    if a < b then a else b
  }

  /** ORDER BY updated_at LIMIT 50 over the stale rows; ties in any order. */
  ghost predicate OldestFirst(jobs: map<JobId, Job>, moment: Time, picked: set<JobId>) {
    && picked <= StaleIds(jobs, moment)
    && |picked| == Min(SWEEP_BUDGET, |StaleIds(jobs, moment)|)
    && forall p, q :: p in picked && q in StaleIds(jobs, moment) && q !in picked ==>
      jobs[p].updatedAt <= jobs[q].updatedAt
  }

  /** What the two conditional UPDATEs make of the table, given the ids and statuses the scan saw. */
  function Swept(scanned: map<JobId, Job>, picked: set<JobId>, jobs: map<JobId, Job>, now: Time): map<JobId, Job> {
    var pending := set j | j in picked && j in scanned && scanned[j].status == PENDING;
    var running := set j | j in picked && j in scanned && scanned[j].status == RUNNING;
    Abandoned(Reclaimed(jobs, pending, now), running, now)
  }

  /** Concurrent runners, submitters and sweepers only write rows at the present time: every row is
      unchanged or carries a stamp of t or later. */
  ghost predicate Evolves(before: map<JobId, Job>, after: map<JobId, Job>, t: Time) {
    && before.Keys <= after.Keys
    && forall j :: j in after ==> (j in before && after[j] == before[j]) || after[j].updatedAt >= t
  }

  /** One tick: the scan at `moment`, then rows raced meanwhile, then the UPDATEs at `now`. */
  datatype Tick = Tick(moment: Time, scanned: map<JobId, Job>, picked: set<JobId>, raced: map<JobId, Job>, now: Time) {
    function End(): map<JobId, Job> {
      Swept(scanned, picked, raced, now)
    }

    ghost predicate Valid() {
      OldestFirst(scanned, moment, picked) && Evolves(scanned, raced, moment) && moment <= now
    }
  }

  /** After a tick no row it picked is still stale at its moment, whatever raced it, and no other row
      became stale: the backlog shrinks by min(50, n). */
  lemma TickHandlesItsPick(k: Tick)
    requires k.Valid()
    ensures StaleIds(k.End(), k.moment) <= StaleIds(k.scanned, k.moment) - k.picked
    ensures var n := |StaleIds(k.scanned, k.moment)|;
      |StaleIds(k.End(), k.moment)| <= n - Min(SWEEP_BUDGET, n)
  {
    var before, after := StaleIds(k.scanned, k.moment), StaleIds(k.End(), k.moment);
    forall j | j in after ensures j in before - k.picked {
      assert j in k.raced;
    }
    SubsetSize(after, before - k.picked);
    assert |before - k.picked| == |before| - |k.picked|;
  }

  lemma {:induction false} SubsetSize(a: set<JobId>, b: set<JobId>)
    requires a <= b
    ensures |a| <= |b|
  {
    assert b == a + (b - a);
  }

  // ---- Draining a backlog -----------------------------------------------------------------

  /** Ticks in which no row goes stale that was not already. */
  ghost predicate NoNewStale(h: seq<Tick>) {
    && (forall i :: 0 <= i < |h| ==> h[i].Valid())
    && forall i :: 0 <= i < |h| - 1 ==> StaleIds(h[i + 1].scanned, h[i + 1].moment) <= StaleIds(h[i].End(), h[i].moment)
  }

  /** After ceil(n/50) ticks a backlog of n is gone. */
  lemma {:induction false} BacklogDrains(h: seq<Tick>)
    requires h != [] && NoNewStale(h)
    ensures var n := |StaleIds(h[0].scanned, h[0].moment)|; var last := h[|h| - 1];
      |StaleIds(last.End(), last.moment)| <= (if SWEEP_BUDGET * |h| >= n then 0 else n - SWEEP_BUDGET * |h|)
  {
    var k := |h| - 1;
    TickHandlesItsPick(h[k]);
    if k > 0 {
      var g := h[..k];
      forall i | 0 <= i < |g| - 1
        ensures StaleIds(g[i + 1].scanned, g[i + 1].moment) <= StaleIds(g[i].End(), g[i].moment) {
        assert h[i + 1] == g[i + 1] && h[i] == g[i];
      }
      BacklogDrains(g);
      assert h[k - 1 + 1] == h[k];
      SubsetSize(StaleIds(h[k].scanned, h[k].moment), StaleIds(h[k - 1].End(), h[k - 1].moment));
    }
  }

  // ---- No starvation ----------------------------------------------------------------------

  /** Unfinished rows last written no later than u: all that can be served before a row stamped u. */
  function Ahead(jobs: map<JobId, Job>, u: Time): set<JobId> {
    set j | j in jobs && (jobs[j].status == PENDING || jobs[j].status == RUNNING) && jobs[j].updatedAt <= u
  }

  /** Consecutive ticks with anything at all going on in between, new rows going stale included. */
  ghost predicate History(h: seq<Tick>) {
    && (forall i :: 0 <= i < |h| ==> h[i].Valid())
    && forall i :: 0 <= i < |h| - 1 ==>
      h[i].moment <= h[i + 1].moment && Evolves(h[i].End(), h[i + 1].scanned, h[i].moment)
  }

  /** Row j is still exactly as it was, and was not picked. */
  predicate Waiting(k: Tick, j: JobId, row: Job) {
    j in k.scanned && k.scanned[j] == row && j !in k.picked
  }

  /** No picked row is still unfinished with an old stamp after the tick, and no row becomes so. */
  lemma PickedLeave(k: Tick, u: Time)
    requires k.Valid() && u < k.moment
    ensures Ahead(k.End(), u) <= Ahead(k.scanned, u) - k.picked
  {
    forall p | p in Ahead(k.End(), u) ensures p in Ahead(k.scanned, u) - k.picked {
      assert p in k.raced;
    }
  }

  /** While a stale row waits, each tick takes 50 rows out of those ahead of it. */
  lemma WaitingCostsFifty(k: Tick, j: JobId, row: Job)
    requires k.Valid() && Waiting(k, j, row) && Stale(row, k.moment)
    ensures Ahead(k.End(), row.updatedAt) <= Ahead(k.scanned, row.updatedAt)
    ensures |Ahead(k.End(), row.updatedAt)| + SWEEP_BUDGET <= |Ahead(k.scanned, row.updatedAt)|
    ensures SWEEP_BUDGET < |Ahead(k.scanned, row.updatedAt)|
  {
    var u := row.updatedAt;
    var before, after := Ahead(k.scanned, u), Ahead(k.End(), u);
    assert j in StaleIds(k.scanned, k.moment);
    SubsetSize(k.picked + {j}, StaleIds(k.scanned, k.moment));
    assert |k.picked| == SWEEP_BUDGET;
    forall p | p in k.picked ensures p in before {
      assert k.scanned[p].updatedAt <= k.scanned[j].updatedAt;
    }
    PickedLeave(k, u);
    SubsetSize(after, before - k.picked);
    assert |before - k.picked| == |before| - |k.picked|;
    SubsetSize(k.picked + {j}, before);
  }

  lemma AheadShrinks(before: map<JobId, Job>, after: map<JobId, Job>, t: Time, u: Time)
    requires Evolves(before, after, t) && u < t
    ensures |Ahead(after, u)| <= |Ahead(before, u)|
  {
    SubsetSize(Ahead(after, u), Ahead(before, u));
  }

  lemma {:induction false} WaitingAccumulates(h: seq<Tick>, j: JobId, row: Job)
    requires h != [] && History(h) && Stale(row, h[0].moment)
    requires forall i :: 0 <= i < |h| ==> Waiting(h[i], j, row)
    ensures Stale(row, h[|h| - 1].moment)
    ensures var k := |h| - 1;
      |Ahead(h[k].scanned, row.updatedAt)| + SWEEP_BUDGET * k <= |Ahead(h[0].scanned, row.updatedAt)|
  {
    var k := |h| - 1;
    if k > 0 {
      var g := h[..k];
      forall i | 0 <= i < |g| - 1
        ensures g[i].moment <= g[i + 1].moment && Evolves(g[i].End(), g[i + 1].scanned, g[i].moment) {
        assert h[i + 1] == g[i + 1] && h[i] == g[i];
      }
      WaitingAccumulates(g, j, row);
      assert g[k - 1] == h[k - 1] && h[k - 1 + 1] == h[k];
      NextScan(h[k - 1], h[k], j, row);
    }
  }

  lemma NextScan(k: Tick, next: Tick, j: JobId, row: Job)
    requires k.Valid() && Waiting(k, j, row) && Stale(row, k.moment) && k.moment <= next.moment
    requires Evolves(k.End(), next.scanned, k.moment)
    ensures Stale(row, next.moment)
    ensures |Ahead(next.scanned, row.updatedAt)| + SWEEP_BUDGET <= |Ahead(k.scanned, row.updatedAt)|
  {
    WaitingCostsFifty(k, j, row);
    AheadShrinks(k.End(), next.scanned, k.moment, row.updatedAt);
  }

  /** No starvation, even while runners race every scan and new rows keep going stale: a stale row
      with at most m unfinished rows stamped no later than its own is picked, or has already been moved
      on by someone else, within ceil(m/50) ticks. */
  lemma NoStarvation(h: seq<Tick>, j: JobId)
    requires h != [] && History(h) && j in StaleIds(h[0].scanned, h[0].moment)
    requires SWEEP_BUDGET * |h| >= |Ahead(h[0].scanned, h[0].scanned[j].updatedAt)|
    ensures exists i :: 0 <= i < |h| && !Waiting(h[i], j, h[0].scanned[j])
  {
    var row := h[0].scanned[j];
    if forall i :: 0 <= i < |h| ==> Waiting(h[i], j, row) {
      WaitingAccumulates(h, j, row);
      WaitingCostsFifty(h[|h| - 1], j, row);
    }
  }

  /** A stale row that reads as before after a tick was not written or picked in it. */
  lemma UnwrittenInTick(k: Tick, j: JobId, row: Job)
    requires k.Valid() && Stale(row, k.moment) && j in k.End() && k.End()[j] == row
    ensures Waiting(k, j, row)
  {
    TickHandlesItsPick(k);
    assert j in StaleIds(k.End(), k.moment);
    assert k.raced[j] == row;
  }

  lemma UnwrittenBetween(before: map<JobId, Job>, after: map<JobId, Job>, t: Time, j: JobId)
    requires Evolves(before, after, t) && j in after && after[j].updatedAt < t
    ensures j in before && before[j] == after[j]
  {
  }

  /** Nor, if it reads as before at the end of a history, in any tick of it. */
  lemma {:induction false} UnwrittenWaits(h: seq<Tick>, end: map<JobId, Job>, j: JobId, row: Job, i: nat)
    requires i < |h| && History(h) && Stale(row, h[0].moment)
    requires Evolves(h[|h| - 1].End(), end, h[|h| - 1].moment) && j in end && end[j] == row
    ensures Waiting(h[i], j, row)
    decreases |h| - i
  {
    var k := h[i];
    StaysStale(h, row, i);
    if i == |h| - 1 {
      UnwrittenBetween(k.End(), end, k.moment, j);
    } else {
      UnwrittenWaits(h, end, j, row, i + 1);
      UnwrittenBetween(k.End(), h[i + 1].scanned, k.moment, j);
    }
    UnwrittenInTick(k, j, row);
  }

  lemma {:induction false} StaysStale(h: seq<Tick>, row: Job, i: nat)
    requires History(h) && i < |h| && Stale(row, h[0].moment)
    ensures Stale(row, h[i].moment)
  {
    if i > 0 {
      StaysStale(h, row, i - 1);
      assert h[i - 1].moment <= h[i - 1 + 1].moment;
    }
  }

  /** So a stale row is written by the end of those ticks: dispatched again, failed, or moved on. */
  lemma StaleRowIsWritten(h: seq<Tick>, end: map<JobId, Job>, j: JobId)
    requires h != [] && History(h) && j in StaleIds(h[0].scanned, h[0].moment)
    requires SWEEP_BUDGET * |h| >= |Ahead(h[0].scanned, h[0].scanned[j].updatedAt)|
    requires Evolves(h[|h| - 1].End(), end, h[|h| - 1].moment)
    ensures j in end ==> end[j] != h[0].scanned[j]
  {
    var row := h[0].scanned[j];
    if j in end && end[j] == row {
      forall i | 0 <= i < |h| ensures Waiting(h[i], j, row) { UnwrittenWaits(h, end, j, row, i); }
      NoStarvation(h, j);
    }
  }

  /** Every step of the runner machine, crashes and other sweepers included, is such an evolution, so
      the results above hold for whatever the system does around and between ticks. */
  lemma {:induction false} MachineEvolves(s: State, acts: seq<Action>)
    requires Legal(s, acts)
    ensures Evolves(s.jobs, Final(s, acts).jobs, s.now) && s.now <= Final(s, acts).now
    decreases |acts|
  {
    if acts != [] {
      var s' := Apply(s, acts[0]);
      assert Evolves(s.jobs, s'.jobs, s.now) && s.now <= s'.now;
      MachineEvolves(s', acts[1..]);
    }
  }

  // ---- No starvation in the machine -------------------------------------------------------

  /** One sweep of sweeper w inside a run: its scan, whatever the others do meanwhile, its UPDATEs, and
      whatever happens before the next sweep. */
  datatype Round = Round(w: SweeperId, picked: set<JobId>, during: seq<Action>, after: seq<Action>)

  /** Not a step of sweeper w. */
  predicate Foreign(a: Action, w: SweeperId) {
    (a.Scan? ==> a.w != w) && (a.Sweep? ==> a.w != w)
  }

  function AfterScan(s: State, r: Round): State
    requires Enabled(s, Scan(r.w, r.picked))
  {
    Apply(s, Scan(r.w, r.picked))
  }

  /** The scan is ordered and limited, and the round is a run of the machine. */
  ghost predicate RoundOk(s: State, r: Round) {
    && OldestFirst(s.jobs, s.now, r.picked) && Enabled(s, Scan(r.w, r.picked))
    && Legal(AfterScan(s, r), r.during) && (forall i :: 0 <= i < |r.during| ==> Foreign(r.during[i], r.w))
    && Enabled(Raced(s, r), Sweep(r.w)) && Legal(AfterSweep(s, r), r.after)
  }

  function Raced(s: State, r: Round): State
    requires Enabled(s, Scan(r.w, r.picked)) && Legal(AfterScan(s, r), r.during)
  {
    Final(AfterScan(s, r), r.during)
  }

  function AfterSweep(s: State, r: Round): State
    requires Enabled(s, Scan(r.w, r.picked)) && Legal(AfterScan(s, r), r.during) && Enabled(Raced(s, r), Sweep(r.w))
  {
    Apply(Raced(s, r), Sweep(r.w))
  }

  ghost function AfterRound(s: State, r: Round): State
    requires RoundOk(s, r)
  {
    Final(AfterSweep(s, r), r.after)
  }

  ghost predicate Sweeping(s: State, rounds: seq<Round>)
    decreases |rounds|
  {
    rounds == [] || (RoundOk(s, rounds[0]) && Sweeping(AfterRound(s, rounds[0]), rounds[1..]))
  }

  ghost function EndOf(s: State, rounds: seq<Round>): State
    requires Sweeping(s, rounds)
    decreases |rounds|
  {
    if rounds == [] then s else EndOf(AfterRound(s, rounds[0]), rounds[1..])
  }

  function Steps(rounds: seq<Round>): seq<Action> {
    if rounds == [] then [] else
      var r := rounds[0];
      [Scan(r.w, r.picked)] + (r.during + ([Sweep(r.w)] + (r.after + Steps(rounds[1..]))))
  }

  lemma {:induction false} Joined(s: State, a: seq<Action>, b: seq<Action>)
    requires Legal(s, a) && Legal(Final(s, a), b)
    ensures Legal(s, a + b) && Final(s, a + b) == Final(Final(s, a), b)
    decreases |a|
  {
    if a == [] {
      assert a + b == b;
    } else {
      Joined(Apply(s, a[0]), a[1..], b);
      assert a + b == [a[0]] + (a[1..] + b);
      Chain(s, a[0], a[1..] + b);
    }
  }

  /** Rounds are legal runs of the machine. */
  lemma {:induction false} RoundsAreRuns(s: State, rounds: seq<Round>)
    requires Sweeping(s, rounds)
    ensures Legal(s, Steps(rounds)) && Final(s, Steps(rounds)) == EndOf(s, rounds)
    decreases |rounds|
  {
    if rounds != [] {
      var r := rounds[0];
      var rest := Steps(rounds[1..]);
      RoundsAreRuns(AfterRound(s, r), rounds[1..]);
      Joined(AfterSweep(s, r), r.after, rest);
      Chain(Raced(s, r), Sweep(r.w), r.after + rest);
      Joined(AfterScan(s, r), r.during, [Sweep(r.w)] + (r.after + rest));
      Chain(s, Scan(r.w, r.picked), r.during + ([Sweep(r.w)] + (r.after + rest)));
    }
  }

  /** What a scan selected stays with its sweeper until its UPDATEs. */
  lemma {:induction false} SelectionKept(s: State, acts: seq<Action>, w: SweeperId)
    requires Legal(s, acts) && w in s.sweepers && forall i :: 0 <= i < |acts| ==> Foreign(acts[i], w)
    ensures w in Final(s, acts).sweepers && Final(s, acts).sweepers[w] == s.sweepers[w]
    decreases |acts|
  {
    if acts != [] {
      assert Foreign(acts[0], w);
      SelectionKept(Apply(s, acts[0]), acts[1..], w);
    }
  }

  /** The round as a tick. */
  ghost function TickOf(s: State, r: Round): Tick
    requires RoundOk(s, r)
  {
    Tick.Tick(s.now, s.jobs, r.picked, Raced(s, r).jobs, Raced(s, r).now)
  }

  lemma RoundIsTick(s: State, r: Round)
    requires RoundOk(s, r)
    ensures TickOf(s, r).Valid() && TickOf(s, r).End() == AfterSweep(s, r).jobs
    ensures Evolves(TickOf(s, r).End(), AfterRound(s, r).jobs, s.now) && s.now <= AfterRound(s, r).now
  {
    MachineEvolves(AfterScan(s, r), r.during);
    SelectionKept(AfterScan(s, r), r.during, r.w);
    MachineEvolves(AfterSweep(s, r), r.after);
  }

  ghost function Ticks(s: State, rounds: seq<Round>): (h: seq<Tick>)
    requires Sweeping(s, rounds)
    ensures |h| == |rounds| && (h != [] ==> h[0] == TickOf(s, rounds[0]))
    decreases |rounds|
  {
    if rounds == [] then [] else [TickOf(s, rounds[0])] + Ticks(AfterRound(s, rounds[0]), rounds[1..])
  }

  lemma {:induction false} TicksAreHistory(s: State, rounds: seq<Round>)
    requires Sweeping(s, rounds)
    ensures History(Ticks(s, rounds))
    decreases |rounds|
  {
    if rounds != [] {
      var next := AfterRound(s, rounds[0]);
      RoundIsTick(s, rounds[0]);
      TicksAreHistory(next, rounds[1..]);
      HistoryCons(TickOf(s, rounds[0]), Ticks(next, rounds[1..]));
    }
  }

  lemma {:induction false} LastTick(s: State, rounds: seq<Round>)
    requires Sweeping(s, rounds) && rounds != []
    ensures var k := Ticks(s, rounds)[|rounds| - 1]; Evolves(k.End(), EndOf(s, rounds).jobs, k.moment)
    decreases |rounds|
  {
    RoundIsTick(s, rounds[0]);
    var next := AfterRound(s, rounds[0]);
    if |rounds| == 1 {
      assert EndOf(s, rounds) == next;
    } else {
      LastTick(next, rounds[1..]);
    }
  }

  lemma HistoryCons(k: Tick, h: seq<Tick>)
    requires k.Valid() && History(h)
    requires h != [] ==> k.moment <= h[0].moment && Evolves(k.End(), h[0].scanned, k.moment)
    ensures History([k] + h)
  {
    var g := [k] + h;
    forall i | 0 <= i < |g| - 1
      ensures g[i].moment <= g[i + 1].moment && Evolves(g[i].End(), g[i + 1].scanned, g[i].moment) {
      if i > 0 { assert g[i] == h[i - 1] && g[i + 1] == h[i - 1 + 1]; }
    }
  }

  /** No starvation, over runs of the runner machine with its sweepers, crashes and races: when a
      stale row has at most m unfinished rows stamped no later than its own, then after ceil(m/50) ordered
      sweeps it has been written: dispatched again, failed, or moved on by a runner. */
  lemma {:induction false} StaleRowIsServed(s: State, rounds: seq<Round>, j: JobId)
    requires rounds != [] && Sweeping(s, rounds) && j in StaleIds(s.jobs, s.now)
    requires SWEEP_BUDGET * |rounds| >= |Ahead(s.jobs, s.jobs[j].updatedAt)|
    ensures Legal(s, Steps(rounds))
    ensures var end := Final(s, Steps(rounds)).jobs; j in end && end[j] != s.jobs[j] && end[j].updatedAt >= s.now
  {
    RoundsAreRuns(s, rounds);
    MachineEvolves(s, Steps(rounds));
    TicksAreHistory(s, rounds);
    LastTick(s, rounds);
    StaleRowIsWritten(Ticks(s, rounds), EndOf(s, rounds).jobs, j);
  }

  // ---- The tick, executed -----------------------------------------------------------------

  datatype SweepResult = SweepResult(reclaimedPending: nat, abandoned: nat, purgedKeys: nat)

  class SweeperLoop {
    var jobs: map<JobId, Job>
    var scheduled: seq<JobId>
    const keys: Idempotency.KeyTable

    constructor (rows: map<JobId, Job>, keys: Idempotency.KeyTable)
      ensures jobs == rows && scheduled == [] && this.keys == keys
    {
      jobs, scheduled := rows, [];
      this.keys := keys;
    }

    /** The bounded scan, oldest first. */
    method ScanStale(moment: Time) returns (order: seq<JobId>)
      ensures OldestFirst(jobs, moment, Ids(order))
      ensures InOrder(jobs, order) && |order| == |Ids(order)| <= 50
      ensures forall j :: j in order ==> j in jobs && Overdue(jobs[j], moment)
      ensures |order| < 50 ==> forall j :: j in jobs && Overdue(jobs[j], moment) ==> j in order
    {
      var stale := StaleIds(jobs, moment);
      var rest := stale;
      order := [];
      ghost var picked: set<JobId> := {};
      while |order| < SWEEP_BUDGET && rest != {}
        invariant picked == Ids(order) && picked !! rest && picked + rest == stale
        invariant |picked| == |order| <= SWEEP_BUDGET
        invariant InOrder(jobs, order)
        invariant forall p, q :: p in picked && q in rest ==> jobs[p].updatedAt <= jobs[q].updatedAt
        decreases rest
      {
        var j := Oldest(rest);
        InOrderSnoc(jobs, order, j);
        order := order + [j];
        rest := rest - {j};
        picked := picked + {j};
      }
      assert |stale| == |picked| + |rest|;
      PickIsOverdue(jobs, moment, order);
    }

    method Oldest(ids: set<JobId>) returns (j: JobId)
      requires ids != {} && ids <= jobs.Keys
      ensures j in ids && forall q :: q in ids ==> jobs[j].updatedAt <= jobs[q].updatedAt
    {
      j :| j in ids;
      var rest := ids - {j};
      while rest != {}
        invariant j in ids && rest <= ids
        invariant forall q :: q in ids && q !in rest ==> jobs[j].updatedAt <= jobs[q].updatedAt
        decreases rest
      {
        var q :| q in rest;
        if jobs[q].updatedAt < jobs[j].updatedAt { j := q; }
        rest := rest - {q};
      }
    }

    /** _reclaim_batch and _abandon on what the scan selected; the counts are their rowcounts. */
    method UpdateRows(order: seq<JobId>, moment: Time) returns (pending: seq<JobId>, reclaimed: nat, abandoned: nat)
      modifies this`jobs
      ensures jobs == Swept(old(jobs), Ids(order), old(jobs), moment) && RowsSwept(old(jobs), order, moment, jobs)
      ensures pending == WithStatus(old(jobs), order, PENDING)
      ensures reclaimed == |pending| && abandoned == |WithStatus(old(jobs), order, RUNNING)|
    {
      pending := WithStatus(jobs, order, PENDING);
      var running := WithStatus(jobs, order, RUNNING);
      WithStatusIds(jobs, order, PENDING);
      WithStatusIds(jobs, order, RUNNING);
      SweptRows(jobs, order, moment);
      reclaimed, abandoned := |pending|, |running|;
      jobs := Abandoned(Reclaimed(jobs, Ids(pending), moment), Ids(running), moment);
    }

    method ScheduleAll(ids: seq<JobId>)
      modifies this`scheduled
      ensures scheduled == old(scheduled) + ids
    {
      var i := 0;
      while i < |ids|
        invariant 0 <= i <= |ids| && scheduled == old(scheduled) + ids[..i]
      {
        scheduled := scheduled + [ids[i]];
        i := i + 1;
      }
    }

    /** sweep_stale_jobs, run without interleaving: re-dispatches every stale PENDING row it picked,
        fails every stale RUNNING row it picked, leaves all other rows alone, and purges expired keys. The
        counts say how many rows of each kind it handled: together min(50, backlog). */
    method SweepStaleJobs(moment: Time) returns (result: SweepResult, order: seq<JobId>)
      modifies this, keys
      ensures OldestFirst(old(jobs), moment, Ids(order))
      ensures |order| <= 50 && InOrder(old(jobs), order)
      ensures forall j :: j in order ==> j in old(jobs) && Overdue(old(jobs)[j], moment)
      ensures |order| < 50 ==> forall j :: j in old(jobs) && Overdue(old(jobs)[j], moment) ==> j in order
      ensures jobs == Swept(old(jobs), Ids(order), old(jobs), moment) && RowsSwept(old(jobs), order, moment, jobs)
      ensures scheduled == old(scheduled) + WithStatus(old(jobs), order, PENDING)
      ensures var dispatched := scheduled[|old(scheduled)|..];
        && InOrder(old(jobs), dispatched)
        && forall j :: j in dispatched <==> j in order && j in old(jobs) && old(jobs)[j].status == PENDING
      ensures StaleIds(jobs, moment) <= StaleIds(old(jobs), moment) - Ids(order)
      ensures result.reclaimedPending == |WithStatus(old(jobs), order, PENDING)|
      ensures result.reclaimedPending + result.abandoned == Min(SWEEP_BUDGET, |StaleIds(old(jobs), moment)|)
      ensures result.purgedKeys == |old(keys.rows).Keys - keys.rows.Keys| <= 500
      ensures keys.rows.Keys <= old(keys.rows).Keys && forall k :: k in keys.rows ==> keys.rows[k] == old(keys.rows)[k]
      ensures forall k :: k in old(keys.rows) && moment <= old(keys.rows)[k].createdAt + 604800 ==> k in keys.rows
      ensures result.purgedKeys < 500 ==> forall k :: k in keys.rows ==> moment <= keys.rows[k].createdAt + 604800
    {
      order := ScanStale(moment);
      TickHandlesItsPick(Tick.Tick(moment, jobs, Ids(order), jobs, moment));
      StatusCounts(jobs, order);
      WithStatusExact(jobs, order, PENDING);
      var pending, reclaimed, abandoned := UpdateRows(order, moment);
      var purged := keys.PurgeKeys(moment);
      result := SweepResult(reclaimed, abandoned, purged);
      ScheduleAll(pending);
    }
  }

  /** Picked PENDING rows count one more attempt, picked RUNNING rows are FAILED, both stamped with the
      sweep; every other row stands. */
  ghost predicate RowsSwept(was: map<JobId, Job>, order: seq<JobId>, moment: Time, now: map<JobId, Job>) {
    && now.Keys == was.Keys
    && forall j :: j in was ==>
      now[j] ==
        if j in order && was[j].status == PENDING then Job(PENDING, was[j].attempts + 1, moment)
        else if j in order && was[j].status == RUNNING then Job(FAILED, was[j].attempts, moment)
        else was[j]
  }

  /** An ordered pick takes overdue rows only, and all of them when it takes fewer than 50. */
  lemma PickIsOverdue(jobs: map<JobId, Job>, moment: Time, order: seq<JobId>)
    requires OldestFirst(jobs, moment, Ids(order))
    ensures forall j :: j in order ==> j in jobs && Overdue(jobs[j], moment)
    ensures |Ids(order)| < 50 ==> forall j :: j in jobs && Overdue(jobs[j], moment) ==> j in order
  {
    var stale := StaleIds(jobs, moment);
    forall j | j in jobs ensures j in stale <==> Overdue(jobs[j], moment) { StaleIffOverdue(jobs[j], moment); }
    forall j | j in order ensures j in stale { assert j in Ids(order); }
    if |Ids(order)| < 50 {
      assert stale == Ids(order) + (stale - Ids(order));
    }
  }

  lemma SweptRows(was: map<JobId, Job>, order: seq<JobId>, moment: Time)
    ensures RowsSwept(was, order, moment, Swept(was, Ids(order), was, moment))
  {
  }

  lemma InOrderTail(jobs: map<JobId, Job>, order: seq<JobId>)
    requires InOrder(jobs, order) && order != []
    ensures InOrder(jobs, order[1..]) && forall j :: j in order[1..] ==> Precedes(jobs, order[0], j)
  {
    var rest := order[1..];
    forall a, b | 0 <= a < b < |rest| ensures Precedes(jobs, rest[a], rest[b]) {
      assert rest[a] == order[a + 1] && rest[b] == order[b + 1];
    }
  }

  lemma InOrderCons(jobs: map<JobId, Job>, j: JobId, rest: seq<JobId>)
    requires InOrder(jobs, rest) && forall q :: q in rest ==> Precedes(jobs, j, q)
    ensures InOrder(jobs, [j] + rest)
  {
  }

  /** The ids of one status keep the scan's order: they are the scan without the others. */
  lemma {:induction false} WithStatusExact(jobs: map<JobId, Job>, order: seq<JobId>, status: Status)
    requires InOrder(jobs, order)
    ensures InOrder(jobs, WithStatus(jobs, order, status))
    ensures forall j :: j in WithStatus(jobs, order, status) <==> j in order && j in jobs && jobs[j].status == status
  {
    WithStatusIds(jobs, order, status);
    var ids := Ids(WithStatus(jobs, order, status));
    assert forall j :: j in WithStatus(jobs, order, status) <==> j in ids;
    assert forall j :: j in Ids(order) <==> j in order;
    WithStatusInOrder(jobs, order, status);
  }

  lemma {:induction false} WithStatusInOrder(jobs: map<JobId, Job>, order: seq<JobId>, status: Status)
    requires InOrder(jobs, order)
    ensures InOrder(jobs, WithStatus(jobs, order, status))
    ensures forall j :: j in WithStatus(jobs, order, status) ==> j in order
  {
    if order != [] {
      InOrderTail(jobs, order);
      WithStatusInOrder(jobs, order[1..], status);
      InOrderCons(jobs, order[0], WithStatus(jobs, order[1..], status));
    }
  }

  predicate Precedes(jobs: map<JobId, Job>, p: JobId, q: JobId) {
    p != q && p in jobs && q in jobs && jobs[p].updatedAt <= jobs[q].updatedAt
  }

  /** Distinct rows, least recently written first. */
  ghost predicate InOrder(jobs: map<JobId, Job>, order: seq<JobId>) {
    forall a, b :: 0 <= a < b < |order| ==> Precedes(jobs, order[a], order[b])
  }

  lemma InOrderSnoc(jobs: map<JobId, Job>, order: seq<JobId>, j: JobId)
    requires InOrder(jobs, order) && forall p :: p in Ids(order) ==> Precedes(jobs, p, j)
    ensures InOrder(jobs, order + [j]) && Ids(order + [j]) == Ids(order) + {j}
  {
    forall a | 0 <= a < |order| ensures Precedes(jobs, order[a], j) { assert order[a] in Ids(order); }
  }

  function Ids(order: seq<JobId>): set<JobId> {
    set j | j in order
  }

  /** [row.id for row in stale if row.status == status]. */
  function WithStatus(jobs: map<JobId, Job>, order: seq<JobId>, status: Status): seq<JobId> {
    if order == [] then [] else
      (if order[0] in jobs && jobs[order[0]].status == status then [order[0]] else []) +
        WithStatus(jobs, order[1..], status)
  }

  /** Rows that are PENDING or RUNNING fall into exactly one of the two lists. */
  lemma {:induction false} StatusCounts(jobs: map<JobId, Job>, order: seq<JobId>)
    requires forall j :: j in Ids(order) ==> j in jobs && (jobs[j].status == PENDING || jobs[j].status == RUNNING)
    ensures |WithStatus(jobs, order, PENDING)| + |WithStatus(jobs, order, RUNNING)| == |order|
  {
    if order != [] {
      assert order[0] in Ids(order) && Ids(order[1..]) <= Ids(order);
      StatusCounts(jobs, order[1..]);
    }
  }

  lemma {:induction false} WithStatusIds(jobs: map<JobId, Job>, order: seq<JobId>, status: Status)
    ensures Ids(WithStatus(jobs, order, status)) == set j | j in Ids(order) && j in jobs && jobs[j].status == status
  {
    if order != [] {
      WithStatusIds(jobs, order[1..], status);
      assert order == [order[0]] + order[1..];
      assert forall j :: j in Ids(WithStatus(jobs, order[1..], status)) <==> j in WithStatus(jobs, order[1..], status);
    }
  }
}
