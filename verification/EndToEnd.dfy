/** Idempotency keys, job runners, crashes, sweepers and purges together, on an endpoint whose unit of
    work submits one job and captures its id (backend/app/core/jobs.py, step 2 of the pattern). */
module EndToEnd {
  import I = Idempotency
  import J = Jobs
  import opened Options

  datatype State = State(keys: I.State, jobs: J.State)

  const INITIAL := State(I.INITIAL, J.INITIAL)

  datatype Action =
    | KeyStep(k: I.Action)           // any request, cleanup or purge step but the business commit
    | JobStep(j: J.Action)           // any runner or sweeper step
    | CommitSubmission(r: I.RequestId)  // one transaction: PENDING job row, captured response
    | Tick(time: nat)

  predicate Enabled(s: State, a: Action) {
    match a
    case KeyStep(k) => !k.Commit? && !k.Tick? && I.Enabled(s.keys, k)
    case JobStep(j) => !j.Submit? && !j.Tick? && J.Enabled(s.jobs, j)
    case CommitSubmission(r) =>
      && I.Enabled(s.keys, I.Commit(r))
      && J.Enabled(s.jobs, J.Submit(s.keys.requests[r].phase.response))
    case Tick(time) => I.Enabled(s.keys, I.Tick(time)) && J.Enabled(s.jobs, J.Tick(time))
  }

  function Apply(s: State, a: Action): State
    requires Enabled(s, a)
  {
    match a
    case KeyStep(k) => s.(keys := I.Apply(s.keys, k))
    case JobStep(j) => s.(jobs := J.Apply(s.jobs, j))
    case CommitSubmission(r) =>
      State(I.Apply(s.keys, I.Commit(r)), J.Apply(s.jobs, J.Submit(s.keys.requests[r].phase.response)))
    case Tick(time) => State(I.Apply(s.keys, I.Tick(time)), J.Apply(s.jobs, J.Tick(time)))
  }

  predicate NoHeldPurged(s: State, a: Action) {
    a.KeyStep? ==> I.NoHeldPurged(s.keys, a.k)
  }

  /** Runs in which no purge takes a key that a request still holds. */
  predicate Legal(s: State, acts: seq<Action>)
    decreases |acts|
  {
    acts == [] || (Enabled(s, acts[0]) && NoHeldPurged(s, acts[0]) && Legal(Apply(s, acts[0]), acts[1..]))
  }

  function Final(s: State, acts: seq<Action>): State
    requires Legal(s, acts)
    decreases |acts|
  {
    if acts == [] then s else Final(Apply(s, acts[0]), acts[1..])
  }

  // ---- The invariant ----------------------------------------------------------------------

  /** Job rows and committed submissions correspond one to one. */
  ghost predicate Linked(s: State) {
    OneToOne(s.keys.documents, s.jobs.jobs.Keys)
  }

  ghost predicate OneToOne(documents: seq<I.Document>, ids: set<J.JobId>) {
    && (forall i :: 0 <= i < |documents| ==> documents[i].response in ids)
    && (forall i, k :: 0 <= i < k < |documents| ==> documents[i].response != documents[k].response)
    && (forall j :: j in ids ==> exists d :: d in documents && d.response == j)
  }

  ghost predicate Inv(s: State) {
    I.Inv(s.keys) && J.Inv(s.jobs) && Linked(s)
  }

  lemma JobsStay(s: J.State, a: J.Action)
    requires J.Enabled(s, a) && !a.Submit?
    ensures J.Apply(s, a).jobs.Keys == s.jobs.Keys
  {
  }

  lemma DocumentsStay(s: I.State, a: I.Action)
    requires I.Enabled(s, a) && !a.Commit?
    ensures I.Apply(s, a).documents == s.documents
  {
  }

  lemma KeepLinked(s: State, a: Action)
    requires Inv(s) && Enabled(s, a)
    ensures Linked(Apply(s, a))
  {
    match a
    case KeyStep(k) => DocumentsStay(s.keys, k);
    case JobStep(j) => JobsStay(s.jobs, j);
    case CommitSubmission(r) => SubmissionLinked(s, r);
    case _ =>
  }

  lemma SubmissionLinked(s: State, r: I.RequestId)
    requires Inv(s) && Enabled(s, CommitSubmission(r))
    ensures Linked(Apply(s, CommitSubmission(r)))
  {
    var a := CommitSubmission(r);
    var q := s.keys.requests[r];
    var d := I.Document(q.key, r, q.hash, q.phase.response, q.phase.reservedAt);
    OneMore(s.keys.documents, s.jobs.jobs.Keys, d);
    assert Apply(s, a).keys.documents == s.keys.documents + [d];
    assert Apply(s, a).jobs.jobs.Keys == s.jobs.jobs.Keys + {d.response};
  }

  lemma OneMore(documents: seq<I.Document>, ids: set<J.JobId>, d: I.Document)
    requires OneToOne(documents, ids) && d.response !in ids
    ensures OneToOne(documents + [d], ids + {d.response})
  {
    var now := documents + [d];
    forall j | j in ids + {d.response} ensures exists e :: e in now && e.response == j {
      if j == d.response {
        assert d in now;
      } else {
        var e :| e in documents && e.response == j;
        assert e in now;
      }
    }
  }

  lemma StepKeepsInv(s: State, a: Action)
    requires Inv(s) && Enabled(s, a) && NoHeldPurged(s, a)
    ensures Inv(Apply(s, a))
  {
    KeepLinked(s, a);
    match a
    case KeyStep(k) => I.StepKeepsInv(s.keys, k);
    case JobStep(j) => J.StepKeepsInv(s.jobs, j);
    case CommitSubmission(r) =>
      I.StepKeepsInv(s.keys, I.Commit(r));
      J.StepKeepsInv(s.jobs, J.Submit(s.keys.requests[r].phase.response));
    case Tick(time) =>
      I.StepKeepsInv(s.keys, I.Tick(time));
      J.StepKeepsInv(s.jobs, J.Tick(time));
  }

  lemma {:induction false} RunKeepsInv(s: State, acts: seq<Action>)
    requires Inv(s) && Legal(s, acts)
    ensures Inv(Final(s, acts))
    decreases |acts|
  {
    if acts != [] {
      StepKeepsInv(s, acts[0]);
      RunKeepsInv(Apply(s, acts[0]), acts[1..]);
    }
  }

  /** Here too a step keeps the invariant if and only if it is not a purge of a held key. */
  lemma InvIffNoHeldPurged(s: State, a: Action)
    requires Inv(s) && Enabled(s, a)
    ensures Inv(Apply(s, a)) <==> NoHeldPurged(s, a)
  {
    if NoHeldPurged(s, a) {
      StepKeepsInv(s, a);
    } else {
      I.InvIffNoHeldPurged(s.keys, a.k);
    }
  }

  lemma Reachable(acts: seq<Action>)
    requires Legal(INITIAL, acts)
    ensures Inv(Final(INITIAL, acts))
  {
    I.InitialInv();
    J.InitialInv();
    RunKeepsInv(INITIAL, acts);
  }

  // ---- Main results -----------------------------------------------------------------------

  /** d was submitted under the key, with its reservation in the retention window starting at `from`. */
  predicate InWindow(d: I.Document, key: I.Key, from: nat) {
    d.key == key && from <= d.reservedAt <= from + I.RETENTION
  }

  /** Job rows a key submitted in a window. */
  function Submissions(documents: seq<I.Document>, key: I.Key, from: nat): nat {
    if documents == [] then 0 else
      var d := documents[|documents| - 1];
      Submissions(documents[..|documents| - 1], key, from) + if InWindow(d, key, from) then 1 else 0
  }

  /** Committed handler runs of those jobs. */
  function HandlerRuns(documents: seq<I.Document>, effects: seq<J.Claim>, key: I.Key, from: nat): nat {
    if documents == [] then 0 else
      var d := documents[|documents| - 1];
      HandlerRuns(documents[..|documents| - 1], effects, key, from) +
        if InWindow(d, key, from) then J.Runs(effects, d.response) else 0
  }

  ghost predicate Apart(documents: seq<I.Document>) {
    forall i, k :: 0 <= i < k < |documents| && documents[i].key == documents[k].key ==>
      I.FarApart(documents[i].reservedAt, documents[k].reservedAt)
  }

  lemma {:induction false} NoneInWindow(documents: seq<I.Document>, effects: seq<J.Claim>, key: I.Key, from: nat)
    requires forall i :: 0 <= i < |documents| ==> !InWindow(documents[i], key, from)
    ensures Submissions(documents, key, from) == 0 && HandlerRuns(documents, effects, key, from) == 0
  {
    if documents != [] {
      NoneInWindow(documents[..|documents| - 1], effects, key, from);
    }
  }

  lemma {:induction false} AtMostOneInWindow(documents: seq<I.Document>, effects: seq<J.Claim>, key: I.Key, from: nat)
    requires Apart(documents) && forall j :: J.Runs(effects, j) <= 1
    ensures Submissions(documents, key, from) <= 1 && HandlerRuns(documents, effects, key, from) <= 1
  {
    if documents != [] {
      var n := |documents| - 1;
      if InWindow(documents[n], key, from) {
        NoneInWindow(documents[..n], effects, key, from);
      } else {
        AtMostOneInWindow(documents[..n], effects, key, from);
      }
    }
  }

  /** One Idempotency-Key yields at most one job row and at most one committed run of its handler per
      retention window, over every interleaving of client retries, runners, crashes, sweepers and
      purges. */
  lemma OneKeyOneRun(acts: seq<Action>, key: I.Key, from: nat)
    requires Legal(INITIAL, acts)
    ensures var s := Final(INITIAL, acts);
      && Submissions(s.keys.documents, key, from) <= 1
      && HandlerRuns(s.keys.documents, s.jobs.effects, key, from) <= 1
  {
    Reachable(acts);
    var s := Final(INITIAL, acts);
    forall j ensures J.Runs(s.jobs.effects, j) <= 1 { J.RunsOnce(s.jobs.effects, j); }
    AtMostOneInWindow(s.keys.documents, s.jobs.effects, key, from);
  }

  /** Every job row was submitted by exactly one request, and its business writes are committed once if
      it is COMPLETED and not at all otherwise. */
  lemma EveryJobHasOneSubmission(acts: seq<Action>, j: J.JobId)
    requires Legal(INITIAL, acts) && j in Final(INITIAL, acts).jobs.jobs
    ensures var s := Final(INITIAL, acts);
      && (exists d :: d in s.keys.documents && d.response == j)
      && (forall d, e :: d in s.keys.documents && e in s.keys.documents && d.response == e.response == j ==> d == e)
      && J.Runs(s.jobs.effects, j) == if s.jobs.jobs[j].status == J.COMPLETED then 1 else 0
  {
    Reachable(acts);
    var s := Final(INITIAL, acts);
    J.RunsOnce(s.jobs.effects, j);
    assert J.JobOk(s.jobs, j);
    forall d, e | d in s.keys.documents && e in s.keys.documents && d.response == e.response == j ensures d == e {
      OneSubmission(s, d, e);
    }
  }

  lemma OneSubmission(s: State, d: I.Document, e: I.Document)
    requires Linked(s) && d in s.keys.documents && e in s.keys.documents && d.response == e.response
    ensures d == e
  {
    var i :| 0 <= i < |s.keys.documents| && s.keys.documents[i] == d;
    var k :| 0 <= k < |s.keys.documents| && s.keys.documents[k] == e;
  }

  /** Every replay returns the id of a job that exists, submitted under the replaying request's own key
      and hash. */
  lemma ReplayReturnsTheJob(acts: seq<Action>, r: I.RequestId)
    requires Legal(INITIAL, acts)
    requires var q := Final(INITIAL, acts).keys.requests; r in q && q[r].phase.Ended? && q[r].phase.outcome.Replayed?
    ensures var s := Final(INITIAL, acts); var q := s.keys.requests[r]; var j := q.phase.outcome.response;
      && j in s.jobs.jobs
      && exists d :: d in s.keys.documents && d.key == q.key && d.hash == q.hash && d.response == j
  {
    Reachable(acts);
    var s := Final(INITIAL, acts);
    assert I.OutcomeOk(s.keys, r);
  }

  /** The job id a request was answered with, fresh or replayed. */
  function AnswerOf(q: I.Request): Option<nat> {
    if !q.phase.Ended? then None
    else match q.phase.outcome
      case Fresh(j) => Some(j)
      case Replayed(j) => Some(j)
      case _ => None
  }

  /** Two submissions under one key, naming jobs a and b, reserved more than the window apart. */
  ghost predicate SameKeyApart(s: State, key: I.Key, d: I.Document, a: nat, e: I.Document, b: nat) {
    && d in s.keys.documents && e in s.keys.documents && d.key == e.key == key
    && d.response == a && e.response == b && I.FarApart(d.reservedAt, e.reservedAt)
  }

  /** All answers a key gives name one job, unless their submissions lie more than the retention window
      apart. */
  lemma AnswersAgree(acts: seq<Action>, r: I.RequestId, u: I.RequestId)
    requires Legal(INITIAL, acts)
    requires var q := Final(INITIAL, acts).keys.requests;
      r in q && u in q && q[r].key == q[u].key && AnswerOf(q[r]).Some? && AnswerOf(q[u]).Some?
    ensures var s := Final(INITIAL, acts);
      var a, b := AnswerOf(s.keys.requests[r]).value, AnswerOf(s.keys.requests[u]).value;
      a == b || exists d, e :: SameKeyApart(s, s.keys.requests[r].key, d, a, e, b)
  {
    Reachable(acts);
    var s := Final(INITIAL, acts);
    var d := AnswerDocument(s, r);
    var e := AnswerDocument(s, u);
    var i :| 0 <= i < |s.keys.documents| && s.keys.documents[i] == d;
    var k :| 0 <= k < |s.keys.documents| && s.keys.documents[k] == e;
    assert i == k || SameKeyApart(s, s.keys.requests[r].key, d, d.response, e, e.response);
  }

  lemma AnswerDocument(s: State, r: I.RequestId) returns (d: I.Document)
    requires Inv(s) && r in s.keys.requests && AnswerOf(s.keys.requests[r]).Some?
    ensures d in s.keys.documents && d.key == s.keys.requests[r].key && d.response == AnswerOf(s.keys.requests[r]).value
  {
    assert I.OutcomeOk(s.keys, r);
    var j := AnswerOf(s.keys.requests[r]).value;
    if s.keys.requests[r].phase.outcome.Fresh? {
      d :| d in s.keys.documents && d.request == r && d.response == j;
      assert I.DocumentOk(s.keys, d);
    } else {
      d :| d in s.keys.documents && d.key == s.keys.requests[r].key && d.response == j;
    }
  }
}
