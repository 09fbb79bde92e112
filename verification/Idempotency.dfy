/** The idempotency protocol of backend/app/core/idempotency.py, with the retention purge of
    backend/app/core/job_sweeper.py: any number of requests interleave statement by statement over one
    row per (tenant, endpoint, key), and any of them may crash at any point.

    Hashes and responses are opaque values; equal hashes mean equal requests. The handler captures
    inside its unit of work and lets its exceptions through. */
module Idempotency {
  import opened Options

  /** IDEMPOTENCY_RETENTION, seven days in seconds. */
  const RETENTION: nat := 604800
  const PURGE_BUDGET: nat := 500

  type RequestId = nat
  type Hash = string
  type Response = nat
  type Time = nat

  datatype Key = Key(tenant: nat, endpoint: string, key: string)

  /** in_progress has no response yet. */
  datatype Row = Row(response: Option<Response>, hash: Hash, createdAt: Time) {
    predicate Completed() { response.Some? }
  }

  datatype Outcome =
    | Fresh(response: Response)     // ran the effect
    | Replayed(response: Response)  // Idempotency-Replayed
    | KeyReuse                      // 422
    | InProgress                    // 409
    | RowGone                       // collided, then found no row
    | Failed                        // the handler's exception, re-raised
    | Crashed

  datatype Phase =
    | Arrived
    | Collided
    | Owning(reservedAt: Time)                              // reservation committed, handler running
    | Captured(reservedAt: Time, response: Response, hit: bool)  // completion UPDATE staged, row locked if hit
    | Answered(reservedAt: Time, response: Response)        // business transaction committed
    | Raised(reservedAt: Time)                              // exception reached the teardown
    | Ended(outcome: Outcome)

  datatype Request = Request(key: Key, hash: Hash, phase: Phase)

  /** A committed business document. */
  datatype Document = Document(key: Key, request: RequestId, hash: Hash, response: Response, reservedAt: Time)

  /** owners and documents are history: no statement reads them. */
  datatype State = State(
    now: Time, rows: map<Key, Row>, requests: map<RequestId, Request>,
    owners: map<Key, RequestId>, documents: seq<Document>)

  const INITIAL := State(0, map[], map[], map[], [])

  datatype Action =
    | Arrive(r: RequestId, key: Key, hash: Hash)
    | Insert(r: RequestId)
    | Select(r: RequestId)
    | Capture(r: RequestId, response: Response)
    | Commit(r: RequestId)
    | Raise(r: RequestId)
    | Cleanup(r: RequestId)
    | Finish(r: RequestId)
    | Crash(r: RequestId)
    | Purge(keys: set<Key>)
    | Tick(time: Time)

  // ---- Statements -------------------------------------------------------------------------

  /** INSERT ... 'in_progress', committed at once; None on a primary-key collision. */
  function TryReserve(rows: map<Key, Row>, key: Key, hash: Hash, now: Time): Option<map<Key, Row>> {
    if key in rows then None else Some(rows[key := Row(None, hash, now)])
  }

  /** The verdict on the row found after a collision. */
  function Arbitrate(rows: map<Key, Row>, key: Key, hash: Hash): Outcome {
    if key !in rows then RowGone
    else if rows[key].Completed() then
      if rows[key].hash == hash then Replayed(rows[key].response.value) else KeyReuse
    else InProgress
  }

  /** The completion UPDATE, addressed by key alone. */
  function Complete(rows: map<Key, Row>, key: Key, response: Response): map<Key, Row> {
    if key in rows then rows[key := rows[key].(response := Some(response))] else rows
  }

  /** DELETE ... WHERE status = 'in_progress', addressed by key alone. */
  function DeleteInProgress(rows: map<Key, Row>, key: Key): map<Key, Row> {
    if key in rows && !rows[key].Completed() then rows - {key} else rows
  }

  predicate Expired(row: Row, now: Time) {
    row.createdAt + RETENTION < now
  }

  predicate IsCaptured(s: State, r: RequestId, key: Key) {
    r in s.requests && s.requests[r].phase.Captured? && s.requests[r].phase.hit && s.requests[r].key == key
  }

  /** Row lock of a staged completion UPDATE. */
  predicate LockedByOther(s: State, r: RequestId, key: Key) {
    exists u :: u in s.requests && u != r && IsCaptured(s, u, key)
  }

  predicate Locked(s: State, key: Key) {
    exists u :: u in s.requests && IsCaptured(s, u, key)
  }

  predicate Enabled(s: State, a: Action) {
    match a
    case Arrive(r, _, _) => r !in s.requests
    case Insert(r) => r in s.requests && s.requests[r].phase.Arrived?
    case Select(r) => r in s.requests && s.requests[r].phase.Collided?
    case Capture(r, _) => r in s.requests && s.requests[r].phase.Owning? && !LockedByOther(s, r, s.requests[r].key)
    case Commit(r) => r in s.requests && s.requests[r].phase.Captured?
    case Raise(r) =>
      r in s.requests && (s.requests[r].phase.Owning? || s.requests[r].phase.Captured? || s.requests[r].phase.Answered?)
    case Cleanup(r) => r in s.requests && s.requests[r].phase.Raised? && !LockedByOther(s, r, s.requests[r].key)
    case Finish(r) => r in s.requests && s.requests[r].phase.Answered?
    case Crash(r) => r in s.requests && !s.requests[r].phase.Ended?
    case Purge(keys) =>
      && |keys| <= PURGE_BUDGET
      && forall key :: key in keys ==> key in s.rows && Expired(s.rows[key], s.now) && !Locked(s, key)
    case Tick(time) => s.now <= time
  }

  function Move(s: State, r: RequestId, phase: Phase): map<RequestId, Request>
    requires r in s.requests
  {
    s.requests[r := s.requests[r].(phase := phase)]
  }

  function Apply(s: State, a: Action): State
    requires Enabled(s, a)
  {
    match a
    case Arrive(r, key, hash) => s.(requests := s.requests[r := Request(key, hash, Arrived)])
    case Insert(r) =>
      var q := s.requests[r];
      (match TryReserve(s.rows, q.key, q.hash, s.now)
       case None => s.(requests := Move(s, r, Collided))
       case Some(rows) => s.(rows := rows, owners := s.owners[q.key := r], requests := Move(s, r, Owning(s.now))))
    case Select(r) => s.(requests := Move(s, r, Ended(Arbitrate(s.rows, s.requests[r].key, s.requests[r].hash))))
    case Capture(r, response) =>
      s.(requests := Move(s, r, Captured(s.requests[r].phase.reservedAt, response, s.requests[r].key in s.rows)))
    case Commit(r) =>
      var q := s.requests[r];
      s.(rows := if q.phase.hit then Complete(s.rows, q.key, q.phase.response) else s.rows,
         requests := Move(s, r, Answered(q.phase.reservedAt, q.phase.response)),
         documents := s.documents + [Document(q.key, r, q.hash, q.phase.response, q.phase.reservedAt)])
    case Raise(r) => s.(requests := Move(s, r, Raised(s.requests[r].phase.reservedAt)))
    case Cleanup(r) => s.(rows := DeleteInProgress(s.rows, s.requests[r].key), requests := Move(s, r, Ended(Failed)))
    case Finish(r) => s.(requests := Move(s, r, Ended(Fresh(s.requests[r].phase.response))))
    case Crash(r) => s.(requests := Move(s, r, Ended(Crashed)))
    case Purge(keys) => s.(rows := s.rows - keys)
    case Tick(time) => s.(now := time)
  }

  // ---- Runs -------------------------------------------------------------------------------

  /** Between its reservation and its end a request holds the key. */
  predicate Holds(q: Request) {
    q.phase.Owning? || q.phase.Captured? || q.phase.Answered? || q.phase.Raised?
  }

  /** The one thing the database does not rule out: a purge takes no key that a request still holds. */
  predicate NoHeldPurged(s: State, a: Action) {
    a.Purge? ==> forall r :: r in s.requests && Holds(s.requests[r]) ==> s.requests[r].key !in a.keys
  }

  /** Runs in which no purge takes a held key. */
  predicate Legal(s: State, acts: seq<Action>)
    decreases |acts|
  {
    acts == [] || (Enabled(s, acts[0]) && NoHeldPurged(s, acts[0]) && Legal(Apply(s, acts[0]), acts[1..]))
  }

  function Final(s: State, acts: seq<Action>): State
    requires Legal(s, acts)
    decreases |acts|
  {
    if acts == [] then s else Final(Apply(s, acts[0]), acts[1..])
  }

  // ---- The invariant ----------------------------------------------------------------------

  /** A holder's row is there, is its own, and is completed exactly when its document committed. */
  ghost predicate HolderOk(s: State, r: RequestId) {
    r in s.requests && Holds(s.requests[r]) ==>
      var q := s.requests[r];
      && q.key in s.rows && q.key in s.owners && s.owners[q.key] == r
      && s.rows[q.key].createdAt == q.phase.reservedAt && s.rows[q.key].hash == q.hash
      && (q.phase.Owning? || q.phase.Captured? ==> !s.rows[q.key].Completed())
      && (q.phase.Captured? ==> q.phase.hit)
      && (q.phase.Answered? ==> s.rows[q.key].response == Some(q.phase.response))
  }

  ghost predicate RowOk(s: State, key: Key) {
    key in s.rows ==>
      var row := s.rows[key];
      && key in s.owners && s.owners[key] in s.requests && s.requests[s.owners[key]].key == key
      && row.createdAt <= s.now
      && (row.Completed() ==> Document(key, s.owners[key], row.hash, row.response.value, row.createdAt) in s.documents)
      && (!row.Completed() ==> forall d :: d in s.documents ==> d.request != s.owners[key])
      && (forall d :: d in s.documents && d.key == key && d.request != s.owners[key] ==>
        d.reservedAt + RETENTION < row.createdAt)
  }

  /** A committed document's request is past its commit, and its completed row lives for the whole
      retention window. */
  ghost predicate DocumentOk(s: State, d: Document) {
    && d.request in s.requests && s.requests[d.request].key == d.key && s.requests[d.request].hash == d.hash
    && (match s.requests[d.request].phase
        case Answered(_, response) => response == d.response
        case Raised(_) => true
        case Ended(outcome) => outcome == Fresh(d.response) || outcome == Failed || outcome == Crashed
        case _ => false)
    && d.reservedAt <= s.now
    && (s.now <= d.reservedAt + RETENTION ==>
          && d.key in s.rows && d.key in s.owners && s.owners[d.key] == d.request
          && s.rows[d.key] == Row(Some(d.response), d.hash, d.reservedAt))
  }

  predicate FarApart(a: Time, b: Time) {
    a + RETENTION < b || b + RETENTION < a
  }

  ghost predicate Separated(s: State) {
    forall i, j :: 0 <= i < j < |s.documents| ==>
      && s.documents[i].request != s.documents[j].request
      && (s.documents[i].key == s.documents[j].key ==> FarApart(s.documents[i].reservedAt, s.documents[j].reservedAt))
  }

  /** A replay or refusal points at a committed document for the same key. */
  ghost predicate OutcomeOk(s: State, r: RequestId) {
    r in s.requests ==>
      var q := s.requests[r];
      match q.phase
      case Ended(Replayed(response)) => exists d ::
        d in s.documents && d.key == q.key && d.hash == q.hash && d.response == response
      case Ended(KeyReuse) => exists d :: d in s.documents && d.key == q.key && d.hash != q.hash
      case Ended(Fresh(response)) => exists d :: d in s.documents && d.request == r && d.response == response
      case Answered(_, response) => exists d :: d in s.documents && d.request == r && d.response == response
      case _ => true
  }

  ghost predicate Inv(s: State) {
    && (forall r :: HolderOk(s, r))
    && (forall key :: RowOk(s, key))
    && (forall d :: d in s.documents ==> DocumentOk(s, d))
    && Separated(s)
    && (forall r :: OutcomeOk(s, r))
  }

  lemma InitialInv()
    ensures Inv(INITIAL)
  {
  }

  /** A new document's request had none before. */
  lemma FreshDocument(s: State, r: RequestId, d: Document)
    requires Inv(s) && r in s.requests && s.requests[r].phase.Captured? && d in s.documents
    ensures d.request != r
    ensures d.key == s.requests[r].key ==> d.reservedAt + RETENTION < s.requests[r].phase.reservedAt
  {
    assert HolderOk(s, r) && RowOk(s, s.requests[r].key);
  }

  lemma KeepHolder(s: State, a: Action, r: RequestId)
    requires Inv(s) && Enabled(s, a) && NoHeldPurged(s, a)
    ensures HolderOk(Apply(s, a), r)
  {
    assert HolderOk(s, r);
    if a.Insert? || a.Commit? || a.Cleanup? {
      assert HolderOk(s, a.r);
    }
  }

  lemma KeepRow(s: State, a: Action, key: Key)
    requires Inv(s) && Enabled(s, a)
    ensures RowOk(Apply(s, a), key)
  {
    assert RowOk(s, key);
    match a
    case Insert(r) =>
      forall d | d in s.documents ensures DocumentOk(s, d) { }
    case Commit(r) =>
      assert HolderOk(s, r);
    case _ =>
  }

  lemma KeepDocument(s: State, a: Action, d: Document)
    requires Inv(s) && Enabled(s, a) && d in Apply(s, a).documents
    ensures DocumentOk(Apply(s, a), d)
  {
    if d in s.documents {
      assert DocumentOk(s, d);
      if a.Commit? {
        FreshDocument(s, a.r, d);
        assert HolderOk(s, a.r);
      }
      if a.Cleanup? { assert HolderOk(s, a.r); }
    } else {
      assert HolderOk(s, a.r) && RowOk(s, s.requests[a.r].key);
    }
  }

  lemma KeepSeparated(s: State, a: Action)
    requires Inv(s) && Enabled(s, a)
    ensures Separated(Apply(s, a))
  {
    if a.Commit? {
      forall i | 0 <= i < |s.documents| ensures s.documents[i].request != a.r
        ensures s.documents[i].key == s.requests[a.r].key ==>
          s.documents[i].reservedAt + RETENTION < s.requests[a.r].phase.reservedAt {
        FreshDocument(s, a.r, s.documents[i]);
      }
    }
  }

  lemma KeepOutcome(s: State, a: Action, r: RequestId)
    requires Inv(s) && Enabled(s, a)
    ensures OutcomeOk(Apply(s, a), r)
  {
    assert OutcomeOk(s, r);
    var s' := Apply(s, a);
    forall d | d in s.documents ensures d in s'.documents { }
    match a
    case Select(u) =>
      if u == r {
        var q := s.requests[r];
        assert RowOk(s, q.key);
        if q.key in s.rows && s.rows[q.key].Completed() {
          var row := s.rows[q.key];
          var d := Document(q.key, s.owners[q.key], row.hash, row.response.value, row.createdAt);
          assert d in s'.documents && d.key == q.key;
        }
      }
    case Commit(u) =>
      if u == r {
        var q := s.requests[r];
        var d := Document(q.key, r, q.hash, q.phase.response, q.phase.reservedAt);
        assert d in s'.documents && d.request == r;
      }
    case _ =>
  }

  lemma StepKeepsInv(s: State, a: Action)
    requires Inv(s) && Enabled(s, a) && NoHeldPurged(s, a)
    ensures Inv(Apply(s, a))
  {
    var s' := Apply(s, a);
    forall r ensures HolderOk(s', r) { KeepHolder(s, a, r); }
    forall key ensures RowOk(s', key) { KeepRow(s, a, key); }
    forall d | d in s'.documents ensures DocumentOk(s', d) { KeepDocument(s, a, d); }
    KeepSeparated(s, a);
    forall r ensures OutcomeOk(s', r) { KeepOutcome(s, a, r); }
  }

  lemma {:induction false} RunKeepsInv(s: State, acts: seq<Action>)
    requires Inv(s) && Legal(s, acts)
    ensures Inv(Final(s, acts))
    decreases |acts|
  {
    if acts != [] {
      StepKeepsInv(s, acts[0]);
      RunKeepsInv(Apply(s, acts[0]), acts[1..]);
    }
  }

  // ---- Main results -----------------------------------------------------------------------

  /** In every reachable state at most one request is in flight as owner of a key. */
  lemma OneHolderPerKey(acts: seq<Action>, r: RequestId, u: RequestId)
    requires Legal(INITIAL, acts)
    requires var s := Final(INITIAL, acts);
      r in s.requests && u in s.requests && Holds(s.requests[r]) && Holds(s.requests[u]) &&
      s.requests[r].key == s.requests[u].key
    ensures r == u
  {
    InitialInv();
    RunKeepsInv(INITIAL, acts);
    var s := Final(INITIAL, acts);
    assert HolderOk(s, r) && HolderOk(s, u);
  }

  /** The documents committed under one key within a retention window before now. */
  ghost predicate Current(s: State, key: Key, d: Document) {
    d in s.documents && d.key == key && s.now <= d.reservedAt + RETENTION
  }

  /** A replayable response exists exactly when its document does: a completed row's reservation
      committed one document, with that request hash and response; an unfinished row's committed none;
      and every document keeps its completed row for the whole retention window. */
  lemma CompletedIffDocument(acts: seq<Action>, key: Key)
    requires Legal(INITIAL, acts)
    ensures var s := Final(INITIAL, acts);
      && (key in s.rows ==>
        key in s.owners && (s.rows[key].Completed() <==> exists d :: d in s.documents && d.request == s.owners[key]))
      && (forall d :: key in s.rows && s.rows[key].Completed() && d in s.documents && d.request == s.owners[key] ==>
            d == Document(key, s.owners[key], s.rows[key].hash, s.rows[key].response.value, s.rows[key].createdAt))
      && (forall d :: Current(s, key, d) ==>
        key in s.rows && s.rows[key] == Row(Some(d.response), d.hash, d.reservedAt))
  {
    InitialInv();
    RunKeepsInv(INITIAL, acts);
    var s := Final(INITIAL, acts);
    assert RowOk(s, key);
    forall d | Current(s, key, d) ensures key in s.rows && s.rows[key] == Row(Some(d.response), d.hash, d.reservedAt) {
      assert DocumentOk(s, d);
    }
    if key in s.rows && s.rows[key].Completed() {
      var c := Document(key, s.owners[key], s.rows[key].hash, s.rows[key].response.value, s.rows[key].createdAt);
      assert c in s.documents;
      forall d | d in s.documents && d.request == s.owners[key] ensures d == c {
        OneDocumentPerRequest(s, c, d);
      }
    }
  }

  lemma OneDocumentPerRequest(s: State, c: Document, d: Document)
    requires Separated(s) && c in s.documents && d in s.documents && c.request == d.request
    ensures c == d
  {
    var i :| 0 <= i < |s.documents| && s.documents[i] == c;
    var j :| 0 <= j < |s.documents| && s.documents[j] == d;
  }

  /** The effect of one key runs at most once per retention window: two documents of one key were
      reserved more than the window apart. */
  lemma AtMostOncePerWindow(acts: seq<Action>, i: nat, j: nat)
    requires Legal(INITIAL, acts)
    requires var s := Final(INITIAL, acts); i < j < |s.documents| && s.documents[i].key == s.documents[j].key
    ensures var s := Final(INITIAL, acts); FarApart(s.documents[i].reservedAt, s.documents[j].reservedAt)
  {
    InitialInv();
    RunKeepsInv(INITIAL, acts);
  }

  /** A request that was replayed or refused ran no effect of its own; a replay returned the response
      of a committed document with its key and hash, and a key-reuse refusal met one with another hash. */
  lemma RepliesWithoutEffect(acts: seq<Action>, r: RequestId)
    requires Legal(INITIAL, acts)
    requires var s := Final(INITIAL, acts); r in s.requests && s.requests[r].phase.Ended?
    ensures var s := Final(INITIAL, acts); var q := s.requests[r]; var o := q.phase.outcome;
      && (o.Replayed? || o.KeyReuse? || o.InProgress? || o.RowGone? ==> forall d :: d in s.documents ==> d.request != r)
      && (o.Replayed? ==> exists d ::
        d in s.documents && d.key == q.key && d.hash == q.hash && d.response == o.response)
      && (o.KeyReuse? ==> exists d :: d in s.documents && d.key == q.key && d.hash != q.hash)
      && (o.Fresh? ==> exists d :: d in s.documents && d.request == r && d.response == o.response)
  {
    InitialInv();
    RunKeepsInv(INITIAL, acts);
    var s := Final(INITIAL, acts);
    assert OutcomeOk(s, r);
    forall d | d in s.documents && d.request == r
      ensures var o := s.requests[r].phase.outcome; o.Fresh? || o == Failed || o == Crashed {
      assert DocumentOk(s, d);
    }
  }

  /** Once a document has committed, for as long as its key is retained every other request with that
      key collides, and is answered from the stored response or refused, never run. */
  lemma LaterRequestIsAnswered(acts: seq<Action>, d: Document, r: RequestId)
    requires Legal(INITIAL, acts)
    requires var s := Final(INITIAL, acts); Current(s, d.key, d) && r in s.requests && s.requests[r].key == d.key
    ensures var s := Final(INITIAL, acts); var q := s.requests[r];
      && (Enabled(s, Insert(r)) ==> Apply(s, Insert(r)) == s.(requests := Move(s, r, Collided)))
      && (Enabled(s, Select(r)) ==>
            var verdict := if q.hash == d.hash then Replayed(d.response) else KeyReuse;
            Apply(s, Select(r)) == s.(requests := Move(s, r, Ended(verdict))))
  {
    CompletedIffDocument(acts, d.key);
  }

  /** The document committed by the reservation now on record for a key, if it committed one. */
  ghost predicate Settled(s: State, key: Key, d: Document) {
    key in s.owners && d in s.documents && d.key == key && d.request == s.owners[key]
  }

  /** The verdict after a collision, in terms of what really happened: row gone exactly when no
      reservation is on record, in progress exactly when the one on record has committed nothing,
      otherwise replay or refusal by that reservation's document. */
  lemma VerdictExact(acts: seq<Action>, r: RequestId)
    requires Legal(INITIAL, acts)
    requires r in Final(INITIAL, acts).requests && Final(INITIAL, acts).requests[r].phase.Collided?
    ensures var s := Final(INITIAL, acts); var q := s.requests[r];
      var o := Apply(s, Select(r)).requests[r].phase.outcome;
      && (o.RowGone? <==> q.key !in s.rows)
      && (o.InProgress? <==> q.key in s.rows && forall d :: !Settled(s, q.key, d))
      && (o.KeyReuse? <==> q.key in s.rows && exists d :: Settled(s, q.key, d) && d.hash != q.hash)
      && (o.Replayed? <==> q.key in s.rows && exists d :: Settled(s, q.key, d) && d.hash == q.hash)
      && (forall d :: o.Replayed? && Settled(s, q.key, d) ==> o.response == d.response)
  {
    CompletedIffDocument(acts, Final(INITIAL, acts).requests[r].key);
    InitialInv();
    RunKeepsInv(INITIAL, acts);
    var s := Final(INITIAL, acts);
    var key := s.requests[r].key;
    assert RowOk(s, key);
    if key in s.rows && s.rows[key].Completed() {
      var row := s.rows[key];
      assert Settled(s, key, Document(key, s.owners[key], row.hash, row.response.value, row.createdAt));
    }
  }

  /** No request ever waits for another's row lock, and the purge may take any 500 rows older than seven
      days that no staged completion has locked, whatever their status. */
  lemma NobodyWaits(acts: seq<Action>, r: RequestId, response: Response, keys: set<Key>)
    requires Legal(INITIAL, acts) && r in Final(INITIAL, acts).requests
    ensures var s := Final(INITIAL, acts);
      match s.requests[r].phase
      case Arrived => Enabled(s, Insert(r))
      case Collided => Enabled(s, Select(r))
      case Owning(_) => Enabled(s, Capture(r, response)) && Enabled(s, Raise(r))
      case Captured(_, _, _) => Enabled(s, Commit(r)) && Enabled(s, Raise(r))
      case Answered(_, _) => Enabled(s, Finish(r)) && Enabled(s, Raise(r))
      case Raised(_) => Enabled(s, Cleanup(r))
      case Ended(_) => true
    ensures var s := Final(INITIAL, acts);
      Enabled(s, Purge(keys)) <==>
        && |keys| <= 500
        && forall key :: key in keys ==>
          && key in s.rows && s.rows[key].createdAt + 604800 < s.now
          && forall u :: u in s.requests && s.requests[u].phase.Captured? ==> s.requests[u].key != key
  {
    InitialInv();
    RunKeepsInv(INITIAL, acts);
    var s := Final(INITIAL, acts);
    assert HolderOk(s, r);
    forall u | u in s.requests ensures s.requests[u].phase.Captured? ==> s.requests[u].phase.hit {
      assert HolderOk(s, u);
    }
    if LockedByOther(s, r, s.requests[r].key) && Holds(s.requests[r]) {
      var u :| u in s.requests && u != r && IsCaptured(s, u, s.requests[r].key);
      OneHolderPerKey(acts, r, u);
    }
  }

  /** Fail-closed: the teardown of a request that committed nothing frees the key, so the next request
      reserves it; the teardown of one that did commit leaves its replay record in place. */
  lemma CleanupFreesTheKey(acts: seq<Action>, r: RequestId, u: RequestId)
    requires Legal(INITIAL, acts) && Enabled(Final(INITIAL, acts), Cleanup(r))
    requires var q := Final(INITIAL, acts).requests; u in q && q[u].phase.Arrived? && q[u].key == q[r].key
    ensures var s := Final(INITIAL, acts); var s' := Apply(s, Cleanup(r)); var key := s.requests[r].key;
      && Enabled(s', Insert(u))
      && (Apply(s', Insert(u)).requests[u].phase == Owning(s.now) <==> forall d :: d in s.documents ==> d.request != r)
      && ((exists d :: d in s.documents && d.request == r) ==> s'.rows == s.rows)
  {
    var s := Final(INITIAL, acts);
    var key := s.requests[r].key;
    CompletedIffDocument(acts, key);
    InitialInv();
    RunKeepsInv(INITIAL, acts);
    assert HolderOk(s, r);
  }

  // ---- Undisturbed requests ---------------------------------------------------------------------

  lemma Chain(s: State, a: Action, rest: seq<Action>)
    requires Enabled(s, a) && NoHeldPurged(s, a) && Legal(Apply(s, a), rest)
    ensures Legal(s, [a] + rest) && Final(s, [a] + rest) == Final(Apply(s, a), rest)
  {
    assert ([a] + rest)[1..] == rest;
  }

  /** A request for a free key has reserved it. */
  function Reserved(s: State, r: RequestId, key: Key, hash: Hash): State {
    s.(rows := s.rows[key := Row(None, hash, s.now)], owners := s.owners[key := r],
       requests := s.requests[r := Request(key, hash, Owning(s.now))])
  }

  lemma Reserves(s: State, r: RequestId, key: Key, hash: Hash, rest: seq<Action>)
    requires r !in s.requests && key !in s.rows && Legal(Reserved(s, r, key, hash), rest)
    ensures var acts := [Arrive(r, key, hash)] + ([Insert(r)] + rest);
      Legal(s, acts) && Final(s, acts) == Final(Reserved(s, r, key, hash), rest)
  {
    var s1 := Apply(s, Arrive(r, key, hash));
    assert Apply(s1, Insert(r)) == Reserved(s, r, key, hash);
    Chain(s1, Insert(r), rest);
    Chain(s, Arrive(r, key, hash), [Insert(r)] + rest);
  }

  lemma FreeKeyIsUnlocked(s: State, r: RequestId, key: Key)
    requires Inv(s) && key !in s.rows
    ensures !LockedByOther(s, r, key)
  {
    forall u ensures !IsCaptured(s, u, key) {
      assert HolderOk(s, u);
    }
  }

  /** A request for a free key that runs through answers with its own response, commits one document, and
      leaves that response under its key and hash for replay. */
  lemma RequestCommits(s: State, r: RequestId, key: Key, hash: Hash, response: Response)
    requires Inv(s) && r !in s.requests && key !in s.rows
    ensures var acts := [Arrive(r, key, hash)] + ([Insert(r)] + [Capture(r, response), Commit(r), Finish(r)]);
      && Legal(s, acts)
      && Final(s, acts) == State(
        s.now, s.rows[key := Row(Some(response), hash, s.now)],
        s.requests[r := Request(key, hash, Ended(Fresh(response)))], s.owners[key := r],
        s.documents + [Document(key, r, hash, response, s.now)])
  {
    var s2 := Reserved(s, r, key, hash);
    FreeKeyIsUnlocked(s, r, key);
    assert !LockedByOther(s2, r, key) by {
      forall u | u in s2.requests && u != r ensures !IsCaptured(s2, u, key) { assert !IsCaptured(s, u, key); }
    }
    var s3 := Apply(s2, Capture(r, response));
    var s4 := Apply(s3, Commit(r));
    Chain(s4, Finish(r), []);
    Chain(s3, Commit(r), [Finish(r)]);
    Chain(s2, Capture(r, response), [Commit(r), Finish(r)]);
    Reserves(s, r, key, hash, [Capture(r, response), Commit(r), Finish(r)]);
  }

  /** One whose handler raises leaves the table as it found it and commits nothing. */
  lemma RequestFails(s: State, r: RequestId, key: Key, hash: Hash)
    requires Inv(s) && r !in s.requests && key !in s.rows
    ensures var acts := [Arrive(r, key, hash)] + ([Insert(r)] + [Raise(r), Cleanup(r)]);
      && Legal(s, acts)
      && Final(s, acts) == s.(
        requests := s.requests[r := Request(key, hash, Ended(Failed))], owners := s.owners[key := r])
  {
    var s2 := Reserved(s, r, key, hash);
    FreeKeyIsUnlocked(s, r, key);
    var s3 := Apply(s2, Raise(r));
    assert !LockedByOther(s3, r, key) by {
      forall u | u in s3.requests && u != r ensures !IsCaptured(s3, u, key) { assert !IsCaptured(s, u, key); }
    }
    assert Apply(s3, Cleanup(r)).rows == s.rows;
    Chain(s3, Cleanup(r), []);
    Chain(s2, Raise(r), [Cleanup(r)]);
    Reserves(s, r, key, hash, [Raise(r), Cleanup(r)]);
  }

  /** One whose process dies leaves its reservation behind, and the next request is told it is still in
      progress. */
  lemma RequestCrashes(s: State, r: RequestId, key: Key, hash: Hash, u: RequestId, hash': Hash)
    requires r !in s.requests && u !in s.requests && r != u && key !in s.rows
    ensures var acts := [Arrive(r, key, hash)] + ([Insert(r)] + [Crash(r), Arrive(u, key, hash'), Insert(u), Select(u)]);
      && Legal(s, acts)
      && Final(s, acts) == s.(
        rows := s.rows[key := Row(None, hash, s.now)], owners := s.owners[key := r],
        requests := s.requests[r := Request(key, hash, Ended(Crashed))][u := Request(key, hash', Ended(InProgress))])
  {
    var s2 := Reserved(s, r, key, hash);
    var s3 := Apply(s2, Crash(r));
    var s4 := Apply(s3, Arrive(u, key, hash'));
    var s5 := Apply(s4, Insert(u));
    Chain(s5, Select(u), []);
    Chain(s4, Insert(u), [Select(u)]);
    Chain(s3, Arrive(u, key, hash'), [Insert(u), Select(u)]);
    Chain(s2, Crash(r), [Arrive(u, key, hash'), Insert(u), Select(u)]);
    Reserves(s, r, key, hash, [Crash(r), Arrive(u, key, hash'), Insert(u), Select(u)]);
  }

  // ---- The exact condition ----------------------------------------------------------------------

  /** A step keeps the protocol invariant if and only if it is not a purge of a held key. */
  lemma InvIffNoHeldPurged(s: State, a: Action)
    requires Inv(s) && Enabled(s, a)
    ensures Inv(Apply(s, a)) <==> NoHeldPurged(s, a)
  {
    if NoHeldPurged(s, a) {
      StepKeepsInv(s, a);
    } else {
      var r :| r in s.requests && Holds(s.requests[r]) && s.requests[r].key in a.keys;
      assert !HolderOk(Apply(s, a), r);
    }
  }

  predicate Feasible(s: State, acts: seq<Action>)
    decreases |acts|
  {
    acts == [] || (Enabled(s, acts[0]) && Feasible(Apply(s, acts[0]), acts[1..]))
  }

  ghost predicate InvThroughout(s: State, acts: seq<Action>)
    requires Feasible(s, acts)
    decreases |acts|
  {
    Inv(s) && (acts == [] || InvThroughout(Apply(s, acts[0]), acts[1..]))
  }

  /** A run keeps the invariant throughout if and only if none of its purges takes a held key. */
  lemma {:induction false} RunInvIffLegal(s: State, acts: seq<Action>)
    requires Inv(s) && Feasible(s, acts)
    ensures InvThroughout(s, acts) <==> Legal(s, acts)
    decreases |acts|
  {
    if acts != [] {
      InvIffNoHeldPurged(s, acts[0]);
      if NoHeldPurged(s, acts[0]) {
        RunInvIffLegal(Apply(s, acts[0]), acts[1..]);
      } else if acts[1..] == [] {
        assert !InvThroughout(Apply(s, acts[0]), acts[1..]);
      }
    }
  }

  /** Purging a held key is a real loss: the next request with the key reserves it too, and two
      requests hold it at once. */
  lemma HeldPurgeMakesTwoHolders(s: State, keys: set<Key>, r: RequestId, u: RequestId, hash: Hash)
    requires Enabled(s, Purge(keys)) && r in s.requests && Holds(s.requests[r]) && s.requests[r].key in keys
    requires u !in s.requests
    ensures var key := s.requests[r].key; var acts := [Purge(keys), Arrive(u, key, hash), Insert(u)];
      Feasible(s, acts) && var e := Apply(Apply(Apply(s, acts[0]), acts[1]), acts[2]);
      Holds(e.requests[r]) && Holds(e.requests[u]) && e.requests[r].key == e.requests[u].key && r != u
  {
    var acts := [Purge(keys), Arrive(u, s.requests[r].key, hash), Insert(u)];
    var s1 := Apply(s, acts[0]);
    var s2 := Apply(s1, acts[1]);
    assert Enabled(s2, acts[2]);
    assert acts[1..][0] == acts[1] && acts[1..][1..] == [acts[2]] && [acts[2]][1..] == [];
    assert Feasible(s2, [acts[2]]);
    assert Feasible(s1, acts[1..]);
  }

  /** No request outlives the retention window. */
  ghost predicate Timely(s: State) {
    forall r :: r in s.requests && Holds(s.requests[r]) ==> s.now <= s.requests[r].phase.reservedAt + RETENTION
  }

  /** So it is enough, though not necessary, that no request outlives retention. */
  lemma TimelyIsEnough(s: State, a: Action)
    requires Inv(s) && Enabled(s, a) && Timely(s)
    ensures NoHeldPurged(s, a)
  {
    if a.Purge? {
      forall r | r in s.requests && Holds(s.requests[r]) ensures s.requests[r].key !in a.keys {
        assert HolderOk(s, r);
      }
    }
  }

  ghost predicate TimelyThroughout(s: State, acts: seq<Action>)
    requires Feasible(s, acts)
    decreases |acts|
  {
    Timely(s) && (acts == [] || TimelyThroughout(Apply(s, acts[0]), acts[1..]))
  }

  /** A run in which no request ever outlives retention satisfies the condition throughout. */
  lemma {:induction false} TimelyRunIsLegal(s: State, acts: seq<Action>)
    requires Inv(s) && Feasible(s, acts) && TimelyThroughout(s, acts)
    ensures Legal(s, acts)
    decreases |acts|
  {
    if acts != [] {
      TimelyIsEnough(s, acts[0]);
      StepKeepsInv(s, acts[0]);
      TimelyRunIsLegal(Apply(s, acts[0]), acts[1..]);
    }
  }

  /** Runs without that condition, by their last step. */
  predicate Possible(acts: seq<Action>)
    decreases |acts|, 0
  {
    acts == [] || (Possible(acts[..|acts| - 1]) && Enabled(Reached(acts[..|acts| - 1]), acts[|acts| - 1]))
  }

  function Reached(acts: seq<Action>): State
    requires Possible(acts)
    decreases |acts|, 1
  {
    if acts == [] then INITIAL else Apply(Reached(acts[..|acts| - 1]), acts[|acts| - 1])
  }

  lemma Extend(acts: seq<Action>, a: Action)
    requires Possible(acts) && Enabled(Reached(acts), a)
    ensures Possible(acts + [a]) && Reached(acts + [a]) == Apply(Reached(acts), a)
  {
    assert (acts + [a])[..|acts|] == acts;
  }

  /** An owner that outlives retention completes another request's row by key: a request is then
      replayed a response that no document with its hash ever had. */
  lemma OutlivingRequestBreaksReplay(k: Key)
    ensures exists acts :: Possible(acts) && WrongReplay(Reached(acts), 3)
  {
    var acts := OutlivingCommit(k);
    Extend(acts, Arrive(3, k, "b"));
    acts := acts + [Arrive(3, k, "b")];
    Extend(acts, Insert(3));
    acts := acts + [Insert(3)];
    Extend(acts, Select(3));
    acts := acts + [Select(3)];
    assert WrongReplay(Reached(acts), 3);
  }

  /** Request 1 then completes request 2's row with its own response. */
  lemma OutlivingCommit(k: Key) returns (acts: seq<Action>)
    ensures Possible(acts)
    ensures var s := Reached(acts);
      && s.documents == [Document(k, 1, "a", 10, 0)]
      && k in s.rows && s.rows[k] == Row(Some(10), "b", RETENTION + 1) && s.requests.Keys == {1, 2}
  {
    acts := OutlivingPrefix(k);
    Extend(acts, Capture(1, 10));
    acts := acts + [Capture(1, 10)];
    Extend(acts, Commit(1));
    acts := acts + [Commit(1)];
  }

  /** Request 1 reserves and stalls past retention; its row is purged and request 2 reserves the key. */
  lemma OutlivingPrefix(k: Key) returns (acts: seq<Action>)
    ensures Possible(acts)
    ensures Reached(acts) == State(
      RETENTION + 1, map[k := Row(None, "b", RETENTION + 1)],
      map[1 := Request(k, "a", Owning(0)), 2 := Request(k, "b", Owning(RETENTION + 1))], map[k := 2], [])
  {
    Extend([], Arrive(1, k, "a"));
    acts := [] + [Arrive(1, k, "a")];
    Extend(acts, Insert(1));
    acts := acts + [Insert(1)];
    Extend(acts, Tick(RETENTION + 1));
    acts := acts + [Tick(RETENTION + 1)];
    Extend(acts, Purge({k}));
    acts := acts + [Purge({k})];
    assert Reached(acts).rows == map[];
    Extend(acts, Arrive(2, k, "b"));
    acts := acts + [Arrive(2, k, "b")];
    Extend(acts, Insert(2));
    acts := acts + [Insert(2)];
  }

  ghost predicate WrongReplay(s: State, r: RequestId) {
    r in s.requests && s.requests[r].phase.Ended? && s.requests[r].phase.outcome.Replayed?
    && forall d :: d in s.documents ==> d.hash != s.requests[r].hash
  }

  // ---- The reservation table --------------------------------------------------------------------

  class KeyTable {
    var rows: map<Key, Row>

    constructor ()
      ensures rows == map[]
    {
      rows := map[];
    }

    /** reserve, run without interleaving: reserve the key, or report what its row says. */
    method Reserve(key: Key, hash: Hash, now: Time) returns (refused: Option<Outcome>)
      modifies this
      ensures refused.None? <==> key !in old(rows)
      ensures refused.None? ==> rows == old(rows)[key := Row(None, hash, now)]
      ensures refused.Some? ==>
        && rows == old(rows)
        && refused.value ==
          match rows[key].response
          case None => InProgress
          case Some(response) => if rows[key].hash == hash then Replayed(response) else KeyReuse
    {
      var reserved := TryReserve(rows, key, hash, now);
      if reserved.Some? {
        rows := reserved.value;
        return None;
      }
      refused := Some(Arbitrate(rows, key, hash));
    }

    method CaptureResponse(key: Key, response: Response)
      modifies this
      ensures rows == Complete(old(rows), key, response)
      ensures rows.Keys == old(rows).Keys && forall k :: k in rows && k != key ==> rows[k] == old(rows)[k]
      ensures key in rows ==> rows[key] == Row(Some(response), old(rows)[key].hash, old(rows)[key].createdAt)
    {
      if key in rows {
        rows := rows[key := rows[key].(response := Some(response))];
      }
    }

    /** Never removes a completed replay record. */
    method CleanupReservation(key: Key)
      modifies this
      ensures rows == DeleteInProgress(old(rows), key) && rows.Keys <= old(rows).Keys
      ensures key in rows ==> rows[key].Completed()
      ensures forall k :: k in old(rows) && (k != key || old(rows)[k].Completed()) ==>
        k in rows && rows[k] == old(rows)[k]
    {
      if key in rows && !rows[key].Completed() {
        rows := rows - {key};
      }
    }

    /** Deletes at most 500 rows, all older than seven days, finished or not; fewer only when none of that
        age is left. */
    method PurgeKeys(now: Time) returns (purged: nat)
      modifies this
      ensures rows.Keys <= old(rows).Keys && forall k :: k in rows ==> rows[k] == old(rows)[k]
      ensures forall k :: k in old(rows) && now <= old(rows)[k].createdAt + 604800 ==> k in rows
      ensures purged == |old(rows).Keys - rows.Keys| <= 500
      ensures purged < 500 ==> forall k :: k in rows ==> now <= rows[k].createdAt + 604800
    {
      ghost var was := rows;
      var expired := set k | k in rows && Expired(rows[k], now);
      var victims: set<Key> := {};
      purged := 0;
      while purged < PURGE_BUDGET && victims != expired
        invariant victims <= expired && purged == |victims| <= PURGE_BUDGET
        decreases PURGE_BUDGET - purged
      {
        assert expired - victims != {} by { assert victims == expired - (expired - victims); }
        var k :| k in expired - victims;
        victims := victims + {k};
        purged := purged + 1;
      }
      rows := rows - victims;
      assert was.Keys - rows.Keys == victims;
      assert forall k :: k in rows && Expired(rows[k], now) ==> k in expired;
    }
  }
}
