/** Gapless numbering of backend/app/core/numbering.py under READ COMMITTED.

    Any number of transactions interleave statement by statement. A row written by an open
    transaction stays locked until it ends; an UPDATE does not see another transaction's uncommitted
    INSERT; a duplicate INSERT waits for the other transaction to end. */
module Numbering {
  import opened NumberFormat
  import opened Options

  type TxnId = nat

  /** year is 0 for a sequence that does not year-reset. */
  datatype CounterKey = CounterKey(tenant: nat, sequence: nat, year: nat)
  datatype Claim = Claim(key: CounterKey, value: nat)

  /** Where a transaction stands inside claim_number. */
  datatype Phase =
    | Idle
    | Missing(key: CounterKey)   // the first increment matched no row
    | Retrying(key: CounterKey)  // _create_counter has returned
    | Lost(key: CounterKey)      // "lost its counter mid-claim"

  /** writes holds the uncommitted next_value of every counter row this transaction has locked. */
  datatype Txn = Txn(writes: map<CounterKey, nat>, claims: seq<Claim>, phase: Phase)

  /** counters: committed rows; log: claims in commit order. */
  datatype State = State(counters: map<CounterKey, nat>, txns: map<TxnId, Txn>, log: seq<Claim>)

  datatype Action =
    | Begin(t: TxnId)
    | Increment(t: TxnId, key: CounterKey)
    | Insert(t: TxnId, key: CounterKey)
    | Commit(t: TxnId)
    | Rollback(t: TxnId)

  const INITIAL := State(map[], map[], [])

  // ---- Statements -------------------------------------------------------------------------

  predicate LockedByOther(s: State, t: TxnId, key: CounterKey) {
    exists u :: u in s.txns && u != t && key in s.txns[u].writes
  }

  /** A statement that would wait is not enabled until the lock is gone. */
  predicate Enabled(s: State, a: Action) {
    match a
    case Begin(t) => t !in s.txns
    case Increment(t, key) =>
      && t in s.txns && (s.txns[t].phase == Idle || s.txns[t].phase == Retrying(key))
      && (key in s.counters ==> !LockedByOther(s, t, key))
    case Insert(t, key) =>
      && t in s.txns && (s.txns[t].phase == Idle || s.txns[t].phase == Missing(key))
      && (key !in s.counters ==> !LockedByOther(s, t, key))
    case Commit(t) => t in s.txns && s.txns[t].phase == Idle
    case Rollback(t) => t in s.txns
  }

  /** UPDATE ... SET next_value = next_value + 1 RETURNING next_value, minus one; None if no row is
      visible. */
  function Claimable(s: State, x: Txn, key: CounterKey): Option<nat> {
    if key in x.writes then Some(x.writes[key]) else if key in s.counters then Some(s.counters[key]) else None
  }

  function Incremented(s: State, x: Txn, key: CounterKey): Txn {
    match Claimable(s, x, key)
    case Some(v) => Txn(x.writes[key := v + 1], x.claims + [Claim(key, v)], Idle)
    case None => x.(phase := if x.phase == Idle then Missing(key) else Lost(key))
  }

  /** The savepoint: a duplicate key undoes only the nested insert. */
  function Inserted(s: State, x: Txn, key: CounterKey): Txn {
    var writes := if key in s.counters || key in x.writes then x.writes else x.writes[key := 1];
    Txn(writes, x.claims, if x.phase == Idle then Idle else Retrying(key))
  }

  function Apply(s: State, a: Action): State
    requires Enabled(s, a)
  {
    match a
    case Begin(t) => s.(txns := s.txns[t := Txn(map[], [], Idle)])
    case Increment(t, key) => s.(txns := s.txns[t := Incremented(s, s.txns[t], key)])
    case Insert(t, key) => s.(txns := s.txns[t := Inserted(s, s.txns[t], key)])
    case Commit(t) => State(s.counters + s.txns[t].writes, s.txns - {t}, s.log + s.txns[t].claims)
    case Rollback(t) => s.(txns := s.txns - {t})
  }

  // ---- Runs -------------------------------------------------------------------------------

  predicate Legal(s: State, acts: seq<Action>)
    decreases |acts|
  {
    acts == [] || (Enabled(s, acts[0]) && Legal(Apply(s, acts[0]), acts[1..]))
  }

  function Final(s: State, acts: seq<Action>): State
    requires Legal(s, acts)
    decreases |acts|
  {
    if acts == [] then s else Final(Apply(s, acts[0]), acts[1..])
  }

  // ---- Values per counter -----------------------------------------------------------------

  /** The values claimed from one counter, in order. */
  function Values(claims: seq<Claim>, key: CounterKey): seq<nat> {
    if claims == [] then [] else
      var rest := Values(claims[..|claims| - 1], key);
      var last := claims[|claims| - 1];
      if last.key == key then rest + [last.value] else rest
  }

  /** b, b+1, ..., b+n-1. */
  function From(b: nat, n: nat): (r: seq<nat>)
    ensures |r| == n && forall i :: 0 <= i < n ==> r[i] == b + i
  {
    seq(n, i => b + i)
  }

  lemma {:induction false} ValuesConcat(a: seq<Claim>, b: seq<Claim>, key: CounterKey)
    ensures Values(a + b, key) == Values(a, key) + Values(b, key)
  {
    if b == [] {
      assert a + b == a;
    } else {
      ValuesConcat(a, b[..|b| - 1], key);
      assert (a + b)[..|a + b| - 1] == a + b[..|b| - 1];
    }
  }

  lemma ValuesSnoc(a: seq<Claim>, c: Claim, key: CounterKey)
    ensures Values(a + [c], key) == if c.key == key then Values(a, key) + [c.value] else Values(a, key)
  {
    assert (a + [c])[..|a|] == a;
  }

  // ---- The invariant ----------------------------------------------------------------------

  function NextFree(s: State, key: CounterKey): nat {
    if key in s.counters then s.counters[key] else 1
  }

  /** Committed claims of a counter are 1, 2, ..., next_value - 1. */
  ghost predicate Gapless(s: State, key: CounterKey) {
    NextFree(s, key) >= 1 && Values(s.log, key) == From(1, NextFree(s, key) - 1)
  }

  /** The transaction's own claims run from b up to its pending next value. */
  ghost predicate Runs(x: Txn, key: CounterKey, b: nat) {
    if key in x.writes then x.writes[key] >= b && Values(x.claims, key) == From(b, x.writes[key] - b)
    else Values(x.claims, key) == []
  }

  /** A transaction's own claims continue the committed ones. */
  ghost predicate Continues(s: State, t: TxnId, key: CounterKey)
    requires t in s.txns
  {
    Runs(s.txns[t], key, NextFree(s, key))
  }

  ghost predicate Exclusive(s: State) {
    forall t, u, key :: t in s.txns && u in s.txns && key in s.txns[t].writes && key in s.txns[u].writes ==> t == u
  }

  predicate Found(s: State, x: Txn) {
    match x.phase
    case Missing(key) => key !in x.writes
    case Retrying(key) => key in s.counters || key in x.writes
    case Lost(_) => false
    case _ => true
  }

  ghost predicate Inv(s: State) {
    && (forall key :: Gapless(s, key))
    && (forall t, key :: t in s.txns ==> Continues(s, t, key))
    && Exclusive(s)
    && (forall t :: t in s.txns ==> Found(s, s.txns[t]))
  }

  lemma InitialInv()
    ensures Inv(INITIAL)
  {
  }

  lemma KeepGapless(s: State, a: Action, key: CounterKey)
    requires Inv(s) && Enabled(s, a)
    ensures Gapless(Apply(s, a), key)
  {
    assert Gapless(s, key);
    if a.Commit? {
      var x := s.txns[a.t];
      assert Continues(s, a.t, key);
      ValuesConcat(s.log, x.claims, key);
    }
  }

  lemma KeepContinues(s: State, a: Action, u: TxnId, key: CounterKey)
    requires Inv(s) && Enabled(s, a) && u in Apply(s, a).txns
    ensures Continues(Apply(s, a), u, key)
  {
    assert Gapless(s, key);
    assert u in s.txns ==> Continues(s, u, key);
    match a
    case Increment(t, k) =>
      if u == t { ClaimContinues(s, t, k, key); }
    case Commit(t) =>
      assert u != t;
      assert key in s.txns[t].writes ==> key !in s.txns[u].writes;
    case _ =>
  }

  lemma ClaimContinues(s: State, t: TxnId, k: CounterKey, key: CounterKey)
    requires Enabled(s, Increment(t, k)) && Continues(s, t, key) && Gapless(s, key)
    ensures Continues(Apply(s, Increment(t, k)), t, key)
  {
    var x := s.txns[t];
    var y := Incremented(s, x, k);
    assert Apply(s, Increment(t, k)).txns[t] == y;
    if k != key {
      OtherClaim(s, x, k, key);
    } else if Claimable(s, x, key).Some? {
      OwnClaim(s, x, key);
    }
  }

  lemma OtherClaim(s: State, x: Txn, k: CounterKey, key: CounterKey)
    requires k != key
    ensures var y := Incremented(s, x, k);
      && Values(y.claims, key) == Values(x.claims, key)
      && (key in y.writes <==> key in x.writes) && (key in x.writes ==> y.writes[key] == x.writes[key])
  {
    if Claimable(s, x, k).Some? {
      ValuesSnoc(x.claims, Claim(k, Claimable(s, x, k).value), key);
    }
  }

  lemma OwnClaim(s: State, x: Txn, key: CounterKey)
    requires Claimable(s, x, key).Some?
    requires Runs(x, key, NextFree(s, key))
    ensures var y := Incremented(s, x, key); key in y.writes && Runs(y, key, NextFree(s, key))
  {
    var b, v := NextFree(s, key), Claimable(s, x, key).value;
    ValuesSnoc(x.claims, Claim(key, v), key);
    FromSnoc(b, v);
    assert From(b, 0) == [];
  }

  lemma FromSnoc(b: nat, v: nat)
    requires v >= b
    ensures From(b, v + 1 - b) == From(b, v - b) + [v]
  {
  }

  lemma KeepExclusive(s: State, a: Action)
    requires Inv(s) && Enabled(s, a)
    ensures Exclusive(Apply(s, a))
  {
    if a.Increment? || a.Insert? {
      var s', t := Apply(s, a), a.t;
      forall u, key | u in s'.txns && u != t && key in s'.txns[t].writes ensures key !in s'.txns[u].writes {
        assert s'.txns[u] == s.txns[u];
        assert key in s.txns[t].writes || (key == a.key && !LockedByOther(s, t, key));
      }
    }
  }

  lemma StepKeepsInv(s: State, a: Action)
    requires Inv(s) && Enabled(s, a)
    ensures Inv(Apply(s, a))
  {
    var s' := Apply(s, a);
    forall key ensures Gapless(s', key) { KeepGapless(s, a, key); }
    forall u, key | u in s'.txns ensures Continues(s', u, key) { KeepContinues(s, a, u, key); }
    KeepExclusive(s, a);
  }

  lemma {:induction false} RunKeepsInv(s: State, acts: seq<Action>)
    requires Inv(s) && Legal(s, acts)
    ensures Inv(Final(s, acts))
    decreases |acts|
  {
    if acts != [] {
      StepKeepsInv(s, acts[0]);
      RunKeepsInv(Apply(s, acts[0]), acts[1..]);
    }
  }

  // ---- Main results -----------------------------------------------------------------------

  /** Over every interleaving of claims, commits and rollbacks, the committed values of each counter
      are exactly 1..k, without gap or duplicate, in commit order; and no transaction ever reaches the
      "lost its counter" branch. */
  lemma GaplessNumbering(acts: seq<Action>, key: CounterKey)
    requires Legal(INITIAL, acts)
    ensures var s := Final(INITIAL, acts);
      && Values(s.log, key) == From(1, |Values(s.log, key)|)
      && (key in s.counters ==> s.counters[key] == |Values(s.log, key)| + 1)
      && forall t :: t in s.txns ==> !s.txns[t].phase.Lost?
  {
    InitialInv();
    RunKeepsInv(INITIAL, acts);
    assert Gapless(Final(INITIAL, acts), key);
  }

  /** At most one open transaction holds a given counter, created or not: concurrent openers of a new
      year leave one row. */
  lemma OneHolderPerCounter(acts: seq<Action>, t: TxnId, u: TxnId, key: CounterKey)
    requires Legal(INITIAL, acts)
    requires var s := Final(INITIAL, acts);
      t in s.txns && u in s.txns && key in s.txns[t].writes && key in s.txns[u].writes
    ensures t == u
  {
    InitialInv();
    RunKeepsInv(INITIAL, acts);
  }

  /** Losing the creation race costs a transaction nothing: its writes and claims stand, and its next
      statement claims the winner's next value. */
  lemma LoserKeepsItsWork(s: State, t: TxnId, key: CounterKey)
    requires Inv(s) && Enabled(s, Insert(t, key)) && s.txns[t].phase == Missing(key) && key in s.counters
    ensures var s1 := Apply(s, Insert(t, key));
      && s1.txns[t].writes == s.txns[t].writes && s1.txns[t].claims == s.txns[t].claims && s1.counters == s.counters
      && (Enabled(s1, Increment(t, key)) ==>
            var s2 := Apply(s1, Increment(t, key));
            && s2.txns[t].claims == s.txns[t].claims + [Claim(key, s.counters[key])]
            && s2.txns[t].phase == Idle && s.counters[key] == |Values(s.log, key)| + 1)
  {
    assert Found(s, s.txns[t]) && Gapless(s, key);
  }

  /** A claim yields one more than all committed and all own claims so far; it finds no row only when
      there have been none. */
  lemma ClaimIsNext(s: State, t: TxnId, key: CounterKey)
    requires Inv(s) && t in s.txns
    ensures match Claimable(s, s.txns[t], key)
      case Some(v) => v == |Values(s.log, key)| + |Values(s.txns[t].claims, key)| + 1
      case None => Values(s.log, key) == [] && Values(s.txns[t].claims, key) == []
  {
    assert Gapless(s, key) && Continues(s, t, key);
  }

  ghost predicate Touches(a: Action, key: CounterKey) {
    (a.Increment? || a.Insert?) && a.key == key
  }

  /** What transaction t has done to a counter so far. */
  function WriteOf(s: State, t: TxnId, key: CounterKey): Option<nat> {
    if t in s.txns && key in s.txns[t].writes then Some(s.txns[t].writes[key]) else None
  }

  function RowOf(s: State, key: CounterKey): Option<nat> {
    if key in s.counters then Some(s.counters[key]) else None
  }

  /** A step that claims or creates other counters changes this one only by ending a transaction: a
      commit turns its own pending write into the row, and commit and rollback drop that write. */
  lemma OtherStep(s: State, a: Action, key: CounterKey, t: TxnId)
    requires Enabled(s, a) && !Touches(a, key)
    ensures RowOf(Apply(s, a), key) ==
      if a.Commit? && WriteOf(s, a.t, key).Some? then WriteOf(s, a.t, key) else RowOf(s, key)
    ensures WriteOf(Apply(s, a), t, key) == if a == Commit(t) || a == Rollback(t) then None else WriteOf(s, t, key)
  {
  }

  /** How the transaction that t names at the start ends, if it does. */
  datatype Ending = Open | Committed | RolledBack

  function EndingOf(acts: seq<Action>, t: TxnId): Ending {
    if acts == [] then Open
    else if acts[0] == Commit(t) then Committed
    else if acts[0] == Rollback(t) then RolledBack
    else EndingOf(acts[1..], t)
  }

  /** t holds a pending write to the counter and commits it during the run. */
  predicate Delivers(s: State, acts: seq<Action>, t: TxnId, key: CounterKey) {
    WriteOf(s, t, key).Some? && EndingOf(acts, t) == Committed
  }

  /** Claims for one year or sequence never disturb another's, from any state and with any
      transactions in flight. Over a run without a claim on this counter, a pending write to it stands
      until its transaction ends, and the committed row changes exactly when a transaction that already
      held the counter commits, and then to that very write. */
  lemma {:induction false} OtherCountersUntouched(s: State, acts: seq<Action>, key: CounterKey)
    requires Legal(s, acts) && forall i :: 0 <= i < |acts| ==> !Touches(acts[i], key)
    ensures var e := Final(s, acts);
      forall t :: WriteOf(e, t, key) == if EndingOf(acts, t).Open? then WriteOf(s, t, key) else None
    ensures (forall t :: !Delivers(s, acts, t, key)) ==> RowOf(Final(s, acts), key) == RowOf(s, key)
    ensures (exists t :: Delivers(s, acts, t, key)) ==>
      exists t :: Delivers(s, acts, t, key) && RowOf(Final(s, acts), key) == WriteOf(s, t, key)
    decreases |acts|
  {
    if acts != [] {
      var a, s', rest := acts[0], Apply(s, acts[0]), acts[1..];
      assert !Touches(a, key);
      forall t
        ensures Delivers(s, acts, t, key) <==>
          (a == Commit(t) && WriteOf(s, t, key).Some?) || Delivers(s', rest, t, key)
      {
        OtherStep(s, a, key, t);
      }
      forall t ensures WriteOf(s', t, key) == if a == Commit(t) || a == Rollback(t) then None else WriteOf(s, t, key) {
        OtherStep(s, a, key, t);
      }
      OtherStep(s, a, key, 0);
      OtherCountersUntouched(s', rest, key);
      if t :| Delivers(s', rest, t, key) && RowOf(Final(s, acts), key) == WriteOf(s', t, key) {
        assert Delivers(s, acts, t, key) && RowOf(Final(s, acts), key) == WriteOf(s, t, key);
      } else if a.Commit? && WriteOf(s, a.t, key).Some? {
        assert Delivers(s, acts, a.t, key) && RowOf(Final(s, acts), key) == WriteOf(s, a.t, key);
      }
    }
  }

  // ---- Document numbers -------------------------------------------------------------------

  datatype Sequence = Sequence(id: nat, prefix: string, padding: nat, yearReset: bool)

  function YearOf(q: Sequence, key: CounterKey): Option<nat> {
    if q.yearReset then Some(key.year) else None
  }

  function NumberOf(q: Sequence, c: Claim): string {
    Format(q.prefix, q.padding, c.value, YearOf(q, c.key))
  }

  /** The claim was made through a configured sequence: a date's year, or bucket 0 without year reset. */
  predicate Configured(sequences: map<nat, Sequence>, c: Claim) {
    c.key.sequence in sequences && if sequences[c.key.sequence].yearReset then IsYear(c.key.year) else c.key.year == 0
  }

  /** on_date selects the counter: one per year, or the yearless bucket 0. */
  function BucketOf(tenant: nat, id: nat, q: Sequence, year: nat): CounterKey {
    CounterKey(tenant, id, if q.yearReset then year else 0)
  }

  /** Two claims draw on one counter if and only if they are of one tenant and one sequence, and of one
      year when the sequence year-resets; and a date's claim is always a configured one. */
  lemma SharedCounter(tenant: nat, id: nat, year: nat, tenant': nat, id': nat, year': nat,
    sequences: map<nat, Sequence>, value: nat)
    requires id in sequences && id' in sequences && IsYear(year) && IsYear(year')
    ensures BucketOf(tenant, id, sequences[id], year) == BucketOf(tenant', id', sequences[id'], year') <==>
      tenant == tenant' && id == id' && (sequences[id].yearReset ==> year == year')
    ensures Configured(sequences, Claim(BucketOf(tenant, id, sequences[id], year), value))
  {
  }

  // ---- Claims through the tenant's sequences ----------------------------------------------------

  /** Every claim of the tenant, committed or open, is a configured one. */
  ghost predicate AllConfigured(s: State, tenant: nat, sequences: map<nat, Sequence>) {
    && (forall c :: c in s.log && c.key.tenant == tenant ==> Configured(sequences, c))
    && forall t, c :: t in s.txns && c in s.txns[t].claims && c.key.tenant == tenant ==> Configured(sequences, c)
  }

  /** The step claims for the tenant only on some date's counter of a sequence of its own. */
  ghost predicate ThroughSequences(a: Action, tenant: nat, sequences: map<nat, Sequence>) {
    a.Increment? && a.key.tenant == tenant ==>
      exists id, year :: id in sequences && IsYear(year) && a.key == BucketOf(tenant, id, sequences[id], year)
  }

  lemma {:induction false} StaysConfigured(s: State, acts: seq<Action>, tenant: nat, sequences: map<nat, Sequence>)
    requires Legal(s, acts) && AllConfigured(s, tenant, sequences)
    requires forall i :: 0 <= i < |acts| ==> ThroughSequences(acts[i], tenant, sequences)
    ensures AllConfigured(Final(s, acts), tenant, sequences)
    decreases |acts|
  {
    if acts != [] {
      StepConfigured(s, acts[0], tenant, sequences);
      StaysConfigured(Apply(s, acts[0]), acts[1..], tenant, sequences);
    }
  }

  lemma StepConfigured(s: State, a: Action, tenant: nat, sequences: map<nat, Sequence>)
    requires Enabled(s, a) && AllConfigured(s, tenant, sequences) && ThroughSequences(a, tenant, sequences)
    ensures AllConfigured(Apply(s, a), tenant, sequences)
  {
    var s' := Apply(s, a);
    forall t, c | t in s'.txns && c in s'.txns[t].claims && c.key.tenant == tenant ensures Configured(sequences, c) {
      assert (t in s.txns && c in s.txns[t].claims) || (a.Increment? && c.key == a.key);
    }
  }

  /** So runs whose claims all go through the tenant's sequences are covered by the uniqueness results. */
  lemma ClaimsAreConfigured(acts: seq<Action>, tenant: nat, sequences: map<nat, Sequence>)
    requires Legal(INITIAL, acts)
    requires forall i :: 0 <= i < |acts| ==> ThroughSequences(acts[i], tenant, sequences)
    ensures ConfiguredRun(acts, tenant, sequences)
  {
    StaysConfigured(INITIAL, acts, tenant, sequences);
    var log := Final(INITIAL, acts).log;
    forall k | 0 <= k < |log| && log[k].key.tenant == tenant ensures Configured(sequences, log[k]) {
      assert log[k] in log;
    }
  }

  /** All values committed from one sequence, whatever the dates, in commit order. */
  function SequenceValues(log: seq<Claim>, tenant: nat, id: nat): seq<nat> {
    if log == [] then [] else
      var last := log[|log| - 1];
      SequenceValues(log[..|log| - 1], tenant, id) +
        if last.key.tenant == tenant && last.key.sequence == id then [last.value] else []
  }

  lemma {:induction false} OneBucket(log: seq<Claim>, tenant: nat, id: nat)
    requires forall c :: c in log && c.key.tenant == tenant && c.key.sequence == id ==> c.key.year == 0
    ensures SequenceValues(log, tenant, id) == Values(log, CounterKey(tenant, id, 0))
  {
    if log != [] {
      OneBucket(log[..|log| - 1], tenant, id);
      assert log[|log| - 1] in log;
    }
  }

  /** A sequence without year reset numbers straight on across years: over all dates its committed
      values are 1..k in commit order. */
  lemma YearlessRunsOn(acts: seq<Action>, tenant: nat, sequences: map<nat, Sequence>, id: nat)
    requires ConfiguredRun(acts, tenant, sequences) && id in sequences && !sequences[id].yearReset
    ensures var vs := SequenceValues(Final(INITIAL, acts).log, tenant, id); vs == From(1, |vs|)
  {
    var log := Final(INITIAL, acts).log;
    forall c | c in log && c.key.tenant == tenant && c.key.sequence == id ensures c.key.year == 0 {
      var k :| 0 <= k < |log| && log[k] == c;
    }
    OneBucket(log, tenant, id);
    GaplessNumbering(acts, CounterKey(tenant, id, 0));
  }

  lemma ValuesMember(claims: seq<Claim>, i: nat, j: nat)
    requires i < j < |claims| && claims[i].key == claims[j].key
    ensures var vs := Values(claims, claims[i].key);
      exists a, b :: 0 <= a < b < |vs| && vs[a] == claims[i].value && vs[b] == claims[j].value
  {
    var key := claims[i].key;
    assert claims == claims[..i] + [claims[i]] + claims[i + 1..j] + [claims[j]] + claims[j + 1..];
    var p, q := claims[..i], claims[i + 1..j];
    ValuesSnoc(p, claims[i], key);
    ValuesConcat(p + [claims[i]], q, key);
    ValuesSnoc(p + [claims[i]] + q, claims[j], key);
    ValuesConcat(p + [claims[i]] + q + [claims[j]], claims[j + 1..], key);
    var a, b := |Values(p, key)|, |Values(p + [claims[i]] + q, key)|;
    assert Values(claims, key)[a] == claims[i].value && Values(claims, key)[b] == claims[j].value;
  }

  /** Two sequences whose prefixes can produce the same text. */
  ghost predicate Clashing(q: Sequence, r: Sequence) {
    Clash(q.prefix, q.yearReset, r.prefix, r.yearReset)
  }

  /** A run whose claims for the tenant all go through its configured sequences. */
  ghost predicate ConfiguredRun(acts: seq<Action>, tenant: nat, sequences: map<nat, Sequence>) {
    Legal(INITIAL, acts) &&
    forall k :: 0 <= k < |Final(INITIAL, acts).log| && Final(INITIAL, acts).log[k].key.tenant == tenant ==>
      Configured(sequences, Final(INITIAL, acts).log[k])
  }

  /** Claims i and j of the log are the tenant's and format to one document number. */
  ghost predicate SameNumber(log: seq<Claim>, tenant: nat, sequences: map<nat, Sequence>, i: int, j: int) {
    && 0 <= i < j < |log| && log[i].key.tenant == log[j].key.tenant == tenant
    && Configured(sequences, log[i]) && Configured(sequences, log[j])
    && NumberOf(sequences[log[i].key.sequence], log[i]) == NumberOf(sequences[log[j].key.sequence], log[j])
  }

  /** No two committed documents of a tenant carry the same number, when no two of its sequences clash:
      the per-tenant unique index is never hit. */
  lemma CommittedNumbersAreUnique(acts: seq<Action>, tenant: nat, sequences: map<nat, Sequence>, i: int, j: int)
    requires ConfiguredRun(acts, tenant, sequences)
    requires forall q, r :: q in sequences && r in sequences && q != r ==> !Clashing(sequences[q], sequences[r])
    ensures !SameNumber(Final(INITIAL, acts).log, tenant, sequences, i, j)
  {
    var log := Final(INITIAL, acts).log;
    if SameNumber(log, tenant, sequences, i, j) {
      var c, d := log[i], log[j];
      var q, r := sequences[c.key.sequence], sequences[d.key.sequence];
      NoCollision(q.prefix, q.padding, c.value, YearOf(q, c.key), r.prefix, r.padding, d.value, YearOf(r, d.key));
      assert Clashing(q, r);
      ValuesMember(log, i, j);
      GaplessNumbering(acts, c.key);
    }
  }

  // ---- Clashing sequences do collide ------------------------------------------------------------

  lemma {:induction false} Append(s: State, a: seq<Action>, b: seq<Action>)
    requires Legal(s, a) && Legal(Final(s, a), b)
    ensures Legal(s, a + b) && Final(s, a + b) == Final(Final(s, a), b)
    decreases |a|
  {
    if a == [] {
      assert a + b == b;
    } else {
      Append(Apply(s, a[0]), a[1..], b);
      assert (a + b)[1..] == a[1..] + b;
    }
  }

  /** One transaction that claims one number and commits. */
  function ClaimOnce(key: CounterKey): seq<Action> {
    [Begin(0), Insert(0, key), Increment(0, key), Commit(0)]
  }

  lemma ClaimOnceWorks(s: State, key: CounterKey)
    requires s.txns == map[]
    ensures Legal(s, ClaimOnce(key))
    ensures Final(s, ClaimOnce(key)) ==
      State(s.counters[key := NextFree(s, key) + 1], map[], s.log + [Claim(key, NextFree(s, key))])
  {
    var acts := ClaimOnce(key);
    var s1 := Apply(s, acts[0]);
    var s2 := Apply(s1, acts[1]);
    var s3 := Apply(s2, acts[2]);
    assert s3.txns[0].claims == [Claim(key, NextFree(s, key))];
    assert s3.txns[0].writes == map[key := NextFree(s, key) + 1];
    assert Apply(s3, acts[3]).counters == s.counters[key := NextFree(s, key) + 1];
    Prepend(s3, acts[3], []);
    Prepend(s2, acts[2], [acts[3]]);
    Prepend(s1, acts[1], [acts[2], acts[3]]);
    Prepend(s, acts[0], [acts[1], acts[2], acts[3]]);
  }

  lemma Prepend(s: State, a: Action, rest: seq<Action>)
    requires Enabled(s, a) && Legal(Apply(s, a), rest)
    ensures Legal(s, [a] + rest) && Final(s, [a] + rest) == Final(Apply(s, a), rest)
  {
    assert ([a] + rest)[1..] == rest;
  }

  /** Any counter can be driven n further by a run that claims nothing else. */
  lemma {:induction false} ClaimTimes(acts: seq<Action>, key: CounterKey, n: nat) returns (more: seq<Action>)
    requires Legal(INITIAL, acts) && Final(INITIAL, acts).txns == map[]
    ensures Legal(INITIAL, more)
    ensures var s, e := Final(INITIAL, acts), Final(INITIAL, more);
      && e.txns == map[] && NextFree(e, key) == NextFree(s, key) + n
      && (forall k :: k != key ==> NextFree(e, k) == NextFree(s, k))
      && (forall c :: c in e.log ==> c in s.log || c.key == key)
  {
    if n == 0 {
      more := acts;
    } else {
      var most := ClaimTimes(acts, key, n - 1);
      ClaimOnceWorks(Final(INITIAL, most), key);
      Append(INITIAL, most, ClaimOnce(key));
      more := most + ClaimOnce(key);
    }
  }

  lemma {:induction false} ClaimIndex(log: seq<Claim>, key: CounterKey, v: nat) returns (i: nat)
    requires v in Values(log, key)
    ensures i < |log| && log[i] == Claim(key, v)
  {
    var n := |log| - 1;
    if log[n] == Claim(key, v) {
      i := n;
    } else {
      i := ClaimIndex(log[..n], key, v);
    }
  }

  /** After a run, every value below the counter's next one has been committed. */
  lemma CommittedClaim(acts: seq<Action>, key: CounterKey, v: nat) returns (i: nat)
    requires Legal(INITIAL, acts) && 1 <= v < NextFree(Final(INITIAL, acts), key)
    ensures i < |Final(INITIAL, acts).log| && Final(INITIAL, acts).log[i] == Claim(key, v)
  {
    var s := Final(INITIAL, acts);
    InitialInv();
    RunKeepsInv(INITIAL, acts);
    assert Gapless(s, key);
    assert From(1, NextFree(s, key) - 1)[v - 1] == v;
    i := ClaimIndex(s.log, key, v);
  }

  /** Some run commits any two given claims and claims from no other counter. */
  lemma BothClaimed(c: Claim, d: Claim) returns (acts: seq<Action>, i: nat, j: nat)
    requires c.key != d.key && c.value >= 1 && d.value >= 1
    ensures Legal(INITIAL, acts)
    ensures var log := Final(INITIAL, acts).log;
      && i < |log| && j < |log| && log[i] == c && log[j] == d
      && forall k :: 0 <= k < |log| ==> log[k].key == c.key || log[k].key == d.key
  {
    var half := ClaimTimes([], c.key, c.value);
    acts := ClaimTimes(half, d.key, d.value);
    i := CommittedClaim(acts, c.key, c.value);
    j := CommittedClaim(acts, d.key, d.value);
    var log := Final(INITIAL, acts).log;
    assert forall k :: 0 <= k < |log| ==> log[k] in log;
  }

  lemma ClashIsReached(tenant: nat, sequences: map<nat, Sequence>, q: nat, r: nat)
    requires q in sequences && r in sequences && q != r && Clashing(sequences[q], sequences[r])
    ensures exists acts, i, j ::
      ConfiguredRun(acts, tenant, sequences) && SameNumber(Final(INITIAL, acts).log, tenant, sequences, i, j)
  {
    var a, b := sequences[q], sequences[r];
    CollideIffClash(a.prefix, a.padding, a.yearReset, b.prefix, b.padding, b.yearReset);
    var v: nat, y: nat, v': nat, y': nat :| v >= 1 && v' >= 1 && IsYear(y) && IsYear(y') &&
      Format(a.prefix, a.padding, v, YearPart(a.yearReset, y)) ==
      Format(b.prefix, b.padding, v', YearPart(b.yearReset, y'));
    var c, d := Claim(BucketOf(tenant, q, a, y), v), Claim(BucketOf(tenant, r, b, y'), v');
    assert NumberOf(a, c) == NumberOf(b, d);
    var acts, i, j := BothClaimed(c, d);
    if i < j {
      assert SameNumber(Final(INITIAL, acts).log, tenant, sequences, i, j);
    } else {
      assert SameNumber(Final(INITIAL, acts).log, tenant, sequences, j, i);
    }
  }

  /** Committed numbers are unique in every run of a tenant's sequences if and only if no two of the
      sequences clash. */
  lemma UniqueIffNoClash(tenant: nat, sequences: map<nat, Sequence>)
    ensures (forall acts, i, j :: ConfiguredRun(acts, tenant, sequences) ==>
               !SameNumber(Final(INITIAL, acts).log, tenant, sequences, i, j))
      <==> (forall q, r :: q in sequences && r in sequences && q != r ==> !Clashing(sequences[q], sequences[r]))
  {
    if q, r :| q in sequences && r in sequences && q != r && Clashing(sequences[q], sequences[r]) {
      ClashIsReached(tenant, sequences, q, r);
    } else {
      forall acts, i, j | ConfiguredRun(acts, tenant, sequences)
        ensures !SameNumber(Final(INITIAL, acts).log, tenant, sequences, i, j) {
        CommittedNumbersAreUnique(acts, tenant, sequences, i, j);
      }
    }
  }

  // ---- The operations ---------------------------------------------------------------------

  /** e is reached from s by transaction t claiming on, or creating, this one counter. */
  ghost predicate ClaimedBy(s: State, t: TxnId, key: CounterKey, e: State) {
    exists acts :: Legal(s, acts) && Final(s, acts) == e && OnlyOn(acts, t, key)
  }

  predicate OnlyOn(acts: seq<Action>, t: TxnId, key: CounterKey) {
    forall i :: 0 <= i < |acts| ==> acts[i] == Increment(t, key) || acts[i] == Insert(t, key)
  }

  lemma OneStep(s: State, a: Action, t: TxnId, key: CounterKey)
    requires Enabled(s, a) && (a == Increment(t, key) || a == Insert(t, key))
    ensures ClaimedBy(s, t, key, Apply(s, a))
  {
    Prepend(s, a, []);
    assert OnlyOn([a], t, key) && Legal(s, [a] + []) && [a] + [] == [a];
  }

  lemma MoreSteps(s: State, t: TxnId, key: CounterKey, mid: State, e: State)
    requires ClaimedBy(s, t, key, mid) && ClaimedBy(mid, t, key, e)
    ensures ClaimedBy(s, t, key, e)
  {
    var a :| Legal(s, a) && Final(s, a) == mid && OnlyOn(a, t, key);
    var b :| Legal(mid, b) && Final(mid, b) == e && OnlyOn(b, t, key);
    Append(s, a, b);
    assert OnlyOn(a + b, t, key);
  }

  lemma CreatesAndClaims(s: State, t: TxnId, key: CounterKey)
    requires Enabled(s, Increment(t, key)) && Enabled(Apply(s, Increment(t, key)), Insert(t, key))
    requires Enabled(Apply(Apply(s, Increment(t, key)), Insert(t, key)), Increment(t, key))
    ensures ClaimedBy(s, t, key, Apply(Apply(Apply(s, Increment(t, key)), Insert(t, key)), Increment(t, key)))
  {
    var missing := Apply(s, Increment(t, key));
    var created := Apply(missing, Insert(t, key));
    OneStep(s, Increment(t, key), t, key);
    OneStep(missing, Insert(t, key), t, key);
    OneStep(created, Increment(t, key), t, key);
    MoreSteps(s, t, key, missing, created);
    MoreSteps(s, t, key, created, Apply(created, Increment(t, key)));
  }

  /** Opening a counter nobody else is opening and claiming from it. */
  lemma CreateThenClaim(s: State, t: TxnId, key: CounterKey)
    requires Enabled(s, Increment(t, key)) && s.txns[t].phase == Idle && Claimable(s, s.txns[t], key).None?
    requires !LockedByOther(s, t, key)
    ensures Enabled(Apply(s, Increment(t, key)), Insert(t, key))
    ensures Enabled(Apply(Apply(s, Increment(t, key)), Insert(t, key)), Increment(t, key))
    ensures var e := Apply(Apply(Apply(s, Increment(t, key)), Insert(t, key)), Increment(t, key));
      && ClaimedBy(s, t, key, e) && e.counters == s.counters && e.log == s.log
      && e.txns == s.txns[t := Txn(s.txns[t].writes[key := 2], s.txns[t].claims + [Claim(key, 1)], Idle)]
  {
    var missing := Apply(s, Increment(t, key));
    assert missing.txns[t].writes == s.txns[t].writes && missing.txns[t].phase == Missing(key);
    forall u | u in missing.txns && u != t ensures key !in missing.txns[u].writes { assert u in s.txns; }
    var created := Apply(missing, Insert(t, key));
    assert created.txns[t].writes == s.txns[t].writes[key := 1];
    var x := Txn(s.txns[t].writes[key := 2], s.txns[t].claims + [Claim(key, 1)], Idle);
    assert Incremented(created, created.txns[t], key) == x;
    assert created.txns[t := x] == s.txns[t := x];
    CreatesAndClaims(s, t, key);
  }

  /** A date's claim on a configured sequence is a step of a configured run. */
  lemma ClaimGoesThroughSequences(acts: seq<Action>, t: TxnId, tenant: nat, id: nat, year: nat,
    sequences: map<nat, Sequence>)
    requires id in sequences && IsYear(year) && OnlyOn(acts, t, BucketOf(tenant, id, sequences[id], year))
    ensures forall i :: 0 <= i < |acts| ==> ThroughSequences(acts[i], tenant, sequences)
  {
  }

  datatype ClaimResult = Claimed(number: string) | SequenceMissing | CounterLost

  /** The counter tables with their open transactions. */
  class CounterStore {
    var db: State

    constructor ()
      ensures db == INITIAL
    {
      db := INITIAL;
    }

    /** The claimed value is one more than all committed and all own claims of this counter; no value
        means the counter has never been claimed. */
    method IncrementCounter(t: TxnId, key: CounterKey) returns (value: Option<nat>)
      requires Inv(db) && Enabled(db, Increment(t, key))
      modifies this
      ensures Inv(db) && db == Apply(old(db), Increment(t, key))
      ensures value == Claimable(old(db), old(db).txns[t], key)
      ensures value.Some? ==>
        && value.value == |Values(db.log, key)| + |Values(old(db).txns[t].claims, key)| + 1
        && db.txns[t].claims == old(db).txns[t].claims + [Claim(key, value.value)]
      ensures value.None? ==> Values(db.log, key) == [] && db.txns[t].claims == old(db).txns[t].claims
    {
      StepKeepsInv(db, Increment(t, key));
      ClaimIsNext(db, t, key);
      value := Claimable(db, db.txns[t], key);
      db := db.(txns := db.txns[t := Incremented(db, db.txns[t], key)]);
    }

    /** Afterwards the counter is claimable, whoever created it, and every claim and write stands. */
    method CreateCounter(t: TxnId, key: CounterKey)
      requires Inv(db) && Enabled(db, Insert(t, key))
      modifies this
      ensures Inv(db) && db == Apply(old(db), Insert(t, key))
      ensures Claimable(db, db.txns[t], key).Some?
      ensures db.counters == old(db).counters && db.txns[t].claims == old(db).txns[t].claims
      ensures forall k :: k in old(db).txns[t].writes ==>
        k in db.txns[t].writes && db.txns[t].writes[k] == old(db).txns[t].writes[k]
    {
      StepKeepsInv(db, Insert(t, key));
      db := db.(txns := db.txns[t := Inserted(db, db.txns[t], key)]);
    }

    /** The claim inside claim_number: increment, or create the counter and increment again. */
    method ClaimValue(t: TxnId, key: CounterKey) returns (value: Option<nat>)
      requires Inv(db) && t in db.txns && db.txns[t].phase == Idle && !LockedByOther(db, t, key)
      modifies this
      ensures Inv(db) && db.counters == old(db.counters) && db.log == old(db.log)
      ensures db.txns.Keys == old(db).txns.Keys
      ensures forall u :: u in db.txns && u != t ==> db.txns[u] == old(db).txns[u]
      ensures ClaimedBy(old(db), t, key, db)
      ensures value == Some(NextClaim(old(db), t, key).value)
      ensures db.txns[t].phase == Idle && db.txns[t].claims == old(db).txns[t].claims + [NextClaim(old(db), t, key)]
    {
      OneStep(db, Increment(t, key), t, key);
      value := IncrementCounter(t, key);
      if value == None {
        CreateCounter(t, key);
        value := IncrementCounter(t, key);
        CreateThenClaim(old(db), t, key);
      }
    }

    /** claim_number for a transaction that has the counter to itself; a claim that must wait is the
        interleaving of its statements above. The "lost its counter" error is never returned. */
    method ClaimNumber(t: TxnId, tenant: nat, sequences: map<string, Sequence>, name: string, year: nat)
      returns (r: ClaimResult)
      requires Inv(db) && t in db.txns && db.txns[t].phase == Idle
      requires name in sequences ==>
        var q := sequences[name]; !LockedByOther(db, t, CounterKey(tenant, q.id, if q.yearReset then year else 0))
      modifies this
      ensures Inv(db) && db.counters == old(db.counters) && db.log == old(db.log)
      ensures db.txns.Keys == old(db).txns.Keys
      ensures forall u :: u in db.txns && u != t ==> db.txns[u] == old(db).txns[u]
      ensures name !in sequences ==> r == SequenceMissing && db == old(db)
      ensures name in sequences ==>
        var q := sequences[name];
        var key := CounterKey(tenant, q.id, if q.yearReset then year else 0);
        var value := |Values(db.log, key)| + |Values(old(db).txns[t].claims, key)| + 1;
        && db.txns[t].phase == Idle && db.txns[t].claims == old(db).txns[t].claims + [Claim(key, value)]
        && r == Claimed(Format(q.prefix, q.padding, value, if q.yearReset then Some(year) else None))
        && r.number == NumberOf(q, Claim(key, value))
        && ClaimedBy(old(db), t, key, db)
        && forall configured: map<nat, Sequence> ::
          IsYear(year) && q.id in configured && configured[q.id] == q ==>
            Configured(configured, Claim(key, value)) && key == BucketOf(tenant, q.id, configured[q.id], year)
    {
      if name !in sequences {
        return SequenceMissing;
      }
      var q := sequences[name];
      var bucket := if q.yearReset then year else 0;
      ClaimIsNext(db, t, CounterKey(tenant, q.id, bucket));
      var claimed := ClaimValue(t, CounterKey(tenant, q.id, bucket));
      if claimed == None {
        return CounterLost;
      }
      r := Claimed(Format(q.prefix, q.padding, claimed.value, if q.yearReset then Some(year) else None));
    }
  }

  /** The claim after all committed and all own ones (ClaimIsNext); the first one is 1. */
  function NextClaim(s: State, t: TxnId, key: CounterKey): Claim
    requires t in s.txns
  {
    Claim(key, match Claimable(s, s.txns[t], key) case Some(v) => v case None => 1)
  }
}
