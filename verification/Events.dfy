/** Unit of work and event drain of backend/app/core/events.py.

    A handler is any function of the shared session's working rows and the event; it either raises or
    returns the new rows and the events it published, in order. */
module Events {

  const MAX_DISPATCHES_PER_UOW := 50

  type HandlerId = nat
  type Store = map<nat, int>

  datatype Event = Event(key: string, payload: int)
  datatype Outcome = Ok(store: Store, published: seq<Event>) | Raised
  datatype Error = WorkRaised | HandlerRaised | CycleDetected | CommitFailed
  datatype Result<+T> = Success(value: T) | Failure(error: Error)
  datatype Dispatch = Dispatch(event: Event, handler: HandlerId)

  /** Registered handlers per key in registration order, and what each handler does. */
  datatype Bus = Bus(subscriptions: map<string, seq<HandlerId>>, run: (HandlerId, Store, Event) -> Outcome)

  /** A drain in progress: working rows, FIFO buffer, and the dispatches made so far. */
  datatype Progress = Progress(store: Store, buffer: seq<Event>, log: seq<Dispatch>)

  function HandlersFor(bus: Bus, key: string): seq<HandlerId> {
    if key in bus.subscriptions then bus.subscriptions[key] else []
  }

  // ---- The drain --------------------------------------------------------------------------

  /** One handler has run: its rows are in place, its events wait, its dispatch is on record. */
  function Advance(p: Progress, event: Event, handler: HandlerId, store: Store, published: seq<Event>): Progress {
    Progress(store, p.buffer + published, p.log + [Dispatch(event, handler)])
  }

  /** One event's handlers, each checked against the cap first. */
  function HandleAll(bus: Bus, cap: nat, handlers: seq<HandlerId>, event: Event, p: Progress): (r: Result<Progress>)
    ensures r.Success? ==> |r.value.log| == |p.log| + |handlers| && (handlers != [] ==> |r.value.log| <= cap)
    ensures r.Success? && handlers == [] ==> r.value == p
    decreases |handlers|
  {
    if handlers == [] then Success(p)
    else if |p.log| >= cap then Failure(CycleDetected)
    else match bus.run(handlers[0], p.store, event)
      case Raised => Failure(HandlerRaised)
      case Ok(store, published) =>
        HandleAll(bus, cap, handlers[1..], event, Advance(p, event, handlers[0], store, published))
  }

  /** _drain_and_dispatch: pop the oldest event, run its handlers, repeat. */
  function Drain(bus: Bus, cap: nat, p: Progress): Result<Progress>
    decreases cap - |p.log|, |p.buffer|
  {
    if p.buffer == [] then Success(p)
    else
      var event := p.buffer[0];
      match HandleAll(bus, cap, HandlersFor(bus, event.key), event, p.(buffer := p.buffer[1..]))
      case Failure(error) => Failure(error)
      case Success(next) => Drain(bus, cap, next)
  }

  // ---- What a log of dispatches does -----------------------------------------------------------

  /** The rows after the handlers of a log have run one after the other. */
  function Replay(bus: Bus, store: Store, log: seq<Dispatch>): Store
    decreases |log|, 1
  {
    if log == [] then store else
      match RunLast(bus, store, log)
      case Raised => Replay(bus, store, log[..|log| - 1])
      case Ok(rows, _) => rows
  }

  /** What the last dispatch of a log does, run on the rows its predecessors left. */
  function RunLast(bus: Bus, store: Store, log: seq<Dispatch>): Outcome
    requires log != []
    decreases |log|, 0
  {
    var d := log[|log| - 1];
    bus.run(d.handler, Replay(bus, store, log[..|log| - 1]), d.event)
  }

  /** No handler of the log raises. */
  predicate Succeeds(bus: Bus, store: Store, log: seq<Dispatch>) {
    log == [] || (Succeeds(bus, store, log[..|log| - 1]) && RunLast(bus, store, log).Ok?)
  }

  /** Everything the handlers of a log publish, in order. */
  function PublishedBy(bus: Bus, store: Store, log: seq<Dispatch>): seq<Event> {
    if log == [] then [] else
      PublishedBy(bus, store, log[..|log| - 1]) +
        match RunLast(bus, store, log) case Raised => [] case Ok(_, published) => published
  }

  /** Every (event, handler) pair: events in order, handlers in registration order. */
  function Plan(bus: Bus, events: seq<Event>): seq<Dispatch> {
    if events == [] then [] else PlanOne(bus, events[0]) + Plan(bus, events[1..])
  }

  function PlanOne(bus: Bus, event: Event): (d: seq<Dispatch>)
    ensures event.key !in bus.subscriptions ==> d == []
    ensures event.key in bus.subscriptions ==>
      var handlers := bus.subscriptions[event.key];
      |d| == |handlers| && forall k :: 0 <= k < |handlers| ==> d[k] == Dispatch(event, handlers[k])
  {
    Dispatches(event, HandlersFor(bus, event.key))
  }

  function Dispatches(event: Event, handlers: seq<HandlerId>): (d: seq<Dispatch>)
    ensures |d| == |handlers| && forall k :: 0 <= k < |handlers| ==> d[k] == Dispatch(event, handlers[k])
  {
    seq(|handlers|, k requires 0 <= k < |handlers| => Dispatch(event, handlers[k]))
  }

  lemma {:induction false} PlanConcat(bus: Bus, a: seq<Event>, b: seq<Event>)
    ensures Plan(bus, a + b) == Plan(bus, a) + Plan(bus, b)
  {
    if a == [] {
      assert a + b == b;
    } else {
      assert (a + b)[1..] == a[1..] + b;
      PlanConcat(bus, a[1..], b);
    }
  }

  lemma {:induction false} LogConcat(bus: Bus, store: Store, a: seq<Dispatch>, b: seq<Dispatch>)
    ensures var mid := Replay(bus, store, a);
      && Replay(bus, store, a + b) == Replay(bus, mid, b)
      && PublishedBy(bus, store, a + b) == PublishedBy(bus, store, a) + PublishedBy(bus, mid, b)
      && (Succeeds(bus, store, a + b) <==> Succeeds(bus, store, a) && Succeeds(bus, mid, b))
  {
    if b == [] {
      assert a + b == a;
    } else {
      var n := |b| - 1;
      LogConcat(bus, store, a, b[..n]);
      assert (a + b)[..|a + b| - 1] == a + b[..n];
      assert RunLast(bus, store, a + b) == RunLast(bus, Replay(bus, store, a), b);
    }
  }

  // ---- The drain, exactly -----------------------------------------------------------------------

  /** Every dispatch of the log was next in line given what its predecessors had published: the order is
      the plan of the events first published, then of everything published since, as it was published. */
  ghost predicate InLine(bus: Bus, store: Store, events: seq<Event>, log: seq<Dispatch>) {
    log == [] ||
      var before := log[..|log| - 1];
      InLine(bus, store, events, before) && log <= Plan(bus, events + PublishedBy(bus, store, before))
  }

  /** Working off `events` has run `done`, all successfully, and `due` waits. */
  ghost predicate Underway(bus: Bus, store: Store, events: seq<Event>, done: seq<Dispatch>, due: seq<Dispatch>) {
    && Succeeds(bus, store, done) && InLine(bus, store, events, done)
    && done + due == Plan(bus, events + PublishedBy(bus, store, done))
  }

  /** Working off `events`, and everything that publishes, takes exactly this log. */
  ghost predicate Completes(bus: Bus, store: Store, events: seq<Event>, log: seq<Dispatch>) {
    Underway(bus, store, events, log, [])
  }

  /** One more handler succeeds. */
  lemma OneMore(bus: Bus, store: Store, events: seq<Event>, done: seq<Dispatch>, due: seq<Dispatch>, rows: Store,
    published: seq<Event>)
    requires Underway(bus, store, events, done, due) && due != []
    requires bus.run(due[0].handler, Replay(bus, store, done), due[0].event) == Ok(rows, published)
    ensures var next := done + [due[0]];
      && Underway(bus, store, events, next, due[1..] + Plan(bus, published)) && Replay(bus, store, next) == rows
  {
    var before := PublishedBy(bus, store, done);
    LogSnoc(bus, store, done, due[0], rows, published);
    assert events + (before + published) == events + before + published;
    PlanConcat(bus, events + before, published);
    NextInLine(bus, store, events, done, due);
    MoveOver(done, due, Plan(bus, published));
  }

  lemma NextInLine(bus: Bus, store: Store, events: seq<Event>, done: seq<Dispatch>, due: seq<Dispatch>)
    requires Underway(bus, store, events, done, due) && due != []
    ensures InLine(bus, store, events, done + [due[0]])
  {
    assert (done + [due[0]])[..|done|] == done;
    assert done + [due[0]] <= done + due;
  }

  lemma MoveOver(done: seq<Dispatch>, due: seq<Dispatch>, more: seq<Dispatch>)
    requires due != []
    ensures done + [due[0]] + (due[1..] + more) == done + due + more
  {
  }

  lemma LogSnoc(bus: Bus, store: Store, log: seq<Dispatch>, d: Dispatch, rows: Store, published: seq<Event>)
    requires bus.run(d.handler, Replay(bus, store, log), d.event) == Ok(rows, published)
    ensures Replay(bus, store, log + [d]) == rows
    ensures PublishedBy(bus, store, log + [d]) == PublishedBy(bus, store, log) + published
    ensures Succeeds(bus, store, log + [d]) <==> Succeeds(bus, store, log)
  {
    assert (log + [d])[..|log|] == log;
  }

  /** The first |done| dispatches succeed and the next one is refused: as a cycle when the cap is spent,
      otherwise because its handler raises. */
  ghost predicate FailsAt(bus: Bus, cap: nat, store: Store, events: seq<Event>, done: seq<Dispatch>,
    due: seq<Dispatch>, error: Error)
  {
    && Underway(bus, store, events, done, due) && due != [] && |done| <= cap
    && if |done| == cap then error == CycleDetected
       else error == HandlerRaised && bus.run(due[0].handler, Replay(bus, store, done), due[0].event).Raised?
  }

  ghost predicate Fails(bus: Bus, cap: nat, store: Store, events: seq<Event>, error: Error) {
    exists done, due :: FailsAt(bus, cap, store, events, done, due, error)
  }

  /** How a drain ends. */
  ghost predicate Ends(bus: Bus, cap: nat, store: Store, events: seq<Event>, r: Result<Progress>) {
    match r
    case Failure(error) => Fails(bus, cap, store, events, error)
    case Success(p) =>
      Completes(bus, store, events, p.log) && |p.log| <= cap && p.store == Replay(bus, store, p.log) && p.buffer == []
  }

  lemma DueAfter(event: Event, handlers: seq<HandlerId>, waiting: seq<Dispatch>, more: seq<Dispatch>)
    requires handlers != []
    ensures var due := Dispatches(event, handlers) + waiting;
      due[1..] + more == Dispatches(event, handlers[1..]) + (waiting + more)
  {
    assert Dispatches(event, handlers) == [Dispatch(event, handlers[0])] + Dispatches(event, handlers[1..]);
  }

  lemma {:induction false} HandleAllEnds(bus: Bus, cap: nat, handlers: seq<HandlerId>, event: Event, p: Progress,
    store: Store, events: seq<Event>)
    requires Underway(bus, store, events, p.log, Dispatches(event, handlers) + Plan(bus, p.buffer))
    requires p.store == Replay(bus, store, p.log) && |p.log| <= cap
    ensures match HandleAll(bus, cap, handlers, event, p)
      case Failure(error) => Fails(bus, cap, store, events, error)
      case Success(next) =>
        && Underway(bus, store, events, next.log, Plan(bus, next.buffer))
        && next.store == Replay(bus, store, next.log) && |next.log| <= cap
    decreases |handlers|
  {
    var due := Dispatches(event, handlers) + Plan(bus, p.buffer);
    if handlers == [] {
      assert due == Plan(bus, p.buffer);
    } else {
      assert due[0] == Dispatch(event, handlers[0]);
      var o := bus.run(handlers[0], p.store, event);
      if |p.log| == cap {
        assert FailsAt(bus, cap, store, events, p.log, due, CycleDetected);
      } else if o.Raised? {
        assert FailsAt(bus, cap, store, events, p.log, due, HandlerRaised);
      } else {
        OneMore(bus, store, events, p.log, due, o.store, o.published);
        PlanConcat(bus, p.buffer, o.published);
        DueAfter(event, handlers, Plan(bus, p.buffer), Plan(bus, o.published));
        HandleAllEnds(bus, cap, handlers[1..], event, Advance(p, event, handlers[0], o.store, o.published), store,
          events);
      }
    }
  }

  lemma {:induction false} DrainEnds(bus: Bus, cap: nat, p: Progress, store: Store, events: seq<Event>)
    requires Underway(bus, store, events, p.log, Plan(bus, p.buffer))
    requires p.store == Replay(bus, store, p.log) && |p.log| <= cap
    ensures Ends(bus, cap, store, events, Drain(bus, cap, p))
    decreases cap - |p.log|, |p.buffer|
  {
    if p.buffer != [] {
      var event, q := p.buffer[0], p.(buffer := p.buffer[1..]);
      var handlers := HandlersFor(bus, event.key);
      HandleAllEnds(bus, cap, handlers, event, q, store, events);
      var r := HandleAll(bus, cap, handlers, event, q);
      if r.Success? {
        DrainEnds(bus, cap, r.value, store, events);
      }
    }
  }

  lemma {:induction false} PlanGrows(bus: Bus, store: Store, events: seq<Event>, log: seq<Dispatch>, k: nat)
    requires k < |log| && InLine(bus, store, events, log)
    ensures InLine(bus, store, events, log[..k]) && InLine(bus, store, events, log[..k + 1])
    ensures log[..k + 1] <= Plan(bus, events + PublishedBy(bus, store, log[..k]))
  {
    var n := |log| - 1;
    if k == n {
      assert log[..k + 1] == log;
    } else {
      PlanGrows(bus, store, events, log[..n], k);
      assert log[..n][..k] == log[..k] && log[..n][..k + 1] == log[..k + 1];
    }
  }

  lemma NextAgrees(bus: Bus, store: Store, events: seq<Event>, a: seq<Dispatch>, b: seq<Dispatch>, k: nat)
    requires InLine(bus, store, events, a) && InLine(bus, store, events, b) && k < |a| && k < |b|
    requires a[..k] == b[..k]
    ensures a[k] == b[k]
  {
    PlanGrows(bus, store, events, a, k);
    PlanGrows(bus, store, events, b, k);
    var plan := Plan(bus, events + PublishedBy(bus, store, a[..k]));
    assert a[..k + 1][k] == plan[k] == b[..k + 1][k];
  }

  /** The order leaves no choice: two logs in line agree as far as both go. */
  lemma {:induction false} SameStart(bus: Bus, store: Store, events: seq<Event>, a: seq<Dispatch>, b: seq<Dispatch>,
    n: nat)
    requires InLine(bus, store, events, a) && InLine(bus, store, events, b) && n <= |a| && n <= |b|
    ensures a[..n] == b[..n]
  {
    if n > 0 {
      SameStart(bus, store, events, a, b, n - 1);
      NextAgrees(bus, store, events, a, b, n - 1);
      assert a[..n] == a[..n - 1] + [a[n - 1]] && b[..n] == b[..n - 1] + [b[n - 1]];
    }
  }

  lemma {:induction false} SucceedsAt(bus: Bus, store: Store, log: seq<Dispatch>, k: nat)
    requires k < |log| && Succeeds(bus, store, log)
    ensures bus.run(log[k].handler, Replay(bus, store, log[..k]), log[k].event).Ok?
  {
    var n := |log| - 1;
    if k < n {
      SucceedsAt(bus, store, log[..n], k);
      assert log[..n][..k] == log[..k];
    }
  }

  /** A log underway never goes past a complete one. */
  lemma CompleteIsLongest(bus: Bus, store: Store, events: seq<Event>, log: seq<Dispatch>, done: seq<Dispatch>,
    due: seq<Dispatch>)
    requires Completes(bus, store, events, log) && Underway(bus, store, events, done, due)
    ensures |done| <= |log| && done == log[..|done|] && (due == [] <==> |done| == |log|)
  {
    if |log| < |done| {
      SameStart(bus, store, events, log, done, |log|);
      assert done[..|log|] == log;
      PlanGrows(bus, store, events, done, |log|);
    }
    SameStart(bus, store, events, log, done, |done|);
    if |done| < |log| {
      PlanGrows(bus, store, events, log, |done|);
    } else {
      assert done == log;
    }
  }

  /** So no drain both completes within the cap and fails, and it completes in one way only. */
  lemma CompleteNeverFails(bus: Bus, cap: nat, store: Store, events: seq<Event>, log: seq<Dispatch>)
    requires Completes(bus, store, events, log) && |log| <= cap
    ensures forall error :: !Fails(bus, cap, store, events, error)
  {
    forall done, due, error ensures !FailsAt(bus, cap, store, events, done, due, error) {
      if FailsAt(bus, cap, store, events, done, due, error) {
        CompleteIsLongest(bus, store, events, log, done, due);
        PlanGrows(bus, store, events, log, |done|);
        assert log[..|done| + 1][|done|] == (done + due)[|done|];
        SucceedsAt(bus, store, log, |done|);
      }
    }
  }

  /** The drain succeeds if and only if some log of at most `cap` dispatches works off the buffer and all
      it publishes; it returns that log, there is no other, and the rows are the log replayed. Otherwise
      it stops at the first dispatch in line that raises or exceeds the cap. */
  lemma DrainExactly(bus: Bus, cap: nat, store: Store, events: seq<Event>)
    ensures var r := Drain(bus, cap, Progress(store, events, []));
      && Ends(bus, cap, store, events, r)
      && (forall log :: Completes(bus, store, events, log) && |log| <= cap ==> r.Success? && r.value.log == log)
  {
    var r := Drain(bus, cap, Progress(store, events, []));
    assert events + PublishedBy(bus, store, []) == events;
    DrainEnds(bus, cap, Progress(store, events, []), store, events);
    forall log | Completes(bus, store, events, log) && |log| <= cap ensures r.Success? && r.value.log == log {
      CompleteNeverFails(bus, cap, store, events, log);
      CompleteIsLongest(bus, store, events, log, r.value.log, []);
    }
  }

  // ---- Level order ------------------------------------------------------------------------

  /** One whole level of the publish forest; what its handlers publish is collected in the buffer. */
  function RunLevel(bus: Bus, cap: nat, events: seq<Event>, p: Progress): Result<Progress>
    decreases |events|
  {
    if events == [] then Success(p)
    else match HandleAll(bus, cap, HandlersFor(bus, events[0].key), events[0], p)
      case Failure(error) => Failure(error)
      case Success(next) => RunLevel(bus, cap, events[1..], next)
  }

  /** The levels of the publish forest: each level after the first is everything the handlers of the
      previous level published, run on the rows they found. */
  ghost predicate IsForest(bus: Bus, store: Store, first: seq<Event>, levels: seq<seq<Event>>)
    decreases |levels|
  {
    if levels == [] then first == []
    else
      && first != [] && levels[0] == first
      && var log := Plan(bus, first);
         IsForest(bus, Replay(bus, store, log), PublishedBy(bus, store, log), levels[1..])
  }

  function FlattenPlans(bus: Bus, levels: seq<seq<Event>>): seq<Dispatch> {
    if levels == [] then [] else Plan(bus, levels[0]) + FlattenPlans(bus, levels[1..])
  }

  /** p after a log has run on it. */
  predicate RanOn(bus: Bus, p: Progress, log: seq<Dispatch>, next: Progress) {
    && Succeeds(bus, p.store, log) && next.log == p.log + log
    && next.store == Replay(bus, p.store, log) && next.buffer == p.buffer + PublishedBy(bus, p.store, log)
  }

  lemma RanThen(bus: Bus, p: Progress, a: seq<Dispatch>, q: Progress, b: seq<Dispatch>, r: Progress)
    requires RanOn(bus, p, a, q) && RanOn(bus, q, b, r)
    ensures RanOn(bus, p, a + b, r)
  {
    LogConcat(bus, p.store, a, b);
  }

  lemma RanOne(bus: Bus, p: Progress, event: Event, handler: HandlerId, rows: Store, published: seq<Event>)
    requires bus.run(handler, p.store, event) == Ok(rows, published)
    ensures RanOn(bus, p, [Dispatch(event, handler)], Advance(p, event, handler, rows, published))
  {
    var log := [Dispatch(event, handler)];
    assert log[..|log| - 1] == [];
    assert RunLast(bus, p.store, log) == Ok(rows, published);
    assert PublishedBy(bus, p.store, log) == [] + published == published;
  }

  /** One event's handlers succeed exactly when all do and the cap leaves room for them. */
  lemma {:induction false} HandleAllRuns(bus: Bus, cap: nat, handlers: seq<HandlerId>, event: Event, p: Progress)
    ensures var r := HandleAll(bus, cap, handlers, event, p); var log := Dispatches(event, handlers);
      && (r.Success? ==> RanOn(bus, p, log, r.value))
      && (Succeeds(bus, p.store, log) && |p.log| + |log| <= cap ==> r.Success?)
    decreases |handlers|
  {
    var log := Dispatches(event, handlers);
    if handlers == [] {
      assert p.buffer + PublishedBy(bus, p.store, log) == p.buffer && p.log + log == p.log;
    } else {
      var d := Dispatch(event, handlers[0]);
      assert log == [d] + Dispatches(event, handlers[1..]);
      LogConcat(bus, p.store, [d], Dispatches(event, handlers[1..]));
      assert [d][..0] == [];
      assert RunLast(bus, p.store, [d]) == bus.run(handlers[0], p.store, event);
      var o := bus.run(handlers[0], p.store, event);
      if o.Ok? {
        var q := Advance(p, event, handlers[0], o.store, o.published);
        RanOne(bus, p, event, handlers[0], o.store, o.published);
        HandleAllRuns(bus, cap, handlers[1..], event, q);
        var r := HandleAll(bus, cap, handlers[1..], event, q);
        if r.Success? { RanThen(bus, p, [d], q, Dispatches(event, handlers[1..]), r.value); }
      }
    }
  }

  lemma {:induction false} RunLevelRuns(bus: Bus, cap: nat, events: seq<Event>, p: Progress)
    ensures var r := RunLevel(bus, cap, events, p); var log := Plan(bus, events);
      && (r.Success? ==> RanOn(bus, p, log, r.value))
      && (Succeeds(bus, p.store, log) && |p.log| + |log| <= cap ==> r.Success?)
    decreases |events|
  {
    if events == [] {
      assert p.buffer + PublishedBy(bus, p.store, []) == p.buffer && p.log + [] == p.log;
    } else {
      var handlers := HandlersFor(bus, events[0].key);
      var one, rest := Dispatches(events[0], handlers), Plan(bus, events[1..]);
      HandleAllRuns(bus, cap, handlers, events[0], p);
      LogConcat(bus, p.store, one, rest);
      var r := HandleAll(bus, cap, handlers, events[0], p);
      if r.Success? {
        RunLevelRuns(bus, cap, events[1..], r.value);
        var s := RunLevel(bus, cap, events[1..], r.value);
        if s.Success? { RanThen(bus, p, one, r.value, rest, s.value); }
      }
    }
  }

  lemma {:induction false} LevelWithinCap(bus: Bus, cap: nat, events: seq<Event>, p: Progress)
    requires RunLevel(bus, cap, events, p).Success?
    ensures var next := RunLevel(bus, cap, events, p).value;
      |next.log| >= |p.log| && (next == p || |p.log| < |next.log| <= cap)
    decreases |events|
  {
    if events != [] {
      LevelWithinCap(bus, cap, events[1..], HandleAll(bus, cap, HandlersFor(bus, events[0].key), events[0], p).value);
    }
  }

  /** Handlers only append to the buffer, so a waiting prefix does not change what they do. */
  lemma {:induction false} HandleAllFrame(bus: Bus, cap: nat, handlers: seq<HandlerId>, event: Event, p: Progress,
    front: seq<Event>)
    ensures var r := HandleAll(bus, cap, handlers, event, p);
      var s := HandleAll(bus, cap, handlers, event, p.(buffer := front + p.buffer));
      if r.Success? then s == Success(r.value.(buffer := front + r.value.buffer)) else s == r
    decreases |handlers|
  {
    if handlers != [] && |p.log| < cap {
      var o := bus.run(handlers[0], p.store, event);
      if o.Ok? {
        HandleAllFrame(bus, cap, handlers[1..], event, Advance(p, event, handlers[0], o.store, o.published), front);
        assert front + p.buffer + o.published == front + (p.buffer + o.published);
      }
    }
  }

  /** Draining a buffer works off its current events as a level, then drains what they published. */
  lemma {:induction false} DrainLevel(bus: Bus, cap: nat, events: seq<Event>, p: Progress)
    ensures Drain(bus, cap, p.(buffer := events + p.buffer)) ==
      match RunLevel(bus, cap, events, p) case Failure(error) => Failure(error) case Success(next) =>
        Drain(bus, cap, next)
    decreases |events|
  {
    if events == [] {
      assert events + p.buffer == p.buffer;
    } else {
      var handlers := HandlersFor(bus, events[0].key);
      HandleAllFrame(bus, cap, handlers, events[0], p, events[1..]);
      assert (events + p.buffer)[1..] == events[1..] + p.buffer;
      var r := HandleAll(bus, cap, handlers, events[0], p);
      if r.Success? {
        DrainLevel(bus, cap, events[1..], r.value);
      }
    }
  }

  lemma DrainByLevel(bus: Bus, cap: nat, p: Progress)
    ensures var r := RunLevel(bus, cap, p.buffer, p.(buffer := []));
      Drain(bus, cap, p) == if r.Success? then Drain(bus, cap, r.value) else r
  {
    var q := p.(buffer := []);
    assert q.(buffer := p.buffer + q.buffer) == p;
    DrainLevel(bus, cap, p.buffer, q);
  }

  lemma ForestCons(bus: Bus, store: Store, first: seq<Event>, rest: seq<seq<Event>>)
    requires first != []
    requires IsForest(bus, Replay(bus, store, Plan(bus, first)), PublishedBy(bus, store, Plan(bus, first)), rest)
    ensures IsForest(bus, store, first, [first] + rest)
    ensures FlattenPlans(bus, [first] + rest) == Plan(bus, first) + FlattenPlans(bus, rest)
  {
    assert ([first] + rest)[1..] == rest;
  }

  lemma NextLevel(bus: Bus, cap: nat, p: Progress) returns (next: Progress)
    requires Drain(bus, cap, p).Success? && p.buffer != []
    ensures Drain(bus, cap, next) == Drain(bus, cap, p)
    ensures RanOn(bus, p.(buffer := []), Plan(bus, p.buffer), next)
    ensures next.buffer == PublishedBy(bus, p.store, Plan(bus, p.buffer))
    ensures (next.buffer == [] && |next.log| == |p.log|) || |p.log| < |next.log| <= cap
  {
    var q := p.(buffer := []);
    DrainByLevel(bus, cap, p);
    RunLevelRuns(bus, cap, p.buffer, q);
    LevelWithinCap(bus, cap, p.buffer, q);
    next := RunLevel(bus, cap, p.buffer, q).value;
    assert [] + PublishedBy(bus, p.store, Plan(bus, p.buffer)) == PublishedBy(bus, p.store, Plan(bus, p.buffer));
  }

  /** These are the levels of the publish forest, every handler of them succeeded, and p ended as `end`:
      their plans were run level by level, events in publish order, handlers in registration order. */
  ghost predicate WorkedOff(bus: Bus, p: Progress, levels: seq<seq<Event>>, end: Progress) {
    var log := FlattenPlans(bus, levels);
    && IsForest(bus, p.store, p.buffer, levels) && Succeeds(bus, p.store, log)
    && end == Progress(Replay(bus, p.store, log), [], p.log + log)
  }

  lemma WorkedOffCons(bus: Bus, p: Progress, next: Progress, rest: seq<seq<Event>>, end: Progress)
    requires p.buffer != [] && RanOn(bus, p.(buffer := []), Plan(bus, p.buffer), next)
    requires next.buffer == PublishedBy(bus, p.store, Plan(bus, p.buffer)) && WorkedOff(bus, next, rest, end)
    ensures WorkedOff(bus, p, [p.buffer] + rest, end)
  {
    var log, more := Plan(bus, p.buffer), FlattenPlans(bus, rest);
    ForestCons(bus, p.store, p.buffer, rest);
    LogConcat(bus, p.store, log, more);
    assert p.log + log + more == p.log + (log + more);
  }

  lemma {:induction false} LevelsOf(bus: Bus, cap: nat, p: Progress) returns (levels: seq<seq<Event>>)
    requires Drain(bus, cap, p).Success?
    ensures WorkedOff(bus, p, levels, Drain(bus, cap, p).value)
    decreases cap - |p.log|, |p.buffer|
  {
    if p.buffer == [] {
      levels := [];
      assert p.log + [] == p.log;
    } else {
      var next := NextLevel(bus, cap, p);
      var rest := LevelsOf(bus, cap, next);
      WorkedOffCons(bus, p, next, rest, Drain(bus, cap, p).value);
      levels := [p.buffer] + rest;
    }
  }

  lemma {:induction false} ForestDrains(bus: Bus, cap: nat, p: Progress, levels: seq<seq<Event>>)
    requires IsForest(bus, p.store, p.buffer, levels) && Succeeds(bus, p.store, FlattenPlans(bus, levels))
    requires |p.log| + |FlattenPlans(bus, levels)| <= cap
    ensures Drain(bus, cap, p).Success?
    decreases |levels|
  {
    if levels != [] {
      var q, log := p.(buffer := []), Plan(bus, p.buffer);
      DrainByLevel(bus, cap, p);
      RunLevelRuns(bus, cap, p.buffer, q);
      LogConcat(bus, p.store, log, FlattenPlans(bus, levels[1..]));
      var next := RunLevel(bus, cap, p.buffer, q).value;
      assert next.buffer == PublishedBy(bus, p.store, log);
      ForestDrains(bus, cap, next, levels[1..]);
    }
  }

  /** The FIFO drain succeeds exactly when the publish forest can be worked off level by level, every
      handler succeeding within the cap, and then handlers ran in level order: level by level, events in
      publish order, handlers in registration order. */
  lemma DrainIsLevelOrder(bus: Bus, cap: nat, p: Progress)
    ensures Drain(bus, cap, p).Success? ==> exists levels :: WorkedOff(bus, p, levels, Drain(bus, cap, p).value)
    ensures Drain(bus, cap, p).Failure? ==> forall levels :: IsForest(bus, p.store, p.buffer, levels) ==>
      !(Succeeds(bus, p.store, FlattenPlans(bus, levels)) && |p.log| + |FlattenPlans(bus, levels)| <= cap)
  {
    if Drain(bus, cap, p).Success? {
      var levels := LevelsOf(bus, cap, p);
    } else {
      forall levels | IsForest(bus, p.store, p.buffer, levels)
        ensures !(Succeeds(bus, p.store, FlattenPlans(bus, levels)) && |p.log| + |FlattenPlans(bus, levels)| <= cap)
      {
        if Succeeds(bus, p.store, FlattenPlans(bus, levels)) && |p.log| + |FlattenPlans(bus, levels)| <= cap {
          ForestDrains(bus, cap, p, levels);
        }
      }
    }
  }

  lemma FirstLevelFirst(bus: Bus, cap: nat, p: Progress)
    requires Drain(bus, cap, p).Success?
    ensures p.log + Plan(bus, p.buffer) <= Drain(bus, cap, p).value.log
  {
    var levels := LevelsOf(bus, cap, p);
  }

  lemma PlanSnoc(bus: Bus, events: seq<Event>, event: Event)
    ensures Plan(bus, events + [event]) == Plan(bus, events) + PlanOne(bus, event)
  {
    PlanConcat(bus, events, [event]);
    assert [event][1..] == [];
    assert Plan(bus, [event]) == PlanOne(bus, event) + Plan(bus, []);
  }

  /** A published event waits its turn: in a drain that succeeds, the handlers of everything published
      before it run first, then its own in registration order, then whatever any of them published. */
  lemma PublishedWaitsItsTurn(bus: Bus, cap: nat, p: Progress, event: Event)
    requires Drain(bus, cap, p.(buffer := p.buffer + [event])).Success?
    ensures p.log + (Plan(bus, p.buffer) + PlanOne(bus, event)) <=
      Drain(bus, cap, p.(buffer := p.buffer + [event])).value.log
  {
    FirstLevelFirst(bus, cap, p.(buffer := p.buffer + [event]));
    PlanSnoc(bus, p.buffer, event);
  }

  // ---- The cap ----------------------------------------------------------------------------

  lemma {:induction false} HandleAllCap(bus: Bus, c: nat, d: nat, handlers: seq<HandlerId>, event: Event, p: Progress)
    requires HandleAll(bus, c, handlers, event, p).Success?
    ensures |HandleAll(bus, c, handlers, event, p).value.log| <= d ==>
      HandleAll(bus, d, handlers, event, p) == HandleAll(bus, c, handlers, event, p)
    ensures |HandleAll(bus, c, handlers, event, p).value.log| > d && |p.log| <= d ==>
      HandleAll(bus, d, handlers, event, p) == Failure(CycleDetected)
    decreases |handlers|
  {
    if handlers != [] {
      var o := bus.run(handlers[0], p.store, event);
      HandleAllCap(bus, c, d, handlers[1..], event, Advance(p, event, handlers[0], o.store, o.published));
    }
  }

  /** A drain that completes in k dispatches completes the same way under every cap of at least k, and
      is refused as a cycle under every smaller cap. */
  lemma {:induction false} CapOnlyCountsDispatches(bus: Bus, c: nat, d: nat, p: Progress)
    requires Drain(bus, c, p).Success?
    ensures |p.log| <= |Drain(bus, c, p).value.log|
    ensures |Drain(bus, c, p).value.log| <= d ==> Drain(bus, d, p) == Drain(bus, c, p)
    ensures |p.log| <= d < |Drain(bus, c, p).value.log| ==> Drain(bus, d, p) == Failure(CycleDetected)
    decreases c - |p.log|, |p.buffer|
  {
    if p.buffer != [] {
      var event := p.buffer[0];
      var handlers := HandlersFor(bus, event.key);
      var q := p.(buffer := p.buffer[1..]);
      HandleAllCap(bus, c, d, handlers, event, q);
      CapOnlyCountsDispatches(bus, c, d, HandleAll(bus, c, handlers, event, q).value);
    }
  }

  /** The publish cascade of this buffer finishes, every handler succeeding, after `count` dispatches. */
  ghost predicate FinishesIn(bus: Bus, store: Store, buffer: seq<Event>, count: nat) {
    exists log :: Completes(bus, store, buffer, log) && |log| == count
  }

  /** The capped drain succeeds if and only if the cascade finishes at all in at most 50 dispatches. */
  lemma DrainsIffFinishes(bus: Bus, store: Store, buffer: seq<Event>)
    ensures Drain(bus, MAX_DISPATCHES_PER_UOW, Progress(store, buffer, [])).Success? <==>
      exists count :: 0 <= count <= 50 && FinishesIn(bus, store, buffer, count)
  {
    DrainExactly(bus, MAX_DISPATCHES_PER_UOW, store, buffer);
    var r := Drain(bus, MAX_DISPATCHES_PER_UOW, Progress(store, buffer, []));
    if r.Success? {
      assert FinishesIn(bus, store, buffer, |r.value.log|);
    }
  }

  // ---- The session ------------------------------------------------------------------------

  /** Registration: setdefault(key, []).append(handler). */
  class Registry {
    var subscriptions: map<string, seq<HandlerId>>

    constructor ()
      ensures subscriptions == map[]
    {
      subscriptions := map[];
    }

    method Subscribe(key: string, handler: HandlerId)
      modifies this
      ensures subscriptions.Keys == old(subscriptions).Keys + {key}
      ensures subscriptions[key] == (if key in old(subscriptions) then old(subscriptions)[key] else []) + [handler]
      ensures forall k :: k in old(subscriptions) && k != key ==> subscriptions[k] == old(subscriptions)[k]
    {
      subscriptions := subscriptions[key := (if key in subscriptions then subscriptions[key] else []) + [handler]];
    }
  }

  /** A database session: committed rows, this transaction's rows, and the event buffer. */
  class Session {
    var committed: Store
    var working: Store
    var buffer: seq<Event>

    constructor (rows: Store)
      ensures committed == working == rows && buffer == []
    {
      committed, working, buffer := rows, rows, [];
    }

    method Publish(event: Event)
      modifies this`buffer
      ensures buffer == old(buffer) + [event]
    {
      buffer := buffer + [event];
    }

    /** Works off the buffer in line and leaves the rows of the returned log's replay, or reports how the
        first dispatch that could not succeed failed. */
    method DrainAndDispatch(bus: Bus) returns (r: Result<seq<Dispatch>>)
      modifies this`working, this`buffer
      ensures match r
        case Failure(error) => Fails(bus, 50, old(working), old(buffer), error)
        case Success(log) =>
          && Completes(bus, old(working), old(buffer), log) && |log| <= 50
          && working == Replay(bus, old(working), log) && buffer == []
      ensures var d := Drain(bus, MAX_DISPATCHES_PER_UOW, Progress(old(working), old(buffer), []));
        match d
        case Failure(error) => r == Failure(error)
        case Success(p) => r == Success(p.log) && working == p.store && buffer == []
    {
      DrainExactly(bus, MAX_DISPATCHES_PER_UOW, working, buffer);
      var log: seq<Dispatch> := [];
      var dispatched := 0;
      ghost var goal := Drain(bus, MAX_DISPATCHES_PER_UOW, Progress(working, buffer, []));
      while buffer != []
        invariant dispatched == |log|
        invariant goal == Drain(bus, MAX_DISPATCHES_PER_UOW, Progress(working, buffer, log))
        decreases MAX_DISPATCHES_PER_UOW - dispatched, |buffer|
      {
        var event := buffer[0];
        buffer := buffer[1..];
        var handlers := HandlersFor(bus, event.key);
        ghost var handled := HandleAll(bus, MAX_DISPATCHES_PER_UOW, handlers, event, Progress(working, buffer, log));
        ghost var before := dispatched;
        var i := 0;
        while i < |handlers|
          invariant 0 <= i <= |handlers| && dispatched == |log| == before + i
          invariant handled ==
            HandleAll(bus, MAX_DISPATCHES_PER_UOW, handlers[i..], event, Progress(working, buffer, log))
          invariant i > 0 ==> before < MAX_DISPATCHES_PER_UOW
        {
          if dispatched >= MAX_DISPATCHES_PER_UOW {
            return Failure(CycleDetected);
          }
          var outcome := bus.run(handlers[i], working, event);
          if outcome.Raised? {
            return Failure(HandlerRaised);
          }
          assert handlers[i..][1..] == handlers[i + 1..];
          working, buffer := outcome.store, buffer + outcome.published;
          log := log + [Dispatch(event, handlers[i])];
          dispatched := dispatched + 1;
          i := i + 1;
        }
      }
      r := Success(log);
    }

    /** run_in_uow: all or nothing, and the buffer ends empty either way. `commits` says whether the
        database accepts the commit. */
    method RunInUow(bus: Bus, work: Store -> Outcome, commits: bool) returns (r: Result<seq<Dispatch>>)
      modifies this
      ensures buffer == [] && working == committed
      ensures var o := work(old(working));
        if o.Ok? then
          var d := Drain(bus, MAX_DISPATCHES_PER_UOW, Progress(o.store, old(buffer) + o.published, []));
          if d.Success? && commits then r == Success(d.value.log) && committed == d.value.store
          else committed == old(committed) && r == Failure(if d.Failure? then d.error else CommitFailed)
        else committed == old(committed) && r == Failure(WorkRaised)
      ensures var o := work(old(working));
        match r
        case Success(log) =>
          && commits && o.Ok? && Completes(bus, o.store, old(buffer) + o.published, log) && |log| <= 50
          && committed == Replay(bus, o.store, log)
        case Failure(error) =>
          && committed == old(committed)
          && if o.Raised? then error == WorkRaised
             else if error == CommitFailed then
               !commits && exists log :: Completes(bus, o.store, old(buffer) + o.published, log) && |log| <= 50
             else Fails(bus, 50, o.store, old(buffer) + o.published, error)
    {
      var outcome := work(working);
      if outcome.Raised? {
        r := Failure(WorkRaised);
      } else {
        working, buffer := outcome.store, buffer + outcome.published;
        r := DrainAndDispatch(bus);
        if r.Success? {
          if commits {
            committed := working;
          } else {
            r := Failure(CommitFailed);
          }
        }
      }
      if r.Failure? {
        working := committed;
        buffer := [];
      }
    }
  }
}
