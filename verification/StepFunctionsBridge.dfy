/** Ownership of accepted Lambda calls in the Step Functions bridge: a port that
    queues synchronously and one manager that owns every started call until its
    cleanup is certain. Permits are indistinguishable and therefore counted. */
module StepFunctionsBridge {
  import opened Wrappers
  import opened Ownership

  datatype State = State(
    capacity: nat,
    available: nat,            // permits in the semaphore
    holding: set<Call>,        // callers between acquiring and sending
    queue: seq<Call>,          // submissions in the channel, a permit in each
    queueClosed: bool,
    accepting: bool,
    stop: bool,                // the cancellation the supervisor requests
    jobs: set<Job>,            // workers spawned and not joined
    active: map<Job, Call>,    // the permit kept for each worker
    quarantine: nat,           // permits withheld for uncertain cleanup
    unhealthy: bool,
    outcome: Option<bool>,     // the manager has returned: Ok or Err
    dropped: bool,             // the manager is gone, its state freed or leaked
    known: set<Call>,          // history: calls that ever held a permit
    submitted: set<Call>,      // history: calls whose submission was sent
    started: multiset<Call>,   // history: calls given to a worker
    rejected: multiset<Call>   // history: submissions answered by the manager
  )
  {
    predicate Running() { outcome.None? && !dropped }

    /** `owned_calls`: accepted minus available, saturating. */
    function OwnedCalls(): nat {
      if available <= capacity then capacity - available else 0
    }
  }

  function Initial(capacity: nat): State {
    State(capacity, capacity, {}, [], false, true, false, {}, map[], 0, false, None, false, {}, {}, multiset{},
          multiset{})
  }

  datatype Event =
    | Admit(call: Call)                  // checks passed, permit acquired
    | Submit(call: Call)                 // try_send
    | Close                              // the supervisor stops the bridge
    | PortsGone                          // the last port is dropped
    | ObserveStop                        // the manager notices the stop
    | Start(job: Job)                    // the manager receives a submission
    | Finish(job: Job, uncertain: bool)  // a worker exits
    | Fail(job: Job)                     // a worker panicked or was cancelled
    | Return                             // the manager returns
    | Drop                               // the manager is dropped, before that or after

  predicate Enabled(s: State, e: Event) {
    match e
    case Admit(c) => c !in s.known && s.accepting && !s.queueClosed && s.available > 0
    case Submit(c) => c in s.holding
    case Close => true
    case PortsGone => s.holding == {}
    case ObserveStop => s.Running() && s.stop
    case Start(j) => s.Running() && s.queue != [] && j !in s.jobs
    case Finish(j, _) => s.Running() && j in s.jobs
    case Fail(j) => s.Running() && j in s.jobs
    case Return => s.Running() && s.queueClosed && s.queue == [] && s.jobs == {}
    case Drop => !s.dropped
  }

  datatype Sent = Queued | Full | Closed

  function TrySend(s: State): Sent {
    if s.queueClosed then Closed else if |s.queue| >= s.capacity then Full else Queued
  }

  /** One turn of `reject_queued`: the responder is finished, the permit dropped. */
  function RejectOne(s: State): State
    requires s.queue != []
  {
    s.(queue := s.queue[1..], available := s.available + 1, rejected := s.rejected + multiset{s.queue[0]})
  }

  function RejectQueued(s: State): (t: State)
    ensures SameOwnership(s, t) && t.queue == []
    decreases |s.queue|
  {
    if s.queue == [] then s else RejectQueued(RejectOne(s))
  }

  function Unslotted(s: State, j: Job): State {
    s.(jobs := s.jobs - {j}, active := s.active - {j})
  }

  function Released(s: State): State { s.(available := s.available + 1) }

  function Withheld(s: State): State { s.(unhealthy := true, quarantine := s.quarantine + 1) }

  /** The guard of the manager's drop: something is still owned. */
  predicate Retains(s: State) {
    s.jobs != {} || s.active != map[] || s.quarantine != 0
  }

  /** The manager's state is freed: every permit it owns goes back. */
  function Freed(s: State): State {
    s.(available := s.available + |s.active| + s.quarantine, jobs := {}, active := map[], quarantine := 0)
  }

  function Disposed(s: State): State {
    var left := if Retains(s) then s else Freed(s);
    left.(dropped := true)
  }

  function Step(s: State, e: Event): State
    requires Enabled(s, e)
  {
    match e
    case Admit(c) => s.(available := s.available - 1, holding := s.holding + {c}, known := s.known + {c})
    case Submit(c) =>
      if TrySend(s).Queued? then
        s.(holding := s.holding - {c}, queue := s.queue + [c], submitted := s.submitted + {c})
      else s.(holding := s.holding - {c}, available := s.available + 1)
    case Close => s.(accepting := false, stop := true)
    case PortsGone => s.(queueClosed := true)
    case ObserveStop => RejectQueued(s.(accepting := false, queueClosed := true))
    case Start(j) =>
      s.(queue := s.queue[1..], jobs := s.jobs + {j}, active := s.active[j := s.queue[0]],
         started := s.started + multiset{s.queue[0]})
    case Finish(j, uncertain) =>
      if j !in s.active then s.(jobs := s.jobs - {j})
      else if uncertain then Withheld(Unslotted(s, j)) else Released(Unslotted(s, j))
    case Fail(j) =>
      if j !in s.active then s.(jobs := s.jobs - {j}, unhealthy := true) else Withheld(Unslotted(s, j))
    case Return => s.(accepting := false, outcome := Some(s.quarantine == 0))
    case Drop => Disposed(RejectQueued(s.(accepting := false, queueClosed := true)))
  }

  // ---------------------------------------------------------------------
  // What every reachable state satisfies
  // ---------------------------------------------------------------------

  /** Each submission is queued, or was given to a worker once, or was rejected
      once: exactly one of the three. */
  ghost predicate Accounted(queue: seq<Call>, started: multiset<Call>, rejected: multiset<Call>, submitted: set<Call>) {
    && Distinct(queue)
    && forall c: Call ::
         started[c] + rejected[c] + (if c in queue then 1 else 0) == if c in submitted then 1 else 0
  }

  predicate Callers(holding: set<Call>, known: set<Call>, submitted: set<Call>) {
    holding <= known && submitted <= known && holding !! submitted
  }

  predicate Control(s: State) {
    && s.active.Keys == s.jobs
    && (s.unhealthy <==> s.quarantine > 0)
    && (s.stop ==> !s.accepting)
    && (s.outcome.Some? ==> s.queueClosed && s.queue == [] && s.jobs == {} && !s.accepting &&
                            (s.outcome.value <==> s.quarantine == 0))
    && (s.dropped ==> s.queueClosed && s.queue == [] && !s.accepting)
  }

  /** `loose` permits are in the manager's hand. */
  predicate PermitsConserved(s: State, loose: nat) {
    s.available + |s.holding| + |s.queue| + |s.active| + s.quarantine + loose == s.capacity
  }

  ghost predicate Inv(s: State) { InvWith(s, 0) }

  ghost predicate InvWith(s: State, loose: nat) {
    && PermitsConserved(s, loose)
    && Accounted(s.queue, s.started, s.rejected, s.submitted)
    && Callers(s.holding, s.known, s.submitted)
    && Control(s)
  }

  lemma FullUnreachable(s: State, c: Call)
    requires Inv(s) && c in s.holding
    ensures !TrySend(s).Full?
  {}

  lemma HeadSettled(queue: seq<Call>, started: multiset<Call>, rejected: multiset<Call>, submitted: set<Call>)
    requires Accounted(queue, started, rejected, submitted) && queue != []
    ensures Accounted(queue[1..], started + multiset{queue[0]}, rejected, submitted)
    ensures Accounted(queue[1..], started, rejected + multiset{queue[0]}, submitted)
  {}

  lemma RejectOneKeeps(s: State)
    requires Inv(s) && s.queue != []
    ensures Inv(RejectOne(s))
  {}

  lemma {:induction false} RejectQueuedKeeps(s: State)
    requires Inv(s)
    ensures Inv(RejectQueued(s))
    decreases |s.queue|
  {
    if s.queue != [] {
      RejectOneKeeps(s);
      RejectQueuedKeeps(RejectOne(s));
    }
  }

  /** Everything but the queue, the free permits and the rejections stays. */
  predicate SameOwnership(s: State, t: State) {
    && t.capacity == s.capacity && t.holding == s.holding
    && t.queueClosed == s.queueClosed && t.accepting == s.accepting
    && t.stop == s.stop && t.jobs == s.jobs && t.active == s.active && t.quarantine == s.quarantine
    && t.unhealthy == s.unhealthy && t.outcome == s.outcome && t.dropped == s.dropped
    && t.known == s.known && t.submitted == s.submitted && t.started == s.started
  }

  lemma {:induction false} RejectQueuedFrame(s: State)
    ensures RejectQueued(s).rejected == s.rejected + multiset(s.queue)
    ensures RejectQueued(s).available == s.available + |s.queue|
    decreases |s.queue|
  {
    if s.queue != [] {
      RejectQueuedFrame(RejectOne(s));
      AnswersOfQueue(s.rejected, s.queue);
    }
  }

  lemma StartKeeps(s: State, j: Job)
    requires Inv(s) && Enabled(s, Start(j))
    ensures Inv(Step(s, Start(j)))
  {
    HeadSettled(s.queue, s.started, s.rejected, s.submitted);
    AddToSlots(s.active, j, s.queue[0]);
  }

  lemma TakeKeeps(s: State, j: Job)
    requires Inv(s) && j in s.jobs
    ensures InvWith(Unslotted(s, j), 1)
  {}

  lemma SettlePermitKeeps(s: State)
    requires InvWith(s, 1) && s.outcome.None?
    ensures Inv(Withheld(s)) && Inv(Released(s))
  {}

  lemma ExitKeeps(s: State, e: Event)
    requires Inv(s) && Enabled(s, e) && (e.Finish? || e.Fail?)
    ensures Inv(Step(s, e))
  {
    TakeKeeps(s, e.job);
    SettlePermitKeeps(Unslotted(s, e.job));
  }

  lemma SubmitAccounted(queue: seq<Call>, started: multiset<Call>, rejected: multiset<Call>, submitted: set<Call>,
                        c: Call)
    requires Accounted(queue, started, rejected, submitted) && c !in submitted
    ensures Accounted(queue + [c], started, rejected, submitted + {c})
  {}

  lemma SubmitKeeps(s: State, c: Call)
    requires Inv(s) && c in s.holding
    ensures Inv(Step(s, Submit(c)))
  {
    FullUnreachable(s, c);
    assert |s.holding - {c}| == |s.holding| - 1;
    if !s.queueClosed { SubmitAccounted(s.queue, s.started, s.rejected, s.submitted, c); }
  }

  lemma ClosingKeeps(s: State, e: Event)
    requires Inv(s) && Enabled(s, e) && (e.ObserveStop? || e.Drop?)
    ensures Inv(Step(s, e))
    ensures Step(s, e).rejected == s.rejected + multiset(s.queue) && Step(s, e).queue == []
    ensures SameOwnership(s.(accepting := false, queueClosed := true, dropped := e.Drop?), Step(s, e))
  {
    var closed := s.(accepting := false, queueClosed := true);
    RejectQueuedKeeps(closed);
    RejectQueuedFrame(closed);
  }

  lemma StepKeeps(s: State, e: Event)
    requires Inv(s) && Enabled(s, e)
    ensures Inv(Step(s, e))
  {
    match e {
      case Admit(c) => assert |s.holding + {c}| == |s.holding| + 1;
      case Submit(c) => SubmitKeeps(s, c);
      case Start(j) => StartKeeps(s, j);
      case Finish(_, _) => ExitKeeps(s, e);
      case Fail(_) => ExitKeeps(s, e);
      case ObserveStop => ClosingKeeps(s, e);
      case Drop => ClosingKeeps(s, e);
      case _ =>
    }
  }

  /** Quarantine only grows, and withholds its permits for good; a closed bridge
      never accepts or starts again what it has settled. */
  ghost predicate Evolves(s: State, t: State) {
    && t.capacity == s.capacity && s.quarantine <= t.quarantine
    && s.started <= t.started && s.rejected <= t.rejected && s.submitted <= t.submitted
    && (s.unhealthy ==> t.unhealthy) && (s.queueClosed ==> t.queueClosed && t.submitted == s.submitted)
    && (!s.accepting ==> !t.accepting) && (s.stop ==> t.stop)
    && (s.outcome.Some? ==> t.outcome == s.outcome && t.quarantine == s.quarantine)
    && ((s.queueClosed && s.queue == []) ==> t.queue == [] && t.started == s.started && t.rejected == s.rejected)
  }

  lemma ExitEvolves(s: State, e: Event)
    requires Inv(s) && Enabled(s, e) && (e.Finish? || e.Fail?)
    ensures Evolves(s, Step(s, e))
  {}

  lemma StepMonotonic(s: State, e: Event)
    requires Inv(s) && Enabled(s, e)
    ensures Evolves(s, Step(s, e))
  {
    match e {
      case Finish(_, _) => ExitEvolves(s, e);
      case Fail(_) => ExitEvolves(s, e);
      case ObserveStop => ClosingKeeps(s, e);
      case Drop => ClosingKeeps(s, e);
      case _ =>
    }
  }

  lemma EvolvesTransitive(s: State, t: State, u: State)
    requires Evolves(s, t) && Evolves(t, u)
    ensures Evolves(s, u)
  {}

  // ---------------------------------------------------------------------
  // Runs
  // ---------------------------------------------------------------------

  predicate Follows(run: seq<State>, events: seq<Event>, i: nat)
    requires i < |events| && |run| == |events| + 1
  {
    Enabled(run[i], events[i]) && run[i + 1] == Step(run[i], events[i])
  }

  ghost predicate IsRun(run: seq<State>, events: seq<Event>) {
    && |run| == |events| + 1
    && (exists n: nat :: run[0] == Initial(n))
    && forall i | 0 <= i < |events| :: Follows(run, events, i)
  }

  lemma {:induction false} RunKeeps(run: seq<State>, events: seq<Event>, i: nat)
    requires IsRun(run, events) && i < |run|
    ensures Inv(run[i]) && run[i].capacity == run[0].capacity
  {
    if i == 0 {
      var n: nat :| run[0] == Initial(n);
    } else {
      RunKeeps(run, events, i - 1);
      assert Follows(run, events, i - 1);
      StepKeeps(run[i - 1], events[i - 1]);
      StepMonotonic(run[i - 1], events[i - 1]);
    }
  }

  lemma EvolvesAt(run: seq<State>, events: seq<Event>, i: nat)
    requires IsRun(run, events) && i < |events|
    ensures Evolves(run[i], run[i + 1])
  {
    RunKeeps(run, events, i);
    assert Follows(run, events, i);
    StepMonotonic(run[i], events[i]);
  }

  lemma {:induction false} RunEvolves(run: seq<State>, events: seq<Event>, i: nat, j: nat)
    requires IsRun(run, events) && i <= j < |run|
    ensures Evolves(run[i], run[j])
    decreases j
  {
    if i < j {
      RunEvolves(run, events, i, j - 1);
      EvolvesAt(run, events, j - 1);
      EvolvesTransitive(run[i], run[j - 1], run[j]);
    }
  }

  /** Over all runs: owned calls are those queued, active, quarantined or about to
      be sent; unhealthy means quarantined; the channel is never found full. */
  lemma OwnedCallsExact(run: seq<State>, events: seq<Event>, i: nat)
    requires IsRun(run, events) && i < |run|
    ensures var s := run[i];
            && s.OwnedCalls() == |s.holding| + |s.queue| + |s.active| + s.quarantine
            && s.active.Keys == s.jobs
            && (s.unhealthy <==> s.quarantine > 0)
            && (i < |events| && events[i].Submit? ==> !TrySend(s).Full?)
  {
    RunKeeps(run, events, i);
    if i < |events| && events[i].Submit? {
      assert Follows(run, events, i);
      FullUnreachable(run[i], events[i].call);
    }
  }

  /** No submission is ever both started and rejected, or either of them twice; once
      the manager has returned or was dropped, each was exactly one of them. */
  lemma SettledOnce(run: seq<State>, events: seq<Event>, i: nat)
    requires IsRun(run, events) && i < |run|
    ensures forall c: Call :: run[i].started[c] + run[i].rejected[c] <= 1
    ensures !run[i].Running() ==>
              forall c: Call :: run[i].started[c] + run[i].rejected[c] == if c in run[i].submitted then 1 else 0
  {
    RunKeeps(run, events, i);
    var s := run[i];
    forall c: Call ensures s.started[c] + s.rejected[c] <= 1 {
      assert s.started[c] + s.rejected[c] + (if c in s.queue then 1 else 0) == if c in s.submitted then 1 else 0;
    }
  }

  /** However the manager goes, before it has returned or after, the drop frees the
      permits of queued submissions only: the guard leaks whatever is still owned. */
  lemma DropFreesQueued(run: seq<State>, events: seq<Event>, i: nat)
    requires IsRun(run, events) && i < |events| && events[i].Drop?
    ensures var s, t := run[i], run[i + 1];
            t.available == s.available + |s.queue| && t.active == s.active && t.quarantine == s.quarantine
  {
    RunKeeps(run, events, i);
    assert Follows(run, events, i);
    ClosingKeeps(run[i], events[i]);
    RejectQueuedFrame(run[i].(accepting := false, queueClosed := true));
  }

  /** The manager returns Ok exactly when nothing was quarantined at any time, and
      a permit quarantined at some time is missing from the semaphore ever after,
      also once the manager was dropped. */
  lemma QuarantineIsForGood(run: seq<State>, events: seq<Event>, i: nat, j: nat)
    requires IsRun(run, events) && i <= j < |run|
    ensures run[j].available + run[i].quarantine <= run[0].capacity
    ensures run[j].outcome == Some(true) ==> run[i].quarantine == 0
    ensures run[j].outcome == Some(false) ==> exists k :: 0 <= k <= j && run[k].quarantine > 0
  {
    RunEvolves(run, events, i, j);
    RunKeeps(run, events, j);
  }

  /** The workers joined so far whose cleanup was uncertain, or that panicked. */
  function Withheldings(events: seq<Event>): nat {
    if events == [] then 0
    else
      var last := events[|events| - 1];
      Withheldings(events[..|events| - 1])
        + if last.Fail? || (last.Finish? && last.uncertain) then 1 else 0
  }

  lemma ExitCounts(s: State, e: Event)
    requires Inv(s) && Enabled(s, e)
    ensures Step(s, e).quarantine == s.quarantine + if e.Fail? || (e.Finish? && e.uncertain) then 1 else 0
    ensures e.Finish? || e.Fail? ==>
              Step(s, e).available == s.available + if e.Finish? && !e.uncertain then 1 else 0
  {
    if e.ObserveStop? || e.Drop? { ClosingKeeps(s, e); }
  }

  lemma QuarantineAt(run: seq<State>, events: seq<Event>, i: nat)
    requires IsRun(run, events) && i < |events|
    ensures run[i + 1].quarantine ==
              run[i].quarantine + if events[i].Fail? || (events[i].Finish? && events[i].uncertain) then 1 else 0
  {
    RunKeeps(run, events, i);
    assert Follows(run, events, i);
    ExitCounts(run[i], events[i]);
  }

  lemma OutcomeTells(run: seq<State>, events: seq<Event>, i: nat)
    requires IsRun(run, events) && i < |run|
    ensures run[i].outcome.Some? ==> (run[i].outcome.value <==> run[i].quarantine == 0)
    ensures run[0].quarantine == 0
  {
    RunKeeps(run, events, i);
    var n: nat :| run[0] == Initial(n);
  }

  /** Exactly the permits of workers that panicked or left their cleanup uncertain are
      quarantined, before the drop and after it; the manager returns Ok if and only if there
      was no such worker. */
  lemma {:induction false} QuarantineCounts(run: seq<State>, events: seq<Event>, i: nat)
    requires IsRun(run, events) && i < |run|
    ensures run[i].quarantine == Withheldings(events[..i])
    ensures run[i].outcome.Some? ==> (run[i].outcome.value <==> Withheldings(events[..i]) == 0)
  {
    OutcomeTells(run, events, i);
    if i > 0 {
      QuarantineCounts(run, events, i - 1);
      QuarantineAt(run, events, i - 1);
      assert events[..i][..i - 1] == events[..i - 1];
    }
  }

  /** A worker that ends clean gives its permit back; any other keeps it from use. */
  lemma CleanExitFrees(run: seq<State>, events: seq<Event>, i: nat)
    requires IsRun(run, events) && i < |events| && (events[i].Finish? || events[i].Fail?)
    ensures run[i + 1].available ==
            run[i].available + if events[i].Finish? && !events[i].uncertain then 1 else 0
  {
    RunKeeps(run, events, i);
    assert Follows(run, events, i);
    ExitCounts(run[i], events[i]);
  }

  lemma QueueSteps(s: State, e: Event)
    requires Inv(s) && Enabled(s, e)
    ensures var q := Step(s, e).queue;
            || q == s.queue || q == [] || (s.queue != [] && q == s.queue[1..])
            || (e.Submit? && q == s.queue + [e.call])
  {
    if e.ObserveStop? || e.Drop? { ClosingKeeps(s, e); }
  }

  lemma StaysAhead(run: seq<State>, events: seq<Event>, i: nat, c: Call, d: Call)
    requires IsRun(run, events) && i < |events| && events[i] != Submit(c) && c in run[i + 1].queue
    ensures c in run[i].queue
    ensures Ahead(run[i].queue, c, d) ==> Ahead(run[i + 1].queue, c, d)
  {
    RunKeeps(run, events, i);
    assert Follows(run, events, i);
    QueueSteps(run[i], events[i]);
    if Ahead(run[i].queue, c, d) { AheadOn(run[i].queue, run[i + 1].queue, c, d); }
  }

  lemma ComesLast(run: seq<State>, events: seq<Event>, i: nat, c: Call, d: Call)
    requires IsRun(run, events) && i < |events| && events[i] == Submit(d)
    requires c in run[i].queue && d in run[i + 1].queue
    ensures Ahead(run[i + 1].queue, c, d)
  {
    var s := run[i];
    RunKeeps(run, events, i);
    assert Follows(run, events, i);
    assert s.started[d] + s.rejected[d] + (if d in s.queue then 1 else 0) == 0;
    AheadLast(s.queue, c, d);
  }

  lemma KnownStays(s: State, e: Event, c: Call)
    requires Inv(s) && Enabled(s, e) && c in s.known && (c in s.holding ==> e == Submit(c))
    ensures c in Step(s, e).known && c !in Step(s, e).holding
  {
    if e.ObserveStop? || e.Drop? { ClosingKeeps(s, e); }
  }

  lemma KnownAt(run: seq<State>, events: seq<Event>, i: nat, c: Call)
    requires IsRun(run, events) && i < |events|
    requires events[i] == Submit(c) || (c in run[i].known && c !in run[i].holding)
    ensures c in run[i + 1].known && c !in run[i + 1].holding
  {
    RunKeeps(run, events, i);
    assert Follows(run, events, i);
    KnownStays(run[i], events[i], c);
  }

  /** A call is sent once. */
  lemma {:induction false} SentOnce(run: seq<State>, events: seq<Event>, a: nat, c: Call, i: nat)
    requires IsRun(run, events) && a < i < |run| && events[a] == Submit(c)
    ensures c in run[i].known && c !in run[i].holding
    ensures i < |events| ==> events[i] != Submit(c)
    decreases i
  {
    if i > a + 1 { SentOnce(run, events, a, c, i - 1); }
    KnownAt(run, events, i - 1, c);
    if i < |events| { assert Follows(run, events, i); }
  }

  /** Submissions are taken in the order they were sent: while one waits, none sent after it
      has been started or rejected. */
  lemma {:induction false} TakenInOrder(run: seq<State>, events: seq<Event>, a: nat, b: nat, c: Call, d: Call, i: nat)
    requires IsRun(run, events) && a < b < i < |run| && events[a] == Submit(c) && events[b] == Submit(d)
    requires d in run[b + 1].queue && c in run[i].queue
    ensures Ahead(run[i].queue, c, d)
    decreases i
  {
    SentOnce(run, events, a, c, i - 1);
    StaysAhead(run, events, i - 1, c, d);
    if i > b + 1 {
      TakenInOrder(run, events, a, b, c, d, i - 1);
    } else {
      ComesLast(run, events, b, c, d);
    }
  }

  lemma ClosesAt(run: seq<State>, events: seq<Event>, i: nat)
    requires IsRun(run, events) && i < |events|
    ensures events[i].Close? ==> run[i + 1].stop && !run[i + 1].accepting
    ensures events[i].PortsGone? || events[i].ObserveStop? || events[i].Drop? ==> run[i + 1].queueClosed
  {
    RunKeeps(run, events, i);
    assert Follows(run, events, i);
    if events[i].ObserveStop? || events[i].Drop? { ClosingKeeps(run[i], events[i]); }
  }

  /** After a close the stop stays requested and no call is admitted; once the ports are
      gone, the stop was seen or the manager was dropped, nothing is sent either. */
  lemma ClosedForGood(run: seq<State>, events: seq<Event>, i: nat, j: nat)
    requires IsRun(run, events) && i < j < |run|
    ensures events[i].Close? ==> run[j].stop
    ensures events[i].PortsGone? || events[i].ObserveStop? || events[i].Drop? ==>
              run[j].queueClosed && run[j].submitted == run[i + 1].submitted
    ensures events[i].Close? || events[i].PortsGone? || events[i].ObserveStop? || events[i].Drop? ==>
              j < |events| ==> !events[j].Admit?
  {
    ClosesAt(run, events, i);
    RunEvolves(run, events, i + 1, j);
    if j < |events| { assert Follows(run, events, j); }
  }

  lemma StoppedStarts(run: seq<State>, events: seq<Event>, i: nat, j: nat)
    requires IsRun(run, events) && i < j < |run| && events[i].ObserveStop?
    ensures run[j].started == run[i].started && run[j].queue == []
  {
    RunKeeps(run, events, i);
    assert Follows(run, events, i);
    ClosingKeeps(run[i], events[i]);
    RunEvolves(run, events, i + 1, j);
  }

  /** Once the manager has observed the stop, nothing more is started. */
  lemma NothingStartsAfterStop(run: seq<State>, events: seq<Event>, i: nat, j: nat)
    requires IsRun(run, events) && i < j < |run| && events[i].ObserveStop?
    ensures run[j].started == run[i].started && run[j].queue == []
    ensures j < |events| ==> !events[j].Start?
  {
    StoppedStarts(run, events, i, j);
    if j < |events| { assert Follows(run, events, j); }
  }

  // ---------------------------------------------------------------------
  // The port and the manager, acting in place
  // ---------------------------------------------------------------------

  datatype Failure = ServiceException | Throttled

  datatype Wake = Joined(job: Job, uncertain: bool) | Panicked(job: Job) | Submission(job: Job) | Nothing

  /** Every method ends in the state `Step` gives, so by `StepKeeps` all of them,
      in any order and for any callers, keep `Inv`. */
  class Bridge {
    const capacity: nat
    var available: nat
    var holding: set<Call>
    var queue: seq<Call>
    var queueClosed: bool
    var accepting: bool
    var stop: bool
    var jobs: set<Job>
    var active: map<Job, Call>
    var quarantine: nat
    var unhealthy: bool
    var outcome: Option<bool>
    var dropped: bool
    ghost var known: set<Call>
    ghost var submitted: set<Call>
    ghost var started: multiset<Call>
    ghost var rejected: multiset<Call>

    ghost function View(): State
      reads this
    {
      State(capacity, available, holding, queue, queueClosed, accepting, stop, jobs, active, quarantine, unhealthy,
            outcome, dropped, known, submitted, started, rejected)
    }

    constructor (capacity: nat)
      ensures View() == Initial(capacity)
    {
      this.capacity, available, holding, queue, queueClosed, accepting := capacity, capacity, {}, [], false, true;
      stop, jobs, active, quarantine, unhealthy := false, {}, map[], 0, false;
      outcome, dropped, known, submitted, started, rejected := None, false, {}, {}, multiset{}, multiset{};
    }

    /** `start`, up to the permit; `valid` says scope and deadline are right. */
    method Admit(call: Call, valid: bool) returns (r: Result<(), Failure>)
      requires call !in known
      modifies this`available, this`holding, this`known
      ensures r.Ok? <==> valid && Enabled(old(View()), Event.Admit(call))
      ensures r.Ok? ==> View() == Step(old(View()), Event.Admit(call))
      ensures r.Err? ==> View() == old(View())
      ensures r.Err? ==> r.error == if accepting && !queueClosed && valid then Throttled else ServiceException
    {
      if !accepting || queueClosed || !valid { return Err(ServiceException); }
      if available == 0 { return Err(Throttled); }
      available := available - 1;
      holding := holding + {call};
      known := known + {call};
      return Ok(());
    }

    method Submit(call: Call) returns (r: Result<(), Failure>)
      requires call in holding
      modifies this`holding, this`available, this`queue, this`submitted
      ensures View() == Step(old(View()), Event.Submit(call))
      ensures r == match TrySend(old(View()))
                   case Queued => Ok(())
                   case Full => Err(Throttled)
                   case Closed => Err(ServiceException)
    {
      holding := holding - {call};
      if queueClosed {
        available := available + 1;
        return Err(ServiceException);
      }
      if |queue| >= capacity {
        available := available + 1;
        return Err(Throttled);
      }
      queue := queue + [call];
      submitted := submitted + {call};
      return Ok(());
    }

    /** `LambdaBridgeSupervisor::close` */
    method RequestClose()
      modifies this`accepting, this`stop
      ensures View() == Step(old(View()), Close)
    {
      accepting, stop := false, true;
    }

    /** In every state a run can reach, the calls that still hold a permit, wherever
        they are; in any state at all, what is missing from the semaphore. */
    method OwnedCalls() returns (n: nat)
      ensures Inv(View()) ==> n == |holding| + |queue| + |active| + quarantine
      ensures available <= capacity ==> n + available == capacity
      ensures available > capacity ==> n == 0
    {
      n := if available <= capacity then capacity - available else 0;
    }

    method RejectHead()
      requires queue != []
      modifies this`queue, this`available, this`rejected
      ensures View() == RejectOne(old(View()))
    {
      rejected := rejected + multiset{queue[0]};
      queue, available := queue[1..], available + 1;
    }

    method RejectQueue()
      modifies this`queue, this`available, this`rejected
      ensures View() == RejectQueued(old(View()))
    {
      while queue != []
        invariant RejectQueued(View()) == RejectQueued(old(View()))
        decreases |queue|
      {
        RejectHead();
      }
    }

    method CloseQueue()
      modifies this`accepting, this`queueClosed
      ensures View() == old(View()).(accepting := false, queueClosed := true)
    {
      accepting, queueClosed := false, true;
    }

    method StartWorker(job: Job)
      requires Enabled(View(), Start(job))
      modifies this`queue, this`jobs, this`active, this`started
      ensures View() == Step(old(View()), Start(job))
    {
      started := started + multiset{queue[0]};
      jobs := jobs + {job};
      active := active[job := queue[0]];
      queue := queue[1..];
    }

    /** A joined worker gives up its permit, to the semaphore or to quarantine. */
    method TakePermit(job: Job) returns (owned: bool)
      requires job in jobs
      modifies this`jobs, this`active
      ensures owned <==> job in old(active)
      ensures View() == if owned then Unslotted(old(View()), job) else old(View()).(jobs := old(jobs) - {job})
    {
      jobs := jobs - {job};
      owned := job in active;
      if owned { active := active - {job}; }
    }

    method Withhold()
      modifies this`unhealthy, this`quarantine
      ensures View() == Withheld(old(View()))
    {
      unhealthy := true;
      quarantine := quarantine + 1;
    }

    method Release()
      modifies this`available
      ensures View() == Released(old(View()))
    {
      available := available + 1;
    }

    method FinishWorker(job: Job, uncertain: bool)
      requires Enabled(View(), Finish(job, uncertain))
      modifies this`jobs, this`active, this`available, this`unhealthy, this`quarantine
      ensures View() == Step(old(View()), Finish(job, uncertain))
    {
      var owned := TakePermit(job);
      if owned {
        if uncertain { Withhold(); } else { Release(); }
      }
    }

    method FailWorker(job: Job)
      requires Enabled(View(), Fail(job))
      modifies this`jobs, this`active, this`unhealthy, this`quarantine
      ensures View() == Step(old(View()), Fail(job))
    {
      var owned := TakePermit(job);
      if owned { Withhold(); } else { unhealthy := true; }
    }

    method SetOutcome()
      requires Enabled(View(), Return)
      modifies this`accepting, this`outcome
      ensures View() == Step(old(View()), Return)
    {
      accepting := false;
      outcome := Some(quarantine == 0);
    }

    /** One turn of the manager loop. */
    method Turn(wake: Wake)
      requires outcome.None? && !dropped
      requires wake.Joined? || wake.Panicked? ==> wake.job in jobs
      requires wake.Submission? ==> !stop && queue != [] && wake.job !in jobs
      modifies this
      ensures var s := old(View());
              var stopped := if s.stop then Step(s, ObserveStop) else s;
              View() ==
              if stopped.queueClosed && stopped.queue == [] && stopped.jobs == {} then Step(stopped, Return)
              else match wake
                   case Joined(job, uncertain) => Step(stopped, Finish(job, uncertain))
                   case Panicked(job) => Step(stopped, Fail(job))
                   case Submission(job) => Step(stopped, Start(job))
                   case Nothing => stopped
    {
      if stop {
        RejectQueuedFrame(View().(accepting := false, queueClosed := true));
        CloseQueue();
        RejectQueue();
      }
      if queueClosed && queue == [] && jobs == {} {
        SetOutcome();
        return;
      }
      match wake {
        case Joined(job, uncertain) => FinishWorker(job, uncertain);
        case Panicked(job) => FailWorker(job);
        case Submission(job) => StartWorker(job);
        case Nothing =>
      }
    }

    /** `Drop for ManagerOwner`: reject what is queued; then the state is freed with
        its permits, or leaked when anything is still owned. */
    method DropManager()
      requires !dropped
      modifies this
      ensures View() == Step(old(View()), Drop)
    {
      CloseQueue();
      RejectQueue();
      if jobs == {} && active == map[] && quarantine == 0 { FreeState(); }
      MarkDropped();
    }

    method FreeState()
      modifies this`available, this`jobs, this`active, this`quarantine
      ensures View() == Freed(old(View()))
    {
      available := available + |active| + quarantine;
      jobs, active, quarantine := {}, map[], 0;
    }

    method MarkDropped()
      modifies this`dropped
      ensures View() == old(View()).(dropped := true)
    {
      dropped := true;
    }
  }

  // ---------------------------------------------------------------------
  // The supervisor: one join, its answer kept
  // ---------------------------------------------------------------------

  datatype JoinAnswer = Clean | Uncertain | Expired | Unavailable

  class LambdaBridgeSupervisor {
    const bridge: Bridge
    /** The manager has not been joined yet. */
    var manager: bool
    var joined: Option<bool>

    ghost predicate Valid()
      reads this
    {
      manager <==> joined.None?
    }

    constructor (bridge: Bridge)
      ensures Valid() && this.bridge == bridge && joined == None
    {
      this.bridge, manager, joined := bridge, true, None;
    }

    /** `observed` is the manager's answer if it comes before the deadline. Every call
        closes the bridge; the first answer is that of every later call, a deadline
        keeps the manager for the next one. */
    method Shutdown(observed: Option<bool>) returns (r: JoinAnswer)
      requires Valid()
      modifies this`manager, this`joined, bridge`accepting, bridge`stop
      ensures Valid() && bridge.View() == Step(old(bridge.View()), Close)
      ensures joined == if old(joined).Some? then old(joined) else observed
      ensures r == match joined
                   case Some(clean) => if clean then Clean else Uncertain
                   case None => Expired
    {
      bridge.RequestClose();
      if joined.Some? { return if joined.value then Clean else Uncertain; }
      if !manager { return Unavailable; }
      if observed.None? { return Expired; }
      manager, joined := false, observed;
      return if observed.value then Clean else Uncertain;
    }
  }
}
