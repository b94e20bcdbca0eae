/** Ownership of accepted work in the Step Functions API root.

    Semaphore permits are indistinguishable, so each place that holds permits
    holds a number of them. Every await of a caller or of the root loop ends a
    step; steps of different callers and of the root interleave freely. */
module StepFunctionsApi {
  import opened Wrappers
  import opened Ownership

  /** The handler, the root and all callers in flight. */
  datatype State = State(
    capacity: nat,
    available: nat,            // permits in the semaphore
    holding: set<Call>,        // callers between acquiring and sending
    queue: seq<Call>,          // envelopes in the channel, a permit in each
    queueClosed: bool,
    closing: bool,             // the watch admission looks at
    jobs: set<Job>,            // spawned and not joined
    slots: map<Job, Call>,     // reply and permit kept for each job
    quarantine: nat,           // permits withheld after a worker failure
    waiting: set<Call>,        // accepted callers whose receiver is alive
    replied: set<Call>,        // replies with a permit, not yet taken
    bare: set<Call>,           // replies without a permit, not yet taken
    incoming: bool,            // the root still expects envelopes
    outcome: Option<bool>,     // the root has returned: Ok or Err
    dropped: bool,             // the owner is gone, its state freed or leaked
    known: set<Call>,          // history: calls that ever held a permit
    accepted: set<Call>,       // history: calls whose envelope was sent
    answers: multiset<Call>    // history: answers sent for each call
  )
  {
    predicate Running() { outcome.None? && !dropped }

    function PermitsInUse(): nat {
      |holding| + |queue| + |slots| + quarantine + |replied|
    }
  }

  function Initial(capacity: nat): State {
    State(capacity, capacity, {}, [], false, false, {}, map[], 0, {}, {}, {}, true, None, false, {}, {}, multiset{})
  }

  datatype Event =
    | Admit(call: Call)          // closing checked, permit acquired
    | Submit(call: Call)         // try_send
    | Receive(call: Call)        // the caller takes its reply
    | Abandon(call: Call)        // the caller times out or is dropped
    | Close                      // a supervisor raises closing
    | SendersGone                // the last handler is dropped
    | ObserveStop                // the root notices closing
    | Start(job: Job)            // the root receives an envelope
    | EndOfQueue                 // the root receives the end of the channel
    | Finish(job: Job)           // a job is joined with its result
    | Fail(job: Job)             // a job is joined with a panic or cancellation
    | Return                     // the root returns
    | Drop                       // the owner is dropped, before that or after

  predicate Enabled(s: State, e: Event) {
    match e
    case Admit(c) => c !in s.known && !s.closing && s.available > 0
    case Submit(c) => c in s.holding
    case Receive(c) => c in s.replied || c in s.bare
    case Abandon(c) => c in s.waiting
    case Close => true
    case SendersGone => s.holding == {}
    case ObserveStop => s.Running() && s.closing
    case Start(j) => s.Running() && s.incoming && s.queue != [] && j !in s.jobs
    case EndOfQueue => s.Running() && s.incoming && s.queue == [] && s.queueClosed
    case Finish(j) => s.Running() && j in s.jobs
    case Fail(j) => s.Running() && j in s.jobs
    case Return => s.Running() && !s.incoming && s.jobs == {}
    case Drop => !s.dropped
  }

  datatype Sent = Queued | Full | Closed

  function TrySend(s: State): Sent {
    if s.queueClosed then Closed else if |s.queue| >= s.capacity then Full else Queued
  }

  /** Send a reply that carries its permit: a dead receiver drops both. */
  function ReplyWithPermit(s: State, c: Call): State {
    if c in s.waiting then s.(replied := s.replied + {c}, answers := s.answers + multiset{c})
    else s.(available := s.available + 1, answers := s.answers + multiset{c})
  }

  function ReplyBare(s: State, c: Call): State {
    if c in s.waiting then s.(bare := s.bare + {c}, answers := s.answers + multiset{c})
    else s.(answers := s.answers + multiset{c})
  }

  /** `while let Ok(envelope) = try_recv()`: answer what is queued. */
  function RejectQueued(s: State): State
    decreases |s.queue|
  {
    if s.queue == [] then s
    else RejectQueued(ReplyWithPermit(s.(queue := s.queue[1..]), s.queue[0]))
  }

  /** The job and its slot are gone; its permit is in hand. */
  function Unslotted(s: State, j: Job): State {
    s.(jobs := s.jobs - {j}, slots := s.slots - {j})
  }

  /** The permit in hand is quarantined. */
  function Withheld(s: State): State { s.(quarantine := s.quarantine + 1) }

  /** A root that returned Ok has its state freed: every permit in it goes back. */
  function Freed(s: State): State {
    s.(available := s.available + |s.slots| + s.quarantine, jobs := {}, slots := map[], quarantine := 0)
  }

  function Step(s: State, e: Event): State
    requires Enabled(s, e)
  {
    match e
    case Admit(c) =>
      s.(available := s.available - 1, holding := s.holding + {c}, known := s.known + {c})
    case Submit(c) =>
      var released := s.(holding := s.holding - {c});
      if TrySend(s).Queued? then
        released.(queue := s.queue + [c], waiting := s.waiting + {c}, accepted := s.accepted + {c})
      else
        released.(available := s.available + 1)
    case Receive(c) =>
      s.(replied := s.replied - {c}, bare := s.bare - {c}, waiting := s.waiting - {c},
         available := s.available + if c in s.replied then 1 else 0)
    case Abandon(c) =>
      s.(replied := s.replied - {c}, bare := s.bare - {c}, waiting := s.waiting - {c},
         available := s.available + if c in s.replied then 1 else 0)
    case Close => s.(closing := true)
    case SendersGone => s.(queueClosed := true)
    case ObserveStop => s.(queueClosed := true)
    case Start(j) => s.(queue := s.queue[1..], jobs := s.jobs + {j}, slots := s.slots[j := s.queue[0]])
    case EndOfQueue => s.(incoming := false, closing := true)
    case Finish(j) =>
      if j in s.slots then ReplyWithPermit(Unslotted(s, j), s.slots[j]) else s.(jobs := s.jobs - {j})
    case Fail(j) =>
      if j in s.slots then ReplyBare(Withheld(Unslotted(s, j)), s.slots[j]) else s.(jobs := s.jobs - {j})
    case Return => s.(outcome := Some(s.quarantine == 0))
    case Drop =>
      var left := if s.outcome == Some(true) then Freed(s) else RejectQueued(s.(closing := true, queueClosed := true));
      left.(dropped := true)
  }

  // ---------------------------------------------------------------------
  // What every reachable state satisfies
  // ---------------------------------------------------------------------

  /** Each accepted envelope is queued, running, answered, or in the root's hand:
      exactly one of these, exactly once; nothing else was ever any of them. */
  ghost predicate Accounted(queue: seq<Call>, slots: map<Job, Call>, answers: multiset<Call>, accepted: set<Call>,
                            hand: Option<Call>)
  {
    && Distinct(queue)
    && (forall j, k | j in slots && k in slots && j != k :: slots[j] != slots[k])
    && forall c: Call ::
         answers[c] + (if c in queue then 1 else 0) + (if InSlots(slots, c) then 1 else 0) +
         (if hand == Some(c) then 1 else 0) == if c in accepted then 1 else 0
  }

  /** `loose` permits are in the root's hand. */
  predicate PermitsConserved(s: State, loose: nat) {
    s.available + s.PermitsInUse() + loose == s.capacity
  }

  predicate Callers(holding: set<Call>, known: set<Call>, accepted: set<Call>, waiting: set<Call>) {
    holding <= known && accepted <= known && holding !! accepted && waiting <= accepted
  }

  predicate Replies(waiting: set<Call>, replied: set<Call>, bare: set<Call>, answers: multiset<Call>) {
    && replied <= waiting && bare <= waiting && replied !! bare
    && (forall c | c in replied :: answers[c] == 1)
    && (forall c | c in bare :: answers[c] == 1)
    && (forall c | c in waiting && answers[c] > 0 :: c in replied || c in bare)
  }

  predicate Control(s: State) {
    && s.slots.Keys == s.jobs
    && (!s.incoming ==> s.queue == [] && s.queueClosed && s.closing)
    && (s.outcome.Some? ==> !s.incoming && s.jobs == {} && (s.outcome.value <==> s.quarantine == 0))
    && (s.dropped ==> s.queue == [] && s.queueClosed && s.closing)
  }

  ghost predicate InvWith(s: State, hand: Option<Call>, loose: nat) {
    && PermitsConserved(s, loose)
    && Accounted(s.queue, s.slots, s.answers, s.accepted, hand)
    && Callers(s.holding, s.known, s.accepted, s.waiting)
    && Replies(s.waiting, s.replied, s.bare, s.answers)
    && Control(s)
  }

  ghost predicate Inv(s: State) { InvWith(s, None, 0) }

  /** The channel is as long as the semaphore is wide, so it is never full. */
  lemma FullUnreachable(s: State, c: Call)
    requires Inv(s) && c in s.holding
    ensures !TrySend(s).Full?
  {}

  lemma AnswerAccounted(queue: seq<Call>, slots: map<Job, Call>, answers: multiset<Call>, accepted: set<Call>, c: Call)
    requires Accounted(queue, slots, answers, accepted, Some(c))
    ensures Accounted(queue, slots, answers + multiset{c}, accepted, None)
    ensures answers[c] == 0
  {}

  lemma RepliesGrow(waiting: set<Call>, replied: set<Call>, bare: set<Call>, answers: multiset<Call>, c: Call)
    requires Replies(waiting, replied, bare, answers) && answers[c] == 0
    ensures c !in replied && c !in bare
    ensures c !in waiting ==> Replies(waiting, replied, bare, answers + multiset{c})
    ensures c in waiting ==> Replies(waiting, replied + {c}, bare, answers + multiset{c})
    ensures c in waiting ==> Replies(waiting, replied, bare + {c}, answers + multiset{c})
  {}

  lemma ReplyKeeps(s: State, c: Call)
    requires InvWith(s, Some(c), 1)
    ensures Inv(ReplyWithPermit(s, c))
  {
    AnswerAccounted(s.queue, s.slots, s.answers, s.accepted, c);
    RepliesGrow(s.waiting, s.replied, s.bare, s.answers, c);
  }

  lemma ReplyBareKeeps(s: State, c: Call)
    requires InvWith(s, Some(c), 0)
    ensures Inv(ReplyBare(s, c))
  {
    AnswerAccounted(s.queue, s.slots, s.answers, s.accepted, c);
    RepliesGrow(s.waiting, s.replied, s.bare, s.answers, c);
  }

  lemma TakeFirst(s: State)
    requires Inv(s) && s.queue != []
    ensures InvWith(s.(queue := s.queue[1..]), Some(s.queue[0]), 1)
  {}

  lemma {:induction false} RejectQueuedKeeps(s: State)
    requires Inv(s)
    ensures Inv(RejectQueued(s))
    decreases |s.queue|
  {
    if s.queue != [] {
      TakeFirst(s);
      ReplyKeeps(s.(queue := s.queue[1..]), s.queue[0]);
      RejectQueuedKeeps(ReplyWithPermit(s.(queue := s.queue[1..]), s.queue[0]));
    }
  }

  /** Everything but the queue, the replies and their permits stays. */
  predicate SameOwnership(s: State, t: State) {
    && t.capacity == s.capacity && t.holding == s.holding && t.queueClosed == s.queueClosed && t.closing == s.closing
    && t.jobs == s.jobs && t.slots == s.slots && t.quarantine == s.quarantine && t.waiting == s.waiting
    && t.bare == s.bare && t.incoming == s.incoming && t.outcome == s.outcome && t.dropped == s.dropped
    && t.known == s.known && t.accepted == s.accepted
  }

  lemma RejectFirst(s: State)
    requires s.queue != []
    ensures var next := ReplyWithPermit(s.(queue := s.queue[1..]), s.queue[0]);
            && SameOwnership(s, next) && next.queue == s.queue[1..]
            && next.answers == s.answers + multiset{s.queue[0]}
  {}

  lemma {:induction false} RejectQueuedFrame(s: State)
    ensures SameOwnership(s, RejectQueued(s)) && RejectQueued(s).queue == []
    ensures RejectQueued(s).answers == s.answers + multiset(s.queue)
    decreases |s.queue|
  {
    if s.queue != [] {
      var next := ReplyWithPermit(s.(queue := s.queue[1..]), s.queue[0]);
      RejectFirst(s);
      RejectQueuedFrame(next);
      AnswersOfQueue(s.answers, s.queue);
    }
  }

  lemma StartAccounted(queue: seq<Call>, slots: map<Job, Call>, answers: multiset<Call>, accepted: set<Call>, j: Job)
    requires Accounted(queue, slots, answers, accepted, None) && queue != [] && j !in slots
    ensures Accounted(queue[1..], slots[j := queue[0]], answers, accepted, None)
  {
    AddToSlots(slots, j, queue[0]);
    forall k | k in slots ensures slots[k] != queue[0] {
      assert InSlots(slots, slots[k]);
    }
  }

  lemma StartKeeps(s: State, j: Job)
    requires Inv(s) && Enabled(s, Start(j))
    ensures Inv(Step(s, Start(j)))
  {
    StartAccounted(s.queue, s.slots, s.answers, s.accepted, j);
    AddToSlots(s.slots, j, s.queue[0]);
  }

  lemma JoinKeeps(s: State, j: Job)
    requires Inv(s) && s.Running() && j in s.jobs
    ensures j in s.slots && InvWith(Unslotted(s, j), Some(s.slots[j]), 1)
  {
    RemoveFromSlots(s.slots, j);
    assert InSlots(s.slots, s.slots[j]);
  }

  lemma WithholdKeeps(s: State, c: Call)
    requires InvWith(s, Some(c), 1) && s.outcome.None?
    ensures InvWith(Withheld(s), Some(c), 0)
  {}

  lemma FinishKeeps(s: State, j: Job)
    requires Inv(s) && Enabled(s, Finish(j))
    ensures Inv(Step(s, Finish(j)))
  {
    JoinKeeps(s, j);
    ReplyKeeps(Unslotted(s, j), s.slots[j]);
  }

  lemma FailKeeps(s: State, j: Job)
    requires Inv(s) && Enabled(s, Fail(j))
    ensures Inv(Step(s, Fail(j)))
  {
    JoinKeeps(s, j);
    WithholdKeeps(Unslotted(s, j), s.slots[j]);
    ReplyBareKeeps(Withheld(Unslotted(s, j)), s.slots[j]);
  }

  lemma SubmitAccounted(queue: seq<Call>, slots: map<Job, Call>, answers: multiset<Call>, accepted: set<Call>, c: Call)
    requires Accounted(queue, slots, answers, accepted, None) && c !in accepted
    ensures Accounted(queue + [c], slots, answers, accepted + {c}, None)
  {}

  lemma SubmitKeeps(s: State, c: Call)
    requires Inv(s) && c in s.holding
    ensures Inv(Step(s, Submit(c)))
  {
    FullUnreachable(s, c);
    assert |s.holding - {c}| == |s.holding| - 1;
    if !s.queueClosed { SubmitAccounted(s.queue, s.slots, s.answers, s.accepted, c); }
  }

  lemma TakeReplyKeeps(s: State, e: Event)
    requires Inv(s) && Enabled(s, e) && (e.Receive? || e.Abandon?)
    ensures Inv(Step(s, e))
  {}

  lemma ControlKeeps(s: State, e: Event)
    requires Inv(s) && Enabled(s, e)
    requires e.Admit? || e.Close? || e.SendersGone? || e.ObserveStop? || e.EndOfQueue? || e.Return?
    ensures Inv(Step(s, e))
  {}

  lemma DropKeeps(s: State)
    requires Inv(s) && Enabled(s, Drop)
    ensures Inv(Step(s, Drop))
    ensures Step(s, Drop).answers == s.answers + multiset(s.queue)
    ensures var left := if s.outcome == Some(true) then s else s.(closing := true, queueClosed := true);
            SameOwnership(left.(dropped := true), Step(s, Drop))
  {
    RejectQueuedKeeps(s.(closing := true, queueClosed := true));
    RejectQueuedFrame(s.(closing := true, queueClosed := true));
  }

  lemma StepKeeps(s: State, e: Event)
    requires Inv(s) && Enabled(s, e)
    ensures Inv(Step(s, e))
  {
    match e {
      case Submit(c) => SubmitKeeps(s, c);
      case Receive(_) => TakeReplyKeeps(s, e);
      case Abandon(_) => TakeReplyKeeps(s, e);
      case Start(j) => StartKeeps(s, j);
      case Finish(j) => FinishKeeps(s, j);
      case Fail(j) => FailKeeps(s, j);
      case Drop => DropKeeps(s);
      case _ => ControlKeeps(s, e);
    }
  }

  // ---------------------------------------------------------------------
  // Runs
  // ---------------------------------------------------------------------

  predicate Follows(run: seq<State>, events: seq<Event>, i: nat)
    requires i < |events| && |run| == |events| + 1
  {
    Enabled(run[i], events[i]) && run[i + 1] == Step(run[i], events[i])
  }

  /** `run` is a run from the initial state: consecutive states are steps. */
  ghost predicate IsRun(run: seq<State>, events: seq<Event>) {
    && |run| == |events| + 1
    && (exists n: nat :: run[0] == Initial(n))
    && forall i | 0 <= i < |events| :: Follows(run, events, i)
  }

  lemma InitialInv(n: nat)
    ensures Inv(Initial(n))
  {}

  lemma {:induction false} RunKeeps(run: seq<State>, events: seq<Event>, i: nat)
    requires IsRun(run, events) && i < |run|
    ensures Inv(run[i]) && run[i].capacity == run[0].capacity
  {
    if i == 0 {
      var n: nat :| run[0] == Initial(n);
      InitialInv(n);
    } else {
      RunKeeps(run, events, i - 1);
      assert Follows(run, events, i - 1);
      StepKeeps(run[i - 1], events[i - 1]);
      StepMonotonic(run[i - 1], events[i - 1]);
    }
  }

  /** Quarantined permits and answers are never taken back; closing is for good. */
  ghost predicate Evolves(s: State, t: State) {
    && t.capacity == s.capacity && s.quarantine <= t.quarantine
    && (forall c: Call :: s.answers[c] <= t.answers[c]) && s.accepted <= t.accepted
    && (s.closing ==> t.closing) && (s.queueClosed ==> t.queueClosed)
    && (s.outcome.Some? ==> t.outcome == s.outcome && t.quarantine == s.quarantine)
    && (s.queueClosed ==> t.accepted == s.accepted)
  }

  lemma ReplyEvolves(s: State, c: Call)
    ensures Evolves(s, ReplyWithPermit(s, c)) && Evolves(s, ReplyBare(s, c))
  {}

  lemma JoinEvolves(s: State, e: Event)
    requires Inv(s) && Enabled(s, e) && (e.Finish? || e.Fail?)
    ensures Evolves(s, Step(s, e))
  {
    ReplyEvolves(Unslotted(s, e.job), s.slots[e.job]);
    ReplyEvolves(Withheld(Unslotted(s, e.job)), s.slots[e.job]);
  }

  lemma StepMonotonic(s: State, e: Event)
    requires Inv(s) && Enabled(s, e)
    ensures Evolves(s, Step(s, e))
  {
    if e.Drop? {
      DropKeeps(s);
    } else if e.Finish? || e.Fail? {
      JoinEvolves(s, e);
    }
  }

  lemma EvolvesAt(run: seq<State>, events: seq<Event>, i: nat)
    requires IsRun(run, events) && i < |events|
    ensures Evolves(run[i], run[i + 1])
  {
    RunKeeps(run, events, i);
    assert Follows(run, events, i);
    StepMonotonic(run[i], events[i]);
  }

  lemma {:induction false} OutcomeLatched(run: seq<State>, events: seq<Event>, i: nat, j: nat)
    requires IsRun(run, events) && i <= j < |run|
    ensures run[i].outcome.Some? ==> run[j].outcome == run[i].outcome && run[j].quarantine == run[i].quarantine
    ensures run[i].queueClosed ==> run[j].queueClosed && run[j].accepted == run[i].accepted
    ensures run[i].quarantine <= run[j].quarantine && (run[i].closing ==> run[j].closing)
    decreases j
  {
    if i < j {
      OutcomeLatched(run, events, i, j - 1);
      EvolvesAt(run, events, j - 1);
    }
  }

  /** Conservation and single reply, over all runs: permits are never lost or made
      up, slots are exactly the live jobs, and sending never finds a full channel. */
  lemma Conservation(run: seq<State>, events: seq<Event>, i: nat)
    requires IsRun(run, events) && i < |run|
    ensures run[i].available + run[i].PermitsInUse() == run[0].capacity
    ensures run[i].slots.Keys == run[i].jobs
    ensures forall c: Call :: run[i].answers[c] <= 1
    ensures i < |events| && events[i].Submit? ==> !TrySend(run[i]).Full?
  {
    RunKeeps(run, events, i);
    forall c: Call ensures run[i].answers[c] <= 1 {
      assert run[i].answers[c] <= if c in run[i].accepted then 1 else 0;
    }
    if i < |events| && events[i].Submit? {
      assert Follows(run, events, i);
      FullUnreachable(run[i], events[i].call);
    }
  }

  /** Once the root has returned, every envelope ever accepted has been answered
      exactly once. It returned Ok exactly when nothing is quarantined, and then
      every permit not in the hands of a caller is back in the semaphore. */
  lemma RootReturned(run: seq<State>, events: seq<Event>, i: nat)
    requires IsRun(run, events) && i < |run| && run[i].outcome.Some?
    ensures forall c: Call :: run[i].answers[c] == if c in run[i].accepted then 1 else 0
    ensures run[i].outcome.value <==> run[i].quarantine == 0
    ensures run[i].available + |run[i].holding| + |run[i].replied| + run[i].quarantine == run[0].capacity
  {
    RunKeeps(run, events, i);
    var s := run[i];
    assert s.slots == map[];
    forall c: Call ensures s.answers[c] == if c in s.accepted then 1 else 0 {
      assert !InSlots(s.slots, c);
    }
  }

  /** The jobs joined so far that had failed. */
  function Failures(events: seq<Event>): nat {
    if events == [] then 0
    else Failures(events[..|events| - 1]) + if events[|events| - 1].Fail? then 1 else 0
  }

  lemma FailureCounts(s: State, e: Event)
    requires Inv(s) && Enabled(s, e)
    ensures Step(s, e).quarantine == s.quarantine + if e.Fail? then 1 else 0
  {
    if e.Drop? { DropKeeps(s); }
  }

  lemma QuarantineAt(run: seq<State>, events: seq<Event>, i: nat)
    requires IsRun(run, events) && i < |events|
    ensures run[i + 1].quarantine == run[i].quarantine + if events[i].Fail? then 1 else 0
  {
    RunKeeps(run, events, i);
    assert Follows(run, events, i);
    FailureCounts(run[i], events[i]);
  }

  lemma OutcomeTells(run: seq<State>, events: seq<Event>, i: nat)
    requires IsRun(run, events) && i < |run|
    ensures run[i].outcome.Some? ==> (run[i].outcome.value <==> run[i].quarantine == 0)
    ensures run[0].quarantine == 0
  {
    RunKeeps(run, events, i);
    var n: nat :| run[0] == Initial(n);
  }

  /** Exactly the permits of failed jobs are quarantined, before the drop and after it; the
      root returns Ok if and only if no job failed. */
  lemma {:induction false} QuarantineCounts(run: seq<State>, events: seq<Event>, i: nat)
    requires IsRun(run, events) && i < |run|
    ensures run[i].quarantine == Failures(events[..i])
    ensures run[i].outcome.Some? ==> (run[i].outcome.value <==> Failures(events[..i]) == 0)
  {
    OutcomeTells(run, events, i);
    if i > 0 {
      QuarantineCounts(run, events, i - 1);
      QuarantineAt(run, events, i - 1);
      assert events[..i][..i - 1] == events[..i - 1];
    }
  }

  /** An answer reaches its caller: while the caller waits, the reply waits for it, with its
      permit unless the job failed. */
  lemma AnswerWaits(run: seq<State>, events: seq<Event>, i: nat, c: Call)
    requires IsRun(run, events) && i < |run| && c in run[i].waiting
    ensures run[i].answers[c] > 0 <==> c in run[i].replied || c in run[i].bare
    ensures i < |events| && events[i].Finish? && events[i].job in run[i].slots && run[i].slots[events[i].job] == c ==>
              c in run[i + 1].replied
    ensures i < |events| && events[i].Fail? && events[i].job in run[i].slots && run[i].slots[events[i].job] == c ==>
              c in run[i + 1].bare
  {
    RunKeeps(run, events, i);
    if i < |events| { assert Follows(run, events, i); }
  }

  /** Once the root has noticed the stop, no envelope is accepted any more. */
  lemma StopClosesQueue(run: seq<State>, events: seq<Event>, i: nat, j: nat)
    requires IsRun(run, events) && i < j < |run| && events[i].ObserveStop?
    ensures run[j].accepted == run[i].accepted
    ensures j < |events| && events[j].Submit? ==> TrySend(run[j]) == Closed
  {
    assert Follows(run, events, i);
    OutcomeLatched(run, events, i + 1, j);
  }

  /** After a close, once the root has seen the end of its queue or returned, or its owner
      was dropped, no call is admitted any more. */
  lemma ClosedForGood(run: seq<State>, events: seq<Event>, i: nat, j: nat)
    requires IsRun(run, events) && i < j < |run|
    requires events[i].Close? || events[i].EndOfQueue? || events[i].Return? || events[i].Drop?
    ensures run[j].closing && (j < |events| ==> !events[j].Admit?)
  {
    RunKeeps(run, events, i + 1);
    assert Follows(run, events, i);
    OutcomeLatched(run, events, i + 1, j);
    if j < |events| { assert Follows(run, events, j); }
  }

  lemma ReplyKeepsQueue(s: State, c: Call)
    ensures ReplyWithPermit(s, c).queue == s.queue && ReplyBare(s, c).queue == s.queue
  {}

  lemma RootKeepsQueue(s: State, e: Event)
    requires Enabled(s, e) && (e.Finish? || e.Fail? || e.Drop?)
    ensures Step(s, e).queue == s.queue || Step(s, e).queue == []
  {
    if e.Drop? {
      RejectQueuedFrame(s.(closing := true, queueClosed := true));
    } else if e.job in s.slots {
      ReplyKeepsQueue(Unslotted(s, e.job), s.slots[e.job]);
      ReplyKeepsQueue(Withheld(Unslotted(s, e.job)), s.slots[e.job]);
    }
  }

  lemma QueueSteps(s: State, e: Event)
    requires Enabled(s, e)
    ensures var q := Step(s, e).queue;
            || q == s.queue || q == [] || (s.queue != [] && q == s.queue[1..])
            || (e.Submit? && q == s.queue + [e.call])
  {
    match e {
      case Finish(_) => RootKeepsQueue(s, e);
      case Fail(_) => RootKeepsQueue(s, e);
      case Drop => RootKeepsQueue(s, e);
      case _ =>
    }
  }

  lemma StaysAhead(run: seq<State>, events: seq<Event>, i: nat, c: Call, d: Call)
    requires IsRun(run, events) && i < |events| && events[i] != Submit(c) && c in run[i + 1].queue
    ensures c in run[i].queue
    ensures Ahead(run[i].queue, c, d) ==> Ahead(run[i + 1].queue, c, d)
  {
    RunKeeps(run, events, i);
    assert Follows(run, events, i);
    QueueSteps(run[i], events[i]);
    if Ahead(run[i].queue, c, d) { AheadOn(run[i].queue, run[i + 1].queue, c, d); }
  }

  lemma ComesLast(run: seq<State>, events: seq<Event>, i: nat, c: Call, d: Call)
    requires IsRun(run, events) && i < |events| && events[i] == Submit(d)
    requires c in run[i].queue && d in run[i + 1].queue
    ensures Ahead(run[i + 1].queue, c, d)
  {
    RunKeeps(run, events, i);
    assert Follows(run, events, i);
    assert d !in run[i].queue;
    AheadLast(run[i].queue, c, d);
  }

  lemma KnownStays(s: State, e: Event, c: Call)
    requires Inv(s) && Enabled(s, e) && c in s.known && (c in s.holding ==> e == Submit(c))
    ensures c in Step(s, e).known && c !in Step(s, e).holding
  {
    if e.Drop? { DropKeeps(s); }
  }

  lemma KnownAt(run: seq<State>, events: seq<Event>, i: nat, c: Call)
    requires IsRun(run, events) && i < |events|
    requires events[i] == Submit(c) || (c in run[i].known && c !in run[i].holding)
    ensures c in run[i + 1].known && c !in run[i + 1].holding
  {
    RunKeeps(run, events, i);
    assert Follows(run, events, i);
    KnownStays(run[i], events[i], c);
  }

  /** A call is sent once. */
  lemma {:induction false} SentOnce(run: seq<State>, events: seq<Event>, a: nat, c: Call, i: nat)
    requires IsRun(run, events) && a < i < |run| && events[a] == Submit(c)
    ensures c in run[i].known && c !in run[i].holding
    ensures i < |events| ==> events[i] != Submit(c)
    decreases i
  {
    if i > a + 1 { SentOnce(run, events, a, c, i - 1); }
    KnownAt(run, events, i - 1, c);
    if i < |events| { assert Follows(run, events, i); }
  }

  /** Envelopes are taken in the order they were sent: while one waits, none sent after it
      has been started or answered. */
  lemma {:induction false} TakenInOrder(run: seq<State>, events: seq<Event>, a: nat, b: nat, c: Call, d: Call, i: nat)
    requires IsRun(run, events) && a < b < i < |run| && events[a] == Submit(c) && events[b] == Submit(d)
    requires d in run[b + 1].queue && c in run[i].queue
    ensures Ahead(run[i].queue, c, d)
    decreases i
  {
    SentOnce(run, events, a, c, i - 1);
    StaysAhead(run, events, i - 1, c, d);
    if i > b + 1 {
      TakenInOrder(run, events, a, b, c, d, i - 1);
    } else {
      ComesLast(run, events, b, c, d);
    }
  }

  /** A dropped owner answers everything queued; what it leaks is what ran. */
  lemma DropAnswersQueue(s: State)
    requires Inv(s) && Enabled(s, Drop)
    ensures var t := Step(s, Drop);
            && (forall c | c in s.queue :: t.answers[c] == 1)
            && t.slots == s.slots && t.quarantine == s.quarantine
            && forall c | c in t.accepted :: t.answers[c] == 0 <==> InSlots(s.slots, c)
  {
    DropKeeps(s);
    forall c | c in s.queue ensures Step(s, Drop).answers[c] == 1 {
      assert c in s.accepted && multiset(s.queue)[c] >= 1;
    }
  }

  // ---------------------------------------------------------------------
  // The handler and the root, acting in place
  // ---------------------------------------------------------------------

  datatype Code = AccessDenied | RequestTimeout | ServiceUnavailable | Throttling

  /** What the root's select loop wakes up for. */
  datatype Wake = Joined(job: Job, failed: bool) | Envelope(job: Job) | NoEnvelope | Housekeeping

  /** Every method ends in the state `Step` gives, so by `StepKeeps` all of them,
      in any order and for any callers, keep `Inv`. */
  class Api {
    const capacity: nat
    var available: nat
    var holding: set<Call>
    var queue: seq<Call>
    var queueClosed: bool
    var closing: bool
    var jobs: set<Job>
    var slots: map<Job, Call>
    var quarantine: nat
    var waiting: set<Call>
    var replied: set<Call>
    var bare: set<Call>
    var incoming: bool
    var outcome: Option<bool>
    var dropped: bool
    ghost var known: set<Call>
    ghost var accepted: set<Call>
    ghost var answers: multiset<Call>

    ghost function View(): State
      reads this
    {
      State(capacity, available, holding, queue, queueClosed, closing, jobs, slots, quarantine, waiting, replied, bare,
            incoming, outcome, dropped, known, accepted, answers)
    }

    constructor (capacity: nat)
      ensures View() == Initial(capacity)
    {
      this.capacity, available, holding, queue, queueClosed, closing := capacity, capacity, {}, [], false, false;
      jobs, slots, quarantine, waiting, replied, bare := {}, map[], 0, {}, {}, {};
      incoming, outcome, dropped, known, accepted, answers := true, None, false, {}, {}, multiset{};
    }

    /** `handle`, up to the permit. */
    method Admit(call: Call, inScope: bool, inTime: bool) returns (r: Result<(), Code>)
      requires call !in known
      modifies this
      ensures r.Ok? <==> inScope && inTime && Enabled(old(View()), Event.Admit(call))
      ensures r.Ok? ==> View() == Step(old(View()), Event.Admit(call))
      ensures r.Err? ==> View() == old(View())
      ensures r.Err? ==> r.error == if !inScope then AccessDenied else if !inTime then RequestTimeout
                                    else if closing then ServiceUnavailable else Throttling
    {
      if !inScope { return Err(AccessDenied); }
      if !inTime { return Err(RequestTimeout); }
      if closing { return Err(ServiceUnavailable); }
      if available == 0 { return Err(Throttling); }
      available := available - 1;
      holding := holding + {call};
      known := known + {call};
      return Ok(());
    }

    /** `try_send`: the permit goes into the queue, or back to the semaphore. */
    method Submit(call: Call) returns (r: Result<(), Code>)
      requires call in holding
      modifies this
      ensures View() == Step(old(View()), Event.Submit(call))
      ensures r == match TrySend(old(View()))
                   case Queued => Ok(())
                   case Full => Err(Throttling)
                   case Closed => Err(ServiceUnavailable)
    {
      holding := holding - {call};
      if queueClosed {
        available := available + 1;
        return Err(ServiceUnavailable);
      }
      if |queue| >= capacity {
        available := available + 1;
        return Err(Throttling);
      }
      queue := queue + [call];
      waiting := waiting + {call};
      accepted := accepted + {call};
      return Ok(());
    }

    /** The caller leaves, with its reply or without; the receiver is gone. */
    method Leave(call: Call)
      requires call in waiting
      modifies this
      ensures View() == Step(old(View()), Abandon(call))
    {
      if call in replied { available := available + 1; }
      replied, bare, waiting := replied - {call}, bare - {call}, waiting - {call};
    }

    /** `reply.send` of a reply that carries its permit. */
    method Reply(call: Call)
      modifies this`available, this`replied, this`answers
      ensures View() == ReplyWithPermit(old(View()), call)
    {
      if call in waiting { replied := replied + {call}; } else { available := available + 1; }
      answers := answers + multiset{call};
    }

    method ReplyWithoutPermit(call: Call)
      modifies this`bare, this`answers
      ensures View() == ReplyBare(old(View()), call)
    {
      if call in waiting { bare := bare + {call}; }
      answers := answers + multiset{call};
    }

    method Start(job: Job)
      requires Enabled(View(), Event.Start(job))
      modifies this
      ensures View() == Step(old(View()), Event.Start(job))
    {
      jobs := jobs + {job};
      slots := slots[job := queue[0]];
      queue := queue[1..];
    }

    /** A joined job gives up its slot. */
    method TakeSlot(job: Job) returns (call: Option<Call>)
      requires job in jobs
      modifies this`jobs, this`slots
      ensures call == if job in old(slots) then Some(old(slots)[job]) else None
      ensures call.Some? ==> View() == Unslotted(old(View()), job)
      ensures call.None? ==> View() == old(View()).(jobs := old(jobs) - {job})
    {
      jobs := jobs - {job};
      if job !in slots { return None; }
      call := Some(slots[job]);
      slots := slots - {job};
    }

    method FinishOk(job: Job)
      requires Enabled(View(), Finish(job))
      modifies this`jobs, this`slots, this`available, this`replied, this`answers
      ensures View() == Step(old(View()), Finish(job))
    {
      var call := TakeSlot(job);
      if call.Some? { Reply(call.value); }
    }

    /** A worker that panicked or was cancelled keeps its permit out of use. */
    method FinishError(job: Job)
      requires Enabled(View(), Fail(job))
      modifies this`jobs, this`slots, this`quarantine, this`bare, this`answers
      ensures View() == Step(old(View()), Fail(job))
    {
      var call := TakeSlot(job);
      if call.Some? {
        quarantine := quarantine + 1;
        assert View() == Withheld(Unslotted(old(View()), job));
        ReplyWithoutPermit(call.value);
      }
    }

    /** One turn of the root: notice a stop, return when done, else serve `wake`. */
    method Turn(wake: Wake)
      requires outcome.None? && !dropped
      requires wake.Joined? ==> wake.job in jobs
      requires wake.Envelope? ==> queue != [] && wake.job !in jobs && incoming
      requires wake.NoEnvelope? ==> queue == [] && queueClosed && incoming
      modifies this
      ensures var s := old(View());
              var stopped := if s.closing then Step(s, ObserveStop) else s;
              View() ==
              if !s.incoming && s.jobs == {} then Step(stopped, Return)
              else match wake
                   case Joined(job, failed) => Step(stopped, if failed then Fail(job) else Finish(job))
                   case Envelope(job) => Step(stopped, Event.Start(job))
                   case NoEnvelope => Step(stopped, EndOfQueue)
                   case Housekeeping => stopped
    {
      if closing { NoticeStop(); }
      if !incoming && jobs == {} {
        SetOutcome();
        return;
      }
      match wake {
        case Joined(job, failed) => if failed { FinishError(job); } else { FinishOk(job); }
        case Envelope(job) => Start(job);
        case NoEnvelope => EndIncoming();
        case Housekeeping =>
      }
    }

    method NoticeStop()
      requires Enabled(View(), ObserveStop)
      modifies this`queueClosed
      ensures View() == Step(old(View()), ObserveStop)
    {
      queueClosed := true;
    }

    method SetOutcome()
      requires Enabled(View(), Return)
      modifies this`outcome
      ensures View() == Step(old(View()), Return)
    {
      outcome := Some(quarantine == 0);
    }

    method EndIncoming()
      requires Enabled(View(), EndOfQueue)
      modifies this`incoming, this`closing
      ensures View() == Step(old(View()), EndOfQueue)
    {
      incoming, closing := false, true;
    }

    method RejectQueue()
      modifies this`queue, this`available, this`replied, this`answers
      ensures View() == RejectQueued(old(View()))
    {
      while queue != []
        invariant RejectQueued(View()) == RejectQueued(old(View()))
        decreases |queue|
      {
        var call := queue[0];
        queue := queue[1..];
        Reply(call);
      }
    }

    /** The end of the owner. Its state was freed when the root returned Ok; otherwise
        `Drop for Owner` closes, answers what is queued and leaks the rest. */
    method DropOwner()
      requires !dropped
      modifies this
      ensures View() == Step(old(View()), Drop)
    {
      if outcome == Some(true) {
        FreeState();
      } else {
        CloseAll();
        RejectQueue();
      }
      Leak();
    }

    method FreeState()
      modifies this`available, this`jobs, this`slots, this`quarantine
      ensures View() == Freed(old(View()))
    {
      available := available + |slots| + quarantine;
      jobs, slots, quarantine := {}, map[], 0;
    }

    method CloseAll()
      modifies this`closing, this`queueClosed
      ensures View() == old(View()).(closing := true, queueClosed := true)
    {
      closing, queueClosed := true, true;
    }

    method Leak()
      modifies this`dropped
      ensures View() == old(View()).(dropped := true)
    {
      dropped := true;
    }
  }

  // ---------------------------------------------------------------------
  // The supervisor: one join, its answer kept
  // ---------------------------------------------------------------------

  datatype JoinError = Deadline | Failed

  class ApiSupervisor {
    var closing: bool
    var joined: bool
    var result: Option<Result<(), JoinError>>

    ghost predicate Valid()
      reads this
    {
      joined <==> result.Some?
    }

    constructor ()
      ensures Valid() && !closing && !joined
    {
      closing, joined, result := false, false, None;
    }

    /** `observed` is the root's answer if it comes before the deadline. The first
        answer is the answer of every later call; a deadline changes nothing. */
    method Shutdown(observed: Option<Result<(), JoinError>>) returns (r: Result<(), JoinError>)
      requires Valid()
      requires observed.Some? && observed.value.Err? ==> observed.value.error == Failed
      modifies this
      ensures Valid() && closing
      ensures result == if old(result).Some? then old(result) else observed
      ensures r == match result
                   case Some(answer) => answer
                   case None => Err(Deadline)
    {
      closing := true;
      if result.None? {
        if observed.None? { return Err(Deadline); }
        joined, result := true, observed;
      }
      return result.value;
    }
  }
}
