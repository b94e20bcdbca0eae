/** Resumable shutdown of the workflow owners.

    Each await ends in an answer, an expired deadline, or with its observer gone;
    a call that ends early leaves the controller as it is, and the next call
    resumes it. A ghost log records every observation of every owner. */
module Workflows {
  import opened Wrappers

  datatype Phase =
    | Accepting
    | Api(cutoff: nat)
    | ClosingApi
    | Grace(cutoff: nat)
    | Registry
    | Callbacks
    | Bridge
    | Done

  function Rank(phase: Phase): (rank: nat)
    ensures rank <= 7
  {
    match phase
    case Accepting => 0
    case Api(_) => 1
    case ClosingApi => 2
    case Grace(_) => 3
    case Registry => 4
    case Callbacks => 5
    case Bridge => 6
    case Done => 7
  }

  /** What is observed: a join of an owner, or the idle wait during grace. */
  datatype Owner = ApiRoot | Idle | RegistryRoot | CallbackRoot | BridgeRoot

  datatype Answer = Joined | Failed(error: nat) | Deadline | Abandoned

  datatype Observation = Observation(owner: Owner, answer: Answer)

  /** What a caller of the shutdown sees; `Dropped` is a caller that is gone. */
  datatype Outcome = Success | Failure(error: nat) | Expired | Dropped

  predicate Final(a: Answer) { a.Joined? || a.Failed? }

  function Last(log: seq<Observation>): Observation
    requires log != []
  {
    log[|log| - 1]
  }

  function Front(log: seq<Observation>): seq<Observation>
    requires log != []
  {
    log[..|log| - 1]
  }

  /** The owners that have given a final answer. */
  ghost function Settled(log: seq<Observation>): set<Owner> {
    if log == [] then {}
    else Settled(Front(log)) + if Final(Last(log).answer) then {Last(log).owner} else {}
  }

  /** The first failure ever observed. */
  function FirstError(log: seq<Observation>): Option<nat> {
    if log == [] then None
    else if FirstError(Front(log)).Some? then FirstError(Front(log))
    else if Last(log).answer.Failed? then Some(Last(log).answer.error)
    else None
  }

  lemma {:induction false} NoErrorNoFailure(log: seq<Observation>)
    ensures FirstError(log).None? <==> forall i | 0 <= i < |log| :: !log[i].answer.Failed?
  {
    if log != [] {
      NoErrorNoFailure(Front(log));
      if FirstError(log).None? {
        forall i | 0 <= i < |log| ensures !log[i].answer.Failed? {
          if i < |log| - 1 { assert log[i] == Front(log)[i]; }
        }
      } else if FirstError(Front(log)).Some? {
        var i :| 0 <= i < |log| - 1 && Front(log)[i].answer.Failed?;
        assert log[i].answer.Failed?;
      }
    }
  }

  predicate IsPrefix(a: seq<Observation>, b: seq<Observation>) {
    |a| <= |b| && forall i | 0 <= i < |a| :: a[i] == b[i]
  }

  datatype Request = Quiet | Cleanup

  /** Which owners are installed besides the API root and the registry. */
  datatype Installed = Installed(callbacks: bool, bridge: bool)

  /** The owners to be settled before `owner` may be observed. */
  function Earlier(owner: Owner, installed: Installed): set<Owner> {
    match owner
    case ApiRoot => {}
    case Idle => {ApiRoot}
    case RegistryRoot => {ApiRoot}
    case CallbackRoot => {ApiRoot, RegistryRoot}
    case BridgeRoot => if installed.callbacks then {ApiRoot, RegistryRoot, CallbackRoot} else {ApiRoot, RegistryRoot}
  }

  /** No owner is observed before the earlier ones gave a final answer, nor again
      after its own. */
  ghost predicate InOrder(log: seq<Observation>, installed: Installed) {
    log != [] ==>
      && InOrder(Front(log), installed)
      && Earlier(Last(log).owner, installed) <= Settled(Front(log))
      && Last(log).owner !in Settled(Front(log))
  }

  /** The owners settled once the shutdown has come to `phase`, the idle wait aside. */
  function Past(phase: Phase, installed: Installed): set<Owner> {
    var api := if Rank(phase) >= 3 then {ApiRoot} else {};
    var registry := if Rank(phase) >= 5 then {RegistryRoot} else {};
    var callbacks := if Rank(phase) >= 6 && installed.callbacks then {CallbackRoot} else {};
    var bridge := if Rank(phase) >= 7 && installed.bridge then {BridgeRoot} else {};
    api + registry + callbacks + bridge
  }

  ghost predicate PhaseMatches(phase: Phase, settled: set<Owner>, installed: Installed) {
    && (forall owner: Owner | owner != Idle :: owner in settled <==> owner in Past(phase, installed))
    && (Idle in settled ==> Rank(phase) >= 4)
  }

  lemma {:induction false} SettledAt(log: seq<Observation>, owner: Owner)
    ensures owner in Settled(log) <==> exists i :: 0 <= i < |log| && log[i].owner == owner && Final(log[i].answer)
  {
    if log != [] {
      SettledAt(Front(log), owner);
      if owner in Settled(Front(log)) {
        var i :| 0 <= i < |log| - 1 && Front(log)[i].owner == owner && Final(Front(log)[i].answer);
        assert log[i].owner == owner && Final(log[i].answer);
      } else if owner in Settled(log) {
        assert log[|log| - 1].owner == owner && Final(log[|log| - 1].answer);
      } else {
        forall i | 0 <= i < |log| ensures !(log[i].owner == owner && Final(log[i].answer)) {
          if i < |log| - 1 { assert log[i] == Front(log)[i]; }
        }
      }
    }
  }

  /** Before the k-th observation, this owner had joined or failed. */
  predicate EndedBefore(log: seq<Observation>, k: nat, owner: Owner)
    requires k <= |log|
  {
    exists i :: 0 <= i < k && log[i].owner == owner && (log[i].answer.Joined? || log[i].answer.Failed?)
  }

  /** The owners end one after the other: the API root, after the idle wait or without it the
      registry, then the callbacks if there are any, then the bridge. */
  lemma OwnersInTurn(log: seq<Observation>, installed: Installed, k: nat)
    requires InOrder(log, installed) && k < |log|
    ensures log[k].owner != ApiRoot ==> EndedBefore(log, k, ApiRoot)
    ensures log[k].owner == CallbackRoot || log[k].owner == BridgeRoot ==> EndedBefore(log, k, RegistryRoot)
    ensures log[k].owner == BridgeRoot && installed.callbacks ==> EndedBefore(log, k, CallbackRoot)
    ensures !EndedBefore(log, k, log[k].owner)
  {
    ObservedInOrder(log, installed, k);
    if log[k].owner != ApiRoot { assert ApiRoot in Earlier(log[k].owner, installed); }
  }

  predicate JoinedIn(log: seq<Observation>, owner: Owner) {
    exists i :: 0 <= i < |log| && log[i] == Observation(owner, Joined)
  }

  /** Every owner there is was joined without an error. */
  predicate AllJoined(log: seq<Observation>, installed: Installed) {
    && JoinedIn(log, ApiRoot) && JoinedIn(log, RegistryRoot)
    && (installed.callbacks ==> JoinedIn(log, CallbackRoot)) && (installed.bridge ==> JoinedIn(log, BridgeRoot))
  }

  lemma DoneJoined(log: seq<Observation>, installed: Installed)
    requires PhaseMatches(Done, Settled(log), installed) && FirstError(log).None?
    ensures AllJoined(log, installed)
  {
    NoErrorNoFailure(log);
    forall owner | owner != Idle && owner in Settled(log) ensures JoinedIn(log, owner) {
      SettledAt(log, owner);
      var i :| 0 <= i < |log| && log[i].owner == owner && Final(log[i].answer);
      assert log[i] == Observation(owner, Joined);
    }
  }

  /** In every log kept in order, the observation of an owner comes after a final
      answer of each earlier one, and before none of its own. */
  lemma {:induction false} ObservedInOrder(log: seq<Observation>, installed: Installed, k: nat)
    requires InOrder(log, installed) && k < |log|
    ensures forall earlier | earlier in Earlier(log[k].owner, installed) ::
              exists i :: 0 <= i < k && log[i].owner == earlier && Final(log[i].answer)
    ensures forall i | 0 <= i < k && log[i].owner == log[k].owner :: !Final(log[i].answer)
  {
    var front := Front(log);
    if k < |log| - 1 {
      assert forall i | 0 <= i <= k :: front[i] == log[i];
      ObservedInOrder(front, installed, k);
      forall earlier | earlier in Earlier(log[k].owner, installed)
        ensures exists i :: 0 <= i < k && log[i].owner == earlier && Final(log[i].answer)
      {
        var i :| 0 <= i < k && front[i].owner == earlier && Final(front[i].answer);
        assert log[i].owner == earlier;
      }
    } else {
      forall earlier | earlier in Earlier(log[k].owner, installed)
        ensures exists i :: 0 <= i < k && log[i].owner == earlier && Final(log[i].answer)
      {
        SettledAt(front, earlier);
        var i :| 0 <= i < k && front[i].owner == earlier && Final(front[i].answer);
        assert log[i].owner == earlier;
      }
      SettledAt(front, log[k].owner);
      forall i | 0 <= i < k && log[i].owner == log[k].owner ensures !Final(log[i].answer) {
        assert front[i] == log[i];
      }
    }
  }

  /** What a cleanup answers when the owners succeeded. */
  function AnswerOf(archive: Answer): Outcome {
    match archive
    case Joined => Success
    case Failed(error) => Failure(error)
    case Deadline => Expired
    case Abandoned => Dropped
  }

  function Cleanups(calls: seq<Request>): nat {
    if calls == [] then 0
    else Cleanups(calls[..|calls| - 1]) + if calls[|calls| - 1].Cleanup? then 1 else 0
  }

  predicate ArchivedAt(archived: seq<Answer>, i: int, a: Answer) {
    0 <= i < |archived| && archived[i] == a
  }

  /** Each cleanup joined the archive once, and those that succeeded joined it cleanly. */
  predicate CleanupsJoined(calls: seq<Request>, results: seq<Outcome>, archived: seq<Answer>, from: nat) {
    && |calls| == |results| && |archived| == from + Cleanups(calls)
    && forall i | 0 <= i < |calls| && calls[i].Cleanup? && results[i] == Success ::
         ArchivedAt(archived, from + Cleanups(calls[..i]), Joined)
  }

  lemma CleanupAdded(calls: seq<Request>, call: Request, results: seq<Outcome>, r: Outcome,
                     archived: seq<Answer>, after: seq<Answer>, from: nat)
    requires CleanupsJoined(calls, results, archived, from) && archived <= after
    requires |after| == |archived| + if call.Cleanup? then 1 else 0
    requires call.Cleanup? && r == Success ==> ArchivedAt(after, |archived|, Joined)
    ensures CleanupsJoined(calls + [call], results + [r], after, from)
  {
    var more := calls + [call];
    assert more[..|calls|] == calls;
    forall i | 0 <= i < |more| && more[i].Cleanup? && (results + [r])[i] == Success
      ensures ArchivedAt(after, from + Cleanups(more[..i]), Joined)
    {
      if i < |calls| {
        assert more[..i] == calls[..i];
        assert ArchivedAt(archived, from + Cleanups(calls[..i]), Joined);
      }
    }
  }

  class WorkflowSupervisor {
    const installed: Installed
    const drain: nat
    var phase: Phase
    var failure: Option<nat>
    var clock: nat
    var apiClosed: bool
    var registryClosed: bool
    var callbacksClosed: bool
    var bridgeClosed: bool
    ghost var log: seq<Observation>
    /** The grace cutoff, once it has been chosen. */
    ghost var cutoff: Option<nat>
    /** The answers of the archive, in the order of its joins. */
    ghost var archived: seq<Answer>
    /** The readings of the clock, in order. */
    ghost var readings: seq<nat>

    ghost predicate Valid()
      reads this
    {
      && InOrder(log, installed)
      && PhaseMatches(phase, Settled(log), installed)
      && failure == FirstError(log)
      && (phase.Api? || phase.Grace? ==> cutoff == Some(phase.cutoff))
      && (phase.Accepting? ==> cutoff.None?)
      && (!phase.Accepting? ==> apiClosed)
    }

    /** What no call ever takes back. */
    twostate predicate Evolves()
      reads this
    {
      && Rank(old(phase)) <= Rank(phase)
      && IsPrefix(old(log), log) && old(archived) <= archived && old(readings) <= readings
      && (old(failure).Some? ==> failure == old(failure))
      && (old(cutoff).Some? ==> cutoff == old(cutoff))
      && (old(phase) == Done ==> phase == Done && log == old(log) && failure == old(failure))
      && old(clock) <= clock
      && (old(apiClosed) ==> apiClosed)
    }

    constructor (installed: Installed, drain: nat)
      ensures Valid() && phase == Accepting && failure == None && log == [] && cutoff == None && archived == []
    {
      this.installed, this.drain := installed, drain;
      phase, failure, clock := Accepting, None, 0;
      apiClosed, registryClosed, callbacksClosed, bridgeClosed := false, false, false, false;
      log, cutoff, archived, readings := [], None, [], [];
    }

    method Now() returns (t: nat)
      modifies this`clock, this`readings
      ensures t == clock >= old(clock) && readings == old(readings) + [t]
    {
      var passed: nat :| passed >= 0;
      clock := clock + passed;
      t := clock;
      readings := readings + [t];
    }

    /** Observe an owner whose turn it is; any answer may come. */
    method Observe(owner: Owner) returns (a: Answer)
      requires InOrder(log, installed) && failure == FirstError(log)
      requires Earlier(owner, installed) <= Settled(log) && owner !in Settled(log)
      modifies this`log, this`failure
      ensures InOrder(log, installed) && failure == FirstError(log)
      ensures log == old(log) + [Observation(owner, a)]
      ensures Settled(log) == if Final(a) then old(Settled(log)) + {owner} else old(Settled(log))
      ensures old(failure).Some? ==> failure == old(failure)
      ensures old(failure).None? ==> failure == if a.Failed? then Some(a.error) else None
    {
      a := *;
      if a.Failed? { Fail(a.error); }
      ghost var before := log;
      log := log + [Observation(owner, a)];
      assert Front(log) == before;
    }

    method Fail(error: nat)
      modifies this`failure
      ensures failure == if old(failure).None? then Some(error) else old(failure)
    {
      if failure.None? { failure := Some(error); }
    }

    /** What one turn of the loop does: the phase rises, or the call ends with the
        observation that ended it. */
    twostate predicate Advanced(new end: Option<Outcome>)
      reads this
    {
      && Evolves() && cutoff == old(cutoff)
      && (end.None? ==> Rank(phase) > Rank(old(phase)))
      && (phase.Grace? ==> old(phase).Api? || phase == old(phase))
      && (old(phase).Api? && end.None? ==> phase == Grace(old(phase).cutoff))
      && (end.Some? ==> phase == old(phase) && log != [] &&
                        ((end.value == Expired && Last(log).answer == Deadline) ||
                         (end.value == Dropped && Last(log).answer == Abandoned)))
    }

    method JoinApi() returns (end: Option<Outcome>)
      requires Valid() && (phase.Api? || phase.ClosingApi?)
      modifies this`phase, this`log, this`failure
      ensures Valid() && Advanced(end)
    {
      var a := Observe(ApiRoot);
      if !Final(a) { return Some(if a == Deadline then Expired else Dropped); }
      match phase {
        case Api(cut) => phase := Grace(cut);
        case ClosingApi => phase := Registry;
      }
      return None;
    }

    /** The idle wait ends grace unless it expired before the cutoff. */
    method WaitIdle() returns (end: Option<Outcome>)
      requires Valid() && phase.Grace?
      modifies this`phase, this`log, this`failure, this`clock, this`readings
      ensures Valid() && Advanced(end)
      ensures log != [] && Last(log).owner == Idle
      ensures end.None? <==> Final(Last(log).answer) || (Last(log).answer == Deadline && clock >= old(phase).cutoff)
    {
      var a := Observe(Idle);
      if a == Abandoned { return Some(Dropped); }
      if a == Deadline {
        var now := Now();
        if now < phase.cutoff { return Some(Expired); }
      }
      phase := Registry;
      return None;
    }

    method JoinRegistry() returns (end: Option<Outcome>)
      requires Valid() && phase.Registry?
      modifies this`phase, this`log, this`failure
      ensures Valid() && Advanced(end)
    {
      var a := Observe(RegistryRoot);
      if !Final(a) { return Some(if a == Deadline then Expired else Dropped); }
      phase := Callbacks;
      return None;
    }

    method JoinCallbacks() returns (end: Option<Outcome>)
      requires Valid() && phase.Callbacks?
      modifies this`phase, this`log, this`failure
      ensures Valid() && Advanced(end)
    {
      if installed.callbacks {
        var a := Observe(CallbackRoot);
        if !Final(a) { return Some(if a == Deadline then Expired else Dropped); }
      }
      phase := Bridge;
      return None;
    }

    method JoinBridge() returns (end: Option<Outcome>)
      requires Valid() && phase.Bridge?
      modifies this`phase, this`log, this`failure
      ensures Valid() && Advanced(end)
    {
      if installed.bridge {
        var a := Observe(BridgeRoot);
        if !Final(a) { return Some(if a == Deadline then Expired else Dropped); }
      }
      phase := Done;
      return None;
    }

    /** One turn of the loop in `quiesce`. */
    method Advance() returns (end: Option<Outcome>)
      requires Valid() && !phase.Accepting? && !phase.Done?
      modifies this`phase, this`log, this`failure, this`clock, this`readings
      ensures Valid() && Advanced(end)
    {
      match phase {
        case Api(_) => end := JoinApi();
        case ClosingApi => end := JoinApi();
        case Grace(_) => end := WaitIdle();
        case Registry => end := JoinRegistry();
        case Callbacks => end := JoinCallbacks();
        case Bridge => end := JoinBridge();
      }
    }

    /** Close admission and choose the grace cutoff. */
    method Begin()
      requires Valid() && phase.Accepting?
      modifies this`clock, this`readings, this`apiClosed, this`phase, this`cutoff
      ensures Valid() && Evolves() && phase.Api?
      ensures |readings| == |old(readings)| + 1 && readings[|old(readings)|] >= old(clock)
      ensures cutoff == Some(readings[|old(readings)|] + drain)
    {
      var now := Now();
      apiClosed := true;
      phase := Api(now + drain);
      cutoff := Some(now + drain);
    }

    /** Resume the same controllers; the grace cutoff is chosen on the first call only. */
    method Quiesce() returns (r: Outcome)
      requires Valid()
      modifies this
      ensures Valid() && Evolves() && archived == old(archived)
      ensures old(phase).Accepting? ==> cutoff.Some? && cutoff.value >= old(clock) + drain
      ensures old(phase).Accepting? ==>
                |readings| > |old(readings)| && cutoff == Some(readings[|old(readings)|] + drain)
      ensures !old(phase).Accepting? ==> cutoff == old(cutoff)
      ensures Rank(old(phase)) >= 2 ==> !phase.Api? && (!old(phase).Grace? ==> !phase.Grace?)
      ensures r == Success <==> phase == Done && failure == None
      ensures r.Failure? <==> phase == Done && failure.Some?
      ensures r.Failure? ==> failure == Some(r.error)
      ensures r == Success ==> AllJoined(log, installed)
      ensures r == Expired || r == Dropped ==>
                log != [] && Last(log).answer == if r == Expired then Deadline else Abandoned
      ensures registryClosed == old(registryClosed) && callbacksClosed == old(callbacksClosed)
      ensures bridgeClosed == old(bridgeClosed)
    {
      if phase.Accepting? { Begin(); }
      label started:
      ghost var first := readings;
      while phase != Done
        invariant Valid() && Evolves() && !phase.Accepting? && archived == old(archived)
        invariant Rank(old(phase)) >= 2 ==> !phase.Api? && (!old(phase).Grace? ==> !phase.Grace?)
        invariant cutoff == old@started(cutoff) && first <= readings
        invariant registryClosed == old(registryClosed) && callbacksClosed == old(callbacksClosed)
        invariant bridgeClosed == old(bridgeClosed)
        decreases 7 - Rank(phase)
      {
        var end := Advance();
        if end.Some? { return end.value; }
      }
      if failure.None? { DoneJoined(log, installed); }
      return if failure.Some? then Failure(failure.value) else Success;
    }

    /** Close admission and leave the grace period, if it has not ended. */
    method SkipGrace()
      requires Valid()
      modifies this`apiClosed, this`phase
      ensures Valid() && apiClosed
      ensures phase == match old(phase)
                       case Accepting => ClosingApi
                       case Api(_) => ClosingApi
                       case Grace(_) => Registry
                       case _ => old(phase)
    {
      apiClosed := true;
      match phase {
        case Accepting => phase := ClosingApi;
        case Api(_) => phase := ClosingApi;
        case Grace(_) => phase := Registry;
        case _ =>
      }
    }

    /** Signal every owner; none of them is joined here. */
    method CloseOwners()
      modifies this`registryClosed, this`callbacksClosed, this`bridgeClosed
      ensures registryClosed && (installed.callbacks ==> callbacksClosed) && (installed.bridge ==> bridgeClosed)
    {
      registryClosed := true;
      if installed.callbacks { callbacksClosed := true; }
      if installed.bridge { bridgeClosed := true; }
    }

    /** Join the archive; any answer may come, at every call. */
    method JoinArchive() returns (a: Answer)
      modifies this`archived
      ensures archived == old(archived) + [a]
    {
      a := *;
      archived := archived + [a];
    }

    /** Final cleanup: skip grace, and signal every owner when it does not succeed. The
        archive is joined first; the owners are attempted whatever it answers, and its
        answer counts once they succeed. */
    method Shutdown() returns (r: Outcome)
      requires Valid()
      modifies this
      ensures Valid() && Evolves() && apiClosed
      ensures |archived| == |old(archived)| + 1
      ensures cutoff == old(cutoff) && !phase.Accepting? && !phase.Api? && !phase.Grace?
      ensures r == Success <==> phase == Done && failure == None && archived[|old(archived)|] == Joined
      ensures phase == Done && failure == None ==> r == AnswerOf(archived[|old(archived)|])
      ensures phase == Done && failure.Some? && archived[|old(archived)|] != Abandoned ==> r == Failure(failure.value)
      ensures archived[|old(archived)|] == Abandoned ==> r == Dropped && log == old(log)
      ensures r == Dropped && archived[|old(archived)|] != Abandoned ==> log != [] && Last(log).answer == Abandoned
      ensures r == Success ==> AllJoined(log, installed)
      ensures r != Success && r != Dropped ==>
                registryClosed && (installed.callbacks ==> callbacksClosed) && (installed.bridge ==> bridgeClosed)
    {
      SkipGrace();
      var archive := JoinArchive();
      if archive == Abandoned { return Dropped; }
      r := Quiesce();
      if r == Dropped { return; }
      if r == Success { r := AnswerOf(archive); }
      if r != Success { CloseOwners(); }
    }

    method Serve(call: Request) returns (r: Outcome)
      requires Valid()
      modifies this
      ensures Valid() && Evolves()
      ensures r == Success ==> phase == Done && failure == None && AllJoined(log, installed)
      ensures |archived| == |old(archived)| + if call.Cleanup? then 1 else 0
      ensures call.Cleanup? && r == Success ==> ArchivedAt(archived, |old(archived)|, Joined)
    {
      if call.Quiet? {
        r := Quiesce();
      } else {
        r := Shutdown();
      }
    }

    /** Any interleaving of the two calls; the answers of the owners and of the archive
        say which of them failed, outlasted its deadline or lost its caller. Success of
        a call means that all is done and no observation failed; success of a cleanup
        means that the archive, too, was joined in that call. */
    method Drive(calls: seq<Request>) returns (results: seq<Outcome>)
      requires Valid()
      modifies this
      ensures Valid() && Evolves() && |results| == |calls|
      ensures forall i | 0 <= i < |results| && results[i] == Success ::
                phase == Done && AllJoined(log, installed) && forall k | 0 <= k < |log| :: !log[k].answer.Failed?
      ensures CleanupsJoined(calls, results, archived, |old(archived)|)
    {
      results := [];
      for i := 0 to |calls|
        invariant Valid() && Evolves() && |results| == i
        invariant forall k | 0 <= k < i && results[k] == Success ::
                    phase == Done && failure == None && AllJoined(log, installed)
        invariant CleanupsJoined(calls[..i], results, archived, |old(archived)|)
      {
        ghost var before := archived;
        var r := Serve(calls[i]);
        CleanupAdded(calls[..i], calls[i], results, r, before, archived, |old(archived)|);
        assert calls[..i + 1] == calls[..i] + [calls[i]];
        results := results + [r];
      }
      assert calls[..|calls|] == calls;
      NoErrorNoFailure(log);
    }
  }
}
