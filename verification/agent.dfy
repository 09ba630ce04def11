/** The agent's side of the control-plane connection: what it has installed, how it
    counts failures, and when it empties its rules. */
module Agent {

  import opened Policy
  import opened Results

  datatype OfflineMode = UnloadRules | KeepRules

  const U32_MAX: U32 := 0xFFFF_FFFF

  // ------------------------------------------------------ the failure counter

  datatype Offline = Offline(consecutiveFailures: U32, rulesUnloaded: bool)

  const NEVER_FAILED: Offline := Offline(0, false)

  class OfflinePolicyState {
    var consecutiveFailures: U32
    var rulesUnloaded: bool

    constructor ()
      ensures Value() == NEVER_FAILED
    {
      consecutiveFailures, rulesUnloaded := 0, false;
    }

    function Value(): Offline
      reads this
    {
      Offline(consecutiveFailures, rulesUnloaded)
    }

    method RecordControlPlaneFailure() returns (failures: U32)
      modifies this
      ensures failures == consecutiveFailures
      ensures Value() == old(Value()).(consecutiveFailures :=
                if old(consecutiveFailures) == U32_MAX then U32_MAX else old(consecutiveFailures) + 1)
    {
      consecutiveFailures := if consecutiveFailures == U32_MAX then U32_MAX else consecutiveFailures + 1;
      failures := consecutiveFailures;
    }

    method RecordControlPlaneHealthy()
      modifies this
      ensures Value() == old(Value()).(consecutiveFailures := 0)
    {
      consecutiveFailures := 0;
    }

    method RecordPolicyApplied()
      modifies this
      ensures Value() == NEVER_FAILED
    {
      consecutiveFailures := 0;
      rulesUnloaded := false;
    }

    method ShouldUnloadRules(mode: OfflineMode, failureLimit: U32) returns (unload: bool)
      ensures unload <==> mode == UnloadRules && !rulesUnloaded && consecutiveFailures >= failureLimit
    {
      unload := mode == UnloadRules && !rulesUnloaded && consecutiveFailures >= failureLimit;
    }
  }

  // ----------------------------------------------------------- the agent's state

  /** What the kernel maps hold: nothing, an unknown mix left by an apply that
      stopped half-way, or one policy. */
  datatype Installed<+C> = Blank | Dirty | Holds(content: C)

  datatype AgentState<+C> = AgentState(
    appliedVersion: int, installed: Installed<C>, dropMonitor: bool, offline: Offline)

  function Attached<C>(): AgentState<C>
  {
    AgentState(-1, Blank, false, NEVER_FAILED)
  }

  function AfterFailure(o: Offline): Offline
  {
    o.(consecutiveFailures := if o.consecutiveFailures == U32_MAX then U32_MAX else o.consecutiveFailures + 1)
  }

  /** One more control-plane failure empties the rules. */
  predicate Unloads(o: Offline, mode: OfflineMode, failureLimit: U32)
  {
    mode == UnloadRules && !o.rulesUnloaded && AfterFailure(o).consecutiveFailures >= failureLimit
  }

  function Failed<C>(a: AgentState<C>, mode: OfflineMode, failureLimit: U32): AgentState<C>
  {
    if Unloads(a.offline, mode, failureLimit)
    then AgentState(-1, Blank, false, AfterFailure(a.offline).(rulesUnloaded := true))
    else a.(offline := AfterFailure(a.offline))
  }

  function AppliedOk<C>(a: AgentState<C>, version: int, content: C, dropMonitor: bool): AgentState<C>
  {
    AgentState(version, Holds(content), dropMonitor, NEVER_FAILED)
  }

  function ApplyFailed<C>(a: AgentState<C>, partly: bool, dropMonitor: bool): AgentState<C>
  {
    a.(installed := if partly then Dirty else a.installed, dropMonitor := dropMonitor)
  }

  function Healthy<C>(a: AgentState<C>): AgentState<C>
  {
    a.(offline := a.offline.(consecutiveFailures := 0))
  }

  /** How applying a policy ends. */
  datatype ApplyOutcome = Applied | Refused | HalfWritten

  class AgentRuntime<C(==)> {
    const mode: OfflineMode
    const failureLimit: U32
    const offline: OfflinePolicyState
    var appliedVersion: int
    var installed: Installed<C>
    var dropMonitor: bool

    constructor (mode: OfflineMode, failureLimit: U32)
      ensures Value() == Attached() && fresh(offline)
      ensures this.mode == mode && this.failureLimit == failureLimit
    {
      this.mode, this.failureLimit := mode, failureLimit;
      appliedVersion, installed, dropMonitor := -1, Blank, false;
      offline := new OfflinePolicyState();
    }

    function Value(): AgentState<C>
      reads this, offline
    {
      AgentState(appliedVersion, installed, dropMonitor, offline.Value())
    }

    method HandleControlPlaneFailure()
      modifies this, offline
      ensures Value() == Failed(old(Value()), mode, failureLimit)
    {
      var failures := offline.RecordControlPlaneFailure();
      var unload := offline.ShouldUnloadRules(mode, failureLimit);
      if unload {
        dropMonitor := false;
        installed := Blank;
        appliedVersion := -1;
        offline.rulesUnloaded := true;
      }
    }

    /** A monitor setting, or a decoded policy and how applying it ended. Says whether
        the stream goes on. */
    method ProcessPolicyUpdate(monitor: bool, policy: Option<(int, C)>, outcome: ApplyOutcome, heartbeat: bool)
      returns (goesOn: bool)
      modifies this, offline
      ensures policy.None? ==> goesOn && Value() == old(Value()).(dropMonitor := monitor)
      ensures policy.Some? && outcome == Applied ==>
                var a := AppliedOk(old(Value()), policy.value.0, policy.value.1, monitor);
                goesOn == heartbeat && Value() == if heartbeat then Healthy(a) else Failed(a, mode, failureLimit)
      ensures policy.Some? && outcome != Applied ==>
                !goesOn && Value() == ApplyFailed(old(Value()), outcome == HalfWritten, monitor)
      ensures policy.Some? && outcome != Applied ==>
                && appliedVersion == old(appliedVersion) && dropMonitor == monitor
                && offline.Value() == old(offline.Value())
                && installed == if outcome == HalfWritten then Dirty else old(installed)
    {
      dropMonitor := monitor;
      match policy {
        case None =>
          return true;
        case Some((version, content)) =>
          if outcome != Applied {
            installed := if outcome == HalfWritten then Dirty else installed;
            return false;
          }
          installed, appliedVersion := Holds(content), version;
          offline.RecordPolicyApplied();
          if !heartbeat {
            HandleControlPlaneFailure();
            return false;
          }
          offline.RecordControlPlaneHealthy();
          return true;
      }
    }
  }

  // ------------------------------------------------------------ runs of events

  datatype Event = Failure | Report | Apply

  function OfflineStep(before: Offline, e: Event, mode: OfflineMode, failureLimit: U32): Offline
  {
    match e
    case Failure =>
      AfterFailure(before).(rulesUnloaded := before.rulesUnloaded || Unloads(before, mode, failureLimit))
    case Report => before.(consecutiveFailures := 0)
    case Apply => NEVER_FAILED
  }

  /** State after the first `n` events. */
  function OfflineAfter(events: seq<Event>, n: nat, mode: OfflineMode, failureLimit: U32): Offline
    requires n <= |events|
  {
    if n == 0 then NEVER_FAILED
    else OfflineStep(OfflineAfter(events, n - 1, mode, failureLimit), events[n - 1], mode, failureLimit)
  }

  /** The rules are emptied at event `i`. */
  predicate UnloadsAt(events: seq<Event>, i: nat, mode: OfflineMode, failureLimit: U32)
    requires i < |events|
  {
    events[i] == Failure && Unloads(OfflineAfter(events, i, mode, failureLimit), mode, failureLimit)
  }

  /** Failures that end the first `n` events with nothing good between them, uncapped. */
  function Streak(events: seq<Event>, n: nat): nat
    requires n <= |events|
  {
    if n > 0 && events[n - 1] == Failure then 1 + Streak(events, n - 1) else 0
  }

  /** No policy was applied from event `i` up to event `n`. */
  predicate NoApplySince(events: seq<Event>, i: nat, n: nat)
    requires n <= |events|
  {
    forall j :: i <= j < n ==> events[j] != Apply
  }

  /** Event `i` is a failure that completes a streak of at least the limit. */
  predicate ReachesAt(events: seq<Event>, i: nat, failureLimit: U32)
    requires i < |events|
  {
    events[i] == Failure && Streak(events, i + 1) >= failureLimit
  }

  /** Among the first `n` events the limit was reached since the last applied policy. */
  ghost predicate ReachedSinceApply(events: seq<Event>, n: nat, failureLimit: U32)
    requires n <= |events|
  {
    exists i :: 0 <= i < n && NoApplySince(events, i, n) && ReachesAt(events, i, failureLimit)
  }

  lemma ReachedStep(events: seq<Event>, n: nat, failureLimit: U32)
    requires n < |events|
    ensures ReachedSinceApply(events, n + 1, failureLimit) <==>
              events[n] != Apply && (ReachedSinceApply(events, n, failureLimit) || ReachesAt(events, n, failureLimit))
  {
    if ReachedSinceApply(events, n + 1, failureLimit) {
      var i :| 0 <= i < n + 1 && NoApplySince(events, i, n + 1) && ReachesAt(events, i, failureLimit);
      assert i == n || NoApplySince(events, i, n);
    }
    if events[n] != Apply && ReachedSinceApply(events, n, failureLimit) {
      var i :| 0 <= i < n && NoApplySince(events, i, n) && ReachesAt(events, i, failureLimit);
      assert NoApplySince(events, i, n + 1);
    }
    if events[n] != Apply && ReachesAt(events, n, failureLimit) {
      assert NoApplySince(events, n, n + 1);
    }
  }

  /** The saturating counter and the flag say exactly what happened. */
  lemma {:induction false} OfflineTellsTheRun(events: seq<Event>, n: nat, mode: OfflineMode, failureLimit: U32)
    requires n <= |events|
    ensures var o := OfflineAfter(events, n, mode, failureLimit);
            && o.consecutiveFailures == (if Streak(events, n) < U32_MAX then Streak(events, n) else U32_MAX)
            && (o.rulesUnloaded <==> mode == UnloadRules && ReachedSinceApply(events, n, failureLimit))
  {
    if n == 0 {
    } else {
      OfflineTellsTheRun(events, n - 1, mode, failureLimit);
      ReachedStep(events, n - 1, failureLimit);
    }
  }

  /** Rules are emptied exactly at the first failure, since the last applied policy,
      that completes a streak of at least the limit; the saturation never matters. */
  lemma UnloadedExactlyOnce(events: seq<Event>, i: nat, mode: OfflineMode, failureLimit: U32)
    requires i < |events|
    ensures UnloadsAt(events, i, mode, failureLimit) <==>
              && mode == UnloadRules
              && ReachesAt(events, i, failureLimit)
              && !ReachedSinceApply(events, i, failureLimit)
  {
    OfflineTellsTheRun(events, i, mode, failureLimit);
  }
}
