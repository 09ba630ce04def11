/** What the distribution protocol guarantees over every run, and where it settles. */
module Convergence {

  import opened Net
  import opened Policy
  import opened GeoPages
  import opened PolicyStream
  import opened Agent
  import opened Xds
  import opened Results

  // ------------------------------------------------------------------ safety

  ghost predicate Reaches(c: Config, history: seq<Db>, runtime: set<Cidr>, w: World)
    requires |history| > 0
  {
    exists steps :: Run(c, Initial(history, runtime), steps) == Some(w)
  }

  lemma {:induction false} RunKeepsInv(c: Config, history: seq<Db>, runtime: set<Cidr>, steps: seq<Step>)
    requires |history| > 0 && Run(c, Initial(history, runtime), steps).Some?
    ensures Inv(c, Run(c, Initial(history, runtime), steps).value)
  {
    if steps == [] {
    } else {
      RunKeepsInv(c, history, runtime, steps[..|steps| - 1]);
      InvStep(c, Run(c, Initial(history, runtime), steps[..|steps| - 1]).value, steps[|steps| - 1]);
    }
  }

  lemma ReachesInv(c: Config, history: seq<Db>, runtime: set<Cidr>, w: World)
    requires |history| > 0 && Reaches(c, history, runtime, w)
    ensures Inv(c, w)
  {
    var steps :| Run(c, Initial(history, runtime), steps) == Some(w);
    RunKeepsInv(c, history, runtime, steps);
  }

  /** The tables and GeoIP prefixes are those of the database now. */
  ghost predicate IsActive(w: World, content: Content)
  {
    && |content.snapshot.loaded| == TABLES
    && (forall i :: 0 <= i < TABLES ==> content.snapshot.loaded[i].rows == Active(Now(w), i))
    && Unpaged(Countries(Now(w)), Now(w).geo) == Ok(content.geo)
  }

  /** The GeoIP prefixes of an active policy are those the rows of the listed countries
      list, and nothing else. */
  lemma ActiveGeo(w: World, content: Content, p: XdpGeoPrefix)
    requires IsActive(w, content)
    ensures p in content.geo <==>
            exists row, country ::
              row in Now(w).tables[1] && NormalizeCountry(row.key) == Some(country) && IsListed(Now(w).geo, country, p)
  {
    var rows, countries := Now(w).tables[1], Countries(Now(w));
    ListingHolds(countries, Now(w).geo, 0, p);
    if row, country :|
      row in rows && NormalizeCountry(row.key) == Some(country) && IsListed(Now(w).geo, country, p) {
      var k :| 0 <= k < |rows| && rows[k] == row;
      assert countries[k] == Some(country);
    }
    if k :| 0 <= k < |countries| && countries[k].Some? && IsListed(Now(w).geo, countries[k].value, p) {
      assert rows[k] in rows && NormalizeCountry(rows[k].key) == countries[k];
    }
  }

  /** A snapshot whose version is the database's was read from it as a whole. */
  lemma WholeIsActive(w: World, sn: Snapshot)
    requires WholeOk(w.history, sn) && sn.version == w.Version()
    ensures forall i :: 0 <= i < TABLES ==> sn.loaded[i].rows == Active(Now(w), i)
  {
    forall i | 0 <= i < TABLES
      ensures sn.loaded[i].rows == Active(Now(w), i)
    {
      assert ReadOk(w.history, sn, i) && ReadOk(w.history, sn, THREAT_SOURCES);
    }
  }

  /** No lost update. Whatever the interleaving, every table of an installed policy was
      read at a version no older than the one the agent reports, which is no older than
      the label the server's cursor keeps; so an agent that reports the database's
      version runs the database's policy, unless an apply stopped half-way left it with a
      mix. An agent that reports any version was not emptied since. */
  lemma NoLostUpdate(c: Config, history: seq<Db>, runtime: set<Cidr>, w: World)
    requires |history| > 0 && Reaches(c, history, runtime, w)
    ensures w.agent.appliedVersion <= w.Version()
    ensures w.agent.installed.Holds? ==>
              var sn := w.agent.installed.content.snapshot;
              && sn.stamp <= sn.version == w.agent.appliedVersion
              && |sn.loaded| == TABLES
              && forall i :: 0 <= i < TABLES ==> w.agent.appliedVersion <= sn.loaded[i].at <= w.Version()
    ensures w.agent.appliedVersion == w.Version() ==>
              w.agent.installed.Dirty? || (w.agent.installed.Holds? && IsActive(w, w.agent.installed.content))
    ensures w.agent.installed.Blank? ==> w.agent.appliedVersion == -1
  {
    ReachesInv(c, history, runtime, w);
    if w.agent.installed.Holds? {
      var sn := w.agent.installed.content.snapshot;
      forall i | 0 <= i < TABLES
        ensures sn.version <= sn.loaded[i].at <= w.Version()
      {
        assert ReadOk(w.history, sn, i);
      }
      if sn.version == w.Version() {
        WholeIsActive(w, sn);
      }
    }
  }

  // ----------------------------------------------- the failure counter in a run

  /** What a step of the protocol is to the failure counter. */
  function OfflineEvent(step: Step): seq<Event>
  {
    match step
    case ControlPlaneFails => [Failure]
    case Report => [Event.Report]
    case ApplyEnds(Applied) => [Apply]
    case _ => []
  }

  function OfflineEvents(steps: seq<Step>): seq<Event>
  {
    if steps == [] then [] else OfflineEvents(steps[..|steps| - 1]) + OfflineEvent(steps[|steps| - 1])
  }

  /** A step moves the agent's counter as its event does, and no other step moves it. */
  lemma StepMovesOffline(c: Config, w: World, step: Step, w': World)
    requires Do(c, w, step) == Some(w')
    ensures w'.agent.offline ==
            if OfflineEvent(step) == [] then w.agent.offline
            else OfflineStep(w.agent.offline, OfflineEvent(step)[0], c.mode, c.failureLimit)
  {
  }

  lemma {:induction false} OfflineOfPrefix(events: seq<Event>, more: seq<Event>, n: nat, mode: OfflineMode, limit: U32)
    requires n <= |events|
    ensures OfflineAfter(events + more, n, mode, limit) == OfflineAfter(events, n, mode, limit)
  {
    if n == 0 {
    } else {
      OfflineOfPrefix(events, more, n - 1, mode, limit);
    }
  }

  /** The agent's counter in a reached world is that of the run's failures, reports and
      applied policies. */
  lemma {:induction false} OfflineFollowsTheRun(
    c: Config, history: seq<Db>, runtime: set<Cidr>, steps: seq<Step>, w: World)
    requires |history| > 0 && Run(c, Initial(history, runtime), steps) == Some(w)
    ensures w.agent.offline == OfflineAfter(OfflineEvents(steps), |OfflineEvents(steps)|, c.mode, c.failureLimit)
  {
    if steps == [] {
    } else {
      var before, step := steps[..|steps| - 1], steps[|steps| - 1];
      var v := Run(c, Initial(history, runtime), before).value;
      OfflineFollowsTheRun(c, history, runtime, before, v);
      StepMovesOffline(c, v, step, w);
      OneMoreEvent(OfflineEvents(before), OfflineEvent(step), c.mode, c.failureLimit);
    }
  }

  lemma OneMoreEvent(events: seq<Event>, more: seq<Event>, mode: OfflineMode, limit: U32)
    requires |more| <= 1
    ensures var o := OfflineAfter(events, |events|, mode, limit);
            OfflineAfter(events + more, |events + more|, mode, limit) ==
              if more == [] then o else OfflineStep(o, more[0], mode, limit)
  {
    OfflineOfPrefix(events, more, |events|, mode, limit);
    if more == [] {
      assert events + more == events;
    }
  }

  /** In every run of the protocol a control-plane failure empties the agent exactly when
      it is the first, since the last applied policy, to complete a streak of failures of
      at least the limit: so at most once until the next policy is applied. */
  lemma EmptiedOncePerApply(c: Config, history: seq<Db>, runtime: set<Cidr>, steps: seq<Step>, w: World, w': World)
    requires |history| > 0 && Run(c, Initial(history, runtime), steps) == Some(w)
    requires Do(c, w, ControlPlaneFails) == Some(w')
    ensures var events := OfflineEvents(steps) + [Failure];
            (!w.agent.offline.rulesUnloaded && w'.agent.offline.rulesUnloaded) <==>
              && c.mode == UnloadRules
              && ReachesAt(events, |events| - 1, c.failureLimit)
              && !ReachedSinceApply(events, |events| - 1, c.failureLimit)
  {
    var before := OfflineEvents(steps);
    var events := before + [Failure];
    OfflineFollowsTheRun(c, history, runtime, steps, w);
    OfflineOfPrefix(before, [Failure], |before|, c.mode, c.failureLimit);
    UnloadedExactlyOnce(events, |before|, c.mode, c.failureLimit);
  }

  /** An emptied agent asks for everything: until the next policy is applied its version
      is -1, every stream it opens starts there, and every poll of such a stream that has
      not yet sent a policy finds one due. */
  lemma EmptiedAgentReloads(c: Config, history: seq<Db>, runtime: set<Cidr>, w: World)
    requires |history| > 0 && Reaches(c, history, runtime, w) && w.agent.offline.rulesUnloaded
    ensures w.agent.appliedVersion == -1
    ensures w.stream.Some? && InFlight(w) == [] ==>
              && w.stream.value.cursor.version == -1
              && forall stamp: nat, r: set<Cidr> ::
                   !PolicyUpdateUnchanged(c.runtimeEnabled, stamp, r, w.stream.value.cursor)
  {
    ReachesInv(c, history, runtime, w);
  }

  /** The failure that empties the agent also ends its stream: the next one is new. */
  lemma UnloadEndsTheStream(c: Config, w: World, step: Step)
    requires Do(c, w, step).Some?
    requires !w.agent.offline.rulesUnloaded && Do(c, w, step).value.agent.offline.rulesUnloaded
    ensures var w' := Do(c, w, step).value;
            && step == ControlPlaneFails && Unloads(w.agent.offline, c.mode, c.failureLimit)
            && w'.stream == None && w'.doing == Disconnected && w'.agent.installed == Blank && !w'.agent.dropMonitor
  {
  }

  // ----------------------------------------------------------- the monitor flag

  /** The newest flag sent is what the cursor keeps. */
  ghost predicate MonitorOk(w: World)
  {
    w.stream.Some? && w.stream.value.open ==>
      var s := w.stream.value;
      if s.phase.Starting? then s.channel == [] && w.doing.Listening? && s.cursor.fingerprint.None?
      else if s.channel != [] then s.channel[|s.channel| - 1].monitor == s.cursor.monitor
      else if w.doing.Fetching? then w.doing.monitor == s.cursor.monitor
      else s.cursor.fingerprint.Some? ==> w.agent.dropMonitor == s.cursor.monitor
  }

  /** The cursor's flag is right unless a change is still to be announced or noticed. */
  ghost predicate NoticeOk(w: World)
  {
    w.stream.Some? && w.stream.value.open && !w.stream.value.phase.Starting? ==>
      (w.stream.value.cursor.monitor <==> w.subs > 0) || w.owed > 0 || w.stream.value.unseen
  }

  lemma MonitorOkServer(c: Config, w: World, s: Stream, step: Step, s': Stream)
    requires w.stream == Some(s) && IsServer(step) && Server(c, w, s, step) == Some(s') && MonitorOk(w)
    ensures MonitorOk(w.(stream := Some(s')))
  {
  }

  lemma MonitorOkAgent(c: Config, w: World, step: Step, w': World)
    requires !IsEnvironment(step) && !IsServer(step) && AgentDoes(c, w, step) == Some(w') && MonitorOk(w)
    ensures MonitorOk(w')
  {
  }

  lemma MonitorOkStep(c: Config, w: World, step: Step)
    requires Do(c, w, step).Some? && MonitorOk(w)
    ensures MonitorOk(Do(c, w, step).value)
  {
    var w' := Do(c, w, step).value;
    if IsServer(step) {
      MonitorOkServer(c, w, w.stream.value, step, w'.stream.value);
    } else if !IsEnvironment(step) {
      MonitorOkAgent(c, w, step, w');
    }
  }

  lemma NoticeOkServer(c: Config, w: World, s: Stream, step: Step, s': Stream)
    requires w.stream == Some(s) && IsServer(step) && Server(c, w, s, step) == Some(s') && NoticeOk(w)
    ensures NoticeOk(w.(stream := Some(s')))
  {
  }

  lemma NoticeOkStep(c: Config, w: World, step: Step)
    requires Do(c, w, step).Some? && NoticeOk(w)
    ensures NoticeOk(Do(c, w, step).value)
  {
    if IsServer(step) {
      NoticeOkServer(c, w, w.stream.value, step, Do(c, w, step).value.stream.value);
    }
  }

  lemma {:induction false} RunKeepsMonitor(c: Config, history: seq<Db>, runtime: set<Cidr>, steps: seq<Step>)
    requires |history| > 0 && Run(c, Initial(history, runtime), steps).Some?
    ensures var w := Run(c, Initial(history, runtime), steps).value;
            Inv(c, w) && MonitorOk(w) && NoticeOk(w)
  {
    if steps == [] {
    } else {
      RunKeepsMonitor(c, history, runtime, steps[..|steps| - 1]);
      var w := Run(c, Initial(history, runtime), steps[..|steps| - 1]).value;
      InvStep(c, w, steps[|steps| - 1]);
      MonitorOkStep(c, w, steps[|steps| - 1]);
      NoticeOkStep(c, w, steps[|steps| - 1]);
    }
  }

  // ------------------------------------------------------- with a version row

  ghost predicate Ascending(low: int, sns: seq<Snapshot>)
  {
    && (forall i :: 0 <= i < |sns| ==> low < sns[i].stamp)
    && (forall i, j :: 0 <= i < j < |sns| ==> sns[i].stamp < sns[j].stamp)
  }

  /** Policies on their way carry rising labels, all above the applied version. */
  ghost predicate Rising(w: World)
  {
    Ascending(Low(w.agent.appliedVersion), InFlight(w))
  }

  /** Once the version row exists and no runtime networks are configured, labels are
      positive, and past its first page check a policy's label is its version. */
  ghost predicate Labels(w: World)
  {
    && |w.history| >= 2
    && (w.doing.Fetching? && !w.doing.fetch.paging.Between? ==> w.doing.snapshot.stamp == w.doing.snapshot.version)
    && (w.agent.installed.Holds? ==> w.agent.installed.content.snapshot.stamp == w.agent.appliedVersion)
    && (w.agent.installed.Dirty? ==> w.agent.appliedVersion < w.Version())
    && (w.stream.Some? ==> PhasePositive(w.stream.value.phase))
  }

  ghost predicate Ordered(w: World)
  {
    Rising(w) && Labels(w)
  }

  ghost predicate PhasePositive(phase: Phase)
  {
    match phase
    case Labelled(stamp) => stamp > 0
    case Changed(stamp, _) => stamp > 0
    case Loading(sn) => sn.stamp > 0
    case _ => true
  }

  /** With no policy sent on the current stream, the agent is behind. */
  ghost predicate Behindhand(w: World)
  {
    w.stream.None? || w.stream.value.cursor.fingerprint.None? ==> w.agent.appliedVersion < w.Version()
  }

  /** A due policy is newer than every one in flight and than the one applied. */
  lemma DueIsNewest(cursor: Cursor, inFlight: seq<Snapshot>, agent: AgentState<Content>, sn: Snapshot)
    requires CursorFollows(cursor, inFlight, agent) && sn.stamp > 0 && sn.stamp > cursor.version
    requires agent.installed.Holds? ==> agent.installed.content.snapshot.stamp == agent.appliedVersion
    requires Ascending(Low(agent.appliedVersion), inFlight)
    ensures Ascending(Low(agent.appliedVersion), inFlight + [sn])
  {
  }

  lemma RisingServer(c: Config, w: World, s: Stream, step: Step, s': Stream)
    requires w.stream == Some(s) && IsServer(step) && Server(c, w, s, step) == Some(s')
    requires !c.runtimeEnabled && CursorOk(w) && DueOk(c, w) && Ordered(w)
    ensures Rising(w.(stream := Some(s')))
  {
    InFlightServer(c, w, s, step, s');
    if step.SendUpdate? && s'.open {
      DueIsNewest(s.cursor, InFlight(w), w.agent, s.phase.snapshot);
    }
  }

  lemma LabelsServer(c: Config, w: World, s: Stream, step: Step, s': Stream)
    requires w.stream == Some(s) && IsServer(step) && Server(c, w, s, step) == Some(s') && Labels(w)
    ensures Labels(w.(stream := Some(s')))
  {
  }

  lemma AscendingPop(low: int, sn: Snapshot, rest: seq<Snapshot>)
    requires Ascending(low, [sn] + rest)
    ensures sn.stamp > low && Ascending(sn.stamp, rest)
  {
    var all := [sn] + rest;
    assert all[0] == sn && forall i :: 0 <= i < |rest| ==> rest[i] == all[i + 1];
  }

  function Low(appliedVersion: int): int
  {
    if appliedVersion > 0 then appliedVersion else 0
  }

  lemma RisingApplied(c: Config, w: World, w': World)
    requires AgentDoes(c, w, ApplyEnds(Applied)) == Some(w') && Ordered(w)
    ensures Rising(w')
  {
    var sn := w.doing.snapshot;
    assert InFlight(w) == [sn] + InFlight(w');
    AscendingPop(Low(w.agent.appliedVersion), sn, InFlight(w'));
    assert w'.agent.appliedVersion == sn.version == sn.stamp;
  }

  lemma RisingKept(w: World, w': World)
    requires Rising(w) && InFlight(w') == InFlight(w) && w'.agent.appliedVersion == w.agent.appliedVersion
    ensures Rising(w')
  {
  }

  lemma RisingAgent(c: Config, w: World, step: Step, w': World)
    requires !IsEnvironment(step) && !IsServer(step) && AgentDoes(c, w, step) == Some(w')
    requires (w.doing.Disconnected? <==> w.stream.None?) && Ordered(w)
    ensures Rising(w')
  {
    if step == ApplyEnds(Applied) {
      RisingApplied(c, w, w');
    } else {
      RisingOtherwise(c, w, step, w');
    }
  }

  lemma RisingOtherwise(c: Config, w: World, step: Step, w': World)
    requires !IsEnvironment(step) && !IsServer(step) && AgentDoes(c, w, step) == Some(w') && step != ApplyEnds(Applied)
    requires (w.doing.Disconnected? <==> w.stream.None?) && Rising(w)
    ensures Rising(w')
  {
    AgentTakesInOrder(c, w, step);
    if w'.stream.None? || step.Connect? {
      assert InFlight(w') == [];
    } else {
      AppliedVersionKept(c, w, step, w');
      RisingKept(w, w');
    }
  }

  lemma AppliedVersionKept(c: Config, w: World, step: Step, w': World)
    requires !IsEnvironment(step) && !IsServer(step) && AgentDoes(c, w, step) == Some(w') && step != ApplyEnds(Applied)
    requires w'.stream.Some?
    ensures w'.agent.appliedVersion == w.agent.appliedVersion && !step.ApplyEnds?
  {
  }

  /** The policy in the agent's hands is labelled above the applied version, and within
      the versions there are. */
  ghost predicate FetchedAbove(w: World)
  {
    w.doing.Fetching? ==>
      Low(w.agent.appliedVersion) < w.doing.snapshot.stamp <= w.doing.snapshot.version <= w.Version()
  }

  lemma RisingIsAbove(w: World)
    requires SnapshotsOk(w) && Rising(w)
    ensures FetchedAbove(w)
  {
    if w.doing.Fetching? {
      assert InFlight(w)[0] == w.doing.snapshot;
    }
  }

  /** Getting past the version check of a page means the label is the version, or 0. */
  lemma PastTheCheck(db: Db, version: int, stamp: nat, f: Fetch, step: Step, f': Fetch)
    requires Paged(db, version, stamp, f, step) == Some(f') && f.paging.Between? && !f'.paging.Between?
    ensures stamp == 0 || stamp == version
  {
  }

  lemma LabelsPaging(w: World, step: Step, f: Fetch)
    requires Labels(w) && FetchedAbove(w) && w.doing.Fetching?
    requires Paged(Now(w), w.Version(), w.doing.snapshot.stamp, w.doing.fetch, step) == Some(f)
    ensures Labels(w.(doing := w.doing.(fetch := f)))
  {
    if w.doing.fetch.paging.Between? && !f.paging.Between? {
      PastTheCheck(Now(w), w.Version(), w.doing.snapshot.stamp, w.doing.fetch, step, f);
    }
  }

  predicate IsPaging(step: Step)
  {
    step.PageCheck? || step.PageCountries? || step.PageRow?
  }

  lemma LabelsAgent(c: Config, w: World, step: Step, w': World)
    requires !IsEnvironment(step) && !IsServer(step) && !IsPaging(step) && AgentDoes(c, w, step) == Some(w')
    requires Labels(w) && FetchedAbove(w)
    ensures Labels(w')
  {
  }

  lemma OrderedEnvironment(c: Config, w: World, step: Step, w': World)
    requires IsEnvironment(step) && Environment(c, w, step) == Some(w') && Ordered(w)
    ensures Ordered(w')
  {
    assert InFlight(w') == InFlight(w);
  }

  lemma OrderedAgent(c: Config, w: World, step: Step, w': World)
    requires !IsEnvironment(step) && !IsServer(step) && AgentDoes(c, w, step) == Some(w')
    requires (w.doing.Disconnected? <==> w.stream.None?) && SnapshotsOk(w) && Ordered(w)
    ensures Ordered(w')
  {
    RisingAgent(c, w, step, w');
    RisingIsAbove(w);
    if IsPaging(step) {
      LabelsPaging(w, step, w'.doing.fetch);
    } else {
      LabelsAgent(c, w, step, w');
    }
  }

  lemma OrderedStep(c: Config, w: World, step: Step)
    requires Do(c, w, step).Some? && !c.runtimeEnabled && Inv(c, w) && Ordered(w)
    ensures Ordered(Do(c, w, step).value)
  {
    var w' := Do(c, w, step).value;
    if IsEnvironment(step) {
      OrderedEnvironment(c, w, step, w');
    } else if IsServer(step) {
      RisingServer(c, w, w.stream.value, step, w'.stream.value);
      LabelsServer(c, w, w.stream.value, step, w'.stream.value);
    } else {
      OrderedAgent(c, w, step, w');
    }
  }

  lemma BehindhandServer(c: Config, w: World, s: Stream, step: Step, s': Stream)
    requires w.stream == Some(s) && IsServer(step) && Server(c, w, s, step) == Some(s') && Behindhand(w)
    ensures Behindhand(w.(stream := Some(s')))
  {
  }

  /** The policy in the agent's hands is newer than what it applied. */
  lemma FetchedIsNewer(w: World)
    requires Rising(w) && SnapshotsOk(w) && w.doing.Fetching?
    ensures w.agent.appliedVersion < w.Version() && InFlight(w) != []
  {
    assert InFlight(w)[0] == w.doing.snapshot;
  }

  lemma BehindhandAgent(c: Config, w: World, step: Step, w': World)
    requires !IsEnvironment(step) && !IsServer(step) && AgentDoes(c, w, step) == Some(w')
    requires AgentOk(w) && CursorOk(w) && Behindhand(w) && w.Version() > 0
    requires w.doing.Fetching? ==> w.agent.appliedVersion < w.Version()
    requires w.doing.Fetching? ==> InFlight(w) != []
    requires c.mode == UnloadRules && c.failureLimit <= 1
    ensures Behindhand(w')
  {
  }

  lemma BehindhandStep(c: Config, w: World, step: Step)
    requires Do(c, w, step).Some? && AgentOk(w) && CursorOk(w) && SnapshotsOk(w) && Ordered(w) && Behindhand(w)
    requires c.mode == UnloadRules && c.failureLimit <= 1
    ensures Behindhand(Do(c, w, step).value)
  {
    var w' := Do(c, w, step).value;
    if IsServer(step) {
      BehindhandServer(c, w, w.stream.value, step, w'.stream.value);
    } else if !IsEnvironment(step) {
      if w.doing.Fetching? {
        FetchedIsNewer(w);
      }
      BehindhandAgent(c, w, step, w');
    }
  }

  lemma {:induction false} RunKeepsOrder(c: Config, history: seq<Db>, runtime: set<Cidr>, steps: seq<Step>)
    requires |history| >= 2 && !c.runtimeEnabled && Run(c, Initial(history, runtime), steps).Some?
    ensures var w := Run(c, Initial(history, runtime), steps).value;
            Inv(c, w) && Ordered(w) && (c.mode == UnloadRules && c.failureLimit <= 1 ==> Behindhand(w))
  {
    if steps == [] {
    } else {
      RunKeepsOrder(c, history, runtime, steps[..|steps| - 1]);
      var w := Run(c, Initial(history, runtime), steps[..|steps| - 1]).value;
      InvStep(c, w, steps[|steps| - 1]);
      OrderedStep(c, w, steps[|steps| - 1]);
      if c.mode == UnloadRules && c.failureLimit <= 1 {
        BehindhandStep(c, w, steps[|steps| - 1]);
      }
    }
  }

  // ------------------------------------------------------------ settled worlds

  /** Nothing is in flight, nothing is to be announced, and a poll finds nothing due. */
  ghost predicate Settled(c: Config, w: World)
  {
    && w.stream.Some? && w.stream.value.open && w.stream.value.phase.Waiting? && w.stream.value.channel == []
    && !w.stream.value.unseen && w.owed == 0 && w.doing.Listening?
    && PolicyUpdateUnchanged(c.runtimeEnabled, w.Version(), w.runtime, w.stream.value.cursor)
  }

  ghost predicate PolicyConverged(c: Config, w: World)
  {
    && w.agent.installed.Holds?
    && IsActive(w, w.agent.installed.content)
    && (c.runtimeEnabled ==> w.agent.installed.content.snapshot.runtime == w.runtime)
  }

  ghost predicate MonitorConverged(w: World)
  {
    w.agent.dropMonitor <==> w.subs > 0
  }

  /** A settled world in which the stream has sent a policy. */
  lemma SentMeansConverged(c: Config, w: World)
    requires Inv(c, w) && MonitorOk(w) && NoticeOk(w) && Settled(c, w) && w.stream.value.cursor.fingerprint.Some?
    ensures PolicyConverged(c, w) && MonitorConverged(w)
  {
    assert InFlight(w) == [];
    WholeIsActive(w, w.agent.installed.content.snapshot);
  }

  lemma ConvergesWhenEnabled(c: Config, history: seq<Db>, runtime: set<Cidr>, w: World)
    requires |history| > 0 && Reaches(c, history, runtime, w) && Settled(c, w) && c.runtimeEnabled
    ensures PolicyConverged(c, w) && MonitorConverged(w)
  {
    var steps :| Run(c, Initial(history, runtime), steps) == Some(w);
    RunKeepsMonitor(c, history, runtime, steps);
    SentMeansConverged(c, w);
  }

  lemma ConvergesWithVersionRow(c: Config, history: seq<Db>, runtime: set<Cidr>, w: World)
    requires |history| >= 2 && !c.runtimeEnabled && Reaches(c, history, runtime, w) && Settled(c, w)
    ensures PolicyConverged(c, w)
    ensures c.mode == UnloadRules && c.failureLimit <= 1 ==> MonitorConverged(w)
  {
    var steps :| Run(c, Initial(history, runtime), steps) == Some(w);
    RunKeepsMonitor(c, history, runtime, steps);
    RunKeepsOrder(c, history, runtime, steps);
    if w.stream.value.cursor.fingerprint.Some? {
      SentMeansConverged(c, w);
    } else {
      WholeIsActive(w, w.agent.installed.content.snapshot);
    }
  }

  // ------------------------------------------------- runs that settle elsewhere

  const EMPTY_DB: Db := Db(seq(TABLES, _ => []), map[])

  lemma Extend(c: Config, history: seq<Db>, runtime: set<Cidr>, w: World, step: Step, w': World)
    requires |history| > 0 && Reaches(c, history, runtime, w) && Do(c, w, step) == Some(w')
    ensures Reaches(c, history, runtime, w')
  {
    var steps :| Run(c, Initial(history, runtime), steps) == Some(w);
    var all := steps + [step];
    assert all[..|all| - 1] == steps;
    assert Run(c, Initial(history, runtime), all) == Some(w');
  }

  lemma Subscribed(c: Config, history: seq<Db>, runtime: set<Cidr>, w: World) returns (w': World)
    requires |history| > 0 && Reaches(c, history, runtime, w) && w.stream.None? && w.owed == 0
    ensures Reaches(c, history, runtime, w') && w' == w.(subs := w.subs + 1)
  {
    var w1 := Do(c, w, Subscribe).value;
    Extend(c, history, runtime, w, Subscribe, w1);
    w' := Do(c, w1, Notify).value;
    Extend(c, history, runtime, w1, Notify, w');
  }

  lemma Started(c: Config, history: seq<Db>, runtime: set<Cidr>, w: World) returns (w': World)
    requires |history| > 0 && Reaches(c, history, runtime, w) && w.stream.None? && w.doing.Disconnected?
    ensures Reaches(c, history, runtime, w')
    ensures w' == w.(doing := Listening,
                     stream := Some(Stream(Cursor(w.agent.appliedVersion, None, w.subs > 0), Polling,
                                           if w.subs > 0 then [MonitorUpdate(true)] else [], true, false)))
  {
    var w1 := Do(c, w, Connect).value;
    Extend(c, history, runtime, w, Connect, w1);
    w' := Do(c, w1, StreamStart).value;
    Extend(c, history, runtime, w1, StreamStart, w');
    assert [] + [MonitorUpdate(true)] == [MonitorUpdate(true)];
  }

  lemma ToldToWatch(c: Config, history: seq<Db>, runtime: set<Cidr>, w: World) returns (w': World)
    requires |history| > 0 && Reaches(c, history, runtime, w) && w.doing.Listening?
    requires w.stream.Some? && w.stream.value.channel == [MonitorUpdate(true)]
    ensures Reaches(c, history, runtime, w')
    ensures w' == w.(agent := w.agent.(dropMonitor := true), stream := Some(w.stream.value.(channel := [])))
  {
    assert [MonitorUpdate(true)][1..] == [];
    w' := w.(agent := w.agent.(dropMonitor := true), stream := Some(w.stream.value.(channel := [])));
    Extend(c, history, runtime, w, Receive, w');
  }

  lemma StartedWatched(c: Config, history: seq<Db>, runtime: set<Cidr>, w: World) returns (w': World)
    requires |history| > 0 && Reaches(c, history, runtime, w)
    requires w.stream.None? && w.doing.Disconnected? && w.subs == w.owed == 0
    ensures Reaches(c, history, runtime, w')
    ensures w' == w.(subs := 1, doing := Listening,
                     stream := Some(Stream(Cursor(w.agent.appliedVersion, None, true), Polling, [MonitorUpdate(true)],
                                           true, false)))
  {
    w' := Subscribed(c, history, runtime, w);
    w' := Started(c, history, runtime, w');
  }

  /** A watched agent connects and is told so; the first poll finds a policy due. */
  lemma ConnectWatched(c: Config, history: seq<Db>, runtime: set<Cidr>, w: World) returns (w': World)
    requires |history| > 0 && Reaches(c, history, runtime, w)
    requires w.stream.None? && w.doing.Disconnected? && w.subs == w.owed == 0 && w.agent == Attached()
    ensures Reaches(c, history, runtime, w')
    ensures w' == w.(subs := 1, doing := Listening, agent := w.agent.(dropMonitor := true),
                     stream := Some(Stream(Cursor(-1, None, true), Changed(w.Version(), w.runtime), [], true, false)))
  {
    var w1 := StartedWatched(c, history, runtime, w);
    var w2 := ToldToWatch(c, history, runtime, w1);
    w' := Poll(c, history, runtime, w2);
  }

  lemma Poll(c: Config, history: seq<Db>, runtime: set<Cidr>, w: World) returns (w': World)
    requires |history| > 0 && Reaches(c, history, runtime, w)
    requires w.stream.Some? && w.stream.value.open && w.stream.value.phase.Polling?
    ensures Reaches(c, history, runtime, w')
    ensures w' == w.(stream := Some(w.stream.value.(phase :=
              if PolicyUpdateUnchanged(c.runtimeEnabled, w.Version(), w.runtime, w.stream.value.cursor) then Waiting
              else Changed(w.Version(), w.runtime))))
  {
    var w1 := Do(c, w, ReadLabel).value;
    Extend(c, history, runtime, w, ReadLabel, w1);
    w' := Do(c, w1, ReadRuntime).value;
    Extend(c, history, runtime, w1, ReadRuntime, w');
  }

  lemma {:induction false} ReadTables(c: Config, history: seq<Db>, runtime: set<Cidr>, w: World)
    returns (w': World, sn: Snapshot)
    requires |history| > 0 && Reaches(c, history, runtime, w)
    requires w.stream.Some? && w.stream.value.open && w.stream.value.phase.Loading?
    requires |w.stream.value.phase.snapshot.loaded| <= TABLES
    ensures Reaches(c, history, runtime, w') && |sn.loaded| == TABLES
    ensures sn == w.stream.value.phase.snapshot.(loaded := sn.loaded)
    ensures w' == w.(stream := Some(w.stream.value.(phase := Loading(sn))))
    decreases TABLES - |w.stream.value.phase.snapshot.loaded|
  {
    sn := w.stream.value.phase.snapshot;
    w' := w;
    if |sn.loaded| == TABLES {
    } else {
      w' := Do(c, w, ReadTable).value;
      Extend(c, history, runtime, w, ReadTable, w');
      w', sn := ReadTables(c, history, runtime, w');
    }
  }

  /** Sends the policy that is due, from a database without GeoIP countries. */
  lemma SendDue(c: Config, history: seq<Db>, runtime: set<Cidr>, w: World, stamp: nat) returns (w': World, sn: Snapshot)
    requires |history| > 0 && Reaches(c, history, runtime, w)
    requires w.stream.Some? && w.stream.value.open && w.stream.value.channel == []
    requires w.stream.value.phase == Changed(stamp, w.runtime)
    ensures Reaches(c, history, runtime, w')
    ensures sn.stamp == stamp && sn.version == w.Version() && sn.runtime == w.runtime
    ensures w' == w.(stream := Some(Stream(Cursor(stamp, Some(w.runtime), w.subs > 0), Waiting,
                                           [PolicyUpdate(sn, w.subs > 0)], true, w.stream.value.unseen)))
  {
    var w1 := Do(c, w, ReadVersion).value;
    Extend(c, history, runtime, w, ReadVersion, w1);
    var w2;
    w2, sn := ReadTables(c, history, runtime, w1);
    w' := Do(c, w2, SendUpdate).value;
    Extend(c, history, runtime, w2, SendUpdate, w');
    assert [] + [PolicyUpdate(sn, w.subs > 0)] == [PolicyUpdate(sn, w.subs > 0)];
  }

  const NO_FETCH: Fetch := Fetch([], Position(0, 0), Between)
  const EMPTY_PAGE: Paging := Collecting([], 0, Page([], None))

  function FetchingAt(w: World, paging: Paging): World
    requires w.doing.Fetching?
  {
    w.(doing := w.doing.(fetch := Fetch([], Position(0, 0), paging)))
  }

  lemma CheckPassed(c: Config, history: seq<Db>, runtime: set<Cidr>, w: World) returns (w': World)
    requires |history| > 0 && Reaches(c, history, runtime, w) && w.doing.Fetching? && w.doing.fetch == NO_FETCH
    requires w.doing.snapshot.stamp == 0 || w.doing.snapshot.stamp == w.Version()
    ensures Reaches(c, history, runtime, w') && w' == FetchingAt(w, Checked)
  {
    w' := FetchingAt(w, Checked);
    Extend(c, history, runtime, w, PageCheck, w');
  }

  lemma NoCountriesRead(c: Config, history: seq<Db>, runtime: set<Cidr>, w: World) returns (w': World)
    requires |history| > 0 && Reaches(c, history, runtime, w) && Countries(Now(w)) == []
    requires w.doing.Fetching? && w == FetchingAt(w, Checked)
    ensures Reaches(c, history, runtime, w') && w' == FetchingAt(w, EMPTY_PAGE)
  {
    w' := FetchingAt(w, EMPTY_PAGE);
    Extend(c, history, runtime, w, PageCountries, w');
  }

  lemma EmptyPageEnds(c: Config, history: seq<Db>, runtime: set<Cidr>, w: World) returns (w': World)
    requires |history| > 0 && Reaches(c, history, runtime, w)
    requires w.doing.Fetching? && w == FetchingAt(w, EMPTY_PAGE)
    ensures Reaches(c, history, runtime, w') && w' == FetchingAt(w, Complete)
  {
    assert w.doing.fetch.prefixes + w.doing.fetch.paging.page.prefixes == [];
    w' := FetchingAt(w, Complete);
    Extend(c, history, runtime, w, PageRow, w');
  }

  /** The agent fetches the one empty page of a database without GeoIP countries. */
  lemma FetchNothing(c: Config, history: seq<Db>, runtime: set<Cidr>, w: World) returns (w': World)
    requires |history| > 0 && Reaches(c, history, runtime, w) && w.doing.Fetching? && w.doing.fetch == NO_FETCH
    requires Countries(Now(w)) == [] && (w.doing.snapshot.stamp == 0 || w.doing.snapshot.stamp == w.Version())
    ensures Reaches(c, history, runtime, w') && w' == FetchingAt(w, Complete)
  {
    w' := CheckPassed(c, history, runtime, w);
    w' := NoCountriesRead(c, history, runtime, w');
    w' := EmptyPageEnds(c, history, runtime, w');
  }

  lemma ApplyOutcomeReached(c: Config, history: seq<Db>, runtime: set<Cidr>, w: World, sn: Snapshot, monitor: bool,
                            outcome: ApplyOutcome)
    returns (w': World)
    requires |history| > 0 && Reaches(c, history, runtime, w)
    requires w.doing == Fetching(sn, monitor, Fetch([], Position(0, 0), Complete))
    ensures Reaches(c, history, runtime, w')
    ensures w' == if outcome == Applied
                  then w.(doing := Listening, agent := AppliedOk(w.agent, sn.version, Content(sn, []), monitor))
                  else w.(stream := None, doing := Disconnected,
                          agent := ApplyFailed(w.agent, outcome == HalfWritten, monitor))
  {
    w' := Do(c, w, ApplyEnds(outcome)).value;
    Extend(c, history, runtime, w, ApplyEnds(outcome), w');
  }

  lemma PolicyReceived(c: Config, history: seq<Db>, runtime: set<Cidr>, w: World, sn: Snapshot, monitor: bool)
    returns (w': World)
    requires |history| > 0 && Reaches(c, history, runtime, w) && w.doing.Listening?
    requires w.stream.Some? && w.stream.value.channel == [PolicyUpdate(sn, monitor)]
    ensures Reaches(c, history, runtime, w')
    ensures w' == w.(stream := Some(w.stream.value.(channel := [])), doing := Fetching(sn, monitor, NO_FETCH))
  {
    assert w.stream.value.channel[1..] == [];
    w' := w.(stream := Some(w.stream.value.(channel := [])), doing := Fetching(sn, monitor, NO_FETCH));
    Extend(c, history, runtime, w, Receive, w');
  }

  lemma TakeUp(c: Config, history: seq<Db>, runtime: set<Cidr>, w: World, sn: Snapshot, monitor: bool,
               outcome: ApplyOutcome)
    returns (w': World)
    requires |history| > 0 && Reaches(c, history, runtime, w)
    requires Countries(Now(w)) == [] && (sn.stamp == 0 || sn.stamp == w.Version())
    requires w.stream.Some? && w.stream.value.channel == [PolicyUpdate(sn, monitor)] && w.doing.Listening?
    ensures Reaches(c, history, runtime, w')
    ensures w' == if outcome == Applied
                  then w.(stream := Some(w.stream.value.(channel := [])),
                          agent := AppliedOk(w.agent, sn.version, Content(sn, []), monitor))
                  else w.(stream := None, doing := Disconnected,
                          agent := ApplyFailed(w.agent, outcome == HalfWritten, monitor))
  {
    var w1 := PolicyReceived(c, history, runtime, w, sn, monitor);
    var w2 := FetchNothing(c, history, runtime, w1);
    w' := ApplyOutcomeReached(c, history, runtime, w2, sn, monitor, outcome);
  }

  /** The only subscriber leaves while the agent is away; the agent comes back at the
      database's version and settles without hearing of it. */
  lemma RejoinUnwatched(c: Config, history: seq<Db>, runtime: set<Cidr>, w: World) returns (w': World)
    requires |history| > 0 && Reaches(c, history, runtime, w) && !c.runtimeEnabled
    requires w.stream.None? && w.doing.Disconnected? && w.subs == 1 && w.owed == 0
    requires w.agent.appliedVersion == w.Version()
    ensures Reaches(c, history, runtime, w') && Settled(c, w')
    ensures w'.agent == w.agent && w'.subs == 0
  {
    var w1 := Do(c, w, Unsubscribe).value;
    Extend(c, history, runtime, w, Unsubscribe, w1);
    var w2 := Do(c, w1, Notify).value;
    Extend(c, history, runtime, w1, Notify, w2);
    var w3 := Started(c, history, runtime, w2);
    w' := Poll(c, history, runtime, w3);
  }

  lemma EmptyWritten(c: Config, history: seq<Db>, runtime: set<Cidr>, w: World) returns (w': World)
    requires |history| > 0 && Reaches(c, history, runtime, w)
    ensures Reaches(c, history, runtime, w') && Countries(Now(w')) == []
    ensures w' == w.(history := w.history + [EMPTY_DB])
  {
    w' := w.(history := w.history + [EMPTY_DB]);
    Extend(c, history, runtime, w, Write(EMPTY_DB), w');
  }

  /** The poll interval elapses and the stream task looks again. */
  lemma PolledAgain(c: Config, history: seq<Db>, runtime: set<Cidr>, w: World) returns (w': World)
    requires |history| > 0 && Reaches(c, history, runtime, w)
    requires w.stream.Some? && w.stream.value.open && w.stream.value.phase.Waiting?
    requires w.Version() > w.stream.value.cursor.version
    ensures Reaches(c, history, runtime, w')
    ensures w' == w.(stream := Some(w.stream.value.(phase := Changed(w.Version(), w.runtime))))
  {
    var w1 := Ticked(c, history, runtime, w);
    w' := Poll(c, history, runtime, w1);
  }

  lemma Ticked(c: Config, history: seq<Db>, runtime: set<Cidr>, w: World) returns (w': World)
    requires |history| > 0 && Reaches(c, history, runtime, w)
    requires w.stream.Some? && w.stream.value.open && w.stream.value.phase.Waiting?
    ensures Reaches(c, history, runtime, w') && w' == w.(stream := Some(w.stream.value.(phase := Polling)))
  {
    w' := w.(stream := Some(w.stream.value.(phase := Polling)));
    Extend(c, history, runtime, w, Tick, w');
  }

  lemma FailedOnce(c: Config, history: seq<Db>, runtime: set<Cidr>, w: World) returns (w': World)
    requires |history| > 0 && Reaches(c, history, runtime, w)
    requires w.agent.offline == NEVER_FAILED && (c.mode == KeepRules || c.failureLimit > 1)
    ensures Reaches(c, history, runtime, w')
    ensures w' == w.(stream := None, doing := Disconnected, agent := w.agent.(offline := Offline(1, false)))
  {
    w' := w.(stream := None, doing := Disconnected, agent := w.agent.(offline := Offline(1, false)));
    Extend(c, history, runtime, w, ControlPlaneFails, w');
  }

  lemma InitialReached(c: Config, history: seq<Db>, runtime: set<Cidr>)
    requires |history| > 0
    ensures Reaches(c, history, runtime, Initial(history, runtime))
  {
    assert Run(c, Initial(history, runtime), []) == Some(Initial(history, runtime));
  }

  /** One whole delivery of a due policy. */
  lemma Deliver(c: Config, history: seq<Db>, runtime: set<Cidr>, w: World, stamp: nat, outcome: ApplyOutcome)
    returns (w': World, sn: Snapshot)
    requires |history| > 0 && Reaches(c, history, runtime, w)
    requires Countries(Now(w)) == [] && (stamp == 0 || stamp == w.Version()) && w.doing.Listening? && w.subs == 1
    requires w.stream.Some?
    requires w.stream.value == Stream(w.stream.value.cursor, Changed(stamp, w.runtime), [], true, false)
    ensures Reaches(c, history, runtime, w') && sn.version == w.Version()
    ensures w' == if outcome == Applied
                  then w.(stream := Some(Stream(Cursor(stamp, Some(w.runtime), true), Waiting, [], true, false)),
                          agent := AppliedOk(w.agent, w.Version(), Content(sn, []), true))
                  else w.(stream := None, doing := Disconnected,
                          agent := ApplyFailed(w.agent, outcome == HalfWritten, true))
  {
    w', sn := SendDue(c, history, runtime, w, stamp);
    w' := TakeUp(c, history, runtime, w', sn, true, outcome);
  }

  /** A label 0 is read, the first write comes in between, and the agent applies
      version 1 under label 0. */
  lemma AppliedUnderZero(c: Config, history: seq<Db>, runtime: set<Cidr>) returns (w: World, content: Content)
    requires |history| == 1
    ensures Reaches(c, history, runtime, w) && Countries(Now(w)) == []
    ensures w == World(history + [EMPTY_DB], runtime, 1, 0,
                       Some(Stream(Cursor(0, Some(runtime), true), Waiting, [], true, false)), Listening,
                       AgentState(1, Holds(content), true, NEVER_FAILED))
  {
    InitialReached(c, history, runtime);
    var w1 := ConnectWatched(c, history, runtime, Initial(history, runtime));
    var w2 := EmptyWritten(c, history, runtime, w1);
    var sn;
    w, sn := Deliver(c, history, runtime, w2, 0, Applied);
    content := Content(sn, []);
  }

  lemma HalfWrittenOnceMore(c: Config, history: seq<Db>, runtime: set<Cidr>) returns (w: World)
    requires |history| == 1 && !c.runtimeEnabled
    ensures Reaches(c, history, runtime, w) && w.stream.None? && w.doing.Disconnected? && w.subs == 1 && w.owed == 0
    ensures w.agent.appliedVersion == w.Version() && w.agent.installed.Dirty? && w.agent.dropMonitor
  {
    var w1, _ := AppliedUnderZero(c, history, runtime);
    var w2 := PolledAgain(c, history, runtime, w1);
    var sn;
    w, sn := Deliver(c, history, runtime, w2, 1, HalfWritten);
  }

  /** Without a version row a policy may be applied as version 1 under label 0. It is
      sent once more under its own label; when that apply stops half-way, the agent still
      reports version 1, and nothing is sent to it again. Servers create the row before
      they serve; only a stand-by server on a database nobody prepared can start so. And
      the maps already hold this very policy, so it takes an error of the maps other
      than want of room to stop the second apply. */
  lemma FirstWriteRace(c: Config, history: seq<Db>, runtime: set<Cidr>) returns (w: World)
    requires |history| == 1 && !c.runtimeEnabled
    ensures Reaches(c, history, runtime, w) && Settled(c, w)
    ensures !PolicyConverged(c, w) && !MonitorConverged(w)
  {
    var w1 := HalfWrittenOnceMore(c, history, runtime);
    w := RejoinUnwatched(c, history, runtime, w1);
  }

  /** The agent reconnects after a failure that does not empty it, and was unwatched
      meanwhile: its drop monitor stays on. */
  lemma UnwatchedWhileAway(c: Config, history: seq<Db>, runtime: set<Cidr>) returns (w: World)
    requires |history| >= 2 && !c.runtimeEnabled && (c.mode == KeepRules || c.failureLimit > 1)
    ensures Reaches(c, history, runtime, w) && Settled(c, w) && !MonitorConverged(w)
  {
    InitialReached(c, history, runtime);
    var w0 := EmptyWritten(c, history, runtime, Initial(history, runtime));
    var w1 := ConnectWatched(c, history, runtime, w0);
    var w2, _ := Deliver(c, history, runtime, w1, w1.Version(), Applied);
    var w3 := FailedOnce(c, history, runtime, w2);
    w := RejoinUnwatched(c, history, runtime, w3);
  }

  /** The main result on convergence. A server creates the version row before it serves,
      and from there every run that settles, under every configuration, leaves the agent
      with the active policy. */
  lemma SeededRunsConverge(c: Config, empty: Db, seeded: Db, later: seq<Db>, runtime: set<Cidr>, w: World)
    requires Reaches(c, [empty, seeded] + later, runtime, w) && Settled(c, w)
    ensures PolicyConverged(c, w)
  {
    var history := [empty, seeded] + later;
    assert |history| >= 2;
    if c.runtimeEnabled {
      ConvergesWhenEnabled(c, history, runtime, w);
    } else {
      ConvergesWithVersionRow(c, history, runtime, w);
    }
  }

  /** Were a server to start without the row: every run that settles leaves the agent with
      the active policy, exactly when runtime trusted networks are configured or the
      version row exists from the start. */
  lemma PolicyConvergesIff(c: Config, history: seq<Db>, runtime: set<Cidr>)
    requires |history| > 0
    ensures (forall w :: Reaches(c, history, runtime, w) && Settled(c, w) ==> PolicyConverged(c, w)) <==>
            c.runtimeEnabled || |history| >= 2
  {
    if c.runtimeEnabled || |history| >= 2 {
      forall w | Reaches(c, history, runtime, w) && Settled(c, w)
        ensures PolicyConverged(c, w)
      {
        if c.runtimeEnabled {
          ConvergesWhenEnabled(c, history, runtime, w);
        } else {
          ConvergesWithVersionRow(c, history, runtime, w);
        }
      }
    } else {
      var w := FirstWriteRace(c, history, runtime);
    }
  }

  /** Every run that settles leaves the drop monitor on exactly when someone watches,
      exactly when runtime trusted networks are configured, or the version row exists
      from the start and the agent empties its rules at the first failure. */
  lemma MonitorConvergesIff(c: Config, history: seq<Db>, runtime: set<Cidr>)
    requires |history| > 0
    ensures (forall w :: Reaches(c, history, runtime, w) && Settled(c, w) ==> MonitorConverged(w)) <==>
            c.runtimeEnabled || (|history| >= 2 && c.mode == UnloadRules && c.failureLimit <= 1)
  {
    if c.runtimeEnabled || (|history| >= 2 && c.mode == UnloadRules && c.failureLimit <= 1) {
      forall w | Reaches(c, history, runtime, w) && Settled(c, w)
        ensures MonitorConverged(w)
      {
        if c.runtimeEnabled {
          ConvergesWhenEnabled(c, history, runtime, w);
        } else {
          ConvergesWithVersionRow(c, history, runtime, w);
        }
      }
    } else if |history| == 1 {
      var w := FirstWriteRace(c, history, runtime);
    } else {
      var w := UnwatchedWhileAway(c, history, runtime);
    }
  }
}
