/** Policy distribution from the database to one agent, step by step: writers, the
    stream task and the agent interleave freely between single reads and sends. */
module Xds {

  import opened Net
  import opened Policy
  import opened GeoPages
  import opened PolicyStream
  import opened Agent
  import opened Results

  datatype Config = Config(runtimeEnabled: bool, mode: OfflineMode, failureLimit: U32)

  /** A policy as the agent installs it: the snapshot and the GeoIP prefixes fetched
      page by page after it. */
  datatype Content = Content(snapshot: Snapshot, geo: seq<XdpGeoPrefix>)

  /** Between pages, past the version check of a page, inside a page, or finished. */
  datatype Paging =
    | Between
    | Checked
    | Collecting(countries: seq<Option<Country>>, next: nat, page: Page)
    | Complete

  datatype Fetch = Fetch(prefixes: seq<XdpGeoPrefix>, at: Position, paging: Paging)

  datatype Doing = Disconnected | Listening | Fetching(snapshot: Snapshot, monitor: bool, fetch: Fetch)

  /** `history` holds the database as of every version; version 0 is a database whose
      version row does not exist yet. `subs` counts the live drop subscriptions that
      match this node, `owed` the changes to them that were not announced yet. */
  datatype RawWorld = World(
    history: seq<Db>, runtime: set<Cidr>, subs: nat, owed: nat,
    stream: Option<Stream>, doing: Doing, agent: AgentState<Content>)
  {
    function Version(): int
    {
      |history| - 1
    }
  }

  type World = w: RawWorld | |w.history| > 0
    witness World([Db(seq(TABLES, _ => []), map[])], {}, 0, 0, None, Disconnected, Attached())

  function Now(w: World): Db
  {
    w.history[w.Version()]
  }

  function Initial(history: seq<Db>, runtime: set<Cidr>): World
    requires |history| > 0
  {
    World(history, runtime, 0, 0, None, Disconnected, Attached())
  }

  datatype Step =
    | Write(db: Db)
    | RuntimeChange(runtime: set<Cidr>)
    | Subscribe
    | Unsubscribe
    | Notify
    | StreamStart
    | ReadLabel
    | ReadRuntime
    | ReadVersion
    | ReadTable
    | SendUpdate
    | Tick
    | Notice
    | StreamBreaks
    | Connect
    | Receive
    | PageCheck
    | PageCountries
    | PageRow
    | FetchFails
    | ApplyEnds(outcome: ApplyOutcome)
    | ControlPlaneFails
    | Report

  // ----------------------------------------------------------------- the steps

  predicate IsEnvironment(step: Step)
  {
    step.Write? || step.RuntimeChange? || step.Subscribe? || step.Unsubscribe? || step.Notify?
  }

  predicate IsServer(step: Step)
  {
    || step.StreamStart? || step.ReadLabel? || step.ReadRuntime? || step.ReadVersion? || step.ReadTable?
    || step.SendUpdate? || step.Tick? || step.Notice? || step.StreamBreaks?
  }

  function Environment(c: Config, w: World, step: Step): Option<World>
    requires IsEnvironment(step)
  {
    match step
    case Write(db) => Some(w.(history := w.history + [db]))
    case RuntimeChange(runtime) => if c.runtimeEnabled then Some(w.(runtime := runtime)) else None
    case Subscribe => Some(w.(subs := w.subs + 1, owed := w.owed + 1))
    case Unsubscribe => if w.subs > 0 then Some(w.(subs := w.subs - 1, owed := w.owed + 1)) else None
    case Notify =>
      if w.owed > 0
      then Some(w.(owed := w.owed - 1,
                   stream := if w.stream.Some? then Some(w.stream.value.(unseen := true)) else None))
      else None
  }

  /** One step of the stream task; a closed stream takes none. */
  function Server(c: Config, w: World, s: Stream, step: Step): Option<Stream>
    requires IsServer(step)
  {
    if !s.open then None
    else
      match (step, s.phase)
      case (StreamStart, Starting) => Some(Started(s, w.subs > 0))
      case (ReadLabel, Polling) => Some(s.(phase := Labelled(w.Version())))
      case (ReadRuntime, Labelled(stamp)) =>
        Some(s.(phase := if PolicyUpdateUnchanged(c.runtimeEnabled, stamp, w.runtime, s.cursor) then Waiting
                         else Changed(stamp, w.runtime)))
      case (ReadVersion, Changed(stamp, runtime)) =>
        Some(s.(phase := Loading(Snapshot(stamp, runtime, w.Version(), []))))
      case (ReadTable, Loading(sn)) =>
        if |sn.loaded| < TABLES
        then Some(s.(phase := Loading(sn.(loaded := sn.loaded + [NextRead(w, sn)]))))
        else None
      case (SendUpdate, Loading(sn)) => if |sn.loaded| == TABLES then Some(Sent(s, sn, w.subs > 0)) else None
      case (Tick, Waiting) => Some(s.(phase := Polling))
      case (Notice, Waiting) => if s.unseen then Some(Noticed(s, w.subs > 0)) else None
      case (StreamBreaks, _) => Some(s.(open := false))
      case _ => None
  }

  function NextRead(w: World, sn: Snapshot): Read
    requires |sn.loaded| < TABLES
  {
    Read(w.Version(), Query(Now(w), |sn.loaded|, SourcesOf(sn.loaded)))
  }

  function Reconnecting(w: World): World
  {
    w.(stream := None, doing := Disconnected)
  }

  function Received(w: World, s: Stream): World
    requires s.channel != []
  {
    var rest := w.(stream := Some(s.(channel := s.channel[1..])));
    match s.channel[0]
    case MonitorUpdate(monitor) => rest.(agent := w.agent.(dropMonitor := monitor))
    case PolicyUpdate(sn, monitor) => rest.(doing := Fetching(sn, monitor, Fetch([], Position(0, 0), Between)))
  }

  /** One step of fetching GeoIP prefixes. Each page checks the version it was asked
      for first, then reads the countries, then one row after another. */
  function Paged(db: Db, version: int, stamp: nat, f: Fetch, step: Step): Option<Fetch>
  {
    match (step, f.paging)
    case (PageCheck, Between) => if stamp > 0 && stamp != version then None else Some(f.(paging := Checked))
    case (PageCountries, Checked) => Some(f.(paging := Collecting(Countries(db), f.at.country, Page([], None))))
    case (PageRow, Collecting(countries, next, page)) =>
      if page.next.Some? then Some(Fetch(f.prefixes + page.prefixes, page.next.value, Between))
      else if next >= |countries| then Some(Fetch(f.prefixes + page.prefixes, f.at, Complete))
      else if countries[next].None? || |page.prefixes| > GEO_PREFIX_PAGE_SIZE then None
      else
        var skip := if next == f.at.country then f.at.offset else 0;
        Some(f.(paging := Collecting(countries, next + 1,
          Collect(page, GEO_PREFIX_PAGE_SIZE, next, skip, CountryPrefixes(db.geo, countries[next].value)))))
    case _ => None
  }

  function AgentDoes(c: Config, w: World, step: Step): Option<World>
    requires !IsEnvironment(step) && !IsServer(step)
  {
    match step
    case Connect =>
      if w.doing.Disconnected?
      then Some(w.(stream := Some(Opened(w.agent.appliedVersion)), doing := Listening))
      else None
    case Receive =>
      if w.doing.Listening? && w.stream.Some? && w.stream.value.channel != []
      then Some(Received(w, w.stream.value))
      else None
    case FetchFails => if w.doing.Fetching? then Some(Reconnecting(w)) else None
    case ApplyEnds(outcome) =>
      if w.doing.Fetching? && w.doing.fetch.paging.Complete? then
        var content := Content(w.doing.snapshot, w.doing.fetch.prefixes);
        if outcome == Applied
        then Some(w.(agent := AppliedOk(w.agent, w.doing.snapshot.version, content, w.doing.monitor),
                      doing := Listening))
        else Some(Reconnecting(w).(agent := ApplyFailed(w.agent, outcome == HalfWritten, w.doing.monitor)))
      else None
    case ControlPlaneFails => Some(Reconnecting(w).(agent := Failed(w.agent, c.mode, c.failureLimit)))
    case Report => if w.doing.Listening? then Some(w.(agent := Healthy(w.agent))) else None
    case PageCheck | PageCountries | PageRow =>
      if w.doing.Fetching? then
        match Paged(Now(w), w.Version(), w.doing.snapshot.stamp, w.doing.fetch, step)
        case None => None
        case Some(fetch) => Some(w.(doing := w.doing.(fetch := fetch)))
      else None
  }

  function Do(c: Config, w: World, step: Step): Option<World>
  {
    if IsEnvironment(step) then Environment(c, w, step)
    else if IsServer(step) then
      if w.stream.None? then None
      else
        match Server(c, w, w.stream.value, step)
        case None => None
        case Some(s) => Some(w.(stream := Some(s)))
    else AgentDoes(c, w, step)
  }

  /** The world a run leads to, if every step of it can be taken. */
  function Run(c: Config, w: World, steps: seq<Step>): Option<World>
  {
    if steps == [] then Some(w)
    else
      match Run(c, w, steps[..|steps| - 1])
      case None => None
      case Some(w') => Do(c, w', steps[|steps| - 1])
  }

  // ------------------------------------------- every part is as new as its label

  ghost predicate ReadOk(history: seq<Db>, sn: Snapshot, i: nat)
    requires i < |sn.loaded| <= TABLES
  {
    && sn.version <= sn.loaded[i].at < |history|
    && sn.loaded[i].rows == Query(history[sn.loaded[i].at], i, SourcesOf(sn.loaded))
  }

  ghost predicate SnapshotOk(history: seq<Db>, sn: Snapshot)
  {
    && sn.stamp <= sn.version < |history|
    && |sn.loaded| <= TABLES
    && forall i :: 0 <= i < |sn.loaded| ==> ReadOk(history, sn, i)
  }

  ghost predicate WholeOk(history: seq<Db>, sn: Snapshot)
  {
    SnapshotOk(history, sn) && |sn.loaded| == TABLES
  }

  ghost predicate ChannelOk(history: seq<Db>, channel: seq<Message>)
  {
    forall i :: 0 <= i < |channel| && channel[i].PolicyUpdate? ==> WholeOk(history, channel[i].snapshot)
  }

  ghost predicate InstalledOk(history: seq<Db>, installed: Installed<Content>)
  {
    installed.Holds? ==> WholeOk(history, installed.content.snapshot)
  }

  ghost predicate SnapshotsOk(w: World)
  {
    && InstalledOk(w.history, w.agent.installed)
    && (w.doing.Fetching? ==> WholeOk(w.history, w.doing.snapshot))
    && (w.stream.Some? ==>
          && ChannelOk(w.history, w.stream.value.channel)
          && (w.stream.value.phase.Labelled? ==> w.stream.value.phase.stamp <= w.Version())
          && (w.stream.value.phase.Changed? ==> w.stream.value.phase.stamp <= w.Version())
          && (w.stream.value.phase.Loading? ==> SnapshotOk(w.history, w.stream.value.phase.snapshot)))
  }

  lemma SnapshotOkGrows(history: seq<Db>, db: Db, sn: Snapshot)
    requires SnapshotOk(history, sn)
    ensures SnapshotOk(history + [db], sn)
  {
    forall i | 0 <= i < |sn.loaded|
      ensures ReadOk(history + [db], sn, i)
    {
      assert ReadOk(history, sn, i);
    }
  }

  lemma ReadKeepsOk(w: World, sn: Snapshot)
    requires SnapshotOk(w.history, sn) && |sn.loaded| < TABLES
    ensures SnapshotOk(w.history, sn.(loaded := sn.loaded + [NextRead(w, sn)]))
  {
    var sn' := sn.(loaded := sn.loaded + [NextRead(w, sn)]);
    forall i | 0 <= i < |sn'.loaded|
      ensures ReadOk(w.history, sn', i)
    {
      if i < |sn.loaded| {
        assert ReadOk(w.history, sn, i);
      }
    }
  }

  lemma SnapshotsOkEnvironment(c: Config, w: World, step: Step)
    requires IsEnvironment(step) && Environment(c, w, step).Some? && SnapshotsOk(w)
    ensures SnapshotsOk(Environment(c, w, step).value)
  {
    if step.Write? {
      forall sn | SnapshotOk(w.history, sn)
        ensures SnapshotOk(w.history + [step.db], sn)
      {
        SnapshotOkGrows(w.history, step.db, sn);
      }
    }
  }

  lemma SnapshotsOkServer(c: Config, w: World, s: Stream, step: Step)
    requires w.stream == Some(s) && IsServer(step) && Server(c, w, s, step).Some? && SnapshotsOk(w)
    ensures SnapshotsOk(w.(stream := Server(c, w, s, step)))
  {
    if step.ReadTable? {
      ReadKeepsOk(w, s.phase.snapshot);
    }
  }

  lemma SnapshotsOkAgent(c: Config, w: World, step: Step)
    requires !IsEnvironment(step) && !IsServer(step) && AgentDoes(c, w, step).Some? && SnapshotsOk(w)
    ensures SnapshotsOk(AgentDoes(c, w, step).value)
  {
  }

  // ----------------------------- fetched pages match the version they were asked for

  /** Were the fetch to go on with this database, it would end with its listing. */
  ghost predicate FetchOnTrack(db: Db, f: Fetch)
  {
    var countries := Countries(db);
    match f.paging
    case Complete => Unpaged(countries, db.geo) == Ok(f.prefixes)
    case Collecting(read, next, page) =>
      read == countries && PageOnTrack(countries, db.geo, f, next, page)
    case _ => OnTrack(countries, db.geo, f.prefixes, f.at)
  }

  ghost predicate PageOnTrack(countries: seq<Option<Country>>, rows: Rows, f: Fetch, next: nat, page: Page)
  {
    OnTrack(countries, rows, f.prefixes + page.prefixes,
            if page.next.Some? then page.next.value
            else Position(next, if next == f.at.country then f.at.offset else 0))
  }

  ghost predicate FetchFits(f: Fetch)
  {
    f.paging.Collecting? ==> |f.paging.page.prefixes| <= GEO_PREFIX_PAGE_SIZE && f.at.country <= f.paging.next
  }

  /** As long as the database is still at version `version`. */
  ghost predicate FetchOk(w: World)
  {
    w.doing.Fetching? ==>
      && FetchFits(w.doing.fetch)
      && (w.Version() == w.doing.snapshot.version ==> FetchOnTrack(Now(w), w.doing.fetch))
  }

  ghost predicate GeoOk(w: World)
  {
    w.agent.installed.Holds? && w.Version() == w.agent.installed.content.snapshot.version ==>
      Unpaged(Countries(Now(w)), Now(w).geo) == Ok(w.agent.installed.content.geo)
  }

  lemma SameWhole(fetched: seq<XdpGeoPrefix>, a: seq<XdpGeoPrefix>, behindA: seq<XdpGeoPrefix>, b: seq<XdpGeoPrefix>,
                  behindB: seq<XdpGeoPrefix>)
    requires a + behindA == b + behindB
    ensures (fetched + a) + behindA == (fetched + b) + behindB
  {
    assert (fetched + a) + behindA == fetched + (a + behindA);
    assert (fetched + b) + behindB == fetched + (b + behindB);
  }

  lemma RowOnTrack(countries: seq<Option<Country>>, rows: Rows, f: Fetch, next: nat, page: Page, skip: nat, p: Page)
    requires |page.prefixes| <= GEO_PREFIX_PAGE_SIZE && page.next.None? && f.at.country <= next < |countries|
    requires countries[next].Some? && skip == (if next == f.at.country then f.at.offset else 0)
    requires p == Collect(page, GEO_PREFIX_PAGE_SIZE, next, skip, CountryPrefixes(rows, countries[next].value))
    ensures |p.prefixes| <= GEO_PREFIX_PAGE_SIZE
    ensures PageOnTrack(countries, rows, f, next, page) ==> PageOnTrack(countries, rows, f, next + 1, p)
  {
    CollectSplits(page, GEO_PREFIX_PAGE_SIZE, countries, rows, next, skip, countries[next].value, p);
    SameWhole(f.prefixes, p.prefixes, Behind(p, countries, rows, next), page.prefixes,
              PrefixesFrom(countries, rows, next, skip));
  }

  lemma PagedKeepsFits(db: Db, version: int, stamp: nat, f: Fetch, step: Step)
    requires Paged(db, version, stamp, f, step).Some? && FetchFits(f)
    ensures FetchFits(Paged(db, version, stamp, f, step).value)
  {
  }

  /** A page is done: its prefixes join the others, and the next page starts where it
      stopped, or the listing is complete. */
  lemma PageDoneOnTrack(countries: seq<Option<Country>>, rows: Rows, f: Fetch, next: nat, page: Page)
    requires PageOnTrack(countries, rows, f, next, page)
    ensures page.next.Some? ==> OnTrack(countries, rows, f.prefixes + page.prefixes, page.next.value)
    ensures page.next.None? && next >= |countries| ==> Unpaged(countries, rows) == Ok(f.prefixes + page.prefixes)
  {
    if page.next.None? && next >= |countries| {
      var all := f.prefixes + page.prefixes;
      assert all + [] == all;
    }
  }

  lemma RowStaysOnTrack(db: Db, f: Fetch, f': Fetch, countries: seq<Option<Country>>, next: nat, page: Page)
    requires f.paging == Collecting(countries, next, page) && FetchFits(f) && FetchOnTrack(db, f)
    requires Paged(db, 0, 0, f, PageRow) == Some(f')
    ensures FetchOnTrack(db, f')
  {
    if page.next.None? && next < |countries| {
      var skip := if next == f.at.country then f.at.offset else 0;
      RowOnTrack(countries, db.geo, f, next, page, skip, f'.paging.page);
    } else {
      PageDoneOnTrack(countries, db.geo, f, next, page);
    }
  }

  /** While the database stands still, every step of a fetch stays on track. */
  lemma PagedStaysOnTrack(db: Db, version: int, stamp: nat, f: Fetch, step: Step)
    requires Paged(db, version, stamp, f, step).Some? && FetchFits(f) && FetchOnTrack(db, f)
    ensures FetchOnTrack(db, Paged(db, version, stamp, f, step).value)
  {
    if step.PageCountries? {
      assert f.prefixes + [] == f.prefixes;
    } else if step.PageRow? {
      var f' := Paged(db, version, stamp, f, step).value;
      RowStaysOnTrack(db, f, f', f.paging.countries, f.paging.next, f.paging.page);
    }
  }

  lemma FetchOkPaging(c: Config, w: World, step: Step, f: Fetch)
    requires w.doing.Fetching? && Paged(Now(w), w.Version(), w.doing.snapshot.stamp, w.doing.fetch, step) == Some(f)
    requires FetchOk(w)
    ensures FetchOk(w.(doing := w.doing.(fetch := f)))
  {
    PagedKeepsFits(Now(w), w.Version(), w.doing.snapshot.stamp, w.doing.fetch, step);
    if w.Version() == w.doing.snapshot.version {
      PagedStaysOnTrack(Now(w), w.Version(), w.doing.snapshot.stamp, w.doing.fetch, step);
    }
  }

  lemma FetchStarts(db: Db)
    ensures FetchOnTrack(db, Fetch([], Position(0, 0), Between))
  {
  }

  lemma FetchOkAgent(c: Config, w: World, step: Step)
    requires !IsEnvironment(step) && !IsServer(step) && AgentDoes(c, w, step).Some? && FetchOk(w)
    ensures FetchOk(AgentDoes(c, w, step).value)
  {
    if step.PageCheck? || step.PageCountries? || step.PageRow? {
      FetchOkPaging(c, w, step, AgentDoes(c, w, step).value.doing.fetch);
    } else if step.Receive? {
      FetchStarts(Now(w));
    }
  }

  /** A write moves the database past every version a fetch may be matching. */
  lemma FetchOkEnvironment(c: Config, w: World, step: Step)
    requires IsEnvironment(step) && Environment(c, w, step).Some? && SnapshotsOk(w) && FetchOk(w)
    ensures FetchOk(Environment(c, w, step).value)
  {
  }

  lemma GeoOkAgent(c: Config, w: World, step: Step)
    requires !IsEnvironment(step) && !IsServer(step) && AgentDoes(c, w, step).Some? && FetchOk(w) && GeoOk(w)
    ensures GeoOk(AgentDoes(c, w, step).value)
  {
  }

  // ------------------------------------------------------ the cursor and the agent

  function PolicyOf(m: Message): seq<Snapshot>
  {
    if m.PolicyUpdate? then [m.snapshot] else []
  }

  function Policies(channel: seq<Message>): seq<Snapshot>
  {
    if channel == [] then [] else Policies(channel[..|channel| - 1]) + PolicyOf(channel[|channel| - 1])
  }

  /** Policies sent but not applied yet, oldest first. */
  function InFlight(w: World): seq<Snapshot>
  {
    (if w.doing.Fetching? then [w.doing.snapshot] else []) +
    (if w.stream.Some? then Policies(w.stream.value.channel) else [])
  }

  lemma PoliciesPush(channel: seq<Message>, m: Message)
    ensures Policies(channel + [m]) == Policies(channel) + PolicyOf(m)
  {
  }

  lemma Reassociate<T>(a: seq<T>, b: seq<T>, c: seq<T>)
    ensures (a + b) + c == a + (b + c)
  {
  }

  /** Putting a message in front puts its policy in front. */
  lemma {:induction false} PoliciesOfFirst(m: Message, rest: seq<Message>)
    ensures Policies([m] + rest) == PolicyOf(m) + Policies(rest)
  {
    if rest == [] {
      assert [m] + rest == [] + [m];
      PoliciesPush([], m);
    } else {
      var front, last := rest[..|rest| - 1], rest[|rest| - 1];
      PoliciesOfFirst(m, front);
      assert [m] + rest == ([m] + front) + [last] by {
        Reassociate([m], front, [last]);
      }
      PoliciesPush([m] + front, last);
      Reassociate(PolicyOf(m), Policies(front), PolicyOf(last));
    }
  }

  lemma PoliciesPop(channel: seq<Message>)
    requires channel != []
    ensures Policies(channel) == PolicyOf(channel[0]) + Policies(channel[1..])
  {
    PoliciesOfFirst(channel[0], channel[1..]);
    assert channel == [channel[0]] + channel[1..];
  }

  lemma MonitorPushed(s: Stream, enabled: bool)
    ensures Policies(Pushed(s, MonitorUpdate(enabled)).channel) == Policies(s.channel)
  {
  }

  /** The stream task leaves the policies on the channel alone, except for sending. */
  lemma ChannelStep(c: Config, w: World, s: Stream, step: Step, s': Stream)
    requires IsServer(step) && Server(c, w, s, step) == Some(s')
    ensures step.SendUpdate? && s'.open ==>
              s.phase.Loading? && Policies(s'.channel) == Policies(s.channel) + [s.phase.snapshot]
              && s'.cursor == Cursor(s.phase.snapshot.stamp, Some(s.phase.snapshot.runtime), w.subs > 0)
    ensures !(step.SendUpdate? && s'.open) ==>
              Policies(s'.channel) == Policies(s.channel) && s'.cursor == s.cursor.(monitor := s'.cursor.monitor)
  {
    if step.SendUpdate? {
      PoliciesPush(s.channel, PolicyUpdate(s.phase.snapshot, w.subs > 0));
    } else if step.StreamStart? {
      MonitorPushed(s.(cursor := s.cursor.(monitor := w.subs > 0), phase := Polling), true);
    } else if step.Notice? {
      MonitorPushed(s.(cursor := s.cursor.(monitor := w.subs > 0), phase := Polling, unseen := false), w.subs > 0);
    }
  }

  lemma InFlightServer(c: Config, w: World, s: Stream, step: Step, s': Stream)
    requires w.stream == Some(s) && IsServer(step) && Server(c, w, s, step) == Some(s')
    ensures step.SendUpdate? && s'.open ==>
              s.phase.Loading? && InFlight(w.(stream := Some(s'))) == InFlight(w) + [s.phase.snapshot]
    ensures !(step.SendUpdate? && s'.open) ==> InFlight(w.(stream := Some(s'))) == InFlight(w)
  {
    ChannelStep(c, w, s, step, s');
  }

  lemma ReceivedInFlight(w: World, s: Stream)
    requires w.stream == Some(s) && s.channel != [] && !w.doing.Fetching?
    ensures InFlight(Received(w, s)) == InFlight(w)
  {
    PoliciesPop(s.channel);
  }

  /** The agent takes policies up in order and is done with one when it is applied. */
  lemma AgentTakesInOrder(c: Config, w: World, step: Step)
    requires !IsEnvironment(step) && !IsServer(step) && AgentDoes(c, w, step).Some?
    requires w.doing.Disconnected? <==> w.stream.None?
    ensures var w', p := AgentDoes(c, w, step).value, InFlight(w);
            InFlight(w') ==
              if w'.stream.None? || step.Connect? then [] else if step.ApplyEnds? then p[1..] else p
  {
    if step.Receive? {
      ReceivedInFlight(w, w.stream.value);
    }
  }

  /** The cursor stands at the newest policy sent: the last one in flight, or else the
      one installed, or else, when nothing was sent, what the agent had asked from. */
  ghost predicate CursorFollows(cursor: Cursor, inFlight: seq<Snapshot>, agent: AgentState<Content>)
  {
    match cursor.fingerprint
    case None => inFlight == [] && cursor.version == agent.appliedVersion
    case Some(runtime) =>
      if inFlight != [] then
        inFlight[|inFlight| - 1].stamp == cursor.version && inFlight[|inFlight| - 1].runtime == runtime
      else
        && agent.installed.Holds?
        && agent.installed.content.snapshot.stamp == cursor.version
        && agent.installed.content.snapshot.runtime == runtime
  }

  ghost predicate AgentOk(w: World)
  {
    && (w.doing.Disconnected? <==> w.stream.None?)
    && -1 <= w.agent.appliedVersion <= w.Version()
    && (w.agent.installed.Blank? ==> w.agent.appliedVersion == -1)
    && (w.agent.installed.Holds? ==> w.agent.appliedVersion == w.agent.installed.content.snapshot.version)
    && (w.agent.offline.rulesUnloaded ==> w.agent.appliedVersion == -1)
  }

  ghost predicate CursorOk(w: World)
  {
    w.stream.Some? ==> CursorFollows(w.stream.value.cursor, InFlight(w), w.agent)
  }

  /** A policy on its way to being sent passed the test for a due update. */
  ghost predicate DueOk(c: Config, w: World)
  {
    w.stream.Some? ==>
      match w.stream.value.phase
      case Changed(stamp, runtime) => !PolicyUpdateUnchanged(c.runtimeEnabled, stamp, runtime, w.stream.value.cursor)
      case Loading(sn) => !PolicyUpdateUnchanged(c.runtimeEnabled, sn.stamp, sn.runtime, w.stream.value.cursor)
      case _ => true
  }

  lemma AgentOkAgent(c: Config, w: World, step: Step)
    requires !IsEnvironment(step) && !IsServer(step) && AgentDoes(c, w, step).Some? && SnapshotsOk(w) && AgentOk(w)
    ensures AgentOk(AgentDoes(c, w, step).value)
  {
  }

  lemma CursorFollowsSent(cursor: Cursor, sn: Snapshot, monitor: bool, inFlight: seq<Snapshot>,
                          agent: AgentState<Content>)
    requires CursorFollows(cursor, inFlight, agent)
    ensures CursorFollows(Cursor(sn.stamp, Some(sn.runtime), monitor), inFlight + [sn], agent)
    ensures CursorFollows(cursor.(monitor := monitor), inFlight, agent)
  {
  }

  lemma CursorOkServer(c: Config, w: World, s: Stream, step: Step, s': Stream)
    requires w.stream == Some(s) && IsServer(step) && Server(c, w, s, step) == Some(s') && CursorOk(w)
    ensures CursorOk(w.(stream := Some(s')))
  {
    ChannelStep(c, w, s, step, s');
    var sn := if s.phase.Loading? then s.phase.snapshot else Snapshot(0, {}, 0, []);
    CursorFollowsSent(s.cursor, sn, s'.cursor.monitor, InFlight(w), w.agent);
    InFlightServer(c, w, s, step, s');
  }

  lemma CursorOkApplied(c: Config, w: World, w': World)
    requires AgentDoes(c, w, ApplyEnds(Applied)) == Some(w') && CursorOk(w)
    ensures CursorOk(w')
  {
  }

  /** Nothing the cursor depends on has changed. */
  lemma CursorStaysOk(w: World, w': World)
    requires CursorOk(w) && w.stream.Some? && w'.stream.Some? && w'.stream.value.cursor == w.stream.value.cursor
    requires InFlight(w') == InFlight(w) && w'.agent.appliedVersion == w.agent.appliedVersion
    requires w'.agent.installed == w.agent.installed
    ensures CursorOk(w')
  {
  }

  lemma AgentLeavesCursor(c: Config, w: World, step: Step, w': World)
    requires !IsEnvironment(step) && !IsServer(step) && AgentDoes(c, w, step) == Some(w')
    requires (w.doing.Disconnected? <==> w.stream.None?) && w'.stream.Some?
    requires step != ApplyEnds(Applied) && step != Connect
    ensures w.stream.Some? && w'.stream.value.cursor == w.stream.value.cursor
    ensures w'.agent.appliedVersion == w.agent.appliedVersion && w'.agent.installed == w.agent.installed
  {
  }

  lemma CursorOkAgent(c: Config, w: World, step: Step, w': World)
    requires !IsEnvironment(step) && !IsServer(step) && AgentDoes(c, w, step) == Some(w')
    requires (w.doing.Disconnected? <==> w.stream.None?) && CursorOk(w)
    ensures CursorOk(w')
  {
    if w'.stream.None? {
    } else if step == ApplyEnds(Applied) {
      CursorOkApplied(c, w, w');
    } else {
      AgentTakesInOrder(c, w, step);
      if step != Connect {
        AgentLeavesCursor(c, w, step, w');
        CursorStaysOk(w, w');
      }
    }
  }

  lemma DueOkServer(c: Config, w: World, s: Stream, step: Step)
    requires w.stream == Some(s) && IsServer(step) && Server(c, w, s, step).Some? && DueOk(c, w)
    ensures DueOk(c, w.(stream := Server(c, w, s, step)))
  {
  }

  lemma DueOkAgent(c: Config, w: World, step: Step)
    requires !IsEnvironment(step) && !IsServer(step) && AgentDoes(c, w, step).Some? && DueOk(c, w)
    ensures DueOk(c, AgentDoes(c, w, step).value)
  {
  }

  // --------------------------------------------------------------- the invariant

  ghost predicate Inv(c: Config, w: World)
  {
    SnapshotsOk(w) && FetchOk(w) && GeoOk(w) && AgentOk(w) && CursorOk(w) && DueOk(c, w)
  }

  lemma InvStep(c: Config, w: World, step: Step)
    requires Do(c, w, step).Some? && Inv(c, w)
    ensures Inv(c, Do(c, w, step).value)
  {
    if IsEnvironment(step) {
      SnapshotsOkEnvironment(c, w, step);
      FetchOkEnvironment(c, w, step);
    } else if IsServer(step) {
      SnapshotsOkServer(c, w, w.stream.value, step);
      CursorOkServer(c, w, w.stream.value, step, Do(c, w, step).value.stream.value);
      DueOkServer(c, w, w.stream.value, step);
    } else {
      SnapshotsOkAgent(c, w, step);
      FetchOkAgent(c, w, step);
      GeoOkAgent(c, w, step);
      AgentOkAgent(c, w, step);
      CursorOkAgent(c, w, step, Do(c, w, step).value);
      DueOkAgent(c, w, step);
    }
  }
}
