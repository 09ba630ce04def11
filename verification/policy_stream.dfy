/** The server's side of one policy stream: what a snapshot is made of, when an
    update is due, and how the cursor moves. */
module PolicyStream {

  import opened Net
  import opened Policy
  import opened GeoPages
  import opened Results

  // ------------------------------------------------------- database contents

  /** One table row: the column other tables refer to, and the rest. */
  datatype Row = Row(key: string, body: string)

  type TableRows = seq<Row>

  /** The policy tables in the order a snapshot reads them. */
  const GEO_COUNTRIES: nat := 1
  const THREAT_SOURCES: nat := 2
  const THREAT_PREFIXES: nat := 3
  const TABLES: nat := 8

  /** Everything one version of the policy says. Tables: rules, GeoIP countries,
      threat sources, threat prefixes, defence, rate limits, temporary bans, trusted
      networks. */
  datatype RawDb = Db(tables: seq<TableRows>, geo: Rows)

  type Db = d: RawDb | |d.tables| == TABLES witness Db(seq(TABLES, _ => []), map[])

  predicate IsKey(sources: TableRows, key: string)
  {
    exists s <- sources :: s.key == key
  }

  function Chosen(row: Row, sources: TableRows): TableRows
  {
    if IsKey(sources, row.key) then [row] else []
  }

  function Selected(rows: TableRows, sources: TableRows): TableRows
  {
    if rows == [] then []
    else Chosen(rows[0], sources) + Selected(rows[1..], sources)
  }

  /** The selection has exactly the rows that some source is the key of. */
  lemma {:induction false} SelectedMembers(rows: TableRows, sources: TableRows, r: Row)
    ensures r in Selected(rows, sources) <==> r in rows && exists s <- sources :: s.key == r.key
  {
    if rows == [] {
    } else {
      SelectedMembers(rows[1..], sources, r);
    }
  }

  lemma SelectedStep(rows: TableRows, sources: TableRows)
    requires rows != []
    ensures Selected(rows, sources) == Chosen(rows[0], sources) + Selected(rows[1..], sources)
  {
  }

  lemma InFront(rows: TableRows, more: TableRows)
    requires rows != []
    ensures rows + more != [] && (rows + more)[0] == rows[0] && (rows + more)[1..] == rows[1..] + more
  {
  }

  lemma Grouped(a: TableRows, b: TableRows, c: TableRows)
    ensures a + (b + c) == (a + b) + c
  {
  }

  /** It goes through the table row by row: order and repetitions stay. */
  lemma {:induction false} SelectedParts(rows: TableRows, more: TableRows, sources: TableRows)
    ensures Selected(rows + more, sources) == Selected(rows, sources) + Selected(more, sources)
  {
    if rows == [] {
      assert rows + more == more;
    } else {
      var rest := rows[1..];
      SelectedParts(rest, more, sources);
      InFront(rows, more);
      SelectedStep(rows + more, sources);
      SelectedStep(rows, sources);
      Grouped(Chosen(rows[0], sources), Selected(rest, sources), Selected(more, sources));
    }
  }

  /** Which threat prefixes a snapshot loads: those of the enabled sources, in the order and
      as often as the table has them, and none if no source is enabled. */
  lemma SelectedExactly(rows: TableRows, more: TableRows, sources: TableRows, r: Row)
    ensures r in Selected(rows, sources) <==> r in rows && exists s <- sources :: s.key == r.key
    ensures Selected(rows + more, sources) == Selected(rows, sources) + Selected(more, sources)
    ensures r in Selected([r], sources) ==> Selected([r], sources) == [r]
    ensures Selected(rows, []) == []
  {
    SelectedMembers(rows, sources, r);
    SelectedParts(rows, more, sources);
    if Selected(rows, []) != [] {
      SelectedMembers(rows, [], Selected(rows, [])[0]);
    }
  }

  /** What the i-th read of a snapshot returns, given what was read before it: threat
      prefixes are selected by the sources read earlier. */
  function Query(db: Db, i: nat, sources: TableRows): TableRows
    requires i < TABLES
  {
    if i == THREAT_PREFIXES then Selected(db.tables[i], sources) else db.tables[i]
  }

  /** The rows of one read and the version they come from. */
  datatype Read = Read(at: nat, rows: TableRows)

  function SourcesOf(loaded: seq<Read>): TableRows
  {
    if |loaded| > THREAT_SOURCES then loaded[THREAT_SOURCES].rows else []
  }

  /** What a snapshot read in one go would hold in table `i`. */
  function Active(db: Db, i: nat): TableRows
    requires i < TABLES
  {
    Query(db, i, db.tables[THREAT_SOURCES])
  }

  /** A snapshot holds every table whole, except that of the threat prefixes it holds those
      of the sources of the same database. */
  lemma ActiveTables(db: Db, i: nat, r: Row)
    requires i < TABLES
    ensures i != 3 ==> Active(db, i) == db.tables[i]
    ensures r in Active(db, 3) <==> r in db.tables[3] && exists source <- db.tables[2] :: source.key == r.key
  {
    SelectedMembers(db.tables[3], db.tables[2], r);
  }

  function Countries(db: Db): seq<Option<Country>>
  {
    Normalized(Keys(db.tables[GEO_COUNTRIES]))
  }

  function Keys(rows: TableRows): seq<string>
  {
    seq(|rows|, i requires 0 <= i < |rows| => rows[i].key)
  }

  // -------------------------------------------------------- the version counter

  class PolicyVersions {
    var row: Option<nat>

    /** A missing row counts as version 0. */
    function LatestVersion(): nat
      reads this
    {
      row.GetOr(0)
    }

    /** Before serving: a missing policy is created at version 1, and an existing one is
        bumped only if builtin threat sources had to be added to it. */
    method EnsureBuiltinPolicy(inserted: nat) returns (bumped: bool)
      modifies this
      ensures row.Some? && bumped == (old(row).None? || inserted > 0)
      ensures LatestVersion() == old(LatestVersion()) + (if bumped then 1 else 0)
      ensures old(LatestVersion()) > 0 || old(row).None? ==> LatestVersion() > 0
    {
      bumped := row.None? || inserted > 0;
      if bumped {
        var _ := NextPolicyVersion();
      }
    }

    method NextPolicyVersion() returns (next: nat)
      modifies this
      ensures next == old(LatestVersion()) + 1 == LatestVersion() && row == Some(next)
    {
      match row {
        case Some(version) =>
          next := version + 1;
        case None =>
          next := 1;
      }
      row := Some(next);
    }
  }

  // ------------------------------------------------------------------ the stream

  /** A policy on its way: the version read first, the runtime networks, the version
      read with the tables, and the tables. */
  datatype Snapshot = Snapshot(stamp: nat, runtime: set<Cidr>, version: nat, loaded: seq<Read>)

  datatype Message = PolicyUpdate(snapshot: Snapshot, monitor: bool) | MonitorUpdate(monitor: bool)

  /** What the stream last sent. The fingerprint of a set of networks is the set. */
  datatype Cursor = Cursor(version: int, fingerprint: Option<set<Cidr>>, monitor: bool)

  datatype Phase =
    | Starting
    | Polling
    | Labelled(stamp: nat)
    | Changed(stamp: nat, runtime: set<Cidr>)
    | Loading(snapshot: Snapshot)
    | Waiting

  datatype Stream = Stream(cursor: Cursor, phase: Phase, channel: seq<Message>, open: bool, unseen: bool)

  const CHANNEL_CAPACITY: nat := 8

  predicate PolicyUpdateUnchanged(runtimeEnabled: bool, version: nat, runtime: set<Cidr>, cursor: Cursor)
  {
    version <= cursor.version && (!runtimeEnabled || cursor.fingerprint == Some(runtime))
  }

  function Opened(appliedVersion: int): Stream
  {
    Stream(Cursor(appliedVersion, None, false), Starting, [], true, false)
  }

  /** Puts a message on the channel; a full channel closes the stream. */
  function Pushed(s: Stream, m: Message): Stream
  {
    if |s.channel| < CHANNEL_CAPACITY then s.(channel := s.channel + [m]) else s.(open := false)
  }

  function Started(s: Stream, enabled: bool): Stream
  {
    var s' := s.(cursor := s.cursor.(monitor := enabled), phase := Polling);
    if enabled then Pushed(s', MonitorUpdate(true)) else s'
  }

  function Noticed(s: Stream, enabled: bool): Stream
  {
    var s' := s.(cursor := s.cursor.(monitor := enabled), phase := Polling, unseen := false);
    if enabled == s.cursor.monitor then s' else Pushed(s', MonitorUpdate(enabled))
  }

  function Sent(s: Stream, snapshot: Snapshot, enabled: bool): Stream
  {
    if |s.channel| < CHANNEL_CAPACITY
    then s.(cursor := Cursor(snapshot.stamp, Some(snapshot.runtime), enabled), phase := Waiting,
            channel := s.channel + [PolicyUpdate(snapshot, enabled)])
    else s.(open := false)
  }

  /** The stream task: its cursor and its end of the channel. */
  class PolicyStreamTask {
    var version: int
    var runtimeFingerprint: Option<set<Cidr>>
    var dropMonitorEnabled: bool
    var channel: seq<Message>
    var open: bool

    /** Opens the stream at the version the agent asked from; an agent that is watched
        is told at once. */
    constructor (currentVersion: int, enabled: bool)
      ensures Agrees(Started(Opened(currentVersion), enabled))
      ensures version == currentVersion && runtimeFingerprint == None && dropMonitorEnabled == enabled && open
      ensures channel == if enabled then [MonitorUpdate(true)] else []
    {
      version, runtimeFingerprint, dropMonitorEnabled := currentVersion, None, enabled;
      channel, open := if enabled then [MonitorUpdate(true)] else [], true;
    }

    predicate Agrees(s: Stream)
      reads this
    {
      s.cursor == Cursor(version, runtimeFingerprint, dropMonitorEnabled) && s.channel == channel && s.open == open
    }

    method TrySend(m: Message) returns (sent: bool)
      modifies this`channel
      ensures sent <==> |old(channel)| < CHANNEL_CAPACITY
      ensures channel == if sent then old(channel) + [m] else old(channel)
    {
      sent := |channel| < CHANNEL_CAPACITY;
      if sent {
        channel := channel + [m];
      }
    }

    method SendDropMonitorChange(enabled: bool, ghost s: Stream)
      requires Agrees(s)
      modifies this
      ensures Agrees(Noticed(s, enabled))
      ensures version == old(version) && runtimeFingerprint == old(runtimeFingerprint) && dropMonitorEnabled == enabled
      ensures var sends, room := enabled != old(dropMonitorEnabled), |old(channel)| < CHANNEL_CAPACITY;
              && channel == (if sends && room then old(channel) + [MonitorUpdate(enabled)] else old(channel))
              && open == (old(open) && (sends ==> room))
    {
      if enabled == dropMonitorEnabled {
        return;
      }
      dropMonitorEnabled := enabled;
      var sent := TrySend(MonitorUpdate(enabled));
      if !sent {
        open := false;
      }
    }

    /** Sends a snapshot that is due and only then moves the cursor. */
    method SendAvailablePolicyUpdate(update: Option<Snapshot>, enabled: bool, ghost s: Stream)
      requires Agrees(s)
      modifies this
      ensures Agrees(if update.Some? then Sent(s, update.value, enabled) else s)
      ensures update.None? ==> channel == old(channel) && open == old(open)
      ensures update.Some? && |old(channel)| < CHANNEL_CAPACITY ==>
                && channel == old(channel) + [PolicyUpdate(update.value, enabled)] && open == old(open)
                && version == update.value.stamp && runtimeFingerprint == Some(update.value.runtime)
                && dropMonitorEnabled == enabled
      ensures update.Some? && |old(channel)| >= CHANNEL_CAPACITY ==> channel == old(channel) && !open
      ensures update.None? || |old(channel)| >= CHANNEL_CAPACITY ==>
                && version == old(version) && runtimeFingerprint == old(runtimeFingerprint)
                && dropMonitorEnabled == old(dropMonitorEnabled)
    {
      match update {
        case None =>
        case Some(snapshot) =>
          var sent := TrySend(PolicyUpdate(snapshot, enabled));
          if !sent {
            open := false;
            return;
          }
          version, runtimeFingerprint, dropMonitorEnabled := snapshot.stamp, Some(snapshot.runtime), enabled;
      }
    }
  }
}
