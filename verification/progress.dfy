/** The distribution protocol is never stuck: from every state it can settle. */
module Progress {

  import opened Net
  import opened Policy
  import opened GeoPages
  import opened PolicyStream
  import opened Agent
  import opened Xds
  import opened Convergence
  import opened Results

  // ------------------------------------------------------------- a fetch that ends

  function Listing(db: Db): seq<XdpGeoPrefix>
  {
    PrefixesFrom(Countries(db), db.geo, 0, 0)
  }

  /** A page that stopped is full. */
  predicate StopsFull(f: Fetch)
  {
    f.paging.Collecting? && f.paging.page.next.Some? ==> |f.paging.page.prefixes| == GEO_PREFIX_PAGE_SIZE
  }

  /** The fetch can go on: it is on its way to the listing, every country of which loads. */
  ghost predicate FetchGoesOn(db: Db, stamp: nat, version: int, f: Fetch)
  {
    && FetchFits(f) && FetchOnTrack(db, f) && !FailsFrom(Countries(db), 0)
    && (stamp == 0 || stamp == version)
    && StopsFull(f)
  }

  /** The next step of a fetch. */
  function NextPaging(f: Fetch): Step
  {
    match f.paging
    case Between => PageCheck
    case Checked => PageCountries
    case _ => PageRow
  }

  /** Steps left on the page at hand. */
  function StepsLeft(f: Fetch): nat
  {
    match f.paging
    case Between => 2
    case Checked => 1
    case _ => 0
  }

  function CountriesLeft(f: Fetch): nat
  {
    match f.paging
    case Collecting(countries, next, page) =>
      if page.next.Some? || next > |countries| then 0 else |countries| - next + 1
    case _ => 0
  }

  /** What was fetched is part of the listing. */
  lemma FetchedWithin(db: Db, f: Fetch)
    requires FetchOnTrack(db, f) && !FailsFrom(Countries(db), 0)
    ensures |f.prefixes| <= |Listing(db)|
    ensures f.paging.Collecting? ==> |f.prefixes| + |f.paging.page.prefixes| <= |Listing(db)|
  {
  }

  /** The page step of a country that is next to be read. */
  lemma RowTaken(db: Db, stamp: nat, version: int, f: Fetch, countries: seq<Option<Country>>, next: nat, page: Page)
    requires FetchGoesOn(db, stamp, version, f) && f.paging == Collecting(countries, next, page)
    requires page.next.None? && next < |countries|
    ensures var f' := Paged(db, version, stamp, f, PageRow);
            && f'.Some? && FetchGoesOn(db, stamp, version, f'.value)
            && f'.value.prefixes == f.prefixes && f'.value.paging.Collecting?
            && StepsLeft(f'.value) == StepsLeft(f) && CountriesLeft(f'.value) < CountriesLeft(f)
  {
    assert countries[next].Some?;
    var skip := if next == f.at.country then f.at.offset else 0;
    var p := Collect(page, GEO_PREFIX_PAGE_SIZE, next, skip, CountryPrefixes(db.geo, countries[next].value));
    CollectSplits(page, GEO_PREFIX_PAGE_SIZE, countries, db.geo, next, skip, countries[next].value, p);
    PagedKeepsFits(db, version, stamp, f, PageRow);
    PagedStaysOnTrack(db, version, stamp, f, PageRow);
  }

  /** The page step that ends a page: the next page begins, or the listing is complete. */
  lemma PageEnds(db: Db, stamp: nat, version: int, f: Fetch, countries: seq<Option<Country>>, next: nat, page: Page)
    requires f.paging == Collecting(countries, next, page) && StopsFull(f)
    requires page.next.Some? || next >= |countries|
    ensures var f' := Paged(db, version, stamp, f, PageRow);
            && f'.Some? && StopsFull(f'.value) && |f.prefixes| <= |f'.value.prefixes|
            && (f'.value.paging.Complete? || |f.prefixes| < |f'.value.prefixes|)
  {
  }

  /** The two steps before the rows of a page are read. */
  lemma PageBegins(db: Db, stamp: nat, version: int, f: Fetch)
    requires (f.paging.Between? || f.paging.Checked?) && (stamp == 0 || stamp == version)
    ensures var f' := Paged(db, version, stamp, f, NextPaging(f));
            && f'.Some? && StopsFull(f'.value)
            && f'.value.prefixes == f.prefixes && StepsLeft(f'.value) < StepsLeft(f)
  {
  }

  /** What a step keeps of a fetch that can go on. */
  lemma StillGoesOn(db: Db, stamp: nat, version: int, f: Fetch, step: Step, f': Fetch)
    requires FetchGoesOn(db, stamp, version, f) && Paged(db, version, stamp, f, step) == Some(f') && StopsFull(f')
    ensures FetchGoesOn(db, stamp, version, f') && |f'.prefixes| <= |Listing(db)|
  {
    PagedKeepsFits(db, version, stamp, f, step);
    PagedStaysOnTrack(db, version, stamp, f, step);
    FetchedWithin(db, f');
  }

  /** Nearer to the end of the fetch. */
  predicate Nearer(f: Fetch, f': Fetch)
  {
    && |f.prefixes| <= |f'.prefixes|
    && (|| f'.paging.Complete? || |f.prefixes| < |f'.prefixes| || StepsLeft(f') < StepsLeft(f)
        || (StepsLeft(f') == StepsLeft(f) && CountriesLeft(f') < CountriesLeft(f)))
  }

  /** A fetch that can go on takes its next step, and gets nearer to its end by it. */
  lemma FetchSteps(db: Db, stamp: nat, version: int, f: Fetch) returns (f': Fetch)
    requires FetchGoesOn(db, stamp, version, f) && !f.paging.Complete?
    ensures Paged(db, version, stamp, f, NextPaging(f)) == Some(f') && FetchGoesOn(db, stamp, version, f')
    ensures Nearer(f, f') && |f'.prefixes| <= |Listing(db)|
  {
    match f.paging
    case Collecting(countries, next, page) =>
      if page.next.None? && next < |countries| {
        RowTaken(db, stamp, version, f, countries, next, page);
      } else {
        PageEnds(db, stamp, version, f, countries, next, page);
      }
      f' := Paged(db, version, stamp, f, PageRow).value;
      StillGoesOn(db, stamp, version, f, PageRow, f');
    case Between | Checked =>
      PageBegins(db, stamp, version, f);
      f' := Paged(db, version, stamp, f, NextPaging(f)).value;
      StillGoesOn(db, stamp, version, f, NextPaging(f), f');
  }

  lemma FetchGoesOnOnce(c: Config, history: seq<Db>, runtime: set<Cidr>, w: World, f: Fetch)
    returns (w': World, f': Fetch)
    requires |history| > 0 && Reaches(c, history, runtime, w) && w.doing.Fetching? && f == w.doing.fetch
    requires FetchGoesOn(Now(w), w.doing.snapshot.stamp, w.Version(), f) && !f.paging.Complete?
    ensures Reaches(c, history, runtime, w') && w' == w.(doing := w.doing.(fetch := f'))
    ensures FetchGoesOn(Now(w), w.doing.snapshot.stamp, w.Version(), f')
    ensures Nearer(f, f') && |f'.prefixes| <= |Listing(Now(w))|
  {
    f' := FetchSteps(Now(w), w.doing.snapshot.stamp, w.Version(), f);
    w' := w.(doing := w.doing.(fetch := f'));
    Extend(c, history, runtime, w, NextPaging(f), w');
  }

  /** While the database stands still a fetch that can go on completes. */
  lemma {:induction false} FetchFinishes(
    c: Config, history: seq<Db>, runtime: set<Cidr>, w: World, f: Fetch, listing: nat)
    returns (w': World, done: Fetch)
    requires |history| > 0 && Reaches(c, history, runtime, w) && w.doing.Fetching? && f == w.doing.fetch
    requires FetchGoesOn(Now(w), w.doing.snapshot.stamp, w.Version(), f) && listing == |Listing(Now(w))|
    requires |f.prefixes| <= listing
    ensures Reaches(c, history, runtime, w') && w' == w.(doing := w.doing.(fetch := done)) && done.paging.Complete?
    decreases listing - |f.prefixes|, StepsLeft(f), CountriesLeft(f)
  {
    w', done := w, f;
    if f.paging.Complete? {
    } else {
      var next, f' := FetchGoesOnOnce(c, history, runtime, w, f);
      if f'.paging.Complete? {
        w', done := next, f';
      } else {
        w', done := FetchFinishes(c, history, runtime, next, f', listing);
      }
    }
  }

  // --------------------------------------------------------------- settling again

  /** Only the stream and the agent have moved. */
  ghost predicate SameSurroundings(w: World, w': World)
  {
    w'.history == w.history && w'.runtime == w.runtime && w'.subs == w.subs
  }

  /** A policy that is due is sent, fetched and applied, and then nothing is due. */
  lemma DueIsDelivered(c: Config, history: seq<Db>, runtime: set<Cidr>, w: World) returns (w': World)
    requires |history| > 0 && Reaches(c, history, runtime, w) && !FailsFrom(Countries(Now(w)), 0)
    requires w.stream.Some? && w.doing.Listening? && w.owed == 0
    requires w.stream.value == Stream(w.stream.value.cursor, Changed(w.Version(), w.runtime), [], true, false)
    ensures Reaches(c, history, runtime, w') && Settled(c, w') && SameSurroundings(w, w')
  {
    var w1, sn := SendDue(c, history, runtime, w, w.Version());
    var w2 := PolicyReceived(c, history, runtime, w1, sn, w.subs > 0);
    FetchStarts(Now(w2));
    var w3, f := FetchFinishes(c, history, runtime, w2, w2.doing.fetch, |Listing(Now(w2))|);
    w' := Do(c, w3, ApplyEnds(Applied)).value;
    Extend(c, history, runtime, w3, ApplyEnds(Applied), w');
  }

  lemma {:induction false} AllAnnounced(c: Config, history: seq<Db>, runtime: set<Cidr>, w: World) returns (w': World)
    requires |history| > 0 && Reaches(c, history, runtime, w) && w.stream.None?
    ensures Reaches(c, history, runtime, w') && w' == w.(owed := 0)
    decreases w.owed
  {
    if w.owed == 0 {
      w' := w;
    } else {
      var next := w.(owed := w.owed - 1);
      Extend(c, history, runtime, w, Notify, next);
      w' := AllAnnounced(c, history, runtime, next);
    }
  }

  /** The agent gives up its connection, if it has one, and owed changes are announced. */
  lemma Away(c: Config, history: seq<Db>, runtime: set<Cidr>, w: World) returns (w': World)
    requires |history| > 0 && Reaches(c, history, runtime, w)
    ensures Reaches(c, history, runtime, w') && SameSurroundings(w, w')
    ensures w'.stream.None? && w'.doing.Disconnected? && w'.owed == 0
  {
    ReachesInv(c, history, runtime, w);
    var w1 := w;
    if w.stream.Some? {
      w1 := Do(c, w, ControlPlaneFails).value;
      Extend(c, history, runtime, w, ControlPlaneFails, w1);
    }
    w' := AllAnnounced(c, history, runtime, w1);
  }

  /** It comes back, is told whether someone watches, and the stream is ready to poll. */
  lemma Back(c: Config, history: seq<Db>, runtime: set<Cidr>, w: World) returns (w': World)
    requires |history| > 0 && Reaches(c, history, runtime, w)
    requires w.stream.None? && w.doing.Disconnected? && w.owed == 0
    ensures Reaches(c, history, runtime, w') && SameSurroundings(w, w') && w'.owed == 0 && w'.doing.Listening?
    ensures w'.stream.Some? && w'.stream.value == Stream(w'.stream.value.cursor, Polling, [], true, false)
  {
    w' := Convergence.Started(c, history, runtime, w);
    if w.subs > 0 {
      w' := ToldToWatch(c, history, runtime, w');
    }
  }

  lemma PolledAndDelivered(c: Config, history: seq<Db>, runtime: set<Cidr>, w: World) returns (w': World)
    requires |history| > 0 && Reaches(c, history, runtime, w) && !FailsFrom(Countries(Now(w)), 0)
    requires w.stream.Some? && w.doing.Listening? && w.owed == 0
    requires w.stream.value == Stream(w.stream.value.cursor, Polling, [], true, false)
    ensures Reaches(c, history, runtime, w') && Settled(c, w') && SameSurroundings(w, w')
  {
    var w1 := Poll(c, history, runtime, w);
    if PolicyUpdateUnchanged(c.runtimeEnabled, w.Version(), w.runtime, w.stream.value.cursor) {
      w' := w1;
    } else {
      w' := DueIsDelivered(c, history, runtime, w1);
    }
  }

  /** Never stuck: from every state of every run in which the stored GeoIP rows load, the
      server and the agent alone, over at most one reconnection, reach a settled state with
      the same database, runtime networks and subscriptions; from a seeded database the
      agent then runs the active policy. */
  lemma CanAlwaysSettle(c: Config, history: seq<Db>, runtime: set<Cidr>, w: World) returns (w': World)
    requires |history| > 0 && Reaches(c, history, runtime, w) && Unpaged(Countries(Now(w)), Now(w).geo).Ok?
    ensures Reaches(c, history, runtime, w') && Settled(c, w') && SameSurroundings(w, w')
    ensures |history| >= 2 || c.runtimeEnabled ==> PolicyConverged(c, w')
  {
    var w1 := Away(c, history, runtime, w);
    var w2 := Back(c, history, runtime, w1);
    w' := PolledAndDelivered(c, history, runtime, w2);
    PolicyConvergesIff(c, history, runtime);
  }
}
