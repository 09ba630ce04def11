/** GeoIP prefixes, whole and page by page. A country's persisted row is a list of
    networks that may turn malformed part-way; what parsed before that is kept. */
module GeoPages {

  import opened Bits
  import opened Net
  import opened Encoding
  import opened Policy
  import opened Text
  import opened Results

  // ---------------------------------------------------------------- countries

  predicate IsLetter(c: char)
  {
    'A' <= c <= 'Z' || 'a' <= c <= 'z'
  }

  function Upper(c: char): (u: U8)
    requires IsLetter(c)
    ensures IsUpperLetter(u)
  {
    if c <= 'Z' then c as nat else c as nat - 32
  }

  function NormalizeCountry(value: string): Option<Country>
  {
    var v := Trim(value);
    if |v| == 2 && IsLetter(v[0]) && IsLetter(v[1]) then Some(Country(Upper(v[0]), Upper(v[1]))) else None
  }

  function CountryText(c: Country): string
  {
    [c.first as char, c.second as char]
  }

  function DecodeCountry(code: U16): Option<Country>
  {
    NormalizeCountry([(code / 256) as char, (code % 256) as char])
  }

  /** A country code is two letters in either case, with any white space around them; it is
      kept in upper case. */
  lemma NormalizeMeans(before: string, text: string, after: string)
    requires AllSpace(before) && AllSpace(after) && Trimmed(text)
    ensures NormalizeCountry(before + text + after) ==
            if |text| == 2 && IsLetter(text[0]) && IsLetter(text[1])
            then Some(Country(if 'a' <= text[0] then text[0] as nat - 'a' as nat + 65 else text[0] as nat,
                              if 'a' <= text[1] then text[1] as nat - 'a' as nat + 65 else text[1] as nat))
            else None
  {
    TrimMeans(before, text, after);
  }

  /** A country code survives the wire: encoded by the server, printed as text,
      normalized again by the agent. */
  lemma CountryRoundTrip(value: string)
    requires NormalizeCountry(value).Some?
    ensures var c := NormalizeCountry(value).value;
            DecodeCountry(EncodeCountry(c)) == Some(c) && NormalizeCountry(CountryText(c)) == Some(c)
  {
    var c := NormalizeCountry(value).value;
    assert EncodeCountry(c) / 256 == c.first && EncodeCountry(c) % 256 == c.second;
    TrimKeeps(CountryText(c));
  }

  /** Codes the server writes are those of countries. */
  predicate IsCode(code: U16)
  {
    IsUpperLetter(code / 256) && IsUpperLetter(code % 256)
  }

  function CountryOf(code: U16): Country
    requires IsCode(code)
  {
    Country(code / 256, code % 256)
  }

  lemma CodeRoundTrip(code: U16)
    requires IsCode(code)
    ensures DecodeCountry(code) == Some(CountryOf(code))
    ensures NormalizeCountry(CountryText(CountryOf(code))) == Some(CountryOf(code))
  {
    var c := CountryOf(code);
    TrimKeeps(CountryText(c));
    assert NormalizeCountry(CountryText(c)) == Some(c);
    CountryRoundTrip(CountryText(c));
    assert EncodeCountry(c) == code;
  }

  // --------------------------------------------------------------------- rows

  /** The elements of one persisted list; None is where it stops parsing. */
  datatype GeoRow = GeoRow(elements: seq<Option<Cidr>>)

  type Rows = map<Country, GeoRow>

  /** What a row yields for its country: networks cut to their address, up to the
      malformed element. */
  function RowPrefixes(elements: seq<Option<Cidr>>, code: U16): seq<XdpGeoPrefix>
  {
    if elements == [] || elements[0].None? then []
    else [XdpGeoPrefix(Trunc(elements[0].value), code)] + RowPrefixes(elements[1..], code)
  }

  function CountryPrefixes(rows: Rows, country: Country): seq<XdpGeoPrefix>
  {
    if country in rows then RowPrefixes(rows[country].elements, EncodeCountry(country)) else []
  }

  /** One more element moves from what is to come to what is done. */
  lemma RowPrefixesStep(elements: seq<Option<Cidr>>, code: U16, i: nat, done: seq<XdpGeoPrefix>, prefix: XdpGeoPrefix)
    requires i < |elements| && elements[i].Some? && prefix == XdpGeoPrefix(Trunc(elements[i].value), code)
    ensures done + RowPrefixes(elements[i..], code) == (done + [prefix]) + RowPrefixes(elements[i + 1..], code)
  {
  }

  // -------------------------------------------------------- the unpaged listing

  /** The stored codes as each loader reads them; None is an invalid code. */
  function Normalized(codes: seq<string>): (r: seq<Option<Country>>)
    ensures |r| == |codes| && forall i :: 0 <= i < |r| ==> r[i] == NormalizeCountry(codes[i])
  {
    seq(|codes|, i requires 0 <= i < |codes| => NormalizeCountry(codes[i]))
  }

  function Skipped<T>(s: seq<T>, skip: nat): seq<T>
  {
    if skip <= |s| then s[skip..] else []
  }

  /** Everything from offset `skip` of country `c` on, up to an invalid country. */
  function PrefixesFrom(countries: seq<Option<Country>>, rows: Rows, c: nat, skip: nat): seq<XdpGeoPrefix>
    decreases |countries| - c
  {
    if c >= |countries| || countries[c].None? then []
    else
      var country := countries[c].value;
      Skipped(CountryPrefixes(rows, country), skip) + PrefixesFrom(countries, rows, c + 1, 0)
  }

  /** Some country from `c` on is invalid. */
  predicate FailsFrom(countries: seq<Option<Country>>, c: nat)
    decreases |countries| - c
  {
    c < |countries| && (countries[c].None? || FailsFrom(countries, c + 1))
  }

  /** The networks of a country that parse, up to the first that does not, cut to their
      network address and with the country's code. */
  predicate IsListed(rows: Rows, country: Country, p: XdpGeoPrefix)
  {
    && country in rows
    && exists i :: 0 <= i < |rows[country].elements|
                   && ParsesUpTo(rows[country].elements, i)
                   && p == XdpGeoPrefix(Trunc(rows[country].elements[i].value), EncodeCountry(country))
  }

  predicate ParsesUpTo(elements: seq<Option<Cidr>>, i: nat)
    requires i < |elements|
  {
    forall j :: 0 <= j <= i ==> elements[j].Some?
  }

  lemma {:induction false} RowMeans(elements: seq<Option<Cidr>>, code: U16)
    ensures var r := RowPrefixes(elements, code);
            && |r| <= |elements|
            && forall i :: 0 <= i < |r| ==>
                 elements[i].Some? && r[i] == XdpGeoPrefix(Trunc(elements[i].value), code)
  {
    if elements == [] || elements[0].None? {
    } else {
      RowMeans(elements[1..], code);
    }
  }

  lemma {:induction false} ParsedIsListed(elements: seq<Option<Cidr>>, code: U16, i: nat)
    requires i < |elements| && ParsesUpTo(elements, i)
    ensures i < |RowPrefixes(elements, code)|
  {
    assert elements[0].Some?;
    if i == 0 {
    } else {
      assert forall j :: 0 <= j < i ==> elements[1..][j] == elements[j + 1];
      ParsedIsListed(elements[1..], code, i - 1);
    }
  }

  lemma CountryHolds(rows: Rows, country: Country, p: XdpGeoPrefix)
    ensures p in CountryPrefixes(rows, country) <==> IsListed(rows, country, p)
  {
    if country in rows {
      var elements, listed := rows[country].elements, CountryPrefixes(rows, country);
      RowMeans(elements, EncodeCountry(country));
      if p in listed {
        var i :| 0 <= i < |listed| && listed[i] == p;
        assert ParsesUpTo(elements, i);
      }
      if IsListed(rows, country, p) {
        var i :| 0 <= i < |elements| && ParsesUpTo(elements, i)
                 && p == XdpGeoPrefix(Trunc(elements[i].value), EncodeCountry(country));
        ParsedIsListed(elements, EncodeCountry(country), i);
        assert listed[i] == p;
      }
    }
  }

  /** The listing of valid countries holds exactly what their rows list. */
  lemma {:induction false} ListingHolds(countries: seq<Option<Country>>, rows: Rows, c: nat, p: XdpGeoPrefix)
    requires !FailsFrom(countries, c)
    ensures p in PrefixesFrom(countries, rows, c, 0) <==>
            exists k :: c <= k < |countries| && countries[k].Some? && IsListed(rows, countries[k].value, p)
    decreases |countries| - c
  {
    if c >= |countries| {
    } else {
      ListingHolds(countries, rows, c + 1, p);
      CountryHolds(rows, countries[c].value, p);
      assert Skipped(CountryPrefixes(rows, countries[c].value), 0) == CountryPrefixes(rows, countries[c].value);
    }
  }

  /** In the order of the countries: their listings one after the other. */
  lemma {:induction false} ListingInOrder(a: seq<Option<Country>>, b: seq<Option<Country>>, rows: Rows, c: nat)
    requires c <= |a| && !FailsFrom(a, c)
    ensures PrefixesFrom(a + b, rows, c, 0) == PrefixesFrom(a, rows, c, 0) + PrefixesFrom(a + b, rows, |a|, 0)
    decreases |a| - c
  {
    if c == |a| {
    } else {
      ListingInOrder(a, b, rows, c + 1);
    }
  }

  datatype GeoError = InvalidCountry | InvalidToken

  function Unpaged(countries: seq<Option<Country>>, rows: Rows): Result<seq<XdpGeoPrefix>, GeoError>
  {
    if FailsFrom(countries, 0) then Err(InvalidCountry) else Ok(PrefixesFrom(countries, rows, 0, 0))
  }

  /** Pushes a row's prefixes until it turns malformed. */
  method CollectRow(elements: seq<Option<Cidr>>, code: U16, before: seq<XdpGeoPrefix>)
    returns (prefixes: seq<XdpGeoPrefix>)
    ensures prefixes == before + RowPrefixes(elements, code)
  {
    prefixes := before;
    var i := 0;
    assert elements[0..] == elements;
    while i < |elements| && elements[i].Some?
      invariant i <= |elements|
      invariant prefixes + RowPrefixes(elements[i..], code) == before + RowPrefixes(elements, code)
    {
      var prefix := XdpGeoPrefix(Trunc(elements[i].value), code);
      RowPrefixesStep(elements, code, i, prefixes, prefix);
      prefixes := prefixes + [prefix];
      i := i + 1;
    }
    assert RowPrefixes(elements[i..], code) == [];
  }

  /** What is loaded so far, with what the position still promises, is the listing. */
  ghost predicate OnTrack(countries: seq<Option<Country>>, rows: Rows, prefixes: seq<XdpGeoPrefix>, at: Position)
  {
    && FailsFrom(countries, at.country) == FailsFrom(countries, 0)
    && prefixes + PrefixesFrom(countries, rows, at.country, at.offset) == PrefixesFrom(countries, rows, 0, 0)
  }

  lemma OnTrackAtStart(countries: seq<Option<Country>>, rows: Rows)
    ensures OnTrack(countries, rows, [], Position(0, 0))
  {
  }

  /** One more country moves its prefixes from what is to come to what is loaded. */
  lemma OnTrackNextCountry(countries: seq<Option<Country>>, rows: Rows, prefixes: seq<XdpGeoPrefix>, c: nat,
                           country: Country)
    requires c < |countries| && countries[c] == Some(country) && OnTrack(countries, rows, prefixes, Position(c, 0))
    ensures OnTrack(countries, rows, prefixes + CountryPrefixes(rows, country), Position(c + 1, 0))
  {
    PrefixesFromStep(countries, rows, c, 0, country);
    Taken(prefixes, CountryPrefixes(rows, country), PrefixesFrom(countries, rows, c + 1, 0),
          PrefixesFrom(countries, rows, c, 0));
  }

  /** Where the position decides: at an invalid country, and past the last one. */
  lemma OnTrackAtEnd(countries: seq<Option<Country>>, rows: Rows, prefixes: seq<XdpGeoPrefix>, c: nat)
    requires OnTrack(countries, rows, prefixes, Position(c, 0))
    ensures c < |countries| && countries[c].None? ==> Unpaged(countries, rows) == Err(InvalidCountry)
    ensures c >= |countries| ==> Unpaged(countries, rows) == Ok(prefixes)
  {
    if c >= |countries| {
      assert prefixes + [] == prefixes;
    }
  }

  method LoadPersistedGeoPrefixes(countries: seq<Option<Country>>, rows: Rows)
    returns (r: Result<seq<XdpGeoPrefix>, GeoError>)
    ensures r == Unpaged(countries, rows)
  {
    var prefixes: seq<XdpGeoPrefix> := [];
    OnTrackAtStart(countries, rows);
    for c := 0 to |countries|
      invariant OnTrack(countries, rows, prefixes, Position(c, 0))
    {
      OnTrackAtEnd(countries, rows, prefixes, c);
      match countries[c] {
        case None =>
          return Err(InvalidCountry);
        case Some(country) =>
          OnTrackNextCountry(countries, rows, prefixes, c, country);
          if country in rows {
            prefixes := CollectRow(rows[country].elements, EncodeCountry(country), prefixes);
          } else {
            assert prefixes + [] == prefixes;
          }
      }
    }
    OnTrackAtEnd(countries, rows, prefixes, |countries|);
    r := Ok(prefixes);
  }

  // --------------------------------------------------------------- page tokens

  /** A network of the listing: country index and offset in its row. */
  datatype Position = Position(country: nat, offset: nat)

  function PrintToken(at: Position): string
  {
    PrintNat(at.country) + ":" + PrintNat(at.offset)
  }

  function ParseToken(token: string): Result<Position, GeoError>
  {
    var t := Trim(token);
    if t == "" then Ok(Position(0, 0))
    else
      match SplitOnce(t, ':')
      case None => Err(InvalidToken)
      case Some((c, offset)) =>
        match (ParseUsize(c), ParseUsize(offset))
        case (Some(i), Some(j)) => Ok(Position(i, j))
        case _ => Err(InvalidToken)
  }

  /** A printed token reads back as the position printed, and never as "no token". */
  lemma TokenRoundTrip(at: Position)
    requires at.country < USIZE_LIMIT && at.offset < USIZE_LIMIT
    ensures ParseToken(PrintToken(at)) == Ok(at)
    ensures Trim(PrintToken(at)) != ""
  {
    var t := PrintToken(at);
    TrimKeeps(t);
    assert ':' !in PrintNat(at.country);
    SplitOnceAtFirst(PrintNat(at.country), ':', PrintNat(at.offset));
    assert t == PrintNat(at.country) + [':'] + PrintNat(at.offset);
    PrintedParses(at.country);
    PrintedParses(at.offset);
  }

  lemma {:induction false} NothingToSplit(s: string, separator: char)
    requires separator !in s
    ensures SplitOnce(s, separator) == None
  {
    if s == "" {
    } else {
      NothingToSplit(s[1..], separator);
    }
  }

  /** Any other token: nothing but white space asks for the start, one without a colon or
      with a part that is no number is refused. */
  lemma TokenRead(token: string, first: string, second: string)
    ensures Trim(token) == "" ==> ParseToken(token) == Ok(Position(0, 0))
    ensures Trim(token) != "" && ':' !in Trim(token) ==> ParseToken(token) == Err(InvalidToken)
    ensures Trim(token) == first + [':'] + second && ':' !in first ==>
              ParseToken(token) ==
                match (ParseUsize(first), ParseUsize(second))
                case (Some(i), Some(j)) => Ok(Position(i, j))
                case _ => Err(InvalidToken)
  {
    if ':' !in Trim(token) {
      NothingToSplit(Trim(token), ':');
    }
    if Trim(token) == first + [':'] + second && ':' !in first {
      SplitOnceAtFirst(first, ':', second);
    }
  }

  // --------------------------------------------------------------------- pages

  /** A page and, when something is left over, where the next one starts. */
  datatype Page = Page(prefixes: seq<XdpGeoPrefix>, next: Option<Position>)

  /** A page after taking country `c`: it fills up, then remembers where it stopped. */
  function Collect(page: Page, size: nat, c: nat, skip: nat, prefixes: seq<XdpGeoPrefix>): Page
    requires |page.prefixes| <= size
  {
    var rest, room := Skipped(prefixes, skip), size - |page.prefixes|;
    if |rest| <= room then page.(prefixes := page.prefixes + rest)
    else Page(page.prefixes + rest[..room], if page.next.Some? then page.next else Some(Position(c, skip + room)))
  }

  /** Takes countries one by one until a prefix is left over. */
  function FillFrom(page: Page, size: nat, countries: seq<Option<Country>>, rows: Rows, c: nat,
                    skip: nat): Result<Page, GeoError>
    requires |page.prefixes| <= size
    decreases |countries| - c
  {
    if c >= |countries| then Ok(page)
    else
      match countries[c]
      case None => Err(InvalidCountry)
      case Some(country) =>
        var p := Collect(page, size, c, skip, CountryPrefixes(rows, country));
        if p.next.Some? then Ok(p) else FillFrom(p, size, countries, rows, c + 1, 0)
  }

  /** What is left of the listing behind a page that stopped, or after country `c`. */
  function Behind(page: Page, countries: seq<Option<Country>>, rows: Rows, c: nat): seq<XdpGeoPrefix>
  {
    match page.next
    case Some(at) => PrefixesFrom(countries, rows, at.country, at.offset)
    case None => PrefixesFrom(countries, rows, c + 1, 0)
  }

  lemma PrefixesFromStep(countries: seq<Option<Country>>, rows: Rows, c: nat, skip: nat, country: Country)
    requires c < |countries| && countries[c] == Some(country)
    ensures PrefixesFrom(countries, rows, c, skip) ==
            Skipped(CountryPrefixes(rows, country), skip) + PrefixesFrom(countries, rows, c + 1, 0)
  {
  }

  /** A country's prefixes go on the page; those that do not fit start the next one. */
  lemma CollectTakes(page: Page, size: nat, c: nat, skip: nat, all: seq<XdpGeoPrefix>, later: seq<XdpGeoPrefix>,
                     p: Page)
    requires |page.prefixes| <= size && page.next.None? && p == Collect(page, size, c, skip, all)
    ensures |p.prefixes| <= size
    ensures p.next.None? ==> p.prefixes + later == page.prefixes + (Skipped(all, skip) + later)
    ensures p.next.Some? ==>
              && |p.prefixes| == size && p.next.value.country == c && p.next.value.offset < |all|
              && p.prefixes + (Skipped(all, p.next.value.offset) + later) ==
                 page.prefixes + (Skipped(all, skip) + later)
  {
  }

  /** Taking one country splits what is still to come: on the page, or behind it. */
  lemma CollectSplits(page: Page, size: nat, countries: seq<Option<Country>>, rows: Rows, c: nat, skip: nat,
                      country: Country, p: Page)
    requires |page.prefixes| <= size && page.next.None? && c < |countries|
    requires countries[c] == Some(country)
    requires p == Collect(page, size, c, skip, CountryPrefixes(rows, country))
    ensures |p.prefixes| <= size
    ensures p.prefixes + Behind(p, countries, rows, c) == page.prefixes + PrefixesFrom(countries, rows, c, skip)
    ensures p.next.Some? ==> |p.prefixes| == size && p.next.value.country == c && Behind(p, countries, rows, c) != []
    ensures p.next.Some? ==> p.next.value.offset < |CountryPrefixes(rows, country)|
  {
    CollectTakes(page, size, c, skip, CountryPrefixes(rows, country), PrefixesFrom(countries, rows, c + 1, 0), p);
    PrefixesFromStep(countries, rows, c, skip, country);
    if p.next.Some? {
      PrefixesFromStep(countries, rows, c, p.next.value.offset, country);
    }
  }

  /** What a page is: the next `size` prefixes of the listing. It has a next position
      exactly when a prefix remains, and that is where the remaining ones start. */
  ghost predicate IsPage(r: Result<Page, GeoError>, size: nat, countries: seq<Option<Country>>, rows: Rows, c: nat,
                         all: seq<XdpGeoPrefix>)
  {
    match r
    case Err(e) => e == InvalidCountry && |all| <= size && FailsFrom(countries, c)
    case Ok(page) =>
      match page.next
      case None => page.prefixes == all && |all| <= size && !FailsFrom(countries, c)
      case Some(at) =>
        && |page.prefixes| == size < |all|
        && page.prefixes + PrefixesFrom(countries, rows, at.country, at.offset) == all
        && FailsFrom(countries, at.country) == FailsFrom(countries, c)
        && Names(at, countries, rows)
  }

  /** The position is that of a network in the listing. */
  ghost predicate Names(at: Position, countries: seq<Option<Country>>, rows: Rows)
  {
    && at.country < |countries|
    && countries[at.country].Some?
    && at.offset < |CountryPrefixes(rows, countries[at.country].value)|
  }

  lemma {:induction false} PageIsTake(page: Page, size: nat, countries: seq<Option<Country>>, rows: Rows, c: nat,
                                      skip: nat)
    requires |page.prefixes| <= size && page.next.None?
    ensures IsPage(FillFrom(page, size, countries, rows, c, skip), size, countries, rows, c,
                   page.prefixes + PrefixesFrom(countries, rows, c, skip))
    decreases |countries| - c
  {
    if c >= |countries| || countries[c].None? {
    } else {
      var country := countries[c].value;
      var p := Collect(page, size, c, skip, CountryPrefixes(rows, country));
      CollectSplits(page, size, countries, rows, c, skip, country, p);
      if p.next.None? {
        PageIsTake(p, size, countries, rows, c + 1, 0);
      }
    }
  }

  // --------------------------------------------------------- the page builder

  class GeoPrefixPageBuilder {
    var prefixes: seq<XdpGeoPrefix>
    var next: Option<Position>
    const pageSize: nat

    constructor (pageSize: nat)
      ensures Value() == Page([], None) && this.pageSize == pageSize
    {
      this.pageSize := pageSize;
      prefixes, next := [], None;
    }

    function Value(): Page
      reads this
    {
      Page(prefixes, next)
    }

    method CollectPrefix(net: Cidr, c: nat, offset: nat, code: U16)
      requires |prefixes| <= pageSize
      modifies this
      ensures |prefixes| <= pageSize
      ensures Value() == Offer(old(Value()), pageSize, c, offset, XdpGeoPrefix(Trunc(net), code))
    {
      if |prefixes| < pageSize {
        prefixes := prefixes + [XdpGeoPrefix(Trunc(net), code)];
      } else if next.None? {
        next := Some(Position(c, offset));
      }
    }

    /** Walks a row up to where it turns malformed, counting every network and
        taking those from `skip` on. */
    method CollectCountry(elements: seq<Option<Cidr>>, c: nat, skip: nat, code: U16)
      requires |prefixes| <= pageSize && next.None?
      modifies this
      ensures |prefixes| <= pageSize
      ensures Value() == Collect(old(Value()), pageSize, c, skip, RowPrefixes(elements, code))
    {
      var offset, i := 0, 0;
      ghost var start, done := Value(), [];
      assert elements[0..] == elements;
      while i < |elements| && elements[i].Some?
        invariant i == offset == |done| && i <= |elements| && |prefixes| <= pageSize
        invariant Walked(elements, code, done, i) && Value() == Collect(start, pageSize, c, skip, done)
      {
        ghost var prefix := XdpGeoPrefix(Trunc(elements[i].value), code);
        WalkOn(elements, code, done, i, prefix);
        CollectOneMore(start, pageSize, c, skip, done, prefix);
        if offset >= skip {
          CollectPrefix(elements[i].value, c, offset, code);
        }
        done := done + [prefix];
        offset, i := offset + 1, i + 1;
      }
      WalkedThrough(elements, code, done, i);
    }
  }

  /** Done with the first `i` elements, with the rest to come. */
  ghost predicate Walked(elements: seq<Option<Cidr>>, code: U16, done: seq<XdpGeoPrefix>, i: nat)
    requires i <= |elements|
  {
    RowPrefixes(elements, code) == done + RowPrefixes(elements[i..], code)
  }

  lemma WalkOn(elements: seq<Option<Cidr>>, code: U16, done: seq<XdpGeoPrefix>, i: nat, prefix: XdpGeoPrefix)
    requires i < |elements| && elements[i].Some? && Walked(elements, code, done, i)
    requires prefix == XdpGeoPrefix(Trunc(elements[i].value), code)
    ensures Walked(elements, code, done + [prefix], i + 1)
  {
    RowPrefixesStep(elements, code, i, done, prefix);
  }

  lemma WalkedThrough(elements: seq<Option<Cidr>>, code: U16, done: seq<XdpGeoPrefix>, i: nat)
    requires i <= |elements| && (i < |elements| ==> elements[i].None?) && Walked(elements, code, done, i)
    ensures RowPrefixes(elements, code) == done
  {
    assert done + [] == done;
  }

  /** The page with one more prefix offered to it. */
  function Offer(page: Page, size: nat, c: nat, offset: nat, prefix: XdpGeoPrefix): Page
  {
    if |page.prefixes| < size then page.(prefixes := page.prefixes + [prefix])
    else page.(next := if page.next.Some? then page.next else Some(Position(c, offset)))
  }

  lemma CollectOneMore(start: Page, size: nat, c: nat, skip: nat, done: seq<XdpGeoPrefix>, prefix: XdpGeoPrefix)
    requires |start.prefixes| <= size && start.next.None?
    ensures var p := Collect(start, size, c, skip, done);
            Collect(start, size, c, skip, done + [prefix]) ==
              if |done| < skip then p else Offer(p, size, c, |done|, prefix)
  {
  }

  method LoadPersistedGeoPrefixPage(countries: seq<Option<Country>>, rows: Rows, at: Position, size: nat)
    returns (r: Result<Page, GeoError>)
    ensures r == FillFrom(Page([], None), if size == 0 then 1 else size, countries, rows, at.country, at.offset)
  {
    var pageSize := if size == 0 then 1 else size;
    var page := new GeoPrefixPageBuilder(pageSize);
    var c := at.country;
    while c < |countries|
      invariant c >= at.country && |page.prefixes| <= pageSize == page.pageSize && page.next.None?
      invariant FillFrom(page.Value(), pageSize, countries, rows, c, if c == at.country then at.offset else 0) ==
                FillFrom(Page([], None), pageSize, countries, rows, at.country, at.offset)
    {
      var country := countries[c];
      if country.None? {
        return Err(InvalidCountry);
      }
      var skipUntil := if c == at.country then at.offset else 0;
      if country.value in rows {
        page.CollectCountry(rows[country.value].elements, c, skipUntil, EncodeCountry(country.value));
      } else {
        assert Skipped(CountryPrefixes(rows, country.value), skipUntil) == [];
        assert page.prefixes + [] == page.prefixes;
      }
      if page.next.Some? {
        break;
      }
      c := c + 1;
    }
    r := Ok(page.Value());
  }

  // ----------------------------------------------------------------- the fetch

  const GEO_PREFIX_PAGE_SIZE: U32 := 4096
  const MAX_GEO_PREFIX_PAGE_SIZE: U32 := 10_000

  function GeoPrefixPageSize(requested: U32): nat
  {
    if requested == 0 then GEO_PREFIX_PAGE_SIZE
    else if requested < MAX_GEO_PREFIX_PAGE_SIZE then requested else MAX_GEO_PREFIX_PAGE_SIZE
  }

  /** A prefix on the wire: its country is text. */
  datatype ProtoGeoPrefix = ProtoGeoPrefix(cidr: Cidr, country: string)

  datatype GeoPrefixResponse = GeoPrefixResponse(prefixes: seq<ProtoGeoPrefix>, nextPageToken: string)

  function ToProto(p: XdpGeoPrefix): Option<ProtoGeoPrefix>
  {
    match DecodeCountry(p.country)
    case None => None
    case Some(c) => Some(ProtoGeoPrefix(p.net, CountryText(c)))
  }

  function FromProto(p: ProtoGeoPrefix): Option<GeoIpPrefixPolicy>
  {
    match NormalizeCountry(p.country)
    case None => None
    case Some(c) => Some(GeoIpPrefixPolicy(p.cidr, c))
  }

  /** The first `n` values converted, or None if one of them does not convert. */
  function Converted<A, B>(convert: A -> Option<B>, values: seq<A>, n: nat): (r: Option<seq<B>>)
    requires n <= |values|
    ensures r.Some? ==> |r.value| == n
  {
    if n == 0 then Some([])
    else
      match (Converted(convert, values, n - 1), convert(values[n - 1]))
      case (Some(done), Some(next)) => Some(done + [next])
      case _ => None
  }

  method ConvertAll<A, B>(convert: A -> Option<B>, values: seq<A>) returns (r: Option<seq<B>>)
    ensures r == Converted(convert, values, |values|)
  {
    var done: seq<B> := [];
    for i := 0 to |values|
      invariant Converted(convert, values, i) == Some(done)
    {
      var next := convert(values[i]);
      if next.None? {
        ConversionStops(convert, values, i + 1, |values|);
        return None;
      }
      done := done + [next.value];
    }
    r := Some(done);
  }

  /** The agent's side: appends what the page holds, if all of it parses. */
  method AppendGeoPrefixes(prefixes: seq<GeoIpPrefixPolicy>, page: seq<ProtoGeoPrefix>)
    returns (r: Option<seq<GeoIpPrefixPolicy>>)
    ensures var added := Converted(FromProto, page, |page|);
            r == if added.Some? then Some(prefixes + added.value) else None
  {
    var all := prefixes;
    ghost var added: seq<GeoIpPrefixPolicy> := [];
    for i := 0 to |page|
      invariant Converted(FromProto, page, i) == Some(added) && all == prefixes + added
    {
      var policy := FromProto(page[i]);
      if policy.None? {
        ConversionStops(FromProto, page, i + 1, |page|);
        return None;
      }
      all := all + [policy.value];
      added := added + [policy.value];
    }
    r := Some(all);
  }

  lemma {:induction false} ConversionStops<A, B>(convert: A -> Option<B>, values: seq<A>, n: nat, m: nat)
    requires n <= m <= |values| && Converted(convert, values, n).None?
    ensures Converted(convert, values, m).None?
    decreases m - n
  {
    if n == m {
    } else {
      ConversionStops(convert, values, n + 1, m);
    }
  }

  predicate AllCodes(prefixes: seq<XdpGeoPrefix>)
  {
    forall p <- prefixes :: IsCode(p.country)
  }

  function PolicyOf(p: XdpGeoPrefix): GeoIpPrefixPolicy
    requires IsCode(p.country)
  {
    GeoIpPrefixPolicy(p.net, CountryOf(p.country))
  }

  function AsPolicies(prefixes: seq<XdpGeoPrefix>): (r: seq<GeoIpPrefixPolicy>)
    requires AllCodes(prefixes)
    ensures |r| == |prefixes| && forall i :: 0 <= i < |r| ==> r[i] == PolicyOf(prefixes[i])
  {
    seq(|prefixes|, i requires 0 <= i < |prefixes| => PolicyOf(prefixes[i]))
  }

  lemma WireStep(p: XdpGeoPrefix)
    requires IsCode(p.country)
    ensures ToProto(p).Some? && FromProto(ToProto(p).value) == Some(PolicyOf(p))
  {
    CodeRoundTrip(p.country);
  }

  /** What one side writes value by value the other reads back. */
  lemma {:induction false} ReadBack<A, B, C>(
    write: A -> Option<B>, read: B -> Option<C>, values: seq<A>, targets: seq<C>, n: nat)
    requires n <= |values| == |targets|
    requires forall i :: 0 <= i < n ==> write(values[i]).Some? && read(write(values[i]).value) == Some(targets[i])
    ensures var written := Converted(write, values, n);
            written.Some? && Converted(read, written.value, n) == Some(targets[..n])
  {
    if n == 0 {
    } else {
      ReadBack(write, read, values, targets, n - 1);
      ConvertedPrefix(read, Converted(write, values, n - 1).value, write(values[n - 1]).value, n - 1);
      assert targets[..n] == targets[..n - 1] + [targets[n - 1]];
    }
  }

  /** Prefixes survive the wire: the agent reads the policies the server would build. */
  lemma WireRoundTrip(prefixes: seq<XdpGeoPrefix>)
    requires AllCodes(prefixes)
    ensures var protos := Converted(ToProto, prefixes, |prefixes|);
            && protos.Some?
            && Converted(FromProto, protos.value, |prefixes|) == Some(AsPolicies(prefixes))
  {
    forall i | 0 <= i < |prefixes|
      ensures ToProto(prefixes[i]).Some?
      ensures FromProto(ToProto(prefixes[i]).value) == Some(AsPolicies(prefixes)[i])
    {
      WireStep(prefixes[i]);
    }
    ReadBack(ToProto, FromProto, prefixes, AsPolicies(prefixes), |prefixes|);
    assert AsPolicies(prefixes)[..|prefixes|] == AsPolicies(prefixes);
  }

  lemma {:induction false} ConvertedPrefix<A, B>(convert: A -> Option<B>, values: seq<A>, last: A, n: nat)
    requires n <= |values|
    ensures Converted(convert, values + [last], n) == Converted(convert, values, n)
  {
    if n == 0 {
    } else {
      ConvertedPrefix(convert, values, last, n - 1);
    }
  }

  lemma {:induction false} RowHasCodes(elements: seq<Option<Cidr>>, country: Country)
    ensures AllCodes(RowPrefixes(elements, EncodeCountry(country)))
  {
    if elements == [] || elements[0].None? {
    } else {
      RowHasCodes(elements[1..], country);
    }
  }

  lemma SkippedHasCodes(rows: Rows, country: Country, skip: nat)
    ensures AllCodes(Skipped(CountryPrefixes(rows, country), skip))
  {
    if country in rows {
      RowHasCodes(rows[country].elements, country);
    }
  }

  /** Every listed prefix carries the code of a country. */
  lemma {:induction false} ListingHasCodes(countries: seq<Option<Country>>, rows: Rows, c: nat, skip: nat)
    ensures AllCodes(PrefixesFrom(countries, rows, c, skip))
    decreases |countries| - c
  {
    if c >= |countries| || countries[c].None? {
    } else {
      SkippedHasCodes(rows, countries[c].value, skip);
      ListingHasCodes(countries, rows, c + 1, 0);
    }
  }

  /** What the policy snapshot holds when the prefixes are loaded with it. */
  function UnpagedPolicies(countries: seq<Option<Country>>, rows: Rows): Result<seq<GeoIpPrefixPolicy>, GeoError>
  {
    ListingHasCodes(countries, rows, 0, 0);
    match Unpaged(countries, rows)
    case Err(e) => Err(e)
    case Ok(prefixes) => Ok(AsPolicies(prefixes))
  }

  /** The server's answer: an empty token on the last page. */
  method FetchGeoPrefixPage(countries: seq<Option<Country>>, rows: Rows, token: string, requested: U32)
    returns (r: Result<GeoPrefixResponse, GeoError>)
    ensures ParseToken(token).Err? ==> r == Err(ParseToken(token).error)
    ensures ParseToken(token).Ok? ==>
              r == Response(FillFrom(Page([], None), GeoPrefixPageSize(requested), countries, rows,
                                     ParseToken(token).value.country, ParseToken(token).value.offset))
  {
    var at := ParseToken(token);
    if at.Err? {
      return Err(at.error);
    }
    var page := LoadPersistedGeoPrefixPage(countries, rows, at.value, GeoPrefixPageSize(requested));
    match page {
      case Err(e) =>
        r := Err(e);
      case Ok(p) =>
        var protos := ConvertAll(ToProto, p.prefixes);
        r := if protos.None? then Err(InvalidCountry) else Ok(GeoPrefixResponse(protos.value, NextToken(p)));
    }
  }

  function NextToken(p: Page): string
  {
    if p.next.Some? then PrintToken(p.next.value) else ""
  }

  function Response(page: Result<Page, GeoError>): Result<GeoPrefixResponse, GeoError>
  {
    match page
    case Err(e) => Err(e)
    case Ok(p) =>
      match Converted(ToProto, p.prefixes, |p.prefixes|)
      case None => Err(InvalidCountry)
      case Some(protos) => Ok(GeoPrefixResponse(protos, NextToken(p)))
  }

  /** How much a response carries: what was asked for, 4096 if nothing was and 10000 at most,
      or all that is left if that is less. */
  lemma ResponseSize(countries: seq<Option<Country>>, rows: Rows, at: Position, requested: U32)
    ensures var asked := if requested == 0 then 4096 else if requested > 10_000 then 10_000 else requested;
            var r := Response(FillFrom(Page([], None), GeoPrefixPageSize(requested), countries, rows, at.country,
                                       at.offset));
            var left := |PrefixesFrom(countries, rows, at.country, at.offset)|;
            && (r.Ok? ==> |r.value.prefixes| == if asked < left then asked else left)
            && (asked < left ==> r.Ok? && r.value.nextPageToken != "")
            && (asked >= left ==> (r.Ok? <==> !FailsFrom(countries, at.country)))
            && (asked >= left && r.Ok? ==> r.value.nextPageToken == "")
  {
    var size, toCome := GeoPrefixPageSize(requested), PrefixesFrom(countries, rows, at.country, at.offset);
    var page := FillFrom(Page([], None), size, countries, rows, at.country, at.offset);
    PageFrom(size, countries, rows, at, page);
    if page.Ok? {
      ListingHasCodes(countries, rows, at.country, at.offset);
      var next := page.value.next;
      var left := if next.Some? then PrefixesFrom(countries, rows, next.value.country, next.value.offset) else [];
      assert page.value.prefixes + [] == page.value.prefixes;
      PartsHaveCodes(page.value.prefixes, left, toCome);
      WireRoundTrip(page.value.prefixes);
    }
  }

  /** Positions a token can name: list lengths are 64-bit. */
  ghost predicate Addressable(countries: seq<Option<Country>>, rows: Rows)
  {
    |countries| < USIZE_LIMIT && forall k <- rows :: |rows[k].elements| < USIZE_LIMIT
  }

  lemma TokensRead(at: Position, countries: seq<Option<Country>>, rows: Rows)
    requires Addressable(countries, rows) && Names(at, countries, rows)
    ensures ParseToken(PrintToken(at)) == Ok(at) && Trim(PrintToken(at)) != ""
  {
    var country := countries[at.country].value;
    RowMeans(rows[country].elements, EncodeCountry(country));
    TokenRoundTrip(at);
  }

  /** A page taken from a position: what it holds and what is left behind it. */
  lemma PageFrom(size: nat, countries: seq<Option<Country>>, rows: Rows, at: Position, r: Result<Page, GeoError>)
    requires r == FillFrom(Page([], None), size, countries, rows, at.country, at.offset)
    ensures IsPage(r, size, countries, rows, at.country, PrefixesFrom(countries, rows, at.country, at.offset))
  {
    PageIsTake(Page([], None), size, countries, rows, at.country, at.offset);
    var toCome := PrefixesFrom(countries, rows, at.country, at.offset);
    assert [] + toCome == toCome;
  }

  lemma OnTrackToTheEnd(countries: seq<Option<Country>>, rows: Rows, prefixes: seq<XdpGeoPrefix>, at: Position,
                        size: nat, r: Result<Page, GeoError>)
    requires OnTrack(countries, rows, prefixes, at) && size > 0
    requires IsPage(r, size, countries, rows, at.country, PrefixesFrom(countries, rows, at.country, at.offset))
    ensures r.Err? ==> Unpaged(countries, rows) == Err(r.error)
    ensures r.Ok? && r.value.next.None? ==> Unpaged(countries, rows) == Ok(prefixes + r.value.prefixes)
    ensures r.Ok? && r.value.next.Some? ==>
              var next := r.value.next.value;
              && OnTrack(countries, rows, prefixes + r.value.prefixes, next) && Names(next, countries, rows)
              && |PrefixesFrom(countries, rows, next.country, next.offset)| <
                 |PrefixesFrom(countries, rows, at.country, at.offset)|
  {
    if r.Ok? && r.value.next.Some? {
      var next := r.value.next.value;
      Taken(prefixes, r.value.prefixes, PrefixesFrom(countries, rows, next.country, next.offset),
            PrefixesFrom(countries, rows, at.country, at.offset));
    }
  }

  /** A page taken off what is to come moves over to what is there. */
  lemma Taken<T>(there: seq<T>, page: seq<T>, rest: seq<T>, toCome: seq<T>)
    requires page + rest == toCome
    ensures (there + page) + rest == there + toCome && |rest| == |toCome| - |page|
  {
  }

  lemma PartsHaveCodes(a: seq<XdpGeoPrefix>, b: seq<XdpGeoPrefix>, whole: seq<XdpGeoPrefix>)
    requires a + b == whole && AllCodes(whole)
    ensures AllCodes(a) && AllCodes(b)
  {
    forall p | p in a || p in b
      ensures p in whole
    {
      assert p in a + b;
    }
  }

  /** A page of the listing, converted by both sides, adds its policies. */
  lemma PageAddsPolicies(prefixes: seq<XdpGeoPrefix>, page: seq<XdpGeoPrefix>)
    requires AllCodes(prefixes) && AllCodes(page)
    ensures var protos := Converted(ToProto, page, |page|);
            && protos.Some?
            && Converted(FromProto, protos.value, |protos.value|) == Some(AsPolicies(page))
    ensures AllCodes(prefixes + page) && AsPolicies(prefixes + page) == AsPolicies(prefixes) + AsPolicies(page)
  {
    WireRoundTrip(page);
  }

  /** Everything fetched, and everything on a page that continues it, carries codes. */
  lemma TrackHasCodes(countries: seq<Option<Country>>, rows: Rows, prefixes: seq<XdpGeoPrefix>, at: Position, size: nat,
                      page: Page)
    requires OnTrack(countries, rows, prefixes, at)
    requires IsPage(Ok(page), size, countries, rows, at.country, PrefixesFrom(countries, rows, at.country, at.offset))
    ensures AllCodes(prefixes) && AllCodes(page.prefixes)
  {
    var toCome := PrefixesFrom(countries, rows, at.country, at.offset);
    ListingHasCodes(countries, rows, 0, 0);
    PartsHaveCodes(prefixes, toCome, PrefixesFrom(countries, rows, 0, 0));
    var left := if page.next.Some? then PrefixesFrom(countries, rows, page.next.value.country, page.next.value.offset)
                else [];
    assert page.prefixes + [] == page.prefixes;
    PartsHaveCodes(page.prefixes, left, toCome);
  }

  /** What the agent holds is what the fetched prefixes say. */
  ghost predicate Holding(policies: seq<GeoIpPrefixPolicy>, prefixes: seq<XdpGeoPrefix>)
  {
    AllCodes(prefixes) && policies == AsPolicies(prefixes)
  }

  /** Following tokens from the start yields exactly the policies of the unpaged listing,
      for every page size the agent may ask for, and fails exactly when the unpaged load
      fails; the conversions on the wire lose nothing. */
  method FetchGeoPrefixes(countries: seq<Option<Country>>, rows: Rows, requested: U32)
    returns (r: Result<seq<GeoIpPrefixPolicy>, GeoError>)
    requires Addressable(countries, rows)
    ensures r == UnpagedPolicies(countries, rows)
  {
    var policies: seq<GeoIpPrefixPolicy> := [];
    var token := "";
    ghost var prefixes: seq<XdpGeoPrefix> := [];
    ghost var at, size := Position(0, 0), GeoPrefixPageSize(requested);
    OnTrackAtStart(countries, rows);
    while true
      invariant ParseToken(token) == Ok(at)
      invariant OnTrack(countries, rows, prefixes, at) && Holding(policies, prefixes)
      decreases |PrefixesFrom(countries, rows, at.country, at.offset)|
    {
      ghost var filled := FillFrom(Page([], None), size, countries, rows, at.country, at.offset);
      PageFrom(size, countries, rows, at, filled);
      OnTrackToTheEnd(countries, rows, prefixes, at, size, filled);
      var page := FetchGeoPrefixPage(countries, rows, token, requested);
      if filled.Ok? {
        TrackHasCodes(countries, rows, prefixes, at, size, filled.value);
        PageAddsPolicies(prefixes, filled.value.prefixes);
      }
      if page.Err? {
        return Err(page.error);
      }
      var appended := AppendGeoPrefixes(policies, page.value.prefixes);
      policies := appended.value;
      prefixes := prefixes + filled.value.prefixes;
      if filled.value.next.Some? {
        TokensRead(filled.value.next.value, countries, rows);
      }
      if Trim(page.value.nextPageToken) == "" {
        return Ok(policies);
      }
      token := page.value.nextPageToken;
      at := filled.value.next.value;
    }
  }
}
