/** The E-utilities client and the orchestrator that turns a list of PubMed ids
    into GEO dataset records and a PubMed -> GEO id map. The network is the
    oracle `net`; `time.time()` and `time.sleep` are a shared `Clock`; the two
    module-level caches are explicit `TtlCache` objects. */
module DataRetrieval {
  import opened Common
  import opened Cache
  import opened ElementTree
  import opened GeoExtraction

  const BaseUrl := "https://eutils.ncbi.nlm.nih.gov/entrez/eutils/"
  const ELinkUrl := BaseUrl + "elink.fcgi"
  const ESummaryUrl := BaseUrl + "esummary.fcgi"
  const DefaultTool := "geo-dataset-clustering"
  /** Seconds between requests: NCBI allows three requests per second. */
  const DefaultDelay: real := 0.34

  /** A GET request: its URL and its query parameters in order. */
  datatype Request = Request(url: string, params: seq<(string, string)>)

  function ELinkRequest(pmid: string, tool: string, email: string): Request {
    Request(ELinkUrl, [("dbfrom", "pubmed"), ("db", "gds"), ("linkname", PubmedGds), ("id", pmid),
                       ("retmode", "xml"), ("tool", tool), ("email", email)])
  }

  function ESummaryRequest(geoId: string, tool: string, email: string): Request {
    Request(ESummaryUrl, [("db", "gds"), ("id", geoId), ("retmode", "xml"), ("tool", tool), ("email", email)])
  }

  /** What `requests.get`, `raise_for_status` and `ET.fromstring` make of a
      request: a parsed tree, a body that does not parse (ParseError, which is
      not caught), or a `RequestException` (caught). */
  datatype Response = Parsed(root: Elem) | Unparsable | RequestFailed

  /** `time.time()` and `time.sleep`. */
  class Clock {
    var now: real

    constructor (start: real)
      ensures now == start
    {
      now := start;
    }

    method Sleep(seconds: real)
      requires seconds >= 0.0
      modifies this
      ensures now == old(now) + seconds
    {
      now := now + seconds;
    }
  }

  /** The dataset dictionary: created by `get_geo_dataset_details`, stored in
      the GEO cache and returned as the SAME object, later tagged with a PMID by
      the orchestrator. */
  class DatasetRecord {
    const geoId: string
    var title: string
    var experimentType: string
    var summary: string
    var organism: string
    var overallDesign: string
    var pmid: Option<string>

    constructor (geoId: string)
      ensures this.geoId == geoId && pmid == None
      ensures Fields() == Details(geoId, "", "", "", "", "")
    {
      this.geoId := geoId;
      title, experimentType, summary, organism, overallDesign := "", "", "", "", "";
      pmid := None;
    }

    /** The detail fields; the `pmid` tag is not among them. */
    function Fields(): Details
      reads this`title, this`experimentType, this`summary, this`organism, this`overallDesign
    {
      Details(geoId, title, experimentType, summary, organism, overallDesign)
    }
  }

  /** The GEO cache files each record under its own id. */
  ghost predicate KeyedById(c: TtlCache<DatasetRecord>)
    reads c
  {
    forall k :: k in c.entries ==> c.entries[k].value.geoId == k
  }

  /** The record objects the GEO cache holds (and may hand out again). */
  ghost function Held(c: TtlCache<DatasetRecord>): set<DatasetRecord>
    reads c
  {
    set k | k in c.entries :: c.entries[k].value
  }

  /** `max(0, delay - (now - last))`: what the rate limiter sleeps. */
  function WaitTime(delay: real, now: real, last: real): (w: real)
    ensures w >= 0.0
    ensures now + w >= last + delay
    ensures now - last >= delay ==> w == 0.0
  {
    if now - last < delay then delay - (now - last) else 0.0
  }

  /** Clock readings at which successive requests went out, at least `delay` apart. */
  ghost predicate Spaced(sent: seq<(real, Request)>, delay: real) {
    forall i :: 0 < i < |sent| ==> sent[i].0 - sent[i - 1].0 >= delay
  }

  /** What `get_geo_ids_for_pmid` returns after a request. */
  function IdsOutcome(resp: Response): Result<seq<string>> {
    match resp
    case RequestFailed => Ok([])
    case Unparsable => Raised(ParseError)
    case Parsed(root) => GeoIdsOf(root)
  }

  /** Whether the ids obtained from `resp` are cached: every parsed and
      extracted result is, including the empty one. */
  predicate IdsCached(resp: Response) {
    resp.Parsed? && GeoIdsOf(resp.root).Ok?
  }

  /** What `get_geo_dataset_details` makes of the answer to its request, as
      the detail values of the record it returns. */
  function DetailsOutcome(geoId: string, resp: Response): Result<Option<Details>> {
    match resp
    case RequestFailed => Ok(None)
    case Unparsable => Raised(ParseError)
    case Parsed(root) =>
      match FindDescendant(root, "DocSum")
      case None => Ok(None)
      case Some(docSum) => Ok(Some(DetailsOf(geoId, docSum)))
  }

  /** The PMID cache holds only what the network answers to the same ELink
      request: true of the empty cache, and kept by every lookup. */
  ghost predicate IdsCacheAgrees(c: TtlCache<seq<string>>, net: Request -> Response, tool: string, email: string)
    reads c
  {
    forall k :: k in c.entries ==> IdsOutcome(net(ELinkRequest(k, tool, email))) == Ok(c.entries[k].value)
  }

  /** The GEO cache holds only records filled from the network's answer to the
      same ESummary request: true of the empty cache, and kept by every lookup
      and by the tagging of records with a PMID. */
  ghost predicate GeoCacheAgrees(c: TtlCache<DatasetRecord>, net: Request -> Response, tool: string, email: string)
    reads c, Held(c)`title, Held(c)`experimentType, Held(c)`summary, Held(c)`organism, Held(c)`overallDesign
  {
    forall k :: k in c.entries ==>
      DetailsOutcome(k, net(ESummaryRequest(k, tool, email))) == Ok(Some(c.entries[k].value.Fields()))
  }

  class EUtilsClient {
    const email: string
    const tool: string
    const delay: real
    var lastRequestTime: real
    const clock: Clock
    const pmidCache: TtlCache<seq<string>>
    const geoCache: TtlCache<DatasetRecord>
    const net: Request -> Response
    /** Every request sent, with the clock reading at which it went out. */
    ghost var sent: seq<(real, Request)>

    ghost predicate Valid()
      reads this
    {
      && Spaced(sent, delay)
      && (sent != [] ==> sent[|sent| - 1].0 == lastRequestTime)
    }

    constructor (email: string, tool: string, delay: real, clock: Clock,
                 pmidCache: TtlCache<seq<string>>, geoCache: TtlCache<DatasetRecord>, net: Request -> Response)
      ensures Valid()
      ensures this.email == email && this.tool == tool && this.delay == delay
      ensures this.clock == clock && this.pmidCache == pmidCache && this.geoCache == geoCache && this.net == net
      ensures lastRequestTime == 0.0 && sent == []
    {
      this.email := email;
      this.tool := tool;
      this.delay := delay;
      this.clock := clock;
      this.pmidCache := pmidCache;
      this.geoCache := geoCache;
      this.net := net;
      lastRequestTime := 0.0;
      sent := [];
    }

    /** `_respect_rate_limit`: sleep until `delay` seconds have passed since
        the previous completion, then record the post-sleep clock. */
    method RespectRateLimit() returns (slept: real)
      modifies this, clock
      ensures slept == WaitTime(delay, old(clock.now), old(lastRequestTime))
      ensures clock.now == old(clock.now) + slept
      ensures lastRequestTime == clock.now
      ensures lastRequestTime - old(lastRequestTime) >= delay
      ensures sent == old(sent)
    {
      var current := clock.now;
      var since := current - lastRequestTime;
      slept := 0.0;
      if since < delay {
        slept := delay - since;
        clock.Sleep(slept);
      }
      lastRequestTime := clock.now;
    }

    /** Rate-limit, then issue `req`; the request is logged with its time. */
    method Send(req: Request) returns (resp: Response)
      requires Valid()
      modifies this, clock
      ensures Valid()
      ensures var t := old(clock.now) + WaitTime(delay, old(clock.now), old(lastRequestTime));
        clock.now == t && lastRequestTime == t && sent == old(sent) + [(t, req)]
      ensures resp == net(req)
    {
      var _ := RespectRateLimit();
      sent := sent + [(lastRequestTime, req)];
      resp := net(req);
    }

    /** `get_geo_ids_for_pmid`. A fresh cached list is returned without
        waiting or sending. Otherwise one ELink request goes out; a failed
        request gives [] and caches nothing; a parsed answer is extracted and
        cached (even when empty) before it is returned. */
    method GetGeoIdsForPmid(pmid: string) returns (r: Result<seq<string>>)
      requires Valid()
      modifies this, clock, pmidCache
      ensures Valid()
      ensures var hit := Lookup(old(pmidCache.entries), pmid, old(clock.now));
        hit.Some? ==>
          && r == Ok(hit.value)
          && sent == old(sent) && lastRequestTime == old(lastRequestTime) && clock.now == old(clock.now)
          && pmidCache.entries == old(pmidCache.entries)
      ensures var hit := Lookup(old(pmidCache.entries), pmid, old(clock.now));
        var t := old(clock.now) + WaitTime(delay, old(clock.now), old(lastRequestTime));
        var req := ELinkRequest(pmid, tool, email);
        hit.None? ==>
          && sent == old(sent) + [(t, req)] && clock.now == t
          && r == IdsOutcome(net(req))
          && pmidCache.entries == if IdsCached(net(req)) then Add(old(pmidCache.entries), pmid, r.value, t)
                                  else old(pmidCache.entries)
      ensures old(IdsCacheAgrees(pmidCache, net, tool, email)) ==>
        IdsCacheAgrees(pmidCache, net, tool, email) && r == IdsOutcome(net(ELinkRequest(pmid, tool, email)))
    {
      var cached := pmidCache.Get(pmid, clock.now);
      if cached.Some? {
        return Ok(cached.value);
      }
      var resp := Send(ELinkRequest(pmid, tool, email));
      match resp
      case RequestFailed =>
        r := Ok([]);
      case Unparsable =>
        r := Raised(ParseError);
      case Parsed(root) =>
        r := ExtractGeoIds(root);
        if r.Ok? {
          pmidCache.Put(pmid, r.value, clock.now);
        }
    }

    /** `get_geo_dataset_details`. A fresh cached record is returned (the same
        object) without waiting or sending; otherwise the details are
        requested. */
    method GetGeoDatasetDetails(geoId: string) returns (r: Result<Option<DatasetRecord>>)
      requires Valid() && KeyedById(geoCache)
      modifies this, clock, geoCache
      ensures Valid() && KeyedById(geoCache)
      ensures r.Ok? && r.value.Some? ==> r.value.value.geoId == geoId
      ensures r.Ok? && r.value.Some? ==> r.value.value in old(Held(geoCache)) || fresh(r.value.value)
      ensures forall k :: k in geoCache.entries ==> geoCache.entries[k].value in old(Held(geoCache)) || fresh(geoCache.entries[k].value)
      ensures var hit := Lookup(old(geoCache.entries), geoId, old(clock.now));
        hit.Some? ==>
          && r == Ok(Some(hit.value))
          && sent == old(sent) && lastRequestTime == old(lastRequestTime) && clock.now == old(clock.now)
          && geoCache.entries == old(geoCache.entries)
      ensures var hit := Lookup(old(geoCache.entries), geoId, old(clock.now));
        var t := old(clock.now) + WaitTime(delay, old(clock.now), old(lastRequestTime));
        hit.None? ==> sent == old(sent) + [(t, ESummaryRequest(geoId, tool, email))] && clock.now == t
      ensures Lookup(old(geoCache.entries), geoId, old(clock.now)).None? ==>
        Requested(geoId, r, old(clock.now) + WaitTime(delay, old(clock.now), old(lastRequestTime)), old(geoCache.entries))
      ensures old(GeoCacheAgrees(geoCache, net, tool, email)) ==> GeoCacheAgrees(geoCache, net, tool, email)
      ensures old(GeoCacheAgrees(geoCache, net, tool, email)) ==>
        FoundAs(r, DetailsOutcome(geoId, net(ESummaryRequest(geoId, tool, email))))
    {
      var cached := geoCache.Get(geoId, clock.now);
      if cached.Some? {
        assert geoId in geoCache.entries && cached.value == geoCache.entries[geoId].value;
        return Ok(cached);
      }
      r := RequestDetails(geoId);
    }

    /** What a request for the details of `geoId` leaves behind, sent at time
        `t` over the cache entries `before`: a failed request, an unparsable
        answer or a missing `DocSum` caches nothing; otherwise a new record,
        filled from the `DocSum` items and without a PMID, is cached under the
        id and returned. */
    ghost predicate Requested(geoId: string, r: Result<Option<DatasetRecord>>, t: real, before: Store<DatasetRecord>)
      reads this, geoCache, if r.Ok? && r.value.Some? then {r.value.value} else {}
    {
      match net(ESummaryRequest(geoId, tool, email))
      case RequestFailed => r == Ok(None) && geoCache.entries == before
      case Unparsable => r == Raised(ParseError) && geoCache.entries == before
      case Parsed(root) =>
        match FindDescendant(root, "DocSum")
        case None => r == Ok(None) && geoCache.entries == before
        case Some(docSum) =>
          && r.Ok? && r.value.Some?
          && r.value.value.Fields() == DetailsOf(geoId, docSum)
          && r.value.value.pmid == None
          && geoCache.entries == Add(before, geoId, r.value.value, t)
    }

    /** The miss path of `get_geo_dataset_details`: one ESummary request. */
    method RequestDetails(geoId: string) returns (r: Result<Option<DatasetRecord>>)
      requires Valid() && KeyedById(geoCache)
      modifies this, clock, geoCache
      ensures Valid() && KeyedById(geoCache)
      ensures r.Ok? && r.value.Some? ==> r.value.value.geoId == geoId && fresh(r.value.value)
      ensures forall k :: k in geoCache.entries ==> geoCache.entries[k].value in old(Held(geoCache)) || fresh(geoCache.entries[k].value)
      ensures var t := old(clock.now) + WaitTime(delay, old(clock.now), old(lastRequestTime));
        && sent == old(sent) + [(t, ESummaryRequest(geoId, tool, email))] && clock.now == t
        && Requested(geoId, r, t, old(geoCache.entries))
      ensures old(GeoCacheAgrees(geoCache, net, tool, email)) ==> GeoCacheAgrees(geoCache, net, tool, email)
      ensures old(GeoCacheAgrees(geoCache, net, tool, email)) ==>
        FoundAs(r, DetailsOutcome(geoId, net(ESummaryRequest(geoId, tool, email))))
    {
      var resp := Send(ESummaryRequest(geoId, tool, email));
      assert old(GeoCacheAgrees(geoCache, net, tool, email)) ==> GeoCacheAgrees(geoCache, net, tool, email);
      match resp
      case RequestFailed =>
        r := Ok(None);
      case Unparsable =>
        r := Raised(ParseError);
      case Parsed(root) =>
        var docSum := FindDescendant(root, "DocSum");
        if docSum.None? {
          return Ok(None);
        }
        assert DetailsOutcome(geoId, resp) == Ok(Some(DetailsOf(geoId, docSum.value)));
        var dataset := StoreDetails(geoId, docSum.value, clock.now);
        r := Ok(Some(dataset));
    }

    /** The end of the miss path: a new record filled from `docSum` is cached
        under `geoId` at time `now`. */
    method StoreDetails(geoId: string, docSum: Elem, now: real) returns (dataset: DatasetRecord)
      requires KeyedById(geoCache)
      modifies geoCache
      ensures KeyedById(geoCache)
      ensures fresh(dataset) && dataset.geoId == geoId && dataset.pmid == None
      ensures dataset.Fields() == DetailsOf(geoId, docSum)
      ensures geoCache.entries == Add(old(geoCache.entries), geoId, dataset, now)
      ensures old(GeoCacheAgrees(geoCache, net, tool, email))
              && DetailsOutcome(geoId, net(ESummaryRequest(geoId, tool, email))) == Ok(Some(DetailsOf(geoId, docSum)))
              ==> GeoCacheAgrees(geoCache, net, tool, email)
    {
      dataset := ExtractDetails(geoId, docSum);
      geoCache.Put(geoId, dataset, now);
      if && old(GeoCacheAgrees(geoCache, net, tool, email))
         && DetailsOutcome(geoId, net(ESummaryRequest(geoId, tool, email))) == Ok(Some(DetailsOf(geoId, docSum))) {
        forall k | k in geoCache.entries
          ensures DetailsOutcome(k, net(ESummaryRequest(k, tool, email))) == Ok(Some(geoCache.entries[k].value.Fields()))
        {
          if k != geoId {
            var v := old(geoCache.entries)[k].value;
            assert geoCache.entries[k].value == v;
            assert v.Fields() == old(v.Fields());
          }
        }
      }
    }
  }

  /** A lookup result `r` carries the outcome `d`: the same error, or a record
      exactly when `d` has details, with those details as its fields. */
  ghost predicate FoundAs(r: Result<Option<DatasetRecord>>, d: Result<Option<Details>>)
    reads if r.Ok? && r.value.Some? then {r.value.value} else {}
  {
    match d
    case Raised(e) => r == Raised(e)
    case Ok(o) => r.Ok? && (r.value.Some? <==> o.Some?) && (r.value.Some? ==> r.value.value.Fields() == o.value)
  }

  /** One pass of the item loop: the `Name` attribute picks the field that
      the item's text overwrites; a `gdsSubset` item overwrites the design
      with each of its design descriptions in turn. */
  function ApplyItem(d: Details, item: Elem): Details {
    var name := NameOf(item);
    if name == Some("title") then d.(title := TextOr(item))
    else if name == Some("summary") then d.(summary := TextOr(item))
    else if name == Some("gdsType") then d.(experimentType := TextOr(item))
    else if name == Some("taxon") then d.(organism := TextOr(item))
    else if name == Some("gdsSubset") then d.(overallDesign := LastOr(DesignsIn(FindAll(item, "Item")), d.overallDesign))
    else d
  }

  lemma LastOrAppend<T>(a: seq<T>, b: seq<T>, default: T)
    ensures LastOr(a + b, default) == LastOr(b, LastOr(a, default))
  {
  }

  /** Processing one more item is one more `ApplyItem`. */
  lemma DetailsFromStep(geoId: string, items: seq<Elem>, i: nat)
    requires i < |items|
    ensures DetailsFrom(geoId, items[..i + 1]) == ApplyItem(DetailsFrom(geoId, items[..i]), items[i])
  {
    var p := items[..i + 1];
    assert p[..i] == items[..i];
    assert p[i] == items[i];
    LastOrAppend(NamedTexts(items[..i], "title"), if NameOf(items[i]) == Some("title") then [TextOr(items[i])] else [], "");
    LastOrAppend(NamedTexts(items[..i], "gdsType"), if NameOf(items[i]) == Some("gdsType") then [TextOr(items[i])] else [], "");
    LastOrAppend(NamedTexts(items[..i], "summary"), if NameOf(items[i]) == Some("summary") then [TextOr(items[i])] else [], "");
    LastOrAppend(NamedTexts(items[..i], "taxon"), if NameOf(items[i]) == Some("taxon") then [TextOr(items[i])] else [], "");
    LastOrAppend(DesignTexts(items[..i]),
                 if NameOf(items[i]) == Some("gdsSubset") then DesignsIn(FindAll(items[i], "Item")) else [], "");
  }

  lemma DesignsInStep(subs: seq<Elem>, j: nat, x: string)
    requires j < |subs|
    ensures LastOr(DesignsIn(subs[..j + 1]), x) == if IsDesign(subs[j]) then TextOr(subs[j]) else LastOr(DesignsIn(subs[..j]), x)
  {
    assert subs[..j + 1][..j] == subs[..j];
  }

  /** One pass of the item loop, on the record. */
  method AbsorbItem(dataset: DatasetRecord, item: Elem)
    modifies dataset
    ensures dataset.pmid == old(dataset.pmid)
    ensures dataset.Fields() == ApplyItem(old(dataset.Fields()), item)
  {
    var itemName := NameOf(item);
    if itemName == Some("title") {
      dataset.title := TextOr(item);
    } else if itemName == Some("summary") {
      dataset.summary := TextOr(item);
    } else if itemName == Some("gdsType") {
      dataset.experimentType := TextOr(item);
    } else if itemName == Some("taxon") {
      dataset.organism := TextOr(item);
    } else if itemName == Some("gdsSubset") {
      var subItems := FindAll(item, "Item");
      ghost var d0 := dataset.Fields();
      var j := 0;
      while j < |subItems|
        invariant 0 <= j <= |subItems|
        invariant dataset.pmid == old(dataset.pmid) && dataset.geoId == d0.geoId
        invariant dataset.title == d0.title && dataset.summary == d0.summary
        invariant dataset.experimentType == d0.experimentType && dataset.organism == d0.organism
        invariant dataset.overallDesign == LastOr(DesignsIn(subItems[..j]), d0.overallDesign)
      {
        DesignsInStep(subItems, j, d0.overallDesign);
        var sub := subItems[j];
        if NameOf(sub) == Some("description") && Contains(Lower(TextOr(sub)), "design") {
          dataset.overallDesign := TextOr(sub);
        }
        j := j + 1;
      }
      assert subItems[..j] == subItems;
    }
  }

  /** The item loop of `get_geo_dataset_details`: every field starts as "" and
      is overwritten item by item. */
  method ExtractDetails(geoId: string, docSum: Elem) returns (dataset: DatasetRecord)
    ensures fresh(dataset) && dataset.pmid == None
    ensures dataset.Fields() == DetailsOf(geoId, docSum)
  {
    dataset := new DatasetRecord(geoId);
    var items := FindAll(docSum, "Item");
    var i := 0;
    while i < |items|
      invariant 0 <= i <= |items|
      invariant dataset.pmid == None
      invariant dataset.Fields() == DetailsFrom(geoId, items[..i])
    {
      DetailsFromStep(geoId, items, i);
      AbsorbItem(dataset, items[i]);
      i := i + 1;
    }
    assert items[..i] == items;
  }

  // ---------------------------------------------------------------------
  // get_geo_data_for_pmids
  // ---------------------------------------------------------------------

  /** The records of a row of detail lookups that succeeded, in order. */
  function Somes<D>(row: seq<Option<D>>): (r: seq<D>)
    ensures |r| <= |row|
  {
    if row == [] then []
    else Somes(row[..|row| - 1]) + (if row[|row| - 1].Some? then [row[|row| - 1].value] else [])
  }

  /** The successful detail lookups of all PMIDs, PMID by PMID. */
  function Present<D>(fetched: seq<seq<Option<D>>>): seq<D> {
    if fetched == [] then []
    else Present(fetched[..|fetched| - 1]) + Somes(fetched[|fetched| - 1])
  }

  function Repeat<T>(x: T, n: nat): (r: seq<T>)
    ensures |r| == n && forall i :: 0 <= i < n ==> r[i] == x
  {
    if n == 0 then [] else Repeat(x, n - 1) + [x]
  }

  /** The PMID each entry of `Present(fetched)` was reached from. */
  function Tags<D>(pmids: seq<string>, fetched: seq<seq<Option<D>>>): seq<string>
    requires |pmids| == |fetched|
  {
    if pmids == [] then []
    else Tags(pmids[..|pmids| - 1], fetched[..|fetched| - 1])
         + Repeat(pmids[|pmids| - 1], |Somes(fetched[|fetched| - 1])|)
  }

  /** Each dataset is tagged by the PMID it was reached from. */
  lemma {:induction false} TagsLength<D>(pmids: seq<string>, fetched: seq<seq<Option<D>>>)
    requires |pmids| == |fetched|
    ensures |Tags(pmids, fetched)| == |Present(fetched)|
  {
    if pmids != [] {
      TagsLength(pmids[..|pmids| - 1], fetched[..|fetched| - 1]);
    }
  }

  /** `pmid_to_geo_ids[pmid] = geo_ids` for every PMID whose id list is
      non-empty, in input order. */
  function BuildMap(pmids: seq<string>, idLists: seq<seq<string>>): Assoc<seq<string>>
    requires |pmids| == |idLists|
  {
    if pmids == [] then []
    else
      var m := BuildMap(pmids[..|pmids| - 1], idLists[..|idLists| - 1]);
      if idLists[|idLists| - 1] != [] then Assign(m, pmids[|pmids| - 1], idLists[|idLists| - 1]) else m
  }

  /** Reference definition: the id list of the last occurrence of `p` whose
      list is non-empty. */
  function LastListOf(pmids: seq<string>, idLists: seq<seq<string>>, p: string): Option<seq<string>>
    requires |pmids| == |idLists|
  {
    var n := |pmids|;
    if n == 0 then None
    else if pmids[n - 1] == p && idLists[n - 1] != [] then Some(idLists[n - 1])
    else LastListOf(pmids[..n - 1], idLists[..n - 1], p)
  }

  /** `LastListOf` is None exactly when every occurrence of `p` found nothing,
      and otherwise the list at position `i`, the last occurrence of `p` with
      a non-empty list. */
  lemma {:induction false} LastListOfIsLast(pmids: seq<string>, idLists: seq<seq<string>>, p: string)
    requires |pmids| == |idLists|
    ensures LastListOf(pmids, idLists, p).None? ==>
      forall i :: 0 <= i < |pmids| && pmids[i] == p ==> idLists[i] == []
    ensures LastListOf(pmids, idLists, p).Some? ==>
      exists i :: && 0 <= i < |pmids| && pmids[i] == p && idLists[i] == LastListOf(pmids, idLists, p).value != []
                  && forall j :: i < j < |pmids| && pmids[j] == p ==> idLists[j] == []
  {
    var n := |pmids|;
    if n > 0 && !(pmids[n - 1] == p && idLists[n - 1] != []) {
      var ps, ls := pmids[..n - 1], idLists[..n - 1];
      LastListOfIsLast(ps, ls, p);
      var r := LastListOf(ps, ls, p);
      assert LastListOf(pmids, idLists, p) == r;
      if r.Some? {
        var i :| && 0 <= i < |ps| && ps[i] == p && ls[i] == r.value != []
                 && forall j :: i < j < |ps| && ps[j] == p ==> ls[j] == [];
        assert pmids[i] == p && idLists[i] == r.value;
        assert forall j :: i < j < n && pmids[j] == p ==> idLists[j] == [] by {
          forall j | i < j < n && pmids[j] == p ensures idLists[j] == [] {
            if j < n - 1 { assert ps[j] == pmids[j] && ls[j] == idLists[j]; }
          }
        }
      } else {
        forall i | 0 <= i < n && pmids[i] == p ensures idLists[i] == [] {
          if i < n - 1 { assert ps[i] == pmids[i] && ls[i] == idLists[i]; }
        }
      }
    }
  }

  /** The map holds each PMID at most once, and looking up a PMID gives the
      non-empty list of its last occurrence in the input (absent when every
      occurrence found nothing). */
  lemma {:induction false} BuildMapGet(pmids: seq<string>, idLists: seq<seq<string>>, p: string)
    requires |pmids| == |idLists|
    ensures DistinctKeys(BuildMap(pmids, idLists))
    ensures Get(BuildMap(pmids, idLists), p) == LastListOf(pmids, idLists, p)
  {
    if pmids != [] {
      var n := |pmids| - 1;
      var ps, ls := pmids[..n], idLists[..n];
      BuildMapGet(ps, ls, p);
      if idLists[n] != [] {
        GetAssign(BuildMap(ps, ls), pmids[n], idLists[n], p);
      }
    }
  }

  /** `s[k]` is the last occurrence of its value in `s`. */
  ghost predicate LastAt<T>(s: seq<T>, k: int) {
    0 <= k < |s| && forall k' :: k < k' < |s| ==> s[k'] != s[k]
  }

  /** The last appearance of every record carries the tag of that appearance
      (earlier appearances of the same object show the later tag). */
  ghost predicate TaggedLast(datasets: seq<DatasetRecord>, tags: seq<string>)
    reads datasets
  {
    |tags| == |datasets| && forall k :: LastAt(datasets, k) ==> datasets[k].pmid == Some(tags[k])
  }

  /** The `pmid` field of each record, in the current state. */
  ghost function PmidsOf(datasets: seq<DatasetRecord>): (r: seq<Option<string>>)
    reads datasets
    ensures |r| == |datasets| && forall k :: 0 <= k < |datasets| ==> r[k] == datasets[k].pmid
  {
    if datasets == [] then [] else PmidsOf(datasets[..|datasets| - 1]) + [datasets[|datasets| - 1].pmid]
  }

  /** Tagging `d` in place and appending it keeps every last appearance
      correctly tagged: earlier appearances of `d` stop being last. `before`
      holds the `pmid` fields before `d` was tagged. */
  lemma TagAndAppend(datasets: seq<DatasetRecord>, tags: seq<string>, before: seq<Option<string>>,
                     d: DatasetRecord, p: string)
    requires |before| == |datasets| == |tags|
    requires forall k :: LastAt(datasets, k) ==> before[k] == Some(tags[k])
    requires forall k :: 0 <= k < |datasets| && datasets[k] != d ==> datasets[k].pmid == before[k]
    requires d.pmid == Some(p)
    ensures TaggedLast(datasets + [d], tags + [p])
  {
    var ds, ts := datasets + [d], tags + [p];
    forall k | LastAt(ds, k)
      ensures ds[k].pmid == Some(ts[k])
    {
      if k < |datasets| {
        assert ds[|datasets|] == d;
        assert forall k' :: k < k' < |datasets| ==> ds[k'] == datasets[k'];
        assert LastAt(datasets, k);
      }
    }
  }

  // ---------------------------------------------------------------------
  // What the lookups yield, as values, for caches that agree with the network
  // ---------------------------------------------------------------------

  /** The detail lookups of `geoIds` in order; the first error ends them. */
  function RowOutcome(geoIds: seq<string>, net: Request -> Response, tool: string, email: string)
    : Result<seq<Option<Details>>>
  {
    if geoIds == [] then Ok([])
    else
      var g := geoIds[|geoIds| - 1];
      match RowOutcome(geoIds[..|geoIds| - 1], net, tool, email)
      case Raised(e) => Raised(e)
      case Ok(ds) =>
        match DetailsOutcome(g, net(ESummaryRequest(g, tool, email)))
        case Raised(e) => Raised(e)
        case Ok(d) => Ok(ds + [d])
  }

  /** The lookups for one PMID: its linked ids, then the details of each. */
  function PmidOutcome(pmid: string, net: Request -> Response, tool: string, email: string)
    : Result<(seq<string>, seq<Option<Details>>)>
  {
    match IdsOutcome(net(ELinkRequest(pmid, tool, email)))
    case Raised(e) => Raised(e)
    case Ok(ids) =>
      match RowOutcome(ids, net, tool, email)
      case Raised(e) => Raised(e)
      case Ok(ds) => Ok((ids, ds))
  }

  /** The id list and the detail row of every PMID, in input order. */
  datatype Lookups = Lookups(idLists: seq<seq<string>>, rows: seq<seq<Option<Details>>>)

  /** The lookups of `get_geo_data_for_pmids`, PMID by PMID; the first error
      ends them. */
  function Retrieval(pmids: seq<string>, net: Request -> Response, tool: string, email: string): Result<Lookups> {
    if pmids == [] then Ok(Lookups([], []))
    else
      match Retrieval(pmids[..|pmids| - 1], net, tool, email)
      case Raised(e) => Raised(e)
      case Ok(lk) =>
        match PmidOutcome(pmids[|pmids| - 1], net, tool, email)
        case Raised(e) => Raised(e)
        case Ok(p) => Ok(Lookups(lk.idLists + [p.0], lk.rows + [p.1]))
  }

  lemma {:induction false} RowOutcomePrefixRaised(geoIds: seq<string>, n: nat, net: Request -> Response, tool: string, email: string)
    requires n <= |geoIds| && RowOutcome(geoIds[..n], net, tool, email).Raised?
    ensures RowOutcome(geoIds, net, tool, email) == RowOutcome(geoIds[..n], net, tool, email)
    decreases |geoIds| - n
  {
    if n < |geoIds| {
      assert geoIds[..n + 1][..n] == geoIds[..n];
      RowOutcomePrefixRaised(geoIds, n + 1, net, tool, email);
    } else {
      assert geoIds[..n] == geoIds;
    }
  }

  /** The details an outcome carries; none when it is an error. */
  function Carried(o: Result<Option<Details>>): Option<Details> {
    match o
    case Ok(d) => d
    case Raised(_) => None
  }

  /** One more id looked up after `geoIds[..j]`: its error is the error of
      the whole row, and otherwise the row and its outcome grow together. */
  lemma RowGrows(geoIds: seq<string>, j: nat, net: Request -> Response, tool: string, email: string,
                 row0: seq<Option<DatasetRecord>>, ds0: seq<Option<Details>>,
                 found: Option<DatasetRecord>, err: Option<Error>)
    requires j < |geoIds|
    requires RowOutcome(geoIds[..j], net, tool, email) == Ok(ds0) && Matches(row0, ds0)
    requires match DetailsOutcome(geoIds[j], net(ESummaryRequest(geoIds[j], tool, email)))
             case Raised(e) => err == Some(e)
             case Ok(d) => err.None? && Matches([found], [d])
    ensures err.Some? ==> RowOutcome(geoIds, net, tool, email) == Raised(err.value)
    ensures err.None? ==>
      var ds := ds0 + [Carried(DetailsOutcome(geoIds[j], net(ESummaryRequest(geoIds[j], tool, email))))];
      RowOutcome(geoIds[..j + 1], net, tool, email) == Ok(ds) && Matches(row0 + [found], ds)
  {
    assert geoIds[..j + 1][..j] == geoIds[..j];
    if err.Some? {
      RowOutcomePrefixRaised(geoIds, j + 1, net, tool, email);
    } else {
      MatchesAppend(row0, ds0, found, Carried(DetailsOutcome(geoIds[j], net(ESummaryRequest(geoIds[j], tool, email)))));
    }
  }

  lemma {:induction false} RetrievalPrefixRaised(pmids: seq<string>, n: nat, net: Request -> Response, tool: string, email: string)
    requires n <= |pmids| && Retrieval(pmids[..n], net, tool, email).Raised?
    ensures Retrieval(pmids, net, tool, email) == Retrieval(pmids[..n], net, tool, email)
    decreases |pmids| - n
  {
    if n < |pmids| {
      assert pmids[..n + 1][..n] == pmids[..n];
      RetrievalPrefixRaised(pmids, n + 1, net, tool, email);
    } else {
      assert pmids[..n] == pmids;
    }
  }

  /** The detail row an outcome carries; none when it is an error. */
  function RowCarried(o: Result<(seq<string>, seq<Option<Details>>)>): seq<Option<Details>> {
    match o
    case Ok(p) => p.1
    case Raised(_) => []
  }

  /** One more PMID looked up after `pmids[..i]`: its error is the error of
      the whole retrieval, and otherwise the lookups grow by its id list and
      its row. */
  lemma RetrievalGrows(pmids: seq<string>, i: nat, net: Request -> Response, tool: string, email: string,
                       idLists: seq<seq<string>>, fetched: seq<seq<Option<DatasetRecord>>>, rows: seq<seq<Option<Details>>>,
                       geoIds: seq<string>, row: seq<Option<DatasetRecord>>, err: Option<Error>)
    requires i < |pmids|
    requires Retrieval(pmids[..i], net, tool, email) == Ok(Lookups(idLists, rows)) && AllMatch(fetched, rows)
    requires match PmidOutcome(pmids[i], net, tool, email)
             case Raised(e) => err == Some(e)
             case Ok(p) => err.None? && geoIds == p.0 && Matches(row, p.1)
    ensures err.Some? ==> Retrieval(pmids, net, tool, email) == Raised(err.value)
    ensures err.None? ==>
      var ds := RowCarried(PmidOutcome(pmids[i], net, tool, email));
      && Retrieval(pmids[..i + 1], net, tool, email) == Ok(Lookups(idLists + [geoIds], rows + [ds]))
      && AllMatch(fetched + [row], rows + [ds])
  {
    assert pmids[..i + 1][..i] == pmids[..i];
    if err.Some? {
      RetrievalPrefixRaised(pmids, i + 1, net, tool, email);
    } else {
      AllMatchAppend(fetched, rows, row, RowCarried(PmidOutcome(pmids[i], net, tool, email)));
    }
  }

  ghost function RowRecords(row: seq<Option<DatasetRecord>>): set<DatasetRecord> {
    set b | 0 <= b < |row| && row[b].Some? :: row[b].value
  }

  /** The records of `row` stand where `ds` has details, and carry them. */
  ghost predicate Matches(row: seq<Option<DatasetRecord>>, ds: seq<Option<Details>>)
    reads RowRecords(row)`title, RowRecords(row)`experimentType, RowRecords(row)`summary,
          RowRecords(row)`organism, RowRecords(row)`overallDesign
  {
    && |row| == |ds|
    && forall b :: 0 <= b < |row| ==>
         && (row[b].Some? <==> ds[b].Some?)
         && (row[b].Some? ==> row[b].value.Fields() == ds[b].value)
  }

  ghost function Records(fetched: seq<seq<Option<DatasetRecord>>>): set<DatasetRecord> {
    set i, b | 0 <= i < |fetched| && 0 <= b < |fetched[i]| && fetched[i][b].Some? :: fetched[i][b].value
  }

  /** `Matches` row by row. */
  ghost predicate AllMatch(fetched: seq<seq<Option<DatasetRecord>>>, rows: seq<seq<Option<Details>>>)
    reads Records(fetched)`title, Records(fetched)`experimentType, Records(fetched)`summary,
          Records(fetched)`organism, Records(fetched)`overallDesign
  {
    && |fetched| == |rows|
    && (forall i :: 0 <= i < |fetched| ==> |fetched[i]| == |rows[i]|)
    && forall i, b :: 0 <= i < |fetched| && 0 <= b < |fetched[i]| ==>
         && (fetched[i][b].Some? <==> rows[i][b].Some?)
         && (fetched[i][b].Some? ==> fetched[i][b].value.Fields() == rows[i][b].value)
  }

  lemma MatchesAppend(row: seq<Option<DatasetRecord>>, ds: seq<Option<Details>>, x: Option<DatasetRecord>, d: Option<Details>)
    requires Matches(row, ds) && Matches([x], [d])
    ensures Matches(row + [x], ds + [d])
  {
    var row': seq<Option<DatasetRecord>>, ds': seq<Option<Details>> := row + [x], ds + [d];
    forall b | 0 <= b < |row'|
      ensures (row'[b].Some? <==> ds'[b].Some?) && (row'[b].Some? ==> row'[b].value.Fields() == ds'[b].value)
    {
      if b == |row| {
        assert row'[b] == [x][0] && ds'[b] == [d][0];
      } else {
        assert row'[b] == row[b] && ds'[b] == ds[b];
      }
    }
  }

  lemma AllMatchAppend(fetched: seq<seq<Option<DatasetRecord>>>, rows: seq<seq<Option<Details>>>,
                       row: seq<Option<DatasetRecord>>, ds: seq<Option<Details>>)
    requires AllMatch(fetched, rows) && Matches(row, ds)
    ensures AllMatch(fetched + [row], rows + [ds])
  {
    var f: seq<seq<Option<DatasetRecord>>>, r: seq<seq<Option<Details>>> := fetched + [row], rows + [ds];
    forall i, b | 0 <= i < |f| && 0 <= b < |f[i]|
      ensures |f[i]| == |r[i]| && (f[i][b].Some? <==> r[i][b].Some?) && (f[i][b].Some? ==> f[i][b].value.Fields() == r[i][b].value)
    {
      if i == |fetched| {
        assert f[i] == row && r[i] == ds;
      } else {
        assert f[i] == fetched[i] && r[i] == rows[i];
      }
    }
    assert forall i :: 0 <= i < |f| ==> |f[i]| == |r[i]| by {
      forall i | 0 <= i < |f| ensures |f[i]| == |r[i]| {
        if i == |fetched| { assert f[i] == row && r[i] == ds; } else { assert f[i] == fetched[i] && r[i] == rows[i]; }
      }
    }
  }

  /** The records kept from a matched row carry, in order, the details kept
      from its detail row. */
  lemma {:induction false} SomesMatch(row: seq<Option<DatasetRecord>>, ds: seq<Option<Details>>)
    requires Matches(row, ds)
    ensures |Somes(row)| == |Somes(ds)|
    ensures forall k :: 0 <= k < |Somes(row)| ==> Somes(row)[k].Fields() == Somes(ds)[k]
  {
    if row != [] {
      var n := |row| - 1;
      assert Matches(row[..n], ds[..n]) by {
        forall b | 0 <= b < n ensures row[..n][b] == row[b] && ds[..n][b] == ds[b] { }
      }
      SomesMatch(row[..n], ds[..n]);
    }
  }

  /** The datasets returned carry, in order, the details of the detail rows. */
  lemma {:induction false} PresentMatch(fetched: seq<seq<Option<DatasetRecord>>>, rows: seq<seq<Option<Details>>>)
    requires AllMatch(fetched, rows)
    ensures |Present(fetched)| == |Present(rows)|
    ensures forall k :: 0 <= k < |Present(fetched)| ==> Present(fetched)[k].Fields() == Present(rows)[k]
  {
    if fetched != [] {
      var n := |fetched| - 1;
      assert AllMatch(fetched[..n], rows[..n]) by {
        forall i | 0 <= i < n ensures fetched[..n][i] == fetched[i] && rows[..n][i] == rows[i] { }
      }
      assert Matches(fetched[n], rows[n]);
      PresentMatch(fetched[..n], rows[..n]);
      SomesMatch(fetched[n], rows[n]);
      var a: seq<DatasetRecord>, b: seq<DatasetRecord> := Present(fetched[..n]), Somes(fetched[n]);
      var c: seq<Details>, d: seq<Details> := Present(rows[..n]), Somes(rows[n]);
      forall k | 0 <= k < |a + b| ensures (a + b)[k].Fields() == (c + d)[k] {
        if k < |a| { assert (a + b)[k] == a[k] && (c + d)[k] == c[k]; }
        else { assert (a + b)[k] == b[k - |a|] && (c + d)[k] == d[k - |a|]; }
      }
    }
  }

  /** The records of `row` are those of the ids at the same positions. */
  ghost predicate RowOf(row: seq<Option<DatasetRecord>>, geoIds: seq<string>) {
    |row| <= |geoIds| && forall b :: 0 <= b < |row| && row[b].Some? ==> row[b].value.geoId == geoIds[b]
  }

  /** Appending the lookup of the next id to a row appends its record, if
      any, to the records kept and one more `pmid` tag per record. */
  lemma RowStep(row: seq<Option<DatasetRecord>>, x: Option<DatasetRecord>, geoIds: seq<string>, pmid: string,
                datasets0: seq<DatasetRecord>, prev: seq<DatasetRecord>, datasets: seq<DatasetRecord>,
                tags0: seq<string>, prevTags: seq<string>, tags: seq<string>)
    requires RowOf(row, geoIds) && |row| < |geoIds| && (x.Some? ==> x.value.geoId == geoIds[|row|])
    requires prev == datasets0 + Somes(row) && prevTags == tags0 + Repeat(pmid, |Somes(row)|)
    requires datasets == prev + (if x.Some? then [x.value] else [])
    requires tags == prevTags + (if x.Some? then [pmid] else [])
    ensures RowOf(row + [x], geoIds)
    ensures datasets == datasets0 + Somes(row + [x])
    ensures tags == tags0 + Repeat(pmid, |Somes(row + [x])|)
  {
    assert (row + [x])[..|row|] == row;
    forall b | 0 <= b < |row + [x]| && (row + [x])[b].Some?
      ensures (row + [x])[b].value.geoId == geoIds[b]
    {
      if b < |row| { assert (row + [x])[b] == row[b]; }
    }
  }

  /** Tag `dataset` with `pmid` in place and append it to the records kept.
      The tag is not one of the fields the client's cache is checked on, so
      a cache that agreed with the network still does. */
  method TagAndKeep(client: EUtilsClient, dataset: DatasetRecord, pmid: string,
                    datasets0: seq<DatasetRecord>, ghost tags0: seq<string>)
    returns (datasets: seq<DatasetRecord>, ghost tags: seq<string>)
    requires TaggedLast(datasets0, tags0)
    modifies dataset`pmid
    ensures dataset.pmid == Some(pmid) && dataset.Fields() == old(dataset.Fields())
    ensures datasets == datasets0 + [dataset] && tags == tags0 + [pmid]
    ensures TaggedLast(datasets, tags)
    ensures old(GeoCacheAgrees(client.geoCache, client.net, client.tool, client.email)) ==>
      GeoCacheAgrees(client.geoCache, client.net, client.tool, client.email)
  {
    ghost var before := PmidsOf(datasets0);
    dataset.pmid := Some(pmid);
    TagAndAppend(datasets0, tags0, before, dataset, pmid);
    datasets, tags := datasets0 + [dataset], tags0 + [pmid];
  }

  /** One pass of the inner loop of `get_geo_data_for_pmids`: fetch the
      details of `geoId`; a record found is tagged with `pmid` in place and
      appended. */
  method FetchOne(client: EUtilsClient, pmid: string, geoId: string,
                  datasets0: seq<DatasetRecord>, ghost tags0: seq<string>)
    returns (err: Option<Error>, datasets: seq<DatasetRecord>, ghost tags: seq<string>,
             ghost found: Option<DatasetRecord>)
    requires client.Valid() && KeyedById(client.geoCache)
    requires TaggedLast(datasets0, tags0)
    modifies client, client.clock, client.geoCache, Held(client.geoCache)`pmid
    ensures client.Valid() && KeyedById(client.geoCache)
    ensures forall k :: k in client.geoCache.entries ==>
              client.geoCache.entries[k].value in old(Held(client.geoCache)) || fresh(client.geoCache.entries[k].value)
    ensures err.None? ==>
      && (found.Some? ==> found.value.geoId == geoId)
      && datasets == datasets0 + (if found.Some? then [found.value] else [])
      && tags == tags0 + (if found.Some? then [pmid] else [])
      && TaggedLast(datasets, tags)
    ensures old(GeoCacheAgrees(client.geoCache, client.net, client.tool, client.email)) ==>
      GeoCacheAgrees(client.geoCache, client.net, client.tool, client.email)
    ensures old(GeoCacheAgrees(client.geoCache, client.net, client.tool, client.email)) ==>
      match DetailsOutcome(geoId, client.net(ESummaryRequest(geoId, client.tool, client.email)))
      case Raised(e) => err == Some(e)
      case Ok(d) => err.None? && Matches([found], [d])
  {
    datasets, tags, found := datasets0, tags0, None;
    var details := client.GetGeoDatasetDetails(geoId);
    if details.Raised? {
      return Some(details.error), datasets, tags, found;
    }
    err := None;
    if details.value.Some? {
      datasets, tags := TagAndKeep(client, details.value.value, pmid, datasets, tags);
      found := details.value;
    }
  }

  /** One pass of the loop of `FetchAndTag`: the lookup of the next id,
      `geoIds[|row0|]`, extends the row. When the caches agreed with the
      network at the start of the loop, `ds0` holds the outcomes of the ids
      looked up so far and grows with the row. */
  method FetchNext(client: EUtilsClient, pmid: string, geoIds: seq<string>, j: nat, ghost agree: bool,
                   datasets0: seq<DatasetRecord>, ghost tags0: seq<string>,
                   datasets1: seq<DatasetRecord>, ghost tags1: seq<string>,
                   ghost row0: seq<Option<DatasetRecord>>, ghost ds0: seq<Option<Details>>)
    returns (err: Option<Error>, datasets: seq<DatasetRecord>, ghost tags: seq<string>,
             ghost row: seq<Option<DatasetRecord>>, ghost ds: seq<Option<Details>>)
    requires j == |row0| < |geoIds| && RowOf(row0, geoIds)
    requires client.Valid() && KeyedById(client.geoCache)
    requires datasets1 == datasets0 + Somes(row0) && tags1 == tags0 + Repeat(pmid, |Somes(row0)|)
    requires TaggedLast(datasets1, tags1)
    requires agree ==>
      && GeoCacheAgrees(client.geoCache, client.net, client.tool, client.email)
      && RowOutcome(geoIds[..j], client.net, client.tool, client.email) == Ok(ds0)
      && Matches(row0, ds0)
    modifies client, client.clock, client.geoCache, Held(client.geoCache)`pmid
    ensures client.Valid() && KeyedById(client.geoCache)
    ensures forall k :: k in client.geoCache.entries ==>
              client.geoCache.entries[k].value in old(Held(client.geoCache)) || fresh(client.geoCache.entries[k].value)
    ensures err.None? ==>
      && |row| == j + 1 && RowOf(row, geoIds)
      && datasets == datasets0 + Somes(row)
      && tags == tags0 + Repeat(pmid, |Somes(row)|)
      && TaggedLast(datasets, tags)
    ensures agree ==> GeoCacheAgrees(client.geoCache, client.net, client.tool, client.email)
    ensures agree && err.Some? ==> RowOutcome(geoIds, client.net, client.tool, client.email) == Raised(err.value)
    ensures agree && err.None? ==>
      RowOutcome(geoIds[..j + 1], client.net, client.tool, client.email) == Ok(ds) && Matches(row, ds)
  {
    row, ds := row0, ds0;
    ghost var found;
    err, datasets, tags, found := FetchOne(client, pmid, geoIds[j], datasets1, tags1);
    if agree {
      RowGrows(geoIds, j, client.net, client.tool, client.email, row0, ds0, found, err);
    }
    if err.Some? {
      return;
    }
    ghost var d := Carried(DetailsOutcome(geoIds[j], client.net(ESummaryRequest(geoIds[j], client.tool, client.email))));
    RowStep(row0, found, geoIds, pmid, datasets0, datasets1, datasets, tags0, tags1, tags);
    row, ds := row0 + [found], ds0 + [d];
  }

  /** The inner loop of `get_geo_data_for_pmids`: fetch the details of every
      id found for `pmid`, tag each record found with `pmid` and append it. */
  method FetchAndTag(client: EUtilsClient, pmid: string, geoIds: seq<string>,
                     datasets0: seq<DatasetRecord>, ghost tags0: seq<string>)
    returns (err: Option<Error>, datasets: seq<DatasetRecord>, ghost tags: seq<string>,
             ghost row: seq<Option<DatasetRecord>>)
    requires client.Valid() && KeyedById(client.geoCache)
    requires TaggedLast(datasets0, tags0)
    modifies client, client.clock, client.geoCache, Held(client.geoCache)`pmid
    ensures client.Valid() && KeyedById(client.geoCache)
    ensures forall k :: k in client.geoCache.entries ==>
              client.geoCache.entries[k].value in old(Held(client.geoCache)) || fresh(client.geoCache.entries[k].value)
    ensures err.None? ==>
      && |row| == |geoIds|
      && (forall b :: 0 <= b < |row| && row[b].Some? ==> row[b].value.geoId == geoIds[b])
      && datasets == datasets0 + Somes(row)
      && tags == tags0 + Repeat(pmid, |Somes(row)|)
      && TaggedLast(datasets, tags)
    ensures old(GeoCacheAgrees(client.geoCache, client.net, client.tool, client.email)) ==>
      GeoCacheAgrees(client.geoCache, client.net, client.tool, client.email)
    ensures old(GeoCacheAgrees(client.geoCache, client.net, client.tool, client.email)) ==>
      match RowOutcome(geoIds, client.net, client.tool, client.email)
      case Raised(e) => err == Some(e)
      case Ok(ds) => err.None? && Matches(row, ds)
  {
    ghost var held0 := Held(client.geoCache);
    ghost var agree := GeoCacheAgrees(client.geoCache, client.net, client.tool, client.email);
    ghost var ds: seq<Option<Details>> := [];
    datasets, tags, row := datasets0, tags0, [];
    var j := 0;
    while j < |geoIds|
      invariant j == |row| <= |geoIds| && RowOf(row, geoIds)
      invariant agree ==>
        && GeoCacheAgrees(client.geoCache, client.net, client.tool, client.email)
        && RowOutcome(geoIds[..j], client.net, client.tool, client.email) == Ok(ds)
        && Matches(row, ds)
      invariant client.Valid() && KeyedById(client.geoCache)
      invariant forall k :: k in client.geoCache.entries ==>
                  client.geoCache.entries[k].value in held0 || fresh(client.geoCache.entries[k].value)
      invariant datasets == datasets0 + Somes(row)
      invariant tags == tags0 + Repeat(pmid, |Somes(row)|)
      invariant TaggedLast(datasets, tags)
    {
      var e;
      e, datasets, tags, row, ds := FetchNext(client, pmid, geoIds, j, agree, datasets0, tags0, datasets, tags, row, ds);
      if e.Some? {
        return e, datasets, tags, row;
      }
      j := j + 1;
    }
    assert geoIds[..|row|] == geoIds;
    err := None;
  }

  /** One pass of the outer loop of `get_geo_data_for_pmids`: look up the
      dataset ids linked to `pmid` and, when there are any, fetch and tag
      their records. */
  method FetchForPmid(client: EUtilsClient, pmid: string,
                      datasets0: seq<DatasetRecord>, ghost tags0: seq<string>)
    returns (err: Option<Error>, geoIds: seq<string>, datasets: seq<DatasetRecord>, ghost tags: seq<string>,
             ghost row: seq<Option<DatasetRecord>>)
    requires client.Valid() && KeyedById(client.geoCache)
    requires TaggedLast(datasets0, tags0)
    modifies client, client.clock, client.pmidCache, client.geoCache, Held(client.geoCache)`pmid
    ensures client.Valid() && KeyedById(client.geoCache)
    ensures forall k :: k in client.geoCache.entries ==>
              client.geoCache.entries[k].value in old(Held(client.geoCache)) || fresh(client.geoCache.entries[k].value)
    ensures err.None? ==>
      && |row| == |geoIds|
      && (forall b :: 0 <= b < |row| && row[b].Some? ==> row[b].value.geoId == geoIds[b])
      && datasets == datasets0 + Somes(row)
      && tags == tags0 + Repeat(pmid, |Somes(row)|)
      && TaggedLast(datasets, tags)
    ensures old(IdsCacheAgrees(client.pmidCache, client.net, client.tool, client.email)) ==>
      IdsCacheAgrees(client.pmidCache, client.net, client.tool, client.email)
    ensures old(GeoCacheAgrees(client.geoCache, client.net, client.tool, client.email)) ==>
      GeoCacheAgrees(client.geoCache, client.net, client.tool, client.email)
    ensures old(IdsCacheAgrees(client.pmidCache, client.net, client.tool, client.email)
                && GeoCacheAgrees(client.geoCache, client.net, client.tool, client.email)) ==>
      match PmidOutcome(pmid, client.net, client.tool, client.email)
      case Raised(e) => err == Some(e)
      case Ok(p) => err.None? && geoIds == p.0 && Matches(row, p.1)
  {
    datasets, tags, row := datasets0, tags0, [];
    var ids := client.GetGeoIdsForPmid(pmid);
    if ids.Raised? {
      return Some(ids.error), [], datasets, tags, row;
    }
    geoIds := ids.value;
    err := None;
    if geoIds != [] {
      err, datasets, tags, row := FetchAndTag(client, pmid, geoIds, datasets, tags);
    }
  }

  /** What `get_geo_data_for_pmids` has built once the PMIDs
      `pmids[..|idLists|]` are done: their id lists, their detail lookups,
      the map, the datasets in order and the tag of every dataset. */
  ghost predicate Progress(pmids: seq<string>, idLists: seq<seq<string>>, fetched: seq<seq<Option<DatasetRecord>>>,
                           pmidToGeoIds: Assoc<seq<string>>, datasets: seq<DatasetRecord>, tags: seq<string>)
  {
    && |idLists| == |fetched| <= |pmids|
    && (forall a :: 0 <= a < |fetched| ==> |fetched[a]| == |idLists[a]|)
    && (forall a, b :: 0 <= a < |fetched| && 0 <= b < |fetched[a]| && fetched[a][b].Some? ==>
          fetched[a][b].value.geoId == idLists[a][b])
    && pmidToGeoIds == BuildMap(pmids[..|idLists|], idLists)
    && datasets == Present(fetched)
    && tags == Tags(pmids[..|idLists|], fetched)
  }

  /** One more PMID done: its id list and its row join the lists, the map
      gains its entry when it has ids, and its records and tags join the
      datasets and the tags. */
  lemma ProgressStep(pmids: seq<string>, idLists: seq<seq<string>>, fetched: seq<seq<Option<DatasetRecord>>>,
                     pmidToGeoIds: Assoc<seq<string>>, datasets0: seq<DatasetRecord>, tags0: seq<string>,
                     geoIds: seq<string>, row: seq<Option<DatasetRecord>>, datasets: seq<DatasetRecord>, tags: seq<string>)
    requires Progress(pmids, idLists, fetched, pmidToGeoIds, datasets0, tags0) && |idLists| < |pmids|
    requires |row| == |geoIds| && forall b :: 0 <= b < |row| && row[b].Some? ==> row[b].value.geoId == geoIds[b]
    requires datasets == datasets0 + Somes(row) && tags == tags0 + Repeat(pmids[|idLists|], |Somes(row)|)
    ensures Progress(pmids, idLists + [geoIds], fetched + [row],
                     if geoIds != [] then Assign(pmidToGeoIds, pmids[|idLists|], geoIds) else pmidToGeoIds,
                     datasets, tags)
  {
    var i := |idLists|;
    var f, l := fetched + [row], idLists + [geoIds];
    assert pmids[..i + 1][..i] == pmids[..i];
    assert f[..i] == fetched && l[..i] == idLists;
    forall a, b | 0 <= a < |f| && 0 <= b < |f[a]| && f[a][b].Some?
      ensures f[a][b].value.geoId == l[a][b]
    {
      if a < i { assert f[a] == fetched[a] && l[a] == idLists[a]; }
    }
  }

  datatype Retrieved = Retrieved(datasets: seq<DatasetRecord>, pmidToGeoIds: Assoc<seq<string>>)

  /** The body of the outer loop of `get_geo_data_for_pmids`: the PMID
      `pmids[i]` is looked up, its ids enter the map when there are any, and
      its records are tagged and appended. When the caches agreed with the
      network at the start of the loop, `rows0` holds the outcomes of the
      PMIDs done so far and grows with them. */
  method RetrieveNext(client: EUtilsClient, pmids: seq<string>, i: nat, ghost agree: bool,
                      pmidToGeoIds0: Assoc<seq<string>>, datasets0: seq<DatasetRecord>, ghost tags0: seq<string>,
                      ghost idLists0: seq<seq<string>>, ghost fetched0: seq<seq<Option<DatasetRecord>>>,
                      ghost rows0: seq<seq<Option<Details>>>)
    returns (err: Option<Error>, pmidToGeoIds: Assoc<seq<string>>, datasets: seq<DatasetRecord>, ghost tags: seq<string>,
             ghost idLists: seq<seq<string>>, ghost fetched: seq<seq<Option<DatasetRecord>>>,
             ghost rows: seq<seq<Option<Details>>>)
    requires i == |idLists0| < |pmids| && Progress(pmids, idLists0, fetched0, pmidToGeoIds0, datasets0, tags0)
    requires TaggedLast(datasets0, tags0)
    requires client.Valid() && KeyedById(client.geoCache)
    requires agree ==> IdsCacheAgrees(client.pmidCache, client.net, client.tool, client.email)
    requires agree ==> GeoCacheAgrees(client.geoCache, client.net, client.tool, client.email)
    requires agree ==> Retrieval(pmids[..i], client.net, client.tool, client.email) == Ok(Lookups(idLists0, rows0))
    requires agree ==> AllMatch(fetched0, rows0)
    modifies client, client.clock, client.pmidCache, client.geoCache, Held(client.geoCache)`pmid
    ensures client.Valid() && KeyedById(client.geoCache)
    ensures forall k :: k in client.geoCache.entries ==>
              client.geoCache.entries[k].value in old(Held(client.geoCache)) || fresh(client.geoCache.entries[k].value)
    ensures err.None? ==> |idLists| == i + 1 && Progress(pmids, idLists, fetched, pmidToGeoIds, datasets, tags)
    ensures err.None? ==> TaggedLast(datasets, tags)
    ensures agree ==> IdsCacheAgrees(client.pmidCache, client.net, client.tool, client.email)
    ensures agree ==> GeoCacheAgrees(client.geoCache, client.net, client.tool, client.email)
    ensures agree && err.Some? ==> Retrieval(pmids, client.net, client.tool, client.email) == Raised(err.value)
    ensures agree && err.None? ==>
      Retrieval(pmids[..i + 1], client.net, client.tool, client.email) == Ok(Lookups(idLists, rows))
    ensures agree && err.None? ==> AllMatch(fetched, rows)
  {
    pmidToGeoIds, idLists, fetched, rows := pmidToGeoIds0, idLists0, fetched0, rows0;
    var pmid := pmids[i];
    var geoIds;
    ghost var row;
    err, geoIds, datasets, tags, row := FetchForPmid(client, pmid, datasets0, tags0);
    if agree {
      RetrievalGrows(pmids, i, client.net, client.tool, client.email, idLists0, fetched0, rows0, geoIds, row, err);
    }
    if err.Some? {
      return;
    }
    ProgressStep(pmids, idLists0, fetched0, pmidToGeoIds0, datasets0, tags0, geoIds, row, datasets, tags);
    if geoIds != [] {
      pmidToGeoIds := Assign(pmidToGeoIds0, pmid, geoIds);
    }
    idLists, fetched := idLists0 + [geoIds], fetched0 + [row];
    rows := rows0 + [RowCarried(PmidOutcome(pmid, client.net, client.tool, client.email))];
  }

  /** `get_geo_data_for_pmids`. `idLists[i]` is what the client returned for
      `pmids[i]` and `fetched[i][j]` what it returned for `idLists[i][j]`.
      The map is built from the link lookups alone; the dataset list holds the
      successful detail lookups in PMID-then-id order. A record reached twice
      is the same object twice, and its `pmid` field is the tag of its LAST
      appearance. */
  method GetGeoDataForPmids(pmids: seq<string>, email: string, clock: Clock,
                            pmidCache: TtlCache<seq<string>>, geoCache: TtlCache<DatasetRecord>,
                            net: Request -> Response)
    returns (r: Result<Retrieved>, ghost idLists: seq<seq<string>>, ghost fetched: seq<seq<Option<DatasetRecord>>>)
    requires KeyedById(geoCache)
    modifies clock, pmidCache, geoCache, Held(geoCache)`pmid
    ensures KeyedById(geoCache)
    ensures r.Ok? ==>
      && |idLists| == |pmids| == |fetched|
      && (forall i :: 0 <= i < |pmids| ==> |fetched[i]| == |idLists[i]|)
      && (forall i, j :: 0 <= i < |pmids| && 0 <= j < |fetched[i]| && fetched[i][j].Some? ==>
            fetched[i][j].value.geoId == idLists[i][j])
      && r.value.pmidToGeoIds == BuildMap(pmids, idLists)
      && r.value.datasets == Present(fetched)
      && TaggedLast(r.value.datasets, Tags(pmids, fetched))
    ensures old(IdsCacheAgrees(pmidCache, net, DefaultTool, email) && GeoCacheAgrees(geoCache, net, DefaultTool, email)) ==>
      match Retrieval(pmids, net, DefaultTool, email)
      case Raised(e) => r == Raised(e)
      case Ok(lk) => r.Ok? && idLists == lk.idLists && AllMatch(fetched, lk.rows)
    ensures old(IdsCacheAgrees(pmidCache, net, DefaultTool, email) && GeoCacheAgrees(geoCache, net, DefaultTool, email)) ==>
      match Retrieval(pmids, net, DefaultTool, email)
      case Raised(_) => true
      case Ok(lk) =>
        && r.Ok? && r.value.pmidToGeoIds == BuildMap(pmids, lk.idLists)
        && |r.value.datasets| == |Present(lk.rows)|
        && forall k :: 0 <= k < |r.value.datasets| ==> r.value.datasets[k].Fields() == Present(lk.rows)[k]
  {
    var client := new EUtilsClient(email, DefaultTool, DefaultDelay, clock, pmidCache, geoCache, net);
    var datasets: seq<DatasetRecord> := [];
    var pmidToGeoIds: Assoc<seq<string>> := [];
    ghost var tags: seq<string> := [];
    ghost var agree := IdsCacheAgrees(pmidCache, net, DefaultTool, email) && GeoCacheAgrees(geoCache, net, DefaultTool, email);
    ghost var rows: seq<seq<Option<Details>>> := [];
    idLists, fetched := [], [];
    var i := 0;
    while i < |pmids|
      invariant 0 <= i <= |pmids|
      invariant fresh(client) && client.Valid()
      invariant client.clock == clock && client.pmidCache == pmidCache && client.geoCache == geoCache
      invariant KeyedById(geoCache)
      invariant forall k :: k in geoCache.entries ==> geoCache.entries[k].value in old(Held(geoCache)) || fresh(geoCache.entries[k].value)
      invariant |idLists| == i && Progress(pmids, idLists, fetched, pmidToGeoIds, datasets, tags)
      invariant TaggedLast(datasets, tags)
      invariant agree ==> IdsCacheAgrees(client.pmidCache, client.net, client.tool, client.email)
      invariant agree ==> GeoCacheAgrees(client.geoCache, client.net, client.tool, client.email)
      invariant agree ==> Retrieval(pmids[..i], client.net, client.tool, client.email) == Ok(Lookups(idLists, rows))
      invariant agree ==> AllMatch(fetched, rows)
    {
      var err;
      err, pmidToGeoIds, datasets, tags, idLists, fetched, rows :=
        RetrieveNext(client, pmids, i, agree, pmidToGeoIds, datasets, tags, idLists, fetched, rows);
      if err.Some? {
        return Raised(err.value), idLists, fetched;
      }
      i := i + 1;
    }
    assert pmids[..i] == pmids;
    if agree {
      PresentMatch(fetched, rows);
    }
    return Ok(Retrieved(datasets, pmidToGeoIds)), idLists, fetched;
  }
}
