/**
 The data loader's state and its read path: a cache of the loaded records that
 is filled once, from the first source in a fallback chain that yields data, and
 the two queries (`getPageData`, `getStatistics`) that run on the cached records.

 The two fetches are inputs: each is either unavailable (a network failure or a
 non-OK response) or the text it delivered. `atob` followed by `JSON.parse` is
 taken as given and represented by its outcome.
 */
module Loader {
  import opened Wrappers
  import opened Seqs
  import opened Records
  import opened CsvParser
  import opened Filters
  import opened Pagination
  import opened Statistics

  /**
   What `JSON.parse(atob(text))` yields for the obfuscated file: an exception
   from either call, the JSON value `null`, or an array of order records.
   `deobfuscateData` logs the parsed value's `.length`, which throws for `null`
   inside the same `try` as the two calls.
   */
  datatype Decoded = Malformed | JsonNull | JsonArray(records: seq<Record>)

  /** The outcome of the two fetches; `None` is a fetch that failed or was not OK. */
  datatype Sources = Sources(obfuscated: Option<Decoded>, csv: Option<string>)

  /** The loader's cache, `allData`; `None` is `null`. */
  datatype Loader = Loader(allData: Option<seq<Record>>)

  /** A fresh loader holds no data. */
  const Initial: Loader := Loader(None)

  /** Where the loaded records came from. */
  datatype Origin = FromObfuscated | FromCsv | FromDefault

  /**
   `deobfuscateData`: the decoded array, or `[]` when anything in its `try`
   throws, which for `null` is reading `.length`. It never fails.
   */
  function Deobfuscate(d: Decoded): (r: seq<Record>)
    ensures |r| > 0 ==> d.JsonArray?
    ensures d.JsonArray? ==> r == d.records
  {
    match d
    case Malformed => []
    case JsonNull => []
    case JsonArray(rs) => rs
  }

  /** `loadBackupData`: the parsed CSV file, or the built-in record when it cannot be fetched. */
  function LoadBackupData(csv: Option<string>): (rs: seq<Record>)
    ensures csv.None? ==> rs == DefaultData()
    ensures csv.Some? ==> rs == ParseCSV(csv.value)
  {
    match csv
    case None => DefaultData()
    case Some(text) => ParseCSV(text)
  }

  /**
   `loadObfuscatedData`: the decoded obfuscated file whenever it can be fetched,
   since decoding never throws to this level; the backup chain only when the
   fetch fails or the response is not OK.
   */
  function LoadObfuscatedData(src: Sources): (rs: seq<Record>)
    ensures OriginOf(src) == FromObfuscated ==> rs == Deobfuscate(src.obfuscated.value)
    ensures OriginOf(src) == FromCsv ==> rs == ParseCSV(src.csv.value)
    ensures OriginOf(src) == FromDefault ==> rs == DefaultData()
  {
    match src.obfuscated
    case None => LoadBackupData(src.csv)
    case Some(d) => Deobfuscate(d)
  }

  /** The source the chain settles on, stated from the fetch outcomes alone. */
  function OriginOf(src: Sources): Origin
  {
    if src.obfuscated.Some? then FromObfuscated
    else if src.csv.Some? then FromCsv
    else FromDefault
  }

  /**
   `initializeData`: the cached records when there are any, otherwise the loaded
   ones, which become the cache. Returns the new loader and the records.
   */
  function InitializeData(l: Loader, src: Sources): (r: (Loader, seq<Record>))
    ensures r.0.allData == Some(r.1)
    ensures l.allData.Some? ==> r.0 == l
    ensures l.allData.None? ==> r.1 == LoadObfuscatedData(src)
  {
    match l.allData
    case Some(rs) => (l, rs)
    case None =>
      var rs := LoadObfuscatedData(src);
      (Loader(Some(rs)), rs)
  }

  /** The dashboard's refresh button: drop the cache so that the next query reloads. */
  function Refresh(l: Loader): (r: Loader)
    ensures r.allData.None?
  {
    Loader(None)
  }

  /** The loader every query runs on: initialized first when it holds no data. */
  function Ready(l: Loader, src: Sources): (r: Loader)
    ensures r.allData.Some?
    ensures l.allData.Some? ==> r == l
  {
    InitializeData(l, src).0
  }

  /**
   `getPageData(page, pageSize, filters)`: the cache is filled first when empty;
   the page holds only cached records that pass the filter, and its metadata
   counts all of those.
   */
  function GetPageData(l: Loader, src: Sources, page: int, pageSize: int, spec: FilterSpec)
    : (r: (Loader, PageResult<Record>))
    requires pageSize >= 1
    ensures r.0 == Ready(l, src)
    ensures l.allData.None? ==> r.0.allData == Some(LoadObfuscatedData(src))
    ensures r.1.pagination.totalCount == Count((o: Record) => Matches(spec, o), r.0.allData.value)
    ensures r.1.pagination.hasPrev <==> page > 1
    ensures |r.1.data| <= pageSize
    ensures forall x :: x in r.1.data ==> x in r.0.allData.value && Matches(spec, x)
    ensures r.1 == Paginate(ApplyFilters(r.0.allData.value, spec), page, pageSize)
  {
    var ready := Ready(l, src);
    var filtered := ApplyFilters(ready.allData.value, spec);
    var result := Paginate(filtered, page, pageSize);
    FilterLength((o: Record) => Matches(spec, o), ready.allData.value);
    forall x | x in result.data
      ensures x in ready.allData.value && Matches(spec, x)
    {
      PageHoldsMatches(ready.allData.value, spec, page, pageSize, x);
    }
    (ready, result)
  }

  /** A record on a page of the filtered records is a record of the input that passes the filter. */
  lemma PageHoldsMatches(data: seq<Record>, spec: FilterSpec, page: int, pageSize: int, x: Record)
    requires pageSize >= 1
    requires x in Paginate(ApplyFilters(data, spec), page, pageSize).data
    ensures x in data && Matches(spec, x)
  {
    var filtered := ApplyFilters(data, spec);
    SliceMembers(filtered, PageStart(page, pageSize), PageStart(page, pageSize) + pageSize, x);
    ApplyFiltersMembership(data, spec, x);
  }

  /**
   Conversely, every cached record that passes the filter is on one of the pages
   1 to `totalPages`, whatever the page size.
   */
  lemma EveryMatchIsOnAPage(l: Loader, src: Sources, pageSize: int, spec: FilterSpec, x: Record)
    requires pageSize >= 1
    requires x in Ready(l, src).allData.value && Matches(spec, x)
    ensures exists p :: 1 <= p <= GetPageData(l, src, 1, pageSize, spec).1.pagination.totalPages
                        && x in GetPageData(l, src, p, pageSize, spec).1.data
  {
    var filtered := ApplyFilters(Ready(l, src).allData.value, spec);
    ApplyFiltersMembership(Ready(l, src).allData.value, spec, x);
    PagesPartition(filtered, pageSize);
    var p := PageOf(filtered, pageSize, 1, x);
    assert x in GetPageData(l, src, p, pageSize, spec).1.data;
  }

  /**
   `getStatistics(filters)`: the cache is filled first when empty; the figures
   are those of the cached records that pass the filter.
   */
  function GetStatistics(l: Loader, src: Sources, spec: FilterSpec): (r: (Loader, Stats))
    ensures r.0 == Ready(l, src)
    ensures l.allData.None? ==> r.0.allData == Some(LoadObfuscatedData(src))
    ensures r.1.totalOrders == Count((o: Record) => Matches(spec, o), r.0.allData.value)
    ensures r.1.totalRevenue == Revenue(Filter((o: Record) => Matches(spec, o), r.0.allData.value))
    ensures r.1.deliveryRatio == Zero <==> forall x :: x in r.0.allData.value ==> !Matches(spec, x)
    ensures r.1 == Aggregate(ApplyFilters(r.0.allData.value, spec))
  {
    var ready := Ready(l, src);
    var filtered := ApplyFilters(ready.allData.value, spec);
    FilterLength((o: Record) => Matches(spec, o), ready.allData.value);
    forall x
      ensures x in filtered <==> x in ready.allData.value && Matches(spec, x)
    {
      ApplyFiltersMembership(ready.allData.value, spec, x);
    }
    assert |filtered| == 0 <==> forall x :: x in filtered ==> false by {
      if |filtered| > 0 { assert filtered[0] in filtered; }
    }
    (ready, Aggregate(filtered))
  }

  /**
   The shown average rating is the number 0 exactly when no cached record that
   passes the filter carries a rating.
   */
  lemma AverageRatingZeroIff(l: Loader, src: Sources, spec: FilterSpec)
    ensures GetStatistics(l, src, spec).1.avgRating == Zero <==>
            forall x :: x in Ready(l, src).allData.value && Matches(spec, x) ==> HasNoRating(x)
  {
    var cache := Ready(l, src).allData.value;
    var filtered := ApplyFilters(cache, spec);
    NoRatingsIff(filtered);
    forall x
      ensures x in filtered <==> x in cache && Matches(spec, x)
    {
      ApplyFiltersMembership(cache, spec, x);
    }
    assert (forall i :: 0 <= i < |filtered| ==> HasNoRating(filtered[i])) <==>
           (forall x :: x in filtered ==> HasNoRating(x));
  }

  /**
   The CSV file is read only when the obfuscated file cannot be fetched; the
   built-in record is used only when the CSV file cannot be fetched either.
   */
  lemma FallbackOrder(src: Sources)
    ensures OriginOf(src) == FromCsv <==> src.obfuscated.None? && src.csv.Some?
    ensures OriginOf(src) == FromDefault <==> src.obfuscated.None? && src.csv.None?
  {
  }

  /** Once the obfuscated file is fetched, whatever it decodes to, the CSV outcome does not matter. */
  lemma ObfuscatedIgnoresCsv(src: Sources, csv: Option<string>)
    requires src.obfuscated.Some?
    ensures LoadObfuscatedData(Sources(src.obfuscated, csv)) == LoadObfuscatedData(src)
  {
  }

  /**
   A file that cannot be decoded, or decodes to `null`, yields no records and no
   fallback: `[]` is what gets cached, whatever the CSV file holds, and the
   statistics are all 0.
   */
  lemma DecodeFailureCachesEmpty(d: Decoded, csv: Option<string>, spec: FilterSpec)
    requires d.Malformed? || d.JsonNull?
    ensures InitializeData(Initial, Sources(Some(d), csv)).0 == Loader(Some([]))
    ensures GetStatistics(Initial, Sources(Some(d), csv), spec).1 == Stats(0, 0.0, Zero, Zero)
  {
    assert ApplyFilters([], spec) == [];
  }

  /** Once data is cached, initialization returns it again, whatever the sources now deliver. */
  lemma CacheIsStable(l: Loader, first: Sources, later: Sources)
    ensures InitializeData(InitializeData(l, first).0, later) == InitializeData(l, first)
  {
  }

  /** Queries on a loader with data leave it as it is; on an empty one they fill it from the sources. */
  lemma QueriesFillCacheOnce(l: Loader, src: Sources, page: int, pageSize: int, spec: FilterSpec)
    requires pageSize >= 1
    ensures l.allData.Some? ==> GetPageData(l, src, page, pageSize, spec).0 == l
    ensures l.allData.Some? ==> GetStatistics(l, src, spec).0 == l
    ensures l.allData.None? ==> GetPageData(l, src, page, pageSize, spec).0 == Loader(Some(LoadObfuscatedData(src)))
    ensures l.allData.None? ==> GetStatistics(l, src, spec).0 == Loader(Some(LoadObfuscatedData(src)))
  {
  }

  /** After a refresh the next query reloads from the sources, so new data is seen. */
  lemma RefreshReloads(l: Loader, src: Sources, spec: FilterSpec)
    ensures GetStatistics(Refresh(l), src, spec).0.allData == Some(LoadObfuscatedData(src))
    ensures GetStatistics(Refresh(l), src, spec).1 == Aggregate(ApplyFilters(LoadObfuscatedData(src), spec))
  {
  }

  /** Without a filter, the statistics are those of all cached records. */
  lemma UnfilteredStatistics(rs: seq<Record>, src: Sources)
    ensures GetStatistics(Loader(Some(rs)), src, NoFilter).1 == Aggregate(rs)
  {
    NoActiveFieldIsIdentity(rs, NoFilter);
  }

  /** The default query `getPageData()` on no records: no data, no pages, neither next nor previous. */
  lemma EmptyFirstPage(src: Sources)
    ensures var p := GetPageData(Loader(Some([])), src, 1, DefaultPageSize, NoFilter).1;
            p.data == [] && p.pagination.totalPages == 0 && p.pagination.totalCount == 0
            && !p.pagination.hasNext && !p.pagination.hasPrev
  {
    assert ApplyFilters([], NoFilter) == [];
  }

  /** Page 2 of two records, one per page: the second record, a previous page and no next one. */
  lemma SecondOfTwoPages(a: Record, b: Record, src: Sources)
    ensures var p := GetPageData(Loader(Some([a, b])), src, 2, 1, NoFilter).1;
            p.data == [b] && p.pagination.totalPages == 2 && p.pagination.hasPrev && !p.pagination.hasNext
  {
    NoActiveFieldIsIdentity([a, b], NoFilter);
    PageData([a, b], 2, 1);
    PageStartStep(2, 1);
  }

  /** With neither file available, a fresh loader serves the single built-in record. */
  lemma OfflineServesDefault()
    ensures GetPageData(Initial, Sources(None, None), 1, DefaultPageSize, NoFilter).1.data == DefaultData()
  {
    var d := DefaultData();
    NoActiveFieldIsIdentity(d, NoFilter);
    PageData(d, 1, DefaultPageSize);
    PageStartStep(1, DefaultPageSize);
  }
}
