/** The `QuerySet` handle (main.py:12-214) and the process-wide result cache
    `qs_cache` (main.py:9). A handle holds its filter set, its exclusion set
    and its results; `filter` looks the merged filter set up in the cache and
    otherwise scans the source, `exclude` narrows a handle's results,
    `order_by` sorts the results of a re-derived handle, and `first`,
    `values_list`, `count` and `in` read a handle. The source records that
    the constructor loads from a file are a constructor parameter here. */
module QuerySets {
  import opened Values
  import opened Lookups
  import opened FilterSets
  import opened Matcher
  import opened Exclusion
  import opened Ordering

  /** Every key of a merged set comes from one of the two sets, so merging
      well-formed sets gives a well-formed set. */
  lemma MergeWellFormed(fs: FilterSet, kw: FilterSet)
    requires WellFormedSet(fs) && WellFormedSet(kw)
    ensures WellFormedSet(Merge(fs, kw))
  {
    var m := Merge(fs, kw);
    MergeKeys(fs, kw);
    forall i | 0 <= i < |m|
      ensures WellFormedKey(m[i].0)
    {
      assert Keys(m)[i] == m[i].0;
      if m[i].0 in Keys(fs) {
        var j :| 0 <= j < |fs| && Keys(fs)[j] == m[i].0;
      } else {
        var j :| 0 <= j < |kw| && Keys(kw)[j] == m[i].0;
      }
    }
  }

  /** `dict(fs or {})` updated with `kw` (main.py:116-117, 73-76): again a
      dict of well-formed keys. */
  function Updated(fs: FilterSet, kw: FilterSet): (r: FilterSet)
    requires WellFormedSet(fs) && IsDict(fs) && WellFormedSet(kw) && IsDict(kw)
    ensures WellFormedSet(r) && IsDict(r)
  {
    MergeIsDict(fs, kw);
    MergeWellFormed(fs, kw);
    Merge(fs, kw)
  }

  /** The records a cache miss of `filter` stores (main.py:127-191): classify
      the lookups, scan the source, then apply the handle's exclusion set
      (an empty one leaves the records as they are). */
  function Pipeline(source: seq<Record>, search: FilterSet, exclude: FilterSet, firstOnly: bool): (r: Result<seq<Record>>)
    requires WellFormedSet(search) && WellFormedSet(exclude)
  {
    var ls :- Classify(search);
    var rows :- Select(source, ls, firstOnly);
    Excluded(rows, exclude)
  }

  /** `filter` keeps source records in order; without any filters and
      exclusions it keeps them all. */
  lemma PipelineSubsequence(source: seq<Record>, search: FilterSet, exclude: FilterSet, firstOnly: bool)
    requires WellFormedSet(search) && WellFormedSet(exclude)
    requires Pipeline(source, search, exclude, firstOnly).Ok?
    ensures IsSubsequence(Pipeline(source, search, exclude, firstOnly).value, source)
    ensures firstOnly ==> |Pipeline(source, search, exclude, firstOnly).value| <= 1
  {
    var ls := Classify(search).value;
    var rows := Select(source, ls, firstOnly).value;
    SelectSubsequence(source, ls, firstOnly);
    ExcludeSubsequence(rows, exclude);
    SubsequenceTransitive(Excluded(rows, exclude).value, rows, source);
    SubsequenceLength(Excluded(rows, exclude).value, rows);
  }

  /** `filter` never raises the unknown-command error: every command it
      evaluates comes out of `parse_filter`, which only returns one of the
      nine. */
  lemma PipelineKnownCommands(source: seq<Record>, search: FilterSet, exclude: FilterSet, firstOnly: bool)
    requires WellFormedSet(search) && WellFormedSet(exclude)
    ensures Pipeline(source, search, exclude, firstOnly).Err? ==>
      !Pipeline(source, search, exclude, firstOnly).error.UnknownCommand?
  {
    ClassifyKnown(search);
    if Classify(search).Ok? {
      SelectKnown(source, Classify(search).value, firstOnly);
      if Select(source, Classify(search).value, firstOnly).Ok? {
        ExcludedKnown(Select(source, Classify(search).value, firstOnly).value, exclude);
      }
    }
  }

  /** With no filters and no exclusions every source record is returned. */
  lemma PipelineNoFilters(source: seq<Record>)
    ensures Pipeline(source, [], [], false) == Ok(source)
  {
    NoLookupsSelectsAll(source);
  }

  /** Without exclusions, `filter` returns exactly the matching records, and
      with `firstOnly` the first of them (or none). */
  lemma PipelineMatches(source: seq<Record>, search: FilterSet, firstOnly: bool)
    requires WellFormedSet(search)
    requires Pipeline(source, search, [], firstOnly).Ok?
    ensures !firstOnly ==> Pipeline(source, search, [], firstOnly).value == Matching(source, Classify(search).value)
    ensures firstOnly ==>
      var m := Matching(source, Classify(search).value);
      Pipeline(source, search, [], firstOnly).value == if m == [] then [] else [m[0]]
  {
    var ls := Classify(search).value;
    if firstOnly {
      SelectFirst(source, ls);
    } else {
      SelectMatches(source, ls);
    }
  }

  /** The work of a cache miss in `filter` (main.py:127-191): classify the
      lookups, run the scan, and apply the exclusion set when there is one. */
  method RunPipeline(source: seq<Record>, search: FilterSet, exclude: FilterSet, firstOnly: bool)
    returns (r: Result<seq<Record>>)
    requires WellFormedSet(search) && WellFormedSet(exclude)
    ensures r == Pipeline(source, search, exclude, firstOnly)
  {
    var classified := ClassifyLookups(search);
    if classified.Err? {
      return Err(classified.error);
    }
    var rows := SelectRows(source, classified.value, firstOnly);
    if rows.Err? {
      return Err(rows.error);
    }
    r := rows;
    if exclude != [] {
      r := ExcludeResults(rows.value, exclude);
    }
  }

  /** `first()` on the outcome of `filter(get_first_only=True)`: IndexError
      (raised by the parser or by indexing empty results) gives None. */
  function Head(res: Result<seq<Record>>): (r: Result<Option<Record>>)
    ensures res.Ok? && res.value != [] ==> r == Ok(Some(res.value[0]))
    ensures res.Ok? && res.value == [] ==> r == Ok(None)
    ensures res.Err? && res.error == IndexError ==> r == Ok(None)
    ensures res.Err? && res.error != IndexError ==> r == Err(res.error)
  {
    match res
    case Ok(rows) => if rows == [] then Ok(None) else Ok(Some(rows[0]))
    case Err(e) => if e == IndexError then Ok(None) else Err(e)
  }

  /** `[d[field] for d in rows]`: KeyError on the first record lacking the
      field. */
  function Column(rows: seq<Record>, field: string): (r: Result<seq<Value>>)
    ensures r.Ok? <==> HasField(rows, field)
    ensures r.Ok? ==> |r.value| == |rows| && forall i :: 0 <= i < |rows| ==> r.value[i] == rows[i][field]
    ensures r.Err? ==> r.error == KeyError(field)
  {
    if rows == [] then Ok([])
    else if field !in rows[0] then Err(KeyError(field))
    else
      match Column(rows[1..], field)
      case Err(e) => Err(e)
      case Ok(vs) =>
        assert forall i :: 1 <= i < |rows| ==> rows[i] == rows[1..][i - 1];
        Ok([rows[0][field]] + vs)
  }

  /** The result cache shared by all handles: merged filter set to handle.
      `scans` counts the scans of the source that filled it. */
  class QueryCache {
    var entries: map<FilterSet, QuerySet>
    ghost var scans: nat

    constructor()
      ensures entries == map[] && scans == 0
    {
      entries := map[];
      scans := 0;
    }

    /** Every cached handle shares this cache, has well-formed filter sets,
        and is stored under its own filter set. */
    predicate Valid()
      reads this`entries, entries.Values`baseFilters, entries.Values`baseFiltersExclude
    {
      forall k :: k in entries ==> entries[k].cache == this && entries[k].Valid() && entries[k].baseFilters == k
    }
  }

  class QuerySet {
    var baseFilters: FilterSet
    var baseFiltersExclude: FilterSet
    var results: seq<Record>
    const source: seq<Record>
    const cache: QueryCache

    /** Both filter sets are dicts whose keys name at most one command. */
    predicate Valid()
      reads this`baseFilters, this`baseFiltersExclude
    {
      WellFormedSet(baseFilters) && IsDict(baseFilters) &&
      WellFormedSet(baseFiltersExclude) && IsDict(baseFiltersExclude)
    }

    /** `QuerySet(base_filters, base_filters_exclude)` (main.py:21-28), with
        the loaded records passed in; a missing set is the empty one. */
    constructor(source: seq<Record>, cache: QueryCache, baseFilters: FilterSet, baseFiltersExclude: FilterSet)
      ensures this.source == source && this.cache == cache
      ensures this.baseFilters == baseFilters && this.baseFiltersExclude == baseFiltersExclude
      ensures results == []
    {
      this.source := source;
      this.cache := cache;
      this.baseFilters := baseFilters;
      this.baseFiltersExclude := baseFiltersExclude;
      results := [];
    }

    /** `len(qs)` and `qs.count()` (main.py:39-40, 65-66). */
    function Count(): (n: nat)
      reads this
      ensures n == 0 <==> !NonEmpty()
    {
      |results|
    }

    /** `bool(qs)` (main.py:30-31). */
    predicate NonEmpty()
      reads this
    {
      results != []
    }

    /** `x in qs` (main.py:18-19): some result equals `x`. */
    predicate Contains(x: Record)
      reads this
    {
      x in results
    }

    /** `qs.values_list(attr)` (main.py:212-214): the value of the parsed
        field in every result, in order. */
    function ValuesList(attr: string): (r: Result<seq<Value>>)
      reads this
      requires WellFormedKey(attr)
      ensures ParseFilter(attr).Err? ==> r == Err(IndexError)
      ensures ParseFilter(attr).Ok? ==>
        var field := ParseFilter(attr).value.0;
        (r.Ok? <==> HasField(results, field)) &&
        (r.Ok? ==> |r.value| == Count() && forall i :: 0 <= i < |results| ==> r.value[i] == results[i][field]) &&
        (r.Err? ==> r == Err(KeyError(field)))
    {
      var (field, _) :- ParseFilter(attr);
      Column(results, field)
    }

    /** `get_new_qs` (main.py:96-97): a fresh handle with copies of both
        filter sets and no results. */
    method GetNewQs() returns (q: QuerySet)
      ensures fresh(q)
      ensures q.source == source && q.cache == cache
      ensures q.baseFilters == baseFilters && q.baseFiltersExclude == baseFiltersExclude
      ensures q.results == []
    {
      q := new QuerySet(source, cache, baseFilters, baseFiltersExclude);
    }

    /** `filter(get_first_only, **kwargs)` (main.py:115-194). The merged
        filter set is the cache key: a hit returns the cached handle whatever
        `firstOnly` and the exclusion set are, and changes nothing; a miss
        scans the source once and caches a fresh handle holding the records
        of `Pipeline`. An error caches nothing. */
    method Filter(firstOnly: bool, kwargs: FilterSet) returns (r: Result<QuerySet>)
      requires Valid() && cache.Valid()
      requires WellFormedSet(kwargs) && IsDict(kwargs)
      modifies cache
      ensures cache.Valid()
      ensures var search := Updated(baseFilters, kwargs);
        search in old(cache.entries) ==>
          r == Ok(old(cache.entries)[search]) && cache.entries == old(cache.entries) && cache.scans == old(cache.scans)
      ensures var search := Updated(baseFilters, kwargs);
        search !in old(cache.entries) ==>
          cache.scans == old(cache.scans) + 1 &&
          match Pipeline(source, search, baseFiltersExclude, firstOnly)
          case Err(e) => r == Err(e) && cache.entries == old(cache.entries)
          case Ok(rows) =>
            r.Ok? && fresh(r.value) && r.value.results == rows &&
            r.value.baseFilters == search && r.value.baseFiltersExclude == baseFiltersExclude &&
            r.value.source == source && r.value.cache == cache &&
            cache.entries == old(cache.entries)[search := r.value]
    {
      var search := Updated(baseFilters, kwargs);
      if search in cache.entries {
        return Ok(cache.entries[search]);
      }
      cache.scans := cache.scans + 1;
      var qs := GetNewQs();
      qs.baseFilters := search;
      var rows := RunPipeline(source, search, qs.baseFiltersExclude, firstOnly);
      if rows.Err? {
        return Err(rows.error);
      }
      qs.results := rows.value;
      cache.entries := cache.entries[search := qs];
      return Ok(qs);
    }

    /** `exclude(**kwargs)` (main.py:68-78). When no value is truthy the new
        handle keeps these results and this exclusion set; otherwise the
        exclusion set is merged with `kwargs` and applied to these results
        (not to the source). The cache is not consulted. */
    method Exclude(kwargs: FilterSet) returns (r: Result<QuerySet>)
      requires Valid() && WellFormedSet(kwargs) && IsDict(kwargs)
      ensures r.Ok? ==> fresh(r.value) && r.value.Valid()
      ensures r.Ok? ==> r.value.baseFilters == baseFilters && r.value.source == source && r.value.cache == cache
      ensures !AnyTruthy(kwargs) ==>
        r.Ok? && r.value.results == results && r.value.baseFiltersExclude == baseFiltersExclude
      ensures AnyTruthy(kwargs) ==>
        var ex := Updated(baseFiltersExclude, kwargs);
        match Excluded(results, ex)
        case Err(e) => r == Err(e)
        case Ok(kept) => r.Ok? && r.value.baseFiltersExclude == ex && r.value.results == kept
    {
      var qs := GetNewQs();
      if !AnyTruthy(kwargs) {
        qs.results := results;
        return Ok(qs);
      }
      if qs.baseFiltersExclude != [] {
        qs.baseFiltersExclude := Updated(qs.baseFiltersExclude, kwargs);
      } else {
        MergeIntoEmpty(kwargs);
        qs.baseFiltersExclude := kwargs;
      }
      var kept := ExcludeResults(results, qs.baseFiltersExclude);
      if kept.Err? {
        return Err(kept.error);
      }
      qs.results := kept.value;
      return Ok(qs);
    }

    /** `first(**kwargs)` (main.py:196-200): the first record of
        `filter(get_first_only=True, **kwargs)`, None when there is none or
        an IndexError is raised. On a cache hit the cached results are used,
        however they were computed, and the cache is unchanged; on a miss the
        handle of at most one record is cached under the merged filter set,
        where a later `filter` with the same filters finds it. */
    method First(kwargs: FilterSet) returns (r: Result<Option<Record>>)
      requires Valid() && cache.Valid()
      requires WellFormedSet(kwargs) && IsDict(kwargs)
      modifies cache
      ensures cache.Valid()
      ensures var search := Updated(baseFilters, kwargs);
        search in old(cache.entries) ==>
          r == Head(Ok(old(cache.entries[search].results))) && cache.entries == old(cache.entries)
      ensures var search := Updated(baseFilters, kwargs);
        search !in old(cache.entries) ==>
          r == Head(Pipeline(source, search, baseFiltersExclude, true)) &&
          match Pipeline(source, search, baseFiltersExclude, true)
          case Err(_) => cache.entries == old(cache.entries)
          case Ok(rows) =>
            search in cache.entries && fresh(cache.entries[search]) &&
            cache.entries[search].results == rows &&
            cache.entries[search].baseFiltersExclude == baseFiltersExclude &&
            cache.entries == old(cache.entries)[search := cache.entries[search]]
    {
      var qs := Filter(true, kwargs);
      if qs.Err? {
        if qs.error == IndexError {
          return Ok(None);
        }
        return Err(qs.error);
      }
      var rows := qs.value.results;
      if rows == [] {
        return Ok(None);
      }
      return Ok(Some(rows[0]));
    }

    /** `order_by(spec)` (main.py:202-210): re-derive the handle with
        `get_new_qs().filter()`, which is the cached handle when this filter
        set is cached, and overwrite its results with the sorted ones. The
        records sorted are `unsorted`: the cached handle's results, or the
        records of a fresh scan. No other handle changes. */
    method OrderBy(spec: string) returns (r: Result<QuerySet>, ghost unsorted: seq<Record>)
      requires Valid() && cache.Valid()
      modifies cache, cache.entries.Values`results
      ensures cache.Valid()
      ensures old(baseFilters) in old(cache.entries) ==>
        cache.entries == old(cache.entries) &&
        unsorted == old(cache.entries[baseFilters].results) &&
        (r.Ok? ==> r.value == old(cache.entries)[old(baseFilters)])
      ensures old(baseFilters) !in old(cache.entries) ==>
        match Pipeline(source, old(baseFilters), old(baseFiltersExclude), false)
        case Err(e) => r == Err(e) && cache.entries == old(cache.entries)
        case Ok(rows) =>
          unsorted == rows && old(baseFilters) in cache.entries &&
          fresh(cache.entries[old(baseFilters)]) &&
          cache.entries == old(cache.entries)[old(baseFilters) := cache.entries[old(baseFilters)]] &&
          cache.entries[old(baseFilters)].baseFiltersExclude == old(baseFiltersExclude) &&
          (r.Ok? ==> r.value == cache.entries[old(baseFilters)]) &&
          (r.Err? ==> cache.entries[old(baseFilters)].results == rows)
      ensures r.Ok? ==> OrderRows(unsorted, spec) == Ok(r.value.results)
      ensures r.Err? && (old(baseFilters) in old(cache.entries) ||
                         Pipeline(source, old(baseFilters), old(baseFiltersExclude), false).Ok?) ==>
        OrderRows(unsorted, spec) == Err(r.error)
      ensures forall q :: q in old(cache.entries.Values) && (r.Err? || q != r.value) ==> q.results == old(q.results)
      ensures forall q :: q in old(cache.entries.Values) ==>
        q.baseFilters == old(q.baseFilters) && q.baseFiltersExclude == old(q.baseFiltersExclude)
    {
      var res := Rederive();
      if res.Err? {
        return Err(res.error), [];
      }
      var h := res.value;
      unsorted := h.results;
      var e := h.SortResults(spec);
      if e.Some? {
        return Err(e.value), unsorted;
      }
      return Ok(h), unsorted;
    }

    /** `self.get_new_qs().filter()` (main.py:208): a filter call without
        keyword arguments on a copy of this handle, so its cache key is this
        handle's filter set. */
    method Rederive() returns (r: Result<QuerySet>)
      requires Valid() && cache.Valid()
      modifies cache
      ensures cache.Valid()
      ensures baseFilters in old(cache.entries) ==>
        r == Ok(old(cache.entries)[baseFilters]) && cache.entries == old(cache.entries)
      ensures baseFilters !in old(cache.entries) ==>
        match Pipeline(source, baseFilters, baseFiltersExclude, false)
        case Err(e) => r == Err(e) && cache.entries == old(cache.entries)
        case Ok(rows) =>
          r.Ok? && fresh(r.value) && r.value.results == rows && r.value.cache == cache &&
          r.value.baseFiltersExclude == baseFiltersExclude &&
          cache.entries == old(cache.entries)[baseFilters := r.value]
    {
      var derived := GetNewQs();
      MergeOnto(baseFilters, []);
      assert Updated(baseFilters, []) == baseFilters;
      r := derived.Filter(false, []);
    }

    /** `qs.results.sort(key=...)` (main.py:208-209): the results are
        replaced by their ordering, or left as they are when sorting
        raises. */
    method SortResults(spec: string) returns (e: Option<Error>)
      modifies this`results
      ensures OrderRows(old(results), spec).Ok? ==> e == None && results == OrderRows(old(results), spec).value
      ensures OrderRows(old(results), spec).Err? ==> e == Some(OrderRows(old(results), spec).error) && results == old(results)
    {
      var sorted := OrderRows(results, spec);
      if sorted.Err? {
        return Some(sorted.error);
      }
      results := sorted.value;
      return None;
    }
  }

  /** Two identical `filter` calls: the second is a cache hit that returns
      the very handle the first one produced, and scans nothing. */
  method RepeatFilter(q: QuerySet, kwargs: FilterSet) returns (r1: Result<QuerySet>, r2: Result<QuerySet>)
    requires q.Valid() && q.cache.Valid()
    requires WellFormedSet(kwargs) && IsDict(kwargs)
    modifies q.cache
    ensures r1.Ok? ==> r2 == r1
    ensures r1.Ok? ==> q.cache.scans <= old(q.cache.scans) + 1
  {
    r1 := q.Filter(false, kwargs);
    r2 := q.Filter(false, kwargs);
  }

  /** `filter(get_first_only=True)` followed by the same `filter()`: the
      cache key ignores `get_first_only`, so when the first call scanned the
      source the second one returns its handle of at most one record. */
  method FirstOnlyThenAll(q: QuerySet, kwargs: FilterSet) returns (r1: Result<QuerySet>, r2: Result<QuerySet>)
    requires q.Valid() && q.cache.Valid()
    requires WellFormedSet(kwargs) && IsDict(kwargs)
    requires Updated(q.baseFilters, kwargs) !in q.cache.entries
    modifies q.cache
    ensures r1.Ok? ==> r2 == r1 && |r2.value.results| <= 1
  {
    r1 := q.Filter(true, kwargs);
    if r1.Ok? {
      PipelineSubsequence(q.source, Updated(q.baseFilters, kwargs), q.baseFiltersExclude, true);
    }
    r2 := q.Filter(false, kwargs);
  }
}
