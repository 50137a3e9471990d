/** `BuildDependencyFetcher` of osc2/fetch.py: it fetches the build
    dependencies missing from a cache, first from the mirrors, then the
    rest from the API as cpio archives.  Each method is proved against the
    functions of `FetchSpec`; the mirrors are the opener predicate and the
    API is the function giving the archive of a `binarylist` request. */
module Fetcher {
  import opened PyStr
  import opened FetchCache
  import opened FetchMirror
  import opened FetchSpec

  /** A strictly sorted sequence stays so with a smaller key in front. */
  lemma SortedCons(k: Str, r: seq<Str>)
    requires StrictlySorted(r)
    requires forall x :: x in r ==> Less(k, x)
    ensures StrictlySorted([k] + r)
  {
    forall i, j | 0 <= i < j < |[k] + r| ensures Less(([k] + r)[i], ([k] + r)[j]) {
      if i > 0 {
        assert ([k] + r)[i] == r[i - 1] && ([k] + r)[j] == r[j - 1];
      } else {
        assert ([k] + r)[j] == r[j - 1] && r[j - 1] in r;
      }
    }
  }

  /** The first key of a strictly sorted sequence is below all its others. */
  lemma FirstBelowRest(r: seq<Str>)
    requires StrictlySorted(r) && r != []
    ensures forall x :: x in r[1..] ==> Less(r[0], x)
  {
    forall x | x in r[1..] ensures Less(r[0], x) {
      var i :| 0 <= i < |r[1..]| && r[1..][i] == x;
      assert r[i + 1] == x;
    }
  }

  /** A key put in its place in a strictly sorted sequence. */
  function Insert(r: seq<Str>, k: Str): (r': seq<Str>)
    requires StrictlySorted(r) && k !in r
    ensures StrictlySorted(r')
    ensures forall x :: x in r' <==> x in r || x == k
    decreases |r|
  {
    if r == [] then [k]
    else if Less(k, r[0]) then
      FirstBelowRest(r);
      assert forall x :: x in r ==> x == r[0] || x in r[1..];
      assert forall x :: x in r[1..] ==> Less(k, x) by {
        forall x | x in r[1..] ensures Less(k, x) {
          LessTransitive(k, r[0], x);
        }
      }
      SortedCons(k, r);
      [k] + r
    else
      LessTotal(k, r[0]);
      FirstBelowRest(r);
      var rest := Insert(r[1..], k);
      SortedCons(r[0], rest);
      assert forall x :: x in r ==> x == r[0] || x in r[1..];
      [r[0]] + rest
  }

  /** `sorted(keys)`: the keys of the cpio queue in increasing order. */
  method SortKeys(keys: set<Str>) returns (r: seq<Str>)
    ensures r == SortedKeys(keys)
  {
    r := [];
    var rest := keys;
    while rest != {}
      invariant rest <= keys
      invariant StrictlySorted(r)
      invariant forall x :: x in r <==> x in keys && x !in rest
      decreases |rest|
    {
      var k :| k in rest;
      r := Insert(r, k);
      rest := rest - {k};
    }
    SortedUnique(r, SortedKeys(keys));
  }

  /** One step of the check of a group, at index `i`. */
  lemma RecordStep(results: seq<FetchResult>, cached: Cached, bdeps: seq<BDep>, i: nat)
    requires i < |bdeps|
    ensures var b := bdeps[i];
            var found := FetchSpec.FindFetchResult(results, b);
            var fr := if found.Some? then found.value else FetchResult(b, cached(b), [], false);
            var rest := Record(if found.Some? then results else results + [fr], cached, bdeps[i + 1..]);
            Record(results, cached, bdeps[i..]) == Recorded(rest.results, (if cached(b) then [] else [fr]) + rest.missing)
  {
    assert bdeps[i..][1..] == bdeps[i + 1..];
  }

  /** The loop of `_calculate_fetchinfo` moves the next dependency to
      the list of those the cache has, or of those it misses. */
  lemma PartitionMoves(cached: Cached, rest: seq<BDep>, available: seq<BDep>, missing: seq<BDep>)
    requires rest != []
    ensures available + Present(cached, rest)
            == (if cached(rest[0]) then available + [rest[0]] else available) + Present(cached, rest[1..])
    ensures missing + Absent(cached, rest)
            == (if cached(rest[0]) then missing else missing + [rest[0]]) + Absent(cached, rest[1..])
  {
    ConcatAssoc(available, [rest[0]], Present(cached, rest[1..]));
    ConcatAssoc(missing, [rest[0]], Absent(cached, rest[1..]));
    ConcatEmpty(Present(cached, rest[1..]));
    ConcatEmpty(Absent(cached, rest[1..]));
  }

  /** The request of a group grows by one dependency at a time. */
  lemma RequestGrows(package: Str, bdeps: seq<BDep>, i: nat)
    requires i < |bdeps|
    ensures Binaries(package, bdeps[..i + 1]) == Binaries(package, bdeps[..i]) + [BinaryName(package, bdeps[i])]
    ensures EntryMap(package, bdeps[..i + 1]) == EntryMap(package, bdeps[..i])[EntryName(package, bdeps[i]) := bdeps[i]]
  {
    assert bdeps[..i + 1][..i] == bdeps[..i];
  }

  /** The loop of the check of a group handles one dependency. */
  lemma RecordMoves(start: seq<FetchResult>, cached: Cached, bdeps: seq<BDep>, i: nat,
                    results: seq<FetchResult>, missing: seq<FetchResult>)
    requires i < |bdeps|
    requires var rest := Record(results, cached, bdeps[i..]);
             Record(start, cached, bdeps) == Recorded(rest.results, missing + rest.missing)
    ensures var b := bdeps[i];
            var found := FetchSpec.FindFetchResult(results, b);
            var fr := if found.Some? then found.value else FetchResult(b, cached(b), [], false);
            var results' := if found.Some? then results else results + [fr];
            var missing' := if cached(b) then missing else missing + [fr];
            var rest := Record(results', cached, bdeps[i + 1..]);
            Record(start, cached, bdeps) == Recorded(rest.results, missing' + rest.missing)
  {
    RecordStep(results, cached, bdeps, i);
    var b := bdeps[i];
    var found := FetchSpec.FindFetchResult(results, b);
    var fr := if found.Some? then found.value else FetchResult(b, cached(b), [], false);
    var results' := if found.Some? then results else results + [fr];
    var rest := Record(results', cached, bdeps[i + 1..]);
    if cached(b) {
      ConcatEmpty(rest.missing);
    } else {
      ConcatAssoc(missing, [fr], rest.missing);
    }
  }

  class BuildDependencyFetcher {
    const cmgr: CacheManager
    const urlBuilders: seq<UrlBuilder>
    var fetchResults: seq<FetchResult>
    var cpioTodo: map<Str, seq<BDep>>

    /** A fetcher over a cache manager; `_download_url_builder` comes after
        the given URL builders. */
    constructor(cmgr: CacheManager, urlBuilders: seq<UrlBuilder>)
      ensures this.cmgr == cmgr && this.urlBuilders == urlBuilders + [DownloadUrlBuilder]
      ensures fetchResults == [] && cpioTodo == map[]
    {
      this.cmgr := cmgr;
      this.urlBuilders := urlBuilders + [DownloadUrlBuilder];
      fetchResults := [];
      cpioTodo := map[];
    }

    /** `_append_cpio(arch, bdep)`: the dependency joins the group of its
        key. */
    method AppendCpio(arch: Str, bdep: BDep)
      modifies this
      ensures cpioTodo == Enqueue(old(cpioTodo), CpioKey(arch, bdep), bdep)
      ensures fetchResults == old(fetchResults)
    {
      var key := bdep.project + "/" + bdep.repository + "/" + OrElse(bdep.repoarch, arch) + "/"
                 + OrElse(bdep.package, Repository);
      var group := if key in cpioTodo then cpioTodo[key] else [];
      cpioTodo := cpioTodo[key := group + [bdep]];
    }

    /** `_calculate_fetchinfo(binfo)`: the dependencies split, in order,
        into those the cache has and those it misses. */
    method CalculateFetchinfo(bdeps: seq<BDep>) returns (available: seq<BDep>, missing: seq<BDep>)
      ensures available == Present(CachedIn(cmgr.View()), bdeps)
      ensures missing == Absent(CachedIn(cmgr.View()), bdeps)
    {
      ghost var cached := CachedIn(cmgr.View());
      available, missing := [], [];
      var rest := bdeps;
      ConcatEmpty(Present(cached, bdeps));
      ConcatEmpty(Absent(cached, bdeps));
      while rest != []
        invariant Present(cached, bdeps) == available + Present(cached, rest)
        invariant Absent(cached, bdeps) == missing + Absent(cached, rest)
      {
        var b := rest[0];
        PartitionMoves(cached, rest, available, missing);
        if cmgr.Exists(b) {
          available := available + [b];
        } else {
          missing := missing + [b];
        }
        rest := rest[1..];
      }
      ConcatEmpty(available);
      ConcatEmpty(missing);
    }

    /** `find_fetch_result(bdep)`: the first result for the dependency. */
    method FindFetchResult(bdep: BDep) returns (r: Option<FetchResult>)
      ensures r == FetchSpec.FindFetchResult(fetchResults, bdep)
    {
      var i := 0;
      while i < |fetchResults|
        invariant 0 <= i <= |fetchResults|
        invariant FetchSpec.FindFetchResult(fetchResults, bdep) == FetchSpec.FindFetchResult(fetchResults[i..], bdep)
      {
        assert fetchResults[i..][1..] == fetchResults[i + 1..];
        if fetchResults[i].bdep == bdep {
          return Some(fetchResults[i]);
        }
        i := i + 1;
      }
      r := None;
    }

    /** The mirror pool of `_fetch`: the components of each URL builder in
        turn, kept when none is `None`. */
    method MirrorPoolOf(binfo: BuildInfo, bdep: BDep) returns (pool: seq<Mirror>)
      ensures pool == MirrorPool(urlBuilders, binfo, bdep)
    {
      pool := [];
      var i := 0;
      while i < |urlBuilders|
        invariant 0 <= i <= |urlBuilders|
        invariant pool == MirrorPool(urlBuilders[..i], binfo, bdep)
      {
        var c := urlBuilders[i](binfo, bdep);
        assert urlBuilders[..i + 1][..i] == urlBuilders[..i];
        if c.host.Some? && c.path.Some? && c.query.Some? {
          pool := pool + [Mirror(c.host.value, c.path.value, c.query.value)];
        }
        i := i + 1;
      }
      assert urlBuilders[..i] == urlBuilders;
    }

    /** `_fetch(binfo, bdep)`: the mirror group is asked to open the
        dependency; what opens is written to the cache, whose `ValueError`
        is returned as the failure. */
    method FetchOne(binfo: BuildInfo, bdep: BDep, opens: Opener) returns (fr: FetchResult, failure: Option<Error>)
      modifies cmgr
      ensures var f := MirrorFetch(old(cmgr.View()), urlBuilders, binfo, bdep, opens);
              fr == f.result && failure == f.failure && cmgr.files == f.files
      ensures cmgr.prefers == old(cmgr.prefers)
    {
      var pool := MirrorPoolOf(binfo, bdep);
      var mgroup := new CustomMirrorGroup(pool);
      var f := mgroup.Urlopen(map[], opens);
      if f.None? {
        return FetchResult(bdep, false, mgroup.usedMirrorUrls, false), None;
      }
      var w := cmgr.Write(bdep);
      fr := FetchResult(bdep, true, mgroup.usedMirrorUrls, true);
      failure := if w.ValueError? then Some(Error.ValueError(w.msg)) else None;
    }

    /** The request of one group: the `binary` list and `cpio_bdep`. */
    method BinaryRequest(package: Str, bdeps: seq<BDep>) returns (binary: seq<Str>, cpioBdep: map<Str, BDep>)
      ensures binary == Binaries(package, bdeps)
      ensures cpioBdep == EntryMap(package, bdeps)
    {
      binary, cpioBdep := [], map[];
      var i := 0;
      while i < |bdeps|
        invariant 0 <= i <= |bdeps|
        invariant binary == Binaries(package, bdeps[..i])
        invariant cpioBdep == EntryMap(package, bdeps[..i])
      {
        var b := bdeps[i];
        RequestGrows(package, bdeps, i);
        binary := binary + [BinaryName(package, b)];
        cpioBdep := cpioBdep[EntryName(package, b) := b];
        i := i + 1;
      }
      assert bdeps[..i] == bdeps;
    }

    /** The loop over the archive of one group: `.errors` text is added to
        `errors`, every other entry is written to the cache. */
    method WriteArchive(errors: Str, entries: seq<ArchiveFile>, cpioBdep: map<Str, BDep>)
      returns (errorsOut: Str, failure: Option<Error>)
      modifies cmgr
      ensures ArchiveWrite(old(cmgr.files), PathsOf(old(cmgr.View())), errors, entries, cpioBdep)
              == Written(cmgr.files, errorsOut, failure)
      ensures cmgr.prefers == old(cmgr.prefers)
    {
      ghost var path := PathsOf(cmgr.View());
      errorsOut := errors;
      var i := 0;
      while i < |entries|
        invariant 0 <= i <= |entries|
        invariant cmgr.prefers == old(cmgr.prefers)
        invariant ArchiveWrite(old(cmgr.files), path, errors, entries, cpioBdep)
                  == ArchiveWrite(cmgr.files, path, errorsOut, entries[i..], cpioBdep)
      {
        var e := entries[i];
        assert entries[i..][1..] == entries[i + 1..];
        if e.name == ErrorsEntry {
          errorsOut := errorsOut + ErrorLine(e);
        } else {
          if e.name !in cpioBdep {
            return errorsOut, Some(KeyError(e.name));
          }
          var w := cmgr.Write(cpioBdep[e.name]);
          if w.ValueError? {
            return errorsOut, Some(Error.ValueError(w.msg));
          }
        }
        i := i + 1;
      }
      failure := None;
    }

    /** The check of one group after its archive was written: every
        dependency without a result gets one, and the results of the
        dependencies not in the cache are missing. */
    method CheckGroup(bdeps: seq<BDep>) returns (groupMissing: seq<FetchResult>)
      modifies this
      ensures Record(old(fetchResults), CachedIn(cmgr.View()), bdeps) == Recorded(fetchResults, groupMissing)
      ensures cpioTodo == old(cpioTodo)
    {
      ghost var cached := CachedIn(cmgr.View());
      groupMissing := [];
      var i := 0;
      while i < |bdeps|
        invariant 0 <= i <= |bdeps|
        invariant cpioTodo == old(cpioTodo)
        invariant var rest := Record(fetchResults, cached, bdeps[i..]);
                  Record(old(fetchResults), cached, bdeps) == Recorded(rest.results, groupMissing + rest.missing)
      {
        var b := bdeps[i];
        RecordMoves(old(fetchResults), cached, bdeps, i, fetchResults, groupMissing);
        var present := cmgr.Exists(b);
        var found := FindFetchResult(b);
        var fr := if found.Some? then found.value else FetchResult(b, present, [], false);
        if found.None? {
          fetchResults := fetchResults + [fr];
        }
        if !present {
          groupMissing := groupMissing + [fr];
        }
        i := i + 1;
      }
    }

    /** One group of `_fetch_cpio`: the key is unpacked, the archive of the
        group is requested and written, and the group is checked. */
    method FetchGroup(key: Str, bdeps: seq<BDep>, errors: Str, archives: Archives)
      returns (errorsOut: Str, groupMissing: seq<FetchResult>, failure: Option<Error>)
      modifies this, cmgr
      ensures var g := GroupStep(old(cmgr.View()), old(fetchResults), errors, bdeps, key, archives);
              cmgr.files == g.files && fetchResults == g.results && errorsOut == g.errors
              && groupMissing == g.missing && failure == g.failure
      ensures cmgr.prefers == old(cmgr.prefers) && cpioTodo == old(cpioTodo)
    {
      var parts := Split(key, '/');
      if |parts| != 4 {
        return errors, [], Some(Error.ValueError(UnpackMessage(|parts|)));
      }
      var package := parts[3];
      var binary, cpioBdep := BinaryRequest(package, bdeps);
      var archive := archives(BinaryList(parts[0], package, parts[1], parts[2], binary));
      errorsOut, failure := WriteArchive(errors, archive, cpioBdep);
      if failure.Some? {
        return errorsOut, [], failure;
      }
      groupMissing := CheckGroup(bdeps);
    }

    /** `_fetch_cpio(defer_error)`: the groups in sorted key order, until a
        group fails or, unless `deferError`, a group leaves dependencies
        missing; then the outcome. */
    method FetchCpio(deferError: bool, archives: Archives) returns (outcome: Outcome)
      modifies this, cmgr
      ensures var s := Run(old(cmgr.View()), old(fetchResults), [], [], [], SortedKeys(old(cpioTodo).Keys),
                           StepWith(old(cpioTodo), archives), deferError);
              outcome == CpioOutcome(s) && cmgr.files == s.files && fetchResults == s.results
      ensures cmgr.prefers == old(cmgr.prefers) && cpioTodo == old(cpioTodo)
    {
      var keys := SortKeys(cpioTodo.Keys);
      ghost var step := StepWith(cpioTodo, archives);
      ghost var spec := Run(cmgr.View(), fetchResults, [], [], [], keys, step, deferError);
      ghost var groups: seq<seq<FetchResult>> := [];
      var errors: Str := [];
      var missing: seq<FetchResult> := [];
      var stop := false;
      var i := 0;
      while i < |keys| && !stop
        invariant 0 <= i <= |keys|
        invariant cmgr.prefers == old(cmgr.prefers) && cpioTodo == old(cpioTodo)
        invariant !stop ==> spec == Run(cmgr.View(), fetchResults, errors, missing, groups, keys[i..], step, deferError)
        invariant stop ==> spec == RunState(cmgr.files, fetchResults, errors, missing, None, groups)
      {
        var key := keys[i];
        assert keys[i..][1..] == keys[i + 1..];
        assert Group(cpioTodo, key) == cpioTodo[key];
        var errors', groupMissing, failure := FetchGroup(key, cpioTodo[key], errors, archives);
        if failure.Some? {
          return Failure(failure.value);
        }
        errors := errors';
        missing := missing + groupMissing;
        groups := groups + [groupMissing];
        stop := missing != [] && !deferError;
        i := i + 1;
      }
      if missing != [] {
        return Failure(BuildDependencyFetchError(missing, Strip(errors)));
      }
      outcome := Success;
    }

    /** `fetch(binfo, defer_error, use_mirrors)`: every dependency missing
        from the cache is fetched from the mirrors when `useMirrors`, and
        queued for the API when no mirror has it (all of them without
        mirrors); then the queue is fetched from the API. */
    method Fetch(binfo: BuildInfo, deferError: bool, useMirrors: bool, opens: Opener, archives: Archives)
      returns (outcome: Outcome)
      modifies this, cmgr
      ensures var q := QueueMissing(old(cmgr.View()), old(fetchResults), old(cpioTodo), binfo.arch,
                                    Absent(CachedIn(old(cmgr.View())), binfo.bdeps), useMirrors,
                                    FetchWith(urlBuilders, binfo, opens));
              q.failure.Some? ==>
                outcome == Failure(q.failure.value) && cmgr.files == q.files && fetchResults == q.results
                && cpioTodo == q.todo
      ensures var q := QueueMissing(old(cmgr.View()), old(fetchResults), old(cpioTodo), binfo.arch,
                                    Absent(CachedIn(old(cmgr.View())), binfo.bdeps), useMirrors,
                                    FetchWith(urlBuilders, binfo, opens));
              q.failure.None? ==>
                var s := Run(CacheView(cmgr.root, old(cmgr.prefers), q.files), q.results, [], [], [],
                             SortedKeys(q.todo.Keys), StepWith(q.todo, archives), deferError);
                outcome == CpioOutcome(s) && cmgr.files == s.files && fetchResults == s.results
                && cpioTodo == q.todo
      ensures cmgr.prefers == old(cmgr.prefers)
    {
      var available, missing := CalculateFetchinfo(binfo.bdeps);
      ghost var fetch := FetchWith(urlBuilders, binfo, opens);
      ghost var spec := QueueMissing(cmgr.View(), fetchResults, cpioTodo, binfo.arch, missing, useMirrors, fetch);
      var i := 0;
      while i < |missing|
        invariant 0 <= i <= |missing|
        invariant cmgr.prefers == old(cmgr.prefers)
        invariant spec == QueueMissing(cmgr.View(), fetchResults, cpioTodo, binfo.arch, missing[i..], useMirrors, fetch)
      {
        var b := missing[i];
        assert missing[i..][1..] == missing[i + 1..];
        QueuePop(cmgr.View(), fetchResults, cpioTodo, binfo.arch, missing[i..], useMirrors, fetch,
                 MirrorFetch(cmgr.View(), urlBuilders, binfo, b, opens));
        if useMirrors {
          var fr, failure := FetchOne(binfo, b, opens);
          if failure.Some? {
            return Failure(failure.value);
          }
          fetchResults := fetchResults + [fr];
          if !fr.available {
            AppendCpio(binfo.arch, b);
          }
        } else {
          AppendCpio(binfo.arch, b);
        }
        i := i + 1;
      }
      outcome := FetchCpio(deferError, archives);
    }
  }

  /** A fetch over a cache that holds every dependency: nothing is
      fetched, nothing is written or queued, and it succeeds. */
  method FetchAllCached(root: Str, prefers: map<Str, Str>, files: set<Str>, builders: seq<UrlBuilder>,
                        binfo: BuildInfo, deferError: bool, useMirrors: bool, opens: Opener, archives: Archives)
    returns (outcome: Outcome, filesAfter: set<Str>, results: seq<FetchResult>)
    requires StartsWith(root, "/")
    requires forall i :: 0 <= i < |binfo.bdeps| ==> CalculateFilename(root, prefers, binfo.bdeps[i]) in files
    ensures outcome == Success
    ensures filesAfter == files && results == []
  {
    var cmgr := new CacheManager(root, prefers, files);
    var fetcher := new BuildDependencyFetcher(cmgr, builders);
    AllCached(CachedIn(cmgr.View()), binfo.bdeps);
    outcome := fetcher.Fetch(binfo, deferError, useMirrors, opens, archives);
    filesAfter := cmgr.files;
    results := fetcher.fetchResults;
  }
}
