/** The bookkeeping of `BuildDependencyFetcher` (osc2/fetch.py) as
    functions of values: the cpio download queue, the split of the build
    dependencies by cache membership, the search for a fetch result, the
    fetch from the mirrors, and the download of the cpio groups.  The
    server is abstract: an opener predicate for the mirrors and a function
    giving the cpio archive the API returns for a `binarylist` request. */
module FetchSpec {
  import opened PyStr
  import opened FetchCache
  import opened FetchMirror

  /** `FetchResult(bdep, available, mirror_urls, mirror_match)`. */
  datatype FetchResult = FetchResult(bdep: BDep, available: bool, mirrorUrls: seq<MirrorUrl>, mirrorMatch: bool)

  /** A file of a cpio archive: its header name and its content. */
  datatype ArchiveFile = ArchiveFile(name: Str, content: Str)

  /** `BuildResult(project, package, repo, arch).binarylist(view='cpio',
      binary=binary)`: the request for a cpio archive. */
  datatype BinaryList = BinaryList(project: Str, package: Str, repository: Str, arch: Str, binary: seq<Str>)

  /** The archive the server sends for each request. */
  type Archives = BinaryList -> seq<ArchiveFile>

  /** The exceptions the fetcher raises or lets through. */
  datatype Error =
    | ValueError(msg: Str)
    | KeyError(key: Str)
    | BuildDependencyFetchError(bdeps: seq<FetchResult>, errors: Str)

  /** How a call ends: normally, or with an exception. */
  datatype Outcome = Success | Failure(error: Error)

  // ---------------------------------------------------------------------
  // _append_cpio

  const Repository: Str := "_repository"

  /** `bdep.get(attr, default)` for an attribute that may be absent. */
  function OrElse(o: Option<Str>, default: Str): (r: Str)
    ensures o.Some? ==> r == o.value
    ensures o.None? ==> r == default
  {
    if o.Some? then o.value else default
  }

  /** The key a dependency is queued under:
      `project/repository/(repoarch or arch)/(package or _repository)`. */
  function CpioKey(arch: Str, bdep: BDep): Str
  {
    bdep.project + "/" + bdep.repository + "/" + OrElse(bdep.repoarch, arch) + "/" + OrElse(bdep.package, Repository)
  }

  /** When no part contains `'/'`, splitting the key at `'/'` gives back
      the four parts, in the order `_fetch_cpio` unpacks them. */
  lemma CpioKeySplit(arch: Str, bdep: BDep)
    requires '/' !in bdep.project && '/' !in bdep.repository
    requires '/' !in OrElse(bdep.repoarch, arch) && '/' !in OrElse(bdep.package, Repository)
    ensures Split(CpioKey(arch, bdep), '/')
            == [bdep.project, bdep.repository, OrElse(bdep.repoarch, arch), OrElse(bdep.package, Repository)]
  {
    var parts := [bdep.project, bdep.repository, OrElse(bdep.repoarch, arch), OrElse(bdep.package, Repository)];
    assert "/" == ['/'];
    Join4("/", parts[0], parts[1], parts[2], parts[3]);
    SplitJoin(parts, '/');
  }

  /** The group queued under a key (`[]` when there is none). */
  function Group(todo: map<Str, seq<BDep>>, key: Str): seq<BDep>
  {
    if key in todo then todo[key] else []
  }

  /** `self._cpio_todo.setdefault(key, []).append(bdep)`. */
  function Enqueue(todo: map<Str, seq<BDep>>, key: Str, bdep: BDep): (t: map<Str, seq<BDep>>)
    ensures t.Keys == todo.Keys + {key}
    ensures Group(t, key) == Group(todo, key) + [bdep]
    ensures forall k :: k != key ==> Group(t, k) == Group(todo, k)
  {
    todo[key := Group(todo, key) + [bdep]]
  }

  /** `_append_cpio(arch, b)` for each dependency in turn. */
  function Queued(todo: map<Str, seq<BDep>>, arch: Str, bdeps: seq<BDep>): map<Str, seq<BDep>>
    decreases |bdeps|
  {
    if bdeps == [] then todo
    else Queued(Enqueue(todo, CpioKey(arch, bdeps[0]), bdeps[0]), arch, bdeps[1..])
  }

  /** The dependencies whose key is `key`, in order. */
  function WithKey(arch: Str, key: Str, bdeps: seq<BDep>): (r: seq<BDep>)
    ensures forall i :: 0 <= i < |r| ==> CpioKey(arch, r[i]) == key
    decreases |bdeps|
  {
    if bdeps == [] then []
    else (if CpioKey(arch, bdeps[0]) == key then [bdeps[0]] else []) + WithKey(arch, key, bdeps[1..])
  }

  /** Queuing groups the dependencies by key and keeps their order inside
      each group, after what the group already held. */
  lemma {:induction false} QueuedGroups(todo: map<Str, seq<BDep>>, arch: Str, bdeps: seq<BDep>, key: Str)
    ensures Group(Queued(todo, arch, bdeps), key) == Group(todo, key) + WithKey(arch, key, bdeps)
    decreases |bdeps|
  {
    if bdeps != [] {
      var t := Enqueue(todo, CpioKey(arch, bdeps[0]), bdeps[0]);
      QueuedGroups(t, arch, bdeps[1..], key);
      var here := if CpioKey(arch, bdeps[0]) == key then [bdeps[0]] else [];
      assert Queued(todo, arch, bdeps) == Queued(t, arch, bdeps[1..]);
      assert Group(t, key) == Group(todo, key) + here;
      assert WithKey(arch, key, bdeps) == here + WithKey(arch, key, bdeps[1..]);
      ConcatAssoc(Group(todo, key), here, WithKey(arch, key, bdeps[1..]));
    }
  }

  /** A key is queued after queuing exactly when it was before or some
      queued dependency has it. */
  lemma {:induction false} QueuedKeys(todo: map<Str, seq<BDep>>, arch: Str, bdeps: seq<BDep>, key: Str)
    ensures key in Queued(todo, arch, bdeps) <==> key in todo || WithKey(arch, key, bdeps) != []
    decreases |bdeps|
  {
    if bdeps != [] {
      var t := Enqueue(todo, CpioKey(arch, bdeps[0]), bdeps[0]);
      QueuedKeys(t, arch, bdeps[1..], key);
      assert Queued(todo, arch, bdeps) == Queued(t, arch, bdeps[1..]);
      var here := if CpioKey(arch, bdeps[0]) == key then [bdeps[0]] else [];
      assert WithKey(arch, key, bdeps) == here + WithKey(arch, key, bdeps[1..]);
    }
  }

  // ---------------------------------------------------------------------
  // _calculate_fetchinfo

  /** Whether a dependency is in the cache, as `exists(bdep)` answers. */
  type Cached = BDep -> bool

  /** The answers of a cache in a given state. */
  function CachedIn(v: CacheView): (cached: Cached)
    ensures forall b :: cached(b) == InCache(v, b)
  {
    b => InCache(v, b)
  }

  /** The dependencies present in the cache, in order. */
  function Present(cached: Cached, bdeps: seq<BDep>): (r: seq<BDep>)
    ensures forall i :: 0 <= i < |r| ==> cached(r[i])
    decreases |bdeps|
  {
    if bdeps == [] then []
    else (if cached(bdeps[0]) then [bdeps[0]] else []) + Present(cached, bdeps[1..])
  }

  /** The dependencies missing from the cache, in order. */
  function Absent(cached: Cached, bdeps: seq<BDep>): (r: seq<BDep>)
    ensures forall i :: 0 <= i < |r| ==> !cached(r[i])
    decreases |bdeps|
  {
    if bdeps == [] then []
    else (if cached(bdeps[0]) then [] else [bdeps[0]]) + Absent(cached, bdeps[1..])
  }

  /** Every dependency lands in exactly one of the two lists. */
  lemma {:induction false} PartitionPermutes(cached: Cached, bdeps: seq<BDep>)
    ensures multiset(Present(cached, bdeps)) + multiset(Absent(cached, bdeps)) == multiset(bdeps)
    decreases |bdeps|
  {
    if bdeps != [] {
      PartitionPermutes(cached, bdeps[1..]);
      assert bdeps == [bdeps[0]] + bdeps[1..];
    }
  }

  /** When the cache has every dependency, none is missing. */
  lemma {:induction false} AllCached(cached: Cached, bdeps: seq<BDep>)
    requires forall i :: 0 <= i < |bdeps| ==> cached(bdeps[i])
    ensures Present(cached, bdeps) == bdeps
    ensures Absent(cached, bdeps) == []
    decreases |bdeps|
  {
    if bdeps != [] {
      assert forall i :: 0 <= i < |bdeps[1..]| ==> bdeps[1..][i] == bdeps[i + 1];
      AllCached(cached, bdeps[1..]);
      assert bdeps == [bdeps[0]] + bdeps[1..];
    }
  }

  // ---------------------------------------------------------------------
  // find_fetch_result

  /** `find_fetch_result(bdep)`: the first result for the dependency. */
  function FindFetchResult(results: seq<FetchResult>, bdep: BDep): (r: Option<FetchResult>)
    ensures r.None? <==> forall i :: 0 <= i < |results| ==> results[i].bdep != bdep
    ensures r.Some? ==> r.value.bdep == bdep
    decreases |results|
  {
    if results == [] then None
    else if results[0].bdep == bdep then Some(results[0])
    else FindFetchResult(results[1..], bdep)
  }

  /** The result found is the first one for the dependency. */
  lemma {:induction false} FindFetchResultFirst(results: seq<FetchResult>, bdep: BDep)
    requires FindFetchResult(results, bdep).Some?
    ensures exists i :: 0 <= i < |results| && results[i] == FindFetchResult(results, bdep).value
                        && forall j :: 0 <= j < i ==> results[j].bdep != bdep
    decreases |results|
  {
    if results[0].bdep != bdep {
      FindFetchResultFirst(results[1..], bdep);
      var i :| 0 <= i < |results[1..]| && results[1..][i] == FindFetchResult(results, bdep).value
               && forall j :: 0 <= j < i ==> results[1..][j].bdep != bdep;
      assert results[i + 1] == FindFetchResult(results, bdep).value;
      assert forall j :: 1 <= j < i + 1 ==> results[j].bdep == results[1..][j - 1].bdep;
    } else {
      assert results[0] == FindFetchResult(results, bdep).value;
    }
  }

  /** Appending results keeps the answer for a dependency that already
      had one. */
  lemma {:induction false} FindAfterAppend(results: seq<FetchResult>, more: seq<FetchResult>, bdep: BDep)
    requires FindFetchResult(results, bdep).Some?
    ensures FindFetchResult(results + more, bdep) == FindFetchResult(results, bdep)
    decreases |results|
  {
    if results[0].bdep != bdep {
      assert (results + more)[1..] == results[1..] + more;
      FindAfterAppend(results[1..], more, bdep);
    }
  }

  /** A dependency without a result finds the one appended for it. */
  lemma {:induction false} FindAppended(results: seq<FetchResult>, fr: FetchResult)
    requires FindFetchResult(results, fr.bdep).None?
    ensures FindFetchResult(results + [fr], fr.bdep) == Some(fr)
    decreases |results|
  {
    if results != [] {
      assert (results + [fr])[1..] == results[1..] + [fr];
      FindAppended(results[1..], fr);
    }
  }

  // ---------------------------------------------------------------------
  // _fetch

  /** What `_fetch` leaves: the cache's files, the fetch result, and the
      exception of the cache write, if any. */
  datatype Fetched = Fetched(files: set<Str>, result: FetchResult, failure: Option<Error>)

  /** `_fetch(binfo, bdep)`: the mirror group over the pool of the URL
      builders is asked to open the dependency; what opens is written to
      the cache. */
  function MirrorFetch(v: CacheView, builders: seq<UrlBuilder>, binfo: BuildInfo, bdep: BDep, opens: Opener): (f: Fetched)
    ensures var pool := MirrorPool(builders, binfo, bdep);
            && f.result.bdep == bdep
            && f.result.available == f.result.mirrorMatch == FirstOpened(pool, map[], opens).Some?
            && f.result.mirrorUrls == UrlsOf(pool[..Tried(pool, map[], opens)])
            && (!f.result.available ==> |f.result.mirrorUrls| == |pool| && f.files == v.files && f.failure.None?)
            && (f.result.available ==> f.failure.None? == !InCache(v, bdep))
            && (f.result.available && f.failure.None? ==> f.files == v.files + {PathIn(v, bdep)})
            && (f.failure.Some? ==> f.files == v.files)
  {
    var pool := MirrorPool(builders, binfo, bdep);
    var used := UrlsOf(pool[..Tried(pool, map[], opens)]);
    if FirstOpened(pool, map[], opens).None? then Fetched(v.files, FetchResult(bdep, false, used, false), None)
    else if InCache(v, bdep) then Fetched(v.files, FetchResult(bdep, true, used, true), Some(Error.ValueError(PresentMessage(bdep))))
    else Fetched(v.files + {PathIn(v, bdep)}, FetchResult(bdep, true, used, true), None)
  }

  // ---------------------------------------------------------------------
  // fetch: the loop over the missing dependencies

  /** The fetch of one dependency from a cache state, as `_fetch` does it. */
  type Fetch = (CacheView, BDep) -> Fetched

  /** `_fetch` with the fetcher's URL builders, build info and server. */
  function FetchWith(builders: seq<UrlBuilder>, binfo: BuildInfo, opens: Opener): (fetch: Fetch)
    ensures forall w, b :: fetch(w, b) == MirrorFetch(w, builders, binfo, b, opens)
  {
    (w, b) => MirrorFetch(w, builders, binfo, b, opens)
  }

  /** A fetch that reports on the dependency it was given. */
  ghost predicate ReportsOn(fetch: Fetch)
  {
    forall w, b :: fetch(w, b).result.bdep == b
  }

  lemma MirrorFetchReportsOn(builders: seq<UrlBuilder>, binfo: BuildInfo, opens: Opener)
    ensures ReportsOn(FetchWith(builders, binfo, opens))
  {
  }

  /** The fetcher's state after the loop of `fetch`. */
  datatype Queue = Queue(files: set<Str>, results: seq<FetchResult>, todo: map<Str, seq<BDep>>, failure: Option<Error>)

  /** The loop of `fetch` over the missing dependencies: with mirrors,
      each is fetched, its result recorded, and it is queued for the cpio
      download when no mirror had it; without mirrors each is queued. */
  function QueueMissing(v: CacheView, results: seq<FetchResult>, todo: map<Str, seq<BDep>>, arch: Str,
                        missing: seq<BDep>, useMirrors: bool, fetch: Fetch): (q: Queue)
    ensures q.failure.None? ==> |results| <= |q.results| && q.results[..|results|] == results
    decreases |missing|
  {
    if missing == [] then Queue(v.files, results, todo, None)
    else
      var b := missing[0];
      if !useMirrors then
        QueueMissing(v, results, Enqueue(todo, CpioKey(arch, b), b), arch, missing[1..], useMirrors, fetch)
      else
        var f := fetch(v, b);
        if f.failure.Some? then Queue(f.files, results, todo, f.failure)
        else
          var todo' := if f.result.available then todo else Enqueue(todo, CpioKey(arch, b), b);
          var q := QueueMissing(v.(files := f.files), results + [f.result], todo', arch, missing[1..], useMirrors, fetch);
          assert q.failure.None? ==> q.results[..|results|] == (q.results[..|results| + 1])[..|results|];
          q
  }

  /** One turn of the loop of `fetch`, for the first missing dependency. */
  lemma QueuePop(v: CacheView, results: seq<FetchResult>, todo: map<Str, seq<BDep>>, arch: Str,
                 missing: seq<BDep>, useMirrors: bool, fetch: Fetch, f: Fetched)
    requires missing != [] && f == fetch(v, missing[0])
    ensures !useMirrors ==>
              QueueMissing(v, results, todo, arch, missing, useMirrors, fetch)
              == QueueMissing(v, results, Enqueue(todo, CpioKey(arch, missing[0]), missing[0]), arch, missing[1..], useMirrors, fetch)
    ensures useMirrors && f.failure.Some? ==>
              QueueMissing(v, results, todo, arch, missing, useMirrors, fetch) == Queue(f.files, results, todo, f.failure)
    ensures useMirrors && f.failure.None? && f.result.available ==>
              QueueMissing(v, results, todo, arch, missing, useMirrors, fetch)
              == QueueMissing(v.(files := f.files), results + [f.result], todo, arch, missing[1..], useMirrors, fetch)
    ensures useMirrors && f.failure.None? && !f.result.available ==>
              QueueMissing(v, results, todo, arch, missing, useMirrors, fetch)
              == QueueMissing(v.(files := f.files), results + [f.result], Enqueue(todo, CpioKey(arch, missing[0]), missing[0]),
                              arch, missing[1..], useMirrors, fetch)
  {
  }

  /** The dependencies of the results that are not available, in order. */
  function Unavailable(results: seq<FetchResult>): (r: seq<BDep>)
    ensures |r| <= |results|
    decreases |results|
  {
    if results == [] then []
    else (if results[0].available then [] else [results[0].bdep]) + Unavailable(results[1..])
  }

  /** Without mirrors the results stay as they are and every missing
      dependency is queued, in order. */
  lemma {:induction false} QueueWithoutMirrors(v: CacheView, results: seq<FetchResult>, todo: map<Str, seq<BDep>>,
                                               arch: Str, missing: seq<BDep>, fetch: Fetch)
    ensures QueueMissing(v, results, todo, arch, missing, false, fetch)
            == Queue(v.files, results, Queued(todo, arch, missing), None)
    decreases |missing|
  {
    if missing != [] {
      QueueWithoutMirrors(v, results, Enqueue(todo, CpioKey(arch, missing[0]), missing[0]), arch, missing[1..], fetch);
    }
  }

  /** With mirrors and no failing cache write, every missing dependency
      gets exactly one new result, in order. */
  lemma {:induction false} QueueResults(v: CacheView, results: seq<FetchResult>, todo: map<Str, seq<BDep>>,
                                        arch: Str, missing: seq<BDep>, fetch: Fetch)
    requires ReportsOn(fetch)
    ensures var q := QueueMissing(v, results, todo, arch, missing, true, fetch);
            q.failure.None? ==>
              && |q.results| == |results| + |missing|
              && forall i :: 0 <= i < |missing| ==> q.results[|results| + i].bdep == missing[i]
    decreases |missing|
  {
    if missing != [] {
      var b := missing[0];
      var f := fetch(v, b);
      if f.failure.None? {
        var todo' := if f.result.available then todo else Enqueue(todo, CpioKey(arch, b), b);
        var results' := results + [f.result];
        QueueResults(v.(files := f.files), results', todo', arch, missing[1..], fetch);
        QueueResultsStep(results, f.result, missing,
                         QueueMissing(v.(files := f.files), results', todo', arch, missing[1..], true, fetch));
      }
    }
  }

  /** The step of `QueueResults` past one fetched dependency. */
  lemma QueueResultsStep(results: seq<FetchResult>, fr: FetchResult, missing: seq<BDep>, q: Queue)
    requires missing != [] && fr.bdep == missing[0]
    requires q.failure.None? ==> |results + [fr]| <= |q.results| && q.results[..|results + [fr]|] == results + [fr]
    requires q.failure.None? ==>
               && |q.results| == |results + [fr]| + |missing[1..]|
               && forall i :: 0 <= i < |missing[1..]| ==> q.results[|results + [fr]| + i].bdep == missing[1..][i]
    ensures q.failure.None? ==>
              && |q.results| == |results| + |missing|
              && forall i :: 0 <= i < |missing| ==> q.results[|results| + i].bdep == missing[i]
  {
    if q.failure.None? {
      QueueResultsTail(results, fr, missing, q.results);
    }
  }

  lemma QueueResultsTail(results: seq<FetchResult>, fr: FetchResult, missing: seq<BDep>, all: seq<FetchResult>)
    requires missing != [] && fr.bdep == missing[0]
    requires |results| + 1 <= |all| && all[..|results| + 1] == results + [fr]
    requires |all| == |results| + 1 + |missing[1..]|
    requires forall i :: 0 <= i < |missing[1..]| ==> all[|results| + 1 + i].bdep == missing[1..][i]
    ensures |all| == |results| + |missing|
    ensures forall i :: 0 <= i < |missing| ==> all[|results| + i].bdep == missing[i]
  {
    assert all[|results|] == all[..|results| + 1][|results|];
    forall i | 1 <= i < |missing| ensures all[|results| + i].bdep == missing[i] {
      assert all[|results| + 1 + (i - 1)].bdep == missing[1..][i - 1];
    }
  }

  /** With mirrors and no failing cache write, exactly the dependencies
      whose new result is not available are queued, in order. */
  lemma {:induction false} QueueTodo(v: CacheView, results: seq<FetchResult>, todo: map<Str, seq<BDep>>,
                                     arch: Str, missing: seq<BDep>, fetch: Fetch)
    requires ReportsOn(fetch)
    ensures var q := QueueMissing(v, results, todo, arch, missing, true, fetch);
            q.failure.None? ==> q.todo == Queued(todo, arch, Unavailable(q.results[|results|..]))
    decreases |missing|
  {
    if missing != [] {
      var b := missing[0];
      var f := fetch(v, b);
      if f.failure.None? {
        var todo' := if f.result.available then todo else Enqueue(todo, CpioKey(arch, b), b);
        var results' := results + [f.result];
        QueueTodo(v.(files := f.files), results', todo', arch, missing[1..], fetch);
        QueueTodoStep(todo, arch, results, f.result, b,
                      QueueMissing(v.(files := f.files), results', todo', arch, missing[1..], true, fetch));
      }
    }
  }

  /** The step of `QueueTodo` past one fetched dependency. */
  lemma QueueTodoStep(todo: map<Str, seq<BDep>>, arch: Str, results: seq<FetchResult>, fr: FetchResult, b: BDep,
                      q: Queue)
    requires fr.bdep == b
    requires q.failure.None? ==> |results + [fr]| <= |q.results| && q.results[..|results + [fr]|] == results + [fr]
    requires q.failure.None? ==>
               q.todo == Queued(if fr.available then todo else Enqueue(todo, CpioKey(arch, b), b), arch,
                                Unavailable(q.results[|results + [fr]|..]))
    ensures q.failure.None? ==> q.todo == Queued(todo, arch, Unavailable(q.results[|results|..]))
  {
    if q.failure.None? {
      QueueTodoTail(todo, arch, results, fr, b, q.results, q.todo);
    }
  }

  lemma QueueTodoTail(todo: map<Str, seq<BDep>>, arch: Str, results: seq<FetchResult>, fr: FetchResult, b: BDep,
                      all: seq<FetchResult>, queued: map<Str, seq<BDep>>)
    requires fr.bdep == b
    requires |results| + 1 <= |all| && all[..|results| + 1] == results + [fr]
    requires queued == Queued(if fr.available then todo else Enqueue(todo, CpioKey(arch, b), b), arch,
                              Unavailable(all[|results| + 1..]))
    ensures queued == Queued(todo, arch, Unavailable(all[|results|..]))
  {
    var tail := all[|results|..];
    assert tail[0] == all[..|results| + 1][|results|] == fr;
    assert tail[1..] == all[|results| + 1..];
    var u := Unavailable(all[|results| + 1..]);
    if !fr.available {
      assert Unavailable(tail) == [b] + u;
      assert ([b] + u)[1..] == u;
    } else {
      assert Unavailable(tail) == [] + u == u;
    }
  }

  // ---------------------------------------------------------------------
  // _fetch_cpio: one group

  /** The name of a dependency in the `binary` list of the request. */
  function BinaryName(package: Str, bdep: BDep): Str
  {
    if package == Repository then bdep.name else bdep.filename
  }

  /** The name of a dependency's file in the cpio archive: `name.binarytype`
      for the `_repository` pseudo package, the file name otherwise. */
  function EntryName(package: Str, bdep: BDep): (r: Str)
    ensures package == Repository ==> r == bdep.name + "." + bdep.binarytype
    ensures package != Repository ==> r == bdep.filename
  {
    if package == Repository then bdep.name + "." + bdep.binarytype else bdep.filename
  }

  /** The `binary` list of the request for a group, in group order. */
  function Binaries(package: Str, bdeps: seq<BDep>): (r: seq<Str>)
    ensures |r| == |bdeps|
    ensures forall i :: 0 <= i < |bdeps| ==> r[i] == BinaryName(package, bdeps[i])
  {
    seq(|bdeps|, i requires 0 <= i < |bdeps| => BinaryName(package, bdeps[i]))
  }

  /** `cpio_bdep`: each entry name mapped to the dependency, a later
      dependency replacing an earlier one of the same entry name. */
  function EntryMap(package: Str, bdeps: seq<BDep>): map<Str, BDep>
    decreases |bdeps|
  {
    if bdeps == [] then map[]
    else EntryMap(package, bdeps[..|bdeps| - 1])[EntryName(package, bdeps[|bdeps| - 1]) := bdeps[|bdeps| - 1]]
  }

  /** An entry name is in `cpio_bdep` exactly when a dependency of the
      group has it, and it maps to the last such dependency. */
  lemma {:induction false} EntryMapLookup(package: Str, bdeps: seq<BDep>, name: Str)
    ensures name in EntryMap(package, bdeps) <==> exists i :: 0 <= i < |bdeps| && EntryName(package, bdeps[i]) == name
    ensures name in EntryMap(package, bdeps) ==>
              exists i :: 0 <= i < |bdeps| && EntryMap(package, bdeps)[name] == bdeps[i]
                          && EntryName(package, bdeps[i]) == name
                          && forall j :: i < j < |bdeps| ==> EntryName(package, bdeps[j]) != name
    decreases |bdeps|
  {
    if bdeps != [] {
      var n := |bdeps| - 1;
      var init := bdeps[..n];
      EntryMapLookup(package, init, name);
      if EntryName(package, bdeps[n]) != name {
        if name in EntryMap(package, init) {
          var i :| 0 <= i < |init| && EntryMap(package, init)[name] == init[i]
                   && EntryName(package, init[i]) == name
                   && forall j :: i < j < |init| ==> EntryName(package, init[j]) != name;
          assert bdeps[i] == init[i];
          assert forall j :: i < j < |bdeps| ==> EntryName(package, bdeps[j]) != name by {
            forall j | i < j < |bdeps| ensures EntryName(package, bdeps[j]) != name {
              if j < n {
                assert bdeps[j] == init[j];
              }
            }
          }
        }
        if exists i :: 0 <= i < |bdeps| && EntryName(package, bdeps[i]) == name {
          var i :| 0 <= i < |bdeps| && EntryName(package, bdeps[i]) == name;
          assert i < n && init[i] == bdeps[i];
        }
      }
    }
  }

  /** The path of each dependency in a cache. */
  type Paths = BDep -> Str

  /** The paths of a cache, which do not depend on the files present. */
  function PathsOf(v: CacheView): (path: Paths)
    ensures forall b :: path(b) == PathIn(v, b)
  {
    b => PathIn(v, b)
  }

  /** The text an `.errors` entry adds: its stripped content on a new line. */
  function ErrorLine(e: ArchiveFile): Str
  {
    "\n" + Strip(e.content)
  }

  /** The files of the archive written so far, the accumulated `errors`
      text, and the exception that ended the writing, if any. */
  datatype Written = Written(files: set<Str>, errors: Str, failure: Option<Error>)

  const ErrorsEntry: Str := ".errors"

  /** The loop over the archive: the `.errors` entry adds its stripped
      text on a new line of `errors`; any other entry is looked up in
      `cpio_bdep` (`KeyError` when it is not there) and written to the
      cache (`ValueError` when its dependency is already cached). */
  function ArchiveWrite(files: set<Str>, path: Paths, errors: Str, entries: seq<ArchiveFile>,
                        cpioBdep: map<Str, BDep>): (w: Written)
    ensures files <= w.files
    decreases |entries|
  {
    if entries == [] then Written(files, errors, None)
    else
      var e := entries[0];
      if e.name == ErrorsEntry then ArchiveWrite(files, path, errors + ErrorLine(e), entries[1..], cpioBdep)
      else if e.name !in cpioBdep then Written(files, errors, Some(KeyError(e.name)))
      else if path(cpioBdep[e.name]) in files then
        Written(files, errors, Some(Error.ValueError(PresentMessage(cpioBdep[e.name]))))
      else ArchiveWrite(files + {path(cpioBdep[e.name])}, path, errors, entries[1..], cpioBdep)
  }

  /** When the archive is written without an exception, every entry other
      than `.errors` names a dependency of the group, and that dependency
      is then in the cache. */
  lemma {:induction false} ArchiveWriteCaches(files: set<Str>, path: Paths, errors: Str, entries: seq<ArchiveFile>,
                                              cpioBdep: map<Str, BDep>)
    ensures var w := ArchiveWrite(files, path, errors, entries, cpioBdep);
            w.failure.None? ==>
              forall k :: 0 <= k < |entries| && entries[k].name != ErrorsEntry ==>
                entries[k].name in cpioBdep && path(cpioBdep[entries[k].name]) in w.files
    decreases |entries|
  {
    var w := ArchiveWrite(files, path, errors, entries, cpioBdep);
    if entries != [] && w.failure.None? {
      var e := entries[0];
      var files' := if e.name == ErrorsEntry then files else files + {path(cpioBdep[e.name])};
      var errors' := if e.name == ErrorsEntry then errors + ErrorLine(e) else errors;
      ArchiveWriteCaches(files', path, errors', entries[1..], cpioBdep);
      assert w == ArchiveWrite(files', path, errors', entries[1..], cpioBdep);
      forall k | 1 <= k < |entries| && entries[k].name != ErrorsEntry
        ensures entries[k].name in cpioBdep && path(cpioBdep[entries[k].name]) in w.files
      {
        assert entries[k] == entries[1..][k - 1];
      }
    }
  }

  /** The `.errors` entries of an archive, stripped, each on a new line. */
  function ErrorsText(entries: seq<ArchiveFile>): Str
    decreases |entries|
  {
    if entries == [] then []
    else (if entries[0].name == ErrorsEntry then ErrorLine(entries[0]) else []) + ErrorsText(entries[1..])
  }

  /** A complete write adds the text of every `.errors` entry to `errors`. */
  lemma {:induction false} ArchiveWriteErrors(files: set<Str>, path: Paths, errors: Str, entries: seq<ArchiveFile>,
                                              cpioBdep: map<Str, BDep>)
    ensures var w := ArchiveWrite(files, path, errors, entries, cpioBdep);
            w.failure.None? ==> w.errors == errors + ErrorsText(entries)
    decreases |entries|
  {
    if entries != [] {
      var e := entries[0];
      if e.name == ErrorsEntry {
        ArchiveWriteErrors(files, path, errors + ErrorLine(e), entries[1..], cpioBdep);
        ErrorsEntryStep(files, path, errors, entries, cpioBdep);
      } else if e.name in cpioBdep && path(cpioBdep[e.name]) !in files {
        ArchiveWriteErrors(files + {path(cpioBdep[e.name])}, path, errors, entries[1..], cpioBdep);
        WrittenEntryStep(files, path, errors, entries, cpioBdep);
      }
    }
  }

  /** The step of `ArchiveWriteErrors` at an `.errors` entry. */
  lemma ErrorsEntryStep(files: set<Str>, path: Paths, errors: Str, entries: seq<ArchiveFile>, cpioBdep: map<Str, BDep>)
    requires entries != [] && entries[0].name == ErrorsEntry
    requires var w := ArchiveWrite(files, path, errors + ErrorLine(entries[0]), entries[1..], cpioBdep);
             w.failure.None? ==> w.errors == errors + ErrorLine(entries[0]) + ErrorsText(entries[1..])
    ensures var w := ArchiveWrite(files, path, errors, entries, cpioBdep);
            w.failure.None? ==> w.errors == errors + ErrorsText(entries)
  {
    var line := ErrorLine(entries[0]);
    var rest := ErrorsText(entries[1..]);
    assert ErrorsText(entries) == line + rest;
    ConcatAssoc(errors, line, rest);
  }

  /** The step of `ArchiveWriteErrors` at an entry that is written. */
  lemma WrittenEntryStep(files: set<Str>, path: Paths, errors: Str, entries: seq<ArchiveFile>, cpioBdep: map<Str, BDep>)
    requires entries != [] && entries[0].name != ErrorsEntry
    requires entries[0].name in cpioBdep && path(cpioBdep[entries[0].name]) !in files
    requires var w := ArchiveWrite(files + {path(cpioBdep[entries[0].name])}, path, errors, entries[1..], cpioBdep);
             w.failure.None? ==> w.errors == errors + ErrorsText(entries[1..])
    ensures var w := ArchiveWrite(files, path, errors, entries, cpioBdep);
            w.failure.None? ==> w.errors == errors + ErrorsText(entries)
  {
    assert ErrorsText(entries) == ErrorsText(entries[1..]);
  }

  /** What the check of a group records: the results (one appended for
      each dependency that had none) and the results of the missing
      dependencies. */
  datatype Recorded = Recorded(results: seq<FetchResult>, missing: seq<FetchResult>)

  /** The loop over the group after the archive was written: a dependency
      without a result gets one, available when it is cached; the result of
      each dependency not in the cache is missing. */
  function Record(results: seq<FetchResult>, cached: Cached, bdeps: seq<BDep>): (r: Recorded)
    ensures |results| <= |r.results| && r.results[..|results|] == results
    decreases |bdeps|
  {
    if bdeps == [] then Recorded(results, [])
    else
      var b := bdeps[0];
      var found := FindFetchResult(results, b);
      var fr := if found.Some? then found.value else FetchResult(b, cached(b), [], false);
      var results' := if found.Some? then results else results + [fr];
      var rest := Record(results', cached, bdeps[1..]);
      assert rest.results[..|results|] == (rest.results[..|results'|])[..|results|];
      Recorded(rest.results, (if cached(b) then [] else [fr]) + rest.missing)
  }

  /** The missing results are those of the group's dependencies that are
      not cached, in order, each the dependency's first result. */
  lemma {:induction false} RecordMissing(results: seq<FetchResult>, cached: Cached, bdeps: seq<BDep>)
    ensures var r := Record(results, cached, bdeps);
            && |r.missing| == |Absent(cached, bdeps)|
            && forall i :: 0 <= i < |r.missing| ==> r.missing[i].bdep == Absent(cached, bdeps)[i]
    decreases |bdeps|
  {
    if bdeps != [] {
      var b := bdeps[0];
      var found := FindFetchResult(results, b);
      var fr := if found.Some? then found.value else FetchResult(b, cached(b), [], false);
      var results' := if found.Some? then results else results + [fr];
      RecordMissing(results', cached, bdeps[1..]);
      var rest := Record(results', cached, bdeps[1..]).missing;
      var absent := Absent(cached, bdeps[1..]);
      if !cached(b) {
        assert Absent(cached, bdeps) == [b] + absent;
        assert Record(results, cached, bdeps).missing == [fr] + rest;
      } else {
        assert Absent(cached, bdeps) == absent;
        assert Record(results, cached, bdeps).missing == rest;
      }
    }
  }

  /** After the check every dependency of the group has a result. */
  lemma {:induction false} RecordCovers(results: seq<FetchResult>, cached: Cached, bdeps: seq<BDep>)
    ensures var r := Record(results, cached, bdeps);
            forall i :: 0 <= i < |bdeps| ==> FindFetchResult(r.results, bdeps[i]).Some?
    decreases |bdeps|
  {
    if bdeps != [] {
      var b := bdeps[0];
      var found := FindFetchResult(results, b);
      var fr := if found.Some? then found.value else FetchResult(b, cached(b), [], false);
      var results' := if found.Some? then results else results + [fr];
      RecordCovers(results', cached, bdeps[1..]);
      var r := Record(results, cached, bdeps);
      assert r.results == Record(results', cached, bdeps[1..]).results;
      if found.None? {
        FindAppended(results, fr);
      }
      var extra := r.results[|results'|..];
      SplitAt(r.results, |results'|);
      FindAfterAppend(results', extra, b);
      forall i | 1 <= i < |bdeps|
        ensures FindFetchResult(r.results, bdeps[i]).Some?
      {
        assert bdeps[i] == bdeps[1..][i - 1];
      }
    }
  }

  /** The state after one group of `_fetch_cpio`: the cache's files, the
      results, `errors`, the group's missing results, and the exception
      that ended the group, if any. */
  datatype GroupState = GroupState(files: set<Str>, results: seq<FetchResult>, errors: Str,
                                   missing: seq<FetchResult>, failure: Option<Error>)

  const TooMany: Str := "too many values to unpack"
  const NeedMore: Str := "need more than "
  const ValueToUnpack: Str := " value to unpack"
  const ValuesToUnpack: Str := " values to unpack"

  /** The message of the `ValueError` of Python 2 for unpacking `n` parts
      into four names (`split` gives at least one part). */
  function UnpackMessage(n: nat): Str
  {
    if n > 4 then TooMany
    else NeedMore + DecimalString(n) + (if n == 1 then ValueToUnpack else ValuesToUnpack)
  }

  /** One group of `_fetch_cpio`: its key is unpacked into project,
      repository, architecture and package; the archive of the group's
      binaries is requested and written; then the group is checked. */
  function GroupStep(v: CacheView, results: seq<FetchResult>, errors: Str, bdeps: seq<BDep>, key: Str,
                     archives: Archives): (g: GroupState)
    ensures v.files <= g.files
    ensures g.failure.Some? ==> g.missing == [] && g.results == results
    ensures g.failure.None? ==> |results| <= |g.results| && g.results[..|results|] == results
  {
    var parts := Split(key, '/');
    if |parts| != 4 then GroupState(v.files, results, errors, [], Some(Error.ValueError(UnpackMessage(|parts|))))
    else
      var package := parts[3];
      var request := BinaryList(parts[0], package, parts[1], parts[2], Binaries(package, bdeps));
      var w := ArchiveWrite(v.files, PathsOf(v), errors, archives(request), EntryMap(package, bdeps));
      if w.failure.Some? then GroupState(w.files, results, w.errors, [], w.failure)
      else
        var rec := Record(results, CachedIn(v.(files := w.files)), bdeps);
        GroupState(w.files, rec.results, w.errors, rec.missing, None)
  }

  /** A group whose key splits into four parts requests the archive of its
      project, package, repository and architecture; when it completes,
      its missing results are those of its dependencies left uncached. */
  lemma GroupStepMissing(v: CacheView, results: seq<FetchResult>, errors: Str, bdeps: seq<BDep>, key: Str,
                         archives: Archives)
    requires |Split(key, '/')| == 4
    ensures var g := GroupStep(v, results, errors, bdeps, key, archives);
            g.failure.None? ==>
              && |g.missing| == |Absent(CachedIn(v.(files := g.files)), bdeps)|
              && forall i :: 0 <= i < |g.missing| ==> g.missing[i].bdep == Absent(CachedIn(v.(files := g.files)), bdeps)[i]
  {
    var g := GroupStep(v, results, errors, bdeps, key, archives);
    if g.failure.None? {
      RecordMissing(results, CachedIn(v.(files := g.files)), bdeps);
    }
  }

  /** One group of the loop, from the cache state, the results, `errors`
      and the key. */
  type Step = (CacheView, seq<FetchResult>, Str, Str) -> GroupState

  /** The groups of a queue, with the server's archives. */
  function StepWith(todo: map<Str, seq<BDep>>, archives: Archives): (step: Step)
    ensures forall w, rs, e, k :: step(w, rs, e, k) == GroupStep(w, rs, e, Group(todo, k), k, archives)
  {
    (w, rs, e, k) => GroupStep(w, rs, e, Group(todo, k), k, archives)
  }

  /** The state after the loop of `_fetch_cpio`: `groups` holds the
      missing results of each group entered, in order. */
  datatype RunState = RunState(files: set<Str>, results: seq<FetchResult>, errors: Str, missing: seq<FetchResult>,
                               failure: Option<Error>, groups: seq<seq<FetchResult>>)

  /** The loop of `_fetch_cpio` over the keys from the current one on: it
      ends at an exception, or after the first group that leaves missing
      dependencies unless `deferError` is set. */
  function Run(v: CacheView, results: seq<FetchResult>, errors: Str, missing: seq<FetchResult>,
               groups: seq<seq<FetchResult>>, keys: seq<Str>, step: Step, deferError: bool): (s: RunState)
    ensures |groups| <= |s.groups| <= |groups| + |keys| && s.groups[..|groups|] == groups
    decreases |keys|
  {
    if keys == [] then RunState(v.files, results, errors, missing, None, groups)
    else
      var g := step(v, results, errors, keys[0]);
      var m := missing + g.missing;
      if g.failure.Some? then RunState(g.files, g.results, g.errors, missing, g.failure, groups + [[]])
      else if m != [] && !deferError then RunState(g.files, g.results, g.errors, m, None, groups + [g.missing])
      else
        var s := Run(v.(files := g.files), g.results, g.errors, m, groups + [g.missing], keys[1..], step, deferError);
        assert s.groups[..|groups|] == (s.groups[..|groups| + 1])[..|groups|];
        s
  }

  /** Unless a group fails, the loop visits every key when errors are
      deferred, and also when no dependency is missing. */
  lemma {:induction false} RunVisitsAll(v: CacheView, results: seq<FetchResult>, errors: Str, missing: seq<FetchResult>,
                                        groups: seq<seq<FetchResult>>, keys: seq<Str>, step: Step, deferError: bool)
    ensures var s := Run(v, results, errors, missing, groups, keys, step, deferError);
            s.failure.None? && (deferError || s.missing == []) ==> |s.groups| == |groups| + |keys|
    decreases |keys|
  {
    if keys != [] {
      var g := step(v, results, errors, keys[0]);
      var m := missing + g.missing;
      RunVisitsAll(v.(files := g.files), g.results, g.errors, m, groups + [g.missing], keys[1..], step, deferError);
    }
  }

  /** Without `deferError` the loop stops at the first group with missing
      dependencies: every group before the last one entered had none. */
  lemma {:induction false} RunStopsEarly(v: CacheView, results: seq<FetchResult>, errors: Str, missing: seq<FetchResult>,
                                         groups: seq<seq<FetchResult>>, keys: seq<Str>, step: Step)
    requires missing == []
    ensures var s := Run(v, results, errors, missing, groups, keys, step, false);
            forall j :: |groups| <= j < |s.groups| - 1 ==> s.groups[j] == []
    decreases |keys|
  {
    if keys != [] {
      var g := step(v, results, errors, keys[0]);
      if g.failure.None? && g.missing == [] {
        var s := Run(v, results, errors, missing, groups, keys, step, false);
        var m := missing + g.missing;
        assert m == [];
        var s' := Run(v.(files := g.files), g.results, g.errors, m, groups + [g.missing], keys[1..], step, false);
        assert s == s';
        RunStopsEarly(v.(files := g.files), g.results, g.errors, m, groups + [g.missing], keys[1..], step);
        assert var t := Run(v.(files := g.files), g.results, g.errors, m, groups + [g.missing], keys[1..], step, false);
          forall j :: |groups + [g.missing]| <= j < |t.groups| - 1 ==> t.groups[j] == [];
        assert forall j :: |groups + [g.missing]| <= j < |s'.groups| - 1 ==> s'.groups[j] == [];
        assert s.groups[|groups|] == (groups + [g.missing])[|groups|] by {
          assert s.groups[..|groups| + 1] == groups + [g.missing];
        }
        forall j | |groups| <= j < |s.groups| - 1 ensures s.groups[j] == [] {
          if j > |groups| {
            assert |groups + [g.missing]| <= j < |s'.groups| - 1;
            assert s'.groups[j] == [];
          }
        }
      }
    }
  }

  /** When no group fails, nothing is missing at the end exactly when
      nothing was missing before and no group entered left anything
      missing. */
  lemma {:induction false} RunMissing(v: CacheView, results: seq<FetchResult>, errors: Str, missing: seq<FetchResult>,
                                      groups: seq<seq<FetchResult>>, keys: seq<Str>, step: Step, deferError: bool)
    ensures var s := Run(v, results, errors, missing, groups, keys, step, deferError);
            s.failure.None? ==>
              (s.missing == [] <==> missing == [] && forall j :: |groups| <= j < |s.groups| ==> s.groups[j] == [])
    decreases |keys|
  {
    var s := Run(v, results, errors, missing, groups, keys, step, deferError);
    if keys != [] && s.failure.None? {
      var g := step(v, results, errors, keys[0]);
      var m := missing + g.missing;
      var groups' := groups + [g.missing];
      assert s.groups[|groups|] == g.missing by {
        assert s.groups[..|groups| + 1] == groups';
      }
      if !(m != [] && !deferError) {
        RunMissing(v.(files := g.files), g.results, g.errors, m, groups', keys[1..], step, deferError);
      }
    }
  }

  /** How `_fetch_cpio` ends: the exception of a group, else
      `BuildDependencyFetchError` with the missing results and the stripped
      `errors` text when any are missing, else normally. */
  function CpioOutcome(s: RunState): (r: Outcome)
    ensures s.failure.None? ==> (r.Failure? <==> s.missing != [])
    ensures s.failure.None? && r.Failure? ==> r.error.BuildDependencyFetchError? && r.error.bdeps == s.missing
    ensures r == Success <==> s.failure.None? && s.missing == []
  {
    if s.failure.Some? then Failure(s.failure.value)
    else if s.missing != [] then Failure(BuildDependencyFetchError(s.missing, Strip(s.errors)))
    else Success
  }

  // ---------------------------------------------------------------------
  // sorted(keys)

  /** Strictly increasing in Python's string order. */
  predicate StrictlySorted(keys: seq<Str>)
  {
    forall i, j :: 0 <= i < j < |keys| ==> Less(keys[i], keys[j])
  }

  /** The first key of a strictly sorted sequence is below its other keys. */
  lemma SortedFirst(keys: seq<Str>, x: Str)
    requires StrictlySorted(keys) && x in keys
    ensures x == keys[0] || Less(keys[0], x)
  {
    var i :| 0 <= i < |keys| && keys[i] == x;
    if i > 0 {
      assert Less(keys[0], keys[i]);
    }
  }

  /** `m` is the least of the keys. */
  ghost predicate Least(m: Str, keys: set<Str>)
  {
    m in keys && forall x :: x in keys && x != m ==> Less(m, x)
  }

  /** A non-empty set of keys has a least key. */
  lemma {:induction false} HasLeast(keys: set<Str>)
    requires keys != {}
    ensures exists m :: Least(m, keys)
    decreases |keys|
  {
    var y :| y in keys;
    var rest := keys - {y};
    if rest == {} {
      assert forall x :: x in keys ==> x == y || x in rest;
      assert Least(y, keys);
    } else {
      HasLeast(rest);
      var m :| Least(m, rest);
      LessTotal(m, y);
      if Less(m, y) {
        assert Least(m, keys);
      } else {
        forall x | x in keys && x != y ensures Less(y, x) {
          if x != m {
            LessTransitive(y, m, x);
          }
        }
        assert Least(y, keys);
      }
    }
  }

  /** `sorted(keys)`: the keys in increasing order. */
  ghost function SortedKeys(keys: set<Str>): (r: seq<Str>)
    ensures StrictlySorted(r)
    ensures forall x :: x in r <==> x in keys
    decreases |keys|
  {
    if keys == {} then []
    else
      HasLeast(keys);
      var m :| Least(m, keys);
      var rest := SortedKeys(keys - {m});
      assert forall x :: x in rest ==> Less(m, x);
      [m] + rest
  }

  /** The sorted order of a set of keys is unique. */
  lemma {:induction false} SortedUnique(a: seq<Str>, b: seq<Str>)
    requires StrictlySorted(a) && StrictlySorted(b)
    requires forall x :: x in a <==> x in b
    ensures a == b
    decreases |a|
  {
    if a != [] {
      assert a[0] in b;
    }
    if b != [] {
      assert b[0] in a;
    }
    if a != [] && b != [] {
      SortedFirst(b, a[0]);
      SortedFirst(a, b[0]);
      LessAsymmetric(a[0], b[0]);
      assert a[0] == b[0];
      forall x | x in a[1..] ensures x != a[0] {
        var i :| 1 <= i < |a| && a[i] == x;
        assert Less(a[0], a[i]);
        LessIrreflexive(a[0]);
      }
      forall x | x in b[1..] ensures x != b[0] {
        var i :| 1 <= i < |b| && b[i] == x;
        assert Less(b[0], b[i]);
        LessIrreflexive(b[0]);
      }
      assert a == [a[0]] + a[1..] && b == [b[0]] + b[1..];
      forall x ensures x in a[1..] <==> x in b[1..] {
        assert x in a <==> x in a[1..] || x == a[0];
        assert x in b <==> x in b[1..] || x == b[0];
      }
      SortedUnique(a[1..], b[1..]);
    }
  }
}
