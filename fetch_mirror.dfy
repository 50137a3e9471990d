/** Mirrors of build dependencies (osc2/fetch.py): the download URL built
    from a build info's `downloadurl`, and `CustomMirrorGroup`, which tries
    a pool of mirrors in order.  The opener is abstract: a predicate saying
    which `(host, path, keyword arguments)` it can open; every other
    outcome is the `HTTPError` the group passes over. */
module FetchMirror {
  import opened PyStr
  import opened FetchCache

  /** A dictionary of string arguments (query or keyword arguments). */
  type Params = map<Str, Str>

  /** The parts of a `BuildInfo` the fetcher uses: the default
      architecture, the dependencies and the optional `downloadurl`. */
  datatype BuildInfo = BuildInfo(arch: Str, bdeps: seq<BDep>, downloadurl: Option<Str>)

  /** A pool entry `(host, path, query)`. */
  datatype Mirror = Mirror(host: Str, path: Str, query: Params)

  /** What a URL builder returns: a `(host, path, query)` triple whose parts
      may be `None`. */
  datatype Components = Components(host: Option<Str>, path: Option<Str>, query: Option<Params>)

  /** A URL builder: a function of the build info and the dependency. */
  type UrlBuilder = (BuildInfo, BDep) -> Components

  /** No component is `None`. */
  predicate Complete(c: Components)
  {
    c.host.Some? && c.path.Some? && c.query.Some?
  }

  // ---------------------------------------------------------------------
  // urlparse.urlparse(url)[2]

  /** `s.find(c)`, with `|s|` standing for "not found". */
  function Find(s: Str, c: Byte): (i: nat)
    ensures i <= |s|
    ensures forall k :: 0 <= k < i ==> s[k] != c
    ensures i < |s| ==> s[i] == c
  {
    if s == [] || s[0] == c then 0 else 1 + Find(s[1..], c)
  }

  /** A byte that never matches `c` does not stop `Find` early. */
  lemma {:induction false} FindAppend(a: Str, b: Str, c: Byte)
    requires c !in a
    ensures Find(a + b, c) == |a| + Find(b, c)
  {
    if a != [] {
      assert (a + b)[0] == a[0] != c;
      assert (a + b)[1..] == a[1..] + b;
      FindAppend(a[1..], b, c);
    } else {
      assert a + b == b;
    }
  }

  predicate IsSchemeChar(c: Byte)
  {
    ('a' <= c <= 'z') || ('A' <= c <= 'Z') || ('0' <= c <= '9') || c == '+' || c == '-' || c == '.'
  }

  predicate IsDigit(c: Byte)
  {
    '0' <= c <= '9'
  }

  /** urlsplit's scheme rule: the text before the first `':'` is a scheme
      when it is `http`, or when it is non-empty, made of scheme characters,
      and what follows is not a port number (empty or not all digits). */
  predicate HasScheme(url: Str)
  {
    var i := Find(url, ':');
    0 < i < |url| &&
    (url[..i] == "http" ||
     ((forall k :: 0 <= k < i ==> IsSchemeChar(url[k])) &&
      (i + 1 == |url| || exists k :: i < k < |url| && !IsDigit(url[k]))))
  }

  /** The URL after its scheme and `':'`, if it has a scheme. */
  function AfterScheme(url: Str): Str
  {
    if HasScheme(url) then url[Find(url, ':') + 1..] else url
  }

  /** The length of the network location at the start of `s`: up to the
      first `'/'`, `'?'` or `'#'`. */
  function NetlocLength(s: Str): (n: nat)
    ensures n <= |s|
    ensures forall k :: 0 <= k < n ==> s[k] != '/' && s[k] != '?' && s[k] != '#'
    ensures n < |s| ==> s[n] == '/' || s[n] == '?' || s[n] == '#'
  {
    var a := Find(s, '/');
    var b := Find(s, '?');
    var c := Find(s, '#');
    if a <= b && a <= c then a else if b <= c then b else c
  }

  /** The path of a URL as `urlparse` splits it: after the scheme and the
      network location, before the query and the fragment. */
  function UrlPath(url: Str): (p: Str)
    ensures '?' !in p && '#' !in p
  {
    var rest := AfterScheme(url);
    var tail := if |rest| >= 2 && rest[..2] == "//" then rest[2..][NetlocLength(rest[2..])..] else rest;
    var noFragment := tail[..Find(tail, '#')];
    noFragment[..Find(noFragment, '?')]
  }

  /** A URL that starts with a scheme and `':/'` loses exactly the scheme
      and the colon. */
  lemma SchemeSplit(scheme: Str, after: Str)
    requires scheme != [] && forall k :: 0 <= k < |scheme| ==> IsSchemeChar(scheme[k])
    requires after != [] && after[0] == '/'
    ensures AfterScheme(scheme + ":" + after) == after
  {
    var url := scheme + ":" + after;
    assert forall k :: 0 <= k < |scheme| ==> scheme[k] != ':';
    assert url == scheme + (":" + after);
    FindAppend(scheme, ":" + after, ':');
    assert Find(url, ':') == |scheme|;
    assert forall k :: 0 <= k < |scheme| ==> url[k] == scheme[k];
    assert url[|scheme| + 1] == '/' && !IsDigit(url[|scheme| + 1]);
    assert HasScheme(url);
    assert url[|scheme| + 1..] == after;
  }

  /** The network location ends where the path or the query starts. */
  lemma NetlocOf(netloc: Str, rest: Str)
    requires '/' !in netloc && '?' !in netloc && '#' !in netloc
    requires rest == [] || rest[0] == '/' || rest[0] == '?'
    ensures NetlocLength(netloc + rest) == |netloc|
  {
    FindAppend(netloc, rest, '/');
    FindAppend(netloc, rest, '?');
    FindAppend(netloc, rest, '#');
  }

  /** What follows the network location is cut at the fragment and then at
      the query; a path without `'?'` or `'#'` is what remains. */
  lemma PathOfTail(path: Str, query: Str)
    requires '?' !in path && '#' !in path
    requires query == [] || query[0] == '?'
    ensures var tail := path + query;
            var noFragment := tail[..Find(tail, '#')];
            noFragment[..Find(noFragment, '?')] == path
  {
    var tail := path + query;
    FindAppend(path, query, '#');
    var q := query[..Find(query, '#')];
    var noFragment := tail[..Find(tail, '#')];
    assert noFragment == path + q;
    FindAppend(path, q, '?');
    if q != [] {
      assert q[0] == '?';
    }
    assert noFragment[..|path|] == path;
  }

  /** The path of `scheme://netloc/path?query` is `/path`. */
  lemma UrlPathOf(scheme: Str, netloc: Str, path: Str, query: Str)
    requires scheme != [] && forall k :: 0 <= k < |scheme| ==> IsSchemeChar(scheme[k])
    requires '/' !in netloc && '?' !in netloc && '#' !in netloc
    requires path == [] || path[0] == '/'
    requires '?' !in path && '#' !in path
    requires query == [] || query[0] == '?'
    ensures UrlPath(scheme + "://" + netloc + path + query) == path
  {
    var tail := path + query;
    var after := "//" + (netloc + tail);
    assert scheme + "://" + netloc + path + query == scheme + ":" + after;
    SchemeSplit(scheme, after);
    assert after[..2] == "//";
    assert after[2..] == netloc + tail;
    NetlocOf(netloc, tail);
    assert (netloc + tail)[|netloc|..] == tail;
    PathOfTail(path, query);
  }

  /** The path of `scheme://netloc/path` is `/path`. */
  lemma UrlPathNoQuery(scheme: Str, netloc: Str, path: Str)
    requires scheme != [] && forall k :: 0 <= k < |scheme| ==> IsSchemeChar(scheme[k])
    requires '/' !in netloc && '?' !in netloc && '#' !in netloc
    requires path == [] || path[0] == '/'
    requires '?' !in path && '#' !in path
    ensures UrlPath(scheme + "://" + netloc + path) == path
  {
    UrlPathOf(scheme, netloc, path, []);
    assert scheme + "://" + netloc + path + [] == scheme + "://" + netloc + path;
  }

  // ---------------------------------------------------------------------
  // _download_url_builder

  /** The mirror path of a dependency below a URL path: the project with
      every `':'` turned into `':/'`, then repository, architecture and file
      name. */
  function DownloadPath(urlPath: Str, bdep: BDep): Str
  {
    urlPath + "/" + ReplaceByte(bdep.project, ':', ":/") + "/" + bdep.repository + "/" + bdep.arch + "/" + bdep.filename
  }

  /** `_download_url_builder(binfo, bdep)`: nothing without a
      `downloadurl`; otherwise the URL with every occurrence of its path
      removed, the dependency's mirror path, and an empty query. */
  function DownloadUrlBuilder(binfo: BuildInfo, bdep: BDep): (c: Components)
    ensures Complete(c) <==> binfo.downloadurl.Some?
    ensures binfo.downloadurl.None? ==> c == Components(None, None, None)
    ensures c.query.Some? ==> c.query.value == map[]
    ensures c.path.Some? ==> c.path == Some(DownloadPath(UrlPath(binfo.downloadurl.value), bdep))
  {
    match binfo.downloadurl
    case None => Components(None, None, None)
    case Some(url) =>
      var p := UrlPath(url);
      Components(Some(Remove(url, p)), Some(DownloadPath(p, bdep)), Some(map[]))
  }

  /** `p` occurs in `h + p` only at its end. */
  predicate OnlyAtEnd(h: Str, p: Str)
  {
    forall i :: 0 <= i < |h| ==> !StartsWith((h + p)[i..], p)
  }

  /** Removing a pattern that occurs only at the end of a string cuts it
      off the end. */
  lemma {:induction false} RemoveAllOnlyAtEnd(h: Str, p: Str)
    requires p != []
    requires OnlyAtEnd(h, p)
    ensures RemoveAll(h + p, p) == h
  {
    if h == [] {
      assert (h + p)[..|p|] == p;
      assert (h + p)[|p|..] == [];
    } else {
      assert !StartsWith((h + p)[0..], p);
      assert (h + p)[0..] == h + p;
      assert (h + p)[1..] == h[1..] + p;
      forall i | 0 <= i < |h[1..]|
        ensures !StartsWith((h[1..] + p)[i..], p)
      {
        assert (h[1..] + p)[i..] == (h + p)[i + 1..];
      }
      RemoveAllOnlyAtEnd(h[1..], p);
      assert h == [h[0]] + h[1..];
    }
  }

  /** For `host/path` with `host` = `scheme://netloc` and a path that
      occurs nowhere else in the URL, the host is `scheme://netloc` and the
      path is the dependency's mirror path below `/path`. */
  lemma DownloadUrlLayout(scheme: Str, netloc: Str, host: Str, path: Str, binfo: BuildInfo, bdep: BDep)
    requires scheme != [] && forall k :: 0 <= k < |scheme| ==> IsSchemeChar(scheme[k])
    requires '/' !in netloc && '?' !in netloc && '#' !in netloc
    requires host == scheme + "://" + netloc
    requires path != [] && path[0] == '/' && '?' !in path && '#' !in path
    requires OnlyAtEnd(host, path)
    requires binfo.downloadurl == Some(host + path)
    ensures DownloadUrlBuilder(binfo, bdep) == Components(Some(host), Some(DownloadPath(path, bdep)), Some(map[]))
  {
    var url := host + path;
    assert DownloadUrlBuilder(binfo, bdep)
           == Components(Some(Remove(url, UrlPath(url))), Some(DownloadPath(UrlPath(url), bdep)), Some(map[]));
    assert UrlPath(url) == path by {
      UrlPathNoQuery(scheme, netloc, path);
    }
    RemoveAllOnlyAtEnd(host, path);
  }

  /** Removing `'/'` from a string without one changes nothing. */
  lemma {:induction false} RemoveSlashAbsent(a: Str)
    requires '/' !in a
    ensures RemoveAll(a, "/") == a
  {
    if a != [] {
      assert a[..1][0] == a[0] != '/';
      RemoveSlashAbsent(a[1..]);
      assert a == [a[0]] + a[1..];
    }
  }

  /** `'/'` is removed from the two halves of a string independently. */
  lemma {:induction false} RemoveSlashConcat(a: Str, b: Str)
    ensures RemoveAll(a + b, "/") == RemoveAll(a, "/") + RemoveAll(b, "/")
  {
    if a == [] {
      assert a + b == b;
    } else {
      assert (a + b)[..1] == a[..1];
      assert (a + b)[1..] == a[1..] + b;
      RemoveSlashConcat(a[1..], b);
    }
  }

  /** The separators of `scheme://netloc/`. */
  const SchemeSep: Str := "://"
  const Slash: Str := "/"
  const Colon: Str := ":"

  /** A `downloadurl` that ends in `'/'` has the path `/`, and since the
      source removes every occurrence of the path, the host loses the
      slashes of `://` too: `scheme://netloc/` yields the host
      `scheme:netloc`. */
  lemma DownloadUrlTrailingSlash(scheme: Str, netloc: Str, binfo: BuildInfo, bdep: BDep)
    requires scheme != [] && forall k :: 0 <= k < |scheme| ==> IsSchemeChar(scheme[k])
    requires '/' !in netloc && '?' !in netloc && '#' !in netloc
    requires binfo.downloadurl == Some(scheme + SchemeSep + netloc + Slash)
    ensures DownloadUrlBuilder(binfo, bdep)
            == Components(Some(scheme + Colon + netloc), Some(DownloadPath(Slash, bdep)), Some(map[]))
  {
    var url := scheme + SchemeSep + netloc + Slash;
    UrlPathNoQuery(scheme, netloc, Slash);
    assert Remove(url, Slash) == scheme + Colon + netloc by {
      assert forall k :: 0 <= k < |scheme| ==> scheme[k] != '/';
      RemoveSlashesOfUrl(scheme, netloc);
    }
  }

  /** The slashes of `scheme://netloc/` are all removed. */
  lemma RemoveSlashesOfUrl(scheme: Str, netloc: Str)
    requires '/' !in scheme && '/' !in netloc
    ensures RemoveAll(scheme + SchemeSep + netloc + Slash, Slash) == scheme + Colon + netloc
  {
    RemoveSlashConcat(scheme + SchemeSep + netloc, Slash);
    RemoveSlashConcat(scheme + SchemeSep, netloc);
    RemoveSlashConcat(scheme, SchemeSep);
    RemoveSlashAbsent(scheme);
    RemoveSlashAbsent(netloc);
    assert RemoveAll(Slash, Slash) == [];
    assert RemoveAll(SchemeSep, Slash) == Colon by {
      assert SchemeSep[1..] == "//";
      assert "//"[1..] == Slash;
    }
  }

  // ---------------------------------------------------------------------
  // Mirror pools

  /** The pool `_fetch` builds: the results of the URL builders, in
      order, that have no `None` component. */
  function MirrorPool(builders: seq<UrlBuilder>, binfo: BuildInfo, bdep: BDep): (pool: seq<Mirror>)
    ensures |pool| <= |builders|
  {
    if builders == [] then []
    else
      var c := builders[|builders| - 1](binfo, bdep);
      MirrorPool(builders[..|builders| - 1], binfo, bdep)
        + (if Complete(c) then [Mirror(c.host.value, c.path.value, c.query.value)] else [])
  }

  /** With `_download_url_builder` last among the builders and a
      `downloadurl`, the download mirror is the last entry of the pool,
      after the mirrors of the custom builders. */
  lemma DownloadMirrorLast(custom: seq<UrlBuilder>, binfo: BuildInfo, bdep: BDep)
    requires binfo.downloadurl.Some?
    ensures var pool := MirrorPool(custom + [DownloadUrlBuilder], binfo, bdep);
            var c := DownloadUrlBuilder(binfo, bdep);
            && pool[..|pool| - 1] == MirrorPool(custom, binfo, bdep)
            && pool[|pool| - 1] == Mirror(c.host.value, c.path.value, map[])
  {
    assert (custom + [DownloadUrlBuilder])[..|custom|] == custom;
  }

  /** Without a `downloadurl` the pool is that of the custom builders. */
  lemma NoDownloadMirror(custom: seq<UrlBuilder>, binfo: BuildInfo, bdep: BDep)
    requires binfo.downloadurl.None?
    ensures MirrorPool(custom + [DownloadUrlBuilder], binfo, bdep) == MirrorPool(custom, binfo, bdep)
  {
    assert (custom + [DownloadUrlBuilder])[..|custom|] == custom;
  }

  // ---------------------------------------------------------------------
  // CustomMirrorGroup

  /** `build_url(host, path, **query)`, kept as its three parts. */
  datatype MirrorUrl = MirrorUrl(host: Str, path: Str, query: Params)

  /** What the opener returned: the file it opened, identified by the call
      that opened it. */
  datatype Opened = Opened(host: Str, path: Str, kw: Params)

  /** Which `opener.urlopen(host, path, **kw)` calls succeed; the others
      raise `HTTPError`. */
  type Opener = (Str, Str, Params) -> bool

  /** `kw = kwargs.copy(); kw.update(query)`: the caller's arguments with
      the mirror's query laid over them. */
  function Kw(kwargs: Params, query: Params): (kw: Params)
    ensures kw.Keys == kwargs.Keys + query.Keys
    ensures forall k :: k in query ==> kw[k] == query[k]
    ensures forall k :: k in kwargs && k !in query ==> kw[k] == kwargs[k]
  {
    kwargs + query
  }

  /** The opener succeeds on a mirror. */
  predicate Opens(opens: Opener, m: Mirror, kwargs: Params)
  {
    opens(m.host, m.path, Kw(kwargs, m.query))
  }

  /** The position of the first mirror the opener succeeds on, if any. */
  function FirstOpened(pool: seq<Mirror>, kwargs: Params, opens: Opener): (k: Option<nat>)
    ensures k.Some? ==> k.value < |pool| && Opens(opens, pool[k.value], kwargs)
    ensures k.Some? ==> forall j :: 0 <= j < k.value ==> !Opens(opens, pool[j], kwargs)
    ensures k.None? ==> forall j :: 0 <= j < |pool| ==> !Opens(opens, pool[j], kwargs)
  {
    if pool == [] then None
    else if Opens(opens, pool[0], kwargs) then Some(0)
    else match FirstOpened(pool[1..], kwargs, opens)
      case None => None
      case Some(k) => Some(k + 1)
  }

  /** The number of mirrors tried: up to and including the first that
      opens, or all of them. */
  function Tried(pool: seq<Mirror>, kwargs: Params, opens: Opener): (n: nat)
    ensures n <= |pool|
  {
    match FirstOpened(pool, kwargs, opens)
    case Some(k) => k + 1
    case None => |pool|
  }

  /** The URLs of mirrors, in order. */
  function UrlsOf(ms: seq<Mirror>): (urls: seq<MirrorUrl>)
    ensures |urls| == |ms|
  {
    seq(|ms|, i requires 0 <= i < |ms| => MirrorUrl(ms[i].host, ms[i].path, ms[i].query))
  }

  /** The first mirror that opens, after mirrors that do not. */
  lemma FirstOpenedAt(pool: seq<Mirror>, kwargs: Params, opens: Opener, i: nat)
    requires i < |pool| && Opens(opens, pool[i], kwargs)
    requires forall j :: 0 <= j < i ==> !Opens(opens, pool[j], kwargs)
    ensures FirstOpened(pool, kwargs, opens) == Some(i)
    ensures Tried(pool, kwargs, opens) == i + 1
  {
  }

  /** No mirror opens: every one is tried. */
  lemma NoneOpened(pool: seq<Mirror>, kwargs: Params, opens: Opener)
    requires forall j :: 0 <= j < |pool| ==> !Opens(opens, pool[j], kwargs)
    ensures FirstOpened(pool, kwargs, opens) == None
    ensures Tried(pool, kwargs, opens) == |pool|
  {
  }

  /** The URLs of one more mirror. */
  lemma UrlsOfOneMore(pool: seq<Mirror>, i: nat)
    requires i < |pool|
    ensures UrlsOf(pool[..i + 1]) == UrlsOf(pool[..i]) + [MirrorUrl(pool[i].host, pool[i].path, pool[i].query)]
  {
  }

  /** A pool of mirrors and the URLs of the mirrors tried so far. */
  class CustomMirrorGroup {
    const pool: seq<Mirror>
    var usedMirrorUrls: seq<MirrorUrl>

    constructor(pool: seq<Mirror>)
      ensures this.pool == pool && usedMirrorUrls == []
    {
      this.pool := pool;
      usedMirrorUrls := [];
    }

    /** `urlopen(**kwargs)`: tries the mirrors in order, logging each
        one's URL before trying it, and returns what the first mirror
        that opens gives; `None` when none opens. */
    method Urlopen(kwargs: Params, opens: Opener) returns (r: Option<Opened>)
      modifies this
      ensures match FirstOpened(pool, kwargs, opens)
              case None => r == None
              case Some(k) => r == Some(Opened(pool[k].host, pool[k].path, Kw(kwargs, pool[k].query)))
      ensures usedMirrorUrls == old(usedMirrorUrls) + UrlsOf(pool[..Tried(pool, kwargs, opens)])
    {
      var i := 0;
      while i < |pool|
        invariant 0 <= i <= |pool|
        invariant forall j :: 0 <= j < i ==> !Opens(opens, pool[j], kwargs)
        invariant usedMirrorUrls == old(usedMirrorUrls) + UrlsOf(pool[..i])
      {
        var m := pool[i];
        var kw := Kw(kwargs, m.query);
        UrlsOfOneMore(pool, i);
        usedMirrorUrls := usedMirrorUrls + [MirrorUrl(m.host, m.path, m.query)];
        if opens(m.host, m.path, kw) {
          FirstOpenedAt(pool, kwargs, opens, i);
          return Some(Opened(m.host, m.path, kw));
        }
        i := i + 1;
      }
      NoneOpened(pool, kwargs, opens);
      assert pool[..i] == pool;
      r := None;
    }
  }

  /** A group whose mirrors all fail has tried every one of them, once
      each and in order, and gives `None`. */
  method AllMirrorsFail(pool: seq<Mirror>, kwargs: Params, opens: Opener)
    returns (r: Option<Opened>, used: seq<MirrorUrl>)
    requires forall j :: 0 <= j < |pool| ==> !Opens(opens, pool[j], kwargs)
    ensures r == None
    ensures |used| == |pool|
    ensures forall j :: 0 <= j < |pool| ==> used[j] == MirrorUrl(pool[j].host, pool[j].path, pool[j].query)
  {
    var g := new CustomMirrorGroup(pool);
    r := g.Urlopen(kwargs, opens);
    assert pool[..|pool|] == pool;
    used := g.usedMirrorUrls;
  }
}
