/** Request construction of `Urllib2HTTPRequest` (osc/httprequest.py): the
    URL built from the api url, a path and query parameters, the check of the
    PUT/POST arguments, and the choice of how a file body is sent.  The
    transport itself (urllib2, cookies, authentication, schema validation) is
    not part of this model. */
module HttpRequest {
  import opened PyStr

  // ---------------------------------------------------------------------
  // urllib.quote_plus and its inverse

  /** The bytes `urllib.quote` never encodes (Python 2.7): ASCII letters,
      digits and `_.-`.  `quote_plus` is called with no further safe bytes. */
  predicate AlwaysSafe(c: Byte)
  {
    ('A' <= c <= 'Z') || ('a' <= c <= 'z') || ('0' <= c <= '9') || c == '_' || c == '.' || c == '-'
  }

  /** The bytes that can occur in the output of `quote_plus`. */
  predicate QuotedByte(c: Byte)
  {
    AlwaysSafe(c) || c == '%' || c == '+'
  }

  predicate IsQuoted(s: Str)
  {
    forall i :: 0 <= i < |s| ==> QuotedByte(s[i])
  }

  /** Upper-case hexadecimal digit, as in `'%%%02X'`. */
  function HexDigit(n: nat): (c: Byte)
    requires n < 16
    ensures AlwaysSafe(c)
  {
    if n < 10 then ('0' as int + n) as char else ('A' as int + n - 10) as char
  }

  /** Value of a hexadecimal digit of either case. */
  function HexValue(c: Byte): Option<nat>
  {
    if '0' <= c <= '9' then Some(c as int - '0' as int)
    else if 'a' <= c <= 'f' then Some(c as int - 'a' as int + 10)
    else if 'A' <= c <= 'F' then Some(c as int - 'A' as int + 10)
    else None
  }

  function QuoteByte(c: Byte): (r: Str)
    ensures IsQuoted(r) && r != []
  {
    if AlwaysSafe(c) then [c]
    else if c == ' ' then "+"
    else ['%', HexDigit(c as int / 16), HexDigit(c as int % 16)]
  }

  /** `urllib.quote_plus(s)`: safe bytes stay, a space becomes `+`, every
      other byte becomes `%XX`.  The result holds only safe bytes, `%` and
      `+`, so in particular no `/`, `&`, `=`, `?` or `#`. */
  function QuotePlus(s: Str): (r: Str)
    ensures IsQuoted(r)
    ensures |r| >= |s|
  {
    if s == [] then [] else QuoteByte(s[0]) + QuotePlus(s[1..])
  }

  /** `urllib.unquote_plus(s)`: `+` becomes a space and a well-formed `%XX`
      becomes its byte; anything else is kept. */
  function UnquotePlus(s: Str): Str
  {
    if s == [] then []
    else if s[0] == '+' then " " + UnquotePlus(s[1..])
    else if s[0] == '%' && |s| >= 3 && HexValue(s[1]).Some? && HexValue(s[2]).Some? then
      [(16 * HexValue(s[1]).value + HexValue(s[2]).value) as char] + UnquotePlus(s[3..])
    else [s[0]] + UnquotePlus(s[1..])
  }

  lemma QuotePlusAppend(a: Str, b: Str)
    ensures QuotePlus(a + b) == QuotePlus(a) + QuotePlus(b)
  {
    if a != [] {
      assert (a + b)[0] == a[0];
      assert (a + b)[1..] == a[1..] + b;
      QuotePlusAppend(a[1..], b);
    } else {
      assert a + b == b;
    }
  }

  lemma UnquoteQuotedByte(c: Byte, rest: Str)
    ensures UnquotePlus(QuoteByte(c) + rest) == [c] + UnquotePlus(rest)
  {
    var q := QuoteByte(c);
    if AlwaysSafe(c) {
      assert (q + rest)[1..] == rest;
    } else if c == ' ' {
      assert (q + rest)[1..] == rest;
    } else {
      var hi, lo := c as int / 16, c as int % 16;
      assert HexValue(HexDigit(hi)) == Some(hi);
      assert HexValue(HexDigit(lo)) == Some(lo);
      assert (q + rest)[1] == HexDigit(hi) && (q + rest)[2] == HexDigit(lo);
      assert (q + rest)[3..] == rest;
    }
  }

  /** Decoding undoes `quote_plus`: no information is lost. */
  lemma {:induction false} QuotePlusRoundTrip(s: Str)
    ensures UnquotePlus(QuotePlus(s)) == s
  {
    if s != [] {
      QuotePlusRoundTrip(s[1..]);
      UnquoteQuotedByte(s[0], QuotePlus(s[1..]));
    }
  }

  // ---------------------------------------------------------------------
  // _build_request

  /** Keyword arguments of a request, in the order the dict yields them. */
  type Query = seq<(Str, Str)>

  /** The pairs `_build_request` keeps: those whose value is not empty. */
  function NonEmpty(q: Query): (r: Query)
    ensures forall i :: 0 <= i < |r| ==> r[i].1 != [] && r[i] in q
    ensures |r| <= |q|
  {
    if q == [] then []
    else if q[0].1 == [] then NonEmpty(q[1..])
    else [q[0]] + NonEmpty(q[1..])
  }

  function QuoteEach(parts: seq<Str>): (r: seq<Str>)
    ensures |r| == |parts|
    ensures forall i :: 0 <= i < |r| ==> r[i] == QuotePlus(parts[i])
  {
    if parts == [] then [] else [QuotePlus(parts[0])] + QuoteEach(parts[1..])
  }

  function QueryPairs(q: Query): (r: seq<Str>)
    ensures |r| == |q|
  {
    if q == [] then [] else [QuotePlus(q[0].0) + "=" + QuotePlus(q[0].1)] + QueryPairs(q[1..])
  }

  /** The path quoted segment by segment (`'/'.join(quote_plus(p) for p in path.split('/'))`). */
  function QuotedPath(path: Str): Str
  {
    Join("/", QuoteEach(Split(path, '/')))
  }

  /** The query string: the non-empty pairs, quoted, joined by `&`. */
  function QueryString(q: Query): Str
  {
    Join("&", QueryPairs(NonEmpty(q)))
  }

  /** The schemes `urlparse.uses_netloc` lists (Python 2.7). */
  predicate UsesNetloc(scheme: Str)
  {
    scheme in ["ftp", "http", "gopher", "nntp", "telnet", "imap", "wais", "file", "mms", "https",
               "shttp", "snews", "prospero", "rtsp", "rtspu", "rsync", "", "svn", "svn+ssh",
               "sftp", "nfs", "git", "git+ssh"]
  }

  /** `urlparse.urlunsplit((scheme, netloc, url, query, ''))`. */
  function Unsplit(scheme: Str, netloc: Str, url: Str, query: Str): Str
  {
    var url1 :=
      if netloc != [] || (scheme != [] && UsesNetloc(scheme) && !StartsWith(url, "//")) then
        "//" + netloc + (if url != [] && url[0] != '/' then "/" + url else url)
      else url;
    var url2 := if scheme != [] then scheme + ":" + url1 else url1;
    if query != [] then url2 + "?" + query else url2
  }

  /** The scheme and host that `urlsplit(self.apiurl)[0:2]` yields. */
  datatype ApiUrl = ApiUrl(scheme: Str, netloc: Str)

  datatype Request = Request(httpMethod: Str, url: Str)

  /** `_build_request(method, path, **query)`. */
  function BuildRequest(apiurl: ApiUrl, httpMethod: Str, path: Str, q: Query): Request
  {
    Request(httpMethod, Unsplit(apiurl.scheme, apiurl.netloc, QuotedPath(path), QueryString(q)))
  }

  /** Joining quoted segments with `/` keeps the segments apart: splitting
      the quoted path at `/` gives the quoted segments, one per original
      segment, and each decodes back to the original segment. */
  lemma {:induction false} QuotedPathSegments(path: Str)
    ensures Split(QuotedPath(path), '/') == QuoteEach(Split(path, '/'))
    ensures |Split(QuotedPath(path), '/')| == |Split(path, '/')|
    ensures forall i :: 0 <= i < |Split(path, '/')| ==>
              UnquotePlus(Split(QuotedPath(path), '/')[i]) == Split(path, '/')[i]
  {
    var parts := QuoteEach(Split(path, '/'));
    forall i | 0 <= i < |parts| ensures '/' !in parts[i] {
      QuotedHasNo(parts[i], '/');
    }
    SplitJoin(parts, '/');
    forall i | 0 <= i < |Split(path, '/')|
      ensures UnquotePlus(Split(QuotedPath(path), '/')[i]) == Split(path, '/')[i]
    {
      QuotePlusRoundTrip(Split(path, '/')[i]);
    }
  }

  /** Reading a query string back: split at `&`, then at `=`, and decode. */
  function ParseQuery(s: Str): Query
  {
    if s == [] then [] else ParsePairs(Split(s, '&'))
  }

  function ParsePairs(pairs: seq<Str>): (r: Query)
    ensures |r| == |pairs|
  {
    if pairs == [] then []
    else
      var kv := Split(pairs[0], '=');
      [(UnquotePlus(kv[0]), UnquotePlus(Join("=", kv[1..])))] + ParsePairs(pairs[1..])
  }

  lemma QuotedHasNo(s: Str, c: Byte)
    requires IsQuoted(s) && !QuotedByte(c)
    ensures c !in s
  {
    forall i | 0 <= i < |s| ensures s[i] != c {
      assert QuotedByte(s[i]);
    }
  }

  lemma {:induction false} ParseQueryPairs(q: Query)
    ensures ParsePairs(QueryPairs(q)) == q
    ensures forall i :: 0 <= i < |QueryPairs(q)| ==> '&' !in QueryPairs(q)[i]
  {
    if q != [] {
      ParseQueryPairs(q[1..]);
      var (k, v) := q[0];
      var qk, qv := QuotePlus(k), QuotePlus(v);
      QuotedHasNo(qk, '='); QuotedHasNo(qv, '=');
      QuotedHasNo(qk, '&'); QuotedHasNo(qv, '&');
      SplitJoin([qk, qv], '=');
      assert Join("=", [qk, qv]) == qk + "=" + qv;
      assert Split(qk + "=" + qv, '=')[1..] == [qv];
      QuotePlusRoundTrip(k);
      QuotePlusRoundTrip(v);
      assert '&' !in qk + "=" + qv;
    }
  }

  /** The query string carries exactly the pairs with a non-empty value, in
      order, each recoverable by decoding. */
  lemma QueryStringRoundTrip(q: Query)
    ensures ParseQuery(QueryString(q)) == NonEmpty(q)
  {
    var kept := NonEmpty(q);
    ParseQueryPairs(kept);
    if kept != [] {
      SplitJoin(QueryPairs(kept), '&');
      assert |QueryPairs(kept)| >= 1;
      if |kept| == 1 {
        assert QueryString(q) == QueryPairs(kept)[0];
      } else {
        assert QueryString(q) == QueryPairs(kept)[0] + "&" + Join("&", QueryPairs(kept)[1..]);
      }
      assert QueryString(q) != [];
    }
  }

  /** `scheme://host`, the start of a URL with a host. */
  function Origin(scheme: Str, netloc: Str): Str
  {
    scheme + "://" + netloc
  }

  /** With a scheme and a host, `urlunsplit` starts with `scheme://host`
      and adds no `#` of its own after it. */
  lemma UnsplitWithHost(scheme: Str, netloc: Str, url: Str, query: Str)
    requires scheme != [] && netloc != []
    requires '#' !in url && '#' !in query
    ensures StartsWith(Unsplit(scheme, netloc, url, query), Origin(scheme, netloc))
    ensures '#' !in Unsplit(scheme, netloc, url, query)[|Origin(scheme, netloc)|..]
  {
    var prefix := Origin(scheme, netloc);
    var p1 := if url != [] && url[0] != '/' then "/" + url else url;
    var p2 := if query != [] then "?" + query else [];
    var url1 := "//" + netloc + p1;
    var url2 := scheme + ":" + url1;
    assert url2 == prefix + p1;
    assert Unsplit(scheme, netloc, url, query) == url2 + p2;
    assert (prefix + p1 + p2)[|prefix|..] == p1 + p2;
    assert (prefix + p1 + p2)[..|prefix|] == prefix;
  }

  /** The URL keeps the scheme and host of the api url, and the part after
      the host holds the quoted path and query and no fragment. */
  lemma BuildRequestShape(apiurl: ApiUrl, httpMethod: Str, path: Str, q: Query)
    requires apiurl.scheme != [] && apiurl.netloc != []
    ensures StartsWith(BuildRequest(apiurl, httpMethod, path, q).url, Origin(apiurl.scheme, apiurl.netloc))
    ensures '#' !in BuildRequest(apiurl, httpMethod, path, q).url[|Origin(apiurl.scheme, apiurl.netloc)|..]
  {
    QuotedPathNoHash(path);
    QueryStringNoHash(q);
    UnsplitWithHost(apiurl.scheme, apiurl.netloc, QuotedPath(path), QueryString(q));
  }

  lemma {:induction false} JoinNoHash(sep: Str, parts: seq<Str>)
    requires '#' !in sep
    requires forall i :: 0 <= i < |parts| ==> '#' !in parts[i]
    ensures '#' !in Join(sep, parts)
  {
    if |parts| > 1 {
      JoinNoHash(sep, parts[1..]);
    }
  }

  lemma QuotedPathNoHash(path: Str)
    ensures '#' !in QuotedPath(path)
  {
    var parts := QuoteEach(Split(path, '/'));
    forall i | 0 <= i < |parts| ensures '#' !in parts[i] {
      QuotedHasNo(parts[i], '#');
    }
    JoinNoHash("/", parts);
  }

  lemma {:induction false} QueryPairsNoHash(q: Query)
    ensures forall i :: 0 <= i < |QueryPairs(q)| ==> '#' !in QueryPairs(q)[i]
  {
    if q != [] {
      QueryPairsNoHash(q[1..]);
      QuotedHasNo(QuotePlus(q[0].0), '#');
      QuotedHasNo(QuotePlus(q[0].1), '#');
      assert '#' !in QuotePlus(q[0].0) + "=" + QuotePlus(q[0].1);
    }
  }

  lemma QueryStringNoHash(q: Query)
    ensures '#' !in QueryString(q)
  {
    QueryPairsNoHash(NonEmpty(q));
    JoinNoHash("&", QueryPairs(NonEmpty(q)));
  }

  /** Bytes that are always safe are left alone by `quote_plus`. */
  lemma {:induction false} QuotePlusSafe(s: Str)
    requires forall i :: 0 <= i < |s| ==> AlwaysSafe(s[i])
    ensures QuotePlus(s) == s
  {
    if s != [] {
      QuotePlusSafe(s[1..]);
    }
  }

  /** A path given as `/`-free segments is quoted segment by segment. */
  lemma QuotedPathOfSegments(segs: seq<Str>)
    requires |segs| >= 1
    requires forall i :: 0 <= i < |segs| ==> '/' !in segs[i]
    ensures QuotedPath(Join("/", segs)) == Join("/", QuoteEach(segs))
  {
    SplitJoin(segs, '/');
  }

  /** A relative path on an api url with a scheme and a host, without query
      arguments, becomes `scheme://host/path`. */
  lemma UnsplitRelative(scheme: Str, netloc: Str, url: Str)
    requires scheme != [] && netloc != [] && url != [] && url[0] != '/'
    ensures Unsplit(scheme, netloc, url, []) == scheme + "://" + netloc + "/" + url
  {
  }

  // ---------------------------------------------------------------------
  // put / post

  datatype Error = ValueError(msg: Str) | TypeError

  datatype Result<+T> = Ok(value: T) | Err(error: Error)

  /** `_check_put_post_args(data, filename)`; `isFile` is what
      `os.path.isfile(filename)` answers. */
  function CheckPutPostArgs(data: Option<Str>, filename: Str, isFile: bool): (r: Result<()>)
    ensures r.Err? <==> filename != [] && (data.Some? || !isFile)
    ensures r.Err? ==> r.error.ValueError?
  {
    if filename != [] && data.Some? then Err(ValueError("either specify file or data but not both"))
    else if filename != [] && !isFile then Err(ValueError("filename " + filename + " does not exist"))
    else Ok(())
  }

  /** The settings of an `Urllib2HTTPRequest` the modelled code reads. */
  datatype Settings = Settings(apiurl: ApiUrl, useMmap: bool, mmapFsize: nat)

  /** Default `mmap_fsize` of the constructor: 512 KiB. */
  const DefaultMmapFsize: nat := 1024 * 512

  /** How a body reaches urllib2: whether the file was memory-mapped, and
      the bytes sent (None when no body is passed). */
  datatype Payload = Payload(mapped: bool, body: Option<Str>)

  /** Whether `_send_file` memory-maps the file: mmap is enabled, the file
      is at least `mmap_fsize` bytes and the body is not urlencoded. */
  predicate UsesMmap(s: Settings, content: Str, urlencoded: bool)
  {
    s.useMmap && |content| >= s.mmapFsize && !urlencoded
  }

  const EmptyMmapMessage: Str := "cannot mmap an empty file"

  /** `_send_file`: a memory-mapped file is sent as is, any other file is
      read and quoted if urlencoded.  `mmap.mmap` refuses an empty file
      (possible only when `mmap_fsize` is 0) with a `ValueError`. */
  function SendFile(s: Settings, content: Str, urlencoded: bool): Result<Payload>
  {
    if UsesMmap(s, content, urlencoded) && content == [] then Err(ValueError(EmptyMmapMessage))
    else Ok(Payload(UsesMmap(s, content, urlencoded),
                    Some(if urlencoded then QuotePlus(content) else content)))
  }

  /** A PUT or POST as issued by `put`/`post`: the request and its payload.
      `files` maps the existing regular files to their contents. */
  datatype Sent = Sent(request: Request, payload: Payload)

  /** `put`/`post`: check the arguments, build the request, then send the
      file or the data (`quote_plus(None)` raises a TypeError). */
  function Send(s: Settings, httpMethod: Str, path: Str, data: Option<Str>, filename: Str,
                files: map<Str, Str>, urlencoded: bool, q: Query): Result<Sent>
  {
    match CheckPutPostArgs(data, filename, filename in files)
    case Err(e) => Err(e)
    case Ok(_) =>
      var request := BuildRequest(s.apiurl, httpMethod, path, q);
      if filename != [] then
        match SendFile(s, files[filename], urlencoded)
        case Err(e) => Err(e)
        case Ok(payload) => Ok(Sent(request, payload))
      else if urlencoded && data.None? then Err(TypeError)
      else if urlencoded then Ok(Sent(request, Payload(false, Some(QuotePlus(data.value)))))
      else Ok(Sent(request, Payload(false, data)))
  }

  /** What a PUT/POST sends is the given data or the file's content (decoded
      if urlencoded); mmap is used only for large, non-urlencoded files; the
      call fails exactly when `_check_put_post_args`, the quoting of a
      missing body or the mapping of an empty file fails. */
  lemma SendCarriesContent(s: Settings, httpMethod: Str, path: Str, data: Option<Str>, filename: Str,
                           files: map<Str, Str>, urlencoded: bool, q: Query)
    ensures var r := Send(s, httpMethod, path, data, filename, files, urlencoded, q);
            && (r.Err? <==> (filename != [] && (data.Some? || filename !in files))
                            || (filename == [] && urlencoded && data.None?)
                            || (filename != [] && data.None? && filename in files
                                && UsesMmap(s, files[filename], urlencoded) && files[filename] == []))
            && (r.Err? && filename != [] && data.None? && filename in files ==>
                  r.error == ValueError(EmptyMmapMessage))
            && (r.Ok? ==> r.value.request == BuildRequest(s.apiurl, httpMethod, path, q))
            && (r.Ok? && filename != [] ==>
                  r.value.payload.body.Some? &&
                  (if urlencoded then UnquotePlus(r.value.payload.body.value) else r.value.payload.body.value)
                  == files[filename])
            && (r.Ok? && filename == [] && data.Some? ==>
                  r.value.payload.body.Some? &&
                  (if urlencoded then UnquotePlus(r.value.payload.body.value) else r.value.payload.body.value)
                  == data.value)
            && (r.Ok? && r.value.payload.mapped <==>
                  r.Ok? && filename != [] && UsesMmap(s, files[filename], urlencoded))
  {
    if filename != [] && filename in files {
      QuotePlusRoundTrip(files[filename]);
    }
    if data.Some? {
      QuotePlusRoundTrip(data.value);
    }
  }
}
