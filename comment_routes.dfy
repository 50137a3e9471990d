/** The comments route of the api (osc2/comments.py): where the package,
    project and request comment handles send their GET, POST and DELETE
    requests.  What the server answers (parsed with lxml) is not part of this
    model: each operation yields the request it issues. */
module CommentRoutes {
  import opened PyStr
  import HttpRequest

  /** A `Comments` handle; `_path` is fixed by its constructor. */
  datatype Comments = Comments(path: Str)

  /** A request as handed to the request object: method, path, keyword
      query arguments and, for a POST, the body. */
  datatype Call = Call(httpMethod: Str, path: Str, query: HttpRequest.Query, data: Option<Str>)

  /** The words of the comment routes. */
  const CommentsWord: Str := "comments"
  const PackageWord: Str := "package"
  const ProjectWord: Str := "project"
  const RequestWord: Str := "request"

  /** The base of the URLs on the api host, and the separator of a
      project name with its quoting. */
  const ApiBase: Str := "http://localhost/"
  const Colon: Str := ":"
  const QuotedColon: Str := "%3A"

  /** `Comments._get_path(*args)`: `comments/` followed by the arguments
      joined with `/`. */
  function GetPath(args: seq<Str>): (r: Str)
    ensures StartsWith(r, "comments/")
    ensures r[|"comments/"|..] == Join("/", args)
  {
    "comments/" + Join("/", args)
  }

  /** `Comments(*args)`. */
  function NewComments(args: seq<Str>): Comments
  {
    Comments(GetPath(args))
  }

  /** `PackageComment(project, package)`. */
  function PackageComment(project: Str, package: Str): Comments
  {
    NewComments([PackageWord, project, package])
  }

  /** `ProjectComment(project)`. */
  function ProjectComment(project: Str): Comments
  {
    NewComments([ProjectWord, project])
  }

  /** `RequestComment(request)`. */
  function RequestComment(request: Str): Comments
  {
    NewComments([RequestWord, request])
  }

  /** The three handles address `comments/<kind>/<arguments>`, and, for
      arguments without `/`, splitting the path at `/` recovers the kind and
      the arguments. */
  lemma HandlePaths(project: Str, package: Str, request: Str)
    requires '/' !in project && '/' !in package && '/' !in request
    ensures PackageComment(project, package).path == Join("/", [CommentsWord, PackageWord, project, package])
    ensures ProjectComment(project).path == Join("/", [CommentsWord, ProjectWord, project])
    ensures RequestComment(request).path == Join("/", [CommentsWord, RequestWord, request])
    ensures Split(PackageComment(project, package).path, '/') == [CommentsWord, PackageWord, project, package]
    ensures Split(ProjectComment(project).path, '/') == [CommentsWord, ProjectWord, project]
    ensures Split(RequestComment(request).path, '/') == [CommentsWord, RequestWord, request]
  {
    var pkg := [CommentsWord, PackageWord, project, package];
    var prj := [CommentsWord, ProjectWord, project];
    var req := [CommentsWord, RequestWord, request];
    assert pkg[1..] == [PackageWord, project, package];
    assert prj[1..] == [ProjectWord, project];
    assert req[1..] == [RequestWord, request];
    SplitJoin(pkg, '/');
    SplitJoin(prj, '/');
    SplitJoin(req, '/');
  }

  /** `d[key] = value` on the keyword arguments: an existing key keeps its
      place and gets the new value, a new key is added at the end. */
  function SetItem(q: HttpRequest.Query, key: Str, value: Str): (r: HttpRequest.Query)
    ensures (key, value) in r
    ensures forall i :: 0 <= i < |r| && r[i].0 != key ==> r[i] in q
    ensures forall i :: 0 <= i < |q| && q[i].0 != key ==> q[i] in r
  {
    if q == [] then [(key, value)]
    else if q[0].0 == key then [(key, value)] + q[1..]
    else [q[0]] + SetItem(q[1..], key, value)
  }

  /** The HTTP methods of `list` and `create`. */
  const GetMethod: Str := "GET"
  const PostMethod: Str := "POST"

  /** `list(gbg1, gbg2, **kwargs)`: a GET of the handle's path. */
  function List<G>(c: Comments, gbg1: G, gbg2: G, kwargs: HttpRequest.Query): Call
  {
    Call(GetMethod, c.path, kwargs, None)
  }

  /** The two positional arguments of `list` play no part in the request,
      which carries no body. */
  lemma ListIgnoresPositional<G>(c: Comments, x1: G, y1: G, x2: G, y2: G, kwargs: HttpRequest.Query)
    ensures List(c, x1, y1, kwargs) == List(c, x2, y2, kwargs)
    ensures List(c, x1, y1, kwargs).data.None?
  {
  }

  /** `create(comment, parent, **kwargs)`: a POST of the comment text to the
      handle's path; `parent_id` is set iff a parent is given. */
  function Create(c: Comments, comment: Str, parent: Option<Str>, kwargs: HttpRequest.Query): Call
  {
    var q := if parent.Some? then SetItem(kwargs, "parent_id", parent.value) else kwargs;
    Call(PostMethod, c.path, q, Some(comment))
  }

  /** `delete(comment_id, **kwargs)`: a DELETE of `comment/<id>`, whatever
      the handle's own path is. */
  function Delete(c: Comments, commentId: Str, kwargs: HttpRequest.Query): Call
  {
    Call("DELETE", "comment/" + commentId, kwargs, None)
  }

  /** `create` posts the comment to the handle's path, and its query holds
      a `parent_id` exactly for a reply, while the caller's other keyword
      arguments are kept. */
  lemma CreateQuery(c: Comments, comment: Str, parent: Option<Str>, kwargs: HttpRequest.Query)
    requires forall i :: 0 <= i < |kwargs| ==> kwargs[i].0 != "parent_id"
    ensures var r := Create(c, comment, parent, kwargs);
            && r.httpMethod == PostMethod && r.path == c.path && r.data == Some(comment)
            && (parent.Some? ==> ("parent_id", parent.value) in r.query)
            && (parent.None? ==> forall i :: 0 <= i < |r.query| ==> r.query[i].0 != "parent_id")
            && (forall i :: 0 <= i < |kwargs| ==> kwargs[i] in r.query)
  {
  }

  /** `delete` does not depend on the handle it is called on. */
  lemma DeleteIgnoresHandle(c1: Comments, c2: Comments, commentId: Str, kwargs: HttpRequest.Query)
    ensures Delete(c1, commentId, kwargs) == Delete(c2, commentId, kwargs)
    ensures Delete(c1, commentId, kwargs).path == "comment/" + commentId
  {
  }

  const Localhost := HttpRequest.ApiUrl("http", "localhost")

  predicate Safe(s: Str)
  {
    forall i :: 0 <= i < |s| ==> HttpRequest.AlwaysSafe(s[i])
  }

  lemma QuoteColon()
    ensures HttpRequest.QuotePlus(Colon) == QuotedColon
  {
  }

  /** `quote_plus` of `a:b` with `a` and `b` safe is `a%3Ab`. */
  lemma QuoteColonName(a: Str, b: Str)
    requires Safe(a) && Safe(b)
    ensures HttpRequest.QuotePlus(a + Colon + b) == a + QuotedColon + b
  {
    HttpRequest.QuotePlusAppend(a + Colon, b);
    HttpRequest.QuotePlusAppend(a, Colon);
    HttpRequest.QuotePlusSafe(a);
    HttpRequest.QuotePlusSafe(b);
    QuoteColon();
    assert HttpRequest.QuotePlus(a + Colon) == a + QuotedColon;
  }

  lemma LocalhostRequest(m: Str, path: Str)
    ensures HttpRequest.BuildRequest(Localhost, m, path, []).url
            == HttpRequest.Unsplit("http", "localhost", HttpRequest.QuotedPath(path), [])
  {
    assert HttpRequest.QueryString([]) == [];
  }

  lemma LocalhostRelative(url: Str)
    requires url != [] && url[0] != '/'
    ensures HttpRequest.Unsplit("http", "localhost", url, []) == ApiBase + url
  {
    HttpRequest.UnsplitRelative("http", "localhost", url);
  }

  lemma JoinHead(sep: Str, parts: seq<Str>)
    requires |parts| >= 1 && parts[0] != []
    ensures Join(sep, parts) != [] && Join(sep, parts)[0] == parts[0][0]
  {
    if |parts| > 1 {
      assert Join(sep, parts) == parts[0] + sep + Join(sep, parts[1..]);
    }
  }

  /** The URL of a comment route made of `/`-free segments, without query
      arguments and whatever the method: the segments are quoted one by one
      and put under the host. */
  lemma RouteUrl(m: Str, segs: seq<Str>, quoted: seq<Str>)
    requires |segs| >= 1 && |segs[0]| >= 1 && Safe(segs[0])
    requires forall i :: 0 <= i < |segs| ==> '/' !in segs[i]
    requires quoted == HttpRequest.QuoteEach(segs)
    ensures HttpRequest.BuildRequest(Localhost, m, Join("/", segs), []).url
            == ApiBase + Join("/", quoted)
  {
    HttpRequest.QuotedPathOfSegments(segs);
    HttpRequest.QuotePlusSafe(segs[0]);
    JoinHead("/", quoted);
    assert segs[0][0] != '/' by { assert HttpRequest.AlwaysSafe(segs[0][0]); }
    LocalhostRequest(m, Join("/", segs));
    LocalhostRelative(Join("/", quoted));
  }

  lemma SafeHasNoSlash(s: Str)
    requires Safe(s)
    ensures '/' !in s
  {
    forall i | 0 <= i < |s| ensures s[i] != '/' { assert HttpRequest.AlwaysSafe(s[i]); }
  }

  lemma SafeWords()
    ensures Safe(CommentsWord) && Safe(PackageWord) && Safe(ProjectWord) && Safe(RequestWord)
  {
  }

  lemma QuotedRoute4(root: Str, kind: Str, x: Str, y: Str)
    requires Safe(root) && Safe(kind) && Safe(y) && '/' !in x
    ensures HttpRequest.QuoteEach([root, kind, x, y]) == [root, kind, HttpRequest.QuotePlus(x), y]
    ensures forall i :: 0 <= i < 4 ==> '/' !in [root, kind, x, y][i]
  {
    SafeHasNoSlash(root);
    SafeHasNoSlash(kind);
    SafeHasNoSlash(y);
    HttpRequest.QuotePlusSafe(root);
    HttpRequest.QuotePlusSafe(kind);
    HttpRequest.QuotePlusSafe(y);
  }

  lemma QuotedRoute3(root: Str, kind: Str, x: Str)
    requires Safe(root) && Safe(kind) && '/' !in x
    ensures HttpRequest.QuoteEach([root, kind, x]) == [root, kind, HttpRequest.QuotePlus(x)]
    ensures forall i :: 0 <= i < 3 ==> '/' !in [root, kind, x][i]
  {
    SafeHasNoSlash(root);
    SafeHasNoSlash(kind);
    HttpRequest.QuotePlusSafe(root);
    HttpRequest.QuotePlusSafe(kind);
  }

  /** A route `<root>/<kind>/<x>/<y>` of safe words is its own quoting
      except for the one segment `x`. */
  lemma Route4Url(m: Str, root: Str, kind: Str, x: Str, y: Str)
    requires root != [] && Safe(root) && Safe(kind) && Safe(y) && '/' !in x
    ensures HttpRequest.BuildRequest(Localhost, m, Join("/", [root, kind, x, y]), []).url
            == ApiBase + Join("/", [root, kind, HttpRequest.QuotePlus(x), y])
  {
    QuotedRoute4(root, kind, x, y);
    RouteUrl(m, [root, kind, x, y], [root, kind, HttpRequest.QuotePlus(x), y]);
  }

  /** A route `<root>/<kind>/<x>` of safe words is its own quoting except
      for the segment `x`. */
  lemma Route3Url(m: Str, root: Str, kind: Str, x: Str)
    requires root != [] && Safe(root) && Safe(kind) && '/' !in x
    ensures HttpRequest.BuildRequest(Localhost, m, Join("/", [root, kind, x]), []).url
            == ApiBase + Join("/", [root, kind, HttpRequest.QuotePlus(x)])
  {
    QuotedRoute3(root, kind, x);
    RouteUrl(m, [root, kind, x], [root, kind, HttpRequest.QuotePlus(x)]);
  }

  lemma ColonNameHasNoSlash(a: Str, b: Str)
    requires Safe(a) && Safe(b)
    ensures '/' !in a + Colon + b
  {
    SafeHasNoSlash(a);
    SafeHasNoSlash(b);
  }

  /** The request a call makes on the api host `http://localhost`. */
  function Issued(r: Call): HttpRequest.Request
  {
    HttpRequest.BuildRequest(Localhost, r.httpMethod, r.path, r.query)
  }

  /** A package comment of project `a:b` is posted to
      `comments/package/a%3Ab/<package>` on the api host: the `:` is
      quoted, the slashes of the route are not. */
  lemma PackageCommentUrl(a: Str, b: Str, package: Str, comment: Str)
    requires Safe(a) && Safe(b) && Safe(package)
    ensures Issued(Create(PackageComment(a + Colon + b, package), comment, None, []))
            == HttpRequest.Request(PostMethod, ApiBase + Join("/", [CommentsWord, PackageWord, a + QuotedColon + b, package]))
  {
    var prj := a + Colon + b;
    ColonNameHasNoSlash(a, b);
    SafeHasNoSlash(package);
    HandlePaths(prj, package, "1");
    QuoteColonName(a, b);
    SafeWords();
    Route4Url(PostMethod, CommentsWord, PackageWord, prj, package);
  }

  /** A project comment of project `a:b` is posted to
      `comments/project/a%3Ab`. */
  lemma ProjectCommentUrl(a: Str, b: Str, comment: Str)
    requires Safe(a) && Safe(b)
    ensures Issued(Create(ProjectComment(a + Colon + b), comment, None, []))
            == HttpRequest.Request(PostMethod, ApiBase + Join("/", [CommentsWord, ProjectWord, a + QuotedColon + b]))
  {
    var prj := a + Colon + b;
    ColonNameHasNoSlash(a, b);
    HandlePaths(prj, "p", "1");
    QuoteColonName(a, b);
    SafeWords();
    Route3Url(PostMethod, CommentsWord, ProjectWord, prj);
  }

  /** A request comment is posted to `comments/request/<id>`. */
  lemma RequestCommentUrl(request: Str, comment: Str)
    requires Safe(request)
    ensures Issued(Create(RequestComment(request), comment, None, []))
            == HttpRequest.Request(PostMethod, ApiBase + Join("/", [CommentsWord, RequestWord, request]))
  {
    SafeHasNoSlash(request);
    HandlePaths("p", "p", request);
    HttpRequest.QuotePlusSafe(request);
    SafeWords();
    Route3Url(PostMethod, CommentsWord, RequestWord, request);
  }

  /** Listing the comments of package `<package>` in project `a:b` issues a
      GET of `comments/package/a%3Ab/<package>`. */
  lemma ListPackageUrl<G>(a: Str, b: Str, package: Str, gbg1: G, gbg2: G)
    requires Safe(a) && Safe(b) && Safe(package)
    ensures Issued(List(PackageComment(a + Colon + b, package), gbg1, gbg2, []))
            == HttpRequest.Request(GetMethod, ApiBase + Join("/", [CommentsWord, PackageWord, a + QuotedColon + b, package]))
  {
    var prj := a + Colon + b;
    ColonNameHasNoSlash(a, b);
    SafeHasNoSlash(package);
    HandlePaths(prj, package, "1");
    QuoteColonName(a, b);
    SafeWords();
    Route4Url(GetMethod, CommentsWord, PackageWord, prj, package);
  }

  /** Listing the comments of project `a:b` issues a GET of
      `comments/project/a%3Ab`. */
  lemma ListProjectUrl<G>(a: Str, b: Str, gbg1: G, gbg2: G)
    requires Safe(a) && Safe(b)
    ensures Issued(List(ProjectComment(a + Colon + b), gbg1, gbg2, []))
            == HttpRequest.Request(GetMethod, ApiBase + Join("/", [CommentsWord, ProjectWord, a + QuotedColon + b]))
  {
    var prj := a + Colon + b;
    ColonNameHasNoSlash(a, b);
    HandlePaths(prj, "p", "1");
    QuoteColonName(a, b);
    SafeWords();
    Route3Url(GetMethod, CommentsWord, ProjectWord, prj);
  }

  /** Listing the comments of a request issues a GET of
      `comments/request/<id>`. */
  lemma ListRequestUrl<G>(request: Str, gbg1: G, gbg2: G)
    requires Safe(request)
    ensures Issued(List(RequestComment(request), gbg1, gbg2, []))
            == HttpRequest.Request(GetMethod, ApiBase + Join("/", [CommentsWord, RequestWord, request]))
  {
    SafeHasNoSlash(request);
    HandlePaths("p", "p", request);
    HttpRequest.QuotePlusSafe(request);
    SafeWords();
    Route3Url(GetMethod, CommentsWord, RequestWord, request);
  }
}
