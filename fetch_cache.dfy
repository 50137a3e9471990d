/** The build-dependency cache of osc2/fetch.py: `FilenameCacheManager`
    and `NamePreferCacheManager`.  The cache directory is the set of file
    paths present under it; a dependency is cached when the path computed
    for it is present.  A `FilenameCacheManager` is a manager whose
    preference dictionary is empty, so one class models both. */
module FetchCache {
  import opened PyStr

  /** A `BuildDependency` element: its attributes, and `ident`, the
      element's identity (elements compare by identity, so two elements
      with equal attributes are still different dependencies). */
  datatype BDep = BDep(ident: nat, name: Str, project: Str, repository: Str, arch: Str,
                       filename: Str, binarytype: Str, repoarch: Option<Str>, package: Option<Str>)

  /** The outcome of a cache operation: a value, or the `ValueError` it
      raises, with its message. */
  datatype CacheResult<T> = Done(value: T) | ValueError(msg: Str)

  /** `os.path.join(a, b)` of posixpath: an absolute `b` replaces `a`; a
      `'/'` goes between them unless `a` is empty or ends in one. */
  function PathJoin(a: Str, b: Str): (r: Str)
    ensures StartsWith(b, "/") ==> r == b
    ensures !StartsWith(b, "/") ==> StartsWith(r, a) && |b| <= |r| && r[|r| - |b|..] == b
  {
    if StartsWith(b, "/") then b
    else if a == [] || a[|a| - 1] == '/' then a + b
    else a + "/" + b
  }

  /** `_calculate_filename`: the preferred file of the dependency's name,
      else `root/project/repository/arch/filename` joined as paths.  The
      source joins `self` in front of `root`; for an absolute `root` the
      join starts afresh at `root`, which is what is modelled here. */
  function CalculateFilename(root: Str, prefers: map<Str, Str>, bdep: BDep): (r: Str)
    ensures bdep.name in prefers ==> r == prefers[bdep.name]
    ensures bdep.name !in prefers && !StartsWith(bdep.filename, "/") ==> |bdep.filename| <= |r| && r[|r| - |bdep.filename|..] == bdep.filename
  {
    if bdep.name in prefers then prefers[bdep.name]
    else PathJoin(PathJoin(PathJoin(PathJoin(root, bdep.project), bdep.repository), bdep.arch), bdep.filename)
  }

  /** The state of a cache manager: its root, its preferences and the
      paths present under the root. */
  datatype CacheView = CacheView(root: Str, prefers: map<Str, Str>, files: set<Str>)

  /** The path of a dependency in a cache. */
  function PathIn(v: CacheView, bdep: BDep): Str
  {
    CalculateFilename(v.root, v.prefers, bdep)
  }

  /** `exists(bdep)`: the dependency's path is present. */
  predicate InCache(v: CacheView, bdep: BDep)
  {
    PathIn(v, bdep) in v.files
  }

  /** A path component that neither is empty nor starts or ends with `'/'`. */
  predicate Segment(s: Str)
  {
    s != [] && s[0] != '/' && s[|s| - 1] != '/'
  }

  /** Joining a component that does not start with `'/'` to a path that is
      non-empty and does not end in one inserts exactly one `'/'`. */
  lemma JoinPlain(a: Str, b: Str)
    requires a != [] && a[|a| - 1] != '/'
    requires b == [] || b[0] != '/'
    ensures PathJoin(a, b) == a + "/" + b
  {
    assert !StartsWith(b, "/");
  }

  /** Without a preference and with plain components, the cached file of a
      dependency is `root/project/repository/arch/filename`. */
  lemma {:induction false} FilenameLayout(root: Str, prefers: map<Str, Str>, bdep: BDep)
    requires bdep.name !in prefers
    requires root != [] && root[|root| - 1] != '/'
    requires Segment(bdep.project) && Segment(bdep.repository) && Segment(bdep.arch)
    requires bdep.filename == [] || bdep.filename[0] != '/'
    ensures CalculateFilename(root, prefers, bdep)
            == root + "/" + bdep.project + "/" + bdep.repository + "/" + bdep.arch + "/" + bdep.filename
  {
    var p1 := root + "/" + bdep.project;
    JoinPlain(root, bdep.project);
    var p2 := p1 + "/" + bdep.repository;
    JoinPlain(p1, bdep.repository);
    var p3 := p2 + "/" + bdep.arch;
    JoinPlain(p2, bdep.arch);
    JoinPlain(p3, bdep.filename);
  }

  /** Dependencies with the same preferred name share one file, whatever
      their project, version or architecture. */
  lemma PreferredShareFile(root: Str, prefers: map<Str, Str>, a: BDep, b: BDep)
    requires a.name == b.name && a.name in prefers
    ensures CalculateFilename(root, prefers, a) == CalculateFilename(root, prefers, b)
  {
  }

  const FilePrefix: Str := "bdep for file \""
  const MissingSuffix: Str := "\" does not exist"
  const PresentSuffix: Str := "\" already exists"

  /** The message of the `ValueError` for a dependency that is not cached. */
  function MissingMessage(bdep: BDep): Str
  {
    FilePrefix + bdep.filename + MissingSuffix
  }

  /** The message of the `ValueError` for a dependency already cached. */
  function PresentMessage(bdep: BDep): Str
  {
    FilePrefix + bdep.filename + PresentSuffix
  }

  /** What the file system says about the cache root when a manager is
      created: absent, a directory (writable or not), or some other file. */
  datatype RootState = Missing | Dir(writable: bool) | NotDir

  const RootPrefix: Str := "root \""
  const NoDirSuffix: Str := "\" exists but is no dir"
  const NotWritableSuffix: Str := "\" exists but is not writable"

  /** The message of the `ValueError` for a root that is not a directory. */
  function NoDirMessage(root: Str): Str
  {
    RootPrefix + root + NoDirSuffix
  }

  /** The message of the `ValueError` for a directory root that cannot be
      written. */
  function NotWritableMessage(root: Str): Str
  {
    RootPrefix + root + NotWritableSuffix
  }

  /** The check of `CacheManager.__init__`: an existing root must be a
      writable directory; a missing root is accepted. */
  function CheckRoot(root: Str, state: RootState): (r: CacheResult<()>)
    ensures r.ValueError? <==> state.NotDir? || (state.Dir? && !state.writable)
    ensures state.NotDir? ==> r.msg == NoDirMessage(root)
    ensures state.Dir? && !state.writable ==> r.msg == NotWritableMessage(root)
  {
    match state
    case NotDir => ValueError(NoDirMessage(root))
    case Dir(writable) => if writable then Done(()) else ValueError(NotWritableMessage(root))
    case Missing => Done(())
  }

  /** A cache manager: the cache root, the name-to-file preferences and the
      set of paths present on disk. */
  class CacheManager {
    const root: Str
    var prefers: map<Str, Str>
    var files: set<Str>

    /** A manager over an absolute cache root.  With a relative root the
        source's `os.path.join(self, root, ...)` fails on its first use. */
    constructor(root: Str, prefers: map<Str, Str>, files: set<Str>)
      requires StartsWith(root, "/")
      ensures this.root == root && this.prefers == prefers && this.files == files
    {
      this.root := root;
      this.prefers := prefers;
      this.files := files;
    }

    /** `CacheManager(root)` with the root's state on disk: `ValueError` for
        a root that exists but is no directory or is not writable, else a
        fresh manager over that root. */
    static method Open(root: Str, state: RootState, prefers: map<Str, Str>, files: set<Str>)
      returns (r: CacheResult<CacheManager>)
      requires StartsWith(root, "/")
      ensures state.NotDir? ==> r == ValueError(NoDirMessage(root))
      ensures state.Dir? && !state.writable ==> r == ValueError(NotWritableMessage(root))
      ensures state.Missing? || state == Dir(true) ==>
                r.Done? && fresh(r.value) && r.value.root == root
                && r.value.prefers == prefers && r.value.files == files
    {
      var check := CheckRoot(root, state);
      if check.ValueError? {
        return ValueError(check.msg);
      }
      var c := new CacheManager(root, prefers, files);
      r := Done(c);
    }

    /** The manager's state as a value. */
    function View(): CacheView
      reads this
    {
      CacheView(root, prefers, files)
    }

    /** The path of a dependency in the cache. */
    function Filename(bdep: BDep): Str
      reads this
    {
      PathIn(View(), bdep)
    }

    /** `exists(bdep)`: the dependency's path is present. */
    predicate Exists(bdep: BDep)
      reads this
    {
      InCache(View(), bdep)
    }

    /** `filename(bdep)`: the path of a cached dependency; `ValueError` when
        it is not cached. */
    method FilenameOf(bdep: BDep) returns (r: CacheResult<Str>)
      ensures Exists(bdep) ==> r == Done(Filename(bdep))
      ensures !Exists(bdep) ==> r == ValueError(MissingMessage(bdep))
    {
      if CalculateFilename(root, prefers, bdep) !in files {
        return ValueError(MissingMessage(bdep));
      }
      r := Done(CalculateFilename(root, prefers, bdep));
    }

    /** `remove(bdep)`: a preferred name only loses its preference and no
        file is touched; otherwise the dependency's file is deleted, and
        `ValueError` is raised when it is not cached. */
    method Remove(bdep: BDep) returns (r: CacheResult<()>)
      modifies this
      ensures bdep.name in old(prefers) ==>
                r == Done(()) && prefers == old(prefers) - {bdep.name} && files == old(files)
      ensures bdep.name !in old(prefers) && old(Exists(bdep)) ==>
                r == Done(()) && prefers == old(prefers) && files == old(files) - {old(Filename(bdep))}
      ensures bdep.name !in old(prefers) && !old(Exists(bdep)) ==>
                r == ValueError(MissingMessage(bdep)) && prefers == old(prefers) && files == old(files)
    {
      if bdep.name in prefers {
        prefers := prefers - {bdep.name};
        return Done(());
      }
      var fname := CalculateFilename(root, prefers, bdep);
      if fname !in files {
        return ValueError(MissingMessage(bdep));
      }
      files := files - {fname};
      r := Done(());
    }

    /** `write(bdep, source)`: stores the dependency at its path;
        `ValueError` when it is already cached. */
    method Write(bdep: BDep) returns (r: CacheResult<()>)
      modifies this
      ensures prefers == old(prefers)
      ensures old(Exists(bdep)) ==> r == ValueError(PresentMessage(bdep)) && files == old(files)
      ensures !old(Exists(bdep)) ==> r == Done(()) && files == old(files) + {Filename(bdep)}
      ensures Exists(bdep)
    {
      var fname := CalculateFilename(root, prefers, bdep);
      if fname in files {
        return ValueError(PresentMessage(bdep));
      }
      files := files + {fname};
      r := Done(());
    }
  }

  /** Writing a dependency that is not cached and then removing it leaves
      the cache as it was; `filename` succeeds in between. */
  method WriteThenRemove(root: Str, files: set<Str>, bdep: BDep)
    returns (written: CacheResult<()>, found: CacheResult<Str>, removed: CacheResult<()>, after: set<Str>)
    requires StartsWith(root, "/")
    requires CalculateFilename(root, map[], bdep) !in files
    ensures written == Done(()) && removed == Done(())
    ensures found == Done(CalculateFilename(root, map[], bdep))
    ensures after == files
  {
    var c := new CacheManager(root, map[], files);
    written := c.Write(bdep);
    found := c.FilenameOf(bdep);
    removed := c.Remove(bdep);
    after := c.files;
  }

  /** Removing a dependency by a preferred name keeps its file, and the
      name then resolves to the dependency's own path. */
  method RemovePreferred(root: Str, prefers: map<Str, Str>, files: set<Str>, bdep: BDep)
    returns (removed: CacheResult<()>, after: set<Str>, path: Str)
    requires StartsWith(root, "/")
    requires bdep.name in prefers
    ensures removed == Done(())
    ensures after == files
    ensures path == CalculateFilename(root, prefers - {bdep.name}, bdep)
    ensures path != prefers[bdep.name] || CalculateFilename(root, map[], bdep) == prefers[bdep.name]
  {
    var c := new CacheManager(root, prefers, files);
    removed := c.Remove(bdep);
    after := c.files;
    path := c.Filename(bdep);
  }

  /** Writing a dependency twice: the second write raises `ValueError` and
      changes nothing. */
  method WriteTwice(root: Str, prefers: map<Str, Str>, files: set<Str>, bdep: BDep)
    returns (second: CacheResult<()>, after: set<Str>)
    requires StartsWith(root, "/")
    ensures second == ValueError(PresentMessage(bdep))
    ensures after == files + {CalculateFilename(root, prefers, bdep)}
  {
    var c := new CacheManager(root, prefers, files);
    var _ := c.Write(bdep);
    second := c.Write(bdep);
    after := c.files;
  }
}
