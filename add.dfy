/** The `add` command (osc2/cli/add/add.py): adding files to a package
    working copy or a package to a project working copy.  A working-copy
    path is a record of its parsed parts and of whether a project or
    package working copy exists there; the working copies' own `add`
    methods are not modelled, each call to them is recorded as an action. */
module Add {
  import opened PyStr
  import Cli

  /** A parsed working-copy path: project, package and file name parts,
      and whether `project_obj()` / `package_obj()` find a working copy. */
  datatype WcPath = WcPath(project: Option<Str>, package: Option<Str>, filename: Option<Str>,
                           hasProjectObj: bool, hasPackageObj: bool)

  /** The path argument of `add`: one path, or a sequence of paths. */
  datatype PathArg = Single(path: WcPath) | Many(paths: seq<WcPath>)

  /** A call into a working copy: `pkg.add(filename)` on the package
      working copy at a path, or `prj.add(package, no_files=...)` on the
      project working copy at a path. */
  datatype Action =
    | AddFile(at: WcPath, filename: Str)
    | AddPackage(at: WcPath, package: Option<Str>, noFiles: Cli.Value)

  /** The docstring of `add_files`, whose `illegal options:` section is the
      error message of its `illegal_options('package_only')` check. */
  const AddFilesSummary: Str := "Adds the files specified via"
  const AddFilesIllegal: Str := "illegal options: --%(opt)s"
  const AddFilesDoc: Str :=
    AddFilesSummary + " filenames to the package pkg.\n\n    "
    + AddFilesIllegal + " is only support on project level\n\n    "

  /** What `add_files(pkg, info, *filenames)` does: the decorator's check,
      then the check for at least one file name, then one `pkg.add` per
      file name. */
  function FilesOutcome(at: WcPath, info: Cli.Info, filenames: seq<Str>): Cli.Result<seq<Action>>
  {
    match Cli.CheckIllegal(["package_only"], [], Some(AddFilesDoc), info)
    case Err(e) => Cli.Err(e)
    case Ok(_) =>
      if filenames == [] then Cli.Err(Cli.ValueError("At least one filename is required"))
      else Cli.Ok(seq(|filenames|, i requires 0 <= i < |filenames| => AddFile(at, filenames[i])))
  }

  /** `add_files(pkg, info, *filenames)`. */
  method AddFiles(at: WcPath, info: Cli.Info, filenames: seq<Str>) returns (actions: seq<Action>, r: Cli.Result<()>)
    ensures r.Err? <==> Cli.Truthy(Cli.Get(info, "package_only")) || filenames == []
    ensures r.Err? ==> actions == []
    ensures r.Ok? ==> |actions| == |filenames| && forall i :: 0 <= i < |filenames| ==> actions[i] == AddFile(at, filenames[i])
    ensures FilesOutcome(at, info, filenames) == if r.Ok? then Cli.Ok(actions) else Cli.Err(r.error)
  {
    actions := [];
    var check := Cli.CheckIllegal(["package_only"], [], Some(AddFilesDoc), info);
    if check.Err? {
      return actions, Cli.Err(check.error);
    }
    if filenames == [] {
      return actions, Cli.Err(Cli.ValueError("At least one filename is required"));
    }
    var i := 0;
    while i < |filenames|
      invariant 0 <= i <= |filenames|
      invariant |actions| == i
      invariant forall j :: 0 <= j < i ==> actions[j] == AddFile(at, filenames[j])
    {
      actions := actions + [AddFile(at, filenames[i])];
      i := i + 1;
    }
    assert actions == seq(|filenames|, i requires 0 <= i < |filenames| => AddFile(at, filenames[i]));
    r := Cli.Ok(());
  }

  /** The file names `add` hands to `add_files`: the path's file name when
      it is non-empty, else none. */
  function FileNamesOf(p: WcPath): seq<Str>
  {
    if p.filename.Some? && p.filename.value != [] then [p.filename.value] else []
  }

  /** What `add` does for one path. */
  function PathOutcome(p: WcPath, info: Cli.Info): Cli.Result<seq<Action>>
  {
    if p.package.None? && p.filename.None? then Cli.Err(Cli.ValueError("package and/or filename required"))
    else if p.hasPackageObj then FilesOutcome(p, info, FileNamesOf(p))
    else if p.hasProjectObj then Cli.Ok([AddPackage(p, p.package, Cli.Get(info, "package_only"))])
    else Cli.Ok([])
  }

  /** A path fails exactly when it names neither package nor file, or
      when it is in a package working copy and either `package_only` is
      set or it names no file; a package working copy gets its one file,
      otherwise a project working copy gets the package with
      `no_files=info.package_only`. */
  lemma PathOutcomeSpec(p: WcPath, info: Cli.Info)
    ensures PathOutcome(p, info).Err? <==>
              (p.package.None? && p.filename.None?)
              || (p.hasPackageObj && (Cli.Truthy(Cli.Get(info, "package_only")) || p.filename.None? || p.filename.value == []))
    ensures PathOutcome(p, info).Ok? && p.hasPackageObj ==> PathOutcome(p, info).value == [AddFile(p, p.filename.value)]
    ensures PathOutcome(p, info).Ok? && !p.hasPackageObj && p.hasProjectObj ==>
              PathOutcome(p, info).value == [AddPackage(p, p.package, Cli.Get(info, "package_only"))]
    ensures PathOutcome(p, info).Ok? && !p.hasPackageObj && !p.hasProjectObj ==> PathOutcome(p, info).value == []
  {
    assert Cli.CheckIllegal(["package_only"], [], Some(AddFilesDoc), info).Err?
           <==> Cli.Truthy(Cli.Get(info, "package_only"));
  }

  /** The paths `add` iterates over. */
  function PathList(arg: PathArg): seq<WcPath>
  {
    if arg.Single? then [arg.path] else arg.paths
  }

  /** Index of the first path that fails, or the number of paths. */
  function FirstFailure(paths: seq<WcPath>, info: Cli.Info): (k: nat)
    ensures k <= |paths|
    ensures forall j :: 0 <= j < k ==> PathOutcome(paths[j], info).Ok?
    ensures k < |paths| ==> PathOutcome(paths[k], info).Err?
  {
    if paths == [] then 0
    else if PathOutcome(paths[0], info).Err? then 0
    else 1 + FirstFailure(paths[1..], info)
  }

  /** The calls made for the paths, one path after the other. */
  function ActionsOf(paths: seq<WcPath>, info: Cli.Info): seq<Action>
    requires forall j :: 0 <= j < |paths| ==> PathOutcome(paths[j], info).Ok?
  {
    if paths == [] then [] else ActionsOf(paths[..|paths| - 1], info) + PathOutcome(paths[|paths| - 1], info).value
  }

  /** `add(path, info)`: the paths are handled in order; the first failing
      path raises, after the calls for the paths before it were made. */
  method AddPaths(arg: PathArg, info: Cli.Info) returns (actions: seq<Action>, r: Cli.Result<()>)
    ensures var paths := PathList(arg);
            var k := FirstFailure(paths, info);
            && (r.Err? <==> k < |paths|)
            && (r.Err? ==> r.error == PathOutcome(paths[k], info).error)
            && actions == ActionsOf(paths[..k], info)
  {
    var paths := PathList(arg);
    actions := [];
    var i := 0;
    while i < |paths|
      invariant 0 <= i <= |paths|
      invariant forall j :: 0 <= j < i ==> PathOutcome(paths[j], info).Ok?
      invariant actions == ActionsOf(paths[..i], info)
    {
      var added, res := AddPath(paths[i], info);
      if res.Err? {
        FirstFailureAt(paths, info, i);
        return actions, res;
      }
      assert paths[..i + 1][..i] == paths[..i];
      actions := actions + added;
      i := i + 1;
    }
    FirstFailureAt(paths, info, i);
    assert paths[..i] == paths;
    r := Cli.Ok(());
  }

  /** One iteration of `add`: the checks and the working-copy call for one
      path. */
  method AddPath(p: WcPath, info: Cli.Info) returns (added: seq<Action>, r: Cli.Result<()>)
    ensures r.Err? <==> PathOutcome(p, info).Err?
    ensures r.Err? ==> r.error == PathOutcome(p, info).error
    ensures r.Ok? ==> added == PathOutcome(p, info).value
  {
    added := [];
    if p.package.None? && p.filename.None? {
      return added, Cli.Err(Cli.ValueError("package and/or filename required"));
    }
    if p.hasPackageObj {
      var filenames: seq<Str> := [];
      if p.filename.Some? && p.filename.value != [] {
        filenames := filenames + [p.filename.value];
      }
      added, r := AddFiles(p, info, filenames);
    } else if p.hasProjectObj {
      added := [AddPackage(p, p.package, Cli.Get(info, "package_only"))];
      r := Cli.Ok(());
    } else {
      r := Cli.Ok(());
    }
  }

  /** The first failure is at `i` when every earlier path succeeds and
      `i` fails (or is the end). */
  lemma {:induction false} FirstFailureAt(paths: seq<WcPath>, info: Cli.Info, i: nat)
    requires i <= |paths|
    requires forall j :: 0 <= j < i ==> PathOutcome(paths[j], info).Ok?
    requires i < |paths| ==> PathOutcome(paths[i], info).Err?
    ensures FirstFailure(paths, info) == i
  {
    if i > 0 {
      FirstFailureAt(paths[1..], info, i - 1);
    }
  }
}
