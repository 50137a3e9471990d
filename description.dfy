/** The declarative command descriptions of osc/cli/description.py: how the
    metaclass splits a new description's bases into real bases and parent
    commands, the subcommand registry it keeps (command name to the list of
    its subcommand classes), the help text of a description, and the
    `Option` record.  Class creation itself and argparse are not modelled:
    a class is its name and whether it is a `CommandDescription` subclass,
    and the module's docstring demands that these names be unique, so the
    name identifies the class. */
module Description {
  import opened PyStr

  /** A class as the metaclass sees it: its `__name__` and whether it is a
      subclass of `CommandDescription` (the `filter_cls`). */
  datatype ClassRef = ClassRef(name: Str, isSub: bool)

  const FilterName: Str := "CommandDescription"

  /** `filter_cls` itself. */
  const FilterCls := ClassRef(FilterName, true)

  datatype Error = ValueError(msg: Str)

  datatype Result<+T> = Ok(value: T) | Err(error: Error)

  // ---------------------------------------------------------------------
  // _calculate_bases

  /** `len([base for base in bases if issubclass(base, filter_cls)])`. */
  function CountSubs(bases: seq<ClassRef>): (n: nat)
    ensures n <= |bases|
  {
    if bases == [] then 0 else (if bases[0].isSub then 1 else 0) + CountSubs(bases[1..])
  }

  /** Whether a base stays a real base (else it is a parent command). */
  predicate IsReal(base: ClassRef, extendsCmd: bool)
  {
    base.name == FilterName || extendsCmd || !base.isSub
  }

  function RealBases(bases: seq<ClassRef>, extendsCmd: bool): seq<ClassRef>
  {
    if bases == [] then []
    else (if IsReal(bases[0], extendsCmd) then [bases[0]] else []) + RealBases(bases[1..], extendsCmd)
  }

  function ParentBases(bases: seq<ClassRef>, extendsCmd: bool): seq<ClassRef>
  {
    if bases == [] then []
    else (if IsReal(bases[0], extendsCmd) then [] else [bases[0]]) + ParentBases(bases[1..], extendsCmd)
  }

  /** Real bases and parent commands split the bases: together they hold
      every base exactly once, and when a command is extended there are no
      parents. */
  lemma {:induction false} BasesPartition(bases: seq<ClassRef>, extendsCmd: bool)
    ensures multiset(RealBases(bases, extendsCmd)) + multiset(ParentBases(bases, extendsCmd)) == multiset(bases)
    ensures extendsCmd ==> ParentBases(bases, extendsCmd) == [] && RealBases(bases, extendsCmd) == bases
  {
    if bases != [] {
      BasesPartition(bases[1..], extendsCmd);
      assert bases == [bases[0]] + bases[1..];
    }
  }

  /** Parents are `CommandDescription` subclasses other than
      `CommandDescription` itself; real bases are the rest. */
  lemma {:induction false} BasesKinds(bases: seq<ClassRef>, extendsCmd: bool)
    ensures forall b :: b in RealBases(bases, extendsCmd) ==> b in bases && IsReal(b, extendsCmd)
    ensures forall b :: b in ParentBases(bases, extendsCmd) ==> b in bases && b.isSub && b.name != FilterName
  {
    if bases != [] {
      BasesKinds(bases[1..], extendsCmd);
    }
  }

  /** One turn of the loop of `_calculate_bases`: base `i` goes to the
      real bases or to the parents. */
  lemma SplitStep(bases: seq<ClassRef>, i: nat, extendsCmd: bool, kept: seq<ClassRef>, parents: seq<ClassRef>)
    requires i < |bases|
    ensures IsReal(bases[i], extendsCmd) ==>
              kept + RealBases(bases[i..], extendsCmd) == (kept + [bases[i]]) + RealBases(bases[i + 1..], extendsCmd)
              && parents + ParentBases(bases[i..], extendsCmd) == parents + ParentBases(bases[i + 1..], extendsCmd)
    ensures !IsReal(bases[i], extendsCmd) ==>
              kept + RealBases(bases[i..], extendsCmd) == kept + RealBases(bases[i + 1..], extendsCmd)
              && parents + ParentBases(bases[i..], extendsCmd) == (parents + [bases[i]]) + ParentBases(bases[i + 1..], extendsCmd)
  {
    assert bases[i..][0] == bases[i] && bases[i..][1..] == bases[i + 1..];
    ConcatAssoc(kept, [bases[i]], RealBases(bases[i + 1..], extendsCmd));
    ConcatAssoc(parents, [bases[i]], ParentBases(bases[i + 1..], extendsCmd));
    ConcatEmpty(RealBases(bases[i + 1..], extendsCmd));
    ConcatEmpty(ParentBases(bases[i + 1..], extendsCmd));
  }

  /** The triple `_calculate_bases` returns. */
  datatype Bases = Bases(realBases: seq<ClassRef>, parents: seq<ClassRef>, extendsCmd: bool)

  /** `_calculate_bases(bases)`: a new description extends a command iff
      exactly one base is a description and it is not `CommandDescription`
      itself; it is an error when neither that nor `CommandDescription`
      being a base holds.  The bases are then split in order. */
  method CalculateBases(bases: seq<ClassRef>) returns (r: Result<Bases>)
    ensures r.Err? <==> CountSubs(bases) != 1 && FilterCls !in bases
    ensures r.Ok? ==> (r.value.extendsCmd <==> CountSubs(bases) == 1 && FilterCls !in bases)
    ensures r.Ok? ==> r.value.realBases == RealBases(bases, r.value.extendsCmd)
    ensures r.Ok? ==> r.value.parents == ParentBases(bases, r.value.extendsCmd)
  {
    var filterSubs := CountSubs(bases);
    var extendsCmd := filterSubs == 1 && FilterCls !in bases;
    if filterSubs != 1 && FilterCls !in bases {
      return Err(ValueError("exactly one cmd can be extended"));
    }
    var realBases: seq<ClassRef> := [];
    var parents: seq<ClassRef> := [];
    var i := 0;
    while i < |bases|
      invariant 0 <= i <= |bases|
      invariant realBases + RealBases(bases[i..], extendsCmd) == RealBases(bases, extendsCmd)
      invariant parents + ParentBases(bases[i..], extendsCmd) == ParentBases(bases, extendsCmd)
    {
      var base := bases[i];
      SplitStep(bases, i, extendsCmd, realBases, parents);
      if IsReal(base, extendsCmd) {
        realBases := realBases + [base];
      } else {
        parents := parents + [base];
      }
      i := i + 1;
    }
    return Ok(Bases(realBases, parents, extendsCmd));
  }

  // ---------------------------------------------------------------------
  // the subcommand registry

  /** Index of the first class named `name` in `v`. */
  function IndexOfName(v: seq<ClassRef>, name: Str): (r: Option<nat>)
    ensures r.Some? ==> r.value < |v| && v[r.value].name == name
                        && forall k :: 0 <= k < r.value ==> v[k].name != name
    ensures r.None? ==> forall k :: 0 <= k < |v| ==> v[k].name != name
  {
    if v == [] then None
    else if v[0].name == name then Some(0)
    else
      var k := IndexOfName(v[1..], name);
      if k.None? then None else Some(k.value + 1)
  }

  /** One registry list after `_replace_with_specialized`: the first class
      named like the base is replaced (pop, then insert at its index). */
  function ReplaceFirst(v: seq<ClassRef>, name: Str, specialized: ClassRef): seq<ClassRef>
  {
    match IndexOfName(v, name)
    case None => v
    case Some(i) => v[..i] + [specialized] + v[i + 1..]
  }

  /** The specialized class takes the place of the first same-named
      entry; the length and every other entry stay as they were. */
  lemma ReplaceFirstSpec(v: seq<ClassRef>, name: Str, specialized: ClassRef)
    ensures |ReplaceFirst(v, name, specialized)| == |v|
    ensures forall k :: 0 <= k < |v| ==>
              ReplaceFirst(v, name, specialized)[k] ==
                (if IndexOfName(v, name) == Some(k) then specialized else v[k])
    ensures (forall k :: 0 <= k < |v| ==> v[k].name != name) ==> ReplaceFirst(v, name, specialized) == v
  {
    var r := ReplaceFirst(v, name, specialized);
    match IndexOfName(v, name) {
      case None =>
      case Some(i) =>
        forall k | 0 <= k < |v| ensures r[k] == if k == i then specialized else v[k] {
          if k < i {
            assert r[k] == v[..i][k];
          } else if k > i {
            assert r[k] == v[i + 1..][k - i - 1];
          }
        }
    }
  }

  /** One registry list after `_append_subcommand`: `descr` is appended
      unless a class of that name is already there. */
  function AddIfAbsent(v: seq<ClassRef>, descr: ClassRef): seq<ClassRef>
  {
    if IndexOfName(v, descr.name).Some? then v else v + [descr]
  }

  /** Adding twice is adding once, and afterwards the name is present. */
  lemma AddIfAbsentIdempotent(v: seq<ClassRef>, descr: ClassRef)
    ensures AddIfAbsent(AddIfAbsent(v, descr), descr) == AddIfAbsent(v, descr)
    ensures IndexOfName(AddIfAbsent(v, descr), descr.name).Some?
    ensures IndexOfName(v, descr.name).None? ==> AddIfAbsent(v, descr) == v + [descr]
  {
    var w := AddIfAbsent(v, descr);
    if IndexOfName(v, descr.name).None? {
      assert w[|v|].name == descr.name;
    }
  }

  function Names(parents: seq<ClassRef>): set<Str>
  {
    set p | p in parents :: p.name
  }

  /** The registry after `_append_subcommand(parents, descr)`: every
      parent's list, created empty if missing, holds `descr` (once by
      name); the other lists are untouched. */
  function AppendedRegistry(m: map<Str, seq<ClassRef>>, parents: seq<ClassRef>, descr: ClassRef): map<Str, seq<ClassRef>>
  {
    map k | k in m.Keys + Names(parents) ::
      if k in Names(parents) then AddIfAbsent(if k in m then m[k] else [], descr) else m[k]
  }

  /** `_append_subcommand` is idempotent: a second run with the same
      parents changes nothing. */
  lemma AppendIdempotent(m: map<Str, seq<ClassRef>>, parents: seq<ClassRef>, descr: ClassRef)
    ensures AppendedRegistry(AppendedRegistry(m, parents, descr), parents, descr) == AppendedRegistry(m, parents, descr)
  {
    var m1 := AppendedRegistry(m, parents, descr);
    forall k | k in Names(parents)
      ensures AddIfAbsent(m1[k], descr) == m1[k]
    {
      AddIfAbsentIdempotent(if k in m then m[k] else [], descr);
    }
  }

  /** Each parent's list holds `descr` afterwards, found by its name. */
  lemma AppendedHoldsDescr(m: map<Str, seq<ClassRef>>, parents: seq<ClassRef>, descr: ClassRef)
    ensures forall p :: p in parents ==> (p.name in AppendedRegistry(m, parents, descr)
              && IndexOfName(AppendedRegistry(m, parents, descr)[p.name], descr.name).Some?)
  {
    forall p | p in parents
      ensures p.name in AppendedRegistry(m, parents, descr)
      ensures IndexOfName(AppendedRegistry(m, parents, descr)[p.name], descr.name).Some?
    {
      assert p.name in Names(parents);
      AddIfAbsentIdempotent(if p.name in m then m[p.name] else [], descr);
    }
  }

  /** The registry after `_replace_with_specialized(base, specialized)`. */
  function ReplacedRegistry(m: map<Str, seq<ClassRef>>, name: Str, specialized: ClassRef): map<Str, seq<ClassRef>>
  {
    map k | k in m :: ReplaceFirst(m[k], name, specialized)
  }

  /** The `commands()` registry: command name to its subcommand classes. */
  class Registry {
    var subcmds: map<Str, seq<ClassRef>>

    constructor()
      ensures subcmds == map[]
    {
      subcmds := map[];
    }

    /** `_replace_with_specialized(base_cls, specialized_cls)`: in every
        list, the first class named like `base` is replaced in place. */
    method ReplaceWithSpecialized(base: ClassRef, specialized: ClassRef)
      modifies this
      ensures subcmds == ReplacedRegistry(old(subcmds), base.name, specialized)
    {
      var name := base.name;
      var todo := subcmds.Keys;
      ghost var start := subcmds;
      while todo != {}
        invariant todo <= start.Keys && subcmds.Keys == start.Keys
        invariant forall k :: k in start && k !in todo ==> subcmds[k] == ReplaceFirst(start[k], name, specialized)
        invariant forall k :: k in todo ==> subcmds[k] == start[k]
        decreases todo
      {
        var k :| k in todo;
        var v := subcmds[k];
        match IndexOfName(v, name) {
          case Some(i) =>
            v := v[..i] + v[i + 1..];
            v := v[..i] + [specialized] + v[i..];
          case None =>
        }
        subcmds := subcmds[k := v];
        todo := todo - {k};
      }
    }

    /** `_append_subcommand(parent_cmds, descr)`: each parent's list
        (created empty when missing) gets `descr` appended unless a class
        of that name is already in it. */
    method AppendSubcommand(parents: seq<ClassRef>, descr: ClassRef)
      modifies this
      ensures subcmds == AppendedRegistry(old(subcmds), parents, descr)
    {
      ghost var start := subcmds;
      ghost var done: seq<ClassRef> := [];
      var i := 0;
      while i < |parents|
        invariant 0 <= i <= |parents| && done == parents[..i]
        invariant subcmds == AppendedRegistry(start, done, descr)
      {
        var name := parents[i].name;
        ghost var before := subcmds;
        if name !in subcmds {
          subcmds := subcmds[name := []];
        }
        var list := subcmds[name];
        if IndexOfName(list, descr.name).None? {
          subcmds := subcmds[name := list + [descr]];
        }
        AppendStep(start, done, parents[i], descr, before, subcmds);
        TakeOneMore(parents, i);
        done := done + [parents[i]];
        i := i + 1;
      }
      assert parents[..i] == parents;
    }

    /** The registry bookkeeping of `SubcommandFilterMeta.__new__` for a new
        description class `descr` with the given bases: a class extending a
        command replaces it (its first real base) in the registry, any other
        is appended under each parent command. */
    method Define(descr: ClassRef, bases: seq<ClassRef>) returns (r: Result<Bases>)
      modifies this
      ensures r.Err? <==> CountSubs(bases) != 1 && FilterCls !in bases
      ensures r.Err? ==> subcmds == old(subcmds)
      ensures r.Ok? && r.value.extendsCmd ==> subcmds == ReplacedRegistry(old(subcmds), bases[0].name, descr)
      ensures r.Ok? && !r.value.extendsCmd ==>
                subcmds == AppendedRegistry(old(subcmds), ParentBases(bases, false), descr)
    {
      r := CalculateBases(bases);
      if r.Err? {
        return;
      }
      if r.value.extendsCmd {
        BasesPartition(bases, true);
        ReplaceWithSpecialized(r.value.realBases[0], descr);
      } else {
        AppendSubcommand(r.value.parents, descr);
      }
    }
  }

  lemma NamesSnoc(done: seq<ClassRef>, p: ClassRef)
    ensures Names(done + [p]) == Names(done) + {p.name}
  {
    forall q | q in done + [p] ensures q in done || q == p {}
  }

  /** One step of `_append_subcommand`: the list of the next parent
      (created empty when missing) gets `descr` unless it has that name. */
  lemma AppendStep(m: map<Str, seq<ClassRef>>, done: seq<ClassRef>, p: ClassRef, descr: ClassRef,
                   before: map<Str, seq<ClassRef>>, after: map<Str, seq<ClassRef>>)
    requires before == AppendedRegistry(m, done, descr)
    requires after == before[p.name := AddIfAbsent(if p.name in before then before[p.name] else [], descr)]
    ensures after == AppendedRegistry(m, done + [p], descr)
  {
    var full := AppendedRegistry(m, done + [p], descr);
    NamesSnoc(done, p);
    AppendStepKeys(m, done, p, descr, before, after, full);
    forall k | k in full ensures full[k] == after[k] {
      AppendStepAt(m, done, p, descr, k, before, after, full);
    }
  }

  lemma AppendStepKeys(m: map<Str, seq<ClassRef>>, done: seq<ClassRef>, p: ClassRef, descr: ClassRef,
                       before: map<Str, seq<ClassRef>>, after: map<Str, seq<ClassRef>>, full: map<Str, seq<ClassRef>>)
    requires Names(done + [p]) == Names(done) + {p.name}
    requires before == AppendedRegistry(m, done, descr)
    requires after.Keys == before.Keys + {p.name}
    requires full == AppendedRegistry(m, done + [p], descr)
    ensures full.Keys == after.Keys
  {
  }

  lemma AppendStepAt(m: map<Str, seq<ClassRef>>, done: seq<ClassRef>, p: ClassRef, descr: ClassRef, k: Str,
                     before: map<Str, seq<ClassRef>>, after: map<Str, seq<ClassRef>>, full: map<Str, seq<ClassRef>>)
    requires Names(done + [p]) == Names(done) + {p.name}
    requires before == AppendedRegistry(m, done, descr)
    requires after == before[p.name := AddIfAbsent(if p.name in before then before[p.name] else [], descr)]
    requires full == AppendedRegistry(m, done + [p], descr)
    requires k in full
    ensures full[k] == after[k]
  {
    if k == p.name && k in Names(done) {
      AddIfAbsentIdempotent(if k in m then m[k] else [], descr);
    }
  }

  // ---------------------------------------------------------------------
  // help and description

  /** `CommandDescription.description()`: the dedented docstring. */
  function DescriptionText(doc: Option<Str>): (r: Option<Str>)
    ensures r.Some? <==> doc.Some?
  {
    if doc.None? then None else Some(Dedent(doc.value))
  }

  /** `CommandDescription.help()`: `help_str` when set, else the first
      line of the description, else None. */
  function Help(helpStr: Option<Str>, doc: Option<Str>): (r: Option<Str>)
    ensures helpStr.Some? ==> r == helpStr
    ensures helpStr.None? ==> (r.None? <==> doc.None? || Dedent(doc.value) == [])
    ensures helpStr.None? && r.Some? ==> forall j :: 0 <= j < |r.value| ==> !IsLineBreak(r.value[j])
  {
    if helpStr.Some? then helpStr
    else
      match DescriptionText(doc)
      case None => None
      case Some(descr) =>
        var lines := SplitLines(descr);
        if lines != [] then Some(lines[0]) else None
  }

  /** Without `help_str`, the help is the dedented docstring up to its
      first line break. */
  lemma HelpIsFirstLine(doc: Str)
    requires Dedent(doc) != []
    ensures Help(None, Some(doc)) == Some(Dedent(doc)[..LineLength(Dedent(doc))])
  {
    FirstLine(Dedent(doc));
  }

  // ---------------------------------------------------------------------
  // Option

  /** An `Option`: its name, the dashed short and full names, the keyword
      arguments for argparse and the optional argument names. */
  datatype OptionSpec = OptionSpec(name: Str, shortname: Str, fullname: Str, kwargs: map<Str, Str>, oargs: Option<Str>)

  /** `Option(shortname, fullname, help, oargs, **kwargs)`. */
  function NewOption(shortname: Str, fullname: Str, help: Str, oargs: Option<Str>, kwargs: map<Str, Str>): (o: OptionSpec)
    ensures o.shortname == [] <==> shortname == []
    ensures shortname != [] ==> o.shortname[0] == '-' && o.shortname[1..] == shortname
    ensures |o.fullname| == |fullname| + 2 && o.fullname[..2] == "--" && o.fullname[2..] == fullname
    ensures "help" in o.kwargs && o.kwargs["help"] == help
    ensures oargs.Some? ==> "metavar" in o.kwargs
    ensures oargs.Some? && "metavar" !in kwargs ==> o.kwargs["metavar"] == oargs.value
    ensures forall k :: k in kwargs && k != "help" ==> k in o.kwargs && o.kwargs[k] == kwargs[k]
    ensures o.kwargs.Keys <= kwargs.Keys + {"help", "metavar"}
  {
    var kw := kwargs["help" := help];
    var kw2 := if oargs.Some? && "metavar" !in kw then kw["metavar" := oargs.value] else kw;
    OptionSpec(fullname, if shortname != [] then "-" + shortname else [], "--" + fullname, kw2, oargs)
  }

  /** `Option.options()`: `(shortname, fullname)` or `(fullname,)`. */
  function Options(o: OptionSpec): seq<Str>
  {
    if o.shortname != [] then [o.shortname, o.fullname] else [o.fullname]
  }

  /** The option strings of a constructed option: the full name last, the
      short name first exactly when one was given, each dashed. */
  lemma OptionsOfNew(shortname: Str, fullname: Str, help: Str, oargs: Option<Str>, kwargs: map<Str, Str>)
    ensures var opts := Options(NewOption(shortname, fullname, help, oargs, kwargs));
            && opts[|opts| - 1] == "--" + fullname
            && (|opts| == 2 <==> shortname != [])
            && (shortname != [] ==> opts[0] == "-" + shortname)
            && (forall i :: 0 <= i < |opts| ==> opts[i] != [] && opts[i][0] == '-')
  {
  }

  /** `Option.parse_info()`: nothing without `oargs`, else the split
      `oargs` under `opt_oargs_<name>`. */
  function ParseInfo(o: OptionSpec): (r: map<Str, seq<Str>>)
    ensures o.oargs.None? ==> r == map[]
    ensures o.oargs.Some? ==> r.Keys == {"opt_oargs_" + o.name}
  {
    if o.oargs.None? then map[] else map["opt_oargs_" + o.name := Words(o.oargs.value)]
  }

  /** The parsed argument names are non-empty words without whitespace,
      and re-joining them with single spaces and splitting again gives the
      same names. */
  lemma ParseInfoWords(o: OptionSpec)
    requires o.oargs.Some?
    ensures forall i :: 0 <= i < |ParseInfo(o)["opt_oargs_" + o.name]| ==>
              ParseInfo(o)["opt_oargs_" + o.name][i] != [] && NoSpace(ParseInfo(o)["opt_oargs_" + o.name][i])
    ensures Words(Join(" ", ParseInfo(o)["opt_oargs_" + o.name])) == ParseInfo(o)["opt_oargs_" + o.name]
  {
    WordsOfJoin(Words(o.oargs.value));
  }
}
