/** The decorators and helpers of the command-line front end
    (osc2/cli/cli.py): the `illegal options:` section of a docstring, the
    `illegal_options` and `at_most` checks, the binding of the parsed
    command-line info to a function's parameters in `call`, and the tokens
    an alias expands to.  `inspect.getargspec` is replaced by the parameter
    list and the number of defaults, given as inputs. */
module Cli {
  import opened PyStr

  /** A value of the parsed command-line info (`info.get(name)`). */
  datatype Value = NoneValue | BoolValue(b: bool) | IntValue(i: int) | StrValue(s: Str) | ListValue(items: seq<Value>)

  /** Python truth of a value. */
  predicate Truthy(v: Value)
  {
    match v
    case NoneValue => false
    case BoolValue(b) => b
    case IntValue(i) => i != 0
    case StrValue(s) => s != []
    case ListValue(items) => items != []
  }

  /** The number a value stands for under Python's `==`: a bool is 0 or
      1, an int itself, anything else none. */
  function Numeric(v: Value): Option<int>
  {
    match v
    case BoolValue(b) => Some(if b then 1 else 0)
    case IntValue(i) => Some(i)
    case _ => None
  }

  /** Python's `==` on values: `True == 1` and `False == 0`, lists compare
      element by element, and values of different kinds otherwise
      differ. */
  predicate PyEq(a: Value, b: Value)
    decreases a
  {
    if a.ListValue? && b.ListValue? then
      |a.items| == |b.items| && forall i :: 0 <= i < |a.items| ==> PyEq(a.items[i], b.items[i])
    else if Numeric(a).Some? && Numeric(b).Some? then Numeric(a) == Numeric(b)
    else a == b
  }

  /** Every value equals itself. */
  lemma {:induction false} PyEqReflexive(v: Value)
    ensures PyEq(v, v)
    decreases v
  {
    if v.ListValue? {
      forall i | 0 <= i < |v.items| ensures PyEq(v.items[i], v.items[i]) {
        PyEqReflexive(v.items[i]);
      }
    }
  }

  /** Python's `==` is symmetric. */
  lemma {:induction false} PyEqSymmetric(a: Value, b: Value)
    requires PyEq(a, b)
    ensures PyEq(b, a)
    decreases a
  {
    if a.ListValue? && b.ListValue? {
      forall i | 0 <= i < |b.items| ensures PyEq(b.items[i], a.items[i]) {
        PyEqSymmetric(a.items[i], b.items[i]);
      }
    }
  }

  /** Structurally different values may still be equal: `True == 1`, also
      inside lists, while `True != 2` and `True != "1"`. */
  lemma PyEqBoolInt(b: bool)
    ensures PyEq(BoolValue(b), IntValue(if b then 1 else 0))
    ensures PyEq(IntValue(if b then 1 else 0), BoolValue(b))
    ensures PyEq(ListValue([BoolValue(b)]), ListValue([IntValue(if b then 1 else 0)]))
    ensures !PyEq(BoolValue(true), IntValue(2))
    ensures !PyEq(BoolValue(true), StrValue("1"))
  {
  }

  /** The parsed info: option name to value. */
  type Info = map<Str, Value>

  /** `info.get(key)`: None for an absent key. */
  function Get(info: Info, key: Str): Value
  {
    if key in info then info[key] else NoneValue
  }

  datatype Error = ValueError(msg: Str) | AttributeError | KeyError(key: Str) | FormatError | TypeError

  datatype Result<+T> = Ok(value: T) | Err(error: Error)

  // ---------------------------------------------------------------------
  // parse_illegal_options_doc

  const Header: Str := "illegal options:"

  /** Each line stripped. */
  function StripAll(lines: seq<Str>): (r: seq<Str>)
    ensures |r| == |lines|
    ensures forall i :: 0 <= i < |r| ==> r[i] == Strip(lines[i])
  {
    if lines == [] then [] else [Strip(lines[0])] + StripAll(lines[1..])
  }

  /** The longest prefix of non-empty lines. */
  function TakeNonEmpty(lines: seq<Str>): (r: seq<Str>)
    ensures |r| <= |lines|
    ensures forall i :: 0 <= i < |r| ==> r[i] == lines[i] && r[i] != []
    ensures |r| < |lines| ==> lines[|r|] == []
  {
    if lines == [] || lines[0] == [] then [] else [lines[0]] + TakeNonEmpty(lines[1..])
  }

  /** The section a docstring's (stripped) lines hold: the first line that
      starts with the header, then the non-empty lines after it up to the
      first empty one. */
  function Section(lines: seq<Str>): seq<Str>
  {
    if lines == [] then []
    else if StartsWith(lines[0], Header) then [lines[0]] + TakeNonEmpty(lines[1..])
    else Section(lines[1..])
  }

  /** The text `parse_illegal_options_doc(doc)` returns. */
  function DocSection(doc: Option<Str>): Str
  {
    Join("\n", Section(StripAll(SplitLines(if doc.Some? then doc.value else []))))
  }

  /** There is no section iff no line starts with the header. */
  lemma {:induction false} SectionAbsent(lines: seq<Str>)
    ensures Section(lines) == [] <==> forall i :: 0 <= i < |lines| ==> !StartsWith(lines[i], Header)
  {
    if lines != [] && !StartsWith(lines[0], Header) {
      SectionAbsent(lines[1..]);
      forall i | 0 <= i < |lines[1..]| ensures lines[1..][i] == lines[i + 1] {}
    }
  }

  /** The section starts at the first header line `k` and continues with
      the non-empty lines after it. */
  lemma {:induction false} SectionAt(lines: seq<Str>, k: nat)
    requires k < |lines| && StartsWith(lines[k], Header)
    requires forall j :: 0 <= j < k ==> !StartsWith(lines[j], Header)
    ensures Section(lines) == [lines[k]] + TakeNonEmpty(lines[k + 1..])
  {
    if k > 0 {
      SectionAt(lines[1..], k - 1);
      assert lines[1..][k - 1 + 1..] == lines[k + 1..];
    }
  }

  /** The outer loop's turn: the first stripped line either opens the
      section or is skipped. */
  lemma SectionStep(rest: seq<Str>)
    requires rest != []
    ensures StartsWith(Strip(rest[0]), Header) ==>
              Section(StripAll(rest)) == [Strip(rest[0])] + TakeNonEmpty(StripAll(rest[1..]))
    ensures !StartsWith(Strip(rest[0]), Header) ==> Section(StripAll(rest)) == Section(StripAll(rest[1..]))
  {
    assert StripAll(rest) == [Strip(rest[0])] + StripAll(rest[1..]);
  }

  /** The inner loop's turn: a non-empty stripped line is kept, an empty
      one ends the section. */
  lemma TakeStep(res: seq<Str>, rest: seq<Str>)
    requires rest != []
    ensures Strip(rest[0]) != [] ==>
              res + TakeNonEmpty(StripAll(rest)) == (res + [Strip(rest[0])]) + TakeNonEmpty(StripAll(rest[1..]))
    ensures Strip(rest[0]) == [] ==> res + TakeNonEmpty(StripAll(rest)) == res
  {
    assert StripAll(rest) == [Strip(rest[0])] + StripAll(rest[1..]);
    ConcatAssoc(res, [Strip(rest[0])], TakeNonEmpty(StripAll(rest[1..])));
  }

  /** `parse_illegal_options_doc(doc)`: consumes the lines of the
      docstring from the front, stripping each, until the header line; then
      keeps the non-empty lines after it. */
  method ParseIllegalOptionsDoc(doc: Option<Str>) returns (r: Str)
    ensures r == DocSection(doc)
  {
    var lines := SplitLines(if doc.Some? then doc.value else []);
    ghost var all := StripAll(lines);
    var rest := lines;
    var res: seq<Str> := [];
    while rest != []
      invariant Section(all) == Section(StripAll(rest))
      invariant res == []
      decreases |rest|
    {
      var cur := Strip(rest[0]);
      SectionStep(rest);
      rest := rest[1..];
      if StartsWith(cur, Header) {
        res := [cur];
        while rest != []
          invariant Section(all) == res + TakeNonEmpty(StripAll(rest))
          decreases |rest|
        {
          var c := Strip(rest[0]);
          TakeStep(res, rest);
          rest := rest[1..];
          if c != [] {
            res := res + [c];
          } else {
            assert Section(all) == res;
            break;
          }
        }
        if rest == [] {
          ConcatEmpty(res);
        }
        assert Section(all) == res;
        break;
      }
    }
    assert Section(all) == res;
    r := Join("\n", res);
  }

  // ---------------------------------------------------------------------
  // `%` formatting with a mapping

  function Prepend(s: Str, r: Result<Str>): Result<Str>
  {
    if r.Ok? then Ok(s + r.value) else r
  }

  /** A value of the formatting mapping: a string (an option name) or a
      count. */
  datatype FormatArg = Text(s: Str) | Number(n: nat)

  /** What `%(name)s` shows of a value: `str(value)`. */
  function Shown(v: FormatArg): Str
  {
    if v.Text? then v.s else DecimalString(v.n)
  }

  /** What `%(name)<conversion>` makes of a value: `s` shows any value, `d`
      accepts only a number (a string is a TypeError). */
  function Converted(v: FormatArg, conversion: Byte): Result<Str>
  {
    if conversion == 'd' && v.Text? then Err(TypeError) else Ok(Shown(v))
  }

  /** Index of the first `c` in `s`. */
  function IndexOf(s: Str, c: Byte): (r: Option<nat>)
    ensures r.Some? ==> r.value < |s| && s[r.value] == c && c !in s[..r.value]
    ensures r.None? ==> c !in s
  {
    if s == [] then None
    else if s[0] == c then Some(0)
    else
      var k := IndexOf(s[1..], c);
      if k.None? then None
      else
        assert s[..k.value + 1] == [s[0]] + s[1..][..k.value];
        Some(k.value + 1)
  }

  /** `fmt % vals` for a mapping: `%%` is a percent sign and
      `%(name)s` / `%(name)d` is replaced by the value of `name`; an unknown
      name is a KeyError, `%(name)d` of a string a TypeError, any other
      conversion a format error. */
  function Interpolate(fmt: Str, vals: map<Str, FormatArg>): Result<Str>
    decreases |fmt|
  {
    if fmt == [] then Ok([])
    else if fmt[0] != '%' then Prepend([fmt[0]], Interpolate(fmt[1..], vals))
    else if |fmt| >= 2 && fmt[1] == '%' then Prepend("%", Interpolate(fmt[2..], vals))
    else if |fmt| >= 2 && fmt[1] == '(' then
      match IndexOf(fmt[2..], ')')
      case None => Err(FormatError)
      case Some(j) =>
        var name := fmt[2..2 + j];
        if 3 + j >= |fmt| || (fmt[3 + j] != 's' && fmt[3 + j] != 'd') then Err(FormatError)
        else if name !in vals then Err(KeyError(name))
        else
          match Converted(vals[name], fmt[3 + j])
          case Err(e) => Err(e)
          case Ok(v) => Prepend(v, Interpolate(fmt[4 + j..], vals))
    else Err(FormatError)
  }

  /** Text without `%` is left as it is. */
  lemma {:induction false} InterpolatePlain(fmt: Str, vals: map<Str, FormatArg>)
    requires '%' !in fmt
    ensures Interpolate(fmt, vals) == Ok(fmt)
  {
    if fmt != [] {
      InterpolatePlain(fmt[1..], vals);
      assert [fmt[0]] + fmt[1..] == fmt;
    }
  }

  /** Text without `%` in front of the rest is copied in front of the
      rest's result. */
  lemma {:induction false} InterpolatePrefix(a: Str, rest: Str, vals: map<Str, FormatArg>)
    requires '%' !in a
    ensures Interpolate(a + rest, vals) == Prepend(a, Interpolate(rest, vals))
  {
    if a != [] {
      assert (a + rest)[0] == a[0];
      assert (a + rest)[1..] == a[1..] + rest;
      InterpolatePrefix(a[1..], rest, vals);
      assert [a[0]] + a[1..] == a;
      var r := Interpolate(rest, vals);
      if r.Ok? {
        assert [a[0]] + (a[1..] + r.value) == a + r.value;
      }
    } else {
      assert a + rest == rest;
      var r := Interpolate(rest, vals);
      if r.Ok? {
        assert a + r.value == r.value;
      }
    }
  }

  /** A named `%(name)s` is replaced by its value. */
  lemma InterpolateNamed(name: Str, rest: Str, vals: map<Str, FormatArg>)
    requires ')' !in name && name in vals
    ensures Interpolate("%(" + name + ")s" + rest, vals) == Prepend(Shown(vals[name]), Interpolate(rest, vals))
  {
    var fmt := "%(" + name + ")s" + rest;
    var j := |name|;
    assert fmt[2..][..j] == name;
    assert fmt[2..][j] == ')';
    assert IndexOf(fmt[2..], ')') == Some(j);
    assert fmt[2..2 + j] == name;
    assert fmt[3 + j] == 's';
    assert fmt[4 + j..] == rest;
  }

  /** A named `%(name)d` is replaced by its value if that is a number, and
      is a TypeError for a string. */
  lemma InterpolateNumbered(name: Str, rest: Str, vals: map<Str, FormatArg>)
    requires ')' !in name && name in vals
    ensures vals[name].Text? ==> Interpolate("%(" + name + ")d" + rest, vals) == Err(TypeError)
    ensures vals[name].Number? ==>
              Interpolate("%(" + name + ")d" + rest, vals) == Prepend(DecimalString(vals[name].n), Interpolate(rest, vals))
  {
    var fmt := "%(" + name + ")d" + rest;
    var j := |name|;
    assert fmt[2..][..j] == name;
    assert fmt[2..][j] == ')';
    assert IndexOf(fmt[2..], ')') == Some(j);
    assert fmt[2..2 + j] == name;
    assert fmt[3 + j] == 'd';
    assert fmt[4 + j..] == rest;
  }

  /** With one `%(opt)s` in an otherwise `%`-free message, the option name
      takes its place. */
  lemma InterpolateOpt(a: Str, b: Str, opt: Str)
    requires '%' !in a && '%' !in b
    ensures Interpolate(a + "%(opt)s" + b, map["opt" := Text(opt)]) == Ok(a + opt + b)
  {
    var vals := map["opt" := Text(opt)];
    assert a + "%(opt)s" + b == a + ("%(" + "opt" + ")s" + b);
    InterpolatePrefix(a, "%(" + "opt" + ")s" + b, vals);
    InterpolateNamed("opt", b, vals);
    InterpolatePlain(b, vals);
    assert a + (opt + b) == a + opt + b;
  }

  // ---------------------------------------------------------------------
  // illegal_options

  /** The error raised for an illegal option: the docstring section with
      the option name filled in (or whatever that formatting raises). */
  function IllegalMessage(doc: Option<Str>, opt: Str): Error
  {
    match Interpolate(DocSection(doc), map["opt" := Text(opt)])
    case Ok(m) => ValueError(m)
    case Err(e) => e
  }

  /** `args[k]` is the first of the listed options that is set in info. */
  predicate FirstSet(args: seq<Str>, info: Info, k: int)
  {
    0 <= k < |args| && Truthy(Get(info, args[k]))
    && forall j :: 0 <= j < k ==> !Truthy(Get(info, args[j]))
  }

  /** The checks of `illegal_options(*args, **kwargs)` on a present info:
      the listed options in order, then the option/value pairs.  The model
      takes the pairs in the order given, while `kwargs.iteritems()` walks
      a Python 2 dict in hash order: which offending pair is reported is
      therefore stated only as some offending pair. */
  function CheckIllegal(args: seq<Str>, kwargs: seq<(Str, Value)>, doc: Option<Str>, info: Info): (r: Result<()>)
    ensures r.Err? <==> (exists o :: o in args && Truthy(Get(info, o)))
                        || (exists p :: p in kwargs && !PyEq(Get(info, p.0), p.1))
    ensures (exists o :: o in args && Truthy(Get(info, o))) ==>
              r.Err? && exists k :: FirstSet(args, info, k) && r.error == IllegalMessage(doc, args[k])
    ensures r.Err? && (forall o :: o in args ==> !Truthy(Get(info, o))) ==>
              exists p :: p in kwargs && !PyEq(Get(info, p.0), p.1) && r.error == IllegalMessage(doc, p.0)
  {
    if args != [] then
      if Truthy(Get(info, args[0])) then
        assert FirstSet(args, info, 0);
        Err(IllegalMessage(doc, args[0]))
      else
        var r := CheckIllegal(args[1..], kwargs, doc, info);
        assert forall o :: o in args && o != args[0] ==> o in args[1..];
        assert (exists o :: o in args[1..] && Truthy(Get(info, o))) ==>
                 exists k :: FirstSet(args, info, k) && r.error == IllegalMessage(doc, args[k]) by {
          if exists o :: o in args[1..] && Truthy(Get(info, o)) {
            var k :| FirstSet(args[1..], info, k) && r.error == IllegalMessage(doc, args[1..][k]);
            assert FirstSet(args, info, k + 1);
          }
        }
        r
    else if kwargs != [] then
      if !PyEq(Get(info, kwargs[0].0), kwargs[0].1) then Err(IllegalMessage(doc, kwargs[0].0))
      else
        var r := CheckIllegal([], kwargs[1..], doc, info);
        assert forall p :: p in kwargs && p != kwargs[0] ==> p in kwargs[1..];
        r
    else Ok(())
  }

  /** A keyword value that is structurally different but equal under
      Python's `==` is not illegal: `x=True` passes when the info holds 1,
      while `x=2` does not. */
  lemma KeywordComparedAsPython()
    ensures CheckIllegal([], [("x", BoolValue(true))], None, map["x" := IntValue(1)]).Ok?
    ensures CheckIllegal([], [("x", IntValue(2))], None, map["x" := BoolValue(true)]).Err?
  {
    assert PyEq(Get(map["x" := IntValue(1)], "x"), BoolValue(true));
  }

  /** How a decorated call ends: how often the wrapped function ran, and
      whether the call returned (its result) or raised. */
  datatype Outcome = Outcome(fCalls: nat, result: Result<()>)

  /** `illegal_options` AS WRITTEN: with no info it calls `f`, discards the
      result and goes on to `info.get`, which raises AttributeError on None
      (or, with nothing to check, calls `f` a second time). */
  function IllegalOptionsAsWritten(args: seq<Str>, kwargs: seq<(Str, Value)>, doc: Option<Str>, info: Option<Info>): (r: Outcome)
    ensures info.Some? ==> r.fCalls <= 1 && (r.fCalls == 1 <==> r.result.Ok?)
    ensures info.None? ==> r.fCalls >= 1
  {
    if info.None? then
      if args != [] || kwargs != [] then Outcome(1, Err(AttributeError)) else Outcome(2, Ok(()))
    else
      match CheckIllegal(args, kwargs, doc, info.value)
      case Ok(_) => Outcome(1, Ok(()))
      case Err(e) => Outcome(0, Err(e))
  }

  /** `illegal_options` as evidently intended: without info there is
      nothing to check and `f`'s result is returned; otherwise `f` runs only
      when no illegal option is set. */
  function IllegalOptions(args: seq<Str>, kwargs: seq<(Str, Value)>, doc: Option<Str>, info: Option<Info>): (r: Outcome)
    ensures r.fCalls <= 1 && (r.fCalls == 1 <==> r.result.Ok?)
    ensures info.None? ==> r == Outcome(1, Ok(()))
    ensures info.Some? ==> (r.result.Err? <==> (exists o :: o in args && Truthy(Get(info.value, o)))
                                               || (exists p :: p in kwargs && !PyEq(Get(info.value, p.0), p.1)))
  {
    if info.None? then Outcome(1, Ok(()))
    else
      match CheckIllegal(args, kwargs, doc, info.value)
      case Ok(_) => Outcome(1, Ok(()))
      case Err(e) => Outcome(0, Err(e))
  }

  /** The two agree whenever there is an info object, and differ for a
      function without one: as written, an `illegal_options('package_only')`
      check raises AttributeError after running the function, and a check
      with no options runs it twice. */
  lemma IllegalOptionsDiscrepancy(args: seq<Str>, kwargs: seq<(Str, Value)>, doc: Option<Str>, info: Option<Info>)
    ensures info.Some? ==> IllegalOptionsAsWritten(args, kwargs, doc, info) == IllegalOptions(args, kwargs, doc, info)
    ensures IllegalOptionsAsWritten(["package_only"], [], doc, None) == Outcome(1, Err(AttributeError))
    ensures IllegalOptions(["package_only"], [], doc, None) == Outcome(1, Ok(()))
    ensures IllegalOptionsAsWritten([], [], doc, None).fCalls == 2
  {
  }

  // ---------------------------------------------------------------------
  // at_most

  /** The default message of `at_most`, `Expected %(arg)s at most
      %(times)d times`, and its parts. */
  const Expected: Str := "Expected "
  const ArgField: Str := "%(arg)s"
  const AtMostWords: Str := " at most "
  const TimesField: Str := "%(times)d"
  const Times: Str := " times"
  const DefaultCountMessage: Str := Expected + (ArgField + (AtMostWords + (TimesField + Times)))

  /** How often an option was given: the length of a list, else 1 (so an
      absent option, None, counts once). */
  function Occurrences(v: Value): nat
  {
    if v.ListValue? then |v.items| else 1
  }

  function CountMessage(msg: Option<Str>, arg: Str, n: nat): Error
  {
    var fmt := if msg.Some? then msg.value else DefaultCountMessage;
    match Interpolate(fmt, map["arg" := Text(arg), "times" := Number(n)])
    case Ok(m) => ValueError(m)
    case Err(e) => e
  }


  /** A message with a `%(x)s` and then a `%(y)d` field, for a number `y`,
      shows both values in place. */
  lemma InterpolateTwo(a: Str, x: Str, b: Str, y: Str, c: Str, vals: map<Str, FormatArg>)
    requires '%' !in a && '%' !in b && '%' !in c && ')' !in x && ')' !in y
    requires x in vals && y in vals && vals[y].Number?
    ensures Interpolate(a + ("%(" + x + ")s" + (b + ("%(" + y + ")d" + c))), vals)
            == Ok(a + (Shown(vals[x]) + (b + (DecimalString(vals[y].n) + c))))
  {
    var d := DecimalString(vals[y].n);
    var t3 := "%(" + y + ")d" + c;
    assert Interpolate(t3, vals) == Ok(d + c) by {
      InterpolatePlain(c, vals);
      InterpolateNumbered(y, c, vals);
    }
    var t2 := b + t3;
    assert Interpolate(t2, vals) == Ok(b + (d + c)) by {
      InterpolatePrefix(b, t3, vals);
    }
    var t1 := "%(" + x + ")s" + t2;
    assert Interpolate(t1, vals) == Ok(Shown(vals[x]) + (b + (d + c))) by {
      InterpolateNamed(x, t2, vals);
    }
    InterpolatePrefix(a, t1, vals);
  }

  /** The default message names the option and the bound. */
  lemma DefaultCountText(arg: Str, n: nat)
    ensures CountMessage(None, arg, n) == ValueError(Expected + (arg + (AtMostWords + (DecimalString(n) + Times))))
  {
    var vals := map["arg" := Text(arg), "times" := Number(n)];
    assert ArgField == "%(" + "arg" + ")s";
    assert TimesField == "%(" + "times" + ")d";
    InterpolateTwo(Expected, "arg", AtMostWords, "times", Times, vals);
  }

  const ArgAsNumber: Str := "%(arg)d"

  /** A message that formats the option name with `%d` raises TypeError
      instead of the ValueError. */
  lemma CountMessageTypeError(arg: Str, n: nat)
    ensures CountMessage(Some(ArgAsNumber), arg, n) == TypeError
  {
    assert ArgAsNumber == "%(" + "arg" + ")d" + [];
    InterpolateNumbered("arg", [], map["arg" := Text(arg), "times" := Number(n)]);
  }

  /** `args[k]` is the first of the listed options given more than `n`
      times. */
  predicate FirstOver(n: nat, args: seq<Str>, info: Info, k: int)
  {
    0 <= k < |args| && Occurrences(Get(info, args[k])) > n
    && forall j :: 0 <= j < k ==> Occurrences(Get(info, args[j])) <= n
  }

  /** The loop of `at_most` over the listed options, in order. */
  function CheckCounts(n: nat, args: seq<Str>, msg: Option<Str>, info: Info): (r: Result<()>)
    ensures r.Err? <==> exists a :: a in args && Occurrences(Get(info, a)) > n
    ensures r.Err? ==> exists k :: FirstOver(n, args, info, k) && r.error == CountMessage(msg, args[k], n)
  {
    if args == [] then Ok(())
    else if Occurrences(Get(info, args[0])) > n then
      assert FirstOver(n, args, info, 0);
      Err(CountMessage(msg, args[0], n))
    else
      var r := CheckCounts(n, args[1..], msg, info);
      assert forall a :: a in args && a != args[0] ==> a in args[1..];
      assert r.Err? ==> exists k :: FirstOver(n, args, info, k) && r.error == CountMessage(msg, args[k], n) by {
        if r.Err? {
          var k :| FirstOver(n, args[1..], info, k) && r.error == CountMessage(msg, args[1..][k], n);
          assert FirstOver(n, args, info, k + 1);
        }
      }
      r
  }

  /** `at_most(n, *args, msg=...)`: with an info object, raises for the
      first listed option given more than `n` times; without one, no
      check. */
  function AtMost(n: nat, args: seq<Str>, msg: Option<Str>, info: Option<Info>): (r: Result<()>)
    ensures info.None? ==> r.Ok?
    ensures info.Some? ==> (r.Err? <==> exists a :: a in args && Occurrences(Get(info.value, a)) > n)
    ensures info.Some? && r.Err? ==>
              exists k :: FirstOver(n, args, info.value, k) && r.error == CountMessage(msg, args[k], n)
  {
    if info.None? then Ok(()) else CheckCounts(n, args, msg, info.value)
  }

  // ---------------------------------------------------------------------
  // call

  /** What `call` passes for a parameter: the info object, the renderer,
      or `info.get(name)`. */
  datatype Bound = InfoArg | RendererArg | Given(v: Value)

  /** `list.remove(x)` when `x` is present: the first occurrence goes. */
  function RemoveFirst(s: seq<Str>, x: Str): (r: seq<Str>)
    ensures x !in s ==> r == s
    ensures x in s ==> |r| == |s| - 1
    ensures forall y :: y in r ==> y in s
    ensures forall y :: y in s && y != x ==> y in r
  {
    if s == [] then []
    else if s[0] == x then s[1..]
    else [s[0]] + RemoveFirst(s[1..], x)
  }

  /** Python's `s[:k]` for an integer `k` (a negative `k` counts from the
      end). */
  function SliceTo(s: seq<Str>, k: int): (r: seq<Str>)
    ensures forall y :: y in r ==> y in s
  {
    if k >= 0 then s[..if k <= |s| then k else |s|]
    else if |s| + k >= 0 then s[..|s| + k]
    else []
  }

  /** The parameters left to bind once `info` and `renderer` are taken
      out. */
  function Remaining(params: seq<Str>): seq<Str>
  {
    RemoveFirst(RemoveFirst(params, "info"), "renderer")
  }

  /** `args[:len(args) - len(defaults)]`: the parameters without default. */
  function Required(params: seq<Str>, defaults: nat): seq<Str>
  {
    SliceTo(Remaining(params), |Remaining(params)| - defaults)
  }

  predicate Skipped(a: Str)
  {
    a == "self" || a == "cls"
  }

  /** A parameter `call` cannot bind: required, not skipped and absent
      from info. */
  predicate Unbound(a: Str, required: seq<Str>, info: Info)
  {
    !Skipped(a) && a in required && a !in info
  }

  /** `args[k]` is the first parameter `call` cannot bind. */
  predicate FirstUnbound(args: seq<Str>, required: seq<Str>, info: Info, k: int)
  {
    0 <= k < |args| && Unbound(args[k], required, info)
    && forall j :: 0 <= j < k ==> !Unbound(args[j], required, info)
  }

  function BindError(funcName: Str, arg: Str): Error
  {
    ValueError("cannot call \"" + funcName + "\": cannot bind \"" + arg + "\" parameter")
  }

  /** The injected arguments: `info` and `renderer` when the function takes
      them. */
  function Injected(params: seq<Str>): map<Str, Bound>
  {
    var m := if "info" in params then map["info" := InfoArg] else map[];
    if "renderer" in params then m["renderer" := RendererArg] else m
  }

  /** `call(func)(info)`: binds every parameter (but `self`/`cls`) to its
      value in info, after injecting `info` and `renderer`; a required
      parameter absent from info is an error naming it. */
  method Call(params: seq<Str>, defaults: nat, funcName: Str, info: Info) returns (r: Result<map<Str, Bound>>)
    requires forall i, j :: 0 <= i < j < |params| ==> params[i] != params[j]
    ensures r.Ok? <==> forall a :: a in Remaining(params) && !Skipped(a) && a in Required(params, defaults) ==> a in info
    ensures r.Err? ==> exists k :: FirstUnbound(Remaining(params), Required(params, defaults), info, k)
                                   && r.error == BindError(funcName, Remaining(params)[k])
    ensures r.Ok? ==> r.value.Keys == Injected(params).Keys + (set a | a in Remaining(params) && !Skipped(a))
    ensures r.Ok? ==> forall a :: a in r.value ==>
              r.value[a] == if a in Injected(params) then Injected(params)[a] else Given(Get(info, a))
  {
    var args, kwargs := Inject(params);
    var required := SliceTo(args, |args| - defaults);
    r := BindParameters(args, required, funcName, info, kwargs);
  }

  /** The head of `call`: `info` and `renderer` go from the parameters
      into the keyword arguments, each when the function takes it. */
  method Inject(params: seq<Str>) returns (args: seq<Str>, kwargs: map<Str, Bound>)
    requires forall i, j :: 0 <= i < j < |params| ==> params[i] != params[j]
    ensures args == Remaining(params) && kwargs == Injected(params)
    ensures forall a :: a in args ==> a !in kwargs
  {
    kwargs := map[];
    args := params;
    if "info" in args {
      kwargs := kwargs["info" := InfoArg];
      args := RemoveFirst(args, "info");
    }
    if "renderer" in args {
      kwargs := kwargs["renderer" := RendererArg];
      args := RemoveFirst(args, "renderer");
    }
    InjectedApart(params);
  }

  /** The loop of `call`: binds each parameter of `args` but `self`/`cls`
      to `info.get(arg)` on top of the injected `kwargs`, failing at the
      first required parameter absent from info. */
  method BindParameters(args: seq<Str>, required: seq<Str>, funcName: Str, info: Info, injected: map<Str, Bound>)
    returns (r: Result<map<Str, Bound>>)
    requires forall a :: a in args ==> a !in injected
    ensures r.Ok? <==> forall a :: a in args && !Skipped(a) && a in required ==> a in info
    ensures r.Err? ==> exists k :: FirstUnbound(args, required, info, k) && r.error == BindError(funcName, args[k])
    ensures r.Ok? ==> r.value.Keys == injected.Keys + (set a | a in args && !Skipped(a))
    ensures r.Ok? ==> forall a :: a in r.value ==> r.value[a] == if a in injected then injected[a] else Given(Get(info, a))
  {
    var kwargs := injected;
    var i := 0;
    while i < |args|
      invariant 0 <= i <= |args|
      invariant forall a :: a in args[..i] && !Skipped(a) && a in required ==> a in info
      invariant forall j :: 0 <= j < i ==> !Unbound(args[j], required, info)
      invariant kwargs.Keys == injected.Keys + (set a | a in args[..i] && !Skipped(a))
      invariant forall a :: a in kwargs ==> kwargs[a] == if a in injected then injected[a] else Given(Get(info, a))
    {
      var arg := args[i];
      assert args[..i + 1] == args[..i] + [arg];
      if Skipped(arg) {
        i := i + 1;
        continue;
      }
      if arg !in info && arg in required {
        assert FirstUnbound(args, required, info, i);
        r := Err(BindError(funcName, arg));
        return;
      }
      kwargs := kwargs[arg := Given(Get(info, arg))];
      i := i + 1;
    }
    assert args[..i] == args;
    r := Ok(kwargs);
  }

  /** The parameters left to bind are apart from the injected ones. */
  lemma InjectedApart(params: seq<Str>)
    requires forall i, j :: 0 <= i < j < |params| ==> params[i] != params[j]
    ensures forall a :: a in Remaining(params) ==> a !in Injected(params)
  {
    RemoveFirstDistinct(params, "info");
    RemoveFirstDistinct(RemoveFirst(params, "info"), "renderer");
  }

  /** In a list without repetitions, removing `x` removes every `x`. */
  lemma {:induction false} RemoveFirstDistinct(s: seq<Str>, x: Str)
    requires forall i, j :: 0 <= i < j < |s| ==> s[i] != s[j]
    ensures x !in RemoveFirst(s, x)
    ensures forall i, j :: 0 <= i < j < |RemoveFirst(s, x)| ==> RemoveFirst(s, x)[i] != RemoveFirst(s, x)[j]
  {
    if s != [] && s[0] != x {
      RemoveFirstDistinct(s[1..], x);
      var t := RemoveFirst(s[1..], x);
      assert forall y :: y in t ==> y in s[1..];
      assert s[0] !in s[1..];
    } else if s != [] {
      assert x !in s[1..];
    }
  }

  // ---------------------------------------------------------------------
  // execute_alias

  /** The user arguments of an alias: a list (joined with spaces) or a
      single string. */
  datatype AliasArgs = ListArgs(items: seq<Str>) | TextArgs(text: Str)

  /** The text the arguments are formatted to. */
  function AliasText(args: AliasArgs): Str
  {
    if args.ListArgs? then Join(" ", args.items) else args.text
  }

  /** The tokens `execute_alias(cmd, args)` executes: the whitespace split
      of `"cmd args"`. */
  function AliasTokens(cmd: Str, args: AliasArgs): seq<Str>
  {
    Words(cmd + " " + AliasText(args))
  }

  /** The words of each list item, one item after the other. */
  function ItemWords(items: seq<Str>): seq<Str>
  {
    if items == [] then [] else Words(items[0]) + ItemWords(items[1..])
  }

  lemma {:induction false} WordsOfItems(items: seq<Str>)
    ensures Words(Join(" ", items)) == ItemWords(items)
  {
    if |items| == 1 {
      assert ItemWords(items[1..]) == [];
    } else if |items| > 1 {
      WordsOfItems(items[1..]);
      WordsAppendSpace(items[0], Join(" ", items[1..]));
    }
  }

  /** The alias expands to the command's words followed by the words of
      each argument in order; an argument holding spaces yields several
      tokens, an empty or blank one none. */
  lemma AliasTokensSplit(cmd: Str, args: AliasArgs)
    ensures AliasTokens(cmd, args) == Words(cmd) + (if args.ListArgs? then ItemWords(args.items) else Words(args.text))
  {
    WordsAppendSpace(cmd, AliasText(args));
    if args.ListArgs? {
      WordsOfItems(args.items);
    }
  }

  /** For a one-word command and one-word arguments the tokens are the
      command followed by the arguments. */
  lemma AliasTokensOfWords(cmd: Str, items: seq<Str>)
    requires cmd != [] && NoSpace(cmd)
    requires forall i :: 0 <= i < |items| ==> items[i] != [] && NoSpace(items[i])
    ensures AliasTokens(cmd, ListArgs(items)) == [cmd] + items
  {
    AliasTokensSplit(cmd, ListArgs(items));
    WordsOfJoin([cmd]);
    WordsOfItems(items);
    WordsOfJoin(items);
  }
}
