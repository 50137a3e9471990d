/** Python 2 byte strings and the handful of `str` methods the modelled code
    relies on (`split`, `splitlines`, `strip`, `join`, `startswith`,
    `replace`, comparison) and `textwrap.dedent`. */
module PyStr {

  /** One byte of a Python 2 `str`. */
  type Byte = c: char | c < '\U{100}'

  /** A Python 2 `str`: a sequence of bytes. */
  type Str = seq<Byte>

  datatype Option<+T> = None | Some(value: T)

  /** The bytes `str.isspace` accepts. */
  predicate IsSpace(c: Byte)
  {
    c == ' ' || c == '\t' || c == '\n' || c == '\r' || c == '\U{b}' || c == '\U{c}'
  }

  predicate NoSpace(s: Str)
  {
    forall i :: 0 <= i < |s| ==> !IsSpace(s[i])
  }

  predicate StartsWith(s: Str, prefix: Str)
  {
    |prefix| <= |s| && s[..|prefix|] == prefix
  }

  /** `sep.join(parts)` */
  function Join(sep: Str, parts: seq<Str>): Str
  {
    if |parts| == 0 then []
    else if |parts| == 1 then parts[0]
    else parts[0] + sep + Join(sep, parts[1..])
  }

  lemma Join2(sep: Str, a: Str, b: Str)
    ensures Join(sep, [a, b]) == a + sep + b
  {
    assert [a, b][1..] == [b];
  }

  lemma Join3(sep: Str, a: Str, b: Str, c: Str)
    ensures Join(sep, [a, b, c]) == a + sep + b + sep + c
  {
    assert [a, b, c][1..] == [b, c];
    Join2(sep, b, c);
    assert a + sep + (b + sep + c) == a + sep + b + sep + c;
  }

  lemma Join4(sep: Str, a: Str, b: Str, c: Str, d: Str)
    ensures Join(sep, [a, b, c, d]) == a + sep + b + sep + c + sep + d
  {
    assert [a, b, c, d][1..] == [b, c, d];
    Join3(sep, b, c, d);
    assert a + sep + (b + sep + c + sep + d) == a + sep + b + sep + c + sep + d;
  }

  /** Number of occurrences of `c` in `s`. */
  function Count(s: Str, c: Byte): nat
  {
    if s == [] then 0 else (if s[0] == c then 1 else 0) + Count(s[1..], c)
  }

  /** `s.split(sep)` for a one-byte separator: the pieces between the
      separators; joining them with `sep` gives `s` back, and there is one
      piece more than there are separators. */
  function Split(s: Str, sep: Byte): (r: seq<Str>)
    ensures |r| == Count(s, sep) + 1
    ensures forall i :: 0 <= i < |r| ==> sep !in r[i]
    ensures Join([sep], r) == s
  {
    if s == [] then [[]]
    else
      var rest := Split(s[1..], sep);
      if s[0] == sep then [[]] + rest
      else [[s[0]] + rest[0]] + rest[1..]
  }

  /** Splitting a join recovers the parts when no part holds the separator. */
  lemma {:induction false} SplitJoin(parts: seq<Str>, sep: Byte)
    requires |parts| >= 1
    requires forall i :: 0 <= i < |parts| ==> sep !in parts[i]
    ensures Split(Join([sep], parts), sep) == parts
  {
    if |parts| == 1 {
      SplitNoSep(parts[0], sep);
    } else {
      SplitJoin(parts[1..], sep);
      SplitPrefix(parts[0], Join([sep], parts[1..]), sep);
      assert Join([sep], parts) == parts[0] + ([sep] + Join([sep], parts[1..]));
    }
  }

  lemma {:induction false} SplitNoSep(s: Str, sep: Byte)
    requires sep !in s
    ensures Split(s, sep) == [s]
  {
    if s != [] {
      SplitNoSep(s[1..], sep);
    }
  }

  lemma {:induction false} SplitPrefix(a: Str, b: Str, sep: Byte)
    requires sep !in a
    ensures Split(a + [sep] + b, sep) == [a] + Split(b, sep)
  {
    if a == [] {
      assert (a + [sep] + b)[1..] == b;
    } else {
      assert (a + [sep] + b)[1..] == a[1..] + [sep] + b;
      SplitPrefix(a[1..], b, sep);
      assert a == [a[0]] + a[1..];
    }
  }

  /** Length of the leading run of non-space bytes. */
  function RunLength(s: Str): (n: nat)
    ensures n <= |s|
    ensures forall i :: 0 <= i < n ==> !IsSpace(s[i])
    ensures n < |s| ==> IsSpace(s[n])
  {
    if s == [] || IsSpace(s[0]) then 0 else 1 + RunLength(s[1..])
  }

  /** `s.split()`: the maximal runs of non-space bytes, in order. */
  function Words(s: Str): (r: seq<Str>)
    ensures forall i :: 0 <= i < |r| ==> r[i] != [] && NoSpace(r[i])
    decreases |s|
  {
    if s == [] then []
    else if IsSpace(s[0]) then Words(s[1..])
    else
      var n := RunLength(s);
      [s[..n]] + Words(s[n..])
  }

  /** Splitting a space-joined list of words gives the words back. */
  lemma {:induction false} WordsOfJoin(ws: seq<Str>)
    requires forall i :: 0 <= i < |ws| ==> ws[i] != [] && NoSpace(ws[i])
    ensures Words(Join(" ", ws)) == ws
  {
    if |ws| == 1 {
      WordsOfWord(ws[0], []);
      assert ws[0] + [] == ws[0];
    } else if |ws| > 1 {
      WordsOfJoin(ws[1..]);
      WordsOfJoinStep(ws[0], ws[1..]);
      assert ws == [ws[0]] + ws[1..];
    }
  }

  /** A word in front of a space-joined list of words is split off first. */
  lemma WordsOfJoinStep(w: Str, ws: seq<Str>)
    requires w != [] && NoSpace(w) && ws != []
    ensures Words(Join(" ", [w] + ws)) == [w] + Words(Join(" ", ws))
  {
    var rest := Join(" ", ws);
    assert ([w] + ws)[1..] == ws;
    assert Join(" ", [w] + ws) == w + (" " + rest);
    WordsOfWord(w, " " + rest);
    assert (" " + rest)[1..] == rest;
  }

  lemma WordsOfWord(w: Str, rest: Str)
    requires w != [] && NoSpace(w)
    requires rest == [] || IsSpace(rest[0])
    ensures Words(w + rest) == [w] + Words(rest)
  {
    RunLengthOfWord(w, rest);
    assert (w + rest)[..|w|] == w;
    assert (w + rest)[|w|..] == rest;
  }

  lemma {:induction false} RunLengthOfWord(w: Str, rest: Str)
    requires NoSpace(w)
    requires rest == [] || IsSpace(rest[0])
    ensures RunLength(w + rest) == |w|
  {
    if w != [] {
      assert (w + rest)[1..] == w[1..] + rest;
      RunLengthOfWord(w[1..], rest);
    }
  }

  /** The leading run of `a + rest` is that of `a` when `rest` starts with
      whitespace (or is empty). */
  lemma {:induction false} RunLengthAppend(a: Str, rest: Str)
    requires rest == [] || IsSpace(rest[0])
    ensures RunLength(a + rest) == RunLength(a)
  {
    if a != [] && !IsSpace(a[0]) {
      assert (a + rest)[1..] == a[1..] + rest;
      RunLengthAppend(a[1..], rest);
    } else if a == [] {
      assert a + rest == rest;
    }
  }

  /** `(a + ' ' + b).split()` is `a.split() + b.split()`. */
  lemma {:induction false} WordsAppendSpace(a: Str, b: Str)
    ensures Words(a + " " + b) == Words(a) + Words(b)
    decreases |a|
  {
    var s := a + " " + b;
    if a == [] {
      assert s[1..] == b;
    } else if IsSpace(a[0]) {
      assert s[1..] == a[1..] + " " + b;
      WordsAppendSpace(a[1..], b);
    } else {
      var n := RunLength(a);
      RunLengthAppend(a, " " + b);
      assert s == a + (" " + b);
      assert s[..n] == a[..n];
      assert s[n..] == a[n..] + " " + b;
      WordsAppendSpace(a[n..], b);
    }
  }

  /** Decimal digits of a natural number, as `%d` renders it. */
  function DecimalString(n: nat): (r: Str)
    ensures r != []
    ensures forall i :: 0 <= i < |r| ==> '0' <= r[i] <= '9'
  {
    var d := [('0' as int + n % 10) as char];
    if n < 10 then d else DecimalString(n / 10) + d
  }

  predicate IsLineBreak(c: Byte)
  {
    c == '\n' || c == '\r'
  }

  /** Length of the leading part of `s` before the first line break. */
  function LineLength(s: Str): (n: nat)
    ensures n <= |s|
    ensures forall i :: 0 <= i < n ==> !IsLineBreak(s[i])
    ensures n < |s| ==> IsLineBreak(s[n])
  {
    if s == [] || IsLineBreak(s[0]) then 0 else 1 + LineLength(s[1..])
  }

  /** `s.splitlines()` of a Python 2 `str`: lines end at `\n`, `\r` or
      `\r\n`; a final line break does not open an empty last line. */
  function SplitLines(s: Str): (r: seq<Str>)
    ensures s == [] <==> r == []
    ensures forall i :: 0 <= i < |r| ==> forall j :: 0 <= j < |r[i]| ==> !IsLineBreak(r[i][j])
    decreases |s|
  {
    if s == [] then []
    else
      var n := LineLength(s);
      if n == |s| then [s]
      else
        var k := if s[n] == '\r' && n + 1 < |s| && s[n + 1] == '\n' then n + 2 else n + 1;
        [s[..n]] + SplitLines(s[k..])
  }

  /** The first line of `s` is everything before its first line break. */
  lemma FirstLine(s: Str)
    requires s != []
    ensures SplitLines(s)[0] == s[..LineLength(s)]
  {
  }

  /** Number of leading whitespace bytes. */
  function LeadingSpaces(s: Str): (n: nat)
    ensures n <= |s|
    ensures forall i :: 0 <= i < n ==> IsSpace(s[i])
    ensures n < |s| ==> !IsSpace(s[n])
  {
    if s == [] || !IsSpace(s[0]) then 0 else 1 + LeadingSpaces(s[1..])
  }

  /** Number of trailing whitespace bytes. */
  function TrailingSpaces(s: Str): (n: nat)
    ensures n <= |s|
    ensures forall i :: |s| - n <= i < |s| ==> IsSpace(s[i])
    ensures n < |s| ==> !IsSpace(s[|s| - 1 - n])
  {
    if s == [] || !IsSpace(s[|s| - 1]) then 0 else 1 + TrailingSpaces(s[..|s| - 1])
  }

  /** `s.strip()`: `s` without its leading and trailing whitespace; the
      result is a slice of `s` that neither starts nor ends with whitespace. */
  function Strip(s: Str): (r: Str)
    ensures r != [] ==> !IsSpace(r[0]) && !IsSpace(r[|r| - 1])
    ensures r == [] <==> forall i :: 0 <= i < |s| ==> IsSpace(s[i])
  {
    var a := LeadingSpaces(s);
    if a == |s| then []
    else
      var b := |s| - TrailingSpaces(s);
      assert !IsSpace(s[a]);
      s[a..b]
  }

  /** Python's ordering of `str` values: byte-wise lexicographic. */
  predicate Less(a: Str, b: Str)
  {
    if a == [] then b != []
    else if b == [] then false
    else a[0] < b[0] || (a[0] == b[0] && Less(a[1..], b[1..]))
  }

  /** Concatenation is associative. */
  lemma ConcatAssoc<T>(a: seq<T>, b: seq<T>, c: seq<T>)
    ensures a + b + c == a + (b + c)
  {
  }

  /** The empty sequence is a unit of concatenation. */
  lemma ConcatEmpty<T>(s: seq<T>)
    ensures [] + s == s && s + [] == s
  {
  }

  /** A sequence is its prefix followed by the rest. */
  lemma SplitAt<T>(s: seq<T>, n: nat)
    requires n <= |s|
    ensures s[..n] + s[n..] == s
  {
  }

  /** A longer prefix is the shorter one and the next element. */
  lemma TakeOneMore<T>(s: seq<T>, i: nat)
    requires i < |s|
    ensures s[..i + 1] == s[..i] + [s[i]]
  {
  }

  /** A prefix of a prefix is a prefix. */
  lemma PrefixOfPrefix<T>(s: seq<T>, m: nat, n: nat)
    requires m <= n <= |s|
    ensures s[..n][..m] == s[..m]
  {
  }

  lemma {:induction false} LessIrreflexive(a: Str)
    ensures !Less(a, a)
  {
    if a != [] {
      LessIrreflexive(a[1..]);
    }
  }

  lemma {:induction false} LessTransitive(a: Str, b: Str, c: Str)
    requires Less(a, b) && Less(b, c)
    ensures Less(a, c)
  {
    if a != [] && b != [] && c != [] && a[0] == b[0] == c[0] {
      LessTransitive(a[1..], b[1..], c[1..]);
    }
  }

  lemma {:induction false} LessAsymmetric(a: Str, b: Str)
    ensures !(Less(a, b) && Less(b, a))
  {
    if a != [] && b != [] && a[0] == b[0] {
      LessAsymmetric(a[1..], b[1..]);
    }
  }

  lemma {:induction false} LessTotal(a: Str, b: Str)
    requires a != b
    ensures Less(a, b) || Less(b, a)
  {
    if a != [] && b != [] && a[0] == b[0] {
      assert a == [a[0]] + a[1..] && b == [b[0]] + b[1..];
      LessTotal(a[1..], b[1..]);
    }
  }

  /** `s.replace(pattern, '')` for a non-empty pattern: every occurrence,
      scanned left to right without overlap, is removed. */
  function RemoveAll(s: Str, pattern: Str): (r: Str)
    requires pattern != []
    ensures |r| <= |s|
    decreases |s|
  {
    if |s| < |pattern| then s
    else if s[..|pattern|] == pattern then RemoveAll(s[|pattern|..], pattern)
    else [s[0]] + RemoveAll(s[1..], pattern)
  }

  /** `s.replace(pattern, '')`; an empty pattern leaves `s` as it is. */
  function Remove(s: Str, pattern: Str): Str
  {
    if pattern == [] then s else RemoveAll(s, pattern)
  }

  /** `s.replace(c, repl)` for a one-byte pattern. */
  function ReplaceByte(s: Str, c: Byte, repl: Str): (r: Str)
    ensures c !in repl ==> c !in r
    ensures |r| == |s| + Count(s, c) * (|repl| - 1)
  {
    if s == [] then []
    else (if s[0] == c then repl else [s[0]]) + ReplaceByte(s[1..], c, repl)
  }

  /** Replacing a byte that does not occur changes nothing. */
  lemma {:induction false} ReplaceAbsent(s: Str, c: Byte, repl: Str)
    requires c !in s
    ensures ReplaceByte(s, c, repl) == s
  {
    if s != [] {
      ReplaceAbsent(s[1..], c, repl);
    }
  }

  // ---------------------------------------------------------------------
  // textwrap.dedent

  predicate IsBlank(c: Byte)
  {
    c == ' ' || c == '\t'
  }

  /** Length of the leading run of blanks (spaces and tabs). */
  function IndentLength(line: Str): (n: nat)
    ensures n <= |line|
    ensures forall i :: 0 <= i < n ==> IsBlank(line[i])
    ensures n < |line| ==> !IsBlank(line[n])
  {
    if line == [] || !IsBlank(line[0]) then 0 else 1 + IndentLength(line[1..])
  }

  /** Longest common prefix. */
  function CommonPrefix(a: Str, b: Str): (r: Str)
    ensures StartsWith(a, r) && StartsWith(b, r)
  {
    if a == [] || b == [] || a[0] != b[0] then []
    else [a[0]] + CommonPrefix(a[1..], b[1..])
  }

  /** dedent blanks out lines made only of spaces and tabs. */
  function BlankOut(line: Str): Str
  {
    if IndentLength(line) == |line| then [] else line
  }

  /** The margin dedent removes: the longest common prefix of the
      indentation of the lines that have content (None if there are none). */
  function Margin(lines: seq<Str>): Option<Str>
  {
    if lines == [] then None
    else
      var rest := Margin(lines[1..]);
      var line := BlankOut(lines[0]);
      if line == [] then rest
      else
        var indent := line[..IndentLength(line)];
        match rest
        case None => Some(indent)
        case Some(m) => Some(CommonPrefix(indent, m))
  }

  function RemoveMargin(line: Str, margin: Str): Str
  {
    if StartsWith(line, margin) then line[|margin|..] else line
  }

  /** `textwrap.dedent(text)`: whitespace-only lines become empty and the
      common leading whitespace of the other lines is removed. */
  function Dedent(text: Str): Str
  {
    var lines := seq(|Split(text, '\n')|, i requires 0 <= i < |Split(text, '\n')| => BlankOut(Split(text, '\n')[i]));
    var margin := match Margin(lines) case None => [] case Some(m) => m;
    Join("\n", seq(|lines|, i requires 0 <= i < |lines| => RemoveMargin(lines[i], margin)))
  }
}
