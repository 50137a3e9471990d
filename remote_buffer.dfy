/** The byte-buffer semantics shared by the remote file handles of
    `osc.remote` (`RORemoteFile`, `RWRemoteFile`, `RWLocalFile`): reading at
    a cursor, overwriting at a cursor, line splitting and chunked
    iteration.  The handles in module Remote are specified by these
    functions. */
module RemoteBuffer {
  import opened PyStr

  /** The concatenation of a sequence of strings. */
  function Flatten(parts: seq<Str>): (r: Str)
    ensures parts == [] ==> r == []
  {
    if parts == [] then [] else parts[0] + Flatten(parts[1..])
  }

  /** Flattening distributes over concatenation of the part lists. */
  lemma {:induction false} FlattenAppend(a: seq<Str>, b: seq<Str>)
    ensures Flatten(a + b) == Flatten(a) + Flatten(b)
    decreases |a|
  {
    if a != [] {
      assert (a + b)[1..] == a[1..] + b;
      FlattenAppend(a[1..], b);
    } else {
      assert a + b == b;
    }
  }

  /** Appending a part adds its length to the flattened length. */
  lemma FlattenSnoc(parts: seq<Str>, part: Str)
    ensures |Flatten(parts + [part])| == |Flatten(parts)| + |part|
  {
    FlattenAppend(parts, [part]);
    assert Flatten([part]) == part;
  }

  /** `read(size)` at cursor `pos` (`size` None: read everything): the bytes
      from the cursor on, at most `size` of them, and fewer only when the
      end of the buffer is reached; past the end nothing is read. */
  function ReadSlice(buf: Str, pos: nat, size: Option<nat>): (r: Str)
    ensures pos >= |buf| ==> r == []
    ensures pos < |buf| ==> pos + |r| <= |buf| && r == buf[pos..pos + |r|]
    ensures size.Some? ==> |r| <= size.value
    ensures (size.None? || |r| < size.value) ==> pos + |r| >= |buf|
  {
    if pos >= |buf| then []
    else if size.None? || pos + size.value >= |buf| then buf[pos..]
    else buf[pos..pos + size.value]
  }

  /** Reading `n` bytes and then reading the rest gives everything from the
      cursor: `read(5)` followed by `read()`, or `write_to(sink, 12)`
      followed by `write_to(sink)`. */
  lemma ReadThenRest(buf: Str, pos: nat, n: nat)
    ensures var first := ReadSlice(buf, pos, Some(n));
            first + ReadSlice(buf, pos + |first|, None) == ReadSlice(buf, pos, None)
  {
    var first := ReadSlice(buf, pos, Some(n));
    if pos < |buf| {
      assert buf[pos..] == buf[pos..pos + |first|] + buf[pos + |first|..];
    }
  }

  /** `n` NUL bytes, the filler a write past the end leaves behind. */
  function Zeros(n: nat): (r: Str)
    ensures |r| == n
    ensures forall i :: 0 <= i < n ==> r[i] == '\0'
  {
    if n == 0 then [] else Zeros(n - 1) + ['\0']
  }

  /** `write(data)` at cursor `pos`: `data` replaces the bytes it covers,
      the buffer grows when `data` reaches past its end, and a gap between
      the old end and the cursor is filled with NUL bytes. */
  function WriteAt(buf: Str, pos: nat, data: Str): (r: Str)
    ensures |r| == if pos + |data| > |buf| then pos + |data| else |buf|
    ensures r[pos..pos + |data|] == data
    ensures forall i :: 0 <= i < pos && i < |buf| ==> r[i] == buf[i]
    ensures forall i :: |buf| <= i < pos ==> r[i] == '\0'
    ensures forall i :: pos + |data| <= i < |buf| ==> r[i] == buf[i]
  {
    if pos <= |buf| then
      buf[..pos] + data + (if pos + |data| < |buf| then buf[pos + |data|..] else [])
    else
      buf + Zeros(pos - |buf|) + data
  }

  /** Two consecutive writes are one write of their concatenation. */
  lemma WriteThenWrite(buf: Str, pos: nat, x: Str, y: Str)
    ensures WriteAt(WriteAt(buf, pos, x), pos + |x|, y) == WriteAt(buf, pos, x + y)
  {
    var a := WriteAt(WriteAt(buf, pos, x), pos + |x|, y);
    var b := WriteAt(buf, pos, x + y);
    assert |a| == |b|;
    forall i | 0 <= i < |a|
      ensures a[i] == b[i]
    {
      if pos + |x| <= i < pos + |x| + |y| {
        assert a[i] == a[pos + |x|..pos + |x| + |y|][i - pos - |x|];
        assert b[i] == b[pos..pos + |x| + |y|][i - pos];
      } else if pos <= i < pos + |x| {
        assert WriteAt(buf, pos, x)[i] == WriteAt(buf, pos, x)[pos..pos + |x|][i - pos];
        assert b[i] == b[pos..pos + |x| + |y|][i - pos];
      }
    }
  }

  /** A write that covers an earlier write at the same cursor erases every
      trace of it. */
  lemma OverwriteCovers(buf: Str, pos: nat, x: Str, y: Str)
    requires |x| <= |y|
    ensures WriteAt(WriteAt(buf, pos, x), pos, y) == WriteAt(buf, pos, y)
  {
    var a := WriteAt(WriteAt(buf, pos, x), pos, y);
    var b := WriteAt(buf, pos, y);
    assert |a| == |b|;
    forall i | 0 <= i < |a|
      ensures a[i] == b[i]
    {
      if pos <= i < pos + |y| {
        assert a[i] == a[pos..pos + |y|][i - pos];
        assert b[i] == b[pos..pos + |y|][i - pos];
      }
    }
  }

  /** Read/write coherence: reading back as many bytes as were written at
      the cursor returns the written bytes. */
  lemma ReadBack(buf: Str, pos: nat, data: Str)
    ensures ReadSlice(WriteAt(buf, pos, data), pos, Some(|data|)) == data
  {
    var w := WriteAt(buf, pos, data);
    if data != [] {
      assert w[pos..pos + |data|] == data;
    }
  }

  /** The end of the line starting at `pos`: just after the next newline,
      or the end of the buffer when there is none. */
  function LineEnd(buf: Str, pos: nat): (e: nat)
    requires pos <= |buf|
    ensures pos <= e <= |buf|
    ensures forall i :: pos <= i < e && buf[i] == '\n' ==> i == e - 1
    ensures e == |buf| || (pos < e && buf[e - 1] == '\n')
    decreases |buf| - pos
  {
    if pos == |buf| then pos
    else if buf[pos] == '\n' then pos + 1
    else LineEnd(buf, pos + 1)
  }

  /** A line: non-empty, with a newline at most as its last byte. */
  predicate IsLine(line: Str)
  {
    line != [] && forall i :: 0 <= i < |line| - 1 ==> line[i] != '\n'
  }

  /** `readline()` at cursor `pos`: the bytes up to and including the next
      newline, or up to the end when no newline follows. */
  function ReadLine(buf: Str, pos: nat): (r: Str)
    ensures pos >= |buf| <==> r == []
    ensures pos < |buf| ==> pos + |r| <= |buf| && r == buf[pos..pos + |r|] && IsLine(r)
    ensures pos < |buf| ==> pos + |r| == |buf| || r[|r| - 1] == '\n'
  {
    if pos >= |buf| then [] else buf[pos..LineEnd(buf, pos)]
  }

  /** `readlines()` of `s`: its lines in order; they concatenate to `s`,
      and each but the last ends with a newline. */
  function Lines(s: Str): (r: seq<Str>)
    ensures Flatten(r) == s
    ensures forall k :: 0 <= k < |r| ==> IsLine(r[k])
    ensures forall k :: 0 <= k < |r| - 1 ==> r[k] != [] && r[k][|r[k]| - 1] == '\n'
    decreases |s|
  {
    if s == [] then []
    else
      var e := LineEnd(s, 0);
      assert s == s[..e] + s[e..];
      [s[..e]] + Lines(s[e..])
  }

  /** Number of lines `readlines()` yields: one per newline, plus one for
      a last line without a newline. */
  lemma {:induction false} LinesCount(s: Str)
    ensures |Lines(s)| == Count(s, '\n') + (if s != [] && s[|s| - 1] != '\n' then 1 else 0)
    decreases |s|
  {
    if s != [] {
      var e := LineEnd(s, 0);
      LinesCount(s[e..]);
      CountSplit(s, e, '\n');
      NewlinesInLine(s[..e]);
      assert s[e..] != [] ==> s[e..][|s[e..]| - 1] == s[|s| - 1];
    }
  }

  /** Counting is additive over a split of the string. */
  lemma {:induction false} CountSplit(s: Str, k: nat, c: Byte)
    requires k <= |s|
    ensures Count(s, c) == Count(s[..k], c) + Count(s[k..], c)
    decreases k
  {
    if k > 0 {
      CountSplit(s[1..], k - 1, c);
      assert s[1..][..k - 1] == s[..k][1..];
      assert s[1..][k - 1..] == s[k..];
    }
  }

  /** A line holds one newline when it ends with one, else none. */
  lemma {:induction false} NewlinesInLine(line: Str)
    requires IsLine(line)
    ensures Count(line, '\n') == if line[|line| - 1] == '\n' then 1 else 0
    decreases |line|
  {
    if |line| > 1 {
      assert line[0] != '\n';
      NewlinesInLine(line[1..]);
    }
  }

  /** `readline()` returns the first entry `readlines()` would return from
      the same cursor. */
  lemma ReadLineIsFirstLine(buf: Str, pos: nat)
    requires pos < |buf|
    ensures Lines(buf[pos..]) != [] && Lines(buf[pos..])[0] == ReadLine(buf, pos)
  {
    var s := buf[pos..];
    assert LineEnd(buf, pos) == pos + LineEnd(s, 0);
  }

  /** Iteration with `stream_bufsize` `n`: consecutive chunks of `n` bytes,
      the last one shorter when the data runs out; they concatenate to the
      data. */
  function Chunks(data: Str, n: nat): (r: seq<Str>)
    requires n > 0
    ensures Flatten(r) == data
    ensures forall k :: 0 <= k < |r| ==> 0 < |r[k]| <= n
    ensures forall k :: 0 <= k < |r| - 1 ==> |r[k]| == n
    decreases |data|
  {
    if data == [] then []
    else if |data| <= n then [data]
    else
      assert data == data[..n] + data[n..];
      [data[..n]] + Chunks(data[n..], n)
  }

  /** There are as many chunks as `n` fits into the data, rounded up:
      none for no data, otherwise `k` with `(k - 1) * n < |data| <= k * n`. */
  lemma {:induction false} ChunksCount(data: Str, n: nat)
    requires n > 0
    ensures data == [] <==> Chunks(data, n) == []
    ensures data != [] ==> (|Chunks(data, n)| - 1) * n < |data| <= |Chunks(data, n)| * n
    decreases |data|
  {
    if |data| > n {
      var k := |Chunks(data[n..], n)|;
      ChunksCount(data[n..], n);
      assert |Chunks(data, n)| == k + 1;
      MulStep(k, n);
    } else if data != [] {
      assert |Chunks(data, n)| == 1;
    }
  }

  /** One more chunk covers `n` more bytes. */
  lemma MulStep(k: nat, n: nat)
    requires k >= 1
    ensures (k + 1 - 1) * n == (k - 1) * n + n
    ensures (k + 1) * n == k * n + n
  {
  }

  /** How many bytes the iteration asks for next: `stream_bufsize`, or
      what is left of the cap when that is less. */
  function Want(cap: Option<nat>, n: nat): (w: nat)
    ensures w <= n
    ensures cap.Some? ==> w <= cap.value
  {
    if cap.None? || cap.value > n then n else cap.value
  }

  /** What is left of the cap after `k` more bytes were read. */
  function CapLeft(cap: Option<nat>, k: nat): Option<nat>
  {
    if cap.None? || cap.value < k then None else Some(cap.value - k)
  }

  /** Taking the next chunk of at most `n` bytes off a capped read leaves
      the capped read of the rest. */
  lemma ChunkStep(buf: Str, pos: nat, cap: Option<nat>, n: nat)
    requires n > 0
    requires ReadSlice(buf, pos, cap) != []
    ensures ReadSlice(buf, pos, Some(Want(cap, n))) != []
    ensures var chunk := ReadSlice(buf, pos, Some(Want(cap, n)));
            Chunks(ReadSlice(buf, pos, cap), n)
            == [chunk] + Chunks(ReadSlice(buf, pos + |chunk|, CapLeft(cap, |chunk|)), n)
  {
    var chunk := ReadSlice(buf, pos, Some(Want(cap, n)));
    var all := ReadSlice(buf, pos, cap);
    var tail := ReadSlice(buf, pos + |chunk|, CapLeft(cap, |chunk|));
    assert pos < |buf|;
    if |all| <= n {
      assert chunk == all;
      assert tail == [];
      assert Chunks(all, n) == [chunk] + Chunks(tail, n);
    } else {
      assert chunk == all[..n];
      assert tail == all[n..];
      assert Chunks(all, n) == [chunk] + Chunks(tail, n);
    }
  }
}
