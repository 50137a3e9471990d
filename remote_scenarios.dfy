/** The usage scenarios of the remote file handles exercised by
    test/test_remote.py, stated for arbitrary content: each method opens a
    fresh handle, performs the calls of one scenario and returns what the
    caller observes, including the requests that reached the server. */
module RemoteScenarios {
  import opened PyStr
  import opened RemoteBuffer
  import opened Remote

  /** `read(k)` then `read()`: the first `k` bytes, then exactly the rest,
      from one GET. */
  method ReadThenRest(path: Str, query: Params, response: Response, k: nat)
    returns (first: Str, rest: Str, requests: seq<Request>)
    ensures first == ReadSlice(response.body, 0, Some(k))
    ensures first + rest == response.body
    ensures requests == [Get(path, query)]
  {
    var f := new RORemoteFile(path, query, 1, response);
    first := f.Read(Some(k));
    rest := f.Read(None);
    RemoteBuffer.ReadThenRest(response.body, 0, k);
    requests := f.requests;
  }

  /** `write_to(sink, k)` then `write_to(sink)`: the two copies together are
      the whole body. */
  method WriteToThenRest(path: Str, query: Params, response: Response, k: nat)
    returns (first: Result<Str>, rest: Result<Str>)
    ensures first.Ok? && rest.Ok?
    ensures first.value == ReadSlice(response.body, 0, Some(k))
    ensures first.value + rest.value == response.body
  {
    var f := new RORemoteFile(path, query, 1, response);
    first := f.WriteTo(Stream, Some(k));
    rest := f.WriteTo(Stream, None);
    RemoteBuffer.ReadThenRest(response.body, 0, k);
  }

  /** `write_to(path)` on a path that may not be written: `ValueError`, and
      nothing was fetched. */
  method WriteToRefused(path: Str, response: Response, dest: Str)
    returns (r: Result<Str>, requests: seq<Request>)
    ensures r == Err(ValueError)
    ensures requests == []
  {
    var f := new RORemoteFile(path, [], 1, response);
    r := f.WriteTo(FilePath(dest, false), None);
    requests := f.requests;
  }

  /** Iteration with `stream_bufsize` `n`, capped at `size` bytes or not:
      non-empty chunks of at most `n` bytes, all full but the last, that
      concatenate to the first `size` bytes of the body. */
  method IterateBody(path: Str, response: Response, n: nat, size: Option<nat>)
    returns (chunks: seq<Str>)
    requires n > 0
    ensures Flatten(chunks) == ReadSlice(response.body, 0, size)
    ensures forall k :: 0 <= k < |chunks| ==> 0 < |chunks[k]| <= n
    ensures forall k :: 0 <= k < |chunks| - 1 ==> |chunks[k]| == n
  {
    var f := new RORemoteFile(path, [], n, response);
    chunks := f.Iterate(size);
  }

  /** `seek(k)` then `read(m)` on a read-write handle: the `m` bytes at
      `k`, from one GET with the handle's query; reading never marks the
      handle modified, so closing sends nothing more. */
  method SeekRead(path: Str, query: Params, response: Response, tmpSize: nat, k: nat, m: nat)
    returns (data: Result<Str>, requests: seq<Request>)
    ensures data == Ok(ReadSlice(response.body, k, Some(m)))
    ensures requests == [Get(path, query)]
  {
    var f := new RWFile.Remote(path, None, query, 1, false, false, tmpSize, response);
    var _ := f.Seek(k, SeekSet);
    data := f.Read(Some(m));
    f.Close([]);
    requests := f.requests;
  }

  /** `seek(0)`, `readlines()`, `seek(0)`, `readline()`: the first line
      `readline` returns is the first entry of `readlines`. */
  method ReadLinesThenLine(path: Str, response: Response, tmpSize: nat)
    returns (lines: Result<seq<Str>>, line: Result<Str>)
    ensures lines == Ok(Lines(response.body))
    ensures line == Ok(RemoteBuffer.ReadLine(response.body, 0))
    ensures response.body != [] ==> lines.value[0] == line.value
  {
    var f := new RWFile.Remote(path, None, [], 1, false, false, tmpSize, response);
    var _ := f.Seek(0, SeekSet);
    lines := f.ReadLines();
    assert ReadSlice(response.body, 0, None) == response.body[0..];
    var _ := f.Seek(0, SeekSet);
    line := f.ReadLine();
    if response.body != [] {
      ReadLineIsFirstLine(response.body, 0);
    }
  }

  /** Two writes to a fresh handle and `close()`: one PUT of both writes
      to the path, and no GET. */
  method WriteWriteClose(path: Str, response: Response, x: Str, y: Str)
    returns (requests: seq<Request>)
    ensures requests == [Put(path, [], x + y)]
  {
    var f := new RWFile.Remote(path, None, [], 1, false, false, 0, response);
    var _ := f.Write(x);
    var _ := f.Write(y);
    f.Close([]);
    WriteThenWrite([], 0, x, y);
    assert WriteAt([], 0, x + y) == x + y;
    requests := f.requests;
  }

  /** Write, `seek(0)`, a longer write, then `write_back(**q)`,
      `write_back()`, `write_back(force=True)` and `close(**q)`: the first
      write back PUTs the second write with the query, the unforced second
      sends nothing, the forced third PUTs again without query, and closing
      sends nothing. */
  method WriteBacks(path: Str, wbPath: Str, response: Response, x: Str, y: Str, q: Params)
    returns (requests: seq<Request>)
    requires |x| <= |y|
    ensures requests == [Put(wbPath, q, y), Put(wbPath, [], y)]
  {
    var f := new RWFile.Remote(path, Some(wbPath), [], 1, false, false, 0, response);
    var _ := f.Write(x);
    var _ := f.Seek(0, SeekSet);
    var _ := f.Write(y);
    OverwriteCovers([], 0, x, y);
    assert WriteAt([], 0, y) == y;
    var _ := f.WriteBack(false, q);
    var _ := f.WriteBack(false, []);
    var _ := f.WriteBack(true, []);
    f.Close(q);
    requests := f.requests;
  }

  /** `append=True`: `readline()`, two writes and `close()`: one GET, then
      one PUT of the body with the writes laid over it after the first
      line. */
  method AppendAfterLine(path: Str, response: Response, tmpSize: nat, x: Str, y: Str)
    returns (line: Result<Str>, requests: seq<Request>)
    ensures line == Ok(RemoteBuffer.ReadLine(response.body, 0))
    ensures requests == [Get(path, []), Put(path, [], WriteAt(response.body, |line.value|, x + y))]
  {
    var f := new RWFile.Remote(path, None, [], 1, true, false, tmpSize, response);
    line := f.ReadLine();
    var _ := f.Write(x);
    var _ := f.Write(y);
    WriteThenWrite(response.body, |line.value|, x, y);
    f.Close([]);
    requests := f.requests;
  }

  /** `append=True`: `read(3)`, a write, then `write_to(sink, 7)`: the copy
      starts right after the written bytes. */
  method ReadWriteWriteTo(path: Str, response: Response, tmpSize: nat, x: Str)
    returns (copied: Result<Str>)
    requires |response.body| >= 3
    ensures copied == Ok(ReadSlice(WriteAt(response.body, 3, x), 3 + |x|, Some(7)))
  {
    var f := new RWFile.Remote(path, None, [], 1, true, false, tmpSize, response);
    var _ := f.Read(Some(3));
    var _ := f.Write(x);
    copied := f.WriteTo(Stream, Some(7));
  }

  /** The storage follows the Content-Length of the body: a temporary file
      above `tmp_size`, which exists while the handle is open and is gone
      after `close()`; memory otherwise. */
  method StorageBySize(path: Str, response: Response, tmpSize: nat)
    returns (usedTmp: bool, existedOpen: bool, existsClosed: bool)
    ensures usedTmp <==> response.contentLength.Some? && response.contentLength.value > tmpSize
    ensures existedOpen == usedTmp
    ensures !existsClosed
  {
    var f := new RWFile.Remote(path, None, [], 1, false, false, tmpSize, response);
    var _ := f.Seek(1, SeekSet);
    usedTmp := f.store.TempFile?;
    existedOpen := f.tmpExists;
    f.Close([]);
    existsClosed := f.tmpExists;
  }

  /** `use_tmp=True`: the first write opens a temporary file without
      fetching; it is gone after `close()`. */
  method WriteToTempFile(path: Str, response: Response, x: Str)
    returns (existedOpen: bool, existsClosed: bool, requests: seq<Request>)
    ensures existedOpen && !existsClosed
    ensures requests == [Put(path, [], x)]
  {
    var f := new RWFile.Remote(path, None, [], 1, false, true, 0, response);
    var _ := f.Write(x);
    existedOpen := f.tmpExists;
    f.Close([]);
    existsClosed := f.tmpExists;
    assert WriteAt([], 0, x) == x;
    requests := f.requests;
  }

  /** `RWLocalFile` without a write-back path raises `ValueError`. */
  method LocalWithoutWriteBackPath(filePath: Str, existing: Option<Str>)
    returns (r: Result<RWFile>)
    ensures r == Err(ValueError)
  {
    r := OpenLocal(filePath, existing, None, 1, false);
  }

  /** `RWLocalFile` on a missing file: a write and `flush()` put the data
      on disk, reading from 0 returns it, and `write_back(**q)` PUTs it. */
  method LocalWriteFlushRead(filePath: Str, wbPath: Str, x: Str, q: Params)
    returns (onDisk: Option<Str>, data: Result<Str>, requests: seq<Request>)
    ensures onDisk == Some(x)
    ensures data == Ok(x)
    ensures requests == [Put(wbPath, q, x)]
  {
    var r := OpenLocal(filePath, None, Some(wbPath), 1, false);
    var f := r.value;
    var _ := f.Write(x);
    var _ := f.Flush();
    onDisk := f.disk;
    var _ := f.Seek(0, SeekSet);
    data := f.Read(None);
    assert WriteAt([], 0, x) == x;
    var _ := f.WriteBack(false, q);
    f.Close([]);
    requests := f.requests;
  }

  /** `RWLocalFile` with `append=True` on an existing file: the write lands
      after the existing content, on disk after `flush()`, and
      `write_back()` PUTs the whole. */
  method LocalAppend(filePath: Str, wbPath: Str, existing: Str, x: Str)
    returns (onDisk: Option<Str>, requests: seq<Request>)
    ensures onDisk == Some(existing + x)
    ensures requests == [Put(wbPath, [], existing + x)]
  {
    var r := OpenLocal(filePath, Some(existing), Some(wbPath), 1, true);
    var f := r.value;
    var _ := f.Write(x);
    var _ := f.Flush();
    onDisk := f.disk;
    assert WriteAt(existing, |existing|, x) == existing + x;
    var _ := f.WriteBack(false, []);
    f.Close([]);
    requests := f.requests;
  }

  /** A forced `write_back()` straight after opening an existing local
      file PUTs its whole content. */
  method LocalForcedWriteBack(filePath: Str, wbPath: Str, existing: Str)
    returns (requests: seq<Request>)
    ensures requests == [Put(wbPath, [], existing)]
  {
    var r := OpenLocal(filePath, Some(existing), Some(wbPath), 1, true);
    var f := r.value;
    var _ := f.WriteBack(true, []);
    f.Close([]);
    requests := f.requests;
  }
}
