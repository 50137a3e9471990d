/** The remote file handles of `osc.remote`: `RORemoteFile`, a read-only
    view of a file on the build service fetched with one GET, and the
    read-write handles `RWRemoteFile` (backed by memory or by a temporary
    file, pre-filled from a GET) and `RWLocalFile` (backed by a file on the
    local disk), which are written back with a PUT.  The transport is a
    request log; the GET response is a parameter of the handle. */
module Remote {
  import opened PyStr
  import opened RemoteBuffer

  /** Query parameters of a request. */
  type Params = seq<(Str, Str)>

  /** A request sent to the server. */
  datatype Request = Get(path: Str, query: Params) | Put(path: Str, query: Params, body: Str)

  /** What the server answers to the GET: the body and the Content-Length
      header when it sends one. */
  datatype Response = Response(body: Str, contentLength: Option<nat>)

  datatype Error = ValueError | IOError
  datatype Result<+T> = Ok(value: T) | Err(error: Error)

  /** The destination of `write_to`: an object with a `write` method, or a
      file path; a path that may not be written is refused. */
  datatype Dest = Stream | FilePath(path: Str, writable: bool)

  /** The `whence` argument of `seek`: `os.SEEK_SET`, `os.SEEK_CUR` or
      `os.SEEK_END`. */
  datatype Whence = SeekSet | SeekCur | SeekEnd

  /** The chunks the generator of `__iter__` yields from `pos`: it asks
      for `stream_bufsize` bytes (or what is left of the cap when that is
      less) until the cap is used up or a read comes back empty. */
  function Generated(buf: Str, pos: nat, left: Option<nat>, n: nat): seq<Str>
    requires n > 0
    decreases |buf| - pos
  {
    if left.Some? && left.value == 0 then []
    else
      var data := ReadSlice(buf, pos, Some(Want(left, n)));
      if data == [] then [] else [data] + Generated(buf, pos + |data|, CapLeft(left, |data|), n)
  }

  /** The generator yields the capped read cut into chunks of
      `stream_bufsize` bytes. */
  lemma {:induction false} GeneratedChunks(buf: Str, pos: nat, left: Option<nat>, n: nat)
    requires n > 0
    ensures Generated(buf, pos, left, n) == Chunks(ReadSlice(buf, pos, left), n)
    decreases |buf| - pos
  {
    if left.Some? && left.value == 0 {
      assert ReadSlice(buf, pos, left) == [];
    } else {
      var data := ReadSlice(buf, pos, Some(Want(left, n)));
      if data == [] {
        assert ReadSlice(buf, pos, left) == [];
      } else {
        var next := pos + |data|;
        var rest := CapLeft(left, |data|);
        assert next <= |buf|;
        assert Generated(buf, pos, left, n) == [data] + Generated(buf, next, rest, n);
        GeneratedChunks(buf, next, rest, n);
        assert Chunks(ReadSlice(buf, pos, left), n) == [data] + Chunks(ReadSlice(buf, next, rest), n) by {
          assert ReadSlice(buf, pos, left) != [];
          ChunkStep(buf, pos, left, n);
        }
      }
    }
  }

  /** The iteration of a handle: chunks of at most `n` bytes read from
      `start`, stopping after `cap` bytes when a cap is given. */
  method IterateChunks(buf: Str, start: nat, cap: Option<nat>, n: nat) returns (chunks: seq<Str>, end: nat)
    requires n > 0
    ensures chunks == Chunks(ReadSlice(buf, start, cap), n)
    ensures end == start + |Flatten(chunks)|
  {
    chunks := [];
    end := start;
    var left := cap;
    while left.None? || left.value > 0
      invariant Generated(buf, start, cap, n) == chunks + Generated(buf, end, left, n)
      invariant end == start + |Flatten(chunks)|
      decreases |buf| - end
    {
      var data := ReadSlice(buf, end, Some(Want(left, n)));
      if data == [] {
        break;
      }
      assert end + |data| <= |buf| && |Flatten(chunks + [data])| == |Flatten(chunks)| + |data|
             && Generated(buf, start, cap, n)
                == (chunks + [data]) + Generated(buf, end + |data|, CapLeft(left, |data|), n) by {
        GeneratedStep(buf, start, cap, n, chunks, end, left, data);
      }
      chunks := chunks + [data];
      end := end + |data|;
      left := CapLeft(left, |data|);
    }
    assert chunks == Chunks(ReadSlice(buf, start, cap), n) by {
      GeneratedChunks(buf, start, cap, n);
    }
  }

  /** One round of the iteration keeps its invariant. */
  lemma GeneratedStep(buf: Str, start: nat, cap: Option<nat>, n: nat, chunks: seq<Str>, end: nat, left: Option<nat>, data: Str)
    requires n > 0
    requires left.None? || left.value > 0
    requires Generated(buf, start, cap, n) == chunks + Generated(buf, end, left, n)
    requires data == ReadSlice(buf, end, Some(Want(left, n))) && data != []
    ensures end + |data| <= |buf|
    ensures |Flatten(chunks + [data])| == |Flatten(chunks)| + |data|
    ensures Generated(buf, start, cap, n) == (chunks + [data]) + Generated(buf, end + |data|, CapLeft(left, |data|), n)
  {
    var later := Generated(buf, end + |data|, CapLeft(left, |data|), n);
    assert Generated(buf, end, left, n) == [data] + later;
    assert chunks + ([data] + later) == (chunks + [data]) + later;
    FlattenSnoc(chunks, data);
  }

  /** `RORemoteFile`: the body is fetched with one GET when it is first
      needed; reads and iteration consume it from a cursor. */
  class RORemoteFile {
    const path: Str
    const query: Params
    const bufsize: nat
    const response: Response
    var fetched: bool
    var pos: nat
    var requests: seq<Request>

    /** The body is fetched at most once, and the cursor only moves after
        that. */
    ghost predicate Valid()
      reads this
    {
      bufsize > 0
      && requests == (if fetched then [Get(path, query)] else [])
      && (!fetched ==> pos == 0)
    }

    constructor (path: Str, query: Params, bufsize: nat, response: Response)
      requires bufsize > 0
      ensures Valid()
      ensures this.path == path && this.query == query && this.bufsize == bufsize && this.response == response
      ensures !fetched && pos == 0 && requests == []
    {
      this.path := path;
      this.query := query;
      this.bufsize := bufsize;
      this.response := response;
      fetched := false;
      pos := 0;
      requests := [];
    }

    /** Issues the GET unless it was issued already. */
    method Fetch()
      modifies this
      requires Valid()
      ensures Valid() && fetched && pos == old(pos)
    {
      if !fetched {
        requests := requests + [Get(path, query)];
        fetched := true;
      }
    }

    /** `read(size)`. */
    method Read(size: Option<nat>) returns (data: Str)
      modifies this
      requires Valid()
      ensures Valid() && fetched
      ensures data == ReadSlice(response.body, old(pos), size)
      ensures pos == old(pos) + |data|
    {
      Fetch();
      data := ReadSlice(response.body, pos, size);
      pos := pos + |data|;
    }

    /** `__iter__(size)`: the chunks of `stream_bufsize` bytes from the
        cursor, capped at `size` bytes when it is given. */
    method Iterate(cap: Option<nat>) returns (chunks: seq<Str>)
      modifies this
      requires Valid()
      ensures Valid() && fetched
      ensures chunks == Chunks(ReadSlice(response.body, old(pos), cap), bufsize)
      ensures pos == old(pos) + |Flatten(chunks)|
    {
      Fetch();
      chunks, pos := IterateChunks(response.body, pos, cap, bufsize);
    }

    /** `write_to(dest, size)`: copies `size` bytes (all when absent) from
        the cursor to `dest`; a path that may not be written raises
        `ValueError` before anything is fetched. */
    method WriteTo(dest: Dest, size: Option<nat>) returns (r: Result<Str>)
      modifies this
      requires Valid()
      ensures Valid()
      ensures dest.FilePath? && !dest.writable ==> r == Err(ValueError) && unchanged(this)
      ensures !(dest.FilePath? && !dest.writable) ==>
                fetched && r == Ok(ReadSlice(response.body, old(pos), size)) && pos == old(pos) + |r.value|
    {
      if dest.FilePath? && !dest.writable {
        return Err(ValueError);
      }
      var data := Read(size);
      r := Ok(data);
    }
  }

  /** Where the content of a read-write handle lives. */
  datatype Store = Unopened | Memory | TempFile | LocalFile

  /** What a read-write handle is opened on: a remote file and the answer
      its GET would get, or a local file and its content when it exists. */
  datatype Origin = RemoteOrigin(response: Response) | LocalOrigin(filePath: Str, existing: Option<Str>)

  /** The storage of a handle on a remote file: a temporary file when one
      is asked for, or when the Content-Length of the fetched body exceeds
      `tmp_size`; memory otherwise. */
  function StoreFor(useTmp: bool, contentLength: Option<nat>, tmpSize: nat): (s: Store)
    ensures s.Memory? || s.TempFile?
    ensures s.TempFile? <==> useTmp || (contentLength.Some? && contentLength.value > tmpSize)
  {
    if useTmp || (contentLength.Some? && contentLength.value > tmpSize) then TempFile else Memory
  }

  /** `RWRemoteFile` and `RWLocalFile`. */
  class RWFile {
    const path: Str
    const query: Params
    const wbPath: Str
    const bufsize: nat
    const append: bool
    const useTmp: bool
    const tmpSize: nat
    const origin: Origin
    var store: Store
    var buf: Str
    var pos: nat
    var modified: bool
    var tmpExists: bool
    var closed: bool
    /** The content of the local file on disk, for a local handle. */
    var disk: Option<Str>
    var requests: seq<Request>

    /** The temporary file exists exactly while a handle stored in one is
        open; nothing is stored or changed before the store is opened; a
        local handle never fetches and keeps its content in its file;
        every PUT goes to the write-back path. */
    ghost predicate Valid()
      reads this
    {
      bufsize > 0
      && (tmpExists <==> store.TempFile? && !closed)
      && (store.Unopened? ==> buf == [] && pos == 0 && !modified)
      && (origin.LocalOrigin? ==> (store.Unopened? || store.LocalFile?) && disk.Some?)
      && (origin.RemoteOrigin? ==> !store.LocalFile?)
      && (forall k :: 0 <= k < |requests| && requests[k].Put? ==> requests[k].path == wbPath)
      && (origin.LocalOrigin? ==> forall k :: 0 <= k < |requests| ==> requests[k].Put?)
    }

    /** Whether opening the store fetches the remote body: for a remote
        handle, when the operation needs the content or the handle appends. */
    predicate Fetches(readRequired: bool)
    {
      origin.RemoteOrigin? && (readRequired || append)
    }

    /** The content a freshly opened store holds. */
    function InitialContent(readRequired: bool): Str
    {
      match origin
      case LocalOrigin(_, existing) => if existing.Some? then existing.value else []
      case RemoteOrigin(response) => if Fetches(readRequired) then response.body else []
    }

    /** The storage a freshly opened store uses. */
    function InitialStore(readRequired: bool): Store
    {
      match origin
      case LocalOrigin(_, _) => LocalFile
      case RemoteOrigin(response) =>
        StoreFor(useTmp, if Fetches(readRequired) then response.contentLength else None, tmpSize)
    }

    /** Opening the store on first use: an open store is left alone;
        otherwise the GET is issued when it fetches, the storage is chosen
        and the temporary file exists when it is one. */
    twostate predicate OpenedFor(readRequired: bool)
      reads this
    {
      if old(store).Unopened? then
        && store == InitialStore(readRequired)
        && requests == old(requests) + (if Fetches(readRequired) then [Get(path, query)] else [])
        && tmpExists == store.TempFile?
        && disk == old(disk)
      else
        store == old(store) && requests == old(requests) && tmpExists == old(tmpExists) && disk == old(disk)
    }

    /** The content an operation works on: the content of the store once it
        is open. */
    twostate function Content(readRequired: bool): Str
      reads this
    {
      if old(store).Unopened? then InitialContent(readRequired) else old(buf)
    }

    /** `RWRemoteFile(path, wb_path, append, use_tmp, tmp_size, **query)`:
        nothing is fetched yet; the write-back path defaults to the path. */
    constructor Remote(path: Str, wbPath: Option<Str>, query: Params, bufsize: nat, append: bool,
                       useTmp: bool, tmpSize: nat, response: Response)
      requires bufsize > 0
      ensures Valid()
      ensures this.path == path && this.query == query && this.bufsize == bufsize
      ensures this.wbPath == (if wbPath.Some? then wbPath.value else path)
      ensures this.append == append && this.useTmp == useTmp && this.tmpSize == tmpSize
      ensures origin == RemoteOrigin(response)
      ensures store.Unopened? && !closed && !tmpExists && requests == []
    {
      this.path := path;
      this.query := query;
      this.wbPath := if wbPath.Some? then wbPath.value else path;
      this.bufsize := bufsize;
      this.append := append;
      this.useTmp := useTmp;
      this.tmpSize := tmpSize;
      this.origin := RemoteOrigin(response);
      store := Unopened;
      buf := [];
      pos := 0;
      modified := false;
      tmpExists := false;
      closed := false;
      disk := None;
      requests := [];
    }

    /** The handle of `RWLocalFile(path, wb_path, append)` once its
        write-back path is known; a missing file is created empty. */
    constructor Local(filePath: Str, existing: Option<Str>, wbPath: Str, bufsize: nat, append: bool)
      requires bufsize > 0
      ensures Valid()
      ensures this.path == wbPath && this.wbPath == wbPath && this.query == []
      ensures this.bufsize == bufsize && this.append == append
      ensures origin == LocalOrigin(filePath, existing)
      ensures disk == Some(if existing.Some? then existing.value else [])
      ensures store.Unopened? && !closed && !tmpExists && requests == []
    {
      this.path := wbPath;
      this.query := [];
      this.wbPath := wbPath;
      this.bufsize := bufsize;
      this.append := append;
      this.useTmp := false;
      this.tmpSize := 0;
      this.origin := LocalOrigin(filePath, existing);
      store := Unopened;
      buf := [];
      pos := 0;
      modified := false;
      tmpExists := false;
      closed := false;
      disk := Some(if existing.Some? then existing.value else []);
      requests := [];
    }

    /** Opens the store on first use. */
    method InitStore(readRequired: bool)
      modifies this
      requires Valid() && !closed
      ensures Valid() && !closed && !store.Unopened?
      ensures OpenedFor(readRequired)
      ensures buf == Content(readRequired) && pos == old(pos) && modified == old(modified)
    {
      if !store.Unopened? {
        return;
      }
      if Fetches(readRequired) {
        requests := requests + [Get(path, query)];
      }
      store := InitialStore(readRequired);
      buf := InitialContent(readRequired);
      tmpExists := store.TempFile?;
    }

    /** `read(size)`: never marks the handle modified. */
    method Read(size: Option<nat>) returns (r: Result<Str>)
      modifies this
      requires Valid()
      ensures Valid()
      ensures old(closed) ==> r == Err(ValueError) && unchanged(this)
      ensures !old(closed) ==>
                && OpenedFor(true) && !closed && buf == Content(true) && modified == old(modified)
                && r == Ok(ReadSlice(buf, old(pos), size)) && pos == old(pos) + |r.value|
    {
      if closed {
        return Err(ValueError);
      }
      InitStore(true);
      var data := ReadSlice(buf, pos, size);
      pos := pos + |data|;
      r := Ok(data);
    }

    /** `readline()`. */
    method ReadLine() returns (r: Result<Str>)
      modifies this
      requires Valid()
      ensures Valid()
      ensures old(closed) ==> r == Err(ValueError) && unchanged(this)
      ensures !old(closed) ==>
                && OpenedFor(true) && !closed && buf == Content(true) && modified == old(modified)
                && r == Ok(RemoteBuffer.ReadLine(buf, old(pos))) && pos == old(pos) + |r.value|
    {
      if closed {
        return Err(ValueError);
      }
      InitStore(true);
      var line := RemoteBuffer.ReadLine(buf, pos);
      pos := pos + |line|;
      r := Ok(line);
    }

    /** `readlines()`: the lines from the cursor to the end. */
    method ReadLines() returns (r: Result<seq<Str>>)
      modifies this
      requires Valid()
      ensures Valid()
      ensures old(closed) ==> r == Err(ValueError) && unchanged(this)
      ensures !old(closed) ==>
                && OpenedFor(true) && !closed && buf == Content(true) && modified == old(modified)
                && r == Ok(Lines(ReadSlice(buf, old(pos), None))) && pos == old(pos) + |Flatten(r.value)|
    {
      if closed {
        return Err(ValueError);
      }
      InitStore(true);
      var lines := Lines(ReadSlice(buf, pos, None));
      pos := pos + |Flatten(lines)|;
      r := Ok(lines);
    }

    /** `seek(offset, whence)`: seeking past the end is allowed; a negative
        target is clamped to 0 by the in-memory store and refused with an
        `IOError` by a file. */
    method Seek(offset: int, whence: Whence) returns (r: Result<()>)
      modifies this
      requires Valid()
      ensures Valid()
      ensures old(closed) ==> r == Err(ValueError) && unchanged(this)
      ensures !old(closed) ==>
                && OpenedFor(true) && !closed && buf == Content(true) && modified == old(modified)
                && var target := offset + (match whence
                                           case SeekSet => 0
                                           case SeekCur => old(pos)
                                           case SeekEnd => |buf|);
                   && (target >= 0 ==> r == Ok(()) && pos == target)
                   && (target < 0 && store.Memory? ==> r == Ok(()) && pos == 0)
                   && (target < 0 && !store.Memory? ==> r == Err(IOError) && pos == old(pos))
    {
      if closed {
        return Err(ValueError);
      }
      InitStore(true);
      var base := match whence
        case SeekSet => 0
        case SeekCur => pos
        case SeekEnd => |buf|;
      var target := base + offset;
      if target >= 0 {
        pos := target;
        r := Ok(());
      } else if store.Memory? {
        pos := 0;
        r := Ok(());
      } else {
        r := Err(IOError);
      }
    }

    /** Where a write lands: the cursor, or the end of the file for a local
        file opened for appending. */
    function WritePos(s: Store, b: Str, p: nat): (at: nat)
      ensures at == p || at == |b|
      ensures s.LocalFile? && append ==> at == |b|
    {
      if s.LocalFile? && append then |b| else p
    }

    /** `write(data)`: overwrites at the cursor, extending the content, and
        marks the handle modified; an unopened remote handle that does not
        append starts from empty content without fetching. */
    method Write(data: Str) returns (r: Result<()>)
      modifies this
      requires Valid()
      ensures Valid()
      ensures old(closed) ==> r == Err(ValueError) && unchanged(this)
      ensures !old(closed) ==>
                && OpenedFor(false) && !closed && r == Ok(()) && modified
                && var at := WritePos(store, Content(false), old(pos));
                   buf == WriteAt(Content(false), at, data) && pos == at + |data|
    {
      if closed {
        return Err(ValueError);
      }
      InitStore(false);
      var at := WritePos(store, buf, pos);
      buf := WriteAt(buf, at, data);
      pos := at + |data|;
      modified := true;
      r := Ok(());
    }

    /** `__iter__(size)`. */
    method Iterate(cap: Option<nat>) returns (r: Result<seq<Str>>)
      modifies this
      requires Valid()
      ensures Valid()
      ensures old(closed) ==> r == Err(ValueError) && unchanged(this)
      ensures !old(closed) ==>
                && OpenedFor(true) && !closed && buf == Content(true) && modified == old(modified)
                && r == Ok(Chunks(ReadSlice(buf, old(pos), cap), bufsize))
                && pos == old(pos) + |Flatten(r.value)|
    {
      if closed {
        return Err(ValueError);
      }
      InitStore(true);
      var chunks;
      chunks, pos := IterateChunks(buf, pos, cap, bufsize);
      r := Ok(chunks);
    }

    /** `write_to(dest, size)`: copies from the cursor; a path that may
        not be written raises `ValueError` before the store is opened. */
    method WriteTo(dest: Dest, size: Option<nat>) returns (r: Result<Str>)
      modifies this
      requires Valid()
      ensures Valid()
      ensures old(closed) || (dest.FilePath? && !dest.writable) ==> r == Err(ValueError) && unchanged(this)
      ensures !old(closed) && !(dest.FilePath? && !dest.writable) ==>
                && OpenedFor(true) && !closed && buf == Content(true) && modified == old(modified)
                && r == Ok(ReadSlice(buf, old(pos), size)) && pos == old(pos) + |r.value|
    {
      if closed || (dest.FilePath? && !dest.writable) {
        return Err(ValueError);
      }
      r := Read(size);
    }

    /** `flush()`: a local handle puts its content on disk. */
    method Flush() returns (r: Result<()>)
      modifies this
      requires Valid()
      ensures Valid()
      ensures old(closed) ==> r == Err(ValueError) && unchanged(this)
      ensures !old(closed) ==> r == Ok(())
      ensures !old(closed) ==> disk == (if store.LocalFile? then Some(buf) else old(disk))
      ensures !old(closed) ==> store == old(store) && buf == old(buf) && pos == old(pos)
      ensures !old(closed) ==> modified == old(modified) && requests == old(requests)
      ensures !old(closed) ==> tmpExists == old(tmpExists) && closed == old(closed)
    {
      if closed {
        return Err(ValueError);
      }
      if store.LocalFile? {
        disk := Some(buf);
      }
      r := Ok(());
    }

    /** `write_back(force, **query)`: PUTs the whole content to the
        write-back path when the handle was modified since the last write
        back, or when forced, and then counts as unmodified; otherwise no
        request is made. */
    method WriteBack(force: bool, q: Params) returns (r: Result<()>)
      modifies this
      requires Valid()
      ensures Valid()
      ensures old(closed) ==> r == Err(ValueError) && unchanged(this)
      ensures !old(closed) && !old(modified) && !force ==> r == Ok(()) && unchanged(this)
      ensures !old(closed) && (old(modified) || force) ==>
                && r == Ok(()) && !closed && !modified
                && store == (if old(store).Unopened? then InitialStore(false) else old(store))
                && buf == Content(false) && pos == old(pos)
                && tmpExists == store.TempFile? && disk == old(disk)
                && requests == old(requests) + (if old(store).Unopened? && Fetches(false) then [Get(path, query)] else [])
                                             + [Put(wbPath, q, buf)]
    {
      if closed {
        return Err(ValueError);
      }
      if !modified && !force {
        return Ok(());
      }
      InitStore(false);
      requests := requests + [Put(wbPath, q, buf)];
      modified := false;
      r := Ok(());
    }

    /** `close(**query)`: one write back that is not forced, then the
        temporary file is removed and a local file keeps the content;
        closing a closed handle does nothing. */
    method Close(q: Params)
      modifies this
      requires Valid()
      ensures Valid() && closed && !tmpExists
      ensures old(closed) ==> unchanged(this)
      ensures !old(closed) ==>
                && requests == old(requests) + (if old(modified) then [Put(wbPath, q, old(buf))] else [])
                && buf == old(buf) && store == old(store) && !modified
                && disk == (if store.LocalFile? then Some(buf) else old(disk))
    {
      if closed {
        return;
      }
      var _ := WriteBack(false, q);
      if store.LocalFile? {
        disk := Some(buf);
      }
      tmpExists := false;
      closed := true;
    }
  }

  /** `RWLocalFile(path, wb_path, append)`: `ValueError` without a
      write-back path. */
  method OpenLocal(filePath: Str, existing: Option<Str>, wbPath: Option<Str>, bufsize: nat, append: bool)
    returns (r: Result<RWFile>)
    requires bufsize > 0
    ensures wbPath.None? <==> r.Err?
    ensures r.Err? ==> r.error == ValueError
    ensures r.Ok? ==> fresh(r.value) && r.value.Valid() && r.value.store.Unopened? && !r.value.closed
    ensures r.Ok? ==> r.value.wbPath == wbPath.value && r.value.origin == LocalOrigin(filePath, existing)
    ensures r.Ok? ==> r.value.append == append && r.value.requests == []
  {
    if wbPath.None? {
      return Err(ValueError);
    }
    var f := new RWFile.Local(filePath, existing, wbPath.value, bufsize, append);
    r := Ok(f);
  }
}
