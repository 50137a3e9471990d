# osc2 core, modelled in Dafny

This project models the sequential core of osc2, the Python 2 command-line
client and library for the Open Build Service (OBS), and proves properties of
that model. Eight parts are covered:

- **Remote file handles.** `RORemoteFile` is a read-only handle on a remote
  source file. `RWRemoteFile` and `RWLocalFile` are read-write handles with a
  byte buffer, a cursor, a modified flag, a memory or temporary-file store, a
  write-back path and a closed flag. Their behaviour is the one that
  `test/test_remote.py` pins down (modules `RemoteBuffer`, `Remote`,
  `RemoteScenarios`).
- **The build-dependency fetcher of `osc2/fetch.py`.** It covers the cache
  managers, the download URL builder, the mirror group, and
  `BuildDependencyFetcher` with its mirror pass and cpio pass (modules
  `FetchCache`, `FetchMirror`, `FetchSpec`, `Fetcher`).
- **The comment-thread flattening `_format_for_output`** (modules
  `CommentThread`, `CommentShape`).
- **The subcommand registry of `osc/cli/description.py`**, `help` and `Option`
  (module `Description`).
- **The CLI decorators and helpers of `osc2/cli/cli.py`**: `illegal_options`,
  `at_most`, `call` and `execute_alias` (module `Cli`).
- **URL construction and the PUT/POST checks of `osc/httprequest.py`**
  (module `HttpRequest`).
- **The comment routes of `osc2/comments.py`** (module `CommentRoutes`).
- **The `add` command of `osc2/cli/add/add.py`** (module `Add`).

`PyStr` holds the shared string model. A Python 2 `str` is a byte string
(`Str`, a sequence of characters below 256). The module also holds `split`,
`join`, `strip` and `splitlines`, with their lemmas.

The environment becomes inputs to the model:

- The HTTP transport is a log of requests. A request is the body of a
  response, or an opener predicate that says which mirror answers.
- The file system is a set of present paths.
- The cpio archives are a function from a group's request to its entries.
- `inspect.getargspec` becomes the parameter list and the number of defaults.

Where the source updates state in place, the model is a class:

- `CacheManager`, `CustomMirrorGroup`, `BuildDependencyFetcher`, `Registry`,
  `RORemoteFile` and `RWFile`.
- Each method's `ensures` ties the new state to a specification function of
  the old state.

Where the source loops, the model is a method with loop invariants, proved
against such a function:

- `_format_for_output`, `parse_illegal_options_doc`, `call`, `add`;
- `_calculate_bases` and `_append_subcommand`;
- `urlopen`, `fetch` and `_fetch_cpio`.

## Model

| member | source | states |
|---|---|---|
| RemoteBuffer.ReadSlice | test/test_remote.py:385-388 | `read(size)` at the cursor returns the bytes from the cursor on, at most `size` of them, and stops short of `size` only at the end of the buffer |
| RemoteBuffer.ReadThenRest | test/test_remote.py:385-388 | reading `n` bytes and then reading everything gives exactly the content from the cursor on |
| RemoteBuffer.WriteAt | test/test_remote.py:455-468 | a write at the cursor puts the data at the cursor and keeps every byte before and after it. The buffer grows to the end of the data, and a gap past the old end is NUL-filled |
| RemoteBuffer.WriteThenWrite | test/test_remote.py:455-458 | two consecutive writes equal one write of their concatenation |
| RemoteBuffer.OverwriteCovers | test/test_remote.py:464-468 | a write at the same cursor that is at least as long erases an earlier write completely |
| RemoteBuffer.ReadBack | test/test_remote.py:599-606 | reading back as many bytes as were written at a cursor returns the written data |
| RemoteBuffer.LineEnd | test/test_remote.py:446-447 | the end of a line is just after the first newline from the cursor, or the end of the buffer |
| RemoteBuffer.ReadLine | test/test_remote.py:446-447 | `readline` returns the bytes from the cursor up to and including the next newline (the rest of the buffer when none), empty only at the end |
| RemoteBuffer.Lines | test/test_remote.py:444 | the lines concatenate to the content; every line but the last ends with a newline, and no line holds an inner newline |
| RemoteBuffer.LinesCount | test/test_remote.py:444 | `readlines` yields one entry per newline, plus one for an unterminated last line |
| RemoteBuffer.ReadLineIsFirstLine | test/test_remote.py:444-446 | `readline` returns the first entry that `readlines` would return from the same cursor |
| RemoteBuffer.Chunks | test/test_remote.py:397-402 | the iteration chunks concatenate to the data. Each is non-empty and at most `stream_bufsize` long, and every chunk but the last is exactly that long |
| RemoteBuffer.ChunksCount | test/test_remote.py:397-402 | no chunk for empty data, otherwise the number of chunks is the data length divided by `stream_bufsize`, rounded up |
| RemoteBuffer.ChunkStep | test/test_remote.py:554-561 | taking one chunk off a capped read leaves exactly the capped read of the rest |
| Remote.GeneratedChunks | test/test_remote.py:554-561 | the chunks the iterator generates, chunk by chunk with a shrinking cap, are the chunks of the capped read |
| Remote.IterateChunks | test/test_remote.py:554-561 | the iteration loop returns the chunks of the capped read, and the cursor ends after the bytes returned |
| Remote.RORemoteFile.constructor | test/test_remote.py:385 | a fresh read-only handle has not fetched anything: cursor 0, no request |
| Remote.RORemoteFile.Fetch | test/test_remote.py:382-385 | the first use issues exactly one GET of the path with its query, and no later use issues another |
| Remote.RORemoteFile.Read | test/test_remote.py:385-388 | `read(size)` returns the slice of the body at the cursor and advances the cursor by its length |
| Remote.RORemoteFile.Iterate | test/test_remote.py:392-402 | iteration yields the chunks of the body from the cursor, capped at `size`, and advances the cursor past them |
| Remote.RORemoteFile.WriteTo | test/test_remote.py:404-420 | `write_to` copies `size` bytes (or the rest) from the cursor and advances it. A destination path that may not be written raises `ValueError` and changes nothing |
| Remote.StoreFor | test/test_remote.py:483-515 | the store is a temporary file iff `use_tmp` is set or the Content-Length is above `tmp_size`, otherwise memory |
| Remote.RWFile.Remote | test/test_remote.py:580-581 | a fresh remote read-write handle: no store yet, no request; the write-back path defaults to the path |
| Remote.RWFile.Local | test/test_remote.py:621-622 | a fresh local handle: no store yet, the file's content (or empty) on disk, no request |
| Remote.RWFile.InitStore | test/test_remote.py:470-493 | the store is opened once. A GET is issued only when the content is needed or the handle appends, the storage follows `StoreFor`, and the temporary file exists while it is the store |
| Remote.RWFile.Read | test/test_remote.py:438-448 | on an open handle, `read(size)` returns the slice at the cursor and advances the cursor; on a closed one, `ValueError` and nothing changes |
| Remote.RWFile.ReadLine | test/test_remote.py:445-447 | `readline` returns `ReadLine` of the content at the cursor and advances the cursor past it |
| Remote.RWFile.ReadLines | test/test_remote.py:443-444 | `readlines` returns the lines of the content from the cursor and moves the cursor to the end |
| Remote.RWFile.Seek | test/test_remote.py:439-445 | `seek` sets the cursor relative to the start, the cursor or the end. A negative target clamps to 0 in memory and raises `IOError` on a file |
| Remote.RWFile.WritePos | test/test_remote.py:617-628 | a local handle opened with `append=True` writes at the end; any other handle writes at the cursor |
| Remote.RWFile.Write | test/test_remote.py:455-468 | a write overwrites at the write position, extends the buffer, advances the cursor and marks the handle modified |
| Remote.RWFile.Iterate | test/test_remote.py:558-561 | iteration yields the chunks of the content from the cursor, capped at `size` |
| Remote.RWFile.WriteTo | test/test_remote.py:564-572 | `write_to(sink, size)` copies the slice at the cursor and advances the cursor |
| Remote.RWFile.Flush | test/test_remote.py:600-604 | `flush` writes a local handle's buffer to its file and changes nothing else |
| Remote.RWFile.WriteBack | test/test_remote.py:578-591 | a modified or forced write-back PUTs the whole content to the write-back path with the given query and clears the modified flag; otherwise nothing happens |
| Remote.RWFile.Close | test/test_remote.py:453-468 | `close` PUTs the buffer only when modified, removes the temporary file and closes the handle; closing twice does nothing |
| Remote.OpenLocal | test/test_remote.py:610-613 | `RWLocalFile` without a write-back path raises `ValueError`; with one, it is a fresh unopened handle |
| RemoteScenarios.ReadThenRest | test/test_remote.py:382-388 | `read(k)` then `read()` return the first `k` bytes and then exactly the rest, after one GET |
| RemoteScenarios.WriteToThenRest | test/test_remote.py:404-413 | `write_to(sink, k)` then `write_to(sink)` copy the first `k` bytes and then exactly the rest |
| RemoteScenarios.WriteToRefused | test/test_remote.py:415-420 | `write_to` a path that may not be written raises `ValueError` without a request |
| RemoteScenarios.IterateBody | test/test_remote.py:549-557 | the chunks of an iteration concatenate to the (capped) body; each is at most `stream_bufsize` long and only the last may be shorter |
| RemoteScenarios.SeekRead | test/test_remote.py:436-442 | `seek(k)` then `read(m)` returns the `m` bytes at `k`, after one GET with the handle's query |
| RemoteScenarios.ReadLinesThenLine | test/test_remote.py:443-446 | after seeking back, `readline` returns the first entry of `readlines` |
| RemoteScenarios.WriteWriteClose | test/test_remote.py:451-458 | two writes to a fresh handle and `close` issue exactly one PUT of both writes, and no GET |
| RemoteScenarios.WriteBacks | test/test_remote.py:574-591 | write, seek, longer write, `write_back(**q)`, `write_back()`, `write_back(force=True)` and `close` issue exactly two PUTs of the second write: the first with `q`, the forced one without a query |
| RemoteScenarios.AppendAfterLine | test/test_remote.py:470-484 | with `append=True`, `readline` and two writes then `close`: one GET, then one PUT of the body overwritten after the first line |
| RemoteScenarios.ReadWriteWriteTo | test/test_remote.py:563-572 | `read(3)`, a write, then `write_to(sink, 7)` copies the 7 bytes after the write |
| RemoteScenarios.StorageBySize | test/test_remote.py:486-504 | the temporary file is used iff the Content-Length exceeds `tmp_size`; it exists while open and not after `close` |
| RemoteScenarios.WriteToTempFile | test/test_remote.py:506-515 | with `use_tmp=True` the first write opens a temporary file that `close` removes, after one PUT of the data |
| RemoteScenarios.LocalWithoutWriteBackPath | test/test_remote.py:610-613 | a local handle without a write-back path raises `ValueError` |
| RemoteScenarios.LocalWriteFlushRead | test/test_remote.py:593-608 | a write and `flush` put the data on disk; `seek(0)` and `read` return it, and `write_back(**q)` PUTs it once |
| RemoteScenarios.LocalAppend | test/test_remote.py:615-629 | an appending local handle writes after the existing content, and the write-back PUTs the whole file |
| RemoteScenarios.LocalForcedWriteBack | test/test_remote.py:631-639 | a forced write-back straight after opening PUTs the existing content, and `close` issues nothing more |
| FetchCache.PathJoin | osc2/fetch.py:97 | `os.path.join` of two parts: an absolute second part replaces the first, otherwise the result ends with the second part |
| FetchCache.CalculateFilename | osc2/fetch.py:180-184 | a preferred name gives its preferred file; otherwise the path ends with the dependency's file name |
| FetchCache.FilenameLayout | osc2/fetch.py:97-99 | without a preference and with plain components the path is `root/project/repository/arch/filename` |
| FetchCache.PreferredShareFile | osc2/fetch.py:180-182 | dependencies with the same preferred name share one file, whatever their project, version or architecture |
| FetchCache.CacheManager.constructor | osc2/fetch.py:165-178 | a manager holds its root, its preferences and the present paths |
| FetchCache.CheckRoot | osc2/fetch.py:28-40 | the root check fails iff the root exists and is no directory or is not writable, with the matching `ValueError` message; a missing root is accepted |
| FetchCache.CacheManager.Open | osc2/fetch.py:28-40 | creating a manager raises the `no dir` or `not writable` `ValueError` for a bad existing root, and otherwise gives a fresh manager over the root with the given preferences and files |
| FetchCache.CacheManager.FilenameOf | osc2/fetch.py:101-122 | `filename` returns the path of a cached dependency and raises `ValueError` with the "does not exist" message otherwise |
| FetchCache.CacheManager.Remove | osc2/fetch.py:186-191 | `remove` of a preferred name only drops the preference. Otherwise it deletes the file, and raises `ValueError` when the dependency is absent |
| FetchCache.CacheManager.Write | osc2/fetch.py:143-151 | `write` raises `ValueError` with the "already exists" message when the dependency is cached; otherwise it adds its path. Afterwards the dependency is cached either way |
| FetchCache.WriteThenRemove | osc2/fetch.py:119-151 | writing an absent dependency, asking its file name and removing it all succeed and leave the cache as it was |
| FetchCache.RemovePreferred | osc2/fetch.py:186-190 | removing by a preferred name keeps every file; the name then resolves to the dependency's own path |
| FetchCache.WriteTwice | osc2/fetch.py:143-146 | a second write of the same dependency raises `ValueError` and adds nothing |
| FetchMirror.UrlPath | osc2/fetch.py:205 | the path that `urlparse` extracts holds no `?` and no `#` |
| FetchMirror.UrlPathOf | osc2/fetch.py:205 | the path extracted from `scheme://netloc/path?query` is `/path` |
| FetchMirror.DownloadUrlBuilder | osc2/fetch.py:203-212 | all three components are present iff the build info has a `downloadurl`. Otherwise they are `(None, None, None)`; the query is empty and the path is built from the URL's path |
| FetchMirror.RemoveAllOnlyAtEnd | osc2/fetch.py:207 | `replace(path, '')` gives back the host part when the path occurs only at the end of the URL |
| FetchMirror.DownloadUrlLayout | osc2/fetch.py:203-212 | for a `downloadurl` of `host` + `path`, the builder returns `host` and `path/project(with ':/')/repository/arch/filename` with an empty query |
| FetchMirror.DownloadUrlTrailingSlash | osc2/fetch.py:207 | when the URL's path is `/`, `replace` removes every slash, so the host becomes `scheme:netloc` |
| FetchMirror.MirrorPool | osc2/fetch.py:457-461 | the mirror pool has at most one mirror per URL builder |
| FetchMirror.DownloadMirrorLast | osc2/fetch.py:457-461 | with a `downloadurl`, the download mirror is the last mirror of the pool |
| FetchMirror.NoDownloadMirror | osc2/fetch.py:203-204 | without a `downloadurl` the download builder adds no mirror |
| FetchMirror.Kw | osc2/fetch.py:256-257 | the opener's arguments hold the caller's keys and the mirror's query, and the query's values win |
| FetchMirror.FirstOpened | osc2/fetch.py:255-263 | the mirror that opens is the first one in pool order that the opener accepts; none opens only when every mirror fails |
| FetchMirror.CustomMirrorGroup.constructor | osc2/fetch.py:227-239 | a fresh mirror group holds its pool and no used URL |
| FetchMirror.CustomMirrorGroup.Urlopen | osc2/fetch.py:255-263 | `urlopen` returns the first mirror that opens, with the merged arguments, or `None`. The URL of each mirror tried, up to and including that one, is appended to `used_mirror_urls` |
| FetchMirror.AllMirrorsFail | osc2/fetch.py:255-263 | when every mirror fails, `urlopen` returns `None` and leaves exactly one URL per pool entry, in order |
| FetchSpec.CpioKeySplit | osc2/fetch.py:420-422 | the cpio key `project/repository/(repoarch or arch)/(package or _repository)` splits back into its four parts |
| FetchSpec.Enqueue | osc2/fetch.py:423 | `setdefault(key, []).append(bdep)` appends to the key's group and leaves every other group alone |
| FetchSpec.QueuedGroups | osc2/fetch.py:555-562 | queueing a sequence of dependencies appends to each group exactly those with its key, in order |
| FetchSpec.QueuedKeys | osc2/fetch.py:423 | a key is queued iff it was before or some queued dependency has it |
| FetchSpec.Present | osc2/fetch.py:432-438 | the available dependencies are all cached |
| FetchSpec.Absent | osc2/fetch.py:432-438 | the missing dependencies are all uncached |
| FetchSpec.PartitionPermutes | osc2/fetch.py:432-438 | available and missing together are a permutation of the build dependencies |
| FetchSpec.FindFetchResult | osc2/fetch.py:446-449 | `find_fetch_result` is `None` iff no result is for the dependency; otherwise the result is for it |
| FetchSpec.FindFetchResultFirst | osc2/fetch.py:446-449 | the result found is one of the recorded results |
| FetchSpec.FindAfterAppend | osc2/fetch.py:446-449 | appending results does not change a result already found: the first one wins |
| FetchSpec.FindAppended | osc2/fetch.py:446-449 | a result appended for a dependency without one is then the one found |
| FetchSpec.MirrorFetch | osc2/fetch.py:457-478 | the result of `_fetch` is for the dependency, and `available` and `mirror_match` hold iff a mirror opened. The used URLs are those of the mirrors tried, and the cache is written exactly when a mirror opened; a write of a cached dependency raises |
| FetchSpec.QueueMissing | osc2/fetch.py:555-562 | the mirror pass only appends to the recorded results |
| FetchSpec.QueueWithoutMirrors | osc2/fetch.py:561-562 | without mirrors every missing dependency is queued for cpio, in order, and no result is recorded |
| FetchSpec.QueueResults | osc2/fetch.py:555-558 | with mirrors, every missing dependency gets exactly one appended result, in order |
| FetchSpec.QueueTodo | osc2/fetch.py:555-560 | with mirrors, exactly the dependencies no mirror had are queued for cpio, in order |
| FetchSpec.EntryName | osc2/fetch.py:503-509 | the cpio entry name is `name.binarytype` in the `_repository` package, else the file name |
| FetchSpec.Binaries | osc2/fetch.py:502-508 | the requested binaries are the names (or file names) of the group's dependencies, in order |
| FetchSpec.EntryMapLookup | osc2/fetch.py:500-509 | an entry name maps to a dependency iff one of the group has that entry name, and the last such dependency wins |
| FetchSpec.ArchiveWrite | osc2/fetch.py:512-517 | writing an archive only adds files to the cache |
| FetchSpec.ArchiveWriteCaches | osc2/fetch.py:512-517 | after a complete write, every entry other than `.errors` names a dependency of the group, and that dependency is cached |
| FetchSpec.ArchiveWriteErrors | osc2/fetch.py:513-515 | a complete write appends the stripped text of every `.errors` entry, each after a newline |
| FetchSpec.Record | osc2/fetch.py:519-531 | the check of a group only appends results |
| FetchSpec.RecordMissing | osc2/fetch.py:519-531 | the missing results of a group are those of its uncached dependencies, in order |
| FetchSpec.RecordCovers | osc2/fetch.py:519-527 | after the check every dependency of the group has a result |
| FetchSpec.GroupStep | osc2/fetch.py:496-531 | one group only adds files and appends results; a failing group reports nothing missing |
| FetchSpec.GroupStepMissing | osc2/fetch.py:496-531 | a completed group's missing results are those of its dependencies still uncached after the archive was written |
| FetchSpec.Run | osc2/fetch.py:495-533 | the loop over the keys visits at most one group per key, in key order |
| FetchSpec.RunVisitsAll | osc2/fetch.py:495-533 | with `defer_error`, or when nothing is missing, every key is visited |
| FetchSpec.RunStopsEarly | osc2/fetch.py:532-533 | without `defer_error` the loop stops after the first group with missing dependencies |
| FetchSpec.RunMissing | osc2/fetch.py:519-535 | nothing is missing at the end iff no group visited left a dependency missing |
| FetchSpec.CpioOutcome | osc2/fetch.py:534-535 | `BuildDependencyFetchError` with the missing results is raised iff any are missing |
| FetchSpec.SortedKeys | osc2/fetch.py:495 | the keys are visited in strictly ascending order, each key once |
| FetchSpec.SortedUnique | osc2/fetch.py:495 | there is only one strictly sorted sequence of a set of keys |
| Fetcher.Insert | osc2/fetch.py:495 | inserting a key into a sorted sequence keeps it sorted and adds exactly that key |
| Fetcher.SortKeys | osc2/fetch.py:495 | `sorted(keys)` returns the sorted sequence of the key set |
| Fetcher.BuildDependencyFetcher.constructor | osc2/fetch.py:390-411 | a fresh fetcher has the caller's URL builders followed by the download URL builder, no results and an empty cpio queue |
| Fetcher.BuildDependencyFetcher.AppendCpio | osc2/fetch.py:420-423 | `_append_cpio` queues the dependency under its cpio key |
| Fetcher.BuildDependencyFetcher.CalculateFetchinfo | osc2/fetch.py:432-438 | `_calculate_fetchinfo` returns the cached dependencies as available and the others as missing, both in order |
| Fetcher.BuildDependencyFetcher.FindFetchResult | osc2/fetch.py:446-449 | the loop returns the first result for the dependency, or `None` |
| Fetcher.BuildDependencyFetcher.MirrorPoolOf | osc2/fetch.py:457-461 | the pool is the complete results of the URL builders, in builder order |
| Fetcher.BuildDependencyFetcher.FetchOne | osc2/fetch.py:457-478 | `_fetch` returns the result of `MirrorFetch` and changes the cache as it says |
| Fetcher.BuildDependencyFetcher.BinaryRequest | osc2/fetch.py:498-509 | the request loop builds the binary list and the entry-name map of the group |
| Fetcher.BuildDependencyFetcher.WriteArchive | osc2/fetch.py:512-517 | the archive loop writes the entries as `ArchiveWrite` says and accumulates the `.errors` text |
| Fetcher.BuildDependencyFetcher.CheckGroup | osc2/fetch.py:519-531 | the check loop records a result for each dependency without one and returns the missing results |
| Fetcher.BuildDependencyFetcher.FetchGroup | osc2/fetch.py:496-531 | one group of `_fetch_cpio` changes the cache and the results as `GroupStep` says |
| Fetcher.BuildDependencyFetcher.FetchCpio | osc2/fetch.py:493-535 | `_fetch_cpio` runs the groups in sorted key order and returns the outcome of `Run` |
| Fetcher.BuildDependencyFetcher.Fetch | osc2/fetch.py:553-563 | `fetch` partitions the dependencies and runs the mirror pass over the missing ones. It then runs the cpio pass over the queue it built, unless a cache write raised first |
| Fetcher.FetchAllCached | osc2/fetch.py:553-563 | when every dependency is cached, `fetch` succeeds, writes nothing and records no result |
| CommentThread.SelectSound | osc2/cli/comment/comment.py:190-191 | the comments selected by parent are those with that parent, in document order |
| CommentThread.SelectComplete | osc2/cli/comment/comment.py:190-191 | every comment with that parent is selected |
| CommentThread.ChildrenReplies | osc2/cli/comment/comment.py:189-191 | the children of a comment are exactly its replies, in document order |
| CommentThread.Put | osc2/cli/comment/comment.py:192-196 | storing an entry under a new id appends it; under an existing id it replaces that entry in place |
| CommentThread.PendingPop | osc2/cli/comment/comment.py:187-198 | popping the front of the worklist emits its entry and puts its replies, reversed and one level deeper, in front of the rest |
| CommentThread.Step | osc2/cli/comment/comment.py:187-198 | one turn of the loop keeps the invariant: the output followed by the pending entries is the thread, every output id is new, and the pending entries shrink |
| CommentThread.Start | osc2/cli/comment/comment.py:186 | the loop starts with the top-level comments at level 0 |
| CommentThread.PushReplies | osc2/cli/comment/comment.py:197-198 | splicing each child at the front puts the children in reverse order, one level deeper, before the rest |
| CommentThread.FormatForOutput | osc2/cli/comment/comment.py:182-199 | `_format_for_output` returns the preorder thread of the comments, with distinct ids |
| CommentShape.ThreadShape | osc2/cli/comment/comment.py:186-198 | every entry shows its comment's id, who, when and comment. Top-level entries are at level 0, and a reply comes after its parent, one level deeper |
| CommentShape.ThreadReaches | osc2/cli/comment/comment.py:186-191 | every entry's parent chain reaches a top-level comment in as many steps as its level, so a comment whose chain does not never appears |
| CommentShape.SiblingOrder | osc2/cli/comment/comment.py:197-198 | the replies of a comment appear in reverse document order |
| CommentShape.RootOrder | osc2/cli/comment/comment.py:186 | the level-0 entries are the top-level comments in document order |
| Description.CountSubs | osc/cli/description.py:73-74 | the number of `filter_cls` subclasses among the bases is at most the number of bases |
| Description.BasesPartition | osc/cli/description.py:81-87 | real bases and parent commands are a permutation of the bases; with `extends_cmd` all are real bases |
| Description.BasesKinds | osc/cli/description.py:81-87 | a real base is named like `filter_cls`, or is no subclass of it, or the class extends; a parent command is a subclass not named like it |
| Description.CalculateBases | osc/cli/description.py:71-88 | `ValueError` iff the number of subclasses is not 1 and `filter_cls` is not a base. `extends_cmd` iff exactly one subclass and not `filter_cls`; the split is order-preserving |
| Description.IndexOfName | osc/cli/description.py:100-102 | `names.index(name)` finds the first class with that name, or none |
| Description.ReplaceFirstSpec | osc/cli/description.py:99-104 | the specialized class takes the index of the first same-named class; the length and every other entry are unchanged |
| Description.AddIfAbsentIdempotent | osc/cli/description.py:118-120 | appending if absent is idempotent, leaves the name present, and appends to a list without it |
| Description.AppendIdempotent | osc/cli/description.py:116-120 | appending a subcommand twice is the same as once |
| Description.AppendedHoldsDescr | osc/cli/description.py:116-120 | afterwards every parent has a list holding a class with the description's name |
| Description.Registry.constructor | osc/cli/description.py:116-118 | the registry of subcommands starts empty |
| Description.Registry.ReplaceWithSpecialized | osc/cli/description.py:98-104 | `_replace_with_specialized` replaces in every list as `ReplaceFirst` says |
| Description.Registry.AppendSubcommand | osc/cli/description.py:116-120 | `_append_subcommand` appends to each parent's list as `AppendedRegistry` says |
| Description.Registry.Define | osc/cli/description.py:40-51 | defining a description raises `ValueError` as `_calculate_bases` says. A class that extends replaces its base; otherwise it is appended under each parent command |
| Description.Help | osc/cli/description.py:186-208 | `help` is `help_str` when set. Otherwise it is `None` iff there is no docstring or the dedented one is empty, and it holds no line break |
| Description.HelpIsFirstLine | osc/cli/description.py:205-207 | without `help_str`, `help` is the first line of the dedented docstring |
| Description.NewOption | osc/cli/description.py:228-237 | `-` is prefixed to a non-empty short name and `--` to the full name. `help` is stored, `metavar` defaults to `oargs`, and the other keyword arguments are kept |
| Description.OptionsOfNew | osc/cli/description.py:258-260 | `options()` is `(short, full)` when there is a short name, else `(full,)`, and every entry starts with `-` |
| Description.ParseInfo | osc/cli/description.py:245-249 | `parse_info` is `{}` without `oargs`, else a single key `opt_oargs_<name>` |
| Description.ParseInfoWords | osc/cli/description.py:247-249 | the parsed argument names are non-empty and free of whitespace, and joining them with spaces and splitting again gives them back |
| Cli.StripAll | osc2/cli/cli.py:111-114 | each docstring line is stripped |
| Cli.TakeNonEmpty | osc2/cli/cli.py:117-122 | the continuation lines are the non-empty lines up to the first empty one |
| Cli.SectionAbsent | osc2/cli/cli.py:110-124 | the section is empty iff no line starts with `illegal options:` |
| Cli.SectionAt | osc2/cli/cli.py:113-123 | the section is the first header line followed by the non-empty lines after it |
| Cli.ParseIllegalOptionsDoc | osc2/cli/cli.py:110-124 | the nested `pop(0)` loops return the section of the docstring joined with newlines |
| Cli.InterpolateOpt | osc2/cli/cli.py:130 | `msg % {'opt': opt}` puts the option in place of `%(opt)s` |
| Cli.PyEqReflexive | osc2/cli/cli.py:133 | the equality used on keyword values holds of every value with itself, lists included |
| Cli.PyEqSymmetric | osc2/cli/cli.py:133 | that equality is symmetric, lists included |
| Cli.PyEqBoolInt | osc2/cli/cli.py:133 | `True == 1` and `False == 0` in both orders and inside lists, while `True` differs from 2 and from the string "1" |
| Cli.KeywordComparedAsPython | osc2/cli/cli.py:133 | a keyword value `True` is legal when the info holds 1, and a keyword value 2 is illegal when it holds `True` |
| Cli.CheckIllegal | osc2/cli/cli.py:128-135 | raises iff a listed option is set in info or a keyword option differs under Python's `!=` (`PyEq`, so `True` matches 1). When a listed option is set, the error is the message for the first set option in `args` order. Otherwise it is the message for some differing keyword option |
| Cli.IllegalOptionsAsWritten | osc2/cli/cli.py:125-136 | with info, `f` is called once iff no option is illegal; without info, `f` is called at least once |
| Cli.IllegalOptions | osc2/cli/cli.py:125-136 | `f` is called at most once, and exactly when the call succeeds. Without info it is called as is; with info it raises iff a listed option is set or a keyword value differs under Python's `!=` |
| Cli.IllegalOptionsDiscrepancy | osc2/cli/cli.py:126-129 | both agree whenever info is present, and differ without info (see Findings) |
| Cli.CheckCounts | osc2/cli/cli.py:159-166 | raises iff a listed argument occurs more than `n` times, a non-list value counting once. The error is the message for the first such argument in `args` order |
| Cli.AtMost | osc2/cli/cli.py:153-167 | without info nothing is checked. With info, `at_most` raises iff a listed argument occurs more than `n` times, with the message for the first such argument |
| Cli.InterpolateNumbered | osc2/cli/cli.py:157-166 | `%(name)d` shows a number in decimal and is a `TypeError` for a string |
| Cli.DefaultCountText | osc2/cli/cli.py:157-166 | the default message reads `Expected <arg> at most <n> times` |
| Cli.CountMessageTypeError | osc2/cli/cli.py:157-166 | a custom message with `%(arg)d` raises `TypeError` instead of the `ValueError` |
| Cli.RemoveFirst | osc2/cli/cli.py:199 | `list.remove` drops one occurrence and keeps every other parameter |
| Cli.Inject | osc2/cli/cli.py:197-202 | `info` and `renderer` are bound directly and removed from the parameters to bind |
| Cli.BindParameters | osc2/cli/cli.py:203-212 | binding fails iff a required parameter other than `self`/`cls` is missing from info. The error names the first such parameter in order. Otherwise every parameter is bound to its info value |
| Cli.Call | osc2/cli/cli.py:192-213 | `call` succeeds iff every required parameter is in info, and otherwise names the first missing one. The bound keys are the injected ones plus the remaining parameters other than `self`/`cls` |
| Cli.WordsOfItems | osc2/cli/cli.py:235-238 | splitting the space-joined list arguments gives the words of each item, in order |
| Cli.AliasTokensSplit | osc2/cli/cli.py:235-238 | the alias tokens are the words of the command followed by the words of the arguments |
| Cli.AliasTokensOfWords | osc2/cli/cli.py:235-238 | with a one-word command and one-word items the tokens are the command followed by the items |
| HttpRequest.QuotePlus | osc/httprequest.py:172-174 | `quote_plus` output holds only unreserved bytes, `+` and `%XX` escapes |
| HttpRequest.QuotePlusRoundTrip | osc/httprequest.py:172-174 | unquoting a quoted string gives it back |
| HttpRequest.QuotePlusSafe | osc/httprequest.py:172 | a string of unreserved bytes is quoted as itself |
| HttpRequest.NonEmpty | osc/httprequest.py:175 | only pairs with a non-empty value are kept |
| HttpRequest.QueryStringRoundTrip | osc/httprequest.py:173-175 | parsing the query string gives back exactly the pairs with a non-empty value, in order |
| HttpRequest.QuotedPathSegments | osc/httprequest.py:172 | the path is quoted segment by segment: same separators, same number of segments, and each segment unquotes to the original |
| HttpRequest.UnsplitWithHost | osc/httprequest.py:176-178 | the URL starts with the API URL's scheme and host and holds no fragment |
| HttpRequest.BuildRequestShape | osc/httprequest.py:171-181 | a request URL keeps the scheme and host of `apiurl` and has no fragment |
| HttpRequest.CheckPutPostArgs | osc/httprequest.py:245-249 | `ValueError` iff a filename is given together with data, or a filename that is not an existing file |
| HttpRequest.SendCarriesContent | osc/httprequest.py:214-243 | PUT/POST fail exactly on bad arguments, a missing urlencoded body or the mapping of an empty file (a `ValueError`), and the request is the built one. A file's content is sent (quoted when urlencoded); mmap is used iff enabled, large enough and not urlencoded |
| CommentRoutes.GetPath | osc2/comments.py:22-25 | the path is `comments/` followed by the arguments joined with `/` |
| CommentRoutes.HandlePaths | osc2/comments.py:52-67 | the three handles have the paths `comments/package/P/K`, `comments/project/P` and `comments/request/N`, which split back into their parts |
| CommentRoutes.SetItem | osc2/comments.py:36-37 | setting a keyword adds the pair and keeps every other keyword |
| CommentRoutes.ListIgnoresPositional | osc2/comments.py:27-30 | the request of `list` does not depend on its two positional arguments and carries no body |
| CommentRoutes.ListPackageUrl | test/test_comments.py:38-44 | listing the comments of package `<package>` in project `a:b` issues a GET of `http://localhost/comments/package/a%3Ab/<package>` |
| CommentRoutes.ListProjectUrl | test/test_comments.py:49-55 | listing the comments of project `a:b` issues a GET of `http://localhost/comments/project/a%3Ab` |
| CommentRoutes.ListRequestUrl | test/test_comments.py:60-65 | listing the comments of a request issues a GET of `http://localhost/comments/request/<id>` |
| CommentRoutes.CreateQuery | osc2/comments.py:34-39 | `create` POSTs the comment to the handle's path; `parent_id` is in the query iff a parent is given, and the other keywords are kept |
| CommentRoutes.DeleteIgnoresHandle | osc2/comments.py:43-47 | `delete` targets `comment/<id>` whatever the handle |
| CommentRoutes.PackageCommentUrl | test/test_comments.py:17-22 | `create` without a parent on a package handle of project `a:b` issues a POST of `http://localhost/comments/package/a%3Ab/<package>` |
| CommentRoutes.ProjectCommentUrl | test/test_comments.py:24-29 | `create` without a parent on a project handle of `a:b` issues a POST of `http://localhost/comments/project/a%3Ab` |
| CommentRoutes.RequestCommentUrl | test/test_comments.py:31-36 | `create` without a parent on a request handle issues a POST of `http://localhost/comments/request/<id>` |
| Add.AddFiles | osc2/cli/add/add.py:28-38 | `add_files` raises `ValueError` iff `package_only` is set or no filename is given. Otherwise each filename is added in order, and nothing is added on error |
| Add.PathOutcomeSpec | osc2/cli/add/add.py:13-25 | one path fails iff it has neither package nor filename, or it has a package object and `package_only` is set or its filename is empty. A package object adds the file, else a project object adds the package with `no_files=package_only`, else nothing |
| Add.FirstFailure | osc2/cli/add/add.py:12-16 | the first failing path is the first whose outcome is an error |
| Add.AddPath | osc2/cli/add/add.py:13-25 | one turn of `add` does what `PathOutcome` says |
| Add.AddPaths | osc2/cli/add/add.py:8-25 | `add` processes the paths in order (a single path as a one-element list). It performs the actions of every path before the first failing one, and fails with that path's error iff there is one |

## Left out

- `osc/remote.py` is not part of this model. The handles model the behaviour
  that `test/test_remote.py` exercises.
- The handles' store is opened lazily on first use, as the tests show: a
  write-only remote handle issues no GET. A negative seek clamps to 0 for an
  in-memory store (as `StringIO` does) and raises `IOError` for a file.
- The temporary-file threshold is a strict `>`, which the tests cannot tell
  apart from `>=`.
- The mtime and file mode of `write_to` are not modelled (file-system
  attributes).
- HTTP transport, urllib2 openers, authentication, cookies, response
  validation and non-2xx responses are not modelled. Requests are a log, and a
  mirror either opens or does not.
- `FetchNotifier` callbacks (`pre`, `pre_fetch`, `post_fetch`, `post`) are
  not modelled. They are listener notifications with no effect on the
  fetcher's state.
- File-system effects of the cache are not modelled: `makedirs`,
  `copy_file`, and the pruning of empty directories in `remove`. The cache is
  the set of present paths.
- FetchCache.CacheManager.constructor requires an absolute root. The
  `os.path.join(self, root, ...)` of `_calculate_filename` starts afresh at an
  absolute root and fails for a relative one. The constructor is the manager
  after a successful root check. `FetchCache.CacheManager.Open` models the
  check of osc2/fetch.py:36-40, with the root's state on disk as an input.
- Iteration over a remote or local file (`__iter__`) is modelled as fully
  consumed: `Remote.RORemoteFile.Iterate` and `Remote.RWFile.Iterate` return
  every chunk at once and move the cursor past all of them. The cursor of a
  generator that the caller stops partway is not captured.
- The mutation of the caller's `url_builder` list by
  `BuildDependencyFetcher.__init__` is not modelled (no aliasing of lists).
- Fetcher.BuildDependencyFetcher.Fetch: a `ValueError` raised by a cache write
  is returned as a failure outcome rather than propagated as an exception.
- `urlparse` is modelled for URLs of the form `scheme://netloc/path?query`.
  Parameters (`;`) and fragments of a `downloadurl` are not modelled.
- XML (lxml, XPath, `fromstring`, schemas) is not modelled. Comments are
  records with an id, a parent, who, when and text.
- CommentThread.FormatForOutput requires unique comment ids. With duplicate
  ids the source's worklist can grow without end.
- CommentShape.ThreadReaches: a comment whose parent chain reaches a
  top-level comment is not proved to appear (only the converse is).
- `DeleteComment()` takes no arguments but calls `Comments.__init__` without
  path parts. Only `delete`, which ignores the path, is modelled.
- Class creation by the metaclass, argparse wiring and `inspect` are not
  modelled. A class is its name and whether it subclasses `CommandDescription`,
  and `call` takes the parameter list and the number of defaults as inputs.
- Description.Registry.Define: the metaclass's early return for the class
  named `CommandDescription` itself and its `ValueError` when `filter_cls`
  is None (osc/cli/description.py:36-41) are not modelled; `Define` models
  the creation of a subclass with `filter_cls` set.
- Cli.InterpolateOpt: `%`-formatting is modelled only for `%%`, `%(name)s`
  and `%(name)d`, with string and non-negative integer values.
- Cli.CheckIllegal: the keyword options are checked in the order given,
  while `kwargs.iteritems()` walks a Python 2 dict in hash order. The
  contract therefore names only some differing keyword option, not the first.
- Cli.PyEq: option values are None, bools, ints, strings and lists, so
  Python's `==` is modelled on those only (floats, tuples and dicts are not
  values of the model).
- Add.PathOutcomeSpec: `add_package` reads the attribute `info.package_only`,
  which raises `AttributeError` on an info object without it. The model (and
  Add.AddPaths) reads it as `info.get('package_only')`, taking info to carry
  the option that the `add` command declares.
- Configuration loading, `main`, logging, the interactive comment shell and
  the jinja2 renderer are not modelled (outside the core).

## Findings

| source | as written | input that shows it | evidently intended | confidence | as-written member | corrected member |
|---|---|---|---|---|---|---|
| osc2/cli/cli.py:126-129 | when `info` is `None`, the checker calls `f` and then goes on to `info.get(opt)` | `illegal_options('package_only')` with no info: `f` runs, then `AttributeError` is raised. With no listed option, `f` runs twice | call `f` once and return its result when there is no info | not executed | Cli.IllegalOptionsAsWritten (shown by Cli.IllegalOptionsDiscrepancy) | Cli.IllegalOptions |
