# spreadflow-observer-fs: a Dafny model of the delta core

spreadflow-observer-fs watches a directory tree and reports its matching
files as a stream of delta records. The model covers two parts of the
program.

- **Repository and MessageFactory** (`protocol.dfy`, module `Protocol`).
  - The repository keeps a set of `(path, oid)` pairs. `replace` reports
    the set differences against a new state. `update` first masks the
    deleted paths and the re-inserted paths, then adds the new pairs.
  - The factory builds one record per inserted path: the caller's
    metadata merged with `{'path': p}`. It derives an oid from each record.
  - It reconciles the batch with the repository and cuts the delta into
    records of at most `CHUNK_SIZE = 8` oids. Each record carries
    `deletes`, `inserts` and a `data` map from oid to metadata.
- **Event handling and the `run` helpers** (`script.py`, module `Script`).
  - The handler appends event paths to two buffers and flushes them as one
    `(deletes, inserts)` item onto a queue.
  - Other helpers build the glob pattern from the query and run the initial
    directory scan.
  - The stat filter keeps the insertable paths whose `os.stat` succeeds,
    together with their stat records. One queued item is then handed to
    `MessageFactory.update`.

`common.dfy` (module `Common`) holds Python's two-argument `zip`, `min`,
list flattening and the subsequence relation.

These are modelled as values:
- a metadata dict is a `map<string, Value>`;
- a record is the `Message` datatype, which is the `item` of a wire message
  without its type tag and date.

These are modelled as objects whose methods change state:
- `Repository` (field `repo`);
- `MessageFactory`, which owns that repository;
- the queue (`ChangesQueue.items`);
- `EventHandler` (buffers `inserts` and `deletes`).

The oid function `sha1(repr(meta))` is an uninterpreted function
`oidOf: Meta -> Oid`. A SHA-1 hex digest is always 40 characters long, so
the program's hash cannot be injective on all records. The model therefore
assumes only that the records of one batch get distinct oids
(`InjectiveOn(oidOf, records)`). This stands for the collision-freedom of
SHA-1. It is stated as a hypothesis in these places:
- the guarantee that an inserted oid's record names its own path
  (`InsertedRecordsCarryPath`, `MessageFactory.Replace`, `MessageFactory.Update`);
- the lemmas behind that guarantee (`InsertedRecordsNamePaths` and its
  per-pair step `OidNamesPath`);
- the two-record batch of a rename (`RenameEmitsOneRecord`).

`match_path`/`filter_paths` are an uninterpreted predicate `matchPath`.
`os.stat` and `os.walk` are oracles passed in as values:
- `stat: Path -> Option<seq<int>>`, where `None` stands for `OSError`;
- a sequence of `(root, files)` pairs.

The order of iterating a Python set (`tuple(deleted_objects)`) is the
method `Freeze`. It returns some sequence that lists every element once.
Every statement about the emitted records holds for any such order.

Four behaviours of the code shape the model.
- **Each event is flushed on its own.** Every `on_*` handler calls `flush`
  before it returns (script.py:39-52). So a file created and then deleted
  queues two items, an insert and then a delete
  (`Script.CreateThenDeleteQueuesTwo`).
- **Every inserted path is stat'ed.** `run` stats every insertable path of
  every queued item, including the destination of a move
  (script.py:140-147).
- **The initial scan queues one item per directory.** Each directory of
  `os.walk` that has matching files queues one insert-only item
  (script.py:126-130).
- **A failed stat drops the path silently.** `OSError` skips the path and
  nothing is logged (script.py:146-147).

## Model

| member | source | states |
|---|---|---|
| Common.Zip | spreadflow_observer_fs/protocol.py:94 | the pairs are index-wise and as long as the shorter argument |
| Protocol.Delta | spreadflow_observer_fs/protocol.py:16-21 | what is deleted was in the old state and is not in the new one; what is inserted is in the new state and was not in the old one; dropping the deleted pairs and adding the inserted ones yields the new state; an unchanged state gives an empty delta |
| Protocol.DeltaIsMinimal | spreadflow_observer_fs/protocol.py:16-21 | any deleted/inserted pair that takes the old state to the new one, with deleted pairs taken from the old state and inserted pairs new, is exactly the reported delta |
| Protocol.Repository.constructor | spreadflow_observer_fs/protocol.py:12-13 | the repository starts empty |
| Protocol.Repository.Replace | spreadflow_observer_fs/protocol.py:16-21 | returns the delta between the old state and the argument, and the state becomes the argument |
| Protocol.MaskedPaths | spreadflow_observer_fs/protocol.py:25 | a path is masked exactly when it is deleted or is the path of some insert pair |
| Protocol.Updated | spreadflow_observer_fs/protocol.py:24-26 | every insert pair is in the new state; a kept old pair is never at a deleted or re-inserted path; an old pair at an untouched path is kept; nothing else is in the new state |
| Protocol.Repository.Update | spreadflow_observer_fs/protocol.py:24-27 | the state becomes the masked state plus the inserts, and the result is the delta from the old state to that |
| Protocol.UpdatePreservesUniquePaths | spreadflow_observer_fs/protocol.py:25-26 | at most one pair per path before, and distinct insert paths, give at most one pair per path after |
| Protocol.ReinsertSameOid | spreadflow_observer_fs/protocol.py:25-27 | deleting and re-inserting a path with the same oid reports it neither as deleted nor as inserted |
| Protocol.ReinsertNewOid | spreadflow_observer_fs/protocol.py:25-27 | when the state has at most one pair per path (`UniquePaths(current)`) and the insert paths are distinct, re-inserting a path with a new oid reports the old pair as deleted and the new pair as inserted |
| Protocol.Uri | spreadflow_observer_fs/protocol.py:44 | `{'path': p}` has the one key `path`, which names `p` |
| Protocol.GenerateUris | spreadflow_observer_fs/protocol.py:43-44 | one `{'path': p}` record per path, with no other key |
| Protocol.MergeDicts | spreadflow_observer_fs/protocol.py:48 | the merged dict has exactly the keys of the merged dicts |
| Protocol.MergeDictsLastWins | spreadflow_observer_fs/protocol.py:48 | a key takes its value from the last dict that has it |
| Protocol.ZipLength | spreadflow_observer_fs/protocol.py:48 | `zip(*args)` is as long as the shortest argument |
| Protocol.Column | spreadflow_observer_fs/protocol.py:48 | the `i`-th tuple of `zip(*args)` has one element per argument: that argument's `i`-th element |
| Protocol.MergeMeta | spreadflow_observer_fs/protocol.py:47-48 | one merged record per index of `zip(*args)` |
| Protocol.MergeMetaLaterWins | spreadflow_observer_fs/protocol.py:47-48 | each merged record has the keys of all arguments at its index, and a later argument overrides an earlier one |
| Protocol.MergedMetadata | spreadflow_observer_fs/protocol.py:99-100 | merging the caller's metadata with the path records gives as many records as the shorter of the two |
| Protocol.MergedRecordAt | spreadflow_observer_fs/protocol.py:99-100 | at each index the merged record has the caller's keys plus `path`; `path` names the path at that index; the caller's other keys keep their values |
| Protocol.MergedMetadataHasPath | spreadflow_observer_fs/protocol.py:99-100 | merging caller metadata with the path records gives `min(len)` records; each has the caller's keys plus `path`, `path` names its path, and the other keys keep the caller's values |
| Protocol.GenerateOids | spreadflow_observer_fs/protocol.py:39-40 | one oid per record, each the hash `oidOf` of its record, so equal records get equal oids |
| Protocol.GenerateOidsAcrossBatches | spreadflow_observer_fs/protocol.py:39-40 | a record gets the same oid in every batch it occurs in |
| Protocol.OidsOf | spreadflow_observer_fs/protocol.py:56-60 | the second components of the pairs, in order |
| Protocol.PathsOf | spreadflow_observer_fs/protocol.py:56 | the first components of the pairs, in order |
| Protocol.DeletedData | spreadflow_observer_fs/protocol.py:55-57 | each deleted pair contributes its oid with the `{'path': p}` record of its path |
| Protocol.KeepInserted | spreadflow_observer_fs/protocol.py:59-61 | keeps exactly the insertable `(oid, meta)` pairs whose oid is inserted |
| Protocol.ToMapFacts | spreadflow_observer_fs/protocol.py:68 | `dict(pairs)` (the function `ToMap`) has exactly the pairs' keys, each with the value of some pair with that key |
| Protocol.ToMapAppend | spreadflow_observer_fs/protocol.py:68 | later pairs override earlier ones: `dict(a + b)` is `dict(a)` overridden by `dict(b)` |
| Protocol.DeletedDataMap | spreadflow_observer_fs/protocol.py:55-68 | the deleted half of `data` has exactly the deleted oids, each mapped to the path record of a deleted pair with that oid |
| Protocol.InsertedDataMap | spreadflow_observer_fs/protocol.py:59-68 | the inserted half of `data` has exactly the inserted oids that are insertable, each mapped to its insertable metadata |
| Protocol.ConstructMessage | spreadflow_observer_fs/protocol.py:55-67 | the record's `deletes` are the deleted pairs' oids and its `inserts` the inserted pairs' oids, in order |
| Protocol.MessageData | spreadflow_observer_fs/protocol.py:50-69 | `deletes` and `inserts` list the delta's oids in order; an oid is a key of `data` exactly when it is deleted, or inserted and insertable; an inserted insertable oid maps to its metadata; any other key maps to the path record of a deleted pair |
| Protocol.ChunksShape | spreadflow_observer_fs/protocol.py:81-84 | the `xrange` slices (the function `Chunks`) are non-empty and at most 8 long, concatenate back to the sequence, and number `ceil(n / 8)` |
| Protocol.ChunkMessage | spreadflow_observer_fs/protocol.py:82-84 | the record of one slice: as a delete record it lists the slice's oids as deletes and nothing as inserts, and as an insert record the reverse; ChunkMessageKind gives its kind and size |
| Protocol.ChunkMessages | spreadflow_observer_fs/protocol.py:81-84 | one record per slice |
| Protocol.ChunkMessagesAt | spreadflow_observer_fs/protocol.py:81-84 | the `j`-th record of a loop is the record of the `j`-th slice |
| Protocol.ChunkMessageKind | spreadflow_observer_fs/protocol.py:82-84 | the record of a slice of 1 to 8 pairs is delete-only or insert-only as the loop asks, and lists 1 to 8 oids |
| Protocol.ChunkMessagesKinds | spreadflow_observer_fs/protocol.py:81-84 | every record of a loop over such slices is delete-only or insert-only as asked, and lists 1 to 8 oids |
| Protocol.ChunkedMessageAt | spreadflow_observer_fs/protocol.py:81-84 | the `j`-th record of a loop is `_construct_message` of a slice whose pairs all come from the looped sequence |
| Protocol.ChunkedMessagesSplit | spreadflow_observer_fs/protocol.py:80-84 | above the chunk size, the first `ceil(d/8)` records are delete-only and the remaining `ceil(i/8)` insert-only, each listing 1 to 8 oids |
| Protocol.Messages | spreadflow_observer_fs/protocol.py:79-86 | no record exactly when the delta is empty; at most one record when the delta has at most 8 changes |
| Protocol.MessagesBound | spreadflow_observer_fs/protocol.py:79-86 | every record holds between 1 and `CHUNK_SIZE` oids |
| Protocol.MessagesOrder | spreadflow_observer_fs/protocol.py:80-84 | above the chunk size, every record is delete-only or insert-only, and no delete-only record follows an insert-only one |
| Protocol.MessagesCount | spreadflow_observer_fs/protocol.py:80-84 | above the chunk size there are `ceil(d/8) + ceil(i/8)` records |
| Protocol.MessagesConcat | spreadflow_observer_fs/protocol.py:79-86 | the records' deletes concatenate to the deleted oids, and their inserts to the inserted oids, in order |
| Protocol.ConstructMessageComplete | spreadflow_observer_fs/protocol.py:50-69 | every deleted or inserted oid of a record is a key of its `data`, when every inserted oid is insertable |
| Protocol.MessageAt | spreadflow_observer_fs/protocol.py:79-86 | every emitted record is `_construct_message` of some deleted pairs and some inserted pairs, all taken from the delta |
| Protocol.SplitMessageAt | spreadflow_observer_fs/protocol.py:80-84 | the `j`-th record of the delete loop's records followed by the insert loop's records is `_construct_message` of a deleted slice alone or of an inserted slice alone, its pairs taken from that half |
| Protocol.MessagesComplete | spreadflow_observer_fs/protocol.py:79-86 | every emitted record is complete when every inserted oid is insertable |
| Protocol.MessagesInsertData | spreadflow_observer_fs/protocol.py:79-86 | in every emitted record an inserted insertable oid maps to its own insertable metadata |
| Protocol.MessagesDeleteData | spreadflow_observer_fs/protocol.py:55-57 | in every emitted record a deleted oid, unless the record also inserts it from the insertable oids, maps to the `{'path': p}` record of a deleted pair with that oid |
| Protocol.ChunkLoopStep | spreadflow_observer_fs/protocol.py:81-84 | one turn of the loop moves the record of the slice at `i` from the records still to come to the records built |
| Protocol.ChunkLoop | spreadflow_observer_fs/protocol.py:81-84 | the `xrange` loop yields one record per slice, in slice order |
| Protocol.GenerateMessages | spreadflow_observer_fs/protocol.py:79-86 | the generator yields exactly the records `Messages` describes |
| Protocol.Freeze | spreadflow_observer_fs/protocol.py:95 | `tuple(s)` lists every element of the set exactly once |
| Protocol.BatchMessagesComplete | spreadflow_observer_fs/protocol.py:103-104 | when the inserted pairs come from `zip(paths, oids)`, every emitted record is complete |
| Protocol.OidNamesPath | spreadflow_observer_fs/protocol.py:99-103 | when the batch's records have distinct oids, the record paired with the oid of an insert pair `(p, o)` names `p` |
| Protocol.InsertedRecordsNamePaths | spreadflow_observer_fs/protocol.py:99-104 | for any batch of records that name their paths and have distinct oids, every record emitted for inserted pairs from the batch maps each inserted oid to metadata naming its path |
| Protocol.InsertedRecordsCarryPath | spreadflow_observer_fs/protocol.py:98-104 | when the inserted pairs come from the batch, every emitted record is complete; when the batch's merged records also have distinct oids, every inserted oid maps to metadata whose `path` is its own path |
| Protocol.BatchUniquePaths | spreadflow_observer_fs/protocol.py:94 | `set(zip(paths, oids))` for distinct paths has at most one pair per path |
| Protocol.ZipDistinctPaths | spreadflow_observer_fs/protocol.py:103 | distinct insertable paths give pairs with distinct paths |
| Protocol.EmptyUpdateEmitsNothing | spreadflow_observer_fs/protocol.py:98-104 | `update((), (), ())` leaves the state unchanged and emits no record |
| Protocol.ReplaceIdempotent | spreadflow_observer_fs/protocol.py:89-95 | replacing a state with itself reports an empty delta and emits no record |
| Protocol.SinglePathBatch | spreadflow_observer_fs/protocol.py:99-101 | one path with its stat record merges to that record plus its path, with a matching single pair |
| Protocol.InsertOnlyRecord | spreadflow_observer_fs/protocol.py:50-86 | one inserted pair and no deletion give one record whose data maps that oid to its metadata |
| Protocol.RenameRecord | spreadflow_observer_fs/protocol.py:50-86 | one deleted and one inserted pair give one record whose data holds both oids |
| Protocol.RenameData | spreadflow_observer_fs/protocol.py:50-68 | `_construct_message` of one deleted and one inserted pair deletes the old oid, inserts the new one, and maps them to the old path record and the new metadata |
| Protocol.TwoPairMap | spreadflow_observer_fs/protocol.py:68 | `dict` of two pairs maps each key to its value, the second overriding the first on a shared key |
| Protocol.RenameState | spreadflow_observer_fs/protocol.py:24-27 | deleting the only path and inserting another leaves only the new pair, and that is the delta |
| Protocol.FirstInsertEmitsOneRecord | spreadflow_observer_fs/test/test_observer_watchdog.py:86-94 | the first file in an empty repository gives one record: one insert, no delete, and data holding the stat record plus its path |
| Protocol.RenameEmitsOneRecord | spreadflow_observer_fs/test/test_observer_watchdog.py:128-139 | when the old record and the new merged record have distinct oids (`InjectiveOn` on those two), renaming the only file gives one record: the old oid deleted, a different new oid inserted, and data of exactly those two keys, the old one mapped to the old path |
| Protocol.MessageFactory.constructor | spreadflow_observer_fs/protocol.py:34-36 | the factory owns a fresh, empty repository |
| Protocol.MessageFactory.Replace | spreadflow_observer_fs/protocol.py:89-95 | the state becomes `set(zip(paths, oids))` of the merged records; the records are `Messages` of the frozen delta; every record is complete; when the merged records of the batch have distinct oids, inserted oids carry their paths; distinct paths keep paths unique |
| Protocol.MessageFactory.Update | spreadflow_observer_fs/protocol.py:98-104 | the state becomes the masked update with `zip(insertable_paths, oids)`; the records are `Messages` of the frozen delta; every record is complete; when the merged records of the batch have distinct oids, inserted oids carry their paths; unique paths and distinct insertable paths keep paths unique |
| Script.ChangesQueue.constructor | spreadflow_observer_fs/script.py:103 | `queue.Queue()` starts empty |
| Script.ChangesQueue.Put | spreadflow_observer_fs/script.py:56 | the item is appended at the end of the queue |
| Script.Pending | spreadflow_observer_fs/script.py:54-56 | at most one item, present exactly when a buffer is non-empty, and holding both buffers |
| Script.MovedPathCounts | spreadflow_observer_fs/script.py:29-38 | an empty path never counts, and a counting path matches the handler's patterns |
| Script.Contribution | spreadflow_observer_fs/script.py:28-52 | each event adds at most one path to each buffer, only paths it names; a move deletes only its source and inserts only its destination, each exactly when it is non-empty and matches; created inserts, deleted deletes, modified does both |
| Script.EventQueuesAtMostOne | spreadflow_observer_fs/script.py:28-59 | from empty buffers an event queues at most one item, none only for a move with no counting path, and only paths the event names |
| Script.Queued | spreadflow_observer_fs/script.py:28-59 | a series of events queues at most one item per event |
| Script.QueuedStep | spreadflow_observer_fs/script.py:28-59 | one more event adds exactly what that event queues from empty buffers |
| Script.QueuedFacts | spreadflow_observer_fs/script.py:28-59 | a series of events grows the queue by at most one item per event; no item is empty; every queued path is named by some event |
| Script.CreateThenDeleteQueuesTwo | spreadflow_observer_fs/script.py:41-47 | a create then a delete of one path queue two items, an insert then a delete |
| Script.EventHandler.constructor | spreadflow_observer_fs/script.py:20-26 | patterns are `[pattern]` and both buffers start empty |
| Script.EventHandler.Flush | spreadflow_observer_fs/script.py:54-59 | queues the buffers when either is non-empty, and always empties both |
| Script.EventHandler.OnMoved | spreadflow_observer_fs/script.py:28-39 | queues the pending item for the buffers plus the move's source and destination under the match rule, and leaves the buffers empty |
| Script.EventHandler.OnCreated | spreadflow_observer_fs/script.py:41-43 | queues the buffers with the path added to the inserts, and leaves the buffers empty |
| Script.EventHandler.OnDeleted | spreadflow_observer_fs/script.py:45-47 | queues the buffers with the path added to the deletes, and leaves the buffers empty |
| Script.EventHandler.OnModified | spreadflow_observer_fs/script.py:49-52 | queues the buffers with the path added to both, and leaves the buffers empty |
| Script.EventHandler.Dispatch | spreadflow_observer_fs/script.py:28-59 | delivering a series of events to an idle handler, each to its `on_*` method, appends exactly `Queued(events)` to the queue and leaves the handler idle |
| Script.ObserverCommand.constructor | spreadflow_observer_fs/script.py:96 | the query and the native flag are kept as parsed |
| Script.ObserverCommand.Pattern | spreadflow_observer_fs/script.py:114-116 | a native query is used unchanged; otherwise the pattern is `*/` followed by the query |
| Script.JoinPath | spreadflow_observer_fs/script.py:127 | `os.path.join(root, f)` ends in `f`; an absolute `f` is the result; otherwise the result is `root` or `root/` followed by `f`, and no separator is added exactly when `root` is empty or ends in `/` |
| Script.DirPaths | spreadflow_observer_fs/script.py:127 | one joined path per file of the directory, in order |
| Script.FilterPaths | spreadflow_observer_fs/script.py:128 | keeps exactly the matching paths, in their order |
| Script.FilterPathsCounts | spreadflow_observer_fs/script.py:128 | a matching path survives as many times as it occurs in the input, and any other path not at all |
| Script.ScanChanges | spreadflow_observer_fs/script.py:126-130 | the scan queues at most one item per directory |
| Script.ScanChangesStep | spreadflow_observer_fs/script.py:126-130 | one more directory adds exactly that directory's item, if it has matching files |
| Script.ScanChangesShape | spreadflow_observer_fs/script.py:128-130 | every scan item has no deletes and a non-empty list of matching paths |
| Script.ScanChangesPaths | spreadflow_observer_fs/script.py:126-130 | the scan items' inserts, concatenated, are exactly the walk's matching files in walk order |
| Script.InsertPathsGrow | spreadflow_observer_fs/script.py:129-130 | queuing an insert-only item appends its paths to the queued insert paths |
| Script.ScanChangesFacts | spreadflow_observer_fs/script.py:126-130 | the scan queues at most one item per directory; each has no deletes and a non-empty list of matching paths; together they insert exactly the matching files of the walk, in walk order |
| Script.ObserverCommand.InitialScan | spreadflow_observer_fs/script.py:126-130 | the queue gains exactly the scan items of the walk |
| Script.StatOk | spreadflow_observer_fs/script.py:140-147 | every surviving path has a successful stat |
| Script.StatOkFacts | spreadflow_observer_fs/script.py:140-147 | the surviving paths are an order-preserving subsequence, and a path survives exactly when its stat succeeds |
| Script.StatOkCounts | spreadflow_observer_fs/script.py:142-147 | a path whose stat succeeds survives as many times as it occurs in the input, and any other path not at all |
| Script.StatRecord | spreadflow_observer_fs/script.py:144 | `{'stat': tuple(os.stat(path))}` has the one key `stat`, holding the stat tuple, and no `path` key |
| Script.StatRecords | spreadflow_observer_fs/script.py:144 | one record per surviving path; the `j`-th has the one key `stat`, holding the stat tuple of the `j`-th path |
| Script.ObserverCommand.StatFilter | spreadflow_observer_fs/script.py:140-147 | the kept paths are those whose stat succeeds, in order; the records are index-aligned with them, each holding that path's stat |
| Script.ObserverCommand.HandleChange | spreadflow_observer_fs/script.py:138-149 | one queued item updates the factory with the deletes and the surviving inserts; the emitted records are `Messages` of the frozen delta, and every one is complete |
| Script.AlignedBatchKeepsEveryPath | spreadflow_observer_fs/script.py:140-149 | the aligned stat records mean `zip(insertable_paths, oids)` drops no surviving path, and each pairs its path with the oid of its stat record plus that path |

## Left out

- BSON encoding, the `port`/`type`/`date` envelope, and `datetime.now()` (protocol.py:63-76). These are a foreign encoder and a clock. A record is the `Message` datatype.
- SHA-1 and `repr` (protocol.py:40). They are uninterpreted, as `oidOf`. Dict key order, which `repr` depends on, is not modelled.
- The laziness of the `_generate_messages` generator. The model builds the whole list of records at once.
- The two `xrange` loops of `_generate_messages` are written once, as `ChunkLoop`, which is called for the deletes and then for the inserts.
- `PatternMatchingEventHandler` dispatch (script.py:16-23). Watchdog filters events by pattern and skips directories before `on_created`, `on_deleted` and `on_modified` run. The model's handlers take whatever event they are given.
- `match_path`/`filter_paths` (script.py:15, 29-37, 128) are the uninterpreted `matchPath`. This includes case-insensitive matching and the empty ignore list.
- The observer schedule, `start`/`stop`/`join`, the stdin watcher thread, the stop sentinel, `queue.get` with its timeout, `task_done` and `KeyboardInterrupt` (script.py:103-112, 118-122, 132-161). These are threads and process control. A single queued item is modelled by `HandleChange`.
- `os.walk` and `os.stat` (script.py:126, 144) are oracles passed in. Writing records to stdout and flushing it (script.py:150-151) are left out.
- argparse, `load_observer`/`importlib` and `main` (script.py:69-101, 163-165). These are CLI and reflection.
- twisted/plugins/spreadflow_observer_fs_endpoint.py, spreadflow_observer_fs/source.py and setup.py are not part of this model. They are plugin discovery, a scheduler wrapper and packaging.
- Protocol.MessageFactory.Update: distinct insertable paths are needed for the path-uniqueness guarantee, because the source does not enforce it.
- Protocol.InsertedRecordsCarryPath: the path guarantee holds only when the records of the batch get distinct oids (`InjectiveOn`), which stands for the collision-freedom of SHA-1; the model cannot prove this of an uninterpreted hash.
- Protocol.Chunks and Protocol.ToMap carry no `ensures` of their own: their properties are the lemmas `ChunksShape`, `ToMapFacts` and `ToMapAppend`.
