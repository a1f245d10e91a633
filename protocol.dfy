/** The delta-reconciliation engine of the filesystem observer
    (spreadflow_observer_fs/protocol.py): the repository of reported
    (path, oid) pairs, the metadata helpers, the delta record and the
    message factory that chunks a delta into records. */
module Protocol {
  import opened Common

  type Path = string
  /** An object identifier: the hex digest of a metadata record. */
  type Oid = string
  /** One repository entry: a path and the oid of its metadata. */
  type Entry = (Path, Oid)

  /** The values that occur in metadata records: the path string under
      'path' and the stat tuple under 'stat'. */
  datatype Value = Str(s: string) | Ints(ns: seq<int>)
  /** A metadata record (a Python dict from string keys). */
  type Meta = map<string, Value>

  const PathKey: string := "path"
  /** MessageFactory.CHUNK_SIZE: most deletes plus inserts in one record. */
  const ChunkSize: nat := 8

  // ---------------------------------------------------------------------
  // Repository
  // ---------------------------------------------------------------------

  /** At most one entry per path. */
  ghost predicate UniquePaths(s: set<Entry>)
  {
    forall a, b :: a in s && b in s && a.0 == b.0 ==> a == b
  }

  /** No path occurs twice in a batch of insert pairs. */
  ghost predicate DistinctPaths(inserts: seq<Entry>)
  {
    forall i, j :: 0 <= i < j < |inserts| ==> inserts[i].0 != inserts[j].0
  }

  /** The (deleted, inserted) pair that Repository.replace reports when the
      state goes from `current` to `next`. */
  function Delta(current: set<Entry>, next: set<Entry>): (r: (set<Entry>, set<Entry>))
    ensures r.0 <= current && r.0 !! next
    ensures r.1 <= next && r.1 !! current
    ensures (current - r.0) + r.1 == next
    ensures current == next ==> r.0 == {} && r.1 == {}
  {
    (current - next, next - current)
  }

  /** The reported delta is the only one that removes old entries, adds new
      ones and turns `current` into `next`. */
  lemma DeltaIsMinimal(current: set<Entry>, next: set<Entry>, deleted: set<Entry>, inserted: set<Entry>)
    requires deleted <= current && inserted !! current
    requires (current - deleted) + inserted == next
    ensures (deleted, inserted) == Delta(current, next)
  {
    assert deleted == current - next;
    assert inserted == next - current;
  }

  /** The paths masked by an update: those deleted and those re-inserted. */
  function MaskedPaths(deletes: seq<Path>, inserts: seq<Entry>): (r: set<Path>)
    ensures forall p :: p in r <==> p in deletes || exists k :: 0 <= k < |inserts| && inserts[k].0 == p
  {
    (set p | p in deletes) + (set e | e in inserts :: e.0)
  }

  /** The snapshot Repository.update hands to replace. */
  function Updated(current: set<Entry>, deletes: seq<Path>, inserts: seq<Entry>): (r: set<Entry>)
    ensures forall e :: e in inserts ==> e in r
    ensures forall e :: e in r && e.0 in deletes ==> e in inserts
    ensures forall e :: e in current && e.0 !in deletes && (forall k :: 0 <= k < |inserts| ==> inserts[k].0 != e.0) ==> e in r
    ensures forall e :: e in r && e !in inserts ==>
      e in current && e.0 !in deletes && forall k :: 0 <= k < |inserts| ==> inserts[k].0 != e.0
  {
    var masked := MaskedPaths(deletes, inserts);
    (set e | e in current && e.0 !in masked) + (set e | e in inserts)
  }

  class Repository {
    var repo: set<Entry>

    constructor()
      ensures repo == {}
    {
      repo := {};
    }

    /** Swaps in a new snapshot and reports the two set differences. */
    method Replace(newRepo: set<Entry>) returns (deleted: set<Entry>, inserted: set<Entry>)
      modifies this
      ensures (deleted, inserted) == Delta(old(repo), newRepo)
      ensures repo == newRepo
    {
      inserted := newRepo - repo;
      deleted := repo - newRepo;
      repo := newRepo;
    }

    /** Drops every entry whose path is deleted or re-inserted, adds the
        insert pairs, and replaces the state with the result. */
    method Update(deletes: seq<Path>, inserts: seq<Entry>) returns (deleted: set<Entry>, inserted: set<Entry>)
      modifies this
      ensures repo == Updated(old(repo), deletes, inserts)
      ensures (deleted, inserted) == Delta(old(repo), repo)
    {
      var next := Updated(repo, deletes, inserts);
      deleted, inserted := Replace(next);
    }
  }

  /** An update keeps at most one entry per path when its insert batch has
      distinct paths. */
  lemma UpdatePreservesUniquePaths(current: set<Entry>, deletes: seq<Path>, inserts: seq<Entry>)
    requires UniquePaths(current) && DistinctPaths(inserts)
    ensures UniquePaths(Updated(current, deletes, inserts))
  {
  }

  /** A path deleted and re-inserted with its old oid shows up in neither
      half of the delta. */
  lemma ReinsertSameOid(current: set<Entry>, deletes: seq<Path>, inserts: seq<Entry>, p: Path, o: Oid)
    requires (p, o) in current && p in deletes && (p, o) in inserts
    ensures var (deleted, inserted) := Delta(current, Updated(current, deletes, inserts));
      (p, o) !in deleted && (p, o) !in inserted
  {}

  /** A path re-inserted with a different oid shows up as the old pair in
      the deleted half and the new pair in the inserted half. */
  lemma ReinsertNewOid(current: set<Entry>, deletes: seq<Path>, inserts: seq<Entry>, p: Path, o: Oid, o': Oid)
    requires UniquePaths(current) && DistinctPaths(inserts)
    requires (p, o) in current && (p, o') in inserts && o != o'
    ensures var (deleted, inserted) := Delta(current, Updated(current, deletes, inserts));
      (p, o) in deleted && (p, o') in inserted
  {
  }

  // ---------------------------------------------------------------------
  // Metadata: uris, merge, oids
  // ---------------------------------------------------------------------

  /** The `{'path': p}` record. */
  function Uri(p: Path): (r: Meta)
    ensures r.Keys == {PathKey} && r[PathKey] == Str(p)
  {
    map[PathKey := Str(p)]
  }

  /** MessageFactory._metadata_generate_uris. */
  function GenerateUris(paths: seq<Path>): (r: seq<Meta>)
    ensures |r| == |paths|
    ensures forall i :: 0 <= i < |r| ==> r[i].Keys == {PathKey} && r[i][PathKey] == Str(paths[i])
  {
    seq(|paths|, i requires 0 <= i < |paths| => Uri(paths[i]))
  }

  /** `reduce(lambda x, y: dict(x.items() + y.items()), dicts, {})`. */
  function MergeDicts(dicts: seq<Meta>): (r: Meta)
    ensures forall k :: k in r <==> exists j :: 0 <= j < |dicts| && k in dicts[j]
    decreases |dicts|
  {
    if dicts == [] then map[]
    else
      var r := MergeDicts(dicts[..|dicts| - 1]) + dicts[|dicts| - 1];
      assert forall k :: k in r ==> exists j :: 0 <= j < |dicts| && k in dicts[j] by {
        forall k | k in r ensures exists j :: 0 <= j < |dicts| && k in dicts[j] {
          if k !in dicts[|dicts| - 1] {
            var j :| 0 <= j < |dicts| - 1 && k in dicts[..|dicts| - 1][j];
            assert k in dicts[j];
          }
        }
      }
      assert forall j, k :: 0 <= j < |dicts| && k in dicts[j] ==> k in r by {
        forall j, k | 0 <= j < |dicts| && k in dicts[j] ensures k in r {
          if j < |dicts| - 1 {
            assert k in dicts[..|dicts| - 1][j];
          }
        }
      }
      r
  }

  /** In a merge, a key takes the value of the last dictionary that has it. */
  lemma {:induction false} MergeDictsLastWins(dicts: seq<Meta>, j: nat, k: string)
    requires j < |dicts| && k in dicts[j]
    requires forall j' :: j < j' < |dicts| ==> k !in dicts[j']
    ensures k in MergeDicts(dicts) && MergeDicts(dicts)[k] == dicts[j][k]
    decreases |dicts|
  {
    if j < |dicts| - 1 {
      var prefix := dicts[..|dicts| - 1];
      forall j' | j < j' < |prefix| ensures k !in prefix[j'] {
        assert prefix[j'] == dicts[j'];
      }
      MergeDictsLastWins(prefix, j, k);
    }
  }

  /** The length of `zip(*args)`: the shortest argument's length, and 0
      when there are no arguments. */
  function ZipLength<T>(args: seq<seq<T>>): (n: nat)
    ensures forall j :: 0 <= j < |args| ==> n <= |args[j]|
    ensures |args| == 0 ==> n == 0
    ensures |args| > 0 ==> exists j :: 0 <= j < |args| && n == |args[j]|
    decreases |args|
  {
    if |args| == 0 then 0
    else if |args| == 1 then |args[0]|
    else
      var rest := ZipLength(args[1..]);
      assert forall j :: 1 <= j < |args| ==> args[j] == args[1..][j - 1];
      if |args[0]| <= rest then |args[0]|
      else
        var j :| 0 <= j < |args[1..]| && rest == |args[1..][j]|;
        assert rest == |args[j + 1]|;
        rest
  }

  /** The i-th tuple of `zip(*args)`. */
  function Column<T>(args: seq<seq<T>>, i: nat): (c: seq<T>)
    requires i < ZipLength(args)
    ensures |c| == |args| && forall j :: 0 <= j < |args| ==> c[j] == args[j][i]
  {
    seq(|args|, j requires 0 <= j < |args| => args[j][i])
  }

  /** MessageFactory._metadata_merge: one merged record per index of the
      zipped arguments. */
  function MergeMeta(args: seq<seq<Meta>>): (r: seq<Meta>)
    ensures |r| == ZipLength(args)
  {
    seq(ZipLength(args), i requires 0 <= i < ZipLength(args) => MergeDicts(Column(args, i)))
  }

  /** Each merged record has the keys of all the arguments at its index,
      and a key takes its value from the last argument that has it. */
  lemma MergeMetaLaterWins(args: seq<seq<Meta>>, i: nat, j: nat, k: string)
    requires i < ZipLength(args) && j < |args| && k in args[j][i]
    requires forall j' :: j < j' < |args| ==> k !in args[j'][i]
    ensures k in MergeMeta(args)[i] && MergeMeta(args)[i][k] == args[j][i][k]
  {
    var c := Column(args, i);
    assert MergeMeta(args)[i] == MergeDicts(c);
    MergeDictsLastWins(c, j, k);
  }

  /** The records that update and replace hash: the caller's metadata at each
      index merged with `{'path': p}` for the path at that index. */
  function MergedMetadata(meta: seq<Meta>, paths: seq<Path>): (r: seq<Meta>)
    ensures |r| == Min(|meta|, |paths|)
  {
    assert [meta, GenerateUris(paths)][1..] == [GenerateUris(paths)];
    MergeMeta([meta, GenerateUris(paths)])
  }

  /** The merged records line up with the shorter of the two inputs; the
      path record wins on 'path' and every other key keeps the caller's
      value. */
  lemma MergedMetadataHasPath(meta: seq<Meta>, paths: seq<Path>)
    ensures |MergedMetadata(meta, paths)| == Min(|meta|, |paths|)
    ensures forall i :: 0 <= i < Min(|meta|, |paths|) ==>
      MergedMetadata(meta, paths)[i].Keys == meta[i].Keys + {PathKey} &&
      MergedMetadata(meta, paths)[i][PathKey] == Str(paths[i]) &&
      forall k :: k in meta[i] && k != PathKey ==> MergedMetadata(meta, paths)[i][k] == meta[i][k]
  {
    forall i | 0 <= i < Min(|meta|, |paths|)
      ensures MergedMetadata(meta, paths)[i].Keys == meta[i].Keys + {PathKey}
      ensures MergedMetadata(meta, paths)[i][PathKey] == Str(paths[i])
      ensures forall k :: k in meta[i] && k != PathKey ==> MergedMetadata(meta, paths)[i][k] == meta[i][k]
    {
      MergedRecordAt(meta, paths, i);
    }
  }

  /** The merged record at one index: the caller's keys plus 'path', which
      names the path at that index. */
  lemma MergedRecordAt(meta: seq<Meta>, paths: seq<Path>, i: nat)
    requires i < Min(|meta|, |paths|)
    ensures MergedMetadata(meta, paths)[i].Keys == meta[i].Keys + {PathKey}
    ensures MergedMetadata(meta, paths)[i][PathKey] == Str(paths[i])
    ensures forall k :: k in meta[i] && k != PathKey ==> MergedMetadata(meta, paths)[i][k] == meta[i][k]
  {
    var uris := GenerateUris(paths);
    var args := [meta, uris];
    assert args[1..] == [uris];
    assert ZipLength(args) == Min(|meta|, |paths|);
    var merged := MergedMetadata(meta, paths);
    var c := Column(args, i);
    assert merged[i] == MergeDicts(c);
    assert c == [meta[i], uris[i]];
    MergeMetaLaterWins(args, i, 1, PathKey);
    forall k | k in meta[i] && k != PathKey ensures merged[i][k] == meta[i][k] {
      MergeMetaLaterWins(args, i, 0, k);
    }
    forall k ensures k in merged[i] <==> k in meta[i].Keys + {PathKey} {
      if k in merged[i] {
        var j :| 0 <= j < |c| && k in c[j];
      }
    }
  }

  /** MessageFactory._metadata_generate_oids: one oid per record, from an
      uninterpreted deterministic hash `oidOf`. */
  function GenerateOids(oidOf: Meta -> Oid, metas: seq<Meta>): (r: seq<Oid>)
    ensures |r| == |metas|
    ensures forall i :: 0 <= i < |r| ==> r[i] == oidOf(metas[i])
    ensures forall i, j :: 0 <= i < |r| && 0 <= j < |r| && metas[i] == metas[j] ==> r[i] == r[j]
  {
    seq(|metas|, i requires 0 <= i < |metas| => oidOf(metas[i]))
  }

  /** The oid of a record is the same in every batch it occurs in, so an
      unchanged file keeps its oid from one update to the next. */
  lemma GenerateOidsAcrossBatches(oidOf: Meta -> Oid, a: seq<Meta>, b: seq<Meta>, i: nat, j: nat)
    requires i < |a| && j < |b| && a[i] == b[j]
    ensures GenerateOids(oidOf, a)[i] == GenerateOids(oidOf, b)[j]
  {
  }

  /** The hash gives distinct oids to the distinct records of one batch:
      the collision-freedom of SHA-1, relied on only for the records that
      occur together. */
  ghost predicate InjectiveOn(oidOf: Meta -> Oid, metas: seq<Meta>)
  {
    forall i, j {:trigger oidOf(metas[i]), oidOf(metas[j])} ::
      0 <= i < |metas| && 0 <= j < |metas| && oidOf(metas[i]) == oidOf(metas[j]) ==> metas[i] == metas[j]
  }

  // ---------------------------------------------------------------------
  // Delta records
  // ---------------------------------------------------------------------

  /** The 'item' of one wire message, without its type tag and date. */
  datatype Message = Message(deletes: seq<Oid>, inserts: seq<Oid>, data: map<Oid, Meta>)

  function OidsOf(es: seq<Entry>): (r: seq<Oid>)
    ensures |r| == |es| && forall i :: 0 <= i < |r| ==> r[i] == es[i].1
  {
    seq(|es|, i requires 0 <= i < |es| => es[i].1)
  }

  function PathsOf(es: seq<Entry>): (r: seq<Path>)
    ensures |r| == |es| && forall i :: 0 <= i < |r| ==> r[i] == es[i].0
  {
    seq(|es|, i requires 0 <= i < |es| => es[i].0)
  }

  lemma OidsOfAppend(a: seq<Entry>, b: seq<Entry>)
    ensures OidsOf(a + b) == OidsOf(a) + OidsOf(b)
  {
  }

  /** `zip(deleted_oids, _metadata_generate_uris(deleted_paths))`. */
  function DeletedData(deleted: seq<Entry>): (r: seq<(Oid, Meta)>)
    ensures |r| == |deleted| && forall i :: 0 <= i < |r| ==> r[i] == (deleted[i].1, Uri(deleted[i].0))
  {
    Zip(OidsOf(deleted), GenerateUris(PathsOf(deleted)))
  }

  /** The insertable (oid, meta) pairs whose oid is among the inserted oids. */
  function KeepInserted(pairs: seq<(Oid, Meta)>, insertedOids: seq<Oid>): (r: seq<(Oid, Meta)>)
    ensures forall p :: p in r <==> p in pairs && p.0 in insertedOids
    decreases |pairs|
  {
    if pairs == [] then []
    else
      var last := pairs[|pairs| - 1];
      assert pairs == pairs[..|pairs| - 1] + [last];
      KeepInserted(pairs[..|pairs| - 1], insertedOids) + (if last.0 in insertedOids then [last] else [])
  }

  /** `dict(pairs)`: a later pair overwrites an earlier one with the same key. */
  function ToMap(pairs: seq<(Oid, Meta)>): map<Oid, Meta>
    decreases |pairs|
  {
    if pairs == [] then map[]
    else ToMap(pairs[..|pairs| - 1])[pairs[|pairs| - 1].0 := pairs[|pairs| - 1].1]
  }

  /** Every key of `dict(pairs)` comes from a pair, with that pair's value,
      and every pair's key is present. */
  lemma {:induction false} ToMapFacts(pairs: seq<(Oid, Meta)>)
    ensures forall o :: o in ToMap(pairs) ==> (o, ToMap(pairs)[o]) in pairs
    ensures forall p :: p in pairs ==> p.0 in ToMap(pairs)
    decreases |pairs|
  {
    if pairs != [] {
      var init := pairs[..|pairs| - 1];
      var last := pairs[|pairs| - 1];
      assert pairs == init + [last];
      ToMapFacts(init);
    }
  }

  lemma {:induction false} ToMapAppend(a: seq<(Oid, Meta)>, b: seq<(Oid, Meta)>)
    ensures ToMap(a + b) == ToMap(a) + ToMap(b)
    decreases |b|
  {
    if b == [] {
      assert a + b == a;
    } else {
      var last := b[|b| - 1];
      var init := b[..|b| - 1];
      assert (a + b)[..|a + b| - 1] == a + init;
      assert (a + b)[|a + b| - 1] == last;
      ToMapAppend(a, init);
      var left := ToMap(a);
      var right := ToMap(init);
      assert ToMap(a + b) == (left + right)[last.0 := last.1];
      assert ToMap(b) == right[last.0 := last.1];
      assert (left + right)[last.0 := last.1] == left + right[last.0 := last.1];
    }
  }

  /** MessageFactory._construct_message, as the record it encodes. */
  function ConstructMessage(deletedObjects: seq<Entry>, insertedObjects: seq<Entry>,
                            insertableOids: seq<Oid>, insertableMeta: seq<Meta>): (r: Message)
    ensures r.deletes == OidsOf(deletedObjects) && r.inserts == OidsOf(insertedObjects)
  {
    var insertedOids := OidsOf(insertedObjects);
    Message(OidsOf(deletedObjects), insertedOids,
            ToMap(DeletedData(deletedObjects) + KeepInserted(Zip(insertableOids, insertableMeta), insertedOids)))
  }

  /** The deleted half of a record's data: exactly the deleted oids, each
      mapped to the `{'path': p}` record of a deleted pair with that oid. */
  lemma DeletedDataMap(deletedObjects: seq<Entry>)
    ensures var dm := ToMap(DeletedData(deletedObjects));
      && (forall o :: o in dm <==> o in OidsOf(deletedObjects))
      && (forall o :: o in dm ==> exists p :: (p, o) in deletedObjects && dm[o] == Uri(p))
  {
    var dd := DeletedData(deletedObjects);
    var dm := ToMap(dd);
    var oids := OidsOf(deletedObjects);
    ToMapFacts(dd);
    forall o | o in oids ensures o in dm {
      var j :| 0 <= j < |oids| && oids[j] == o;
      assert dd[j] in dd;
    }
    forall o | o in dm ensures o in oids && exists p :: (p, o) in deletedObjects && dm[o] == Uri(p) {
      var j :| 0 <= j < |dd| && dd[j] == (o, dm[o]);
      assert oids[j] == o;
      assert deletedObjects[j] in deletedObjects;
    }
  }

  /** The inserted half of a record's data: exactly the inserted oids that
      are among the insertable oids, each mapped to an insertable record
      with that oid. */
  lemma InsertedDataMap(insertedOids: seq<Oid>, insertableOids: seq<Oid>, insertableMeta: seq<Meta>)
    requires |insertableOids| == |insertableMeta|
    ensures var zipped := Zip(insertableOids, insertableMeta);
      var im := ToMap(KeepInserted(zipped, insertedOids));
      && (forall o :: o in im <==> o in insertedOids && o in insertableOids)
      && (forall o :: o in im ==> (o, im[o]) in zipped)
  {
    var zipped := Zip(insertableOids, insertableMeta);
    var ki := KeepInserted(zipped, insertedOids);
    var im := ToMap(ki);
    ToMapFacts(ki);
    forall o | o in insertedOids && o in insertableOids ensures o in im {
      var j :| 0 <= j < |insertableOids| && insertableOids[j] == o;
      assert zipped[j] in zipped;
      assert zipped[j] in ki;
    }
    forall o | o in im ensures o in insertedOids && o in insertableOids && (o, im[o]) in zipped {
      assert (o, im[o]) in ki;
      var j :| 0 <= j < |zipped| && zipped[j] == (o, im[o]);
      assert insertableOids[j] == o;
    }
  }

  /** What a record's data holds: an entry for every deleted oid and for every
      inserted oid that is among the insertable oids, and for nothing else;
      an inserted oid maps to its insertable metadata; any other oid maps to
      the `{'path': p}` record of a deleted pair with that oid. */
  lemma MessageData(deletedObjects: seq<Entry>, insertedObjects: seq<Entry>,
                    insertableOids: seq<Oid>, insertableMeta: seq<Meta>)
    requires |insertableOids| == |insertableMeta|
    ensures var m := ConstructMessage(deletedObjects, insertedObjects, insertableOids, insertableMeta);
      && m.deletes == OidsOf(deletedObjects) && m.inserts == OidsOf(insertedObjects)
      && (forall o :: o in m.data <==> o in m.deletes || (o in m.inserts && o in insertableOids))
      && (forall o :: o in m.inserts && o in insertableOids ==> (o, m.data[o]) in Zip(insertableOids, insertableMeta))
      && (forall o :: o in m.data && !(o in m.inserts && o in insertableOids) ==>
            exists p :: (p, o) in deletedObjects && m.data[o] == Uri(p))
  {
    var m := ConstructMessage(deletedObjects, insertedObjects, insertableOids, insertableMeta);
    var dd := DeletedData(deletedObjects);
    var ki := KeepInserted(Zip(insertableOids, insertableMeta), m.inserts);
    ToMapAppend(dd, ki);
    DeletedDataMap(deletedObjects);
    InsertedDataMap(m.inserts, insertableOids, insertableMeta);
    assert m.data == ToMap(dd) + ToMap(ki);
  }

  // ---------------------------------------------------------------------
  // Chunking (_generate_messages)
  // ---------------------------------------------------------------------

  /** The slices `s[k:k+CHUNK_SIZE]`, `s[k+CHUNK_SIZE:k+2*CHUNK_SIZE]`, ...
      that `for i in xrange(k, len(s), CHUNK_SIZE)` visits. */
  function Chunks<T>(s: seq<T>, k: nat): seq<seq<T>>
    decreases |s| - k
  {
    if k >= |s| then [] else [s[k..Min(k + ChunkSize, |s|)]] + Chunks(s, k + ChunkSize)
  }

  /** Chunks are non-empty, at most CHUNK_SIZE long, there are
      ceil(remaining / CHUNK_SIZE) of them, and together they spell out the
      rest of the sequence in order. */
  lemma {:induction false} ChunksShape<T>(s: seq<T>, k: nat)
    ensures forall c :: c in Chunks(s, k) ==> 0 < |c| <= ChunkSize
    ensures Flatten(Chunks(s, k)) == if k < |s| then s[k..] else []
    ensures |Chunks(s, k)| == if k < |s| then (|s| - k + ChunkSize - 1) / ChunkSize else 0
    decreases |s| - k
  {
    if k < |s| {
      ChunksShape(s, k + ChunkSize);
      var c := s[k..Min(k + ChunkSize, |s|)];
      var rest := Chunks(s, k + ChunkSize);
      assert Chunks(s, k) == [c] + rest;
      assert ([c] + rest)[1..] == rest;
      assert Flatten(Chunks(s, k)) == c + Flatten(rest);
      if k + ChunkSize < |s| {
        assert s[k..] == c + s[k + ChunkSize..];
      } else {
        assert c == s[k..];
      }
    }
  }

  /** The record for one chunk, as a delete-only or an insert-only record. */
  function ChunkMessage(chunk: seq<Entry>, asDeletes: bool, insertableOids: seq<Oid>, insertableMeta: seq<Meta>): (r: Message)
    ensures asDeletes ==> r.deletes == OidsOf(chunk) && r.inserts == []
    ensures !asDeletes ==> r.deletes == [] && r.inserts == OidsOf(chunk)
  {
    if asDeletes then ConstructMessage(chunk, [], insertableOids, insertableMeta)
    else ConstructMessage([], chunk, insertableOids, insertableMeta)
  }

  function ChunkMessages(chunks: seq<seq<Entry>>, asDeletes: bool, insertableOids: seq<Oid>,
                         insertableMeta: seq<Meta>): (r: seq<Message>)
    ensures |r| == |chunks|
  {
    if chunks == [] then []
    else [ChunkMessage(chunks[0], asDeletes, insertableOids, insertableMeta)]
         + ChunkMessages(chunks[1..], asDeletes, insertableOids, insertableMeta)
  }

  /** The records `_generate_messages` yields, in order. */
  function Messages(deletedObjects: seq<Entry>, insertedObjects: seq<Entry>,
                    insertableOids: seq<Oid>, insertableMeta: seq<Meta>): (r: seq<Message>)
    ensures |r| == 0 <==> |deletedObjects| + |insertedObjects| == 0
    ensures |deletedObjects| + |insertedObjects| <= ChunkSize ==> |r| <= 1
  {
    if |deletedObjects| + |insertedObjects| > ChunkSize then
      ChunkMessages(Chunks(deletedObjects, 0), true, insertableOids, insertableMeta)
      + ChunkMessages(Chunks(insertedObjects, 0), false, insertableOids, insertableMeta)
    else if |deletedObjects| + |insertedObjects| > 0 then
      [ConstructMessage(deletedObjects, insertedObjects, insertableOids, insertableMeta)]
    else []
  }

  /** The deletes of all records, concatenated in order. */
  function AllDeletes(ms: seq<Message>): seq<Oid>
  {
    if ms == [] then [] else ms[0].deletes + AllDeletes(ms[1..])
  }

  /** The inserts of all records, concatenated in order. */
  function AllInserts(ms: seq<Message>): seq<Oid>
  {
    if ms == [] then [] else ms[0].inserts + AllInserts(ms[1..])
  }

  lemma {:induction false} ChunkMessagesAt(chunks: seq<seq<Entry>>, asDeletes: bool,
                                           insertableOids: seq<Oid>, insertableMeta: seq<Meta>)
    ensures |ChunkMessages(chunks, asDeletes, insertableOids, insertableMeta)| == |chunks|
    ensures forall j :: 0 <= j < |chunks| ==>
      ChunkMessages(chunks, asDeletes, insertableOids, insertableMeta)[j]
        == ChunkMessage(chunks[j], asDeletes, insertableOids, insertableMeta)
  {
    if chunks != [] {
      ChunkMessagesAt(chunks[1..], asDeletes, insertableOids, insertableMeta);
    }
  }

  lemma {:induction false} AllAppend(a: seq<Message>, b: seq<Message>)
    ensures AllDeletes(a + b) == AllDeletes(a) + AllDeletes(b)
    ensures AllInserts(a + b) == AllInserts(a) + AllInserts(b)
  {
    if a != [] {
      assert (a + b)[0] == a[0];
      assert (a + b)[1..] == a[1..] + b;
      AllAppend(a[1..], b);
    } else {
      assert a + b == b;
    }
  }

  lemma {:induction false} AllOfChunkMessages(chunks: seq<seq<Entry>>, asDeletes: bool,
                                              insertableOids: seq<Oid>, insertableMeta: seq<Meta>)
    ensures var ms := ChunkMessages(chunks, asDeletes, insertableOids, insertableMeta);
      AllDeletes(ms) == (if asDeletes then OidsOf(Flatten(chunks)) else [])
      && AllInserts(ms) == (if asDeletes then [] else OidsOf(Flatten(chunks)))
  {
    if chunks == [] {
      assert OidsOf([]) == [];
    } else {
      var ms := ChunkMessages(chunks, asDeletes, insertableOids, insertableMeta);
      AllOfChunkMessages(chunks[1..], asDeletes, insertableOids, insertableMeta);
      assert ms[1..] == ChunkMessages(chunks[1..], asDeletes, insertableOids, insertableMeta);
      OidsOfAppend(chunks[0], Flatten(chunks[1..]));
      assert OidsOf([]) == [];
    }
  }

  /** A chunk's record: delete-only or insert-only as asked, listing between
      one and CHUNK_SIZE oids. */
  ghost predicate KindBound(m: Message, asDeletes: bool)
  {
    && (if asDeletes then m.inserts == [] else m.deletes == [])
    && 0 < |m.deletes| + |m.inserts| <= ChunkSize
  }

  /** The records of non-empty chunks of at most CHUNK_SIZE pairs: each is
      delete-only or insert-only as asked, and lists between one and
      CHUNK_SIZE oids. */
  lemma ChunkMessagesKinds(chunks: seq<seq<Entry>>, asDeletes: bool,
                           insertableOids: seq<Oid>, insertableMeta: seq<Meta>)
    requires forall c :: c in chunks ==> 0 < |c| <= ChunkSize
    ensures forall j :: 0 <= j < |chunks| ==>
      KindBound(ChunkMessages(chunks, asDeletes, insertableOids, insertableMeta)[j], asDeletes)
  {
    ChunkMessagesAt(chunks, asDeletes, insertableOids, insertableMeta);
    forall j | 0 <= j < |chunks|
      ensures KindBound(ChunkMessage(chunks[j], asDeletes, insertableOids, insertableMeta), asDeletes)
    {
      assert chunks[j] in chunks;
      ChunkMessageKind(chunks[j], asDeletes, insertableOids, insertableMeta);
    }
  }

  /** The record of one non-empty chunk of at most CHUNK_SIZE pairs. */
  lemma ChunkMessageKind(chunk: seq<Entry>, asDeletes: bool, insertableOids: seq<Oid>, insertableMeta: seq<Meta>)
    requires 0 < |chunk| <= ChunkSize
    ensures KindBound(ChunkMessage(chunk, asDeletes, insertableOids, insertableMeta), asDeletes)
  {
    var m := ChunkMessage(chunk, asDeletes, insertableOids, insertableMeta);
    if asDeletes {
      assert m.inserts == [] && |m.deletes| == |chunk|;
    } else {
      assert m.deletes == [] && |m.inserts| == |chunk|;
    }
  }

  /** The records of a delta larger than one chunk: the delete-only records
      of the deleted pairs' chunks, then the insert-only records of the
      inserted pairs' chunks. */
  lemma ChunkedMessagesSplit(deletedObjects: seq<Entry>, insertedObjects: seq<Entry>,
                             insertableOids: seq<Oid>, insertableMeta: seq<Meta>)
    returns (n: nat)
    requires |deletedObjects| + |insertedObjects| > ChunkSize
    ensures var ms := Messages(deletedObjects, insertedObjects, insertableOids, insertableMeta);
      && n <= |ms|
      && n == (|deletedObjects| + ChunkSize - 1) / ChunkSize
      && |ms| - n == (|insertedObjects| + ChunkSize - 1) / ChunkSize
      && (forall j :: 0 <= j < n ==> ms[j].inserts == [] && 0 < |ms[j].deletes| <= ChunkSize)
      && (forall j :: n <= j < |ms| ==> ms[j].deletes == [] && 0 < |ms[j].inserts| <= ChunkSize)
  {
    var dcs := Chunks(deletedObjects, 0);
    var ics := Chunks(insertedObjects, 0);
    var dms := ChunkMessages(dcs, true, insertableOids, insertableMeta);
    var ims := ChunkMessages(ics, false, insertableOids, insertableMeta);
    ChunksShape(deletedObjects, 0);
    ChunksShape(insertedObjects, 0);
    ChunkMessagesKinds(dcs, true, insertableOids, insertableMeta);
    ChunkMessagesKinds(ics, false, insertableOids, insertableMeta);
    ConcatKinds(dms, ims);
    n := |dms|;
  }

  /** Delete-only records followed by insert-only records, by index. */
  lemma ConcatKinds(dms: seq<Message>, ims: seq<Message>)
    requires forall j :: 0 <= j < |dms| ==> KindBound(dms[j], true)
    requires forall j :: 0 <= j < |ims| ==> KindBound(ims[j], false)
    ensures forall j :: 0 <= j < |dms| ==> (dms + ims)[j].inserts == [] && 0 < |(dms + ims)[j].deletes| <= ChunkSize
    ensures forall j :: |dms| <= j < |dms + ims| ==> (dms + ims)[j].deletes == [] && 0 < |(dms + ims)[j].inserts| <= ChunkSize
  {
    assert forall j :: |dms| <= j < |dms + ims| ==> (dms + ims)[j] == ims[j - |dms|];
  }

  /** No record carries more than CHUNK_SIZE deletes plus inserts, and none
      is empty. */
  lemma MessagesBound(deletedObjects: seq<Entry>, insertedObjects: seq<Entry>,
                      insertableOids: seq<Oid>, insertableMeta: seq<Meta>)
    ensures var ms := Messages(deletedObjects, insertedObjects, insertableOids, insertableMeta);
      forall j :: 0 <= j < |ms| ==> 0 < |ms[j].deletes| + |ms[j].inserts| <= ChunkSize
  {
    if |deletedObjects| + |insertedObjects| > ChunkSize {
      var n := ChunkedMessagesSplit(deletedObjects, insertedObjects, insertableOids, insertableMeta);
    }
  }

  /** When the delta is larger than one chunk, every record is delete-only
      or insert-only, and the delete-only records come first. */
  lemma MessagesOrder(deletedObjects: seq<Entry>, insertedObjects: seq<Entry>,
                      insertableOids: seq<Oid>, insertableMeta: seq<Meta>)
    requires |deletedObjects| + |insertedObjects| > ChunkSize
    ensures var ms := Messages(deletedObjects, insertedObjects, insertableOids, insertableMeta);
      && (forall j :: 0 <= j < |ms| ==> ms[j].deletes == [] || ms[j].inserts == [])
      && (forall j1, j2 :: 0 <= j1 < j2 < |ms| && ms[j1].deletes == [] ==> ms[j2].deletes == [])
  {
    var n := ChunkedMessagesSplit(deletedObjects, insertedObjects, insertableOids, insertableMeta);
  }

  /** When the delta is larger than one chunk, there are
      ceil(|deleted| / CHUNK_SIZE) + ceil(|inserted| / CHUNK_SIZE) records. */
  lemma MessagesCount(deletedObjects: seq<Entry>, insertedObjects: seq<Entry>,
                      insertableOids: seq<Oid>, insertableMeta: seq<Meta>)
    requires |deletedObjects| + |insertedObjects| > ChunkSize
    ensures |Messages(deletedObjects, insertedObjects, insertableOids, insertableMeta)|
      == (|deletedObjects| + ChunkSize - 1) / ChunkSize + (|insertedObjects| + ChunkSize - 1) / ChunkSize
  {
    var n := ChunkedMessagesSplit(deletedObjects, insertedObjects, insertableOids, insertableMeta);
  }

  /** Concatenating the records' deletes gives back the deleted oids in
      order, and likewise for the inserts. */
  lemma MessagesConcat(deletedObjects: seq<Entry>, insertedObjects: seq<Entry>,
                       insertableOids: seq<Oid>, insertableMeta: seq<Meta>)
    ensures var ms := Messages(deletedObjects, insertedObjects, insertableOids, insertableMeta);
      AllDeletes(ms) == OidsOf(deletedObjects) && AllInserts(ms) == OidsOf(insertedObjects)
  {
    var ms := Messages(deletedObjects, insertedObjects, insertableOids, insertableMeta);
    if |deletedObjects| + |insertedObjects| > ChunkSize {
      var dms := ChunkMessages(Chunks(deletedObjects, 0), true, insertableOids, insertableMeta);
      var ims := ChunkMessages(Chunks(insertedObjects, 0), false, insertableOids, insertableMeta);
      ChunksShape(deletedObjects, 0);
      ChunksShape(insertedObjects, 0);
      AllOfChunkMessages(Chunks(deletedObjects, 0), true, insertableOids, insertableMeta);
      AllOfChunkMessages(Chunks(insertedObjects, 0), false, insertableOids, insertableMeta);
      AllAppend(dms, ims);
      if deletedObjects == [] { assert OidsOf(deletedObjects) == []; }
      if insertedObjects == [] { assert OidsOf(insertedObjects) == []; }
    } else if |deletedObjects| + |insertedObjects| > 0 {
      assert ms[1..] == [];
    } else {
      assert OidsOf(deletedObjects) == [] && OidsOf(insertedObjects) == [];
    }
  }

  /** Every oid a record lists has a data entry, and the data holds nothing
      else. */
  ghost predicate Complete(m: Message)
  {
    && (forall o :: o in m.deletes ==> o in m.data)
    && (forall o :: o in m.inserts ==> o in m.data)
    && (forall o :: o in m.data ==> o in m.deletes || o in m.inserts)
  }

  lemma {:induction false} ChunkElements<T>(s: seq<T>, c: seq<T>, x: T)
    requires c in Chunks(s, 0) && x in c
    ensures x in s
  {
    ChunksShape(s, 0);
    FlattenHas(Chunks(s, 0), c, x);
  }

  lemma {:induction false} FlattenHas<T>(ss: seq<seq<T>>, c: seq<T>, x: T)
    requires c in ss && x in c
    ensures x in Flatten(ss)
  {
    if ss[0] != c {
      FlattenHas(ss[1..], c, x);
    }
  }

  /** A record built from deleted and inserted pairs is complete when the
      inserted pairs' oids are among the insertable oids. */
  lemma ConstructMessageComplete(deletedObjects: seq<Entry>, insertedObjects: seq<Entry>,
                                 insertableOids: seq<Oid>, insertableMeta: seq<Meta>)
    requires |insertableOids| == |insertableMeta|
    requires forall e :: e in insertedObjects ==> e.1 in insertableOids
    ensures Complete(ConstructMessage(deletedObjects, insertedObjects, insertableOids, insertableMeta))
  {
    var m := ConstructMessage(deletedObjects, insertedObjects, insertableOids, insertableMeta);
    MessageData(deletedObjects, insertedObjects, insertableOids, insertableMeta);
    forall o | o in m.inserts ensures o in insertableOids {
      var k :| 0 <= k < |m.inserts| && m.inserts[k] == o;
      assert insertedObjects[k] in insertedObjects;
    }
  }

  /** Every record `_generate_messages` yields is `_construct_message` of
      some deleted pairs and some inserted pairs taken from the delta. */
  lemma MessageAt(deletedObjects: seq<Entry>, insertedObjects: seq<Entry>,
                  insertableOids: seq<Oid>, insertableMeta: seq<Meta>, j: nat)
    returns (dc: seq<Entry>, ic: seq<Entry>)
    requires j < |Messages(deletedObjects, insertedObjects, insertableOids, insertableMeta)|
    ensures Messages(deletedObjects, insertedObjects, insertableOids, insertableMeta)[j]
      == ConstructMessage(dc, ic, insertableOids, insertableMeta)
    ensures forall e :: e in dc ==> e in deletedObjects
    ensures forall e :: e in ic ==> e in insertedObjects
  {
    if |deletedObjects| + |insertedObjects| > ChunkSize {
      var dms := ChunkMessages(Chunks(deletedObjects, 0), true, insertableOids, insertableMeta);
      var ims := ChunkMessages(Chunks(insertedObjects, 0), false, insertableOids, insertableMeta);
      assert Messages(deletedObjects, insertedObjects, insertableOids, insertableMeta) == dms + ims;
      dc, ic := SplitMessageAt(deletedObjects, insertedObjects, insertableOids, insertableMeta, j);
    } else {
      dc, ic := deletedObjects, insertedObjects;
    }
  }

  /** The `j`-th record of the chunked delete records followed by the
      chunked insert records is the record of a delete chunk or of an
      insert chunk. */
  lemma SplitMessageAt(deletedObjects: seq<Entry>, insertedObjects: seq<Entry>,
                       insertableOids: seq<Oid>, insertableMeta: seq<Meta>, j: nat)
    returns (dc: seq<Entry>, ic: seq<Entry>)
    requires j < |ChunkMessages(Chunks(deletedObjects, 0), true, insertableOids, insertableMeta)|
               + |ChunkMessages(Chunks(insertedObjects, 0), false, insertableOids, insertableMeta)|
    ensures (ChunkMessages(Chunks(deletedObjects, 0), true, insertableOids, insertableMeta)
             + ChunkMessages(Chunks(insertedObjects, 0), false, insertableOids, insertableMeta))[j]
      == ConstructMessage(dc, ic, insertableOids, insertableMeta)
    ensures forall e :: e in dc ==> e in deletedObjects
    ensures forall e :: e in ic ==> e in insertedObjects
  {
    var dms := ChunkMessages(Chunks(deletedObjects, 0), true, insertableOids, insertableMeta);
    var ims := ChunkMessages(Chunks(insertedObjects, 0), false, insertableOids, insertableMeta);
    if j < |dms| {
      var c := ChunkedMessageAt(deletedObjects, true, insertableOids, insertableMeta, j);
      assert ChunkMessage(c, true, insertableOids, insertableMeta) == ConstructMessage(c, [], insertableOids, insertableMeta);
      assert (dms + ims)[j] == dms[j];
      dc, ic := c, [];
    } else {
      var c := ChunkedMessageAt(insertedObjects, false, insertableOids, insertableMeta, j - |dms|);
      assert ChunkMessage(c, false, insertableOids, insertableMeta) == ConstructMessage([], c, insertableOids, insertableMeta);
      assert (dms + ims)[j] == ims[j - |dms|];
      dc, ic := [], c;
    }
  }

  /** The `j`-th record of one chunked half is the record of a chunk drawn
      from that half. */
  lemma ChunkedMessageAt(objects: seq<Entry>, asDeletes: bool,
                         insertableOids: seq<Oid>, insertableMeta: seq<Meta>, j: nat)
    returns (c: seq<Entry>)
    requires j < |Chunks(objects, 0)|
    ensures ChunkMessages(Chunks(objects, 0), asDeletes, insertableOids, insertableMeta)[j]
      == ChunkMessage(c, asDeletes, insertableOids, insertableMeta)
    ensures forall e :: e in c ==> e in objects
  {
    var chunks := Chunks(objects, 0);
    ChunkMessagesAt(chunks, asDeletes, insertableOids, insertableMeta);
    c := chunks[j];
    assert c in chunks;
    forall e | e in c ensures e in objects {
      ChunkElements(objects, c, e);
    }
  }

  /** When every inserted pair's oid is among the insertable oids, every
      record is complete. */
  lemma MessagesComplete(deletedObjects: seq<Entry>, insertedObjects: seq<Entry>,
                         insertableOids: seq<Oid>, insertableMeta: seq<Meta>)
    requires |insertableOids| == |insertableMeta|
    requires forall e :: e in insertedObjects ==> e.1 in insertableOids
    ensures forall m :: m in Messages(deletedObjects, insertedObjects, insertableOids, insertableMeta) ==> Complete(m)
  {
    var ms := Messages(deletedObjects, insertedObjects, insertableOids, insertableMeta);
    forall j | 0 <= j < |ms| ensures Complete(ms[j]) {
      var dc, ic := MessageAt(deletedObjects, insertedObjects, insertableOids, insertableMeta, j);
      ConstructMessageComplete(dc, ic, insertableOids, insertableMeta);
    }
  }

  /** In every record, an inserted oid that is among the insertable oids maps
      to the insertable metadata of that oid. */
  lemma MessagesInsertData(deletedObjects: seq<Entry>, insertedObjects: seq<Entry>,
                           insertableOids: seq<Oid>, insertableMeta: seq<Meta>)
    requires |insertableOids| == |insertableMeta|
    ensures forall m, o ::
      (m in Messages(deletedObjects, insertedObjects, insertableOids, insertableMeta)
       && o in m.inserts && o in insertableOids) ==>
        o in m.data && (o, m.data[o]) in Zip(insertableOids, insertableMeta)
  {
    var ms := Messages(deletedObjects, insertedObjects, insertableOids, insertableMeta);
    forall j, o | 0 <= j < |ms| && o in ms[j].inserts && o in insertableOids
      ensures o in ms[j].data && (o, ms[j].data[o]) in Zip(insertableOids, insertableMeta)
    {
      var dc, ic := MessageAt(deletedObjects, insertedObjects, insertableOids, insertableMeta, j);
      MessageData(dc, ic, insertableOids, insertableMeta);
    }
  }

  /** The record maps `o` to the `{'path': p}` record of a deleted pair `(p, o)`. */
  ghost predicate DeletedOidNamed(m: Message, o: Oid, deletedObjects: seq<Entry>)
  {
    o in m.data && exists p :: (p, o) in deletedObjects && m.data[o] == Uri(p)
  }

  /** In every record, a deleted oid that the record does not also insert
      from the insertable oids maps to the `{'path': p}` record of a deleted
      pair with that oid. */
  lemma MessagesDeleteData(deletedObjects: seq<Entry>, insertedObjects: seq<Entry>,
                           insertableOids: seq<Oid>, insertableMeta: seq<Meta>)
    requires |insertableOids| == |insertableMeta|
    ensures forall m, o ::
      (m in Messages(deletedObjects, insertedObjects, insertableOids, insertableMeta)
       && o in m.deletes && !(o in m.inserts && o in insertableOids)) ==>
        DeletedOidNamed(m, o, deletedObjects)
  {
    var ms := Messages(deletedObjects, insertedObjects, insertableOids, insertableMeta);
    forall m, o | m in ms && o in m.deletes && !(o in m.inserts && o in insertableOids)
      ensures DeletedOidNamed(m, o, deletedObjects)
    {
      var j :| 0 <= j < |ms| && ms[j] == m;
      var dc, ic := MessageAt(deletedObjects, insertedObjects, insertableOids, insertableMeta, j);
      MessageData(dc, ic, insertableOids, insertableMeta);
      var p :| (p, o) in dc && m.data[o] == Uri(p);
      assert (p, o) in deletedObjects;
    }
  }

  /** One turn of the chunk loop: the record of the slice at `i` moves from
      the records still to come to the records built. */
  lemma ChunkLoopStep(objects: seq<Entry>, i: nat, asDeletes: bool, insertableOids: seq<Oid>, insertableMeta: seq<Meta>,
                      msgs: seq<Message>, m: Message)
    requires i < |objects|
    requires m == ChunkMessage(objects[i..Min(i + ChunkSize, |objects|)], asDeletes, insertableOids, insertableMeta)
    ensures msgs + ChunkMessages(Chunks(objects, i), asDeletes, insertableOids, insertableMeta)
      == (msgs + [m]) + ChunkMessages(Chunks(objects, i + ChunkSize), asDeletes, insertableOids, insertableMeta)
  {
    var chunk := objects[i..Min(i + ChunkSize, |objects|)];
    var rest := Chunks(objects, i + ChunkSize);
    var later := ChunkMessages(rest, asDeletes, insertableOids, insertableMeta);
    assert Chunks(objects, i) == [chunk] + rest;
    assert ([chunk] + rest)[0] == chunk && ([chunk] + rest)[1..] == rest;
    assert ChunkMessages([chunk] + rest, asDeletes, insertableOids, insertableMeta) == [m] + later;
    assert msgs + ([m] + later) == (msgs + [m]) + later;
  }

  /** One `for i in xrange(0, len(objects), CHUNK_SIZE)` loop of
      `_generate_messages`: a record per slice, delete-only or insert-only. */
  method ChunkLoop(objects: seq<Entry>, asDeletes: bool, insertableOids: seq<Oid>, insertableMeta: seq<Meta>)
    returns (msgs: seq<Message>)
    ensures msgs == ChunkMessages(Chunks(objects, 0), asDeletes, insertableOids, insertableMeta)
  {
    msgs := [];
    var i: nat := 0;
    while i < |objects|
      invariant msgs + ChunkMessages(Chunks(objects, i), asDeletes, insertableOids, insertableMeta)
        == ChunkMessages(Chunks(objects, 0), asDeletes, insertableOids, insertableMeta)
      decreases |objects| - i
    {
      var chunk := objects[i..Min(i + ChunkSize, |objects|)];
      var m := if asDeletes then ConstructMessage(chunk, [], insertableOids, insertableMeta)
               else ConstructMessage([], chunk, insertableOids, insertableMeta);
      ChunkLoopStep(objects, i, asDeletes, insertableOids, insertableMeta, msgs, m);
      msgs := msgs + [m];
      i := i + ChunkSize;
    }
  }

  /** MessageFactory._generate_messages, building the list of records that
      the generator yields: delete-only chunks then insert-only chunks when
      the delta exceeds CHUNK_SIZE, else one mixed record unless it is empty. */
  method GenerateMessages(deletedObjects: seq<Entry>, insertedObjects: seq<Entry>,
                          insertableOids: seq<Oid>, insertableMeta: seq<Meta>) returns (msgs: seq<Message>)
    ensures msgs == Messages(deletedObjects, insertedObjects, insertableOids, insertableMeta)
  {
    msgs := [];
    if |deletedObjects| + |insertedObjects| > ChunkSize {
      var deleteMsgs := ChunkLoop(deletedObjects, true, insertableOids, insertableMeta);
      var insertMsgs := ChunkLoop(insertedObjects, false, insertableOids, insertableMeta);
      msgs := deleteMsgs + insertMsgs;
    } else if |deletedObjects| + |insertedObjects| > 0 {
      msgs := [ConstructMessage(deletedObjects, insertedObjects, insertableOids, insertableMeta)];
    }
  }

  // ---------------------------------------------------------------------
  // Freezing set iteration order
  // ---------------------------------------------------------------------

  /** `r` lists every element of `s` exactly once, in some order. */
  ghost predicate Enumerates(r: seq<Entry>, s: set<Entry>)
  {
    && (forall i, j :: 0 <= i < j < |r| ==> r[i] != r[j])
    && (forall e :: e in r <==> e in s)
  }

  /** `tuple(s)` for a set: an arbitrary order, fixed once taken. */
  method Freeze(s: set<Entry>) returns (r: seq<Entry>)
    ensures Enumerates(r, s)
  {
    r := [];
    var rest := s;
    while rest != {}
      invariant rest <= s
      invariant forall e :: e in r <==> e in s && e !in rest
      invariant forall i, j :: 0 <= i < j < |r| ==> r[i] != r[j]
      decreases rest
    {
      var e :| e in rest;
      r := r + [e];
      rest := rest - {e};
    }
  }

  /** The first two elements of a sequence, where it has them, are in it. */
  lemma HeadIn(r: seq<Entry>)
    ensures |r| > 0 ==> r[0] in r
    ensures |r| > 1 ==> r[1] in r
  {
  }

  lemma EnumeratesEmpty(r: seq<Entry>)
    requires Enumerates(r, {})
    ensures r == []
  {
    HeadIn(r);
  }

  lemma EnumeratesSingleton(r: seq<Entry>, e: Entry)
    requires Enumerates(r, {e})
    ensures r == [e]
  {
    assert e in r;
    HeadIn(r);
  }

  // ---------------------------------------------------------------------
  // Batches: what replace and update emit for one batch of paths
  // ---------------------------------------------------------------------

  /** When every inserted pair comes from the batch `zip(paths, oids)`,
      every record is complete. */
  lemma BatchMessagesComplete(deletedObjects: seq<Entry>, insertedObjects: seq<Entry>,
                              paths: seq<Path>, oids: seq<Oid>, metas: seq<Meta>)
    requires |oids| == |metas|
    requires forall e :: e in insertedObjects ==> e in Zip(paths, oids)
    ensures forall m :: m in Messages(deletedObjects, insertedObjects, oids, metas) ==> Complete(m)
  {
    forall e | e in insertedObjects ensures e.1 in oids {
      var z := Zip(paths, oids);
      var i :| 0 <= i < |z| && z[i] == e;
    }
    MessagesComplete(deletedObjects, insertedObjects, oids, metas);
  }

  /** Every oid a message inserts for an inserted pair `(p, o)` comes with
      a record whose 'path' key names `p`. */
  ghost predicate InsertsNamePaths(msgs: seq<Message>, insertedObjects: seq<Entry>)
  {
    forall m, p, o :: (m in msgs && (p, o) in insertedObjects && o in m.inserts) ==>
      o in m.data && PathKey in m.data[o] && m.data[o][PathKey] == Str(p)
  }

  /** For any batch of records, each naming the path at its index and with
      distinct oids, the record an inserted oid maps to names the path of
      the inserted pair. */
  lemma InsertedRecordsNamePaths(merged: seq<Meta>, paths: seq<Path>, oidOf: Meta -> Oid,
                                 deletedObjects: seq<Entry>, insertedObjects: seq<Entry>)
    requires InjectiveOn(oidOf, merged)
    requires |merged| <= |paths|
    requires forall i :: 0 <= i < |merged| ==> PathKey in merged[i] && merged[i][PathKey] == Str(paths[i])
    requires forall e :: e in insertedObjects ==> e in Zip(paths, GenerateOids(oidOf, merged))
    ensures InsertsNamePaths(Messages(deletedObjects, insertedObjects, GenerateOids(oidOf, merged), merged),
                             insertedObjects)
  {
    var oids := GenerateOids(oidOf, merged);
    MessagesInsertData(deletedObjects, insertedObjects, oids, merged);
    forall m, p, o | m in Messages(deletedObjects, insertedObjects, oids, merged) && (p, o) in insertedObjects && o in m.inserts
      ensures o in m.data && PathKey in m.data[o] && m.data[o][PathKey] == Str(p)
    {
      ZipOidIn(paths, oids, p, o);
      OidNamesPath(merged, paths, oidOf, p, o, m.data[o]);
    }
  }

  lemma ZipOidIn(paths: seq<Path>, oids: seq<Oid>, p: Path, o: Oid)
    requires (p, o) in Zip(paths, oids)
    ensures o in oids
  {
    var z := Zip(paths, oids);
    var i :| 0 <= i < |z| && z[i] == (p, o);
  }

  /** With distinct oids in the batch, the record paired with the oid of an
      insert pair `(p, o)` is the record at p's index, which names `p`. */
  lemma OidNamesPath(merged: seq<Meta>, paths: seq<Path>, oidOf: Meta -> Oid, p: Path, o: Oid, r: Meta)
    requires InjectiveOn(oidOf, merged)
    requires |merged| <= |paths|
    requires forall i :: 0 <= i < |merged| ==> PathKey in merged[i] && merged[i][PathKey] == Str(paths[i])
    requires (p, o) in Zip(paths, GenerateOids(oidOf, merged))
    requires (o, r) in Zip(GenerateOids(oidOf, merged), merged)
    ensures PathKey in r && r[PathKey] == Str(p)
  {
    var oids := GenerateOids(oidOf, merged);
    var z := Zip(paths, oids);
    var i :| 0 <= i < |z| && z[i] == (p, o);
    var z2 := Zip(oids, merged);
    var j :| 0 <= j < |z2| && z2[j] == (o, r);
    assert oidOf(merged[i]) == oidOf(merged[j]);
  }

  /** When the batch's merged records have distinct oids, the record an
      inserted oid maps to is the merged metadata of its own path, so its
      'path' key names that path. */
  lemma InsertedRecordsCarryPath(insertableMeta: seq<Meta>, insertablePaths: seq<Path>, oidOf: Meta -> Oid,
                                 deletedObjects: seq<Entry>, insertedObjects: seq<Entry>)
    requires forall e :: e in insertedObjects ==>
      e in Zip(insertablePaths, GenerateOids(oidOf, MergedMetadata(insertableMeta, insertablePaths)))
    ensures forall m ::
      m in Messages(deletedObjects, insertedObjects, GenerateOids(oidOf, MergedMetadata(insertableMeta, insertablePaths)),
                    MergedMetadata(insertableMeta, insertablePaths))
      ==> Complete(m)
    ensures InjectiveOn(oidOf, MergedMetadata(insertableMeta, insertablePaths)) ==>
      InsertsNamePaths(Messages(deletedObjects, insertedObjects,
                                GenerateOids(oidOf, MergedMetadata(insertableMeta, insertablePaths)),
                                MergedMetadata(insertableMeta, insertablePaths)),
                       insertedObjects)
  {
    var merged := MergedMetadata(insertableMeta, insertablePaths);
    var oids := GenerateOids(oidOf, merged);
    BatchMessagesComplete(deletedObjects, insertedObjects, insertablePaths, oids, merged);
    if InjectiveOn(oidOf, merged) {
      MergedMetadataHasPath(insertableMeta, insertablePaths);
      InsertedRecordsNamePaths(merged, insertablePaths, oidOf, deletedObjects, insertedObjects);
    }
  }

  /** A batch without a repeated path is a state with unique paths. */
  lemma BatchUniquePaths(batch: seq<Entry>)
    requires DistinctPaths(batch)
    ensures UniquePaths(set e | e in batch)
  {
    forall a, b | a in batch && b in batch && a.0 == b.0 ensures a == b {
      var i :| 0 <= i < |batch| && batch[i] == a;
      var j :| 0 <= j < |batch| && batch[j] == b;
      assert i == j || i < j || j < i;
    }
  }

  /** Distinct paths in a batch give distinct paths in its pairs. */
  lemma ZipDistinctPaths(paths: seq<Path>, oids: seq<Oid>)
    requires forall i, j :: 0 <= i < j < |paths| ==> paths[i] != paths[j]
    ensures DistinctPaths(Zip(paths, oids))
  {
  }

  /** An update with no paths changes nothing and emits nothing. */
  lemma EmptyUpdateEmitsNothing(current: set<Entry>, oidOf: Meta -> Oid,
                                deletedObjects: seq<Entry>, insertedObjects: seq<Entry>)
    requires Enumerates(deletedObjects, Delta(current, Updated(current, [], [])).0)
    requires Enumerates(insertedObjects, Delta(current, Updated(current, [], [])).1)
    ensures Updated(current, [], []) == current
    ensures Messages(deletedObjects, insertedObjects, GenerateOids(oidOf, MergedMetadata([], [])),
                     MergedMetadata([], [])) == []
  {
    var next := Updated(current, [], []);
    assert next == current by {
      forall e | e in current ensures e in next {
        assert e.0 !in MaskedPaths([], []);
      }
    }
    EnumeratesEmpty(deletedObjects);
    EnumeratesEmpty(insertedObjects);
  }

  /** Replacing the state with itself reports an empty delta and emits
      nothing, so a second `replace` with the same snapshot is silent. */
  lemma ReplaceIdempotent(state: set<Entry>, deletedObjects: seq<Entry>, insertedObjects: seq<Entry>,
                          insertableOids: seq<Oid>, insertableMeta: seq<Meta>)
    requires Enumerates(deletedObjects, Delta(state, state).0)
    requires Enumerates(insertedObjects, Delta(state, state).1)
    ensures Delta(state, state) == ({}, {})
    ensures Messages(deletedObjects, insertedObjects, insertableOids, insertableMeta) == []
  {
    EnumeratesEmpty(deletedObjects);
    EnumeratesEmpty(insertedObjects);
  }

  /** The batch of one path `p` with stat record `st`: its merged record is
      `st` with the path added, and its single pair carries that record's oid. */
  lemma SinglePathBatch(oidOf: Meta -> Oid, p: Path, st: Meta)
    ensures MergedMetadata([st], [p]) == [st[PathKey := Str(p)]]
    ensures Zip([p], GenerateOids(oidOf, MergedMetadata([st], [p]))) == [(p, oidOf(st[PathKey := Str(p)]))]
  {
    var merged := MergedMetadata([st], [p]);
    MergedMetadataHasPath([st], [p]);
    assert merged[0] == st[PathKey := Str(p)];
  }

  /** The record for one inserted pair and nothing deleted. */
  lemma InsertOnlyRecord(p: Path, o: Oid, meta: Meta)
    ensures Messages([], [(p, o)], [o], [meta]) == [Message([], [o], map[o := meta])]
  {
    assert OidsOf([(p, o)]) == [o];
    assert Zip([o], [meta]) == [(o, meta)];
    assert KeepInserted([(o, meta)], [o]) == [(o, meta)] by {
      assert [(o, meta)][..0] == [];
    }
    assert DeletedData([]) == [];
    assert [] + [(o, meta)] == [(o, meta)];
    assert ToMap([(o, meta)]) == map[o := meta] by {
      assert [(o, meta)][..0] == [];
    }
  }

  /** The record for one deleted pair and one inserted pair. */
  lemma RenameRecord(a: Path, oa: Oid, b: Path, ob: Oid, meta: Meta)
    ensures Messages([(a, oa)], [(b, ob)], [ob], [meta])
      == [Message([oa], [ob], map[oa := Uri(a), ob := meta])]
  {
    RenameData(a, oa, b, ob, meta);
    assert Messages([(a, oa)], [(b, ob)], [ob], [meta]) == [ConstructMessage([(a, oa)], [(b, ob)], [ob], [meta])];
  }

  /** `_construct_message` of one deleted and one inserted pair. */
  lemma RenameData(a: Path, oa: Oid, b: Path, ob: Oid, meta: Meta)
    ensures ConstructMessage([(a, oa)], [(b, ob)], [ob], [meta])
      == Message([oa], [ob], map[oa := Uri(a), ob := meta])
  {
    assert OidsOf([(a, oa)]) == [oa];
    assert OidsOf([(b, ob)]) == [ob];
    assert Zip([ob], [meta]) == [(ob, meta)];
    assert KeepInserted([(ob, meta)], [ob]) == [(ob, meta)] by {
      assert [(ob, meta)][..0] == [];
    }
    assert DeletedData([(a, oa)]) == [(oa, Uri(a))];
    assert [(oa, Uri(a))] + [(ob, meta)] == [(oa, Uri(a)), (ob, meta)];
    TwoPairMap(oa, Uri(a), ob, meta);
  }

  /** `dict([(k1, v1), (k2, v2)])`. */
  lemma TwoPairMap(k1: Oid, v1: Meta, k2: Oid, v2: Meta)
    ensures ToMap([(k1, v1), (k2, v2)]) == map[k1 := v1, k2 := v2]
  {
    var pairs := [(k1, v1), (k2, v2)];
    assert pairs[..1] == [(k1, v1)];
    assert pairs[..1][..0] == [];
    assert ToMap(pairs[..1]) == map[k1 := v1];
  }

  /** Deleting the only path and inserting another replaces its pair. */
  lemma RenameState(a: Path, oa: Oid, b: Path, ob: Oid)
    requires a != b
    ensures Updated({(a, oa)}, [a], [(b, ob)]) == {(b, ob)}
    ensures Delta({(a, oa)}, {(b, ob)}) == ({(a, oa)}, {(b, ob)})
  {
    var next := Updated({(a, oa)}, [a], [(b, ob)]);
    assert a in MaskedPaths([a], [(b, ob)]);
    assert (a, oa) !in next;
    assert (a, oa) != (b, ob);
    assert Delta({(a, oa)}, {(b, ob)}).0 == {(a, oa)};
    assert Delta({(a, oa)}, {(b, ob)}).1 == {(b, ob)};
  }

  /** The first file at a path: an update of an empty repository with one
      inserted path emits one record that inserts the new oid and carries
      the stat record with its path added. */
  lemma FirstInsertEmitsOneRecord(oidOf: Meta -> Oid, p: Path, st: Meta,
                                  deletedObjects: seq<Entry>, insertedObjects: seq<Entry>)
    requires var oids := GenerateOids(oidOf, MergedMetadata([st], [p]));
      Enumerates(deletedObjects, Delta({}, Updated({}, [], Zip([p], oids))).0)
    requires var oids := GenerateOids(oidOf, MergedMetadata([st], [p]));
      Enumerates(insertedObjects, Delta({}, Updated({}, [], Zip([p], oids))).1)
    ensures var meta := st[PathKey := Str(p)];
      var o := oidOf(meta);
      && Updated({}, [], Zip([p], GenerateOids(oidOf, MergedMetadata([st], [p])))) == {(p, o)}
      && Messages(deletedObjects, insertedObjects, GenerateOids(oidOf, MergedMetadata([st], [p])),
                  MergedMetadata([st], [p]))
         == [Message([], [o], map[o := meta])]
  {
    SinglePathBatch(oidOf, p, st);
    var meta := st[PathKey := Str(p)];
    var o := oidOf(meta);
    assert GenerateOids(oidOf, [meta]) == [o];
    var next := Updated({}, [], [(p, o)]);
    assert next == {(p, o)};
    assert Delta({}, next).0 == {};
    assert Delta({}, next).1 == {(p, o)};
    EnumeratesEmpty(deletedObjects);
    EnumeratesSingleton(insertedObjects, (p, o));
    InsertOnlyRecord(p, o, meta);
  }

  /** A rename of the only file: the old pair is deleted, the new one is
      inserted, and one record carries both, the deleted oid mapped to the
      old path's `{'path': a}` record. */
  lemma RenameEmitsOneRecord(oidOf: Meta -> Oid, a: Path, b: Path, ma: Meta, st: Meta,
                             deletedObjects: seq<Entry>, insertedObjects: seq<Entry>)
    requires InjectiveOn(oidOf, [ma, st[PathKey := Str(b)]])
    requires a != b
    requires PathKey in ma && ma[PathKey] == Str(a)
    requires var oids := GenerateOids(oidOf, MergedMetadata([st], [b]));
      Enumerates(deletedObjects, Delta({(a, oidOf(ma))}, Updated({(a, oidOf(ma))}, [a], Zip([b], oids))).0)
    requires var oids := GenerateOids(oidOf, MergedMetadata([st], [b]));
      Enumerates(insertedObjects, Delta({(a, oidOf(ma))}, Updated({(a, oidOf(ma))}, [a], Zip([b], oids))).1)
    ensures var meta := st[PathKey := Str(b)];
      var oa := oidOf(ma);
      var ob := oidOf(meta);
      && oa != ob
      && Updated({(a, oa)}, [a], Zip([b], GenerateOids(oidOf, MergedMetadata([st], [b])))) == {(b, ob)}
      && Messages(deletedObjects, insertedObjects, GenerateOids(oidOf, MergedMetadata([st], [b])),
                  MergedMetadata([st], [b]))
         == [Message([oa], [ob], map[oa := Uri(a), ob := meta])]
  {
    SinglePathBatch(oidOf, b, st);
    var meta := st[PathKey := Str(b)];
    var oa := oidOf(ma);
    var ob := oidOf(meta);
    assert meta != ma by {
      assert meta[PathKey] == Str(b);
    }
    assert oa != ob by {
      assert [ma, meta][0] == ma && [ma, meta][1] == meta;
    }
    assert GenerateOids(oidOf, [meta]) == [ob];
    RenameState(a, oa, b, ob);
    EnumeratesSingleton(deletedObjects, (a, oa));
    EnumeratesSingleton(insertedObjects, (b, ob));
    RenameRecord(a, oa, b, ob, meta);
  }

  // ---------------------------------------------------------------------
  // MessageFactory
  // ---------------------------------------------------------------------

  class MessageFactory {
    const portName: string
    /** `sha1(repr(meta)).hexdigest()`, left uninterpreted. */
    const oidOf: Meta -> Oid
    const repository: Repository

    constructor(portName: string, oidOf: Meta -> Oid)
      ensures this.portName == portName && this.oidOf == oidOf
      ensures fresh(repository) && repository.repo == {}
    {
      this.portName := portName;
      this.oidOf := oidOf;
      repository := new Repository();
    }

    /** Reconciles a full snapshot of paths and their metadata. */
    method Replace(paths: seq<Path>, metadata: seq<Meta>)
      returns (msgs: seq<Message>, ghost deletedObjects: seq<Entry>, ghost insertedObjects: seq<Entry>)
      modifies repository
      ensures var merged := MergedMetadata(metadata, paths);
        var oids := GenerateOids(oidOf, merged);
        && repository.repo == (set e | e in Zip(paths, oids))
        && Enumerates(deletedObjects, Delta(old(repository.repo), repository.repo).0)
        && Enumerates(insertedObjects, Delta(old(repository.repo), repository.repo).1)
        && msgs == Messages(deletedObjects, insertedObjects, oids, merged)
      ensures forall m :: m in msgs ==> Complete(m)
      ensures InjectiveOn(oidOf, MergedMetadata(metadata, paths)) ==>
        InsertsNamePaths(msgs, insertedObjects)
      ensures (forall i, j :: 0 <= i < j < |paths| ==> paths[i] != paths[j]) ==> UniquePaths(repository.repo)
    {
      var mergedMetadata := MergedMetadata(metadata, paths);
      var oids := GenerateOids(oidOf, mergedMetadata);
      var batch := Zip(paths, oids);
      var deleted, inserted := repository.Replace(set e | e in batch);
      var d := Freeze(deleted);
      var i := Freeze(inserted);
      deletedObjects, insertedObjects := d, i;
      msgs := GenerateMessages(d, i, oids, mergedMetadata);
      assert forall e :: e in i ==> e in batch;
      InsertedRecordsCarryPath(metadata, paths, oidOf, d, i);
      if forall i, j :: 0 <= i < j < |paths| ==> paths[i] != paths[j] {
        ZipDistinctPaths(paths, oids);
        BatchUniquePaths(batch);
      }
    }

    /** Reconciles deleted paths and inserted paths with their metadata. */
    method Update(deletablePaths: seq<Path>, insertablePaths: seq<Path>, insertableMeta: seq<Meta>)
      returns (msgs: seq<Message>, ghost deletedObjects: seq<Entry>, ghost insertedObjects: seq<Entry>)
      modifies repository
      ensures var merged := MergedMetadata(insertableMeta, insertablePaths);
        var oids := GenerateOids(oidOf, merged);
        && repository.repo == Updated(old(repository.repo), deletablePaths, Zip(insertablePaths, oids))
        && Enumerates(deletedObjects, Delta(old(repository.repo), repository.repo).0)
        && Enumerates(insertedObjects, Delta(old(repository.repo), repository.repo).1)
        && msgs == Messages(deletedObjects, insertedObjects, oids, merged)
      ensures forall m :: m in msgs ==> Complete(m)
      ensures InjectiveOn(oidOf, MergedMetadata(insertableMeta, insertablePaths)) ==>
        InsertsNamePaths(msgs, insertedObjects)
      ensures UniquePaths(old(repository.repo))
        && (forall i, j :: 0 <= i < j < |insertablePaths| ==> insertablePaths[i] != insertablePaths[j])
        ==> UniquePaths(repository.repo)
    {
      var mergedMetadata := MergedMetadata(insertableMeta, insertablePaths);
      var oids := GenerateOids(oidOf, mergedMetadata);
      var batch := Zip(insertablePaths, oids);
      ghost var current := repository.repo;
      var deleted, inserted := repository.Update(deletablePaths, batch);
      var d := Freeze(deleted);
      var i := Freeze(inserted);
      deletedObjects, insertedObjects := d, i;
      msgs := GenerateMessages(d, i, oids, mergedMetadata);
      assert forall e :: e in i ==> e in batch;
      InsertedRecordsCarryPath(insertableMeta, insertablePaths, oidOf, d, i);
      if UniquePaths(current)
        && forall i, j :: 0 <= i < j < |insertablePaths| ==> insertablePaths[i] != insertablePaths[j]
      {
        ZipDistinctPaths(insertablePaths, oids);
        UpdatePreservesUniquePaths(current, deletablePaths, batch);
      }
    }
  }
}
