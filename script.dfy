/** The watchdog side of the observer: an event handler that buffers the
    paths of each file-system event and flushes them as one change item onto
    a queue, the initial directory scan, and the per-item stat filtering
    that feeds `MessageFactory.update`. */
module Script {
  import opened Common
  import opened Protocol

  // ---------------------------------------------------------------------
  // Change items and the queue
  // ---------------------------------------------------------------------

  /** One queued item: `(tuple(deletes), tuple(inserts))`. */
  datatype Change = Change(deletes: seq<Path>, inserts: seq<Path>)

  /** The queue between the handler (and the initial scan) and the main loop;
      only `put` is modelled. */
  class ChangesQueue {
    var items: seq<Change>

    constructor()
      ensures items == []
    {
      items := [];
    }

    method Put(item: Change)
      modifies this
      ensures items == old(items) + [item]
    {
      items := items + [item];
    }
  }

  /** A queue that held `q0` and then the items `prev` and gains the items
      `step` holds `q0` and then `prev + step`. */
  lemma QueueGrows(q0: seq<Change>, prev: seq<Change>, step: seq<Change>, before: seq<Change>, after: seq<Change>)
    requires before == q0 + prev && after == before + step
    ensures after == q0 + (prev + step)
  {
  }

  /** What `flush` puts on the queue for the given buffers: one item holding
      both buffers when either is non-empty, and nothing otherwise. */
  function Pending(deletes: seq<Path>, inserts: seq<Path>): (q: seq<Change>)
    ensures |q| <= 1
    ensures q != [] <==> deletes != [] || inserts != []
    ensures forall c :: c in q ==> c == Change(deletes, inserts)
  {
    if |inserts| > 0 || |deletes| > 0 then [Change(deletes, inserts)] else []
  }

  // ---------------------------------------------------------------------
  // Events
  // ---------------------------------------------------------------------

  /** The file events watchdog delivers to the handler. */
  datatype Event =
    | Created(src: Path)
    | Deleted(src: Path)
    | Modified(src: Path)
    | Moved(src: Path, dest: Path)

  /** `event.src_path and match_path(...)`: a path counts for a move when it
      is non-empty and matches the handler's patterns. */
  predicate MovedPathCounts(p: Path, matchPath: (Path, seq<string>) -> bool, patterns: seq<string>): (r: bool)
    ensures p == [] ==> !r
    ensures r ==> matchPath(p, patterns)
  {
    p != [] && matchPath(p, patterns)
  }

  /** The paths an event names. */
  function EventPaths(e: Event): set<Path>
  {
    match e
    case Moved(src, dest) => {src, dest}
    case _ => {e.src}
  }

  /** The paths one event appends to the (deletes, inserts) buffers: at
      most one path to each, only paths the event names; a move deletes its
      source and inserts its destination exactly when each counts, and the
      other events always insert unless deleting and always delete unless
      creating. */
  function Contribution(e: Event, matchPath: (Path, seq<string>) -> bool, patterns: seq<string>): (r: Change)
    ensures |r.deletes| <= 1 && |r.inserts| <= 1
    ensures forall p :: p in r.deletes || p in r.inserts ==> p in EventPaths(e)
    ensures e.Moved? ==>
      && (e.src in r.deletes <==> MovedPathCounts(e.src, matchPath, patterns))
      && (e.dest in r.inserts <==> MovedPathCounts(e.dest, matchPath, patterns))
      && (forall p :: p in r.deletes ==> p == e.src)
      && (forall p :: p in r.inserts ==> p == e.dest)
    ensures !e.Moved? ==>
      && (r.inserts != [] <==> !e.Deleted?)
      && (r.deletes != [] <==> !e.Created?)
  {
    match e
    case Created(src) => Change([], [src])
    case Deleted(src) => Change([src], [])
    case Modified(src) => Change([src], [src])
    case Moved(src, dest) =>
      Change(if MovedPathCounts(src, matchPath, patterns) then [src] else [],
             if MovedPathCounts(dest, matchPath, patterns) then [dest] else [])
  }

  /** From empty buffers, one event queues at most one item, and it queues
      none only for a move neither of whose paths counts; the item holds
      only paths the event names. */
  lemma EventQueuesAtMostOne(e: Event, matchPath: (Path, seq<string>) -> bool, patterns: seq<string>)
    ensures var c := Contribution(e, matchPath, patterns);
      && |Pending(c.deletes, c.inserts)| <= 1
      && (Pending(c.deletes, c.inserts) == [] <==>
            e.Moved? && !MovedPathCounts(e.src, matchPath, patterns)
                     && !MovedPathCounts(e.dest, matchPath, patterns))
      && (forall p :: p in c.deletes || p in c.inserts ==> p in EventPaths(e))
  {
  }

  /** The items the queue gains from a series of events delivered to a
      handler whose buffers start empty (each handler flushes before it
      returns, so every event starts from empty buffers). */
  function Queued(events: seq<Event>, matchPath: (Path, seq<string>) -> bool, patterns: seq<string>): (r: seq<Change>)
    ensures |r| <= |events|
  {
    if events == [] then []
    else
      var c := Contribution(events[|events| - 1], matchPath, patterns);
      Queued(events[..|events| - 1], matchPath, patterns) + Pending(c.deletes, c.inserts)
  }

  /** One more event adds what that event queues from empty buffers. */
  lemma QueuedStep(events: seq<Event>, k: nat, matchPath: (Path, seq<string>) -> bool, patterns: seq<string>)
    requires k < |events|
    ensures var c := Contribution(events[k], matchPath, patterns);
      Queued(events[..k + 1], matchPath, patterns)
        == Queued(events[..k], matchPath, patterns) + Pending([] + c.deletes, [] + c.inserts)
  {
    var c := Contribution(events[k], matchPath, patterns);
    assert events[..k + 1][..k] == events[..k];
    assert [] + c.deletes == c.deletes && [] + c.inserts == c.inserts;
  }

  /** The queue grows by at most one item per event, no item is empty, and
      every queued path is named by some event. */
  lemma {:induction false} QueuedFacts(events: seq<Event>, matchPath: (Path, seq<string>) -> bool, patterns: seq<string>)
    ensures |Queued(events, matchPath, patterns)| <= |events|
    ensures forall c :: c in Queued(events, matchPath, patterns) ==> c.deletes != [] || c.inserts != []
    ensures forall c, p :: c in Queued(events, matchPath, patterns) && (p in c.deletes || p in c.inserts) ==>
      exists k :: 0 <= k < |events| && p in EventPaths(events[k])
  {
    if events != [] {
      var init := events[..|events| - 1];
      var e := events[|events| - 1];
      var c := Contribution(e, matchPath, patterns);
      QueuedFacts(init, matchPath, patterns);
      EventQueuesAtMostOne(e, matchPath, patterns);
      var q := Queued(events, matchPath, patterns);
      assert q == Queued(init, matchPath, patterns) + Pending(c.deletes, c.inserts);
      forall c', p | c' in q && (p in c'.deletes || p in c'.inserts)
        ensures exists k :: 0 <= k < |events| && p in EventPaths(events[k])
      {
        if c' in Queued(init, matchPath, patterns) {
          var k :| 0 <= k < |init| && p in EventPaths(init[k]);
          assert events[k] == init[k];
        } else {
          assert p in EventPaths(events[|events| - 1]);
        }
      }
    }
  }

  /** Every event flushes on its own, so a file created and then deleted
      queues two items, not a net-zero one. */
  lemma CreateThenDeleteQueuesTwo(p: Path, matchPath: (Path, seq<string>) -> bool, patterns: seq<string>)
    ensures Queued([Created(p), Deleted(p)], matchPath, patterns) == [Change([], [p]), Change([p], [])]
  {
    var events := [Created(p), Deleted(p)];
    assert events[..1] == [Created(p)];
    assert events[..1][..0] == [];
    assert Queued([Created(p)], matchPath, patterns) == [] + Pending([], [p]);
    assert Queued(events, matchPath, patterns) == Queued([Created(p)], matchPath, patterns) + Pending([p], []);
  }

  // ---------------------------------------------------------------------
  // EventHandler
  // ---------------------------------------------------------------------

  class EventHandler {
    /** `patterns=[pattern]`; ignore patterns are None and matching is
        case-insensitive, which `matchPath` is taken to include. */
    const patterns: seq<string>
    const matchPath: (Path, seq<string>) -> bool
    const changesQueue: ChangesQueue
    var inserts: seq<Path>
    var deletes: seq<Path>

    constructor(pattern: string, matchPath: (Path, seq<string>) -> bool, changesQueue: ChangesQueue)
      ensures patterns == [pattern] && this.matchPath == matchPath && this.changesQueue == changesQueue
      ensures Idle()
    {
      patterns := [pattern];
      this.matchPath := matchPath;
      this.changesQueue := changesQueue;
      inserts := [];
      deletes := [];
    }

    /** Both buffers are empty. */
    predicate Idle()
      reads this
    {
      inserts == [] && deletes == []
    }

    /** Puts the buffers on the queue when either holds a path, then empties
        both. */
    method Flush()
      modifies this, changesQueue
      ensures Idle()
      ensures changesQueue.items == old(changesQueue.items) + Pending(old(deletes), old(inserts))
    {
      if |inserts| > 0 || |deletes| > 0 {
        changesQueue.Put(Change(deletes, inserts));
      }
      inserts := [];
      deletes := [];
    }

    method OnMoved(src: Path, dest: Path)
      modifies this, changesQueue
      ensures Idle()
      ensures var c := Contribution(Moved(src, dest), matchPath, patterns);
        changesQueue.items == old(changesQueue.items) + Pending(old(deletes) + c.deletes, old(inserts) + c.inserts)
    {
      if src != [] && matchPath(src, patterns) {
        deletes := deletes + [src];
      }
      if dest != [] && matchPath(dest, patterns) {
        inserts := inserts + [dest];
      }
      assert deletes == old(deletes) + Contribution(Moved(src, dest), matchPath, patterns).deletes;
      assert inserts == old(inserts) + Contribution(Moved(src, dest), matchPath, patterns).inserts;
      Flush();
    }

    method OnCreated(src: Path)
      modifies this, changesQueue
      ensures Idle()
      ensures var c := Contribution(Created(src), matchPath, patterns);
        changesQueue.items == old(changesQueue.items) + Pending(old(deletes) + c.deletes, old(inserts) + c.inserts)
    {
      inserts := inserts + [src];
      assert deletes == old(deletes) + [];
      Flush();
    }

    method OnDeleted(src: Path)
      modifies this, changesQueue
      ensures Idle()
      ensures var c := Contribution(Deleted(src), matchPath, patterns);
        changesQueue.items == old(changesQueue.items) + Pending(old(deletes) + c.deletes, old(inserts) + c.inserts)
    {
      deletes := deletes + [src];
      assert inserts == old(inserts) + [];
      Flush();
    }

    method OnModified(src: Path)
      modifies this, changesQueue
      ensures Idle()
      ensures var c := Contribution(Modified(src), matchPath, patterns);
        changesQueue.items == old(changesQueue.items) + Pending(old(deletes) + c.deletes, old(inserts) + c.inserts)
    {
      deletes := deletes + [src];
      inserts := inserts + [src];
      Flush();
    }

    /** Watchdog's dispatch of a series of events to the handler: each event
        goes to its `on_*` method, and the queue gains exactly `Queued`. */
    method Dispatch(events: seq<Event>)
      requires Idle()
      modifies this, changesQueue
      ensures Idle()
      ensures changesQueue.items == old(changesQueue.items) + Queued(events, matchPath, patterns)
    {
      ghost var q0 := changesQueue.items;
      for k := 0 to |events|
        invariant Idle()
        invariant changesQueue.items == q0 + Queued(events[..k], matchPath, patterns)
      {
        ghost var before := changesQueue.items;
        ghost var c := Contribution(events[k], matchPath, patterns);
        QueuedStep(events, k, matchPath, patterns);
        match events[k] {
          case Created(src) => OnCreated(src);
          case Deleted(src) => OnDeleted(src);
          case Modified(src) => OnModified(src);
          case Moved(src, dest) => OnMoved(src, dest);
        }
        QueueGrows(q0, Queued(events[..k], matchPath, patterns), Pending([] + c.deletes, [] + c.inserts),
                   before, changesQueue.items);
      }
      assert events[..|events|] == events;
    }
  }

  // ---------------------------------------------------------------------
  // The observer command: pattern, initial scan, stat filtering
  // ---------------------------------------------------------------------

  /** `posixpath.join(root, f)`: an absolute `f` replaces `root`, otherwise
      a separator is added unless `root` is empty or already ends in one. */
  function JoinPath(root: Path, f: Path): (r: Path)
    ensures |f| <= |r| && r[|r| - |f|..] == f
    ensures f != [] && f[0] == '/' ==> r == f
    ensures (f == [] || f[0] != '/') ==> r[..|r| - |f|] == root || r[..|r| - |f|] == root + "/"
    ensures (f == [] || f[0] != '/') ==> (r[..|r| - |f|] == root <==> root == [] || root[|root| - 1] == '/')
  {
    if f != [] && f[0] == '/' then f
    else if root == [] || root[|root| - 1] == '/' then root + f
    else root + "/" + f
  }

  /** `filter_paths(paths, included_patterns=[pattern])`: the matching paths
      in their order. */
  function FilterPaths(paths: seq<Path>, matchPath: (Path, seq<string>) -> bool, pattern: string): (r: seq<Path>)
    ensures forall p :: p in r <==> p in paths && matchPath(p, [pattern])
    ensures IsSubsequence(r, paths)
    decreases |paths|
  {
    if paths == [] then []
    else
      var init := paths[..|paths| - 1];
      var last := paths[|paths| - 1];
      var r := FilterPaths(init, matchPath, pattern) + (if matchPath(last, [pattern]) then [last] else []);
      assert paths == init + [last];
      assert IsSubsequence(r, paths) by {
        if matchPath(last, [pattern]) {
          var fi := FilterPaths(init, matchPath, pattern);
          assert r[..|r| - 1] == fi;
        } else {
          assert r == FilterPaths(init, matchPath, pattern);
        }
      }
      r
  }

  /** A matching path survives the filter as many times as it occurs, and
      any other path not at all. */
  lemma {:induction false} FilterPathsCounts(paths: seq<Path>, matchPath: (Path, seq<string>) -> bool, pattern: string)
    ensures forall q ::
      multiset(FilterPaths(paths, matchPath, pattern))[q] == if matchPath(q, [pattern]) then multiset(paths)[q] else 0
    decreases |paths|
  {
    if paths != [] {
      var init := paths[..|paths| - 1];
      var last := paths[|paths| - 1];
      FilterPathsCounts(init, matchPath, pattern);
      assert paths == init + [last];
    }
  }

  /** One directory of `os.walk`: its root and the names of its files. */
  type WalkEntry = (Path, seq<Path>)

  function DirPaths(w: WalkEntry): (r: seq<Path>)
    ensures |r| == |w.1| && forall j :: 0 <= j < |r| ==> r[j] == JoinPath(w.0, w.1[j])
  {
    seq(|w.1|, j requires 0 <= j < |w.1| => JoinPath(w.0, w.1[j]))
  }

  /** The items the initial scan queues: per directory, the matching file
      paths as inserts, when there are any. */
  function ScanChanges(walk: seq<WalkEntry>, matchPath: (Path, seq<string>) -> bool, pattern: string): (r: seq<Change>)
    ensures |r| <= |walk|
  {
    if walk == [] then []
    else
      ScanChanges(walk[..|walk| - 1], matchPath, pattern)
        + Pending([], FilterPaths(DirPaths(walk[|walk| - 1]), matchPath, pattern))
  }

  /** One more directory of the walk adds that directory's item, if any. */
  lemma ScanChangesStep(walk: seq<WalkEntry>, k: nat, matchPath: (Path, seq<string>) -> bool, pattern: string)
    requires k < |walk|
    ensures ScanChanges(walk[..k + 1], matchPath, pattern)
      == ScanChanges(walk[..k], matchPath, pattern) + Pending([], FilterPaths(DirPaths(walk[k]), matchPath, pattern))
  {
    assert walk[..k + 1][..k] == walk[..k];
  }

  function AllInsertPaths(cs: seq<Change>): seq<Path>
  {
    if cs == [] then [] else AllInsertPaths(cs[..|cs| - 1]) + cs[|cs| - 1].inserts
  }

  /** All file paths of a walk, directory by directory. */
  function WalkPaths(walk: seq<WalkEntry>): seq<Path>
  {
    if walk == [] then [] else WalkPaths(walk[..|walk| - 1]) + DirPaths(walk[|walk| - 1])
  }

  lemma {:induction false} FilterPathsAppend(a: seq<Path>, b: seq<Path>, matchPath: (Path, seq<string>) -> bool, pattern: string)
    ensures FilterPaths(a + b, matchPath, pattern) == FilterPaths(a, matchPath, pattern) + FilterPaths(b, matchPath, pattern)
    decreases |b|
  {
    if b == [] {
      assert a + b == a;
    } else {
      var bi := b[..|b| - 1];
      var last := b[|b| - 1];
      assert (a + b)[..|a + b| - 1] == a + bi;
      assert (a + b)[|a + b| - 1] == last;
      FilterPathsAppend(a, bi, matchPath, pattern);
    }
  }

  /** The initial scan queues at most one item per directory, each with no
      deletes and a non-empty list of matching paths, and together the items
      insert exactly the matching files of the walk, in walk order. */
  lemma ScanChangesFacts(walk: seq<WalkEntry>, matchPath: (Path, seq<string>) -> bool, pattern: string)
    ensures |ScanChanges(walk, matchPath, pattern)| <= |walk|
    ensures forall c :: c in ScanChanges(walk, matchPath, pattern) ==>
      c.deletes == [] && c.inserts != [] && forall p :: p in c.inserts ==> matchPath(p, [pattern])
    ensures AllInsertPaths(ScanChanges(walk, matchPath, pattern)) == FilterPaths(WalkPaths(walk), matchPath, pattern)
  {
    ScanChangesShape(walk, matchPath, pattern);
    ScanChangesPaths(walk, matchPath, pattern);
  }

  /** Every item of the scan is insert-only, non-empty, and matches the pattern. */
  lemma {:induction false} ScanChangesShape(walk: seq<WalkEntry>, matchPath: (Path, seq<string>) -> bool, pattern: string)
    ensures forall c :: c in ScanChanges(walk, matchPath, pattern) ==>
      c.deletes == [] && c.inserts != [] && forall p :: p in c.inserts ==> matchPath(p, [pattern])
  {
    if walk != [] {
      var init := walk[..|walk| - 1];
      var f := FilterPaths(DirPaths(walk[|walk| - 1]), matchPath, pattern);
      ScanChangesShape(init, matchPath, pattern);
      var prev := ScanChanges(init, matchPath, pattern);
      assert ScanChanges(walk, matchPath, pattern) == prev + Pending([], f);
    }
  }

  /** The scan's inserted paths, in order, are the walk's matching paths. */
  lemma {:induction false} ScanChangesPaths(walk: seq<WalkEntry>, matchPath: (Path, seq<string>) -> bool, pattern: string)
    ensures AllInsertPaths(ScanChanges(walk, matchPath, pattern)) == FilterPaths(WalkPaths(walk), matchPath, pattern)
  {
    if walk != [] {
      var init := walk[..|walk| - 1];
      var dir := DirPaths(walk[|walk| - 1]);
      var f := FilterPaths(dir, matchPath, pattern);
      ScanChangesPaths(init, matchPath, pattern);
      var prev := ScanChanges(init, matchPath, pattern);
      assert ScanChanges(walk, matchPath, pattern) == prev + Pending([], f);
      InsertPathsGrow(prev, f);
      FilterPathsAppend(WalkPaths(init), dir, matchPath, pattern);
    }
  }

  /** Queuing an insert-only item appends its paths to the inserted paths. */
  lemma InsertPathsGrow(prev: seq<Change>, f: seq<Path>)
    ensures AllInsertPaths(prev + Pending([], f)) == AllInsertPaths(prev) + f
  {
    var cs := prev + Pending([], f);
    if f != [] {
      assert cs[..|cs| - 1] == prev;
    } else {
      assert cs == prev;
    }
  }

  /** `os.stat(path)` as a tuple of integers, or None when it raises
      OSError. */
  type Stat = Path -> Option<seq<int>>

  /** `{'stat': tuple(os.stat(path))}`. */
  function StatRecord(st: seq<int>): (r: Meta)
    ensures r.Keys == {"stat"} && r["stat"] == Ints(st)
    ensures PathKey !in r
  {
    map["stat" := Ints(st)]
  }

  /** The paths whose stat succeeds, in their order. */
  function StatOk(paths: seq<Path>, stat: Stat): (r: seq<Path>)
    ensures forall p :: p in r ==> stat(p).Some?
  {
    if paths == [] then []
    else
      StatOk(paths[..|paths| - 1], stat)
        + (if stat(paths[|paths| - 1]).Some? then [paths[|paths| - 1]] else [])
  }

  /** The surviving paths keep their order, and a path survives exactly when
      its stat succeeds. */
  lemma {:induction false} StatOkFacts(paths: seq<Path>, stat: Stat)
    ensures IsSubsequence(StatOk(paths, stat), paths)
    ensures forall p :: p in StatOk(paths, stat) <==> p in paths && stat(p).Some?
  {
    if paths != [] {
      var init := paths[..|paths| - 1];
      var last := paths[|paths| - 1];
      StatOkFacts(init, stat);
      var r := StatOk(paths, stat);
      assert paths == init + [last];
      if stat(last).Some? {
        assert r[..|r| - 1] == StatOk(init, stat);
      } else {
        assert r == StatOk(init, stat);
      }
    }
  }

  /** A path whose stat succeeds survives as many times as it occurs, and
      any other path not at all. */
  lemma {:induction false} StatOkCounts(paths: seq<Path>, stat: Stat)
    ensures forall q :: multiset(StatOk(paths, stat))[q] == if stat(q).Some? then multiset(paths)[q] else 0
  {
    if paths != [] {
      var init := paths[..|paths| - 1];
      var last := paths[|paths| - 1];
      StatOkCounts(init, stat);
      assert paths == init + [last];
    }
  }

  /** The per-path stat records of `paths`. */
  function StatRecords(paths: seq<Path>, stat: Stat): (r: seq<Meta>)
    requires forall p :: p in paths ==> stat(p).Some?
    ensures |r| == |paths|
    ensures forall j :: 0 <= j < |r| ==> r[j].Keys == {"stat"} && r[j]["stat"] == Ints(stat(paths[j]).value)
  {
    seq(|paths|, j requires 0 <= j < |paths| => StatRecord(stat(paths[j]).value))
  }

  class ObserverCommand {
    const query: string
    const nativeQuery: bool

    constructor(query: string, nativeQuery: bool)
      ensures this.query == query && this.nativeQuery == nativeQuery
    {
      this.query := query;
      this.nativeQuery := nativeQuery;
    }

    /** The glob pattern: the query as given for a native query, otherwise
        the query below any directory. */
    function Pattern(): (p: string)
      ensures nativeQuery ==> p == query
      ensures !nativeQuery ==> |p| == |query| + 2 && p[..2] == "*/" && p[2..] == query
    {
      if nativeQuery then query else "*/" + query
    }

    /** The walk over the base directory: one item per directory with
        matching files, inserting them. */
    method InitialScan(walk: seq<WalkEntry>, matchPath: (Path, seq<string>) -> bool, changesQueue: ChangesQueue)
      modifies changesQueue
      ensures changesQueue.items == old(changesQueue.items) + ScanChanges(walk, matchPath, Pattern())
    {
      var pattern := Pattern();
      ghost var q0 := changesQueue.items;
      for k := 0 to |walk|
        invariant changesQueue.items == q0 + ScanChanges(walk[..k], matchPath, pattern)
      {
        ghost var before := changesQueue.items;
        var paths := DirPaths(walk[k]);
        var inserts := FilterPaths(paths, matchPath, pattern);
        if |inserts| > 0 {
          changesQueue.Put(Change([], inserts));
        }
        ScanChangesStep(walk, k, matchPath, pattern);
        QueueGrows(q0, ScanChanges(walk[..k], matchPath, pattern), Pending([], inserts), before, changesQueue.items);
      }
      assert walk[..|walk|] == walk;
    }

    /** Stats every insertable path, keeping the paths whose stat succeeds
        together with their stat records, index by index. */
    method StatFilter(insertablePaths: seq<Path>, stat: Stat)
      returns (insertableMeta: seq<Meta>, insertablePathsOk: seq<Path>)
      ensures insertablePathsOk == StatOk(insertablePaths, stat)
      ensures |insertableMeta| == |insertablePathsOk|
      ensures forall j :: 0 <= j < |insertablePathsOk| ==>
        stat(insertablePathsOk[j]).Some? && insertableMeta[j] == StatRecord(stat(insertablePathsOk[j]).value)
    {
      insertableMeta := [];
      insertablePathsOk := [];
      for k := 0 to |insertablePaths|
        invariant insertablePathsOk == StatOk(insertablePaths[..k], stat)
        invariant |insertableMeta| == |insertablePathsOk|
        invariant forall j :: 0 <= j < |insertablePathsOk| ==>
          stat(insertablePathsOk[j]).Some? && insertableMeta[j] == StatRecord(stat(insertablePathsOk[j]).value)
      {
        var path := insertablePaths[k];
        assert insertablePaths[..k + 1][..k] == insertablePaths[..k];
        match stat(path) {
          case Some(st) =>
            insertableMeta := insertableMeta + [StatRecord(st)];
            insertablePathsOk := insertablePathsOk + [path];
          case None =>
        }
      }
      assert insertablePaths[..|insertablePaths|] == insertablePaths;
    }

    /** One queued item in the main loop: stat the insertable paths and
        update the factory with the survivors and their records. */
    method HandleChange(factory: MessageFactory, item: Change, stat: Stat)
      returns (msgs: seq<Message>, ghost deletedObjects: seq<Entry>, ghost insertedObjects: seq<Entry>)
      modifies factory.repository
      ensures var ok := StatOk(item.inserts, stat);
        var merged := MergedMetadata(StatRecords(ok, stat), ok);
        var oids := GenerateOids(factory.oidOf, merged);
        && factory.repository.repo == Updated(old(factory.repository.repo), item.deletes, Zip(ok, oids))
        && Enumerates(deletedObjects, Delta(old(factory.repository.repo), factory.repository.repo).0)
        && Enumerates(insertedObjects, Delta(old(factory.repository.repo), factory.repository.repo).1)
        && msgs == Messages(deletedObjects, insertedObjects, oids, merged)
      ensures forall m :: m in msgs ==> Complete(m)
    {
      var insertableMeta, insertablePathsOk := StatFilter(item.inserts, stat);
      assert insertableMeta == StatRecords(insertablePathsOk, stat);
      msgs, deletedObjects, insertedObjects := factory.Update(item.deletes, insertablePathsOk, insertableMeta);
    }
  }

  /** Stat filtering keeps paths and records aligned, so the update's
      `zip(insertable_paths, oids)` drops no surviving path: each one gets
      the oid of its own stat record with its path added. */
  lemma AlignedBatchKeepsEveryPath(paths: seq<Path>, stat: Stat, oidOf: Meta -> Oid)
    ensures var ok := StatOk(paths, stat);
      var batch := Zip(ok, GenerateOids(oidOf, MergedMetadata(StatRecords(ok, stat), ok)));
      && |batch| == |ok|
      && forall j :: 0 <= j < |ok| ==>
        batch[j] == (ok[j], oidOf(StatRecord(stat(ok[j]).value)[PathKey := Str(ok[j])]))
  {
    var ok := StatOk(paths, stat);
    var metas := StatRecords(ok, stat);
    var merged := MergedMetadata(metas, ok);
    MergedMetadataHasPath(metas, ok);
    forall j | 0 <= j < |ok|
      ensures merged[j] == StatRecord(stat(ok[j]).value)[PathKey := Str(ok[j])]
    {
      var want := StatRecord(stat(ok[j]).value)[PathKey := Str(ok[j])];
      assert merged[j].Keys == want.Keys;
      forall k | k in want ensures merged[j][k] == want[k] {
        if k != PathKey {
          assert k == "stat";
        }
      }
    }
  }
}
