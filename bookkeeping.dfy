/** The task bookkeeping of the main window, as values: each handler of the window is a
    function from the old bookkeeping to the new one, and the lemmas here are what those
    handlers keep true. The class in module `Window` performs the same updates in place. */
module Bookkeeping {
  import opened Wrappers
  import opened Compressor

  /** The abstract state of one image's task. */
  datatype TaskState = Waiting | Processing | Completed | Failed

  predicate Terminal(st: TaskState) {
    st == Completed || st == Failed
  }

  /** One entry of the window's item table: the input path and its task's state. */
  datatype Item = Item(path: string, state: TaskState)

  /** The bookkeeping fields of the window: the item table in insertion order, the
      thread table, the completed results in completion order, the three counters and
      whether batch download is enabled. */
  datatype Board = Board(
    items: seq<Item>,
    threads: map<string, Thread>,
    completed: seq<CompressResult>,
    pendingCount: int,
    processingCount: int,
    completedCount: int,
    batchEnabled: bool)

  /** The bookkeeping of a fresh window, and after clearing it. */
  const Empty: Board := Board([], map[], [], 0, 0, 0, false)

  /** The keys of the item table, in insertion order. */
  function Keys(items: seq<Item>): seq<string> {
    seq(|items|, i requires 0 <= i < |items| => items[i].path)
  }

  predicate Distinct(ks: seq<string>) {
    forall i, j :: 0 <= i < j < |ks| ==> ks[i] != ks[j]
  }

  /** Where `p` sits in the item table (the dictionary lookup). */
  function IndexOf(items: seq<Item>, p: string): (r: Option<nat>)
    ensures r.Some? ==> r.value < |items| && items[r.value].path == p
    ensures r.None? <==> p !in Keys(items)
  {
    if items == [] then None
    else
      assert Keys(items) == [items[0].path] + Keys(items[1..]);
      if items[0].path == p then Some(0)
      else match IndexOf(items[1..], p)
        case None => None
        case Some(k) => Some(k + 1)
  }

  /** The paths of the tasks in state `st`, in table order. */
  function PathsIn(items: seq<Item>, st: TaskState): seq<string> {
    if items == [] then []
    else (if items[0].state == st then [items[0].path] else []) + PathsIn(items[1..], st)
  }

  /** The original paths of a sequence of results. */
  function ResultPaths(rs: seq<CompressResult>): seq<string> {
    if rs == [] then [] else ResultPaths(rs[..|rs| - 1]) + [rs[|rs| - 1].originalPath]
  }

  /** The pending and processing counters equal the number of tasks in those states. */
  predicate Counted(b: Board) {
    && b.pendingCount == |PathsIn(b.items, Waiting)|
    && b.processingCount == |PathsIn(b.items, Processing)|
  }

  /** One recorded result per completed task, counted by the completed counter, and batch
      download enabled exactly when something completed. */
  predicate Recorded(b: Board) {
    && b.completedCount == |b.completed|
    && multiset(ResultPaths(b.completed)) == multiset(PathsIn(b.items, Completed))
    && (b.batchEnabled <==> b.completedCount > 0)
  }

  /** A task has a thread exactly when it has been started, and the thread is its own. */
  predicate Threaded(b: Board) {
    && (forall i :: 0 <= i < |b.items| ==> (b.items[i].path in b.threads <==> b.items[i].state != Waiting))
    && (forall p :: p in b.threads ==> p in Keys(b.items) && b.threads[p] == Thread(p))
  }

  /** The invariant of the window's bookkeeping. */
  predicate Consistent(b: Board) {
    Distinct(Keys(b.items)) && Counted(b) && Recorded(b) && Threaded(b)
  }

  // ---------------------------------------------------------------- admission

  /** Admitting one selected path: a known path is skipped, a new one is appended as
      waiting and counted as pending. */
  function Admit(b: Board, p: string): Board {
    if p in Keys(b.items) then b
    else b.(items := b.items + [Item(p, Waiting)], pendingCount := b.pendingCount + 1)
  }

  /** Admitting the selected paths one after the other. */
  function AdmitAll(b: Board, ps: seq<string>): Board {
    if ps == [] then b else Admit(AdmitAll(b, ps[..|ps| - 1]), ps[|ps| - 1])
  }

  // ---------------------------------------------------------------- starting

  function StartedItem(it: Item): Item {
    if it.state == Waiting then it.(state := Processing) else it
  }

  function StartAll(items: seq<Item>): (r: seq<Item>)
    ensures |r| == |items|
  {
    if items == [] then [] else [StartedItem(items[0])] + StartAll(items[1..])
  }

  /** One new thread for every path of `ps`. */
  function ThreadsFor(ps: seq<string>): map<string, Thread> {
    map p | p in ps :: Thread(p)
  }

  /** Starting every waiting task: one thread each, and each moves from pending to
      processing. */
  function Start(b: Board): Board {
    var waiting := PathsIn(b.items, Waiting);
    b.(items := StartAll(b.items),
       threads := b.threads + ThreadsFor(waiting),
       pendingCount := b.pendingCount - |waiting|,
       processingCount := b.processingCount + |waiting|)
  }

  /** Adding a selection of images: admit each, then start, unless nothing was selected. */
  function AddImages(b: Board, ps: seq<string>): Board {
    if ps == [] then b else Start(AdmitAll(b, ps))
  }

  // ---------------------------------------------------------------- finishing

  /** Applying a worker's finished event: an unknown path is ignored; otherwise the task
      becomes completed (its result is recorded) or failed, it no longer counts as
      processing, and batch download is enabled once anything completed. The task's
      previous state is not looked at. */
  function Finish(b: Board, p: string, r: Option<CompressResult>): Board {
    match IndexOf(b.items, p)
    case None => b
    case Some(k) =>
      var count := if r.Some? then b.completedCount + 1 else b.completedCount;
      b.(items := b.items[k := b.items[k].(state := if r.Some? then Completed else Failed)],
         completed := if r.Some? then b.completed + [r.value] else b.completed,
         completedCount := count,
         processingCount := b.processingCount - 1,
         batchEnabled := if count > 0 then true else b.batchEnabled)
  }

  /** A finished event that belongs to a running task and, on success, carries that
      task's own result: what every worker of the window delivers. */
  predicate CanFinish(b: Board, p: string, r: Option<CompressResult>) {
    Item(p, Processing) in b.items && (r.Some? ==> r.value.originalPath == p)
  }

  // ---------------------------------------------------------------- lookup

  /** The index of the first result whose original path is `p`. */
  function FirstMatch(rs: seq<CompressResult>, p: string): (r: Option<nat>)
    ensures r.Some? ==> (r.value < |rs| && rs[r.value].originalPath == p
      && forall j :: 0 <= j < r.value ==> rs[j].originalPath != p)
    ensures r.None? <==> forall j :: 0 <= j < |rs| ==> rs[j].originalPath != p
  {
    if rs == [] then None
    else if rs[0].originalPath == p then Some(0)
    else match FirstMatch(rs[1..], p)
      case None => None
      case Some(k) => Some(k + 1)
  }

  /** The result a single download uses for `p`, if any. */
  function Lookup(rs: seq<CompressResult>, p: string): Option<CompressResult> {
    match FirstMatch(rs, p)
    case None => None
    case Some(k) => Some(rs[k])
  }

  // ---------------------------------------------------------------- facts about PathsIn

  lemma {:induction false} PathsInAppend(a: seq<Item>, b: seq<Item>, st: TaskState)
    ensures PathsIn(a + b, st) == PathsIn(a, st) + PathsIn(b, st)
  {
    if a == [] {
      assert a + b == b;
    } else {
      assert (a + b)[1..] == a[1..] + b;
      PathsInAppend(a[1..], b, st);
    }
  }

  lemma PathsInSingle(x: Item, st: TaskState)
    ensures PathsIn([x], st) == if x.state == st then [x.path] else []
  {
    assert [x][1..] == [];
  }

  lemma {:induction false} PathsInMember(s: seq<Item>, st: TaskState, p: string)
    ensures p in PathsIn(s, st) <==> Item(p, st) in s
  {
    if s != [] {
      PathsInMember(s[1..], st, p);
      assert s == [s[0]] + s[1..];
    }
  }

  lemma PathsInSplit(s: seq<Item>, k: nat, st: TaskState)
    requires k < |s|
    ensures PathsIn(s, st) == PathsIn(s[..k], st) + PathsIn([s[k]], st) + PathsIn(s[k + 1..], st)
  {
    assert s == s[..k] + [s[k]] + s[k + 1..];
    PathsInAppend(s[..k] + [s[k]], s[k + 1..], st);
    PathsInAppend(s[..k], [s[k]], st);
  }

  /** Changing the state of one entry changes each state's count by at most one. */
  lemma CountUpdate(s: seq<Item>, k: nat, t: TaskState, st: TaskState)
    requires k < |s|
    ensures |PathsIn(s[k := s[k].(state := t)], st)|
      == |PathsIn(s, st)| - (if s[k].state == st then 1 else 0) + (if t == st then 1 else 0)
  {
    var s' := s[k := s[k].(state := t)];
    PathsInSplit(s, k, st);
    PathsInSplit(s', k, st);
    assert s'[..k] == s[..k] && s'[k + 1..] == s[k + 1..];
    PathsInSingle(s[k], st);
    PathsInSingle(s'[k], st);
  }

  /** Changing the state of one entry between two states other than `st` leaves the
      paths in `st` as they were. */
  lemma PathsInUnaffected(s: seq<Item>, k: nat, t: TaskState, st: TaskState)
    requires k < |s| && s[k].state != st && t != st
    ensures PathsIn(s[k := s[k].(state := t)], st) == PathsIn(s, st)
  {
    var s' := s[k := s[k].(state := t)];
    PathsInSplit(s, k, st);
    PathsInSplit(s', k, st);
    assert s'[..k] == s[..k] && s'[k + 1..] == s[k + 1..];
    PathsInSingle(s[k], st);
    PathsInSingle(s'[k], st);
  }

  /** Changing the state of one entry to `st` adds its path to the paths in `st`. */
  lemma PathsInEnter(s: seq<Item>, k: nat, st: TaskState)
    requires k < |s| && s[k].state != st
    ensures multiset(PathsIn(s[k := s[k].(state := st)], st)) == multiset(PathsIn(s, st)) + multiset{s[k].path}
  {
    var s' := s[k := s[k].(state := st)];
    PathsInSplit(s, k, st);
    PathsInSplit(s', k, st);
    assert s'[..k] == s[..k] && s'[k + 1..] == s[k + 1..];
    PathsInSingle(s[k], st);
    PathsInSingle(s'[k], st);
  }

  /** Every task is in exactly one of the four states. */
  lemma {:induction false} StatesPartition(s: seq<Item>)
    ensures |PathsIn(s, Waiting)| + |PathsIn(s, Processing)| + |PathsIn(s, Completed)| + |PathsIn(s, Failed)| == |s|
  {
    if s != [] {
      StatesPartition(s[1..]);
    }
  }

  lemma KeysAppend(s: seq<Item>, x: Item)
    ensures Keys(s + [x]) == Keys(s) + [x.path]
  {
  }

  lemma KeysUpdate(s: seq<Item>, k: nat, t: TaskState)
    requires k < |s|
    ensures Keys(s[k := s[k].(state := t)]) == Keys(s)
  {
  }

  // ---------------------------------------------------------------- admission lemmas

  lemma AppendDistinct(ks: seq<string>, p: string)
    requires Distinct(ks) && p !in ks
    ensures Distinct(ks + [p])
  {
    var ks' := ks + [p];
    forall i, j | 0 <= i < j < |ks'| ensures ks'[i] != ks'[j] {
      if j == |ks| { assert ks'[i] == ks[i]; } else { assert ks'[i] == ks[i] && ks'[j] == ks[j]; }
    }
  }

  /** Admission skips a known path and appends a new one as waiting; nothing else
      changes. */
  lemma AdmitShape(b: Board, p: string)
    ensures p in Keys(b.items) ==> Admit(b, p) == b
    ensures p !in Keys(b.items) ==> Admit(b, p) == b.(items := b.items + [Item(p, Waiting)], pendingCount := b.pendingCount + 1)
    ensures Keys(Admit(b, p).items) == Keys(b.items) + (if p in Keys(b.items) then [] else [p])
    ensures b.items <= Admit(b, p).items
  {
    if p !in Keys(b.items) {
      KeysAppend(b.items, Item(p, Waiting));
    } else {
      assert Keys(b.items) + [] == Keys(b.items);
    }
  }

  /** Admitting a new path counts one more pending task. */
  lemma AdmitCounted(b: Board, p: string)
    requires Counted(b) && p !in Keys(b.items)
    ensures Counted(Admit(b, p))
    ensures |PathsIn(Admit(b, p).items, Waiting)| == |PathsIn(b.items, Waiting)| + 1
  {
    var x := Item(p, Waiting);
    PathsInAppend(b.items, [x], Waiting);
    PathsInAppend(b.items, [x], Processing);
    PathsInSingle(x, Waiting);
    PathsInSingle(x, Processing);
  }

  /** Admitting a new path records nothing. */
  lemma AdmitRecorded(b: Board, p: string)
    requires Recorded(b) && p !in Keys(b.items)
    ensures Recorded(Admit(b, p))
  {
    var x := Item(p, Waiting);
    PathsInAppend(b.items, [x], Completed);
    PathsInSingle(x, Completed);
    assert PathsIn(b.items + [x], Completed) == PathsIn(b.items, Completed);
  }

  /** Admission keeps the bookkeeping consistent. */
  lemma AdmitConsistent(b: Board, p: string)
    requires Consistent(b)
    ensures Consistent(Admit(b, p))
  {
    if p !in Keys(b.items) {
      AdmitShape(b, p);
      AppendDistinct(Keys(b.items), p);
      AdmitCounted(b, p);
      AdmitRecorded(b, p);
      AdmitThreaded(b, p);
    }
  }

  lemma AdmitThreaded(b: Board, p: string)
    requires Threaded(b) && p !in Keys(b.items)
    ensures Threaded(Admit(b, p))
  {
    var s := b.items + [Item(p, Waiting)];
    KeysAppend(b.items, Item(p, Waiting));
    assert p !in b.threads;
    forall i | 0 <= i < |s| ensures (s[i].path in b.threads <==> s[i].state != Waiting) {
      if i < |b.items| { assert s[i] == b.items[i]; }
    }
  }

  /** Admitting a selection keeps the bookkeeping consistent. */
  lemma {:induction false} AdmitAllConsistent(b: Board, ps: seq<string>)
    requires Consistent(b)
    ensures Consistent(AdmitAll(b, ps))
  {
    if ps != [] {
      AdmitAllConsistent(b, ps[..|ps| - 1]);
      AdmitConsistent(AdmitAll(b, ps[..|ps| - 1]), ps[|ps| - 1]);
    }
  }

  /** Admitting a selection keeps the counters right. */
  lemma {:induction false} AdmitAllCounted(b: Board, ps: seq<string>)
    requires Counted(b)
    ensures Counted(AdmitAll(b, ps))
  {
    if ps != [] {
      var m := AdmitAll(b, ps[..|ps| - 1]);
      AdmitAllCounted(b, ps[..|ps| - 1]);
      if ps[|ps| - 1] !in Keys(m.items) {
        AdmitCounted(m, ps[|ps| - 1]);
      }
    }
  }

  /** Admitting a selection keeps the existing tasks and changes neither threads, nor
      results, nor the batch flag. */
  lemma {:induction false} AdmitAllKeeps(b: Board, ps: seq<string>)
    ensures var a := AdmitAll(b, ps);
      && b.items <= a.items
      && a.threads == b.threads && a.completed == b.completed && a.batchEnabled == b.batchEnabled
  {
    if ps != [] {
      AdmitAllKeeps(b, ps[..|ps| - 1]);
      AdmitShape(AdmitAll(b, ps[..|ps| - 1]), ps[|ps| - 1]);
    }
  }

  /** After admitting a selection every selected path is known. */
  lemma {:induction false} AdmitAllCovers(b: Board, ps: seq<string>)
    ensures forall p :: p in ps ==> p in Keys(AdmitAll(b, ps).items)
  {
    if ps != [] {
      var init := ps[..|ps| - 1];
      var last := ps[|ps| - 1];
      AdmitAllCovers(b, init);
      var a0 := AdmitAll(b, init);
      AdmitShape(a0, last);
      assert ps == init + [last];
      forall q | q in ps ensures q in Keys(AdmitAll(b, ps).items) {
        if q != last {
          assert q in init;
          assert q in Keys(a0.items);
        }
      }
    }
  }

  /** Every task appended by admitting a selection is waiting and has a selected path. */
  lemma {:induction false} AdmitAllAppends(b: Board, ps: seq<string>)
    ensures var a := AdmitAll(b, ps);
      forall i :: |b.items| <= i < |a.items| ==> a.items[i].state == Waiting && a.items[i].path in ps
  {
    if ps != [] {
      var init := ps[..|ps| - 1];
      var last := ps[|ps| - 1];
      AdmitAllAppends(b, init);
      AdmitAllKeeps(b, init);
      var a0 := AdmitAll(b, init);
      AdmitShape(a0, last);
      var a := AdmitAll(b, ps);
      assert ps == init + [last];
      forall i | |b.items| <= i < |a.items| ensures a.items[i].state == Waiting && a.items[i].path in ps {
        if i < |a0.items| {
          assert a.items[i] == a0.items[i];
          assert a0.items[i].path in init;
        }
      }
    }
  }

  /** A selection of paths that are all listed already changes nothing. */
  lemma {:induction false} AdmitAllKnown(b: Board, ps: seq<string>)
    requires forall p :: p in ps ==> p in Keys(b.items)
    ensures AdmitAll(b, ps) == b
  {
    if ps != [] {
      var init := ps[..|ps| - 1];
      forall q | q in init ensures q in Keys(b.items) {
        assert q in ps;
      }
      AdmitAllKnown(b, init);
      assert ps[|ps| - 1] in ps;
    }
  }

  // ---------------------------------------------------------------- start lemmas

  lemma {:induction false} StartAllAt(s: seq<Item>)
    ensures |StartAll(s)| == |s|
    ensures forall i :: 0 <= i < |s| ==> StartAll(s)[i] == StartedItem(s[i])
  {
    if s != [] {
      StartAllAt(s[1..]);
    }
  }

  lemma {:induction false} StartAllAppend(a: seq<Item>, b: seq<Item>)
    ensures StartAll(a + b) == StartAll(a) + StartAll(b)
  {
    if a == [] {
      assert a + b == b;
    } else {
      assert (a + b)[1..] == a[1..] + b;
      StartAllAppend(a[1..], b);
    }
  }

  /** Starting leaves no task waiting. */
  lemma {:induction false} StartAllNoneWaiting(s: seq<Item>)
    ensures PathsIn(StartAll(s), Waiting) == []
  {
    if s != [] {
      StartAllNoneWaiting(s[1..]);
      assert StartAll(s)[1..] == StartAll(s[1..]);
    }
  }

  /** Starting moves every waiting path to processing. */
  lemma {:induction false} StartAllProcessing(s: seq<Item>)
    ensures multiset(PathsIn(StartAll(s), Processing)) == multiset(PathsIn(s, Processing)) + multiset(PathsIn(s, Waiting))
  {
    if s != [] {
      StartAllProcessing(s[1..]);
      assert StartAll(s)[1..] == StartAll(s[1..]);
    }
  }

  /** Starting leaves completed and failed tasks as they were. */
  lemma {:induction false} StartAllKeepsTerminal(s: seq<Item>, st: TaskState)
    requires Terminal(st)
    ensures PathsIn(StartAll(s), st) == PathsIn(s, st)
  {
    if s != [] {
      StartAllKeepsTerminal(s[1..], st);
      assert StartAll(s)[1..] == StartAll(s[1..]);
    }
  }

  /** Starting keeps the bookkeeping consistent. */
  lemma StartConsistent(b: Board)
    requires Consistent(b)
    ensures Consistent(Start(b))
  {
    StartAllAt(b.items);
    assert Keys(Start(b).items) == Keys(b.items);
    StartCounted(b);
    StartAllKeepsTerminal(b.items, Completed);
    StartThreaded(b);
  }

  /** Starting keeps the table's keys, leaves no task waiting, moves every pending task
      to processing, and leaves every task that was not waiting as it was. */
  lemma StartEffects(b: Board)
    requires Counted(b)
    ensures var a := Start(b);
      && a.pendingCount == 0
      && a.processingCount == b.processingCount + b.pendingCount
      && Keys(a.items) == Keys(b.items)
      && (forall i :: 0 <= i < |b.items| ==> a.items[i].state != Waiting)
      && (forall i :: 0 <= i < |b.items| && b.items[i].state != Waiting ==> a.items[i] == b.items[i])
  {
    StartAllAt(b.items);
    assert Keys(Start(b).items) == Keys(b.items);
  }

  lemma StartCounted(b: Board)
    requires Counted(b)
    ensures Counted(Start(b)) && Start(b).pendingCount == 0
  {
    var a := Start(b);
    StartAllNoneWaiting(b.items);
    StartAllProcessing(b.items);
    assert |PathsIn(a.items, Processing)| == |multiset(PathsIn(a.items, Processing))|;
  }

  lemma StartThreaded(b: Board)
    requires Threaded(b)
    ensures Threaded(Start(b))
  {
    var a := Start(b);
    var waiting := PathsIn(b.items, Waiting);
    StartAllAt(b.items);
    assert Keys(a.items) == Keys(b.items);
    forall i | 0 <= i < |a.items| ensures a.items[i].path in a.threads {
      if b.items[i].state == Waiting {
        PathsInMember(b.items, Waiting, b.items[i].path);
        assert b.items[i] == Item(b.items[i].path, Waiting);
      }
    }
    forall p | p in a.threads ensures p in Keys(a.items) && a.threads[p] == Thread(p) {
      if p in waiting {
        PathsInMember(b.items, Waiting, p);
        var i :| 0 <= i < |b.items| && b.items[i] == Item(p, Waiting);
        assert Keys(b.items)[i] == p;
      }
    }
  }

  /** Adding a selection keeps the bookkeeping consistent. */
  lemma AddImagesConsistent(b: Board, ps: seq<string>)
    requires Consistent(b)
    ensures Consistent(AddImages(b, ps))
  {
    if ps != [] {
      AdmitAllConsistent(b, ps);
      StartConsistent(AdmitAll(b, ps));
    }
  }

  /** Adding a non-empty selection leaves every selected path known and started, and
      no task waiting or pending. */
  lemma AddImagesStarts(b: Board, ps: seq<string>)
    requires Counted(b)
    ensures var a := AddImages(b, ps);
      && (forall p :: p in ps ==> p in Keys(a.items))
      && (ps != [] ==> a.pendingCount == 0 && forall i :: 0 <= i < |a.items| ==> a.items[i].state != Waiting)
  {
    if ps != [] {
      var m := AdmitAll(b, ps);
      AdmitAllCounted(b, ps);
      AdmitAllCovers(b, ps);
      StartEffects(m);
    }
  }

  /** On any board, adding a selection lists every selected path, and after a non-empty
      selection no task is left waiting. */
  lemma AddImagesCovers(b: Board, ps: seq<string>)
    ensures var a := AddImages(b, ps);
      && (forall p :: p in ps ==> p in Keys(a.items))
      && (ps != [] ==> forall i :: 0 <= i < |a.items| ==> a.items[i].state != Waiting)
  {
    if ps != [] {
      var m := AdmitAll(b, ps);
      AdmitAllCovers(b, ps);
      StartAllAt(m.items);
      assert Keys(Start(m).items) == Keys(m.items);
    }
  }

  /** Starting when no task is waiting changes nothing. */
  lemma StartIdle(b: Board)
    requires forall i :: 0 <= i < |b.items| ==> b.items[i].state != Waiting
    ensures Start(b) == b
  {
    StartAllAt(b.items);
    assert StartAll(b.items) == b.items;
    if PathsIn(b.items, Waiting) != [] {
      var p := PathsIn(b.items, Waiting)[0];
      PathsInMember(b.items, Waiting, p);
      assert false;
    }
    assert b.threads + ThreadsFor([]) == b.threads;
  }

  /** Adding the same selection twice is the same as adding it once: every path is
      listed after the first time and nothing is left waiting, so the second time admits
      nothing and starts nothing. */
  lemma AddImagesIdempotent(b: Board, ps: seq<string>)
    ensures AddImages(AddImages(b, ps), ps) == AddImages(b, ps)
  {
    if ps != [] {
      var a := AddImages(b, ps);
      AddImagesCovers(b, ps);
      AdmitAllKnown(a, ps);
      StartIdle(a);
    }
  }

  /** In a consistent window the three counters and the failed tasks account for every
      listed item. */
  lemma CountersPartition(b: Board)
    requires Consistent(b)
    ensures b.pendingCount + b.processingCount + b.completedCount + |PathsIn(b.items, Failed)| == |b.items|
  {
    StatesPartition(b.items);
    ResultPathsAt(b.completed);
    assert |PathsIn(b.items, Completed)| == |multiset(PathsIn(b.items, Completed))|;
    assert |b.completed| == |multiset(ResultPaths(b.completed))|;
  }

  // ---------------------------------------------------------------- finish lemmas

  lemma IndexOfDistinct(s: seq<Item>, p: string, st: TaskState)
    requires Distinct(Keys(s)) && Item(p, st) in s
    ensures IndexOf(s, p).Some? && s[IndexOf(s, p).value] == Item(p, st)
  {
    var j :| 0 <= j < |s| && s[j] == Item(p, st);
    assert Keys(s)[j] == p;
    var k := IndexOf(s, p).value;
    assert Keys(s)[k] == p;
  }

  /** A finished event for a running task with its own result keeps the bookkeeping
      consistent. */
  lemma FinishConsistent(b: Board, p: string, r: Option<CompressResult>)
    requires Consistent(b) && CanFinish(b, p, r)
    ensures Consistent(Finish(b, p, r))
  {
    IndexOfDistinct(b.items, p, Processing);
    var k := IndexOf(b.items, p).value;
    var t := if r.Some? then Completed else Failed;
    FinishAt(b, p, r, k);
    KeysUpdate(b.items, k, t);
    FinishCounted(b, k, t);
    FinishRecorded(b, p, r, k);
    FinishThreaded(b, k, t);
  }

  /** A finished event for a known task changes that task alone: the table keeps its
      keys, and the task becomes completed or failed. */
  lemma FinishChangesOne(b: Board, p: string, r: Option<CompressResult>)
    requires Distinct(Keys(b.items)) && p in Keys(b.items)
    ensures var a := Finish(b, p, r);
      && Keys(a.items) == Keys(b.items)
      && Item(p, if r.Some? then Completed else Failed) in a.items
      && (forall i :: 0 <= i < |b.items| && b.items[i].path != p ==> a.items[i] == b.items[i])
  {
    var k := IndexOf(b.items, p).value;
    var t := if r.Some? then Completed else Failed;
    FinishAt(b, p, r, k);
    KeysUpdate(b.items, k, t);
    assert Finish(b, p, r).items[k] == Item(p, t);
  }

  lemma FinishCounted(b: Board, k: nat, t: TaskState)
    requires Counted(b) && k < |b.items| && b.items[k].state == Processing && Terminal(t)
    ensures var s := b.items[k := b.items[k].(state := t)];
      |PathsIn(s, Waiting)| == b.pendingCount && |PathsIn(s, Processing)| == b.processingCount - 1
  {
    CountUpdate(b.items, k, t, Waiting);
    CountUpdate(b.items, k, t, Processing);
  }

  /** The fields of the bookkeeping after a finished event for the task at `k`. */
  lemma FinishAt(b: Board, p: string, r: Option<CompressResult>, k: nat)
    requires IndexOf(b.items, p) == Some(k)
    ensures var a := Finish(b, p, r);
      var count := if r.Some? then b.completedCount + 1 else b.completedCount;
      && a.items == b.items[k := b.items[k].(state := if r.Some? then Completed else Failed)]
      && a.completed == (if r.Some? then b.completed + [r.value] else b.completed)
      && a.completedCount == count
      && a.processingCount == b.processingCount - 1
      && a.pendingCount == b.pendingCount
      && a.threads == b.threads
      && a.batchEnabled == (count > 0 || b.batchEnabled)
  {
  }

  lemma FinishRecorded(b: Board, p: string, r: Option<CompressResult>, k: nat)
    requires Recorded(b) && k < |b.items| && b.items[k] == Item(p, Processing)
    requires IndexOf(b.items, p) == Some(k)
    requires r.Some? ==> r.value.originalPath == p
    ensures Recorded(Finish(b, p, r))
  {
    FinishAt(b, p, r, k);
    if r.Some? {
      ResultsGrow(b.items, b.completed, k, r.value);
    } else {
      PathsInUnaffected(b.items, k, Failed, Completed);
    }
  }

  /** Completing entry `k` and appending its result keeps the recorded paths equal to
      the completed ones. */
  lemma ResultsGrow(s: seq<Item>, rs: seq<CompressResult>, k: nat, res: CompressResult)
    requires k < |s| && s[k].state != Completed && res.originalPath == s[k].path
    requires multiset(ResultPaths(rs)) == multiset(PathsIn(s, Completed))
    ensures multiset(ResultPaths(rs + [res])) == multiset(PathsIn(s[k := s[k].(state := Completed)], Completed))
  {
    PathsInEnter(s, k, Completed);
    assert (rs + [res])[..|rs|] == rs;
  }

  lemma FinishThreaded(b: Board, k: nat, t: TaskState)
    requires Threaded(b) && k < |b.items| && b.items[k].state == Processing && Terminal(t)
    ensures Threaded(b.(items := b.items[k := b.items[k].(state := t)]))
  {
    KeysUpdate(b.items, k, t);
  }

  /** Without the running-task condition the counters drift: a finished event for a
      known task that is not running still decrements the processing counter, so the
      bookkeeping stops being consistent. */
  lemma FinishNotRunningBreaks(b: Board, p: string, r: Option<CompressResult>, st: TaskState)
    requires Consistent(b) && Item(p, st) in b.items && st != Processing
    ensures !Consistent(Finish(b, p, r))
  {
    IndexOfDistinct(b.items, p, st);
    var k := IndexOf(b.items, p).value;
    var t := if r.Some? then Completed else Failed;
    CountUpdate(b.items, k, t, Processing);
  }

  /** A finished event for a path the window does not know changes nothing. */
  lemma FinishUnknownIgnored(b: Board, p: string, r: Option<CompressResult>)
    requires p !in Keys(b.items)
    ensures Finish(b, p, r) == b
  {
  }

  /** Once enabled, batch download stays enabled through admission, starting and
      finishing; after a finish for a known task it is enabled whenever anything has
      completed. Only clearing disables it. */
  lemma BatchFlagMonotone(b: Board, p: string, r: Option<CompressResult>, ps: seq<string>)
    ensures b.batchEnabled ==> (Admit(b, p).batchEnabled && Start(b).batchEnabled
      && AddImages(b, ps).batchEnabled && Finish(b, p, r).batchEnabled)
    ensures p in Keys(b.items) && Finish(b, p, r).completedCount > 0 ==> Finish(b, p, r).batchEnabled
    ensures !Empty.batchEnabled
  {
    if ps != [] {
      AdmitAllFlag(b, ps);
    }
  }

  lemma {:induction false} AdmitAllFlag(b: Board, ps: seq<string>)
    ensures AdmitAll(b, ps).batchEnabled == b.batchEnabled
  {
    if ps != [] {
      AdmitAllFlag(b, ps[..|ps| - 1]);
    }
  }

  /** Clearing leaves an empty, consistent bookkeeping. */
  lemma EmptyConsistent()
    ensures Consistent(Empty)
    ensures Empty.items == [] && Empty.threads == map[] && Empty.completed == []
    ensures Empty.pendingCount == Empty.processingCount == Empty.completedCount == 0
  {
  }

  // ---------------------------------------------------------------- lookup lemmas

  lemma {:induction false} ResultPathsAt(rs: seq<CompressResult>)
    ensures |ResultPaths(rs)| == |rs|
    ensures forall i :: 0 <= i < |rs| ==> ResultPaths(rs)[i] == rs[i].originalPath
  {
    if rs != [] {
      ResultPathsAt(rs[..|rs| - 1]);
    }
  }

  /** On consistent bookkeeping a single download finds a result for `p` exactly when
      the task for `p` completed, and the result found is that task's. */
  lemma LookupFindsCompleted(b: Board, p: string)
    requires Consistent(b)
    ensures Lookup(b.completed, p).Some? <==> Item(p, Completed) in b.items
    ensures Lookup(b.completed, p).Some? ==> Lookup(b.completed, p).value.originalPath == p
  {
    PathsInMember(b.items, Completed, p);
    ResultPathsAt(b.completed);
    var rp := ResultPaths(b.completed);
    assert p in rp <==> p in multiset(rp);
    if FirstMatch(b.completed, p).Some? {
      var k := FirstMatch(b.completed, p).value;
      assert rp[k] == p;
    } else {
      assert p !in rp;
    }
  }
}
