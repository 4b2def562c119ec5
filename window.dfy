/** The main window's bookkeeping as an object whose handlers update its fields in place.
    Each handler is specified by the function of module `Bookkeeping` it performs on the
    snapshot of the fields, and keeps the window's invariant. */
module Window {
  import opened Wrappers
  import opened Compressor
  import opened Bookkeeping
  import opened ItemStatus

  /** One step of the start loop: handling entry `i` extends the handled prefix by that
      entry, started if it was waiting, and adds its path to the started ones when it
      was waiting. */
  lemma StartStep(s: seq<Item>, i: nat)
    requires i < |s|
    ensures StartAll(s[..i + 1]) == StartAll(s[..i]) + [StartedItem(s[i])]
    ensures s[i].state == Waiting ==> PathsIn(s[..i + 1], Waiting) == PathsIn(s[..i], Waiting) + [s[i].path]
    ensures s[i].state != Waiting ==> PathsIn(s[..i + 1], Waiting) == PathsIn(s[..i], Waiting)
  {
    assert s[..i + 1] == s[..i] + [s[i]];
    StartAllAppend(s[..i], [s[i]]);
    assert StartAll([s[i]]) == [StartedItem(s[i])] by { assert [s[i]][1..] == []; }
    PathsInAppend(s[..i], [s[i]], Waiting);
    PathsInSingle(s[i], Waiting);
    assert PathsIn(s[..i], Waiting) + [] == PathsIn(s[..i], Waiting);
  }

  /** Starting one more thread adds it to the thread table. */
  lemma ThreadsForSnoc(threads: map<string, Thread>, ps: seq<string>, p: string)
    ensures threads + ThreadsFor(ps + [p]) == (threads + ThreadsFor(ps))[p := Thread(p)]
  {
  }

  /** Handling entry `i` of a table whose first `i` entries are handled turns it into a
      table whose first `i + 1` entries are handled. */
  lemma StartPrefixStep(s: seq<Item>, i: nat, cur: seq<Item>)
    requires i < |s| && cur == StartAll(s[..i]) + s[i..]
    ensures |cur| == |s| && cur[i] == s[i]
    ensures cur[i := StartedItem(s[i])] == StartAll(s[..i + 1]) + s[i + 1..]
  {
    StartAllAt(s[..i]);
    StartStep(s, i);
    var next := cur[i := StartedItem(s[i])];
    assert next == StartAll(s[..i]) + [StartedItem(s[i])] + s[i + 1..];
  }

  /** The bookkeeping once the start loop has handled the first `i` entries of the
      table: those are started, the rest are as they were. */
  function StartedUpTo(b: Board, i: nat): Board
    requires i <= |b.items|
  {
    var started := PathsIn(b.items[..i], Waiting);
    b.(items := StartAll(b.items[..i]) + b.items[i..],
       threads := b.threads + ThreadsFor(started),
       pendingCount := b.pendingCount - |started|,
       processingCount := b.processingCount + |started|)
  }

  /** Before the loop nothing is handled; afterwards the table is started as a whole. */
  lemma StartedUpToEnds(b: Board)
    ensures StartedUpTo(b, 0) == b
    ensures StartedUpTo(b, |b.items|) == Start(b)
  {
    assert b.items[..0] == [] && b.items[0..] == b.items;
    assert b.threads + ThreadsFor([]) == b.threads;
    assert b.items[..|b.items|] == b.items && b.items[|b.items|..] == [];
  }

  /** The entry the start loop handles next is still as it was. */
  lemma StartedUpToAt(b: Board, i: nat)
    requires i < |b.items|
    ensures |StartedUpTo(b, i).items| == |b.items| && StartedUpTo(b, i).items[i] == b.items[i]
  {
  }

  /** Handling a waiting entry `i` starts it: it becomes processing, gets a thread, and
      moves from the pending to the processing count. */
  lemma StartedUpToWaiting(b: Board, i: nat)
    requires i < |b.items| && b.items[i].state == Waiting
    ensures var c := StartedUpTo(b, i);
      var it := b.items[i];
      StartedUpTo(b, i + 1) ==
        c.(items := c.items[i := it.(state := Processing)],
           threads := c.threads[it.path := Thread(it.path)],
           pendingCount := c.pendingCount - 1,
           processingCount := c.processingCount + 1)
  {
    var s := b.items;
    var it := s[i];
    var c := StartedUpTo(b, i);
    var d := StartedUpTo(b, i + 1);
    StartedItemsStep(s, i);
    StartStep(s, i);
    ThreadsForSnoc(b.threads, PathsIn(s[..i], Waiting), it.path);
    assert d.threads == c.threads[it.path := Thread(it.path)];
    assert d.items == c.items[i := it.(state := Processing)];
  }

  /** Handling an entry `i` that is not waiting changes nothing. */
  lemma StartedUpToSkip(b: Board, i: nat)
    requires i < |b.items| && b.items[i].state != Waiting
    ensures StartedUpTo(b, i + 1) == StartedUpTo(b, i)
  {
    var s := b.items;
    var c := StartedUpTo(b, i);
    var d := StartedUpTo(b, i + 1);
    StartedItemsStep(s, i);
    StartStep(s, i);
    assert d.items == c.items;
  }

  /** The table part of one step of the start loop. */
  lemma StartedItemsStep(s: seq<Item>, i: nat)
    requires i < |s|
    ensures var cur := StartAll(s[..i]) + s[i..];
      && |cur| == |s| && cur[i] == s[i]
      && StartAll(s[..i + 1]) + s[i + 1..] == if s[i].state == Waiting then cur[i := s[i].(state := Processing)] else cur
  {
    var cur := StartAll(s[..i]) + s[i..];
    StartPrefixStep(s, i, cur);
    if s[i].state != Waiting {
      assert cur == cur[i := StartedItem(s[i])];
    }
  }

  class MainWindow {
    var items: seq<Item>
    var threads: map<string, Thread>
    var completed: seq<CompressResult>
    var pendingCount: int
    var processingCount: int
    var completedCount: int
    var batchEnabled: bool

    /** The bookkeeping fields as one value. */
    function Snapshot(): Board
      reads this
    {
      Board(items, threads, completed, pendingCount, processingCount, completedCount, batchEnabled)
    }

    /** A fresh window: nothing listed, nothing running, nothing counted, batch download
        disabled. */
    constructor ()
      ensures Snapshot() == Empty && Consistent(Snapshot())
    {
      items := [];
      threads := map[];
      completed := [];
      pendingCount := 0;
      processingCount := 0;
      completedCount := 0;
      batchEnabled := false;
      new;
      EmptyConsistent();
    }

    /** Adding the selected files: each path not yet listed is appended as waiting and
        counted as pending; then, if anything was selected, the waiting tasks start. */
    method AddImages(filePaths: seq<string>)
      modifies this
      ensures Snapshot() == Bookkeeping.AddImages(old(Snapshot()), filePaths)
      ensures old(Consistent(Snapshot())) ==> Consistent(Snapshot())
      ensures forall p :: p in filePaths ==> p in Keys(items)
    {
      ghost var b0 := Snapshot();
      if |filePaths| == 0 {
        return;
      }
      var i := 0;
      while i < |filePaths|
        invariant 0 <= i <= |filePaths|
        invariant Snapshot() == AdmitAll(b0, filePaths[..i])
      {
        var filePath := filePaths[i];
        if filePath !in Keys(items) {
          items := items + [Item(filePath, Waiting)];
          pendingCount := pendingCount + 1;
        }
        assert filePaths[..i + 1][..i] == filePaths[..i];
        i := i + 1;
      }
      assert filePaths[..i] == filePaths;
      StartCompression();
      AddImagesCovers(b0, filePaths);
      if Consistent(b0) {
        AddImagesConsistent(b0, filePaths);
      }
    }

    /** Starting a thread for every task whose status field says it is waiting, in table
        order; each started task moves from pending to processing. */
    method StartCompression()
      modifies this
      ensures Snapshot() == Start(old(Snapshot()))
    {
      ghost var b0 := Snapshot();
      StartedUpToEnds(b0);
      var i := 0;
      while i < |items|
        invariant i <= |b0.items|
        invariant Snapshot() == StartedUpTo(b0, i)
      {
        StartedUpToAt(b0, i);
        var item := items[i];
        StatusSelectsWaiting(item.state);
        if StatusField(item.state) == WaitingText {
          StartedUpToWaiting(b0, i);
          threads := threads[item.path := Thread(item.path)];
          items := items[i := item.(state := Processing)];
          processingCount := processingCount + 1;
          pendingCount := pendingCount - 1;
        } else {
          StartedUpToSkip(b0, i);
        }
        i := i + 1;
      }
    }

    /** Handling a worker's finished signal for `imagePath`: an unlisted path is ignored;
        otherwise the task is marked completed and its result recorded, or marked failed,
        and it leaves the processing count. The invariant is kept when the task was
        running and the result is its own. */
    method HandleCompressFinished(imagePath: string, result: Option<CompressResult>)
      modifies this
      ensures Snapshot() == Finish(old(Snapshot()), imagePath, result)
      ensures old(Consistent(Snapshot()) && CanFinish(Snapshot(), imagePath, result)) ==> Consistent(Snapshot())
    {
      ghost var b0 := Snapshot();
      if Consistent(b0) && CanFinish(b0, imagePath, result) {
        FinishConsistent(b0, imagePath, result);
      }
      var index := IndexOf(items, imagePath);
      if index.Some? {
        var k := index.value;
        if result.Some? {
          items := items[k := items[k].(state := Completed)];
          completed := completed + [result.value];
          completedCount := completedCount + 1;
        } else {
          items := items[k := items[k].(state := Failed)];
        }
        processingCount := processingCount - 1;
        if completedCount > 0 {
          batchEnabled := true;
        }
      }
    }

    /** Clearing the window: every table emptied, every counter reset, batch download
        disabled. */
    method ClearAll()
      modifies this
      ensures Snapshot() == Empty && Consistent(Snapshot())
    {
      items := [];
      threads := map[];
      completed := [];
      pendingCount := 0;
      processingCount := 0;
      completedCount := 0;
      batchEnabled := false;
      EmptyConsistent();
    }

    /** The result a single download would save for `imagePath`: the first completed
        result whose original path is `imagePath`. In a consistent window there is one
        exactly when that task completed. */
    method FindResult(imagePath: string) returns (result: Option<CompressResult>)
      ensures result == Lookup(completed, imagePath)
      ensures result.Some? ==> result.value in completed && result.value.originalPath == imagePath
      ensures result.None? <==> forall j :: 0 <= j < |completed| ==> completed[j].originalPath != imagePath
      ensures Consistent(Snapshot()) ==> (result.Some? <==> Item(imagePath, Completed) in items)
    {
      if Consistent(Snapshot()) {
        LookupFindsCompleted(Snapshot(), imagePath);
      }
      result := None;
      var i := 0;
      while i < |completed|
        invariant 0 <= i <= |completed|
        invariant forall j :: 0 <= j < i ==> completed[j].originalPath != imagePath
      {
        if completed[i].originalPath == imagePath {
          result := Some(completed[i]);
          return;
        }
        i := i + 1;
      }
    }
  }
}
