/** Delivering a worker's signals to the window: progress events go to the item's
    progress bar, the finished event to the bookkeeping. A success also sets the bar to
    100. Progress goes through the slot either as the window connects it or as evidently
    intended (module `ProgressSlot`); every fact about the bookkeeping holds for both. */
module Routing {
  import opened Wrappers
  import opened PathNames
  import opened Compressor
  import opened Bookkeeping
  import opened ProgressSlot

  /** The window as the events see it: its bookkeeping and each item's progress bar. */
  datatype View = View(board: Board, bars: map<string, int>)

  /** How the progress signal reaches its slot. */
  datatype Connection = AsConnected | Intended

  /** The effect of one signal on the window. */
  function Deliver(c: Connection, v: View, e: Event): View {
    match e
    case Progress(_, _) =>
      v.(bars := if c == Intended then Slot(v.bars, e) else SlotAsConnected(v.bars, e))
    case Finished(p, r) =>
      var bars := if r.Some? && p in Keys(v.board.items) && p in v.bars then v.bars[p := 100] else v.bars;
      View(Finish(v.board, p, r), bars)
  }

  /** The effect of a sequence of signals, in emission order. */
  function DeliverAll(c: Connection, v: View, es: seq<Event>): View
    decreases |es|
  {
    if es == [] then v else DeliverAll(c, Deliver(c, v, es[0]), es[1..])
  }

  predicate AllProgress(es: seq<Event>) {
    forall i :: 0 <= i < |es| ==> es[i].Progress?
  }

  lemma {:induction false} DeliverAllAppend(c: Connection, v: View, a: seq<Event>, b: seq<Event>)
    ensures DeliverAll(c, v, a + b) == DeliverAll(c, DeliverAll(c, v, a), b)
    decreases |a|
  {
    if a == [] {
      assert a + b == b;
    } else {
      assert (a + b)[1..] == a[1..] + b;
      DeliverAllAppend(c, Deliver(c, v, a[0]), a[1..], b);
    }
  }

  /** Progress signals never touch the bookkeeping, and they only change the bar of the
      item they name: as connected not even that one, as intended to the last percent. */
  lemma {:induction false} ProgressLeavesBoard(c: Connection, v: View, es: seq<Event>, p: string)
    requires AllProgress(es)
    requires forall i :: 0 <= i < |es| ==> es[i].path == p
    ensures DeliverAll(c, v, es).board == v.board
    ensures DeliverAll(c, v, es).bars.Keys == v.bars.Keys
    ensures forall q :: q in v.bars && q != p ==> DeliverAll(c, v, es).bars[q] == v.bars[q]
    ensures c == AsConnected ==> DeliverAll(c, v, es).bars == v.bars
    ensures c == Intended && es != [] && p in v.bars ==> DeliverAll(c, v, es).bars[p] == es[|es| - 1].percent
    decreases |es|
  {
    if es != [] {
      ProgressLeavesBoard(c, Deliver(c, v, es[0]), es[1..], p);
      if |es| > 1 {
        assert es[1..][|es[1..]| - 1] == es[|es| - 1];
      }
    }
  }

  /** A run's trace is a progress prefix naming its input followed by one finished
      event for that input. */
  lemma RunSplits(p: string, open: OpenCall, save: SaveCall)
    ensures var t := RunTrace(p, open, save);
      && |t| > 0
      && t == t[..|t| - 1] + [Finished(p, t[|t| - 1].result)]
      && AllProgress(t[..|t| - 1])
      && (forall i :: 0 <= i < |t| - 1 ==> t[i].path == p)
  {
    var t := RunTrace(p, open, save);
    RunFinishesOnce(p, open, save);
    assert t == t[..|t| - 1] + [t[|t| - 1]];
  }

  /** The finished event of a run carries the input's own result exactly when the run
      succeeds. */
  lemma RunReports(p: string, open: OpenCall, save: SaveCall)
    ensures var t := RunTrace(p, open, save);
      var r := t[|t| - 1].result;
      && |t| > 0 && t[|t| - 1].Finished?
      && (r.Some? <==> Succeeds(p, open, save))
      && (r.Some? ==> r.value.originalPath == p && r.value.outputPath == OutputPath(p))
  {
    RunOutcome(p, open, save);
  }

  /** A finished event for a running task of a consistent window keeps it consistent;
      the task becomes completed with its result appended, or failed. */
  lemma FinishOutcome(b: Board, p: string, r: Option<CompressResult>)
    requires Consistent(b) && CanFinish(b, p, r)
    ensures var a := Finish(b, p, r);
      && Consistent(a)
      && a.processingCount == b.processingCount - 1
      && Item(p, if r.Some? then Completed else Failed) in a.items
      && a.completed == (if r.Some? then b.completed + [r.value] else b.completed)
      && (r.Some? ==> a.batchEnabled)
      && p in Keys(b.items)
  {
    FinishConsistent(b, p, r);
    IndexOfDistinct(b.items, p, Processing);
    var k := IndexOf(b.items, p).value;
    var a := Finish(b, p, r);
    assert a.items[k] == Item(p, if r.Some? then Completed else Failed);
    assert Keys(b.items)[k] == p;
  }

  /** Delivering progress for `p` and then a finished event for `p`: the bookkeeping
      sees only the finished event; on success the bar of a listed task ends at 100. As
      connected, that is the only change to any bar. */
  lemma DeliverTrace(c: Connection, v: View, p: string, pre: seq<Event>, r: Option<CompressResult>)
    requires AllProgress(pre) && forall i :: 0 <= i < |pre| ==> pre[i].path == p
    ensures var w := DeliverAll(c, v, pre + [Finished(p, r)]);
      && w.board == Finish(v.board, p, r)
      && w.bars.Keys == v.bars.Keys
      && (forall q :: q in v.bars && q != p ==> w.bars[q] == v.bars[q])
      && (r.Some? && p in Keys(v.board.items) && p in v.bars ==> w.bars[p] == 100)
      && (c == AsConnected ==>
            w.bars == if r.Some? && p in Keys(v.board.items) && p in v.bars then v.bars[p := 100] else v.bars)
  {
    var last := Finished(p, r);
    DeliverAllAppend(c, v, pre, [last]);
    var u := DeliverAll(c, v, pre);
    ProgressLeavesBoard(c, v, pre, p);
    assert DeliverAll(c, u, [last]) == Deliver(c, u, last) by { assert [last][1..] == []; }
  }

  /** A whole run of the worker for a running task of a consistent window: afterwards
      the window is consistent, the task no longer counts as processing, and it is
      completed exactly when the run succeeds, with its result recorded last and its
      bar at 100; otherwise it is failed and nothing is recorded. Other bars are as
      they were, and as connected a failed task's bar is too. */
  lemma DeliverRun(c: Connection, v: View, p: string, open: OpenCall, save: SaveCall)
    requires Consistent(v.board) && Item(p, Processing) in v.board.items && p in v.bars
    ensures var w := DeliverAll(c, v, RunTrace(p, open, save));
      && Consistent(w.board)
      && w.board.processingCount == v.board.processingCount - 1
      && w.bars.Keys == v.bars.Keys
      && (forall q :: q in v.bars && q != p ==> w.bars[q] == v.bars[q])
      && (Succeeds(p, open, save) ==>
            && Item(p, Completed) in w.board.items
            && w.bars[p] == 100
            && |w.board.completed| == |v.board.completed| + 1
            && w.board.completed[..|v.board.completed|] == v.board.completed
            && w.board.completed[|v.board.completed|].originalPath == p
            && w.board.completed[|v.board.completed|].outputPath == OutputPath(p)
            && w.board.batchEnabled)
      && (!Succeeds(p, open, save) ==>
            && Item(p, Failed) in w.board.items
            && w.board.completed == v.board.completed
            && (c == AsConnected ==> w.bars[p] == v.bars[p]))
  {
    var t := RunTrace(p, open, save);
    RunSplits(p, open, save);
    RunReports(p, open, save);
    var r := t[|t| - 1].result;
    DeliverTrace(c, v, p, t[..|t| - 1], r);
    FinishOutcome(v.board, p, r);
    if r.Some? {
      var done := v.board.completed + [r.value];
      assert done[..|v.board.completed|] == v.board.completed;
    }
  }
}
