/** The compression worker (`ImageCompressThread.run`) as a producer of events.
    Opening the image and writing the output are calls into the image codec; they are
    parameters here, and each of them may fail. */
module Compressor {
  import opened Wrappers
  import opened PathNames

  /** What the worker learns before it starts: the input's size and the format the codec
      detected. */
  datatype Opened = Opened(originalSize: nat, format: string)

  /** The keyword arguments the worker passes to the codec's save call. */
  datatype SaveOptions = SaveOptions(optimize: bool, quality: Option<nat>, compressLevel: Option<nat>)

  /** The result record of a successful run (its floating-point ratio is not modelled). */
  datatype CompressResult = CompressResult(
    originalPath: string, originalSize: nat, compressedSize: nat, outputPath: string, format: string)

  /** A worker thread, as it is stored per input path. */
  datatype Thread = Thread(imagePath: string)

  /** The two signals a worker emits. */
  datatype Event =
    | Progress(path: string, percent: int)
    | Finished(path: string, result: Option<CompressResult>)

  /** Opens the input: its size and detected format, or `None` when either call raises. */
  type OpenCall = string -> Option<Opened>

  /** Saves to the given output with the given options and reports the written size,
      or `None` when saving or measuring raises. */
  type SaveCall = (string, SaveOptions) -> Option<nat>

  /** The number of progress steps of the simulated loop, 0 to 100. */
  const Steps: nat := 101

  /** Every format is saved optimised; JPEG and WEBP with quality 85, PNG with
      compression level 9. */
  function SaveOptionsFor(format: string): (o: SaveOptions)
    ensures o.optimize
    ensures o.quality.Some? <==> format == "JPEG" || format == "WEBP"
    ensures o.quality.Some? ==> o.quality.value == 85
    ensures o.compressLevel.Some? <==> format == "PNG"
    ensures o.compressLevel.Some? ==> o.compressLevel.value == 9
  {
    if format == "JPEG" then SaveOptions(true, Some(85), None)
    else if format == "PNG" then SaveOptions(true, None, Some(9))
    else if format == "WEBP" then SaveOptions(true, Some(85), None)
    else SaveOptions(true, None, None)
  }

  /** The first `n` progress events of the simulated loop. */
  function Ramp(path: string, n: nat): seq<Event> {
    seq(n, i => Progress(path, i))
  }

  /** What the run emits once the progress loop is over. The ratio divides by the
      original size, so an empty input fails there. */
  function AfterLoop(path: string, o: Opened, save: SaveCall): seq<Event> {
    var out := OutputPath(path);
    match save(out, SaveOptionsFor(o.format))
    case None => [Finished(path, None)]
    case Some(c) =>
      if o.originalSize == 0 then [Finished(path, None)]
      else [Progress(path, 100), Finished(path, Some(CompressResult(path, o.originalSize, c, out, o.format)))]
  }

  /** The whole trace of one run of the worker for `path`. */
  function RunTrace(path: string, open: OpenCall, save: SaveCall): seq<Event> {
    match open(path)
    case None => [Finished(path, None)]
    case Some(o) => Ramp(path, Steps) + AfterLoop(path, o, save)
  }

  /** The run succeeds when the input opens, the output is saved and the input is not empty. */
  predicate Succeeds(path: string, open: OpenCall, save: SaveCall) {
    open(path).Some? && open(path).value.originalSize > 0
    && save(OutputPath(path), SaveOptionsFor(open(path).value.format)).Some?
  }

  /** The worker's run: the codec calls are made through `open` and `save`, and the
      events are returned in the order they are emitted. */
  method Run(path: string, open: OpenCall, save: SaveCall) returns (events: seq<Event>)
    ensures events == RunTrace(path, open, save)
  {
    var probe := open(path);
    if probe.None? {
      return [Finished(path, None)];
    }
    var originalSize := probe.value.originalSize;
    var format := probe.value.format;
    var outputPath := OutputPath(path);
    events := [];
    var i := 0;
    while i < Steps
      invariant 0 <= i <= Steps
      invariant events == Ramp(path, i)
    {
      events := events + [Progress(path, i)];
      i := i + 1;
    }
    var saved := save(outputPath, SaveOptionsFor(format));
    var tail: seq<Event>;
    if saved.None? || originalSize == 0 {
      tail := [Finished(path, None)];
    } else {
      var result := CompressResult(path, originalSize, saved.value, outputPath, format);
      tail := [Progress(path, 100), Finished(path, Some(result))];
    }
    assert tail == AfterLoop(path, probe.value, save);
    events := events + tail;
  }

  /** Every run ends with exactly one finished event, everything before it is progress,
      and every event names the run's input. */
  lemma RunFinishesOnce(path: string, open: OpenCall, save: SaveCall)
    ensures var t := RunTrace(path, open, save);
      |t| > 0 && t[|t| - 1].Finished?
      && (forall i :: 0 <= i < |t| - 1 ==> t[i].Progress?)
      && (forall i :: 0 <= i < |t| ==> t[i].path == path)
  {
    var t := RunTrace(path, open, save);
    if open(path).Some? {
      var tail := AfterLoop(path, open(path).value, save);
      assert t == Ramp(path, Steps) + tail;
      forall i | 0 <= i < |t| - 1 ensures t[i].Progress? {
        if i >= Steps { assert t[i] == tail[i - Steps]; }
      }
      forall i | 0 <= i < |t| ensures t[i].path == path {
        if i >= Steps { assert t[i] == tail[i - Steps]; }
      }
    }
  }

  /** Progress never goes back and stays within 0..100. */
  lemma RunProgressMonotone(path: string, open: OpenCall, save: SaveCall)
    ensures var t := RunTrace(path, open, save);
      (forall i :: 0 <= i < |t| && t[i].Progress? ==> 0 <= t[i].percent <= 100)
      && (forall i, j :: 0 <= i < j < |t| && t[i].Progress? && t[j].Progress? ==> t[i].percent <= t[j].percent)
  {
    var t := RunTrace(path, open, save);
    if open(path).Some? {
      var tail := AfterLoop(path, open(path).value, save);
      assert t == Ramp(path, Steps) + tail;
      forall i | 0 <= i < |t| && t[i].Progress?
        ensures 0 <= t[i].percent <= 100
        ensures i >= Steps ==> t[i].percent == 100
        ensures i < Steps ==> t[i].percent == i
      {
        if i >= Steps { assert t[i] == tail[i - Steps]; }
      }
    }
  }

  /** A successful run emits 0, 1, ..., 100, then 100 again, then one finished event whose
      result names the input and its derived output path; any other run emits a finished
      event without a result, either alone or after the full progress ramp. */
  lemma RunOutcome(path: string, open: OpenCall, save: SaveCall)
    ensures var t := RunTrace(path, open, save);
      if Succeeds(path, open, save) then
        |t| == Steps + 2
        && t[..Steps + 1] == Ramp(path, Steps) + [Progress(path, 100)]
        && t[Steps + 1].Finished? && t[Steps + 1].result.Some?
        && t[Steps + 1].result.value.originalPath == path
        && t[Steps + 1].result.value.outputPath == OutputPath(path)
        && t[Steps + 1].result.value.originalSize == open(path).value.originalSize
      else
        t == [Finished(path, None)] || t == Ramp(path, Steps) + [Finished(path, None)]
  {
    var t := RunTrace(path, open, save);
    if Succeeds(path, open, save) {
      var tail := AfterLoop(path, open(path).value, save);
      assert t == Ramp(path, Steps) + tail;
      assert t[..Steps + 1] == Ramp(path, Steps) + [tail[0]];
    } else if open(path).Some? {
      assert AfterLoop(path, open(path).value, save) == [Finished(path, None)];
    }
  }

  /** Whatever the codec does, two successful runs for the same input report the same
      output path: a later run overwrites the earlier output. */
  lemma RunsShareOutput(path: string, open1: OpenCall, save1: SaveCall, open2: OpenCall, save2: SaveCall)
    requires Succeeds(path, open1, save1) && Succeeds(path, open2, save2)
    ensures var t1, t2 := RunTrace(path, open1, save1), RunTrace(path, open2, save2);
      t1[|t1| - 1].result.value.outputPath == t2[|t2| - 1].result.value.outputPath == OutputPath(path)
  {
    RunOutcome(path, open1, save1);
    RunOutcome(path, open2, save2);
  }
}
