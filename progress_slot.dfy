/** The slot that receives a worker's progress signal. The signal carries the input path
    and the percent. The window connects it to a two-parameter lambda whose first
    parameter is meant for the percent and whose second, defaulted to the item's path, is
    passed on as the path; the signal binds both of its arguments to those parameters in
    order, so the percent arrives as the path and the path as the percent. */
module ProgressSlot {
  import opened Compressor

  /** A Python argument, which may be a string or an integer. */
  datatype Arg = Str(text: string) | Int(number: int)

  /** `update_compress_progress(image_path, value)`: the progress bar of the item keyed by
      `imagePath` shows `value`; a key that is not an item's path changes nothing. The
      bars are keyed by the items' paths, which are strings. */
  function UpdateCompressProgress(bars: map<string, int>, imagePath: Arg, value: Arg): (r: map<string, int>)
    ensures r.Keys == bars.Keys
    ensures imagePath.Str? && imagePath.text in bars && value.Int? ==> r[imagePath.text] == value.number
    ensures forall q :: q in bars && (imagePath.Int? || q != imagePath.text) ==> r[q] == bars[q]
  {
    if imagePath.Str? && imagePath.text in bars && value.Int? then bars[imagePath.text := value.number]
    else bars
  }

  /** The slot as the window connects it: the emitted path lands in `value`, the emitted
      percent in `path`. The percent is never a key of the bars, so no progress event
      reaches a progress bar. */
  function SlotAsConnected(bars: map<string, int>, e: Event): (r: map<string, int>)
    requires e.Progress?
    ensures r == bars
  {
    var r := UpdateCompressProgress(bars, Int(e.percent), Str(e.path));
    assert r.Keys == bars.Keys && forall q :: q in bars ==> r[q] == bars[q];
    r
  }

  /** The slot as evidently intended: the path and percent in their own places. */
  function Slot(bars: map<string, int>, e: Event): (r: map<string, int>)
    requires e.Progress?
    ensures r.Keys == bars.Keys
    ensures e.path in bars ==> r[e.path] == e.percent
    ensures forall q :: q in bars && q != e.path ==> r[q] == bars[q]
  {
    UpdateCompressProgress(bars, Str(e.path), Int(e.percent))
  }

  /** The input that shows it: halfway through a run the bar of a fresh item still shows
      0, where the intended slot shows 50. */
  lemma ProgressNotShown(p: string)
    ensures SlotAsConnected(map[p := 0], Progress(p, 50))[p] == 0
    ensures Slot(map[p := 0], Progress(p, 50))[p] == 50
  {
  }
}
