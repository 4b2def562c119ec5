# Image compression client: task bookkeeping, worker events and output naming

The client is a desktop window. It lets the user pick images, compresses each one
in a worker thread, and offers the results for download. This project models its
core in Dafny and proves properties of that model:

- **The window's task bookkeeping.** This is the state a `MainWindow` keeps:
  - the item table, keyed by input path in insertion order;
  - the thread table;
  - the append-only list of completed results;
  - the pending, processing and completed counters;
  - whether batch download is enabled.

  The handlers that change this state are modelled, and so is the single-download
  lookup. A task's state is made explicit as `Waiting | Processing | Completed |
  Failed` (module `Bookkeeping`). The invariant `Consistent` says:
  - the paths are distinct;
  - each counter equals the number of tasks in its state;
  - the completed results are one per completed task;
  - batch download is enabled exactly when something completed;
  - a task has its own thread exactly when it has been started.
- **The window as an object.** Class `Window.MainWindow` has the same fields and
  updates them in place with loops. Each method's postcondition ties the new state
  to the value-level function of module `Bookkeeping`, and the lemmas there prove
  what those functions keep and change.
- **The worker.** `ImageCompressThread.run` is modelled as a producer of progress and
  finished events (module `Compressor`). Opening the image and saving the output are
  calls into the image codec. They are parameters that may fail.
- **Output naming.** The output is `<dir>/<stem>_compressed<ext>`, built from POSIX
  `basename`, `dirname`, `splitext` and `join` (module `PathNames`).
- **Widget status text.** The raw `status` field of an item widget and its label text
  are modelled in module `ItemStatus`.
- **Progress routing.** How the progress slot is connected is modelled in module
  `ProgressSlot`. Delivering a whole worker run to the window is modelled in module
  `Routing`.

Qt delivers every worker signal on the GUI thread. The handlers therefore run one at
a time, and they are modelled as sequential steps.

Where the code and a plain reading of it disagree, the model follows the code:

- When saving fails, or when reading a file size fails, after the progress loop, the
  worker has already emitted progress 0 to 100. The same happens when the input is
  empty and the ratio divides by zero. Such a failed run is therefore the whole ramp
  followed by a finished event without a result, not a single event
  (`Compressor.AfterLoop`, `Compressor.RunOutcome`).
- The finished signal is declared with a dictionary argument, but a failure emits
  `None` through it. The model assumes Qt delivers that `None` and treats it as an
  absent result (`Option.None`). See "## Left out".
- On success the item widget rewrites only its label. Its raw `status` field keeps the
  "compressing" text. Tasks to start are selected by that raw field, and a finished
  task is still never restarted (`ItemStatus.StatusSelectsWaiting`).

## Model

| member | source | states |
|---|---|---|
| Window.MainWindow.constructor | main.py:370-377 | A new window has no items, no threads and no results. Its counters are zero, batch download is disabled, and the invariant holds. |
| Window.MainWindow.AddImages | main.py:423-450 | The new state is admission of each selected path, then starting, or no change when nothing is selected. The invariant is kept. Afterwards every selected path is listed, whatever the old state. |
| Window.MainWindow.StartCompression | main.py:452-475 | The loop over the table in order has the same effect as `Bookkeeping.Start`. |
| Window.MainWindow.HandleCompressFinished | main.py:483-500 | The new state is `Bookkeeping.Finish` of the old one. When the task was running and the result is its own, the invariant is kept. |
| Window.MainWindow.ClearAll | main.py:599-619 | Every table is empty, every counter is zero, batch download is disabled, and the invariant holds. |
| Window.MainWindow.FindResult | main.py:505-510 | The result is the first recorded one whose original path matches, or none exactly when nothing matches. In a consistent window, a result is found exactly when that task completed. |
| Window.StartedUpToEnds | main.py:454 | The prefix-started board is the old board before the loop and the fully started board after it. |
| Window.StartedUpToWaiting | main.py:455-474 | Starting one waiting entry adds its own thread, marks it processing, and moves one unit from pending to processing. |
| Window.StartedUpToSkip | main.py:455 | An entry that is not waiting is left alone. |
| Bookkeeping.AdmitAllKnown | main.py:424-425 | A selection whose paths are all listed already leaves the bookkeeping unchanged. |
| Bookkeeping.AddImagesIdempotent | main.py:423-450 | Adding the same selection a second time changes nothing. |
| Bookkeeping.CountersPartition | main.py:446-495 | In a consistent window, the pending, processing and completed counters plus the failed tasks add up to the number of listed tasks. |
| Bookkeeping.StartIdle | main.py:454-455 | Starting when no task is waiting changes nothing. |
| Bookkeeping.Admit | main.py:425-446 | Definition only, with no contract of its own. Its properties are the ensures of `Bookkeeping.AdmitConsistent`, `Bookkeeping.AdmitCounted` and `Bookkeeping.AdmitAllKnown`. |
| Bookkeeping.AdmitAll | main.py:424-447 | Definition only, with no contract of its own. Its properties are the ensures of the `Bookkeeping.AdmitAll…` lemmas. |
| Bookkeeping.Start | main.py:454-474 | Definition only, with no contract of its own. Its properties are the ensures of `Bookkeeping.StartEffects`, `Bookkeeping.StartConsistent` and `Bookkeeping.StartIdle`. |
| Bookkeeping.AddImages | main.py:423-450 | Definition only, with no contract of its own. Its properties are the ensures of `Bookkeeping.AddImagesConsistent`, `Bookkeeping.AddImagesCovers`, `Bookkeeping.AddImagesStarts` and `Bookkeeping.AddImagesIdempotent`. |
| Bookkeeping.Finish | main.py:483-500 | Definition only, with no contract of its own. Its properties are the ensures of `Bookkeeping.FinishChangesOne`, `Bookkeeping.FinishConsistent` and `Routing.FinishOutcome`. |
| Bookkeeping.Lookup | main.py:505-510 | Definition only, with no contract of its own. Its properties are the ensures of `Bookkeeping.FirstMatch` and `Bookkeeping.LookupFindsCompleted`. |
| Bookkeeping.AdmitConsistent | main.py:424-447 | Admitting one path keeps the invariant. |
| Bookkeeping.AdmitCounted | main.py:446 | Admitting a new path keeps the counters exact, with one more waiting task. |
| Bookkeeping.AdmitAllKeeps | main.py:424-447 | Admission only appends items. Threads, results and the batch flag are unchanged. |
| Bookkeeping.AdmitAllCovers | main.py:424-438 | After admission, every selected path is listed. |
| Bookkeeping.AdmitAllAppends | main.py:425-438 | Every appended entry is waiting and comes from the selection. |
| Bookkeeping.AdmitAllConsistent | main.py:424-447 | Admitting a selection keeps the invariant. |
| Bookkeeping.StartAllNoneWaiting | main.py:454-472 | After starting, no task is waiting. |
| Bookkeeping.StartAllProcessing | main.py:455-472 | The processing tasks afterwards are those processing before plus those waiting before. |
| Bookkeeping.StartAllKeepsTerminal | main.py:455 | Completed and failed tasks are untouched by starting. |
| Bookkeeping.StartEffects | main.py:454-475 | Pending drops to zero and processing rises by the number of tasks moved. The keys are unchanged and no task is waiting. |
| Bookkeeping.StartConsistent | main.py:452-475 | Starting keeps the invariant. |
| Bookkeeping.StartThreaded | main.py:457-469 | After starting, every started task has its own thread and every thread belongs to a listed task. |
| Bookkeeping.AddImagesConsistent | main.py:423-450 | Adding images keeps the invariant. |
| Bookkeeping.AddImagesCovers | main.py:423-450 | On every board, whatever its counters, every selected path is listed afterwards, and after a non-empty selection no task is waiting. |
| Bookkeeping.AddImagesStarts | main.py:423-450 | After a non-empty selection, every selected path is listed, nothing is pending and no task is waiting. |
| Bookkeeping.IndexOf | main.py:485-486 | The dictionary lookup finds an entry with that path, or none exactly when the path is not listed. |
| Bookkeeping.FinishConsistent | main.py:483-500 | A finished event for a running task that carries its own result keeps the invariant. |
| Bookkeeping.FinishChangesOne | main.py:485-493 | Only the finished task changes. It becomes completed on success and failed otherwise, and the keys are unchanged. With `Routing.FinishOutcome`, this is the effect of applying a result. |
| Bookkeeping.FinishRecorded | main.py:488-491 | Recording a success keeps exactly one result per completed task. |
| Bookkeeping.FinishUnknownIgnored | main.py:485 | A finished event for an unlisted path changes nothing. |
| Bookkeeping.FinishNotRunningBreaks | main.py:495 | A finish for a task that is not running breaks the counter invariant, because the decrement is unconditional. |
| Bookkeeping.BatchFlagMonotone | main.py:499-500 | Nothing but clearing resets the batch flag. A finish with a positive completed count sets it, and a new window has it cleared. |
| Bookkeeping.AdmitAllFlag | main.py:424-447 | Admission leaves the batch flag alone. |
| Bookkeeping.EmptyConsistent | main.py:607-619 | The cleared bookkeeping satisfies the invariant. |
| Bookkeeping.FirstMatch | main.py:506-510 | The index found is the first result whose original path matches, or none exactly when no result matches. |
| Bookkeeping.LookupFindsCompleted | main.py:505-510 | In a consistent window, a lookup finds a result exactly when the task completed, and the result names that path. |
| ItemStatus.StatusField | main.py:97-252 | Definition only, with no contract of its own. It is the raw `status` field for each task state: "等待中" when listed (97), "压缩中..." when started (472), "压缩失败" on failure (493), and left at "压缩中..." by a success, which rewrites only the label (236-252). Its properties are the ensures of `ItemStatus.StatusSelectsWaiting` and `ItemStatus.StatusFieldLagsLabel`. |
| ItemStatus.StatusLabel | main.py:129-254 | Definition only, with no contract of its own. It is the status label's text for each task state: the status it was given (129, 230), "已完成" after a success (248) and "压缩失败" after a failure (254). Its properties are the ensures of `ItemStatus.StatusFieldLagsLabel`. |
| ItemStatus.StatusSelectsWaiting | main.py:455 | Selecting by the raw status field selects exactly the waiting tasks, although a completed task's field equals a running task's. |
| ItemStatus.StatusFieldLagsLabel | main.py:227-254 | The raw status field and the label agree in every state except completed. There the label says done while the field still says compressing. |
| Compressor.Ramp | main.py:51-54 | Definition only, with no contract of its own. It is the progress events 0 to 100 that the simulated loop emits for the input path, in order. Its properties are the ensures of `Compressor.RunOutcome` and `Compressor.RunProgressMonotone`. |
| Compressor.SaveOptionsFor | main.py:57-64 | Every format is saved optimised. JPEG and WEBP get quality 85, PNG gets compression level 9, and nothing else gets either option. |
| Compressor.AfterLoop | main.py:56-87 | Definition only, with no contract of its own. Its properties are the ensures of `Compressor.RunOutcome` and `Routing.RunReports`. |
| Compressor.RunTrace | main.py:32-87 | Definition only, with no contract of its own. It is the specification of `Compressor.Run`, and its lemmas are the `Compressor.Run…` rows. |
| Compressor.Succeeds | main.py:36-83 | Definition only, with no contract of its own. It holds when the input opens, the output is saved and the input is not empty. `Routing.RunReports` shows it decides whether a result is reported. |
| Compressor.Run | main.py:32-87 | The method emits exactly the trace `RunTrace`, in order. |
| Compressor.RunFinishesOnce | main.py:50-87 | Every run ends with exactly one finished event. All earlier events are progress, and every event names the input. |
| Compressor.RunProgressMonotone | main.py:51-54 | Progress stays within 0 to 100 and never decreases. |
| Compressor.RunOutcome | main.py:51-87 | A successful run emits 0 to 100, then 100 again, then a finished event. Its result names the input, the derived output path and the original size. Any other run emits a finished event without a result, either alone or after the ramp. |
| Compressor.RunsShareOutput | main.py:43-48 | Two successful runs for the same input report the same output path. |
| PathNames.RFind | main.py:43 | Gives the last occurrence of the character, or -1 when there is none. |
| PathNames.BasenameShape | main.py:43 | The base name is the part of the path after its last separator and contains none. |
| PathNames.RStripSlashes | main.py:46 | Gives the longest prefix without trailing separators. What is removed is separators only. |
| PathNames.Basename | main.py:43 | Definition only, with no contract of its own. Its properties are the ensures of `PathNames.BasenameShape`. |
| PathNames.Dirname | main.py:46 | Gives a prefix of the path, empty exactly when there is no separator. Up to the base name, only separators are removed, and the result does not end in a separator unless it is all separators. |
| PathNames.DirnameShape | main.py:46 | A head made of separators only is kept whole, so `//x` lies in `//`. With `PathNames.Dirname`'s ensures, this determines the directory. |
| PathNames.SplitExt | main.py:44 | The two parts make up the name. The extension is empty, or a dot followed by no dot and no separator. |
| PathNames.SplitExtRule | main.py:44 | There is an extension exactly when the last component holds a dot with some other character before it. Leading dots belong to the stem. |
| PathNames.JoinShape | main.py:45-48 | The second component always ends the joined path, and an absolute one is the whole path. A relative one follows the first component. Exactly one separator is inserted between them when the first is non-empty and does not already end in one; nothing is inserted when it does, or when the first component is empty. |
| PathNames.Join | main.py:45 | Definition only, with no contract of its own. Its properties are the ensures of `PathNames.JoinShape`. |
| PathNames.OutputNameHasNoSep | main.py:43-47 | The output name contains no separator and is the base name lengthened by the suffix. |
| PathNames.OutputName | main.py:43-47 | Definition only, with no contract of its own. Its properties are the ensures of `PathNames.OutputNameHasNoSep` and `PathNames.OutputNameSplits`. |
| PathNames.OutputPath | main.py:43-48 | Definition only, with no contract of its own. Its properties are the ensures of `PathNames.BasenameOfOutput`, `PathNames.DirnameOfOutput`, `PathNames.OutputPathCollision` and `PathNames.OutputIsNotInput`. |
| PathNames.OutputNameSplits | main.py:44-47 | Splitting the output name gives the input's stem plus the suffix, and the input's extension. |
| PathNames.BasenameOfOutput | main.py:45-48 | The file part of the output path is the output name. |
| PathNames.DirnameOfOutput | main.py:45-48 | The output lands in the input's directory. |
| PathNames.OutputPathCollision | main.py:43-48 | Two inputs share an output path exactly when they share directory and base name. |
| PathNames.OutputIsNotInput | main.py:43-48 | The output path never equals the input path. |
| ProgressSlot.UpdateCompressProgress | main.py:477-481 | A string key naming a listed item sets its bar to the value. Any other key changes nothing. |
| ProgressSlot.Slot | main.py:458-460 | The intended connection sets the named item's bar to the percent and leaves the others alone. |
| ProgressSlot.SlotAsConnected | main.py:458-460 | As the window connects it, a progress event leaves every bar as it was. |
| Routing.Deliver | main.py:458-465 | Definition only, with no contract of its own. A progress event goes to the slot under the chosen connection, as connected or as intended. A finished event goes to `Bookkeeping.Finish`, and on success also sets the bar to 100. |
| Routing.DeliverAll | main.py:458-465 | Definition only, with no contract of its own. Its properties are the ensures of the `Routing.Deliver…` lemmas and `Routing.ProgressLeavesBoard`. |
| Routing.ProgressLeavesBoard | main.py:458-460 | Under either connection, progress events never change the bookkeeping and change no bar but the named one. As connected, they change no bar at all. As intended, the named bar ends at the last percent. |
| Routing.DeliverAllAppend | main.py:458-465 | Delivering two traces one after the other equals delivering their concatenation. |
| Routing.RunReports | main.py:73-87 | A run's finished event carries a result exactly when the run succeeds. The result names the input and its output path. |
| Routing.FinishOutcome | main.py:483-500 | For a running task, a finish keeps the invariant and leaves processing one lower. The task ends completed with its result appended, or failed with the results unchanged. |
| Routing.DeliverTrace | main.py:458-465 | Under either connection, the bookkeeping sees only the finished event. A success for a listed item sets its bar to 100, and other bars are unchanged. As connected, that 100 is the only change to any bar. |
| Routing.DeliverRun | main.py:483-500 | These facts hold under either connection. After a whole run for a running task, the window is consistent, processing is one lower and other bars are unchanged. On success the task is completed with its bar at 100, its result is appended last with its output path, and batch download is enabled. On failure the task is failed and no result is recorded. As connected, its bar is then where it was. |

## Left out

- The Qt window, layouts, menus, file dialogs, message boxes, the status bar and the
  task-status label (`update_task_status`): these are presentation. The file dialog's
  selection is the parameter of `AddImages`.
- Thread scheduling, `thread.start` and `thread.terminate` in `clear_all`: this is
  concurrency. A thread is a record naming its input, and a run is a sequence of
  events that is delivered to the window afterwards.
- The image codec and `os.path.getsize` are parameters of the worker. Opening reports
  a size and format or fails. Saving reports the written size or fails. The widget
  constructor also reads the input size, and that read is not modelled.
- The compression ratio, `_format_size` and the remaining-time estimate, because they
  use floating point and the clock. `time.sleep` and the failure `print` are left out
  too.
- The zip and folder downloads and the single-download file copy, because they are
  file I/O. Both downloads walk the completed results in order and name each file by
  the base name of its output path.
- Paths follow POSIX semantics only. Windows drive letters and back-slashes are not
  modelled.
- The bar map of `Routing.View` is not tied to admission: a listed item's bar exists
  if the caller says so, starting at whatever value it is given.
- Compressor.RunOutcome, Compressor.RunFinishesOnce: these assume the `None` emitted
  through the dictionary-typed finished signal reaches the slot. If `emit` rejected it,
  the exception would be raised inside the `except` block and escape `run()`; under
  PyQt5's default handling of unhandled exceptions the application stops. The model
  does not capture that outcome.
- Window.MainWindow.StartCompression: its postcondition gives only the new state. That
  the invariant is kept is stated about that state by `Bookkeeping.StartConsistent`,
  and `Window.MainWindow.AddImages` states it for the window.
- Window.MainWindow.HandleCompressFinished: it keeps the invariant only for an event of
  a running task that carries its own result, because the source decrements the
  processing count whatever the task's state (`Bookkeeping.FinishNotRunningBreaks`).

## Findings

| source | as written | input that shows it | evidently intended | confidence | as-written member | corrected member |
|---|---|---|---|---|---|---|
| main.py:458-460 | The progress signal has two arguments, the path and the percent. Both are bound to the lambda's two parameters, so `update_compress_progress` receives the percent as the path and the path as the value. The integer key is never listed, so no progress bar ever moves before the run finishes. | A listed item whose bar shows 0 receives progress 50: its bar still shows 0 (`ProgressSlot.ProgressNotShown`). | The bar of the named item shows each percent as it arrives. | not executed | ProgressSlot.SlotAsConnected, and Routing.DeliverRun with `AsConnected` | ProgressSlot.Slot, and Routing.DeliverRun with `Intended` |
