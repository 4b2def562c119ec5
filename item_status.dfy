/** The raw `status` field of an item widget and the text of its status label. The
    window picks the tasks to start by the raw field, which a success does not change. */
module ItemStatus {
  import opened Bookkeeping

  const WaitingText: string := "等待中"
  const CompressingText: string := "压缩中..."
  const DoneText: string := "已完成"
  const FailedText: string := "压缩失败"

  /** The `status` field for each task state: a success rewrites only the label, so a
      completed task keeps the text it was given when it started. */
  function StatusField(st: TaskState): string {
    match st
    case Waiting => WaitingText
    case Processing => CompressingText
    case Completed => CompressingText
    case Failed => FailedText
  }

  /** The status label shown for each task state. */
  function StatusLabel(st: TaskState): string {
    match st
    case Waiting => WaitingText
    case Processing => CompressingText
    case Completed => DoneText
    case Failed => FailedText
  }

  /** Selecting by the raw field selects exactly the waiting tasks, so a completed or
      failed task is never started again, although the field of a completed task does
      not say that it completed. */
  lemma StatusSelectsWaiting(st: TaskState)
    ensures StatusField(st) == WaitingText <==> st == Waiting
    ensures StatusField(Completed) == StatusField(Processing)
  {
  }

  /** The field agrees with the label in every state but one: after a success the label
      says done while the field still says compressing. */
  lemma StatusFieldLagsLabel(st: TaskState)
    ensures StatusField(st) == StatusLabel(st) <==> st != Completed
    ensures StatusField(Completed) == CompressingText && StatusLabel(Completed) == DoneText
  {
  }
}
