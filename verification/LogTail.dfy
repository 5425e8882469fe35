/** How the writer of a log file and the end of that file agree, and what appends, failures and reopening make of it. */
module LogTail {

  /**
   * Clean: the next record will be read back. Torn: the writer is where the file ends, but a reader will have given up
   * on the block there, and the block has room for another physical record. Skewed: an append failed, and the writer's
   * block offset is no longer the file's.
   */
  datatype Tail = Clean | Torn | Skewed

  /** A record is appended whole; will it be read back? */
  predicate AfterAppend(tail: Tail, shown: bool, next: Tail) {
    match tail
    case Clean => shown && next.Clean?
    case Torn => !shown && !next.Skewed?
    case Skewed => next.Skewed?
  }

  /** An append fails. */
  predicate AfterFailure(tail: Tail, next: Tail) {
    tail.Skewed? || !next.Torn?
  }

  /** The file is reopened, after a crash in the middle of an append or between two. */
  predicate AfterCrash(tail: Tail, appending: bool, next: Tail) {
    !next.Skewed? && (!appending && !tail.Skewed? ==> next == tail)
  }
}
