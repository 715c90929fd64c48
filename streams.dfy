/**
 * The state of an index file's `fstream`, as the trees' `create`, `open`,
 * `close` and node I/O leave it.
 */
module Streams {
  /**
   * `Closed`: `is_open()` is false. `ReadWrite`: opened by `open()` for
   * input and output, and no operation on it has failed. `WriteOnly`:
   * opened by `create()` with `ios::out | ios::trunc` and no other mode, so
   * writes succeed but the first read fails. `Failed`: open, with failbit
   * set, so every later seek, read and write fails and `tellp` gives -1.
   */
  datatype Stream = Closed | ReadWrite | WriteOnly | Failed

  /** The state after a read from the file: a stream open for output only fails. */
  function AfterRead(s: Stream): (r: Stream)
    ensures r.Closed? == s.Closed? && r.ReadWrite? == s.ReadWrite? && !r.WriteOnly?
    ensures s.WriteOnly? || s.Failed? <==> r.Failed?
  {
    if s.WriteOnly? then Failed else s
  }

  /** Whether a write reaches the file: on a stream open for writing that has not failed. */
  predicate Writable(s: Stream)
  {
    s.ReadWrite? || s.WriteOnly?
  }
}
