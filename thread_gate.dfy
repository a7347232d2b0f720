/** The ownership gate: every cell remembers the thread that created it, and
    every access compares the calling thread with that owner first.
    The current thread is passed in explicitly; nothing here reads a clock,
    a thread-local or any other ambient state. */
module ThreadGate {

  /** An opaque, comparable thread identity (Rust's `ThreadId`). */
  datatype ThreadId = ThreadId(raw: nat)

  /** What `check_thread_panic` does: return normally, or panic naming the
      offending thread. */
  datatype GateOutcome = Pass | Panic(current: ThreadId)

  /** `check_same_thread`: does the calling thread own the cell? */
  function CheckSameThread(owner: ThreadId, current: ThreadId): (same: bool)
    ensures same <==> current == owner
  {
    current == owner
  }

  /** `check_thread_panic`: passes on the owner thread; on any other thread
      it fails, reporting the identity of the thread that tried. */
  function CheckThreadPanic(owner: ThreadId, current: ThreadId): (o: GateOutcome)
    ensures o.Pass? <==> current == owner
    ensures o.Panic? ==> o.current == current && o.current != owner
  {
    if current != owner then Panic(current) else Pass
  }

  /** The two checks agree on every pair of identities: the panicking check
      returns normally exactly when the boolean check says "same thread". */
  lemma PanicIffNotSameThread(owner: ThreadId, current: ThreadId)
    ensures CheckThreadPanic(owner, current).Pass? <==> CheckSameThread(owner, current)
    ensures !CheckSameThread(owner, current) ==> CheckThreadPanic(owner, current) == Panic(current)
  {
  }
}
