/** The repository's own test programs, replayed against the cells'
    contracts. Each method builds a fresh cell on thread `t` and its
    postcondition is what the test asserts (or, for a test that expects a
    panic, the failure it expects). */
module Scenarios {
  import opened ThreadGate
  import opened BorrowFlag
  import opened Cells

  /** A plain cell: get, set, get. */
  method PlainCellGetSet(t: ThreadId) returns (before: Result<int>, after: Result<int>)
    ensures before == Ok(0) && after == Ok(1)
  {
    var cell := new SingleThreadCell(0, t);
    before := cell.Get(t);
    var _ := cell.Set(t, 1);
    after := cell.Get(t);
  }

  /** Replace hands back the old value and keeps the new one. */
  method PlainCellReplace(t: ThreadId, x: int, y: int) returns (previous: Result<int>, now: Result<int>)
    ensures previous == Ok(x) && now == Ok(y)
  {
    var cell := new SingleThreadCell(x, t);
    previous := cell.Replace(t, y);
    now := cell.Get(t);
  }

  /** One `*cell.borrow_mut() += 1`: borrow exclusively, write through the
      guard, drop the guard. */
  method IncrementOnce(cell: SingleThreadRefCell<int>, t: ThreadId)
    requires cell.Valid() && cell.owner == t && cell.guards == NoGuards
    modifies cell
    ensures cell.Valid() && cell.guards == NoGuards
    ensures cell.value == old(cell.value) + 1
  {
    var _ := cell.BorrowMut(t);
    var v := cell.Deref();
    cell.DerefMut(v + 1);
    cell.DropRefMut();
  }

  /** `*cell.borrow()` as a statement: borrow, read, drop. */
  method ReadOnce(cell: SingleThreadRefCell<int>, t: ThreadId) returns (r: Result<int>)
    requires cell.Valid() && cell.owner == t && cell.guards == NoGuards
    modifies cell
    ensures cell.Valid() && cell.guards == NoGuards && cell.value == old(cell.value)
    ensures r == Ok(cell.value)
  {
    r := cell.Borrow(t);
    cell.DropRef();
  }

  /** Each sequential exclusive increment from 0 is seen by the next
      shared borrow (0, 1, 2, 3, and 3 again), and two shared guards can then
      be alive together, both reading 3. */
  method RefCellCountsToThree(t: ThreadId)
    returns (seen: seq<Result<int>>, b1: Result<int>, b2: Result<int>)
    ensures seen == [Ok(0), Ok(1), Ok(2), Ok(3), Ok(3)]
    ensures b1 == Ok(3) && b2 == Ok(3)
  {
    var cell := new SingleThreadRefCell(0, t);
    var r0 := ReadOnce(cell, t);
    IncrementOnce(cell, t);
    var r1 := ReadOnce(cell, t);
    IncrementOnce(cell, t);
    var r2 := ReadOnce(cell, t);
    IncrementOnce(cell, t);
    var r3 := ReadOnce(cell, t);
    var r4 := ReadOnce(cell, t);
    seen := [r0, r1, r2, r3, r4];
    b1 := cell.Borrow(t);
    b2 := cell.Borrow(t);
    assert cell.guards == Guards(2, false);
  }

  /** A second `borrow_mut` while the first guard is alive fails. */
  method TwiceMutFails(t: ThreadId) returns (r: Result<int>)
    ensures r == Err(BorrowFailed(AlreadyBorrowed))
  {
    var cell := new SingleThreadRefCell(0, t);
    var _ := cell.BorrowMut(t);
    r := cell.BorrowMut(t);
  }

  /** `borrow_mut` while a shared guard is alive fails. */
  method SharedThenMutFails(t: ThreadId) returns (r: Result<int>)
    ensures r == Err(BorrowFailed(AlreadyBorrowed))
  {
    var cell := new SingleThreadRefCell(0, t);
    var _ := cell.Borrow(t);
    r := cell.BorrowMut(t);
  }

  /** `borrow` while the exclusive guard is alive fails. */
  method MutThenSharedFails(t: ThreadId) returns (r: Result<int>)
    ensures r == Err(BorrowFailed(AlreadyMutablyBorrowed))
  {
    var cell := new SingleThreadRefCell(0, t);
    var _ := cell.BorrowMut(t);
    r := cell.Borrow(t);
  }

  /** After the owner has written 1, another thread can neither borrow the
      checked cell nor get from the plain one. */
  method OtherThreadBorrowFails(t: ThreadId, u: ThreadId)
    returns (mine: Result<int>, theirs: Result<int>, plainMine: Result<int>, plainTheirs: Result<int>)
    requires t != u
    ensures mine == Ok(1) && theirs == Err(WrongThread(u))
    ensures plainMine == Ok(1) && plainTheirs == Err(WrongThread(u))
  {
    var cell := new SingleThreadRefCell(0, t);
    var _ := cell.BorrowMut(t);
    cell.DerefMut(1);
    cell.DropRefMut();
    mine := ReadOnce(cell, t);
    theirs := cell.Borrow(u);

    var plain := new SingleThreadCell(0, t);
    var _ := plain.Set(t, 1);
    plainMine := plain.Get(t);
    plainTheirs := plain.Get(u);
  }

  /** Another thread can neither borrow the checked cell mutably nor set
      the plain one; both cells keep the owner's value. */
  method OtherThreadWriteFails(t: ThreadId, u: ThreadId)
    returns (mine: Result<int>, theirs: Result<int>, after: Result<int>,
             plainTheirs: Result<()>, plainAfter: Result<int>)
    requires t != u
    ensures mine == Ok(1) && theirs == Err(WrongThread(u)) && after == Ok(1)
    ensures plainTheirs == Err(WrongThread(u)) && plainAfter == Ok(1)
  {
    var cell := new SingleThreadRefCell(0, t);
    IncrementOnce(cell, t);
    mine := ReadOnce(cell, t);
    theirs := cell.BorrowMut(u);
    after := ReadOnce(cell, t);

    var plain := new SingleThreadCell(0, t);
    var _ := plain.Set(t, 1);
    plainTheirs := plain.Set(u, 2);
    plainAfter := plain.Get(t);
  }
}
