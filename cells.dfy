/** The two cells. Each stores the identity of the thread that created it
    and runs the ownership gate before touching anything; a panic of the
    source becomes an `Err` result that leaves the cell as it was. */
module Cells {
  import opened ThreadGate
  import opened BorrowFlag

  /** Why an access failed: the gate refused the calling thread, or the
      borrow flag refused the borrow. */
  datatype Fault = WrongThread(current: ThreadId) | BorrowFailed(error: BorrowError)

  datatype Result<R> = Ok(value: R) | Err(fault: Fault)

  /** A plain slot: get, set and replace, each behind the ownership gate. */
  class SingleThreadCell<T> {
    var value: T
    const owner: ThreadId

    /** The owner is the constructing thread. */
    constructor (val: T, current: ThreadId)
      ensures value == val && owner == current
      ensures GetOwnerThreadId() == current
    {
      value := val;
      owner := current;
    }

    /** The owner fixed at construction; `owner` is never reassigned. */
    function GetOwnerThreadId(): ThreadId {
      owner
    }

    /** `set`: on the owner thread the slot becomes `v`; on any other thread
        the call fails and the slot is untouched. */
    method Set(current: ThreadId, v: T) returns (r: Result<()>)
      modifies this`value
      ensures r.Ok? <==> current == owner
      ensures r.Err? ==> r.fault == WrongThread(current)
      ensures value == if current == owner then v else old(value)
    {
      if CheckThreadPanic(GetOwnerThreadId(), current).Panic? {
        return Err(WrongThread(current));
      }
      value := v;
      r := Ok(());
    }

    /** `replace`: hands back the previous value and leaves `v` behind. */
    method Replace(current: ThreadId, v: T) returns (r: Result<T>)
      modifies this`value
      ensures r == if current == owner then Ok(old(value)) else Err(WrongThread(current))
      ensures value == if current == owner then v else old(value)
    {
      if CheckThreadPanic(GetOwnerThreadId(), current).Panic? {
        return Err(WrongThread(current));
      }
      r := Ok(value);
      value := v;
    }

    /** `get`: a copy of the slot, only on the owner thread. */
    method Get(current: ThreadId) returns (r: Result<T>)
      ensures r.Ok? <==> current == owner
      ensures r.Ok? ==> r.value == value
      ensures r.Err? ==> r.fault == WrongThread(current)
    {
      if CheckThreadPanic(GetOwnerThreadId(), current).Panic? {
        return Err(WrongThread(current));
      }
      r := Ok(value);
    }
  }

  /** The checked cell: a value slot guarded by the borrow flag. The live
      guards are ghost; `Valid` is the invariant `Tracks` on the flag and
      the guards. */
  class SingleThreadRefCell<T> {
    var flag: isize
    var value: T
    const owner: ThreadId
    ghost var guards: Guards

    ghost function Snapshot(): State
      reads this
    {
      State(flag, guards)
    }

    ghost predicate Valid()
      reads this
    {
      Tracks(Snapshot())
    }

    /** A new cell is unused, holds `val` and belongs to the constructing
        thread. */
    constructor (val: T, current: ThreadId)
      ensures Valid() && Snapshot() == Fresh
      ensures value == val && owner == current
      ensures GetOwnerThreadId() == current
    {
      flag := UNUSED;
      value := val;
      owner := current;
      guards := NoGuards;
    }

    /** The owner fixed at construction; `owner` is never reassigned. */
    function GetOwnerThreadId(): ThreadId {
      owner
    }

    /** `BorrowRef::new` on this cell's flag: writes the incremented flag
        only when the wrapped sum is a reading value. */
    method BorrowRefNew() returns (ok: bool)
      modifies this`flag
      ensures ok <==> AcquireShared(old(flag)).Some?
      ensures flag == if ok then AcquireShared(old(flag)).value else old(flag)
    {
      var b := WrappingAdd(flag, 1);
      if !IsReading(b) {
        ok := false;
      } else {
        flag := b;
        ok := true;
      }
    }

    /** `BorrowRefMut::new` on this cell's flag: only from unused to -1. */
    method BorrowRefMutNew() returns (ok: bool)
      modifies this`flag
      ensures ok <==> AcquireExclusive(old(flag)).Some?
      ensures flag == if ok then AcquireExclusive(old(flag)).value else old(flag)
    {
      if flag == UNUSED {
        flag := UNUSED - 1;
        ok := true;
      } else {
        ok := false;
      }
    }

    /** `Drop for BorrowRef` on this cell's flag. */
    method DropBorrowRef()
      requires IsReading(flag)
      modifies this`flag
      ensures flag == ReleaseShared(old(flag))
    {
      var b := flag;
      flag := b - 1;
    }

    /** `Drop for BorrowRefMut` on this cell's flag. */
    method DropBorrowRefMut()
      requires IsWriting(flag)
      modifies this`flag
      ensures flag == ReleaseExclusive(old(flag))
    {
      var b := flag;
      flag := b + 1;
    }

    /** `borrow`: the gate, then a shared acquire. On success a new shared
        guard is alive and the value is visible through it; from a writing
        flag, or at the overflow bound, it reports "already mutably
        borrowed"; a failure of either kind changes nothing. */
    method Borrow(current: ThreadId) returns (r: Result<T>)
      requires Valid()
      modifies this`flag, this`guards
      ensures Valid() && value == old(value)
      ensures current != owner ==> r == Err(WrongThread(current)) && Snapshot() == old(Snapshot())
      ensures current == owner ==>
        if Step(old(Snapshot()), Op.Borrow).Done?
        then r == Ok(value) && Snapshot() == Step(old(Snapshot()), Op.Borrow).next
        else r == Err(BorrowFailed(AlreadyMutablyBorrowed)) && Snapshot() == old(Snapshot())
    {
      if CheckThreadPanic(GetOwnerThreadId(), current).Panic? {
        return Err(WrongThread(current));
      }
      var ok := BorrowRefNew();
      if !ok {
        return Err(BorrowFailed(AlreadyMutablyBorrowed));
      }
      guards := guards.(shared := guards.shared + 1);
      r := Ok(value);
    }

    /** `borrow_mut`: the gate, then an exclusive acquire. It succeeds only
        when no guard is alive; for any other state it reports "already
        borrowed", whether the cell is shared or exclusive, and changes
        nothing. */
    method BorrowMut(current: ThreadId) returns (r: Result<T>)
      requires Valid()
      modifies this`flag, this`guards
      ensures Valid() && value == old(value)
      ensures current != owner ==> r == Err(WrongThread(current)) && Snapshot() == old(Snapshot())
      ensures current == owner ==>
        if Step(old(Snapshot()), Op.BorrowMut).Done?
        then r == Ok(value) && Snapshot() == Step(old(Snapshot()), Op.BorrowMut).next
        else r == Err(BorrowFailed(AlreadyBorrowed)) && Snapshot() == old(Snapshot())
    {
      if CheckThreadPanic(GetOwnerThreadId(), current).Panic? {
        return Err(WrongThread(current));
      }
      var ok := BorrowRefMutNew();
      if !ok {
        return Err(BorrowFailed(AlreadyBorrowed));
      }
      guards := guards.(exclusive := true);
      r := Ok(value);
    }

    /** Dropping a shared guard (`SingleThreadRef` going out of scope). */
    method DropRef()
      requires Valid() && guards.shared > 0
      modifies this`flag, this`guards
      ensures Valid()
      ensures Step(old(Snapshot()), Op.DropRef) == Done(Snapshot())
    {
      DropBorrowRef();
      guards := guards.(shared := guards.shared - 1);
    }

    /** Dropping the exclusive guard (`SingleThreadRefMut` going out of
        scope): the cell is unused again. */
    method DropRefMut()
      requires Valid() && guards.exclusive
      modifies this`flag, this`guards
      ensures Valid()
      ensures Step(old(Snapshot()), Op.DropRefMut) == Done(Snapshot())
    {
      DropBorrowRefMut();
      guards := guards.(exclusive := false);
    }

    /** Reading through a live guard of either kind (`Deref`). */
    method Deref() returns (v: T)
      requires Valid() && (guards.shared > 0 || guards.exclusive)
      ensures v == value
    {
      v := value;
    }

    /** Writing through the live exclusive guard (`DerefMut`). */
    method DerefMut(v: T)
      requires Valid() && guards.exclusive
      modifies this`value
      ensures Valid() && value == v
    {
      value := v;
    }
  }
}
