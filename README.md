# single_thread_cell in Dafny

A model of the Rust crate `single_thread_cell`. The crate offers two cells whose contents only the thread that created them may touch:

- `SingleThreadRefCell` is a `RefCell` whose every access first checks the calling thread. It tracks borrows at run time with a signed borrow flag: 0 means unused, n > 0 means n live shared guards, and -1 means one live exclusive guard.
- `SingleThreadCell` is a plain slot with `get`, `set` and `replace`, behind the same thread check.

Layout:

- `thread_gate.dfy` (module `ThreadGate`) models `src/types.rs`. It holds the two thread checks as pure functions of the owner id and the calling thread's id.
- `borrow_flag.dfy` (module `BorrowFlag`) holds the pieces of the state machine.
  - The flag is an `isize`, with `wrapping_add` written out.
  - The four flag transitions are pure functions.
  - `Step` lifts them to a state that also records the live guards. `Tracks` is the invariant tying the flag to the guards.
  - `Run` plays a sequence of operations. The lemmas about the protocol sit beside it.
- `cells.dfy` (module `Cells`) has both cells as classes.
  - `flag`, `value` and the constant `owner` are fields.
  - The live guards are a ghost field.
  - `BorrowRef::new`, `BorrowRefMut::new` and the two `Drop` impls are methods that update `flag` in place. Each is specified by the matching pure transition.
  - `Borrow` and `BorrowMut` run the gate and then the transition. Each is specified by `Step`.
- `scenarios.dfy` (module `Scenarios`) replays the tests of `tests/test.rs` as methods. Each method's postcondition is what the test asserts.

The calling thread is an explicit `ThreadId` parameter. A panic becomes an `Err` result, and a failed call leaves the cell exactly as it was. That matches the source, where a panic unwinds before the flag or the slot is written. The result reports one of the fault kinds: wrong thread, already borrowed (`BorrowFailed(AlreadyBorrowed)`), or already mutably borrowed.

`borrow_mut` reports "already borrowed" in every failing state, including the one where an exclusive guard is alive (src/lib.rs:145-147). The model keeps that choice: `Step` and `BorrowMut` report `AlreadyBorrowed` whenever the exclusive acquire fails. Only `borrow` reports "already mutably borrowed", both for a writing flag and at the overflow bound (src/lib.rs:126-128).

## Model

| member | source | states |
|---|---|---|
| ThreadGate.CheckSameThread | src/types.rs:15-19 | true exactly when the calling thread's id equals the owner id |
| ThreadGate.CheckThreadPanic | src/types.rs:6-13 | passes exactly on the owner thread; on any other thread it fails and reports the calling thread's id |
| ThreadGate.PanicIffNotSameThread | src/types.rs:8-19 | the panicking check returns normally if and only if `check_same_thread` is true, and otherwise panics with the caller's id |
| BorrowFlag.IsWriting | src/lib.rs:21-24 | a flag below `UNUSED` marks an exclusive borrow; `FlagRegions` states what this region holds |
| BorrowFlag.IsReading | src/lib.rs:26-29 | a flag above `UNUSED` marks shared borrows; `FlagRegions` states what this region holds |
| BorrowFlag.FlagRegions | src/lib.rs:18-29 | every flag is exactly one of writing, `UNUSED` or reading; under the invariant a writing flag is -1 with the exclusive guard alive, and a reading flag equals the number of live shared guards |
| BorrowFlag.WrappingAdd | src/lib.rs:179 | `isize::wrapping_add`: the result is congruent to the sum modulo 2^64; it equals the sum when in range and the sum minus 2^64 on overflow |
| BorrowFlag.AcquireShared | src/lib.rs:175-187 | `BorrowRef::new` succeeds exactly when the flag is not writing and below `isize::MAX`, and the new flag is the old one plus one (a reading value) |
| BorrowFlag.AcquireExclusive | src/lib.rs:196-211 | `BorrowRefMut::new` succeeds exactly from `UNUSED`, and the new flag is `UNUSED - 1`, a writing value |
| BorrowFlag.ReleaseShared | src/lib.rs:226-237 | from a reading flag (the `debug_assert`) the flag drops by exactly one, stays non-negative, and becomes `UNUSED` exactly when it was 1 |
| BorrowFlag.ReleaseExclusive | src/lib.rs:239-250 | from a writing flag (the `debug_assert`) the flag rises by exactly one, is not reading, and -1 returns to `UNUSED` |
| BorrowFlag.Step | src/lib.rs:117-149 | each operation on a state satisfying the flag/guard invariant keeps it. `borrow` succeeds iff no exclusive guard is alive and the count is below `isize::MAX`, adds one shared guard, and otherwise reports "already mutably borrowed". `borrow_mut` succeeds iff no guard is alive, creates the exclusive guard, and otherwise reports "already borrowed". A shared drop removes one shared guard. The exclusive drop returns the cell to the fresh state |
| BorrowFlag.Run | src/lib.rs:110-150 | any sequence of borrows and drops of live guards keeps the flag/guard invariant; a sequence without drops always runs to completion |
| BorrowFlag.SharedOverflowFails | src/lib.rs:179-182 | at `isize::MAX` the incremented flag wraps to `isize::MIN`, the shared acquire fails, and the borrow reports "already mutably borrowed" |
| BorrowFlag.SharedBorrowsAccumulate | src/lib.rs:111-113 | k shared borrows taken while n shared guards are alive leave n + k guards and flag n + k, whenever n + k fits in an `isize` |
| BorrowFlag.DropAllThenBorrowMut | src/lib.rs:204-237 | dropping all n shared guards returns the flag to `UNUSED`, after which `borrow_mut` succeeds and sets the flag to -1 |
| BorrowFlag.ExclusiveBlocksAll | src/lib.rs:121-148 | while the exclusive guard is alive, any sequence of borrow attempts fails and leaves the state unchanged |
| Cells.SingleThreadCell.constructor | src/lib.rs:64-69 | the slot holds the given value, and the owner (`get_owner_thread_id`, src/lib.rs:54-56) is the constructing thread |
| Cells.SingleThreadCell.Set | src/lib.rs:71-80 | on the owner thread the slot becomes `v`; on any other thread it fails with the caller's id and the slot is unchanged |
| Cells.SingleThreadCell.Replace | src/lib.rs:82-91 | on the owner thread it returns the previous value and leaves `v` in the slot; on any other thread it fails and changes nothing |
| Cells.SingleThreadCell.Get | src/lib.rs:158-165 | on the owner thread it returns the slot's value; on any other thread it fails with the caller's id; it never changes the cell |
| Cells.SingleThreadRefCell.constructor | src/lib.rs:100-107 | the flag is `UNUSED`, no guard is alive, the value is the given one, and the owner (`get_owner_thread_id`, src/lib.rs:152-155) is the constructing thread |
| Cells.SingleThreadRefCell.BorrowRefNew | src/lib.rs:178-187 | the in-place shared acquire writes `AcquireShared`'s flag on success and leaves the flag unwritten on failure |
| Cells.SingleThreadRefCell.BorrowRefMutNew | src/lib.rs:199-211 | the in-place exclusive acquire writes `AcquireExclusive`'s flag on success and leaves the flag unwritten on failure |
| Cells.SingleThreadRefCell.DropBorrowRef | src/lib.rs:226-237 | the in-place shared release sets the flag to `ReleaseShared` of the old flag |
| Cells.SingleThreadRefCell.DropBorrowRefMut | src/lib.rs:239-250 | the in-place exclusive release sets the flag to `ReleaseExclusive` of the old flag |
| Cells.SingleThreadRefCell.Borrow | src/lib.rs:117-130 | keeps the invariant and never changes the value. A wrong-thread call fails with the caller's id and changes nothing, whatever the flag. On the owner thread the flag and guards move exactly as `Step` says, the result is the value seen through the new guard, and on failure it reports "already mutably borrowed" and changes nothing |
| Cells.SingleThreadRefCell.BorrowMut | src/lib.rs:136-149 | keeps the invariant and never changes the value. A wrong-thread call fails and changes nothing. On the owner thread it behaves as `Step` says, and on failure it reports "already borrowed" and changes nothing |
| Cells.SingleThreadRefCell.DropRef | src/lib.rs:214-237 | dropping a live shared guard keeps the invariant and performs `Step`'s shared release |
| Cells.SingleThreadRefCell.DropRefMut | src/lib.rs:220-250 | dropping the live exclusive guard keeps the invariant and returns the cell to the fresh, unused state |
| Cells.SingleThreadRefCell.Deref | src/lib.rs:253-265 | reading through a live guard of either kind yields the cell's value and changes nothing |
| Cells.SingleThreadRefCell.DerefMut | src/lib.rs:267-271 | writing through the live exclusive guard sets the value and keeps the invariant |
| Scenarios.PlainCellGetSet | tests/test.rs:5-11 | a plain cell made with 0 reads 0, and after `set(1)` reads 1 |
| Scenarios.PlainCellReplace | src/lib.rs:86-91 | `replace(y)` on a cell holding x returns x, and `get` then returns y |
| Scenarios.RefCellCountsToThree | tests/test.rs:13-33 | a fresh cell reads 0; after each of three sequential `*borrow_mut() += 1` the next `borrow` reads 1, 2, then 3, and a further borrow reads 3 again; two shared guards can then be alive at once, both reading 3 |
| Scenarios.TwiceMutFails | tests/test.rs:35-41 | a second `borrow_mut` while the first guard is alive fails with "already borrowed" |
| Scenarios.SharedThenMutFails | tests/test.rs:43-49 | `borrow_mut` while a shared guard is alive fails with "already borrowed" |
| Scenarios.MutThenSharedFails | tests/test.rs:51-57 | `borrow` while the exclusive guard is alive fails with "already mutably borrowed" |
| Scenarios.OtherThreadBorrowFails | tests/test.rs:59-81 | after the owner writes 1, a different thread's `borrow` on the checked cell and `get` on the plain cell both fail as wrong-thread accesses, while the owner reads 1 |
| Scenarios.OtherThreadWriteFails | tests/test.rs:83-106 | after the owner writes 1, a different thread's `borrow_mut` and `set` fail as wrong-thread accesses, and both cells still read 1 on the owner thread |

## Left out

- Real threads: `std::thread::current().id()`, `thread::spawn`, `join` and `Arc` sharing. The calling thread is a parameter of every access, and a thread that panics is modelled by an `Err` result.
- `Send`/`Sync` impls and the `PhantomData<Rc<()>>` markers. These are compile-time facts about which values may cross threads, so there is nothing to model at run time. The same goes for the compile-time send checks in tests/test_send.rs.
- Dropping a cell from another thread (tests/test_drop.rs). Neither cell has a `Drop` impl, so the gate is never run at teardown.
- `UnsafeCell`, `NonNull` and lifetimes. A guard is not an object of its own. The live guards are a ghost count in the cell. Dropping a guard is a call on the cell that requires such a guard to be alive, which the source's types guarantee.
- `Deref`/`DerefMut` become reads and writes of the cell's value while a guard is alive. Aliasing of the returned references is not modelled.
- The `Default` impls (src/lib.rs:273-283). They only call `new` with `T::default()`.
- Panic messages, `#[track_caller]` and `#[cold]`. Only the kind of failure is kept.
- `isize` is taken to be 64 bits wide. The overflow bound `isize::MAX` is unreachable in practice, but the model handles it anyway.
- BorrowFlag.Run: a borrow that fails is modelled as a panic the caller catches, so the state is unchanged and the sequence goes on. A drop with no live guard of its kind cannot be written in the source, and it ends the run with `None`.
- Cells.SingleThreadCell.GetOwnerThreadId and Cells.SingleThreadRefCell.GetOwnerThreadId carry no contract of their own. `owner` is a constant field, and each constructor states that the owner is the constructing thread.
