/** The borrow-tracking state machine of `SingleThreadRefCell`.

    The state is one signed machine word, the borrow flag: 0 means unused,
    a positive value n means n live shared guards, and -1 means one live
    exclusive guard. The functions below are the transitions on the flag
    as the source computes them; `Step` lifts them to a state that also
    records which guards are alive, and `Tracks` is the invariant tying the
    two together. */
module BorrowFlag {

  const ISIZE_MIN: int := -0x8000_0000_0000_0000
  const ISIZE_MAX: int := 0x7FFF_FFFF_FFFF_FFFF
  /** 2^64: the period of two's-complement wrap-around on `isize`. */
  const MODULUS: int := 0x1_0000_0000_0000_0000

  /** Rust's `isize` on a 64-bit target. */
  newtype isize = x: int | -0x8000_0000_0000_0000 <= x <= 0x7FFF_FFFF_FFFF_FFFF

  const UNUSED: isize := 0

  predicate IsWriting(x: isize) { x < UNUSED }

  predicate IsReading(x: isize) { x > UNUSED }

  datatype Option<T> = None | Some(value: T)

  /** `isize::wrapping_add`: the sum taken modulo 2^64 back into range. */
  function WrappingAdd(a: isize, b: isize): (r: isize)
    ensures (r as int - (a as int + b as int)) % MODULUS == 0
    ensures ISIZE_MIN <= a as int + b as int <= ISIZE_MAX ==> r as int == a as int + b as int
    ensures a as int + b as int > ISIZE_MAX ==> r as int == a as int + b as int - MODULUS
  {
    var s := a as int + b as int;
    var wrapped := (s - ISIZE_MIN) % MODULUS + ISIZE_MIN;
    assert (s - ISIZE_MIN) % MODULUS == (s - ISIZE_MIN) - ((s - ISIZE_MIN) / MODULUS) * MODULUS;
    wrapped as isize
  }

  /** `BorrowRef::new`: the flag after taking one more shared borrow, or
      None when the flag is writing or the count would overflow; in both
      failure cases the wrapped sum is not a reading value. */
  function AcquireShared(flag: isize): (r: Option<isize>)
    ensures r.Some? <==> !IsWriting(flag) && flag as int < ISIZE_MAX
    ensures r.Some? ==> r.value as int == flag as int + 1 && IsReading(r.value)
  {
    var b := WrappingAdd(flag, 1);
    if !IsReading(b) then None else Some(b)
  }

  /** `BorrowRefMut::new`: only an unused flag can become exclusive. */
  function AcquireExclusive(flag: isize): (r: Option<isize>)
    ensures r.Some? <==> flag == UNUSED
    ensures r.Some? ==> IsWriting(r.value) && r.value as int == UNUSED as int - 1
  {
    match flag
    case 0 => Some(UNUSED - 1)
    case _ => None
  }

  /** `Drop for BorrowRef`: one shared borrow fewer. */
  function ReleaseShared(flag: isize): (r: isize)
    requires IsReading(flag)
    ensures !IsWriting(r) && r as int == flag as int - 1
    ensures r == UNUSED <==> flag as int == 1
  {
    flag - 1
  }

  /** `Drop for BorrowRefMut`: the exclusive borrow ends; from the one
      reachable writing value, -1, this is back to unused. */
  function ReleaseExclusive(flag: isize): (r: isize)
    requires IsWriting(flag)
    ensures r as int == flag as int + 1 && !IsReading(r)
    ensures flag as int == -1 ==> r == UNUSED
  {
    flag + 1
  }

  /** The live guards of one cell. */
  datatype Guards = Guards(shared: nat, exclusive: bool)

  const NoGuards: Guards := Guards(0, false)

  /** A cell's borrow flag together with the guards alive on it. */
  datatype State = State(flag: isize, guards: Guards)

  /** The state of a freshly constructed cell. */
  const Fresh: State := State(UNUSED, NoGuards)

  /** The invariant: either the flag counts the live shared guards and no
      exclusive guard exists, or the flag is -1, exactly one exclusive guard
      exists and no shared one. */
  predicate Tracks(s: State) {
    || (s.flag >= 0 && s.flag as int == s.guards.shared && !s.guards.exclusive)
    || (s.flag as int == -1 && s.guards.shared == 0 && s.guards.exclusive)
  }

  /** What the owner thread can do to a cell: take a shared or exclusive
      borrow, or drop a guard of either kind. */
  datatype Op = Borrow | BorrowMut | DropRef | DropRefMut

  /** A guard can only be dropped while it is alive. */
  predicate Legal(s: State, op: Op) {
    match op
    case DropRef => s.guards.shared > 0
    case DropRefMut => s.guards.exclusive
    case _ => true
  }

  /** The two failure reports of the borrow wrappers. */
  datatype BorrowError = AlreadyBorrowed | AlreadyMutablyBorrowed

  datatype Outcome = Done(next: State) | Failed(error: BorrowError)

  /** One operation on the owner thread, as `borrow`, `borrow_mut` and the
      two guard drops perform it on the flag. The contract states each
      transition on the guards: when it succeeds, what it reports when it
      fails, and that the invariant survives. */
  function Step(s: State, op: Op): (o: Outcome)
    requires Tracks(s) && Legal(s, op)
    ensures o.Done? ==> Tracks(o.next)
    ensures op == Op.Borrow ==>
      && (o.Done? <==> !s.guards.exclusive && s.guards.shared < ISIZE_MAX)
      && (o.Done? ==> o.next.guards == Guards(s.guards.shared + 1, false))
      && (o.Failed? ==> o.error == AlreadyMutablyBorrowed)
    ensures op == Op.BorrowMut ==>
      && (o.Done? <==> s.guards == NoGuards)
      && (o.Done? ==> o.next.guards == Guards(0, true))
      && (o.Failed? ==> o.error == AlreadyBorrowed)
    ensures op == Op.DropRef ==>
      o.Done? && o.next.guards == Guards(s.guards.shared - 1, false)
    ensures op == Op.DropRefMut ==>
      o.Done? && o.next == Fresh
  {
    match op
    case Borrow =>
      (match AcquireShared(s.flag)
       case Some(f) => Done(State(f, s.guards.(shared := s.guards.shared + 1)))
       case None => Failed(AlreadyMutablyBorrowed))
    case BorrowMut =>
      (match AcquireExclusive(s.flag)
       case Some(f) => Done(State(f, s.guards.(exclusive := true)))
       case None => Failed(AlreadyBorrowed))
    case DropRef =>
      Done(State(ReleaseShared(s.flag), s.guards.(shared := s.guards.shared - 1)))
    case DropRefMut =>
      Done(State(ReleaseExclusive(s.flag), s.guards.(exclusive := false)))
  }

  /** A sequence of operations on the owner thread. A borrow that fails
      panics without writing the flag, so a caller that catches the panic
      sees the state unchanged; a drop with no live guard of its kind cannot
      be written in the source (there is no guard to drop) and yields None. */
  function Run(s: State, ops: seq<Op>): (r: Option<State>)
    requires Tracks(s)
    ensures r.Some? ==> Tracks(r.value)
    ensures (forall i :: 0 <= i < |ops| ==> ops[i] != Op.DropRef && ops[i] != Op.DropRefMut) ==> r.Some?
    decreases |ops|
  {
    if ops == [] then Some(s)
    else if !Legal(s, ops[0]) then None
    else match Step(s, ops[0])
      case Done(next) => Run(next, ops[1..])
      case Failed(_) => Run(s, ops[1..])
  }

  /** The flag's three regions do not overlap and cover every value; under
      the invariant the writing region holds only -1, and a reading flag is
      the number of live shared guards. */
  lemma FlagRegions(s: State)
    ensures IsWriting(s.flag) || s.flag == UNUSED || IsReading(s.flag)
    ensures !(IsWriting(s.flag) && IsReading(s.flag))
    ensures s.flag == UNUSED ==> !IsWriting(s.flag) && !IsReading(s.flag)
    ensures Tracks(s) && IsWriting(s.flag) ==> s.flag as int == -1 && s.guards.exclusive
    ensures Tracks(s) && IsReading(s.flag) ==> s.flag as int == s.guards.shared && !s.guards.exclusive
  {
  }

  /** Overflow guard: at `isize::MAX` the incremented flag wraps to the most
      negative value, so the shared acquire fails and nothing is written. */
  lemma SharedOverflowFails()
    ensures WrappingAdd(ISIZE_MAX as isize, 1) as int == ISIZE_MIN
    ensures AcquireShared(ISIZE_MAX as isize) == None
    ensures Step(State(ISIZE_MAX as isize, Guards(ISIZE_MAX, false)), Op.Borrow) == Failed(AlreadyMutablyBorrowed)
  {
  }

  /** Any number of shared guards can be alive at once: k borrows from n
      live shared guards leave n + k of them, as long as the count fits in
      an `isize`. */
  lemma {:induction false} SharedBorrowsAccumulate(n: nat, k: nat)
    requires n + k <= ISIZE_MAX
    ensures Run(State(n as isize, Guards(n, false)), seq(k, _ => Op.Borrow))
         == Some(State((n + k) as isize, Guards(n + k, false)))
    decreases k
  {
    var ops := seq(k, _ => Op.Borrow);
    if k > 0 {
      var s := State(n as isize, Guards(n, false));
      assert ops[0] == Op.Borrow;
      assert Step(s, Op.Borrow) == Done(State((n + 1) as isize, Guards(n + 1, false)));
      assert ops[1..] == seq(k - 1, _ => Op.Borrow);
      SharedBorrowsAccumulate(n + 1, k - 1);
    }
  }

  /** Dropping every live shared guard returns the flag to unused, after
      which an exclusive borrow succeeds again. */
  lemma {:induction false} DropAllThenBorrowMut(n: nat)
    requires n <= ISIZE_MAX
    ensures Run(State(n as isize, Guards(n, false)), seq(n, _ => Op.DropRef) + [Op.BorrowMut])
         == Some(State(-1, Guards(0, true)))
  {
    var s := State(n as isize, Guards(n, false));
    var ops := seq(n, _ => Op.DropRef) + [Op.BorrowMut];
    if n == 0 {
      assert ops == [Op.BorrowMut];
      assert Step(s, Op.BorrowMut) == Done(State(-1, Guards(0, true)));
    } else {
      assert ops[0] == Op.DropRef;
      assert Step(s, Op.DropRef) == Done(State((n - 1) as isize, Guards(n - 1, false)));
      assert ops[1..] == seq(n - 1, _ => Op.DropRef) + [Op.BorrowMut];
      DropAllThenBorrowMut(n - 1);
    }
  }

  /** While an exclusive guard is alive, every borrow attempt fails and
      changes nothing: a shared one reports "already mutably borrowed", an
      exclusive one "already borrowed". */
  lemma {:induction false} ExclusiveBlocksAll(s: State, ops: seq<Op>)
    requires Tracks(s) && s.guards.exclusive
    requires forall i :: 0 <= i < |ops| ==> ops[i] == Op.Borrow || ops[i] == Op.BorrowMut
    ensures Run(s, ops) == Some(s)
    decreases |ops|
  {
    if ops != [] {
      assert Step(s, ops[0]).Failed?;
      ExclusiveBlocksAll(s, ops[1..]);
    }
  }
}
