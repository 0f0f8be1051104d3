/** The spinning lock's objects: the counter of src/myatomic_1.h with its wrap-around,
    and tAtomicRWLock, whose operations are tied one by one to the state machine. */
module SpinLockClass {
  import opened SpinLock

  newtype uint32 = x: int | 0 <= x < 0x1_0000_0000

  /** atomic_t, every operation under the module's mutex. */
  class AtomicCounter {
    var ctr: uint32

    constructor (v: uint32)
      ensures ctr == v
    {
      ctr := v;
    }

    method Set(v: uint32)
      modifies this
      ensures ctr == v
    {
      ctr := v;
    }

    method Increment()
      modifies this
      ensures ctr as int == Inc(old(ctr) as int) == (old(ctr) as int + 1) % 0x1_0000_0000
    {
      ctr := if ctr == 0xFFFF_FFFF then 0 else ctr + 1;
    }

    method DecrementAndTest() returns (zero: bool)
      modifies this
      ensures ctr as int == Dec(old(ctr) as int) == (old(ctr) as int - 1) % 0x1_0000_0000
      ensures zero == (ctr == 0)
    {
      var newval := if ctr == 0 then 0xFFFF_FFFF else ctr - 1;
      ctr := newval;
      zero := newval == 0;
    }
  }

  class AtomicRWLock {
    const lock: AtomicCounter
    const readcount: AtomicCounter
    ghost var pc: seq<PC>
    ghost var version: nat
    ghost var seen: seq<nat>

    ghost function View(): State
      reads this, lock, readcount
    {
      State(lock.ctr as int, readcount.ctr as int, pc, version, seen)
    }

    constructor (ghost n: nat)
      ensures lock != readcount && fresh(lock) && fresh(readcount)
      ensures View() == Init(n) && lock.ctr == readcount.ctr == 1
      ensures |pc| == n && forall t :: 0 <= t < n ==> pc[t].Idle?
    {
      lock := new AtomicCounter(0);
      readcount := new AtomicCounter(0);
      pc, version, seen := seq(n, _ => Idle), 0, seq(n, _ => 0);
      new;
      lock.Set(1);
      readcount.Set(1);
    }

    /** A call that goes through atomic_lock(&lock) enters it; nothing is touched yet. */
    method EnterLock(a: Call, ghost t: nat) returns (mode: Mode)
      requires Enabled(View(), t, a) && (a.BeginRead? || a.BeginWrite? || a.BeginUpgrade?)
      modifies this`pc
      ensures View() == Step(old(View()), t, a) && pc[t] == TryLock(mode)
      ensures mode == match a case BeginRead => ForRead case BeginWrite => ForWrite case _ => ForUpgrade
    {
      mode := match a case BeginRead => ForRead case BeginWrite => ForWrite case _ => ForUpgrade;
      pc := pc[t := TryLock(mode)];
    }

    /** One turn of the loop of atomic_lock on `lock`: a try, or the taking back of a failed one. */
    method SpinOnLock(mode: Mode, undo: bool, ghost t: nat) returns (next: PC)
      requires lock != readcount
      requires Enabled(View(), t, Continue) && pc[t] == if undo then UndoLock(mode) else TryLock(mode)
      modifies this, lock
      ensures View() == Step(old(View()), t, Continue) && next == pc[t]
    {
      if undo {
        lock.Increment();
        next := TryLock(mode);
      } else {
        var zero := lock.DecrementAndTest();
        next := if zero then AfterLock(mode) else UndoLock(mode);
      }
      pc := pc[t := next];
    }

    /** One turn of the loop of atomic_lock on `readcount`. */
    method SpinOnCount(up: bool, undo: bool, ghost t: nat) returns (next: PC)
      requires lock != readcount
      requires Enabled(View(), t, Continue) && pc[t] == if undo then UndoCount(up) else TryCount(up)
      modifies this, readcount
      ensures View() == Step(old(View()), t, Continue) && next == pc[t]
    {
      if undo {
        readcount.Increment();
        next := TryCount(up);
      } else {
        var zero := readcount.DecrementAndTest();
        next := if zero then GotCount(up) else UndoCount(up);
      }
      pc := pc[t := next];
    }

    /** atomic_readlock_acquire once it holds `lock`: count the reader in. */
    method CountReaderIn(ghost t: nat)
      requires lock != readcount
      requires Enabled(View(), t, Continue) && pc[t] == IncCount
      modifies this, readcount
      ensures View() == Step(old(View()), t, Continue)
    {
      readcount.Increment();
      seen := seen[t := version];
      pc := pc[t := OpenLock];
    }

    /** atomic_unlock on `lock`, as the last operation of atomic_readlock_acquire, of
        atomic_writelock_downgrade or of atomic_writelock_release. */
    method ReleaseLock(ghost t: nat)
      requires lock != readcount && t < |pc|
      requires pc[t] == OpenLock || pc[t] == DownOpen || pc[t] == Writing
      requires Enabled(View(), t, if pc[t] == Writing then EndWrite else Continue)
      modifies this, lock
      ensures View() == Step(old(View()), t, if old(pc)[t] == Writing then EndWrite else Continue)
    {
      lock.Increment();
      pc := pc[t := if pc[t] == Writing then Idle else Reading];
    }

    /** atomic_readlock_release, called by a reader (in an upgrade: by the upgrader
        itself).  Reports when the counter reaches zero. */
    method ReleaseRead(upgrading: bool, ghost t: nat) returns (reported: bool)
      requires lock != readcount
      requires Enabled(View(), t, if upgrading then Continue else EndRead)
      requires pc[t] == if upgrading then DropRead else Reading
      modifies this, readcount
      ensures View() == Step(old(View()), t, if upgrading then Continue else EndRead)
      ensures reported == old(Reports(View(), t, if upgrading then Continue else EndRead))
    {
      reported := readcount.DecrementAndTest();
      pc := pc[t := if upgrading then TryCount(true) else Idle];
    }

    /** The atomic_unlock on `readcount` that begins the write section. */
    method BeginWriteSection(up: bool, ghost t: nat)
      requires lock != readcount
      requires Enabled(View(), t, Continue) && pc[t] == GotCount(up)
      modifies this, readcount
      ensures View() == Step(old(View()), t, Continue)
    {
      readcount.Increment();
      version := version + 1;
      pc := pc[t := Writing];
    }

    /** The first operation of atomic_writelock_downgrade. */
    method Downgrade(ghost t: nat)
      requires lock != readcount
      requires Enabled(View(), t, BeginDowngrade) && pc[t] == Writing
      modifies this, readcount
      ensures View() == Step(old(View()), t, BeginDowngrade)
    {
      readcount.Increment();
      seen := seen[t := version];
      pc := pc[t := DownOpen];
    }
  }
}
