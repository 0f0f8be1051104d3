/** The spinning readers/writer lock tAtomicRWLock (src/frame_utils.h) over two
    unsigned 32-bit counters (src/myatomic_1.h), as a state machine in which every
    atomic_inc and atomic_dec_and_test is one step of one thread. */
module SpinLock {
  import opened Counting

  const WRAP: int := 0x1_0000_0000

  /** What a thread in atomic_lock(&lock) wants the lock for. */
  datatype Mode = ForRead | ForWrite | ForUpgrade

  /** Where a thread is.  TryLock and UndoLock are the loop of atomic_lock on `lock`;
      TryCount, UndoCount and GotCount the loop on `readcount` and the unlock after it. */
  datatype PC =
    | Idle
    | TryLock(mode: Mode)
    | UndoLock(mode: Mode)
    | IncCount                 // atomic_readlock_acquire, holding lock
    | OpenLock                 // the same, after the increment
    | Reading
    | DropRead                 // atomic_writelock_upgrade, about to release its own read
    | TryCount(up: bool)
    | UndoCount(up: bool)
    | GotCount(up: bool)
    | Writing
    | DownOpen                 // atomic_writelock_downgrade, after the increment

  /** The calls a thread may make when it is between calls. */
  datatype Call = BeginRead | BeginWrite | EndRead | EndWrite | BeginUpgrade | BeginDowngrade | Continue

  /** The counters, the threads, and two auxiliary histories: how many write sections
      have begun, and how many had begun when each thread got the read it holds. */
  datatype State = State(lock: int, count: int, pc: seq<PC>, version: nat, seen: seq<nat>)

  function Init(n: nat): State {
    State(1, 1, seq(n, _ => Idle), 0, seq(n, _ => 0))
  }

  function Inc(c: int): int {
    (c + 1) % WRAP
  }

  function Dec(c: int): int {
    (c - 1) % WRAP
  }

  predicate MayCall(p: PC, a: Call) {
    match p
    case Idle => a.BeginRead? || a.BeginWrite?
    case Reading => a.EndRead? || a.BeginUpgrade?
    case Writing => a.EndWrite? || a.BeginDowngrade?
    case _ => a.Continue?
  }

  predicate Enabled(s: State, t: nat, a: Call) {
    t < |s.pc| && |s.seen| == |s.pc| && MayCall(s.pc[t], a)
  }

  function Goto(s: State, t: nat, p: PC): State
    requires t < |s.pc|
  {
    s.(pc := s.pc[t := p])
  }

  /** Where atomic_lock(&lock) continues once its test has succeeded. */
  function AfterLock(m: Mode): PC {
    match m
    case ForRead => IncCount
    case ForWrite => TryCount(false)
    case ForUpgrade => DropRead
  }

  /** One atomic operation of thread t. */
  function Step(s: State, t: nat, a: Call): (r: State)
    requires Enabled(s, t, a)
    ensures |r.pc| == |s.pc| && |r.seen| == |s.seen|
  {
    match s.pc[t]
    case Idle => Goto(s, t, TryLock(if a.BeginRead? then ForRead else ForWrite))
    case TryLock(m) =>
      Goto(s.(lock := Dec(s.lock)), t, if Dec(s.lock) == 0 then AfterLock(m) else UndoLock(m))
    case UndoLock(m) => Goto(s.(lock := Inc(s.lock)), t, TryLock(m))
    case IncCount => Goto(s.(count := Inc(s.count), seen := s.seen[t := s.version]), t, OpenLock)
    case OpenLock => Goto(s.(lock := Inc(s.lock)), t, Reading)
    case Reading =>
      if a.EndRead? then Goto(s.(count := Dec(s.count)), t, Idle) else Goto(s, t, TryLock(ForUpgrade))
    case DropRead => Goto(s.(count := Dec(s.count)), t, TryCount(true))
    case TryCount(up) =>
      Goto(s.(count := Dec(s.count)), t, if Dec(s.count) == 0 then GotCount(up) else UndoCount(up))
    case UndoCount(up) => Goto(s.(count := Inc(s.count)), t, TryCount(up))
    case GotCount(_) => Goto(s.(count := Inc(s.count), version := s.version + 1), t, Writing)
    case Writing =>
      if a.EndWrite? then Goto(s.(lock := Inc(s.lock)), t, Idle)
      else Goto(s.(count := Inc(s.count), seen := s.seen[t := s.version]), t, DownOpen)
    case DownOpen => Goto(s.(lock := Inc(s.lock)), t, Reading)
  }

  /** atomic_readlock_release reports "decrementing read count more often than
      incrementing it" in this step. */
  predicate Reports(s: State, t: nat, a: Call)
    requires Enabled(s, t, a)
  {
    (a.EndRead? || s.pc[t].DropRead?) && Dec(s.count) == 0
  }

  // ---- The two counters against the threads ----

  /** Has taken `lock` down to zero and not yet put it back. */
  predicate Holds(p: PC) {
    p.IncCount? || p.OpenLock? || p.DropRead? || p.TryCount? || p.UndoCount? || p.GotCount? || p.Writing? || p.DownOpen?
  }

  predicate InUndoLock(p: PC) { p.UndoLock? }

  /** Has an increment of `readcount` standing. */
  predicate Counted(p: PC) {
    p.OpenLock? || p.Reading? || p == TryLock(ForUpgrade) || p == UndoLock(ForUpgrade) || p.DropRead? || p.DownOpen?
  }

  /** Has a temporary decrement of `readcount` standing. */
  predicate InUndoCount(p: PC) { p.UndoCount? || p.GotCount? }

  /** Has seen that nobody reads. */
  predicate Alone(p: PC) { p.GotCount? || p.Writing? }

  /** Owns a read in the eyes of a caller: from the read's acquisition up to its
      release or to the moment an upgrade turns it into a write. */
  predicate Protected(p: PC) {
    Counted(p) || p == TryCount(true) || p == UndoCount(true) || p == GotCount(true)
  }

  predicate IsWriting(p: PC) { p.Writing? }

  ghost predicate Inv(s: State) {
    && |s.pc| < WRAP && |s.seen| == |s.pc|
    && s.lock == (1 - Count(s.pc, Holds) - Count(s.pc, InUndoLock)) % WRAP
    && s.count == (1 + Count(s.pc, Counted) - Count(s.pc, InUndoCount)) % WRAP
    && Count(s.pc, Holds) <= 1
    && (Count(s.pc, Alone) > 0 ==> Count(s.pc, Counted) == 0)
    && (forall t :: 0 <= t < |s.pc| && Protected(s.pc[t]) ==> s.seen[t] == s.version)
  }

  lemma PcUpdate(pc: seq<PC>, t: nat, v: PC)
    requires t < |pc|
    ensures var r := pc[t := v];
            && Count(r, Holds) == Count(pc, Holds) - One(Holds(pc[t])) + One(Holds(v))
            && Count(r, InUndoLock) == Count(pc, InUndoLock) - One(InUndoLock(pc[t])) + One(InUndoLock(v))
            && Count(r, Counted) == Count(pc, Counted) - One(Counted(pc[t])) + One(Counted(v))
            && Count(r, InUndoCount) == Count(pc, InUndoCount) - One(InUndoCount(pc[t])) + One(InUndoCount(v))
            && Count(r, Alone) == Count(pc, Alone) - One(Alone(pc[t])) + One(Alone(v))
  {
    CountUpdate(pc, t, v, Holds);
    CountUpdate(pc, t, v, InUndoLock);
    CountUpdate(pc, t, v, Counted);
    CountUpdate(pc, t, v, InUndoCount);
    CountUpdate(pc, t, v, Alone);
  }

  /** The orders between the counts that hold whatever the threads do. */
  lemma CountOrders(pc: seq<PC>)
    ensures Count(pc, InUndoCount) <= Count(pc, Holds) && Count(pc, Alone) <= Count(pc, Holds)
    ensures Count(pc, Counted) <= |pc| && Count(pc, Holds) + Count(pc, InUndoLock) <= |pc|
  {
    CountMono(pc, InUndoCount, Holds);
    CountMono(pc, Alone, Holds);
    CountBounds(pc, Counted);
    HoldsOrUndoes(pc);
  }

  lemma {:induction false} HoldsOrUndoes(pc: seq<PC>)
    ensures Count(pc, Holds) + Count(pc, InUndoLock) <= |pc|
  {
    if pc != [] {
      HoldsOrUndoes(pc[1..]);
    }
  }

  /** A small number is zero modulo 2^32 only if it is zero: where "fewer than 2^32
      threads" is used. */
  lemma WrapZero(x: int)
    requires -WRAP < x < WRAP
    ensures x % WRAP == 0 <==> x == 0
  {
  }

  lemma WrapShift(a: int, d: int)
    ensures (a % WRAP + d) % WRAP == (a + d) % WRAP
  {
  }

  /** What the invariant says of the counters alone. */
  lemma CountersAre(s: State)
    requires Inv(s)
    ensures |s.pc| < WRAP
    ensures s.lock == (1 - Count(s.pc, Holds) - Count(s.pc, InUndoLock)) % WRAP
    ensures s.count == (1 + Count(s.pc, Counted) - Count(s.pc, InUndoCount)) % WRAP
  {
  }

  /** The test on `lock` succeeds exactly when nobody holds it and nobody is undoing a failed try. */
  lemma LockTest(s: State)
    requires Inv(s)
    ensures Dec(s.lock) == 0 <==> Count(s.pc, Holds) == 0 && Count(s.pc, InUndoLock) == 0
  {
    hide Inv, Count, Holds, InUndoLock;
    CountersAre(s);
    CountOrders(s.pc);
    var busy := Count(s.pc, Holds) + Count(s.pc, InUndoLock);
    WrapShift(1 - busy, -1);
    WrapZero(-busy);
  }

  /** The test on `readcount` succeeds exactly when the counted reads equal the
      temporary decrements. */
  lemma CountTest(s: State)
    requires Inv(s)
    ensures Dec(s.count) == 0 <==> Count(s.pc, Counted) == Count(s.pc, InUndoCount)
  {
    hide Inv, Count, Counted, InUndoCount;
    CountersAre(s);
    CountOrders(s.pc);
    var d := Count(s.pc, Counted) - Count(s.pc, InUndoCount);
    WrapShift(1 + d, -1);
    WrapZero(d);
  }

  lemma InitInv(n: nat)
    requires n < WRAP
    ensures Inv(Init(n))
  {
    var pc := Init(n).pc;
    CountZero(pc, Holds);
    CountZero(pc, InUndoLock);
    CountZero(pc, Counted);
    CountZero(pc, InUndoCount);
    CountZero(pc, Alone);
  }

  /** A move of one thread, with the counters moved to match, keeps the invariant. */
  lemma MoveInv(s: State, t: nat, v: PC, s': State)
    requires Inv(s) && t < |s.pc| && s'.pc == s.pc[t := v]
    requires s'.lock == (s.lock + One(Holds(s.pc[t])) - One(Holds(v))
             + One(InUndoLock(s.pc[t])) - One(InUndoLock(v))) % WRAP
    requires s'.count == (s.count - One(Counted(s.pc[t])) + One(Counted(v))
             + One(InUndoCount(s.pc[t])) - One(InUndoCount(v))) % WRAP
    requires Holds(v) && !Holds(s.pc[t]) ==> Count(s.pc, Holds) == 0
    requires Alone(v) && !Alone(s.pc[t]) ==> Count(s.pc, Counted) == One(Counted(s.pc[t]))
    requires Counted(v) && !Counted(s.pc[t]) ==> Count(s.pc, Alone) == One(Alone(s.pc[t]))
    requires Alone(v) ==> !Counted(v)
    requires |s'.seen| == |s.seen|
    requires forall u :: 0 <= u < |s.pc| && Protected(s'.pc[u]) ==> s'.seen[u] == s'.version
    ensures Inv(s')
  {
    PcUpdate(s.pc, t, v);
    WrapShift(1 - Count(s.pc, Holds) - Count(s.pc, InUndoLock),
              One(Holds(s.pc[t])) - One(Holds(v)) + One(InUndoLock(s.pc[t])) - One(InUndoLock(v)));
    WrapShift(1 + Count(s.pc, Counted) - Count(s.pc, InUndoCount),
              One(Counted(v)) - One(Counted(s.pc[t])) + One(InUndoCount(s.pc[t])) - One(InUndoCount(v)));
    assert Count(s'.pc, Holds) <= 1;
    assert Count(s'.pc, Alone) > 0 ==> Count(s'.pc, Counted) == 0;
  }
}
