/** How far the spinning lock makes progress: an upgrade can deadlock for good, and exactly
    when a thread that waits to read or to write still has a way in. */
module SpinLockProgress {
  import opened Counting
  import opened SpinLock
  import opened SpinLockSafety

  // ---- Growing runs ----

  lemma {:induction false} RunAppend(s: State, acts: seq<Act>, x: Act)
    requires Legal(s, acts) && Enabled(Run(s, acts), x.t, x.call)
    ensures Legal(s, acts + [x]) && Run(s, acts + [x]) == Step(Run(s, acts), x.t, x.call)
    decreases |acts|
  {
    if acts == [] {
      assert (acts + [x])[1..] == [];
    } else {
      RunAppend(Step(s, acts[0].t, acts[0].call), acts[1..], x);
      assert (acts + [x])[1..] == acts[1..] + [x];
    }
  }

  lemma ReachableStep(n: nat, s: State, t: nat, a: Call) returns (s': State)
    requires Reachable(n, s) && Enabled(s, t, a)
    ensures s' == Step(s, t, a) && Reachable(n, s')
  {
    var acts :| Legal(Init(n), acts) && s == Run(Init(n), acts);
    RunAppend(Init(n), acts, Act(t, a));
    assert Run(Init(n), acts + [Act(t, a)]) == Step(s, t, a);
    s' := Step(s, t, a);
  }

  lemma ReachableInit(n: nat)
    requires n < WRAP
    ensures Reachable(n, Init(n))
  {
    assert Legal(Init(n), []) && Run(Init(n), []) == Init(n);
  }

  // ---- Upgrade deadlock ----

  /** Keeps its read and waits for `lock`, to upgrade. */
  predicate WaitsUp(p: PC) {
    p == TryLock(ForUpgrade) || p == UndoLock(ForUpgrade)
  }

  /** Holds `lock` and needs the reads of all others to go. */
  predicate WaitsInside(p: PC) {
    p.DropRead? || p.TryCount? || p.UndoCount?
  }

  /** Thread a holds `lock` and waits for the readers; thread b keeps its read and
      waits for `lock`, to upgrade. */
  predicate Deadlocked(s: State, a: nat, b: nat) {
    a < |s.pc| && b < |s.pc| && WaitsInside(s.pc[a]) && WaitsUp(s.pc[b])
  }

  lemma DeadlockClosed(s: State, a: nat, b: nat, t: nat, c: Call)
    requires Inv(s) && Deadlocked(s, a, b) && Enabled(s, t, c)
    ensures Deadlocked(Step(s, t, c), a, b)
  {
    if t == a && s.pc[a].TryCount? {
      CountTest(s);
      OnlyHolder(s, a);
      CountSome(s.pc, b, Counted);
    } else if t == b && s.pc[b].TryLock? {
      LockTest(s);
      CountSome(s.pc, a, Holds);
    }
  }

  /** The deadlock is permanent: whatever all the threads do, neither thread ever gets on. */
  lemma {:induction false} DeadlockIsPermanent(s: State, a: nat, b: nat, acts: seq<Act>)
    requires Inv(s) && Deadlocked(s, a, b) && Legal(s, acts)
    ensures Deadlocked(Run(s, acts), a, b)
    decreases |acts|
  {
    if acts != [] {
      DeadlockClosed(s, a, b, acts[0].t, acts[0].call);
      StepInv(s, acts[0].t, acts[0].call);
      DeadlockIsPermanent(Step(s, acts[0].t, acts[0].call), a, b, acts[1..]);
    }
  }

  /** A thread that has been alone so far gets its read. */
  lemma ReadAlone(n: nat, s: State, t: nat) returns (s': State)
    requires Reachable(n, s) && t < |s.pc| && s.pc[t].Idle? && s.lock == 1 && 0 < s.count < WRAP - 1
    ensures Reachable(n, s') && s'.pc == s.pc[t := Reading] && s'.lock == 1 && s'.count == s.count + 1
  {
    ReachableInv(n, s);
    s' := ReachableStep(n, s, t, BeginRead);
    s' := ReachableStep(n, s', t, Continue);
    s' := ReachableStep(n, s', t, Continue);
    s' := ReachableStep(n, s', t, Continue);
    assert s'.pc == s.pc[t := Reading];
  }

  /** Two readers that both upgrade reach the deadlock. */
  lemma DeadlockIsReachable(n: nat)
    requires 2 <= n < WRAP
    ensures exists s :: Reachable(n, s) && Deadlocked(s, 0, 1)
  {
    ReachableInit(n);
    var s := ReadAlone(n, Init(n), 0);
    s := ReadAlone(n, s, 1);
    ReachableInv(n, s);
    s := ReachableStep(n, s, 0, BeginUpgrade);
    s := ReachableStep(n, s, 0, Continue);
    s := ReachableStep(n, s, 0, Continue);
    s := ReachableStep(n, s, 1, BeginUpgrade);
    assert Deadlocked(s, 0, 1);
  }

  // ---- The false report ----

  /** A correct caller does get the release diagnostic: one reader leaves while a waiting
      writer has a failed try on `readcount` to take back. */
  lemma FalseReport(n: nat)
    requires 2 <= n < WRAP
    ensures exists s, t, a :: Reachable(n, s) && Enabled(s, t, a) && Reports(s, t, a)
  {
    ReachableInit(n);
    var s := ReadAlone(n, Init(n), 0);
    s := ReachableStep(n, s, 1, BeginWrite);
    s := ReachableStep(n, s, 1, Continue);
    assert s.pc[1] == TryCount(false) && s.count == 2;
    s := ReachableStep(n, s, 1, Continue);
    assert s.pc[0] == Reading && s.count == 1;
    assert Enabled(s, 0, EndRead) && Reports(s, 0, EndRead);
  }

  // ---- When a waiting writer can get in ----

  /** Waits to write, be it from nothing or from a read. */
  predicate Waits(p: PC) {
    Inside(BeginWrite, p) || Inside(BeginUpgrade, p)
  }

  /** Needs the reads of all others to go, now or as soon as it has `lock`. */
  predicate NeedsNoReader(p: PC) {
    WaitsUp(p) || WaitsInside(p)
  }

  ghost predicate DoomedPair(s: State, a: nat, b: nat) {
    a < |s.pc| && b < |s.pc| && a != b && NeedsNoReader(s.pc[a]) && WaitsUp(s.pc[b])
  }

  /** One thread keeps a read until it gets `lock`, another keeps `lock`, or will, until
      that read has gone. */
  ghost predicate Doomed(s: State) {
    exists a: nat, b: nat :: DoomedPair(s, a, b)
  }

  lemma DoomClosed(s: State, t: nat, c: Call)
    requires Inv(s) && Doomed(s) && Enabled(s, t, c)
    ensures Doomed(Step(s, t, c))
  {
    var a: nat, b: nat :| DoomedPair(s, a, b);
    var s' := Step(s, t, c);
    CountSome(s.pc, b, Counted);
    if t == a && s.pc[a].TryCount? {
      CountTest(s);
      OnlyHolder(s, a);
      assert DoomedPair(s', a, b);
    } else if t == b && !WaitsUp(s'.pc[b]) {
      GotLock(s, b, a);
      assert DoomedPair(s', b, a);
    } else {
      assert DoomedPair(s', a, b);
    }
  }

  /** When a waiting upgrader gets `lock`, no other thread is past it. */
  lemma GotLock(s: State, b: nat, a: nat)
    requires Inv(s) && b < |s.pc| && a < |s.pc| && a != b
    requires Enabled(s, b, Continue) && WaitsUp(s.pc[b]) && !WaitsUp(Step(s, b, Continue).pc[b])
    ensures Step(s, b, Continue).pc[b].DropRead? && !Holds(s.pc[a])
  {
    LockTest(s);
    CountZero(s.pc, Holds);
  }

  /** Then no thread ever writes again, whatever all the threads do. */
  lemma {:induction false} DoomIsPermanent(s: State, acts: seq<Act>)
    requires Inv(s) && Doomed(s) && Legal(s, acts)
    ensures Doomed(Run(s, acts)) && forall t :: 0 <= t < |s.pc| ==> !Run(s, acts).pc[t].Writing?
    decreases |acts|
  {
    if acts == [] {
      var a: nat, b: nat :| DoomedPair(s, a, b);
      forall t: nat | t < |s.pc| ensures !s.pc[t].Writing? {
        if s.pc[t].Writing? {
          AloneMeansAlone(s, t);
        }
      }
    } else {
      StepInv(s, acts[0].t, acts[0].call);
      DoomClosed(s, acts[0].t, acts[0].call);
      DoomIsPermanent(Step(s, acts[0].t, acts[0].call), acts[1..]);
    }
  }

  /** How many operations a thread is away from having nothing more to do. */
  function Weight(p: PC): nat {
    match p
    case Idle => 0
    case Reading => 1
    case Writing => 1
    case OpenLock => 2
    case DownOpen => 2
    case GotCount(_) => 2
    case IncCount => 3
    case TryCount(_) => 3
    case UndoCount(_) => 4
    case DropRead => 4
    case TryLock(_) => 5
    case UndoLock(_) => 6
  }

  function Total(pc: seq<PC>): nat {
    if pc == [] then 0 else Weight(pc[0]) + Total(pc[1..])
  }

  lemma {:induction false} TotalUpdate(pc: seq<PC>, t: nat, v: PC)
    requires t < |pc|
    ensures Total(pc[t := v]) == Total(pc) - Weight(pc[t]) + Weight(v)
  {
    if t == 0 {
      assert pc[t := v][1..] == pc[1..];
    } else {
      assert pc[t := v][1..] == pc[1..][t - 1 := v];
      TotalUpdate(pc[1..], t - 1, v);
    }
  }

  /** The calls that finish something; none begins anything. */
  predicate Finishing(a: Call) {
    a.Continue? || a.EndRead? || a.EndWrite?
  }

  /** The next operation of u brings it nearer to having nothing to do, dooms nobody, and
      leaves t waiting unless it lets it in. */
  ghost predicate GetsOn(s: State, t: nat, u: nat, a: Call) {
    && t < |s.pc| && Enabled(s, u, a) && Finishing(a)
    && Weight(Step(s, u, a).pc[u]) < Weight(s.pc[u])
    && !Doomed(Step(s, u, a))
    && (Waits(Step(s, u, a).pc[t]) || Step(s, u, a).pc[t].Writing?)
  }

  /** A move that makes no thread more of an obstacle dooms nobody. */
  lemma StillClear(s: State, u: nat, s': State)
    requires !Doomed(s) && u < |s.pc| == |s'.pc| && s'.pc == s.pc[u := s'.pc[u]]
    requires WaitsUp(s'.pc[u]) ==> WaitsUp(s.pc[u])
    requires NeedsNoReader(s'.pc[u]) ==> NeedsNoReader(s.pc[u])
    ensures !Doomed(s')
  {
    forall a: nat, b: nat ensures !DoomedPair(s', a, b) {
      assert !DoomedPair(s, a, b);
    }
  }

  /** Taking back a failed try. */
  lemma UndoGetsOn(s: State, t: nat, u: nat)
    requires Inv(s) && !Doomed(s) && t < |s.pc| && Waits(s.pc[t])
    requires u < |s.pc| && (s.pc[u].UndoLock? || s.pc[u].UndoCount?)
    ensures GetsOn(s, t, u, Continue)
  {
    StillClear(s, u, Step(s, u, Continue));
  }

  lemma ReaderGetsOn(s: State, t: nat, u: nat)
    requires Inv(s) && !Doomed(s) && t < |s.pc| && Waits(s.pc[t])
    requires u < |s.pc| && s.pc[u].Reading?
    ensures GetsOn(s, t, u, EndRead)
  {
    StillClear(s, u, Step(s, u, EndRead));
  }

  /** A thread that waits under `lock` for the readers has no reader left to wait for. */
  lemma CountIsFree(s: State, u: nat)
    requires Inv(s) && u < |s.pc| && s.pc[u].TryCount?
    requires forall v: nat :: !Deadlocked(s, u, v)
    requires forall v :: 0 <= v < |s.pc| ==> !s.pc[v].Reading?
    ensures Dec(s.count) == 0
  {
    OnlyHolder(s, u);
    forall v: nat | v < |s.pc| ensures !Counted(s.pc[v]) {
      assert !Deadlocked(s, u, v);
    }
    CountZero(s.pc, Counted);
    CountTest(s);
  }

  /** With no failed try standing and nobody inside a read, the holder of `lock` gets on. */
  lemma HolderGetsOn(s: State, t: nat, u: nat) returns (a: Call)
    requires Inv(s) && !Doomed(s) && t < |s.pc| && Waits(s.pc[t])
    requires forall v :: 0 <= v < |s.pc| ==> !s.pc[v].UndoCount? && !s.pc[v].Reading?
    requires u < |s.pc| && Holds(s.pc[u])
    ensures GetsOn(s, t, u, a)
  {
    a := if s.pc[u].Writing? then EndWrite else Continue;
    if s.pc[u].TryCount? {
      forall v: nat ensures !Deadlocked(s, u, v) { assert !DoomedPair(s, u, v); }
      CountIsFree(s, u);
    }
    StillClear(s, u, Step(s, u, a));
  }

  /** With `lock` free and no failed try standing, a try gets it. */
  lemma LockIsFree(s: State)
    requires Inv(s) && forall v :: 0 <= v < |s.pc| ==> !Holds(s.pc[v]) && !s.pc[v].UndoLock?
    ensures Dec(s.lock) == 0
  {
    CountZero(s.pc, Holds);
    CountZero(s.pc, InUndoLock);
    LockTest(s);
  }

  /** With `lock` free, an upgrader that waits goes first. */
  lemma UpgraderGetsOn(s: State, t: nat, u: nat)
    requires Inv(s) && !Doomed(s) && t < |s.pc| && Waits(s.pc[t])
    requires forall v :: 0 <= v < |s.pc| ==> !Holds(s.pc[v]) && !s.pc[v].UndoLock?
    requires u < |s.pc| && WaitsUp(s.pc[u])
    ensures GetsOn(s, t, u, Continue)
  {
    LockIsFree(s);
    StillClear(s, u, Step(s, u, Continue));
  }

  /** With `lock` free and no upgrader waiting, the writer goes. */
  lemma WriterGetsOn(s: State, t: nat)
    requires Inv(s) && t < |s.pc| && Waits(s.pc[t])
    requires forall v :: 0 <= v < |s.pc| ==> !Holds(s.pc[v]) && !s.pc[v].UndoLock? && !WaitsUp(s.pc[v])
    ensures GetsOn(s, t, t, Continue)
  {
    LockIsFree(s);
    var s' := Step(s, t, Continue);
    forall a: nat, b: nat ensures !DoomedPair(s', a, b) {
      assert b < |s.pc| ==> !WaitsUp(s'.pc[b]);
    }
  }

  /** As long as a thread waits to write and is not doomed, some thread gets on. */
  lemma SomeoneGetsOn(s: State, t: nat) returns (u: nat, a: Call)
    requires Inv(s) && !Doomed(s) && t < |s.pc| && Waits(s.pc[t])
    ensures GetsOn(s, t, u, a)
  {
    hide Inv, Doomed, Waits, GetsOn, Holds, WaitsUp;
    if v: nat :| v < |s.pc| && (s.pc[v].UndoLock? || s.pc[v].UndoCount?) {
      u, a := v, Continue;
      UndoGetsOn(s, t, u);
    } else if v: nat :| v < |s.pc| && s.pc[v].Reading? {
      u, a := v, EndRead;
      ReaderGetsOn(s, t, u);
    } else if v: nat :| v < |s.pc| && Holds(s.pc[v]) {
      u := v;
      a := HolderGetsOn(s, t, u);
    } else if v: nat :| v < |s.pc| && WaitsUp(s.pc[v]) {
      u, a := v, Continue;
      UpgraderGetsOn(s, t, u);
    } else {
      u, a := t, Continue;
      WriterGetsOn(s, t);
    }
  }

  /** A run that begins no new call. */
  predicate AllFinishing(acts: seq<Act>) {
    forall i :: 0 <= i < |acts| ==> Finishing(acts[i].call)
  }

  /** The run is legal and ends with thread t writing. */
  ghost predicate LetsIn(s: State, acts: seq<Act>, t: nat) {
    t < |s.pc| && Legal(s, acts) && Run(s, acts).pc[t].Writing?
  }

  lemma {:induction false} WayIn(s: State, t: nat) returns (acts: seq<Act>)
    requires Inv(s) && !Doomed(s) && t < |s.pc| && Waits(s.pc[t])
    ensures LetsIn(s, acts, t) && |acts| <= Total(s.pc) && AllFinishing(acts)
    decreases Total(s.pc)
  {
    var u, a := SomeoneGetsOn(s, t);
    var s1 := Step(s, u, a);
    StepInv(s, u, a);
    assert s1.pc == s.pc[u := s1.pc[u]];
    TotalUpdate(s.pc, u, s1.pc[u]);
    var rest: seq<Act> := [];
    if !s1.pc[t].Writing? {
      rest := WayIn(s1, t);
    }
    acts := [Act(u, a)] + rest;
    assert acts[1..] == rest;
  }

  /** A thread that waits to write, upgraders included, can get in exactly when the lock
      is not doomed; and then a run does it that begins no new call and is no longer than
      a length known beforehand. */
  lemma WriterCanEnter(s: State, t: nat)
    requires Inv(s) && t < |s.pc| && Waits(s.pc[t])
    ensures (exists acts :: LetsIn(s, acts, t)) <==> !Doomed(s)
    ensures !Doomed(s) ==> exists acts :: LetsIn(s, acts, t) && |acts| <= Total(s.pc) && AllFinishing(acts)
  {
    if !Doomed(s) {
      var acts := WayIn(s, t);
    } else {
      forall acts ensures !LetsIn(s, acts, t) {
        if Legal(s, acts) {
          DoomIsPermanent(s, acts);
        }
      }
    }
  }

  // ---- When a waiting reader can get in ----

  predicate WaitsToRead(p: PC) {
    Inside(BeginRead, p)
  }

  /** Some pair of threads is deadlocked. */
  ghost predicate Shut(s: State) {
    exists a: nat, b: nat :: Deadlocked(s, a, b)
  }

  /** The next operation of u brings it nearer to having nothing to do, deadlocks nobody,
      and leaves t waiting unless it lets it in. */
  ghost predicate HelpsReader(s: State, t: nat, u: nat, a: Call) {
    && t < |s.pc| && Enabled(s, u, a) && Finishing(a)
    && Weight(Step(s, u, a).pc[u]) < Weight(s.pc[u])
    && !Shut(Step(s, u, a))
    && (WaitsToRead(Step(s, u, a).pc[t]) || Step(s, u, a).pc[t].Reading?)
  }

  lemma StillOpen(s: State, u: nat, s': State)
    requires !Shut(s) && u < |s.pc| == |s'.pc| && s'.pc == s.pc[u := s'.pc[u]]
    requires WaitsUp(s'.pc[u]) ==> WaitsUp(s.pc[u])
    requires WaitsInside(s'.pc[u]) ==> WaitsInside(s.pc[u])
    ensures !Shut(s')
  {
    forall a: nat, b: nat ensures !Deadlocked(s', a, b) {
      assert !Deadlocked(s, a, b);
    }
  }

  /** Taking back a failed try, leaving a read, and all that a holder of `lock` does. */
  lemma OthersHelp(s: State, t: nat, u: nat) returns (a: Call)
    requires Inv(s) && !Shut(s) && t < |s.pc| && WaitsToRead(s.pc[t]) && u < |s.pc|
    requires s.pc[u].UndoLock? || s.pc[u].UndoCount? || s.pc[u].Reading? || Holds(s.pc[u])
    requires s.pc[u].TryCount? ==> forall v :: 0 <= v < |s.pc| ==> !s.pc[v].Reading?
    ensures HelpsReader(s, t, u, a)
  {
    a := if s.pc[u].Writing? then EndWrite else if s.pc[u].Reading? then EndRead else Continue;
    if s.pc[u].TryCount? {
      CountIsFree(s, u);
    }
    StillOpen(s, u, Step(s, u, a));
  }

  /** With `lock` free, the reader goes first, before any upgrader. */
  lemma ReaderGoes(s: State, t: nat)
    requires Inv(s) && t < |s.pc| && WaitsToRead(s.pc[t])
    requires forall v :: 0 <= v < |s.pc| ==> !Holds(s.pc[v]) && !s.pc[v].UndoLock?
    ensures HelpsReader(s, t, t, Continue)
  {
    LockIsFree(s);
    var s' := Step(s, t, Continue);
    forall a: nat, b: nat ensures !Deadlocked(s', a, b) {
      assert a < |s.pc| ==> !WaitsInside(s'.pc[a]);
    }
  }

  lemma SomeoneHelps(s: State, t: nat) returns (u: nat, a: Call)
    requires Inv(s) && !Shut(s) && t < |s.pc| && WaitsToRead(s.pc[t])
    ensures HelpsReader(s, t, u, a)
  {
    hide Inv, Shut, WaitsToRead, HelpsReader, Holds;
    if v: nat :| v < |s.pc| && (s.pc[v].UndoLock? || s.pc[v].UndoCount? || s.pc[v].Reading?) {
      u := v;
      a := OthersHelp(s, t, u);
    } else if v: nat :| v < |s.pc| && Holds(s.pc[v]) {
      u := v;
      a := OthersHelp(s, t, u);
    } else {
      u, a := t, Continue;
      ReaderGoes(s, t);
    }
  }

  /** The run is legal and ends with thread t inside its read. */
  ghost predicate LetsRead(s: State, acts: seq<Act>, t: nat) {
    t < |s.pc| && Legal(s, acts) && Run(s, acts).pc[t].Reading?
  }

  lemma {:induction false} ReaderWayIn(s: State, t: nat) returns (acts: seq<Act>)
    requires Inv(s) && !Shut(s) && t < |s.pc| && WaitsToRead(s.pc[t])
    ensures LetsRead(s, acts, t) && |acts| <= Total(s.pc) && AllFinishing(acts)
    decreases Total(s.pc)
  {
    var u, a := SomeoneHelps(s, t);
    var s1 := Step(s, u, a);
    StepInv(s, u, a);
    assert s1.pc == s.pc[u := s1.pc[u]];
    TotalUpdate(s.pc, u, s1.pc[u]);
    var rest: seq<Act> := [];
    if !s1.pc[t].Reading? {
      rest := ReaderWayIn(s1, t);
    }
    acts := [Act(u, a)] + rest;
    assert acts[1..] == rest;
  }

  /** Under a deadlock a thread that waits for `lock` to read waits for good. */
  lemma {:induction false} ShutOut(s: State, a: nat, b: nat, t: nat, acts: seq<Act>)
    requires Inv(s) && Deadlocked(s, a, b) && Legal(s, acts)
    requires t < |s.pc| && (s.pc[t] == TryLock(ForRead) || s.pc[t] == UndoLock(ForRead))
    ensures Run(s, acts).pc[t] == TryLock(ForRead) || Run(s, acts).pc[t] == UndoLock(ForRead)
    decreases |acts|
  {
    if acts != [] {
      var x := acts[0];
      StepInv(s, x.t, x.call);
      DeadlockClosed(s, a, b, x.t, x.call);
      if x.t == t {
        LockTest(s);
        CountSome(s.pc, a, Holds);
      }
      ShutOut(Step(s, x.t, x.call), a, b, t, acts[1..]);
    }
  }

  /** A thread that waits to read can get in exactly when no two threads are deadlocked,
      so also where no writer ever can; and then by a run that begins no new call and is
      no longer than a length known beforehand. */
  lemma ReaderCanEnter(s: State, t: nat)
    requires Inv(s) && t < |s.pc| && WaitsToRead(s.pc[t])
    ensures (exists acts :: LetsRead(s, acts, t)) <==> !Shut(s)
    ensures !Shut(s) ==> exists acts :: LetsRead(s, acts, t) && |acts| <= Total(s.pc) && AllFinishing(acts)
  {
    if !Shut(s) {
      var acts := ReaderWayIn(s, t);
    } else {
      var a: nat, b: nat :| Deadlocked(s, a, b);
      OnlyHolder(s, a);
      forall acts ensures !LetsRead(s, acts, t) {
        if Legal(s, acts) {
          ShutOut(s, a, b, t, acts);
        }
      }
    }
  }
}
