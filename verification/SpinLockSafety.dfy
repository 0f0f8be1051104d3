/** The spinning lock's invariant over all runs, and what follows from it: exclusion
    although the counters wrap, the meaning of a failed try, the exact condition of the
    release diagnostic, continuity of upgrades and downgrades, and refinement. */
module SpinLockSafety {
  import opened Counting
  import opened AbstractRWLock
  import opened SpinLock

  datatype Act = Act(t: nat, call: Call)

  predicate Legal(s: State, acts: seq<Act>)
    decreases |acts|
  {
    acts == [] || (Enabled(s, acts[0].t, acts[0].call) && Legal(Step(s, acts[0].t, acts[0].call), acts[1..]))
  }

  function Run(s: State, acts: seq<Act>): (r: State)
    requires Legal(s, acts)
    ensures |r.pc| == |s.pc| && |r.seen| == |s.seen|
    decreases |acts|
  {
    if acts == [] then s else Run(Step(s, acts[0].t, acts[0].call), acts[1..])
  }

  /** Reachable by some run of n threads, fewer than 2^32 of them. */
  ghost predicate Reachable(n: nat, s: State) {
    n < WRAP && exists acts :: Legal(Init(n), acts) && s == Run(Init(n), acts)
  }

  // ---- The invariant is kept ----

  /** Nobody else holds `lock` while a thread does. */
  lemma OnlyHolder(s: State, t: nat)
    requires Inv(s) && t < |s.pc| && Holds(s.pc[t])
    ensures Count(s.pc, Holds) == 1
    ensures forall u :: 0 <= u < |s.pc| && u != t ==> !Holds(s.pc[u])
    ensures Count(s.pc, InUndoCount) == One(InUndoCount(s.pc[t]))
    ensures Count(s.pc, Alone) == One(Alone(s.pc[t]))
  {
    CountSome(s.pc, t, Holds);
    forall u | 0 <= u < |s.pc| && u != t ensures !Holds(s.pc[u]) {
      if Holds(s.pc[u]) {
        CountTwo(s.pc, t, u, Holds);
      }
    }
    CountOrders(s.pc);
    CountZero(s.pc, InUndoCount);
    CountZero(s.pc, Alone);
  }

  /** Once a thread has seen that nobody reads, no other thread owns a read. */
  lemma AloneMeansAlone(s: State, t: nat)
    requires Inv(s) && t < |s.pc| && Alone(s.pc[t])
    ensures Count(s.pc, Counted) == 0
    ensures forall u :: 0 <= u < |s.pc| && u != t ==> !Protected(s.pc[u]) && !s.pc[u].Writing?
  {
    OnlyHolder(s, t);
    CountZero(s.pc, Counted);
  }

  lemma TryLockInv(s: State, t: nat)
    requires Inv(s) && Enabled(s, t, Continue) && s.pc[t].TryLock?
    ensures Inv(Step(s, t, Continue))
  {
    LockTest(s);
    MoveInv(s, t, Step(s, t, Continue).pc[t], Step(s, t, Continue));
  }

  lemma TryCountInv(s: State, t: nat)
    requires Inv(s) && Enabled(s, t, Continue) && s.pc[t].TryCount?
    ensures Inv(Step(s, t, Continue))
  {
    CountTest(s);
    OnlyHolder(s, t);
    MoveInv(s, t, Step(s, t, Continue).pc[t], Step(s, t, Continue));
  }

  lemma EnterWriteInv(s: State, t: nat)
    requires Inv(s) && Enabled(s, t, Continue) && s.pc[t].GotCount?
    ensures Inv(Step(s, t, Continue))
  {
    AloneMeansAlone(s, t);
    MoveInv(s, t, Writing, Step(s, t, Continue));
  }

  lemma HolderStepInv(s: State, t: nat, a: Call)
    requires Inv(s) && Enabled(s, t, a) && Holds(s.pc[t]) && !s.pc[t].TryCount? && !s.pc[t].GotCount?
    ensures Inv(Step(s, t, a))
  {
    OnlyHolder(s, t);
    var s' := Step(s, t, a);
    MoveInv(s, t, s'.pc[t], s');
  }

  lemma OutsiderStepInv(s: State, t: nat, a: Call)
    requires Inv(s) && Enabled(s, t, a) && !Holds(s.pc[t]) && !s.pc[t].TryLock?
    ensures Inv(Step(s, t, a))
  {
    var s' := Step(s, t, a);
    MoveInv(s, t, s'.pc[t], s');
  }

  /** Every atomic operation of every thread keeps the invariant. */
  lemma StepInv(s: State, t: nat, a: Call)
    requires Inv(s) && Enabled(s, t, a)
    ensures Inv(Step(s, t, a))
  {
    if s.pc[t].TryLock? {
      TryLockInv(s, t);
    } else if s.pc[t].TryCount? {
      TryCountInv(s, t);
    } else if s.pc[t].GotCount? {
      EnterWriteInv(s, t);
    } else if Holds(s.pc[t]) {
      HolderStepInv(s, t, a);
    } else {
      OutsiderStepInv(s, t, a);
    }
  }

  lemma {:induction false} RunInv(s: State, acts: seq<Act>)
    requires Inv(s) && Legal(s, acts)
    ensures Inv(Run(s, acts))
    decreases |acts|
  {
    if acts != [] {
      StepInv(s, acts[0].t, acts[0].call);
      RunInv(Step(s, acts[0].t, acts[0].call), acts[1..]);
    }
  }

  lemma ReachableInv(n: nat, s: State)
    requires Reachable(n, s)
    ensures Inv(s)
  {
    var acts :| Legal(Init(n), acts) && s == Run(Init(n), acts);
    InitInv(n);
    RunInv(Init(n), acts);
  }

  // ---- Exclusion ----

  ghost function OwnersOf(pc: seq<PC>): Owners {
    Owners(set t: nat | t < |pc| && Protected(pc[t]), set t: nat | t < |pc| && pc[t].Writing?)
  }

  /** With fewer than 2^32 threads the counters tell, modulo 2^32, exactly what the
      threads are doing; hence at most one write section, and never a read owned by
      anybody beside it. */
  lemma Exclusion(s: State)
    requires Inv(s)
    ensures s.lock == (1 - Count(s.pc, Holds) - Count(s.pc, InUndoLock)) % WRAP
    ensures s.count == (1 + Count(s.pc, Counted) - Count(s.pc, InUndoCount)) % WRAP
    ensures forall t, u :: 0 <= t < |s.pc| && 0 <= u < |s.pc| && t != u && s.pc[t].Writing? ==>
              !s.pc[u].Writing? && !Protected(s.pc[u])
    ensures Exclusive(OwnersOf(s.pc))
  {
    forall t: nat, u: nat | t < |s.pc| && u < |s.pc| && t != u && s.pc[t].Writing?
      ensures !s.pc[u].Writing? && !Protected(s.pc[u])
    {
      AloneMeansAlone(s, t);
    }
    var o := OwnersOf(s.pc);
    if o.writers != {} {
      var w :| w in o.writers;
      AloneMeansAlone(s, w);
      assert o.writers == {w};
    }
  }

  /** A failed try on `lock` means that some other thread holds it or is taking back a
      failed try of its own; and it fails whenever one does. */
  lemma FailedTry(s: State, t: nat)
    requires Inv(s) && t < |s.pc| && s.pc[t].TryLock?
    ensures Enabled(s, t, Continue)
    ensures Step(s, t, Continue).pc[t].UndoLock? <==>
              exists u :: 0 <= u < |s.pc| && u != t && (Holds(s.pc[u]) || s.pc[u].UndoLock?)
  {
    LockTest(s);
    CountZero(s.pc, Holds);
    CountZero(s.pc, InUndoLock);
  }

  // ---- The release diagnostic ----

  /** atomic_readlock_release reports an error exactly when the releasing thread is the
      last reader and a waiting writer has a failed try on `readcount` still to take
      back; never from inside an upgrade.  The report is false: the thread did own a
      read, and the counter is exact again in the next state. */
  lemma Diagnostic(s: State, t: nat, a: Call)
    requires Inv(s) && Enabled(s, t, a)
    ensures s.pc[t].DropRead? ==> !Reports(s, t, a)
    ensures Reports(s, t, a) <==>
              && s.pc[t].Reading? && a.EndRead?
              && (forall u :: 0 <= u < |s.pc| && u != t ==> !Counted(s.pc[u]))
              && (exists u :: 0 <= u < |s.pc| && s.pc[u].UndoCount?)
    ensures Reports(s, t, a) ==> Protected(s.pc[t]) && Inv(Step(s, t, a))
  {
    StepInv(s, t, a);
    CountTest(s);
    CountOrders(s.pc);
    if s.pc[t].DropRead? {
      OnlyHolder(s, t);
      CountSome(s.pc, t, Counted);
    } else if a.EndRead? {
      CountSome(s.pc, t, Counted);
      LastReader(s.pc, t);
      PendingUndo(s);
    }
  }

  /** A counted reader is the only one exactly when the count is one. */
  lemma LastReader(pc: seq<PC>, t: nat)
    requires t < |pc| && Counted(pc[t])
    ensures Count(pc, Counted) == 1 <==> forall u :: 0 <= u < |pc| && u != t ==> !Counted(pc[u])
  {
    CountUpdate(pc, t, Idle, Counted);
    CountZero(pc[t := Idle], Counted);
    if Count(pc, Counted) == 1 {
      forall u | 0 <= u < |pc| && u != t ensures !Counted(pc[u]) {
        assert pc[u] == pc[t := Idle][u];
      }
    }
  }

  /** While somebody reads, the only temporary decrement of `readcount` is a failed one. */
  lemma PendingUndo(s: State)
    requires Inv(s) && Count(s.pc, Counted) > 0
    ensures Count(s.pc, InUndoCount) == 1 <==> exists u :: 0 <= u < |s.pc| && s.pc[u].UndoCount?
  {
    CountOrders(s.pc);
    CountZero(s.pc, InUndoCount);
    CountZero(s.pc, Alone);
    if Count(s.pc, InUndoCount) == 1 {
      var u := CountWitness(s.pc, InUndoCount);
      assert s.pc[u].UndoCount?;
    }
  }

  // ---- Continuity of upgrades and downgrades ----

  /** While a thread owns a read, also one it is upgrading or has got by a downgrade,
      no write section begins but its own: the version it saw is the current one. */
  lemma NoWriteUnderARead(s: State, t: nat)
    requires Inv(s) && t < |s.pc| && Protected(s.pc[t])
    ensures |s.seen| == |s.pc| && s.seen[t] == s.version
    ensures forall u :: 0 <= u < |s.pc| ==> !s.pc[u].Writing?
  {
    forall u: nat | u < |s.pc| ensures !s.pc[u].Writing? {
      if s.pc[u].Writing? {
        AloneMeansAlone(s, u);
      }
    }
  }

  /** Across any run in which thread t owns its read in every state, `seen[t]` is the one
      recorded at the acquisition and no write section begins. */
  predicate ProtectedThroughout(s: State, acts: seq<Act>, t: nat)
    requires Legal(s, acts) && t < |s.pc|
    decreases |acts|
  {
    Protected(s.pc[t]) && (acts != [] ==> ProtectedThroughout(Step(s, acts[0].t, acts[0].call), acts[1..], t))
  }

  lemma {:induction false} VersionFrozen(s: State, acts: seq<Act>, t: nat)
    requires Inv(s) && Legal(s, acts) && t < |s.pc| && ProtectedThroughout(s, acts, t)
    ensures Run(s, acts).version == s.version && Begun(s, acts) == 0
    decreases |acts|
  {
    if acts != [] {
      var s1 := Step(s, acts[0].t, acts[0].call);
      StepInv(s, acts[0].t, acts[0].call);
      if s.pc[acts[0].t].GotCount? {
        AloneMeansAlone(s, acts[0].t);
      }
      VersionFrozen(s1, acts[1..], t);
    }
  }

  /** A completed upgrade: over a run in which thread t owns its read throughout and that
      ends with the upgrade about to succeed, the write section it begins is the next one
      after those of the beginning, so nobody has written in between. */
  lemma UpgradeIsContinuous(s: State, acts: seq<Act>, t: nat)
    requires Inv(s) && Legal(s, acts) && t < |s.pc| && ProtectedThroughout(s, acts, t)
    requires Run(s, acts).pc[t] == GotCount(true)
    ensures var s' := Run(s, acts);
            && Enabled(s', t, Continue) && Step(s', t, Continue).pc[t].Writing?
            && Step(s', t, Continue).version == s.version + 1
  {
    VersionFrozen(s, acts, t);
    RunInv(s, acts);
  }

  // ---- Every call gets what it asks for ----

  /** What a thread has when its call has returned. */
  predicate Has(a: Call, p: PC) {
    match a
    case BeginRead => p.Reading?
    case BeginWrite => p.Writing?
    case BeginUpgrade => p.Writing?
    case BeginDowngrade => p.Reading?
    case EndRead => p.Idle?
    case EndWrite => p.Idle?
    case Continue => true
  }

  /** What a thread owns while its call has not returned: to begin a read, nothing until it
      has been counted in; to begin a write, nothing; to change one into the other, a read. */
  predicate Pending(a: Call, p: PC) {
    match a
    case BeginRead => !p.Idle? && !p.Reading? && !Alone(p) && (Protected(p) ==> p.OpenLock?)
    case BeginWrite => !p.Idle? && !p.Writing? && !Protected(p)
    case BeginUpgrade => !p.Reading? && Protected(p)
    case BeginDowngrade => !p.Reading? && Counted(p)
    case _ => false
  }

  /** In every state of the run the call is pending until one in which it has returned. */
  predicate PendingUntil(s: State, acts: seq<Act>, t: nat, a: Call)
    requires Legal(s, acts) && t < |s.pc|
    decreases |acts|
  {
    || Has(a, s.pc[t])
    || (Pending(a, s.pc[t])
        && (acts != [] ==> PendingUntil(Step(s, acts[0].t, acts[0].call), acts[1..], t, a)))
  }

  /** Where a thread can be in a call that has not returned. */
  predicate Inside(a: Call, p: PC) {
    match a
    case BeginRead => p == TryLock(ForRead) || p == UndoLock(ForRead) || p.IncCount? || p.OpenLock?
    case BeginWrite =>
      p == TryLock(ForWrite) || p == UndoLock(ForWrite)
      || p == TryCount(false) || p == UndoCount(false) || p == GotCount(false)
    case BeginUpgrade =>
      p == TryLock(ForUpgrade) || p == UndoLock(ForUpgrade) || p.DropRead?
      || p == TryCount(true) || p == UndoCount(true) || p == GotCount(true)
    case BeginDowngrade => p.DownOpen?
    case _ => false
  }

  lemma {:induction false} StaysInside(s: State, acts: seq<Act>, t: nat, a: Call)
    requires Legal(s, acts) && t < |s.pc| && (Inside(a, s.pc[t]) || Has(a, s.pc[t]))
    ensures PendingUntil(s, acts, t, a)
    decreases |acts|
  {
    if acts != [] && !Has(a, s.pc[t]) {
      StaysInside(Step(s, acts[0].t, acts[0].call), acts[1..], t, a);
    }
  }

  /** Whatever the other threads do, from a call on its thread owns only what the call lets
      it own until it has what the call is for: a read call ends in a read and no other way,
      a write call in a write, an upgrade keeps its read until it writes, a downgrade until
      the write is one; the two releases leave nothing at once. */
  lemma CallGetsWhatItAsks(s: State, t: nat, a: Call, acts: seq<Act>)
    requires Enabled(s, t, a) && !a.Continue? && Legal(Step(s, t, a), acts)
    ensures PendingUntil(Step(s, t, a), acts, t, a)
  {
    StaysInside(Step(s, t, a), acts, t, a);
  }

  /** How many write sections begin in the run. */
  function Begun(s: State, acts: seq<Act>): nat
    requires Legal(s, acts)
    decreases |acts|
  {
    if acts == [] then 0
    else
      var x, s1 := acts[0], Step(s, acts[0].t, acts[0].call);
      (if !s.pc[x.t].Writing? && s1.pc[x.t].Writing? then 1 else 0) + Begun(s1, acts[1..])
  }

  /** The history counts them. */
  lemma {:induction false} VersionCounts(s: State, acts: seq<Act>)
    requires Legal(s, acts)
    ensures Run(s, acts).version == s.version + Begun(s, acts)
    decreases |acts|
  {
    if acts != [] {
      VersionCounts(Step(s, acts[0].t, acts[0].call), acts[1..]);
    }
  }

  // ---- Refinement ----

  function EventOf(s: State, t: nat, a: Call): Event
    requires Enabled(s, t, a)
  {
    match s.pc[t]
    case IncCount => AcquireRead(t)
    case Reading => if a.EndRead? then ReleaseRead(t) else Stutter
    case GotCount(up) => if up then Upgrade(t) else AcquireWrite(t)
    case Writing => if a.EndWrite? then ReleaseWrite(t) else Downgrade(t)
    case _ => Stutter
  }

  lemma OwnersUpdate(pc: seq<PC>, t: nat, v: PC)
    requires t < |pc|
    ensures OwnersOf(pc[t := v]).readers == if Protected(v) then OwnersOf(pc).readers + {t}
            else OwnersOf(pc).readers - {t}
    ensures OwnersOf(pc[t := v]).writers == if v.Writing? then OwnersOf(pc).writers + {t}
            else OwnersOf(pc).writers - {t}
  {
  }

  lemma OwnersBesideAHolder(s: State, t: nat)
    requires Inv(s) && t < |s.pc| && Holds(s.pc[t])
    ensures OwnersOf(s.pc).writers == if s.pc[t].Writing? then {t} else {}
    ensures Alone(s.pc[t]) ==> OwnersOf(s.pc).readers == if Protected(s.pc[t]) then {t} else {}
  {
    OnlyHolder(s, t);
    if Alone(s.pc[t]) {
      AloneMeansAlone(s, t);
    }
  }

  lemma OwnersMember(pc: seq<PC>, t: nat)
    requires t < |pc|
    ensures t in OwnersOf(pc).readers <==> Protected(pc[t])
    ensures t in OwnersOf(pc).writers <==> pc[t].Writing?
  {
  }

  lemma HolderRefines(s: State, t: nat, a: Call)
    requires Inv(s) && Enabled(s, t, a) && Holds(s.pc[t])
    ensures Allowed(EventOf(s, t, a), OwnersOf(s.pc), OwnersOf(Step(s, t, a).pc))
  {
    hide Inv, OwnersOf;
    OwnersUpdate(s.pc, t, Step(s, t, a).pc[t]);
    OwnersMember(s.pc, t);
    OwnersBesideAHolder(s, t);
  }

  lemma OutsiderRefines(s: State, t: nat, a: Call)
    requires Enabled(s, t, a) && !Holds(s.pc[t])
    ensures Allowed(EventOf(s, t, a), OwnersOf(s.pc), OwnersOf(Step(s, t, a).pc))
  {
    hide OwnersOf;
    OwnersUpdate(s.pc, t, Step(s, t, a).pc[t]);
    OwnersMember(s.pc, t);
  }

  /** Every atomic operation is a step of the abstract readers/writer lock. */
  lemma StepRefines(s: State, t: nat, a: Call)
    requires Inv(s) && Enabled(s, t, a)
    ensures Allowed(EventOf(s, t, a), OwnersOf(s.pc), OwnersOf(Step(s, t, a).pc))
  {
    hide *;
    EnabledThread(s, t, a);
    if Holds(s.pc[t]) {
      HolderRefines(s, t, a);
    } else {
      OutsiderRefines(s, t, a);
    }
  }

  lemma EnabledThread(s: State, t: nat, a: Call)
    requires Enabled(s, t, a)
    ensures t < |s.pc|
  {
  }
}
