/** What the monitor lock guarantees over whole runs: exclusion, no lost wake-up,
    writer preference, draining, and refinement of the abstract lock. */
module MonitorLockRuns {
  import opened Counting
  import opened AbstractRWLock
  import opened MonitorLock

  /** The states the lock can reach with n threads. */
  ghost predicate Reachable(c: Config, n: nat, s: State) {
    exists steps :: Legal(c, Init(n), steps) && s == Run(c, Init(n), steps)
  }

  lemma ReachableInv(c: Config, n: nat, s: State)
    requires Reachable(c, n, s)
    ensures Inv(c, s)
  {
    var steps :| Legal(c, Init(n), steps) && s == Run(c, Init(n), steps);
    InitInv(c, n);
    RunInv(c, Init(n), steps);
  }

  // ---- Exclusion, and the throw that cannot happen ----

  /** The threads whose phase satisfies p. */
  ghost function Who(th: seq<Phase>, p: Phase -> bool): set<nat> {
    set t: nat | t < |th| && p(th[t])
  }

  ghost function OwnersOf(th: seq<Phase>): Owners {
    Owners(Who(th, IsReading), Who(th, IsWriting))
  }

  /** Unlock's third branch. */
  predicate UnlockThrows(s: State) {
    s.hold != -1 && s.hold <= 0
  }

  /** A count and the set of the indices counted have the same size. */
  lemma {:induction false} CountIsCardinality(th: seq<Phase>, p: Phase -> bool)
    ensures Count(th, p) == |Who(th, p)|
    decreases |th|
  {
    if th == [] {
      assert Who(th, p) == {};
    } else {
      hide Who, Count;
      CountIsCardinality(th[..|th| - 1], p);
      CountLast(th, p);
      WhoLast(th, p);
    }
  }

  lemma WhoLast(th: seq<Phase>, p: Phase -> bool)
    requires th != []
    ensures var n := |th| - 1;
            && n !in Who(th[..n], p)
            && Who(th, p) == if p(th[n]) then Who(th[..n], p) + {n} else Who(th[..n], p)
  {
  }

  /** m_iHoldingLock is -1 exactly when one thread writes and nobody reads, and
      otherwise is the number of readers, within a positive limit; the owners are a
      set of readers or one writer; the throw in Unlock is reached exactly when
      nobody owns the lock, so never by an owner. */
  lemma Safety(c: Config, s: State)
    requires Inv(c, s)
    ensures var o := OwnersOf(s.th);
            && Exclusive(o)
            && (s.hold == -1 <==> |o.writers| == 1)
            && (s.hold != -1 ==> s.hold == |o.readers|)
            && (c.maxReader > 0 ==> |o.readers| <= c.maxReader)
            && s.waitR == |Who(s.th, IsWaitingR)|
            && s.waitW == |Who(s.th, IsWaitingW)|
            && (UnlockThrows(s) <==> o == Owners({}, {}))
  {
    CountIsCardinality(s.th, IsWaitingR);
    CountIsCardinality(s.th, IsWaitingW);
    OwnersCounted(s.th);
    var o := OwnersOf(s.th);
    if o.writers != {} {
      SingletonOfCard(o.writers);
    }
  }

  lemma OwnersCounted(th: seq<Phase>)
    ensures |OwnersOf(th).readers| == Count(th, IsReading)
    ensures |OwnersOf(th).writers| == Count(th, IsWriting)
  {
    CountIsCardinality(th, IsReading);
    CountIsCardinality(th, IsWriting);
  }

  lemma SingletonOfCard(a: set<nat>)
    requires |a| == 1
    ensures exists w :: a == {w}
  {
    var w :| w in a;
    assert |a - {w}| == 0;
    assert a == {w};
  }

  // ---- No lost wake-up ----

  /** In both modes and for every limit: a sleeping writer has the lock held or a
      writer already woken; a sleeping reader has a writer holding, the reader
      limit reached, or a writer waiting. */
  lemma NoLostWakeups(c: Config, s: State)
    requires Inv(c, s)
    ensures forall t :: 0 <= t < |s.th| && s.th[t].AsleepW? ==>
              (exists u :: 0 <= u < |s.th| && IsOwner(s.th[u])) || (exists u :: 0 <= u < |s.th| && s.th[u].WokenW?)
    ensures forall t :: 0 <= t < |s.th| && s.th[t].AsleepR? ==>
              || (exists u :: 0 <= u < |s.th| && s.th[u].Writing?)
              || (c.maxReader > 0 && |OwnersOf(s.th).readers| == c.maxReader)
              || (exists u :: 0 <= u < |s.th| && IsWaitingW(s.th[u]))
  {
    OwnersCounted(s.th);
    CountZero(s.th, IsAsleepR);
    CountZero(s.th, IsAsleepW);
    CountZero(s.th, IsWokenW);
    CountZero(s.th, IsReading);
    CountZero(s.th, IsWriting);
    CountZero(s.th, IsWaitingW);
  }

  // ---- Who gets in, and whom an unlock wakes ----

  lemma NobodyWaitsToWrite(c: Config, s: State)
    requires Inv(c, s)
    ensures s.waitW >= 0 && (s.waitW > 0 <==> exists u :: 0 <= u < |s.th| && IsWaitingW(s.th[u]))
    ensures s.waitR >= 0 && (s.waitR > 0 <==> exists u :: 0 <= u < |s.th| && IsWaitingR(s.th[u]))
  {
    CountZero(s.th, IsWaitingW);
    CountZero(s.th, IsWaitingR);
  }

  lemma NoOwners(th: seq<Phase>)
    ensures OwnersOf(th) == Owners({}, {}) <==> forall u :: 0 <= u < |th| ==> !IsOwner(th[u])
    ensures OwnersOf(th).writers == {} <==> forall u :: 0 <= u < |th| ==> !th[u].Writing?
  {
    var o := OwnersOf(th);
    forall u: nat | u < |th| ensures (th[u].Reading? <==> u in o.readers) && (th[u].Writing? <==> u in o.writers) {}
  }

  /** A reader that starts or has been woken gets its read exactly when nobody writes, a
      positive limit is not reached, and in writer-first mode no thread waits to write;
      otherwise it sleeps.  Nobody else is touched. */
  lemma ReaderGetsIn(c: Config, s: State, step: Step)
    requires Inv(c, s) && Enabled(s, step) && (step.BeginRead? || step.ResumeRead?)
    ensures var th' := Do(c, s, step).th;
            && (th' == s.th[step.t := Reading] || th' == s.th[step.t := AsleepR])
            && (th'[step.t].Reading? <==>
                && OwnersOf(s.th).writers == {}
                && (c.maxReader > 0 ==> |OwnersOf(s.th).readers| < c.maxReader)
                && (c.writerFirst ==> forall u :: 0 <= u < |s.th| ==> !s.th[u].AsleepW? && !s.th[u].WokenW?))
  {
    OwnersCounted(s.th);
    NobodyWaitsToWrite(c, s);
    Safety(c, s);
  }

  /** A writer that starts or has been woken gets the lock exactly when nobody owns it;
      otherwise it sleeps. */
  lemma WriterGetsIn(c: Config, s: State, step: Step)
    requires Inv(c, s) && Enabled(s, step) && (step.BeginWrite? || step.ResumeWrite?)
    ensures var th' := Do(c, s, step).th;
            && (th' == s.th[step.t := Writing] || th' == s.th[step.t := AsleepW])
            && (th'[step.t].Writing? <==> OwnersOf(s.th) == Owners({}, {}))
  {
    OwnersCounted(s.th);
    Safety(c, s);
  }

  /** Whether thread t is the only owner. */
  predicate LastOwner(th: seq<Phase>, t: nat) {
    forall u :: 0 <= u < |th| && u != t ==> !th[u].Reading? && !th[u].Writing?
  }

  predicate SomeoneWaitsToWrite(th: seq<Phase>) {
    exists u :: 0 <= u < |th| && (th[u].AsleepW? || th[u].WokenW?)
  }

  /** What the counters say after an owner has been counted out. */
  lemma CountedOut(c: Config, s: State, t: nat, w: nat)
    requires Inv(c, s) && Enabled(s, Unlock(t, w))
    ensures Released(s.hold) >= 0 && (Released(s.hold) == 0 <==> LastOwner(s.th, t))
  {
    var th1 := s.th[t := Idle];
    PhaseUpdate(s.th, t, Idle);
    PhaseCounted(s.th, t);
    CountZero(th1, IsReading);
    CountZero(th1, IsWriting);
    assert forall u :: 0 <= u < |s.th| && u != t ==> th1[u] == s.th[u];
  }

  /** What the phases are after owner t has unlocked, in either mode.  If it was the last
      owner and some thread waits to write, one writer that sleeps is woken, if any does,
      and nobody else.  If it was not the last and a writer waits, in writer-first mode
      nobody is woken.  In all other cases exactly the readers that sleep are, every one. */
  predicate UnlockedTo(c: Config, th: seq<Phase>, t: nat, w: nat, th': seq<Phase>)
    requires t < |th|
  {
    if SomeoneWaitsToWrite(th) && LastOwner(th, t) then
      if exists u :: 0 <= u < |th| && th[u].AsleepW?
      then w < |th| && th[w].AsleepW? && th' == th[t := Idle][w := WokenW]
      else th' == th[t := Idle]
    else if SomeoneWaitsToWrite(th) && c.writerFirst then
      th' == th[t := Idle]
    else
      |th'| == |th| && th'[t].Idle?
      && forall u :: 0 <= u < |th| && u != t ==> th'[u] == if th[u].AsleepR? then WokenR else th[u]
  }

  lemma UnlockWakes(c: Config, s: State, t: nat, w: nat)
    requires Inv(c, s) && Enabled(s, Unlock(t, w))
    ensures UnlockedTo(c, s.th, t, w, Do(c, s, Unlock(t, w)).th)
  {
    NobodyWaitsToWrite(c, s);
    CountedOut(c, s, t, w);
    CountZero(s.th, IsAsleepW);
    var s1 := s.(hold := Released(s.hold), th := s.th[t := Idle]);
    assert forall u :: 0 <= u < |s.th| && u != t ==> s1.th[u] == s.th[u];
  }

  // ---- Writer preference ----

  predicate ReaderAcquires(c: Config, s: State, step: Step)
    requires Enabled(s, step)
  {
    (step.BeginRead? || step.ResumeRead?) && Do(c, s, step).th[step.t].Reading?
  }

  predicate WriterAcquires(c: Config, s: State, step: Step)
    requires Enabled(s, step)
  {
    (step.BeginWrite? || step.ResumeWrite?) && Do(c, s, step).th[step.t].Writing?
  }

  /** Some step of the run is an acquisition by a reader. */
  predicate SomeReaderAcquires(c: Config, s: State, steps: seq<Step>)
    requires Legal(c, s, steps)
    decreases |steps|
  {
    steps != [] && (ReaderAcquires(c, s, steps[0]) || SomeReaderAcquires(c, Do(c, s, steps[0]), steps[1..]))
  }

  predicate SomeWriterAcquires(c: Config, s: State, steps: seq<Step>)
    requires Legal(c, s, steps)
    decreases |steps|
  {
    steps != [] && (WriterAcquires(c, s, steps[0]) || SomeWriterAcquires(c, Do(c, s, steps[0]), steps[1..]))
  }

  /** Writer-first mode: once a writer waits, no reader acquires, barging or woken,
      before a writer has acquired. */
  lemma {:induction false} WriterFirst(c: Config, s: State, steps: seq<Step>)
    requires c.writerFirst && Inv(c, s) && s.waitW > 0 && Legal(c, s, steps)
    requires !SomeWriterAcquires(c, s, steps)
    ensures !SomeReaderAcquires(c, s, steps)
    decreases |steps|
  {
    if steps != [] {
      StepInv(c, s, steps[0]);
      WriterFirst(c, Do(c, s, steps[0]), steps[1..]);
    }
  }

  lemma {:induction false} RunAppend(c: Config, s: State, steps: seq<Step>, x: Step)
    requires Legal(c, s, steps) && Enabled(Run(c, s, steps), x)
    ensures Legal(c, s, steps + [x]) && Run(c, s, steps + [x]) == Do(c, Run(c, s, steps), x)
    decreases |steps|
  {
    if steps == [] {
      assert (steps + [x])[1..] == [];
    } else {
      RunAppend(c, Do(c, s, steps[0]), steps[1..], x);
      assert (steps + [x])[1..] == steps[1..] + [x];
    }
  }

  lemma ReachableStep(c: Config, n: nat, s: State, x: Step) returns (s': State)
    requires Reachable(c, n, s) && Enabled(s, x)
    ensures s' == Do(c, s, x) && Reachable(c, n, s')
  {
    var steps :| Legal(c, Init(n), steps) && s == Run(c, Init(n), steps);
    RunAppend(c, Init(n), steps, x);
    s' := Do(c, s, x);
  }

  /** A reader walks in although a writer waits. */
  ghost predicate Overtaken(c: Config, s: State, step: Step) {
    s.waitW > 0 && Enabled(s, step) && ReaderAcquires(c, s, step)
  }

  /** Without writer-first mode the promise is false, whatever the reader limit: a reader
      leaves, the writer it kept out is woken, and another reader walks in before it runs. */
  lemma ReadersOvertakeWithoutWriterFirst(c: Config)
    requires !c.writerFirst
    ensures exists s, step :: Reachable(c, 3, s) && Overtaken(c, s, step)
  {
    assert Legal(c, Init(3), []) && Run(c, Init(3), []) == Init(3);
    var s := ReachableStep(c, 3, Init(3), BeginRead(0));
    s := ReachableStep(c, 3, s, BeginWrite(1));
    CountZero(s.th, IsAsleepW);
    s := ReachableStep(c, 3, s, Unlock(0, 1));
    assert s.hold == 0 && s.waitW == 1;
    assert Overtaken(c, s, BeginRead(2));
  }

  /** So no reader ever overtakes a waiting writer exactly in writer-first mode. */
  lemma WriterFirstIsExact(c: Config)
    ensures c.writerFirst <==> forall n, s, step :: Reachable(c, n, s) ==> !Overtaken(c, s, step)
  {
    if !c.writerFirst {
      ReadersOvertakeWithoutWriterFirst(c);
    }
  }

  // ---- Draining ----

  /** No new caller and no spurious wake-up. */
  predicate Draining(step: Step) {
    step.ResumeRead? || step.ResumeWrite? || step.Unlock?
  }

  predicate AllDraining(steps: seq<Step>) {
    forall i :: 0 <= i < |steps| ==> Draining(steps[i])
  }

  /** Twice the waiting threads plus the owners, then the woken threads, read
      lexicographically. */
  function Rank(th: seq<Phase>): nat {
    (2 * Count(th, IsWaiting) + Count(th, IsOwner)) * (|th| + 1) + Count(th, IsWoken)
  }

  lemma RankUpdate(th: seq<Phase>, t: nat, v: Phase)
    requires t < |th|
    ensures var r := th[t := v];
            && Count(r, IsWaiting) == Count(th, IsWaiting) - One(IsWaiting(th[t])) + One(IsWaiting(v))
            && Count(r, IsOwner) == Count(th, IsOwner) - One(IsOwner(th[t])) + One(IsOwner(v))
            && Count(r, IsWoken) == Count(th, IsWoken) - One(IsWoken(th[t])) + One(IsWoken(v))
  {
    CountUpdate(th, t, v, IsWaiting);
    CountUpdate(th, t, v, IsOwner);
    CountUpdate(th, t, v, IsWoken);
  }

  /** Losing one unit of the leading component beats any number of woken threads. */
  lemma RankDrops(th: seq<Phase>, th': seq<Phase>)
    requires |th'| == |th|
    requires 2 * Count(th', IsWaiting) + Count(th', IsOwner) < 2 * Count(th, IsWaiting) + Count(th, IsOwner)
    ensures Rank(th') < Rank(th)
  {
    CountBounds(th', IsWoken);
    LexicographicDrop(2 * Count(th, IsWaiting) + Count(th, IsOwner), 2 * Count(th', IsWaiting) + Count(th', IsOwner),
                      |th| + 1, Count(th', IsWoken));
  }

  lemma {:induction false} LexicographicDrop(m: nat, m': nat, k: nat, low: nat)
    requires m' < m && low < k
    ensures m' * k + low < m * k
    decreases m
  {
    assert m * k == (m - 1) * k + k;
    if m' < m - 1 {
      LexicographicDrop(m - 1, m', k, low);
    }
  }

  /** Waking threads up changes neither who waits nor who owns. */
  lemma WakeKeepsWaiting(c: Config, s: State, w: nat)
    ensures var s' := Wake(c, s, w);
            && |s'.th| == |s.th|
            && Count(s'.th, IsWaiting) == Count(s.th, IsWaiting)
            && Count(s'.th, IsOwner) == Count(s.th, IsOwner)
  {
    CountSame(s.th, Broadcast(s.th), IsWaiting);
    CountSame(s.th, Broadcast(s.th), IsOwner);
    CountSame(s.th, Signal(s.th, w), IsWaiting);
    CountSame(s.th, Signal(s.th, w), IsOwner);
  }

  lemma DrainingStepDescends(c: Config, s: State, step: Step)
    requires Enabled(s, step) && Draining(step)
    ensures Rank(Do(c, s, step).th) < Rank(s.th)
  {
    var s' := Do(c, s, step);
    var t := step.t;
    if step.Unlock? {
      RankUpdate(s.th, t, Idle);
      WakeKeepsWaiting(c, s.(hold := Released(s.hold), th := s.th[t := Idle]), step.signalled);
      RankDrops(s.th, s'.th);
    } else {
      RankUpdate(s.th, t, s'.th[t]);
      assert s'.th == s.th[t := s'.th[t]];
      if IsOwner(s'.th[t]) {
        RankDrops(s.th, s'.th);
      }
    }
  }

  lemma {:induction false} DrainIsFinite(c: Config, s: State, steps: seq<Step>)
    requires Legal(c, s, steps) && AllDraining(steps)
    ensures |steps| + Rank(Run(c, s, steps).th) <= Rank(s.th)
    decreases |steps|
  {
    if steps != [] {
      DrainingStepDescends(c, s, steps[0]);
      DrainIsFinite(c, Do(c, s, steps[0]), steps[1..]);
    }
  }

  /** Nothing is left to do only when every thread has gone home. */
  lemma StuckMeansIdle(c: Config, s: State)
    requires Inv(c, s)
    requires forall step :: Draining(step) ==> !Enabled(s, step)
    ensures s.hold == 0 && s.waitR == 0 && s.waitW == 0
    ensures forall t :: 0 <= t < |s.th| ==> s.th[t].Idle?
  {
    forall t: nat | t < |s.th| ensures !IsWoken(s.th[t]) && !IsOwner(s.th[t]) {
      assert Draining(ResumeRead(t)) && Draining(ResumeWrite(t));
      CountZero(s.th, IsAsleepW);
      var w: nat := if Count(s.th, IsAsleepW) > 0 then SomeAsleepWriter(s.th) else 0;
      assert Draining(Unlock(t, w));
    }
    CountZero(s.th, IsReading);
    CountZero(s.th, IsWriting);
    CountZero(s.th, IsWokenW);
    CountZero(s.th, IsAsleepW);
    CountZero(s.th, IsWaitingW);
    CountZero(s.th, IsAsleepR);
    CountZero(s.th, IsWaitingR);
  }

  ghost function SomeAsleepWriter(th: seq<Phase>): (w: nat)
    requires Count(th, IsAsleepW) > 0
    ensures w < |th| && th[w].AsleepW?
  {
    CountZero(th, IsAsleepW);
    var w: nat :| w < |th| && th[w].AsleepW?;
    w
  }

  /** Thread t owns the lock in mode p at some moment of the run. */
  predicate OwnsDuring(c: Config, s: State, steps: seq<Step>, t: nat, p: Phase)
    requires Legal(c, s, steps) && t < |s.th|
    decreases |steps|
  {
    s.th[t] == p || (steps != [] && OwnsDuring(c, Do(c, s, steps[0]), steps[1..], t, p))
  }

  /** A waiting thread goes on waiting for the same mode or gets the lock in it. */
  lemma WaitingStays(c: Config, s: State, step: Step, t: nat)
    requires Enabled(s, step) && t < |s.th|
    ensures IsWaitingR(s.th[t]) ==> IsWaitingR(Do(c, s, step).th[t]) || Do(c, s, step).th[t].Reading?
    ensures IsWaitingW(s.th[t]) ==> IsWaitingW(Do(c, s, step).th[t]) || Do(c, s, step).th[t].Writing?
  {
  }

  lemma {:induction false} WaitersAreServed(c: Config, s: State, steps: seq<Step>, t: nat)
    requires Legal(c, s, steps) && t < |s.th| && Run(c, s, steps).th[t].Idle?
    ensures IsWaitingR(s.th[t]) ==> OwnsDuring(c, s, steps, t, Reading)
    ensures IsWaitingW(s.th[t]) ==> OwnsDuring(c, s, steps, t, Writing)
    decreases |steps|
  {
    if steps != [] {
      WaitingStays(c, s, steps[0], t);
      WaitersAreServed(c, Do(c, s, steps[0]), steps[1..], t);
    }
  }

  /** From any state that keeps the invariant, when no one new arrives: the run is finite,
      and when it can go no further the lock is free, no one waits, and every thread that
      was waiting has owned the lock in the mode it asked for. */
  lemma Drain(c: Config, s: State, steps: seq<Step>)
    requires Inv(c, s) && Legal(c, s, steps) && AllDraining(steps)
    ensures |steps| <= Rank(s.th)
    ensures (forall step :: Draining(step) ==> !Enabled(Run(c, s, steps), step)) ==>
              var e := Run(c, s, steps);
              && e.hold == 0 && e.waitR == 0 && e.waitW == 0
              && (forall t :: 0 <= t < |e.th| ==> e.th[t].Idle?)
              && (forall t: nat :: t < |s.th| && IsWaitingR(s.th[t]) ==> OwnsDuring(c, s, steps, t, Reading))
              && (forall t: nat :: t < |s.th| && IsWaitingW(s.th[t]) ==> OwnsDuring(c, s, steps, t, Writing))
  {
    DrainIsFinite(c, s, steps);
    var e := Run(c, s, steps);
    if forall step :: Draining(step) ==> !Enabled(e, step) {
      RunInv(c, s, steps);
      StuckMeansIdle(c, e);
      forall t: nat | t < |s.th|
        ensures IsWaitingR(s.th[t]) ==> OwnsDuring(c, s, steps, t, Reading)
        ensures IsWaitingW(s.th[t]) ==> OwnsDuring(c, s, steps, t, Writing)
      {
        WaitersAreServed(c, s, steps, t);
      }
    }
  }

  // ---- Refinement ----

  function EventOf(c: Config, s: State, step: Step): Event
    requires Enabled(s, step)
  {
    if ReaderAcquires(c, s, step) then AcquireRead(step.t)
    else if WriterAcquires(c, s, step) then AcquireWrite(step.t)
    else if step.Unlock? then (if s.th[step.t].Reading? then ReleaseRead(step.t) else ReleaseWrite(step.t))
    else Stutter
  }

  lemma UnlockRefines(c: Config, s: State, t: nat, w: nat)
    requires Inv(c, s) && Enabled(s, Unlock(t, w))
    ensures Allowed(EventOf(c, s, Unlock(t, w)), OwnersOf(s.th), OwnersOf(Do(c, s, Unlock(t, w)).th))
  {
    OwnersCounted(s.th);
    PhaseCounted(s.th, t);
    WakeKeepsOwners(c, s.(hold := Released(s.hold), th := s.th[t := Idle]), w);
    OwnersUpdate(s.th, t, Idle);
    if s.th[t].Writing? {
      CardOneMember(OwnersOf(s.th).writers, t);
    }
  }

  /** A thread that owns nothing moves: it takes the lock when the counts allow, or nothing changes hands. */
  lemma MoveRefines(th: seq<Phase>, t: nat, v: Phase)
    requires t < |th| && !IsOwner(th[t])
    requires v.Reading? ==> Count(th, IsWriting) == 0
    requires v.Writing? ==> Count(th, IsWriting) == 0 && Count(th, IsReading) == 0
    ensures Allowed(if v.Reading? then AcquireRead(t) else if v.Writing? then AcquireWrite(t) else Stutter,
                    OwnersOf(th), OwnersOf(th[t := v]))
  {
    OwnersUpdate(th, t, v);
    OwnersCounted(th);
  }

  /** Every step of the lock is a step of the abstract readers/writer lock. */
  lemma StepRefines(c: Config, s: State, step: Step)
    requires Inv(c, s) && Enabled(s, step)
    ensures Allowed(EventOf(c, s, step), OwnersOf(s.th), OwnersOf(Do(c, s, step).th))
  {
    if step.Unlock? {
      UnlockRefines(c, s, step.t, step.signalled);
    } else {
      var t, th' := step.t, Do(c, s, step).th;
      assert th' == s.th[t := th'[t]];
      MoveRefines(s.th, t, th'[t]);
    }
  }

  lemma CardOneMember(a: set<nat>, t: nat)
    requires |a| == 1 && t in a
    ensures a == {t}
  {
    assert |a - {t}| == 0;
  }

  lemma OwnersUpdate(th: seq<Phase>, t: nat, v: Phase)
    requires t < |th|
    ensures OwnersOf(th[t := v]).readers == if v.Reading? then OwnersOf(th).readers + {t}
            else OwnersOf(th).readers - {t}
    ensures OwnersOf(th[t := v]).writers == if v.Writing? then OwnersOf(th).writers + {t}
            else OwnersOf(th).writers - {t}
  {
  }

  lemma WakeKeepsOwners(c: Config, s: State, w: nat)
    ensures OwnersOf(Wake(c, s, w).th) == OwnersOf(s.th)
  {
    var s' := Wake(c, s, w);
    assert forall t :: 0 <= t < |s.th| ==>
        s'.th[t].Reading? == s.th[t].Reading? && s'.th[t].Writing? == s.th[t].Writing?;
  }
}
