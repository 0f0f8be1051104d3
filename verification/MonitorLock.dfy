/** The monitor readers/writer lock CThRWLock (src/thread.c) as a state machine.

    Every region that runs under m_stMutex is one step.  A thread is Idle, asleep
    on one of the two condition variables, woken but not yet running again
    (and still counted by the lock as waiting), or an owner of the lock. */
module MonitorLock {
  import opened Counting

  datatype Phase = Idle | AsleepR | AsleepW | WokenR | WokenW | Reading | Writing

  /** The two constructor arguments; maxReader <= 0 means no limit. */
  datatype Config = Config(writerFirst: bool, maxReader: int)

  /** The lock's three counters and the phase of every thread. */
  datatype State = State(waitR: int, waitW: int, hold: int, th: seq<Phase>)

  datatype Step =
    | BeginRead(t: nat)
    | BeginWrite(t: nat)
    | ResumeRead(t: nat)
    | ResumeWrite(t: nat)
    | Unlock(t: nat, signalled: nat)
    | Spurious(t: nat)

  predicate IsReading(p: Phase) { p.Reading? }
  predicate IsWriting(p: Phase) { p.Writing? }
  predicate IsAsleepR(p: Phase) { p.AsleepR? }
  predicate IsAsleepW(p: Phase) { p.AsleepW? }
  predicate IsWokenW(p: Phase) { p.WokenW? }
  predicate IsWaitingR(p: Phase) { p.AsleepR? || p.WokenR? }
  predicate IsWaitingW(p: Phase) { p.AsleepW? || p.WokenW? }
  predicate IsWoken(p: Phase) { p.WokenR? || p.WokenW? }
  predicate IsWaiting(p: Phase) { IsWaitingR(p) || IsWaitingW(p) }
  predicate IsOwner(p: Phase) { p.Reading? || p.Writing? }

  function Init(n: nat): State {
    State(0, 0, 0, seq(n, _ => Idle))
  }

  // ---- The code's regions ----

  /** The loop condition of ReadLock. */
  predicate ReadBlocked(c: Config, s: State) {
    || s.hold < 0
    || (c.maxReader > 0 && s.hold == c.maxReader)
    || (c.writerFirst && s.waitW > 0)
  }

  /** ReadLock from its loop test to the wait or to the return. */
  function TryRead(c: Config, s: State, t: nat): State
    requires t < |s.th|
  {
    if ReadBlocked(c, s) then s.(waitR := s.waitR + 1, th := s.th[t := AsleepR])
    else s.(hold := s.hold + 1, th := s.th[t := Reading])
  }

  /** WriteLock from its loop test to the wait or to the return. */
  function TryWrite(s: State, t: nat): State
    requires t < |s.th|
  {
    if s.hold != 0 then s.(waitW := s.waitW + 1, th := s.th[t := AsleepW])
    else s.(hold := -1, th := s.th[t := Writing])
  }

  /** The counter update at the head of Unlock, for the counter values that do not throw. */
  function Released(hold: int): int {
    if hold == -1 then 0 else hold - 1
  }

  /** Signal wakes one thread asleep on the writers' condition, if there is one. */
  function Signal(th: seq<Phase>, w: nat): (r: seq<Phase>)
    ensures |r| == |th|
  {
    if w < |th| && th[w].AsleepW? then th[w := WokenW] else th
  }

  function WakeReader(p: Phase): Phase {
    if p.AsleepR? then WokenR else p
  }

  /** Broadcast wakes every thread asleep on the readers' condition. */
  function Broadcast(th: seq<Phase>): (r: seq<Phase>)
    ensures |r| == |th|
    ensures forall i :: 0 <= i < |th| ==> r[i] == WakeReader(th[i])
  {
    seq(|th|, i requires 0 <= i < |th| => WakeReader(th[i]))
  }

  /** The wake-up part of Unlock, after the counter has been updated. */
  function Wake(c: Config, s: State, w: nat): State {
    if c.writerFirst then
      if s.waitW > 0 then
        if s.hold == 0 then s.(th := Signal(s.th, w)) else s
      else if s.waitR > 0 then s.(th := Broadcast(s.th))
      else s
    else if s.waitW > 0 && s.hold == 0 then s.(th := Signal(s.th, w))
    else if s.waitR > 0 then s.(th := Broadcast(s.th))
    else s
  }

  // ---- Steps and runs ----

  /** Well-bracketed callers: only an owner unlocks and only an idle thread locks.
      Signal picks some asleep writer whenever there is one. */
  predicate Enabled(s: State, step: Step) {
    match step
    case BeginRead(t) => t < |s.th| && s.th[t].Idle?
    case BeginWrite(t) => t < |s.th| && s.th[t].Idle?
    case ResumeRead(t) => t < |s.th| && s.th[t].WokenR?
    case ResumeWrite(t) => t < |s.th| && s.th[t].WokenW?
    case Unlock(t, w) =>
      t < |s.th| && IsOwner(s.th[t]) && (Count(s.th, IsAsleepW) > 0 ==> w < |s.th| && s.th[w].AsleepW?)
    case Spurious(t) => t < |s.th| && (s.th[t].AsleepR? || s.th[t].AsleepW?)
  }

  function Do(c: Config, s: State, step: Step): (r: State)
    requires Enabled(s, step)
    ensures |r.th| == |s.th|
  {
    match step
    case BeginRead(t) => TryRead(c, s, t)
    case BeginWrite(t) => TryWrite(s, t)
    case ResumeRead(t) => TryRead(c, s.(waitR := s.waitR - 1), t)
    case ResumeWrite(t) => TryWrite(s.(waitW := s.waitW - 1), t)
    case Unlock(t, w) => Wake(c, s.(hold := Released(s.hold), th := s.th[t := Idle]), w)
    case Spurious(t) => s.(th := s.th[t := if s.th[t].AsleepR? then WokenR else WokenW])
  }

  predicate Legal(c: Config, s: State, steps: seq<Step>)
    decreases |steps|
  {
    steps == [] || (Enabled(s, steps[0]) && Legal(c, Do(c, s, steps[0]), steps[1..]))
  }

  function Run(c: Config, s: State, steps: seq<Step>): (r: State)
    requires Legal(c, s, steps)
    ensures |r.th| == |s.th|
    decreases |steps|
  {
    if steps == [] then s else Run(c, Do(c, s, steps[0]), steps[1..])
  }

  // ---- The invariant ----

  /** m_iHoldingLock and the two waiting counters say exactly what the threads are doing. */
  ghost predicate CountersTell(c: Config, s: State) {
    && Count(s.th, IsWriting) <= 1
    && (Count(s.th, IsWriting) == 1 ==> Count(s.th, IsReading) == 0)
    && s.hold == (if Count(s.th, IsWriting) == 1 then -1 else Count(s.th, IsReading))
    && (c.maxReader > 0 ==> s.hold <= c.maxReader)
    && s.waitR == Count(s.th, IsWaitingR)
    && s.waitW == Count(s.th, IsWaitingW)
  }

  /** Whoever sleeps has somebody or something to wait for. */
  ghost predicate NoLostWakeup(c: Config, s: State) {
    && (Count(s.th, IsAsleepW) > 0 ==> s.hold != 0 || Count(s.th, IsWokenW) > 0)
    && (Count(s.th, IsAsleepR) > 0 ==> s.hold < 0 || (c.maxReader > 0 && s.hold == c.maxReader) || s.waitW > 0)
  }

  ghost predicate Inv(c: Config, s: State) {
    CountersTell(c, s) && NoLostWakeup(c, s)
  }

  /** All the counts the invariant uses, after one thread changes phase. */
  lemma PhaseUpdate(th: seq<Phase>, t: nat, v: Phase)
    requires t < |th|
    ensures var r := th[t := v];
            && Count(r, IsReading) == Count(th, IsReading) - One(IsReading(th[t])) + One(IsReading(v))
            && Count(r, IsWriting) == Count(th, IsWriting) - One(IsWriting(th[t])) + One(IsWriting(v))
            && Count(r, IsAsleepR) == Count(th, IsAsleepR) - One(IsAsleepR(th[t])) + One(IsAsleepR(v))
            && Count(r, IsAsleepW) == Count(th, IsAsleepW) - One(IsAsleepW(th[t])) + One(IsAsleepW(v))
            && Count(r, IsWokenW) == Count(th, IsWokenW) - One(IsWokenW(th[t])) + One(IsWokenW(v))
            && Count(r, IsWaitingR) == Count(th, IsWaitingR) - One(IsWaitingR(th[t])) + One(IsWaitingR(v))
            && Count(r, IsWaitingW) == Count(th, IsWaitingW) - One(IsWaitingW(th[t])) + One(IsWaitingW(v))
  {
    CountUpdate(th, t, v, IsReading);
    CountUpdate(th, t, v, IsWriting);
    CountUpdate(th, t, v, IsAsleepR);
    CountUpdate(th, t, v, IsAsleepW);
    CountUpdate(th, t, v, IsWokenW);
    CountUpdate(th, t, v, IsWaitingR);
    CountUpdate(th, t, v, IsWaitingW);
  }

  /** A broadcast leaves every count alone except that no reader stays asleep. */
  lemma BroadcastCounts(th: seq<Phase>)
    ensures var r := Broadcast(th);
            && Count(r, IsReading) == Count(th, IsReading)
            && Count(r, IsWriting) == Count(th, IsWriting)
            && Count(r, IsAsleepR) == 0
            && Count(r, IsAsleepW) == Count(th, IsAsleepW)
            && Count(r, IsWokenW) == Count(th, IsWokenW)
            && Count(r, IsWaitingR) == Count(th, IsWaitingR)
            && Count(r, IsWaitingW) == Count(th, IsWaitingW)
  {
    var r := Broadcast(th);
    CountSame(th, r, IsReading);
    CountSame(th, r, IsWriting);
    CountSame(th, r, IsAsleepW);
    CountSame(th, r, IsWokenW);
    CountSame(th, r, IsWaitingR);
    CountSame(th, r, IsWaitingW);
    CountZero(r, IsAsleepR);
  }

  /** A thread in a phase is counted in that phase and the phases that include it. */
  lemma PhaseCounted(th: seq<Phase>, t: nat)
    requires t < |th|
    ensures IsReading(th[t]) ==> Count(th, IsReading) > 0
    ensures IsWriting(th[t]) ==> Count(th, IsWriting) > 0
  {
    if IsReading(th[t]) { CountSome(th, t, IsReading); }
    if IsWriting(th[t]) { CountSome(th, t, IsWriting); }
  }

  lemma SleepersWait(th: seq<Phase>)
    ensures Count(th, IsAsleepR) <= Count(th, IsWaitingR)
    ensures Count(th, IsAsleepW) <= Count(th, IsWaitingW)
  {
    CountMono(th, IsAsleepR, IsWaitingR);
    CountMono(th, IsAsleepW, IsWaitingW);
  }

  // ---- The invariant is kept ----

  lemma InitInv(c: Config, n: nat)
    ensures Inv(c, Init(n))
  {
    var th := Init(n).th;
    CountZero(th, IsReading);
    CountZero(th, IsWriting);
    CountZero(th, IsAsleepR);
    CountZero(th, IsAsleepW);
    CountZero(th, IsWaitingR);
    CountZero(th, IsWaitingW);
  }

  lemma WakeInv(c: Config, s: State, w: nat)
    requires CountersTell(c, s)
    requires Count(s.th, IsAsleepW) > 0 ==> w < |s.th| && s.th[w].AsleepW?
    requires c.maxReader > 0 ==> s.hold < c.maxReader
    ensures Inv(c, Wake(c, s, w))
  {
    SleepersWait(s.th);
    BroadcastCounts(s.th);
    if w < |s.th| && s.th[w].AsleepW? {
      PhaseUpdate(s.th, w, WokenW);
    }
  }

  lemma UnlockInv(c: Config, s: State, t: nat, w: nat)
    requires Inv(c, s) && Enabled(s, Unlock(t, w))
    ensures Inv(c, Do(c, s, Unlock(t, w)))
  {
    var s1 := s.(hold := Released(s.hold), th := s.th[t := Idle]);
    PhaseUpdate(s.th, t, Idle);
    PhaseCounted(s.th, t);
    WakeInv(c, s1, w);
  }

  /** One pass of ReadLock's region, for a thread that is starting (resumed == false)
      or has been woken (resumed == true). */
  lemma ReadRegionInv(c: Config, s: State, t: nat, resumed: bool)
    requires Inv(c, s) && t < |s.th|
    requires s.th[t] == if resumed then WokenR else Idle
    ensures Inv(c, TryRead(c, s.(waitR := s.waitR - One(resumed)), t))
  {
    if ReadBlocked(c, s) {
      PhaseUpdate(s.th, t, AsleepR);
    } else {
      PhaseUpdate(s.th, t, Reading);
    }
  }

  lemma WriteRegionInv(c: Config, s: State, t: nat, resumed: bool)
    requires Inv(c, s) && t < |s.th|
    requires s.th[t] == if resumed then WokenW else Idle
    ensures Inv(c, TryWrite(s.(waitW := s.waitW - One(resumed)), t))
  {
    if s.hold != 0 {
      PhaseUpdate(s.th, t, AsleepW);
    } else {
      PhaseUpdate(s.th, t, Writing);
    }
  }

  lemma SpuriousInv(c: Config, s: State, t: nat)
    requires Inv(c, s) && Enabled(s, Spurious(t))
    ensures Inv(c, Do(c, s, Spurious(t)))
  {
    if s.th[t].AsleepR? {
      PhaseUpdate(s.th, t, WokenR);
    } else {
      PhaseUpdate(s.th, t, WokenW);
    }
  }

  /** Every step of every well-bracketed caller keeps the invariant. */
  lemma StepInv(c: Config, s: State, step: Step)
    requires Inv(c, s) && Enabled(s, step)
    ensures Inv(c, Do(c, s, step))
  {
    match step
    case BeginRead(t) => ReadRegionInv(c, s, t, false);
    case ResumeRead(t) => ReadRegionInv(c, s, t, true);
    case BeginWrite(t) => WriteRegionInv(c, s, t, false);
    case ResumeWrite(t) => WriteRegionInv(c, s, t, true);
    case Unlock(t, w) => UnlockInv(c, s, t, w);
    case Spurious(t) => SpuriousInv(c, s, t);
  }

  lemma {:induction false} RunInv(c: Config, s: State, steps: seq<Step>)
    requires Inv(c, s) && Legal(c, s, steps)
    ensures Inv(c, Run(c, s, steps))
    decreases |steps|
  {
    if steps != [] {
      StepInv(c, s, steps[0]);
      RunInv(c, Do(c, s, steps[0]), steps[1..]);
    }
  }
}
