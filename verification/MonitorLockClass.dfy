/** CThRWLock with its fields, each mutex-held region written as the source writes it
    and tied to one step of the state machine. */
module MonitorLockClass {
  import opened Counting
  import opened MonitorLock
  import opened MonitorLockRuns

  class CThRWLock {
    const writerFirst: bool
    const maxReader: int
    var waitingReader: int
    var waitingWriter: int
    var holdingLock: int
    /** m_stMutex left locked for good: only a throw inside a region does that. */
    var mutexStuck: bool
    ghost var th: seq<Phase>

    ghost function Cfg(): Config {
      Config(writerFirst, maxReader)
    }

    ghost function View(): State
      reads this
    {
      State(waitingReader, waitingWriter, holdingLock, th)
    }

    constructor (writerFirst: bool, maxReader: int, ghost n: nat)
      ensures Cfg() == Config(writerFirst, maxReader)
      ensures View() == Init(n) && !mutexStuck
      ensures waitingReader == waitingWriter == holdingLock == 0 && |th| == n
      ensures forall t :: 0 <= t < n ==> th[t].Idle?
    {
      this.writerFirst, this.maxReader := writerFirst, maxReader;
      waitingReader := 0;
      waitingWriter := 0;
      holdingLock := 0;
      mutexStuck := false;
      th := seq(n, _ => Idle);
    }

    /** One pass of ReadLock under the mutex: from the entry (resumed == false) or from
        the return of the wait (resumed == true) to the next wait or to the return. */
    method ReadLockRegion(resumed: bool, ghost t: nat) returns (acquired: bool)
      requires !mutexStuck
      requires t < |th| && th[t] == if resumed then WokenR else Idle
      modifies this
      ensures View() == Do(Cfg(), old(View()), if resumed then ResumeRead(t) else BeginRead(t))
      ensures acquired == th[t].Reading? && !mutexStuck
      ensures old(Inv(Cfg(), View())) ==>
                (acquired <==>
                 && (forall u :: 0 <= u < |old(th)| ==> !old(th)[u].Writing?)
                 && (maxReader > 0 ==> |OwnersOf(old(th)).readers| < maxReader)
                 && (writerFirst ==> forall u :: 0 <= u < |old(th)| ==> !old(th)[u].AsleepW? && !old(th)[u].WokenW?))
    {
      if Inv(Cfg(), View()) {
        ReaderGetsIn(Cfg(), View(), if resumed then ResumeRead(t) else BeginRead(t));
        NoOwners(th);
      }
      if resumed {
        waitingReader := waitingReader - 1;
      }
      if holdingLock < 0 || (maxReader > 0 && holdingLock == maxReader) || (writerFirst && waitingWriter > 0) {
        waitingReader := waitingReader + 1;
        th := th[t := AsleepR];
        return false;
      }
      holdingLock := holdingLock + 1;
      th := th[t := Reading];
      return true;
    }

    /** One pass of WriteLock under the mutex. */
    method WriteLockRegion(resumed: bool, ghost t: nat) returns (acquired: bool)
      requires !mutexStuck
      requires t < |th| && th[t] == if resumed then WokenW else Idle
      modifies this
      ensures View() == Do(Cfg(), old(View()), if resumed then ResumeWrite(t) else BeginWrite(t))
      ensures acquired == th[t].Writing? && !mutexStuck
      ensures old(Inv(Cfg(), View())) ==>
                (acquired <==> forall u :: 0 <= u < |old(th)| ==> !old(th)[u].Reading? && !old(th)[u].Writing?)
    {
      if Inv(Cfg(), View()) {
        WriterGetsIn(Cfg(), View(), if resumed then ResumeWrite(t) else BeginWrite(t));
        NoOwners(th);
      }
      if resumed {
        waitingWriter := waitingWriter - 1;
      }
      if holdingLock != 0 {
        waitingWriter := waitingWriter + 1;
        th := th[t := AsleepW];
        return false;
      }
      holdingLock := -1;
      th := th[t := Writing];
      return true;
    }

    method SignalWriter(ghost w: nat)
      modifies this`th
      ensures th == Signal(old(th), w)
    {
      if w < |th| && th[w].AsleepW? {
        th := th[w := WokenW];
      }
    }

    method BroadcastReaders()
      modifies this`th
      ensures th == Broadcast(old(th))
    {
      th := Broadcast(th);
    }

    /** Unlock for any caller, owner or not.  It throws exactly when nobody holds the
        lock, and then leaves the mutex locked and everything else alone. */
    method Unlock(ghost t: nat, ghost w: nat) returns (threw: bool)
      requires !mutexStuck && t < |th|
      modifies this
      ensures threw == UnlockThrows(old(View())) && mutexStuck == threw
      ensures threw ==> View() == old(View())
      ensures !threw ==> View() == Wake(Cfg(), old(View()).(hold := Released(old(holdingLock)),
                                                            th := if IsOwner(old(th)[t]) then old(th)[t := Idle]
                                                                else old(th)), w)
      ensures old(Enabled(View(), MonitorLock.Step.Unlock(t, w))) && old(Inv(Cfg(), View())) ==>
                && !threw && View() == old(Do(Cfg(), View(), MonitorLock.Step.Unlock(t, w)))
                && UnlockedTo(Cfg(), old(th), t, w, th)
    {
      if Enabled(View(), MonitorLock.Step.Unlock(t, w)) && Inv(Cfg(), View()) {
        UnlockWakes(Cfg(), View(), t, w);
      }
      if IsOwner(th[t]) {
        PhaseCounted(th, t);
      }
      if holdingLock == -1 {
        holdingLock := 0;
      } else if holdingLock > 0 {
        holdingLock := holdingLock - 1;
      } else {
        mutexStuck := true;
        return true;
      }
      if IsOwner(th[t]) {
        th := th[t := Idle];
      }
      if writerFirst {
        if waitingWriter > 0 {
          if holdingLock == 0 {
            SignalWriter(w);
          }
        } else if waitingReader > 0 {
          BroadcastReaders();
        }
      } else {
        if waitingWriter > 0 && holdingLock == 0 {
          SignalWriter(w);
        } else if waitingReader > 0 {
          BroadcastReaders();
        }
      }
      return false;
    }

    /** The destructor's check: true when it throws "RWLock is busy.", which in every state
        of well-bracketed callers means that some thread is in the lock or waits for it. */
    method Busy() returns (threw: bool)
      ensures threw == DestructorThrows(View())
      ensures Inv(Cfg(), View()) ==> (threw <==> exists t :: 0 <= t < |th| && !th[t].Idle?)
    {
      threw := waitingReader != 0 || waitingWriter != 0 || holdingLock != 0;
      if Inv(Cfg(), View()) {
        DestructorThrowsIffUsed(Cfg(), View());
      }
    }
  }

  predicate DestructorThrows(s: State) {
    s.waitR != 0 || s.waitW != 0 || s.hold != 0
  }

  /** The destructor refuses exactly when some thread is inside the lock or waiting for it. */
  lemma DestructorThrowsIffUsed(c: Config, s: State)
    requires Inv(c, s)
    ensures DestructorThrows(s) <==> exists t :: 0 <= t < |s.th| && !s.th[t].Idle?
  {
    CountZero(s.th, IsReading);
    CountZero(s.th, IsWriting);
    CountZero(s.th, IsWaitingR);
    CountZero(s.th, IsWaitingW);
  }
}
