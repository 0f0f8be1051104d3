/** When a lock that nobody holds can be kept from everybody: the threads that try it keep
    each other off by the tries they have failed and not yet taken back. */
module SpinLockLivelock {
  import opened Counting
  import opened SpinLock
  import opened SpinLockSafety
  import opened SpinLockProgress

  /** Inside atomic_lock(&lock). */
  predicate Spinner(p: PC) {
    p.TryLock? || p.UndoLock?
  }

  ghost predicate JamPair(s: State, u: nat, v: nat) {
    u < |s.pc| && v < |s.pc| && u != v && s.pc[u].UndoLock? && Spinner(s.pc[v])
  }

  /** One thread has a failed try standing, and another one spins beside it. */
  ghost predicate Jam(s: State) {
    exists u: nat, v: nat :: JamPair(s, u, v)
  }

  ghost predicate Free(s: State) {
    Count(s.pc, Holds) == 0
  }

  /** A legal run of threads that go on with the calls they are in, in every state of
      which nobody holds the lock. */
  ghost predicate FreeRun(s: State, acts: seq<Act>)
    decreases |acts|
  {
    Free(s) && (acts != [] ==>
      && acts[0].call.Continue? && Enabled(s, acts[0].t, Continue)
      && FreeRun(Step(s, acts[0].t, Continue), acts[1..]))
  }

  lemma {:induction false} FreeRunIsLegal(s: State, acts: seq<Act>)
    requires FreeRun(s, acts)
    ensures Legal(s, acts)
    decreases |acts|
  {
    if acts != [] {
      FreeRunIsLegal(Step(s, acts[0].t, Continue), acts[1..]);
    }
  }

  /** Such a run that comes back to where it began. */
  ghost predicate Loop(s: State, acts: seq<Act>) {
    FreeRun(s, acts) && Legal(s, acts) && Run(s, acts) == s
  }

  predicate Moves(acts: seq<Act>, t: nat) {
    exists i :: 0 <= i < |acts| && acts[i].t == t
  }

  /** Every spinner has its turn. */
  ghost predicate AllMove(s: State, acts: seq<Act>) {
    forall t: nat :: t < |s.pc| && Spinner(s.pc[t]) ==> Moves(acts, t)
  }

  // ---- With a jam: everybody spins for ever ----

  lemma {:induction false} FreeRunAppend(s: State, a: seq<Act>, b: seq<Act>)
    requires FreeRun(s, a) && Legal(s, a) && FreeRun(Run(s, a), b) && Legal(Run(s, a), b)
    ensures FreeRun(s, a + b) && Legal(s, a + b) && Run(s, a + b) == Run(Run(s, a), b)
    decreases |a|
  {
    if a == [] {
      assert a + b == b;
    } else {
      assert (a + b)[1..] == a[1..] + b;
      FreeRunAppend(Step(s, a[0].t, Continue), a[1..], b);
    }
  }

  lemma MovesAppend(a: seq<Act>, b: seq<Act>, t: nat)
    ensures Moves(a + b, t) <==> Moves(a, t) || Moves(b, t)
  {
    if i :| 0 <= i < |a| && a[i].t == t { assert (a + b)[i].t == t; }
    if i :| 0 <= i < |b| && b[i].t == t { assert (a + b)[|a| + i].t == t; }
  }

  lemma OneMove(s: State, t: nat)
    requires Free(s) && Enabled(s, t, Continue) && Free(Step(s, t, Continue))
    ensures var acts := [Act(t, Continue)];
            FreeRun(s, acts) && Legal(s, acts) && Run(s, acts) == Step(s, t, Continue)
  {
    var acts := [Act(t, Continue)];
    assert acts[1..] == [];
    assert FreeRun(Step(s, t, Continue), []) && Legal(Step(s, t, Continue), []);
  }

  /** Beside a failed try that stands, a spinner's next operation leaves the lock free, and
      the one after it brings everything back. */
  lemma Spins(s: State, u: nat, v: nat)
    requires Inv(s) && Free(s) && JamPair(s, u, v)
    ensures Enabled(s, v, Continue)
    ensures var s1 := Step(s, v, Continue);
            && Inv(s1) && Free(s1) && s1.pc == s.pc[v := if s.pc[v].TryLock? then UndoLock(s.pc[v].mode)
                                                         else TryLock(s.pc[v].mode)]
            && Enabled(s1, v, Continue)
  {
    StepInv(s, v, Continue);
    if s.pc[v].TryLock? {
      LockTest(s);
      CountSome(s.pc, u, InUndoLock);
    }
    CountUpdate(s.pc, v, Step(s, v, Continue).pc[v], Holds);
  }

  /** The counter and the thread are back where they were. */
  lemma SpinsBack(s: State, u: nat, v: nat)
    requires Inv(s) && Free(s) && JamPair(s, u, v)
    ensures Enabled(s, v, Continue) && Enabled(Step(s, v, Continue), v, Continue)
    ensures Step(Step(s, v, Continue), v, Continue) == s
  {
    Spins(s, u, v);
    var s1 := Step(s, v, Continue);
    assert JamPair(s1, u, v);
    Spins(s1, u, v);
    var s2 := Step(s1, v, Continue);
    assert s2.pc == s.pc;
    assert 0 <= s.lock < WRAP;
  }

  lemma SpinLoop(s: State, u: nat, v: nat) returns (acts: seq<Act>)
    requires Inv(s) && Free(s) && JamPair(s, u, v)
    ensures Loop(s, acts) && Moves(acts, v)
  {
    var x := Act(v, Continue);
    Spins(s, u, v);
    SpinsBack(s, u, v);
    var s1 := Step(s, v, Continue);
    OneMove(s, v);
    OneMove(s1, v);
    FreeRunAppend(s, [x], [x]);
    acts := [x] + [x];
    assert acts[0].t == v;
  }

  /** Also the thread whose failed try stands can be moved, once another has failed. */
  lemma UndoerLoop(s: State, u: nat, v: nat) returns (acts: seq<Act>)
    requires Inv(s) && Free(s) && JamPair(s, u, v)
    ensures Loop(s, acts) && Moves(acts, u) && acts != []
  {
    if s.pc[v].UndoLock? {
      acts := SpinLoop(s, v, u);
    } else {
      var x := [Act(v, Continue)];
      Spins(s, u, v);
      SpinsBack(s, u, v);
      var s1 := Step(s, v, Continue);
      assert JamPair(s1, v, u);
      var mid := SpinLoop(s1, v, u);
      OneMove(s, v);
      OneMove(s1, v);
      FreeRunAppend(s, x, mid);
      FreeRunAppend(s, x + mid, x);
      acts := x + mid + x;
      MovesAppend(x, mid, u);
      MovesAppend(x + mid, x, u);
    }
  }

  /** A loop in which every spinner below k but u has its turn. */
  lemma {:induction false} SpinnersLoop(s: State, u: nat, k: nat) returns (acts: seq<Act>)
    requires Inv(s) && Free(s) && u < |s.pc| && s.pc[u].UndoLock? && k <= |s.pc|
    ensures Loop(s, acts)
    ensures forall t: nat :: t < k && t != u && Spinner(s.pc[t]) ==> Moves(acts, t)
  {
    if k == 0 {
      acts := [];
    } else {
      var before := SpinnersLoop(s, u, k - 1);
      acts := before;
      if k - 1 != u && Spinner(s.pc[k - 1]) {
        var last := SpinLoop(s, u, k - 1);
        FreeRunAppend(s, before, last);
        acts := before + last;
        forall t: nat | t < k && t != u && Spinner(s.pc[t]) ensures Moves(acts, t) {
          MovesAppend(before, last, t);
        }
      }
    }
  }

  /** With a jam there is a loop in which every spinner has its turn. */
  lemma JamLoops(s: State) returns (acts: seq<Act>)
    requires Inv(s) && Free(s) && Jam(s)
    ensures Loop(s, acts) && acts != [] && AllMove(s, acts)
  {
    var u: nat, v: nat :| JamPair(s, u, v);
    var others := SpinnersLoop(s, u, |s.pc|);
    var own := UndoerLoop(s, u, v);
    FreeRunAppend(s, others, own);
    acts := others + own;
    forall t: nat | t < |s.pc| && Spinner(s.pc[t]) ensures Moves(acts, t) {
      MovesAppend(others, own, t);
    }
  }

  // ---- Without one: somebody has the lock after two operations ----

  /** What a thread can go on with while nobody holds the lock. */
  lemma FreeMove(s: State, t: nat)
    requires Inv(s) && Free(s) && Enabled(s, t, Continue) && Free(Step(s, t, Continue))
    ensures Spinner(s.pc[t])
    ensures s.pc[t].TryLock? ==> exists u: nat :: u < |s.pc| && s.pc[u].UndoLock?
  {
    CountZero(s.pc, Holds);
    if s.pc[t].TryLock? {
      LockTest(s);
      if Count(s.pc, InUndoLock) > 0 {
        var u := CountWitness(s.pc, InUndoLock);
      } else {
        CountSome(Step(s, t, Continue).pc, t, Holds);
      }
    }
  }

  /** A lone undoer becomes a lone trier. */
  lemma LoneSpinner(s: State, t: nat)
    requires Inv(s) && Free(s) && !Jam(s) && Enabled(s, t, Continue) && Free(Step(s, t, Continue))
    ensures s.pc[t].UndoLock? && Step(s, t, Continue).pc[t].TryLock?
    ensures forall v: nat :: v < |s.pc| && v != t ==> !Spinner(s.pc[v])
  {
    FreeMove(s, t);
    if s.pc[t].TryLock? {
      var u: nat :| u < |s.pc| && s.pc[u].UndoLock?;
      assert JamPair(s, u, t);
    }
    forall v: nat | v < |s.pc| && v != t ensures !Spinner(s.pc[v]) {
      assert !JamPair(s, t, v);
    }
  }

  lemma FreeRunTail(s: State, acts: seq<Act>)
    requires FreeRun(s, acts) && acts != []
    ensures Enabled(s, acts[0].t, Continue) && FreeRun(Step(s, acts[0].t, Continue), acts[1..])
    ensures Free(Step(s, acts[0].t, Continue)) && acts[0] == Act(acts[0].t, Continue)
  {
  }

  /** A lone trier takes the lock. */
  lemma LoneTrierTakes(s: State, t: nat, t1: nat)
    requires Inv(s) && Free(s) && t < |s.pc| && s.pc[t].TryLock?
    requires forall v: nat :: v < |s.pc| && v != t ==> !Spinner(s.pc[v])
    requires Enabled(s, t1, Continue)
    ensures !Free(Step(s, t1, Continue))
  {
    if Free(Step(s, t1, Continue)) {
      FreeMove(s, t1);
    }
  }

  lemma {:induction false} ShortWithoutJam(s: State, acts: seq<Act>)
    requires Inv(s) && Free(s) && !Jam(s) && FreeRun(s, acts)
    ensures |acts| <= 1
    ensures |acts| == 1 ==> Legal(s, acts) && Run(s, acts) != s
  {
    if acts != [] {
      var t := acts[0].t;
      FreeRunTail(s, acts);
      LoneSpinner(s, t);
      StepInv(s, t, Continue);
      var s1, rest := Step(s, t, Continue), acts[1..];
      if rest != [] {
        FreeRunTail(s1, rest);
        LoneTrierTakes(s1, t, rest[0].t);
      } else {
        OneMove(s, t);
        assert acts == [Act(t, Continue)];
      }
    }
  }

  // ---- The exact condition ----

  /** A lock that nobody holds can be kept from everybody by the calls already made exactly
      when there is a jam.  Then a run does it that comes back to where it began and gives
      every spinner its turn, so a fair scheduler may repeat it for ever; without a jam
      somebody has the lock after at most two operations, whatever the scheduler does. */
  lemma FreeLockLivelock(s: State)
    requires Inv(s) && Free(s)
    ensures Jam(s) <==> exists acts :: acts != [] && Loop(s, acts)
    ensures Jam(s) ==> exists acts :: acts != [] && Loop(s, acts) && AllMove(s, acts)
    ensures !Jam(s) ==> forall acts :: FreeRun(s, acts) ==> |acts| <= 1
  {
    if Jam(s) {
      var acts := JamLoops(s);
    } else {
      forall acts | FreeRun(s, acts) ensures |acts| <= 1 && (acts != [] ==> !Loop(s, acts)) {
        ShortWithoutJam(s, acts);
      }
    }
  }

  // ---- A jam is reached ----

  /** Threads 0 and 1 in these places and all others idle. */
  function TwoOf(n: nat, a: PC, b: PC): (pc: seq<PC>)
    requires n >= 2
  {
    seq(n, _ => Idle)[0 := a][1 := b]
  }

  /** One writer has failed to get past a reader that was just coming in. */
  lemma OneTrier(n: nat) returns (s: State)
    requires 2 <= n < WRAP
    ensures Reachable(n, s) && s.pc == TwoOf(n, UndoLock(ForWrite), OpenLock) && |s.seen| == n
    ensures s.lock == WRAP - 1
  {
    ReachableInit(n);
    s := ReachableStep(n, Init(n), 1, BeginRead);
    s := ReachableStep(n, s, 1, Continue);
    assert s.pc == TwoOf(n, Idle, IncCount) && s.lock == 0;
    s := ReachableStep(n, s, 0, BeginWrite);
    s := ReachableStep(n, s, 0, Continue);
    assert s.pc == TwoOf(n, UndoLock(ForWrite), IncCount);
    s := ReachableStep(n, s, 1, Continue);
  }

  /** The reader has come out again and tries for the lock, the writer is still at it. */
  lemma TwoTriers(n: nat) returns (s: State)
    requires 2 <= n < WRAP
    ensures Reachable(n, s) && s.pc == TwoOf(n, UndoLock(ForWrite), TryLock(ForWrite))
  {
    s := OneTrier(n);
    s := ReachableStep(n, s, 1, Continue);
    s := ReachableStep(n, s, 1, EndRead);
    s := ReachableStep(n, s, 1, BeginWrite);
  }

  /** With two threads or more, and only then, a jam on a free lock is reached. */
  lemma JamIsReachable(n: nat)
    requires n < WRAP
    ensures (exists s :: Reachable(n, s) && Free(s) && Jam(s)) <==> n >= 2
  {
    if n >= 2 {
      var s := TwoTriers(n);
      CountZero(s.pc, Holds);
      assert JamPair(s, 0, 1);
    } else {
      forall s | Reachable(n, s) ensures !Jam(s) {
        var acts :| Legal(Init(n), acts) && s == Run(Init(n), acts);
      }
    }
  }
}
