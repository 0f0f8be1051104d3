/** What allocated memory holds: the bytes of a live allocation survive every call of the
    allocator, and every write of other clients, until the pool they were taken from or
    one of its ancestors is cleared or destroyed. */
module PoolBytes {
  import opened PoolModel
  import opened PoolTree
  import opened PoolInv
  import opened PoolSteps
  import opened PoolRuns
  import opened PoolLayout

  /** The allocator's state and the byte at every offset of every block. */
  datatype Store = Store(st: State, mem: (nat, nat) -> char)

  /** A call of the allocator, or a client writing into an allocation it holds: bytes from
      position at of what the i-th live request of pool p was given. */
  datatype Step = Call(op: Op) | Write(p: nat, i: nat, at: nat, bytes: seq<char>)

  /** Where a live pool keeps its header. */
  predicate InHeader(s: State, b: nat, o: nat) {
    b in s.pools && o < POOL_HDR
  }

  /** A call changes nothing in the blocks there are but headers of pools, live before or
      after; it may change those in any way. */
  ghost predicate Called(x: Store, op: Op, y: Store)
    requires Inv(x.st)
  {
    && Can(x.st, op) && y.st == Do(x.st, op)
    && forall b: nat, o: nat {:trigger y.mem(b, o)} ::
         b < |x.st.blocks| && !InHeader(x.st, b, o) && !InHeader(y.st, b, o) ==> y.mem(b, o) == x.mem(b, o)
  }

  /** The bytes appear where they are written, inside what was asked for, and nothing else changes. */
  ghost predicate Written(x: Store, p: nat, i: nat, at: nat, bytes: seq<char>, y: Store) {
    && IsPoolAlloc(x.st, p, i) && at + |bytes| <= x.st.pools[p].log[i].req && y.st == x.st
    && var a := x.st.pools[p].log[i];
       forall b: nat, o: nat {:trigger y.mem(b, o)} ::
         y.mem(b, o) == if b == a.blk && a.off + at <= o < a.off + at + |bytes| then bytes[o - a.off - at]
             else x.mem(b, o)
  }

  ghost predicate Stepped(x: Store, step: Step, y: Store)
    requires Inv(x.st)
  {
    match step
    case Call(op) => Called(x, op, y)
    case Write(p, i, at, bytes) => Written(x, p, i, at, bytes, y)
  }

  /** The call clears or destroys neither pool p nor an ancestor of it. */
  predicate OpSpares(s: State, op: Op, p: nat) {
    match op
    case MakeOp(_) => true
    case PallocOp(_, _) => true
    case ClearOp(q) => !Under(s.pools, p, q)
    case DestroyOp(q) => !Under(s.pools, p, q)
  }

  /** The step takes the i-th allocation of pool p neither away nor for writing. */
  predicate Spares(s: State, step: Step, p: nat, i: nat) {
    match step
    case Call(op) => OpSpares(s, op, p)
    case Write(q, j, _, _) => q != p || j != i
  }

  /** y is reached from x by the steps, every one of which spares the i-th allocation of p. */
  ghost predicate SparingRun(x: Store, steps: seq<Step>, y: Store, p: nat, i: nat)
    requires Inv(x.st)
    decreases |steps|
  {
    if steps == [] then y == x
    else exists z :: SparingStep(x, steps[0], z, p, i) && SparingRun(z, steps[1..], y, p, i)
  }

  ghost predicate SparingStep(x: Store, step: Step, z: Store, p: nat, i: nat)
    requires Inv(x.st)
  {
    Stepped(x, step, z) && Spares(x.st, step, p, i) && Inv(z.st)
  }

  /** The bytes the i-th live request of pool p can use. */
  ghost function Content(x: Store, p: nat, i: nat): seq<char>
    requires IsPoolAlloc(x.st, p, i)
  {
    var a := x.st.pools[p].log[i];
    seq(a.req, k requires 0 <= k < a.req => x.mem(a.blk, a.off + k))
  }

  // ---- Which calls end an allocation's life ----

  /** A call ends the life of an allocation exactly when it clears or destroys its pool
      or an ancestor; otherwise the allocation stays where it is. */
  lemma LiveIffSpared(s: State, op: Op, p: nat, i: nat)
    requires Inv(s) && Can(s, op) && IsPoolAlloc(s, p, i)
    ensures IsPoolAlloc(Do(s, op), p, i) <==> OpSpares(s, op, p)
    ensures OpSpares(s, op, p) ==> Do(s, op).pools[p].log[i] == s.pools[p].log[i]
  {
    hide TreeOk, Owned, Filled;
    match op
    case MakeOp(parent) =>
      NewPoolIsNew(s);
    case PallocOp(q, n) =>
      if n > 0 { PallocSane(s, q, n); }
    case ClearOp(q) =>
      assert q == p ==> Under(s.pools, p, q);
    case DestroyOp(q) =>
      assert q == p ==> Under(s.pools, p, q);
  }

  // ---- One step ----

  lemma CallKeeps(x: Store, op: Op, y: Store, p: nat, i: nat)
    requires Inv(x.st) && Called(x, op, y) && OpSpares(x.st, op, p) && IsPoolAlloc(x.st, p, i)
    ensures IsPoolAlloc(y.st, p, i) && y.st.pools[p].log[i] == x.st.pools[p].log[i]
    ensures Content(y, p, i) == Content(x, p, i)
  {
    LiveIffSpared(x.st, op, p, i);
    AllocInside(x.st, p, i);
    AllocInside(y.st, p, i);
    hide Inv, Do, Can, OpSpares;
    var a := x.st.pools[p].log[i];
    forall k: nat | k < a.req ensures Content(y, p, i)[k] == Content(x, p, i)[k] {
      assert !InHeader(x.st, a.blk, a.off + k) && !InHeader(y.st, a.blk, a.off + k);
    }
  }

  lemma WriteKeeps(x: Store, q: nat, j: nat, at: nat, bytes: seq<char>, y: Store, p: nat, i: nat)
    requires Inv(x.st) && Written(x, q, j, at, bytes, y) && (q != p || j != i) && IsPoolAlloc(x.st, p, i)
    ensures IsPoolAlloc(y.st, p, i) && y.st.pools[p].log[i] == x.st.pools[p].log[i]
    ensures Content(y, p, i) == Content(x, p, i)
  {
    AllocInside(x.st, p, i);
    AllocInside(x.st, q, j);
    AllocsApart(x.st, p, i, q, j);
    hide Inv, Written;
    var a := x.st.pools[p].log[i];
    WrittenElsewhere(x, q, j, at, bytes, y, 0, 0);
    forall k: nat | k < a.req ensures Content(y, p, i)[k] == Content(x, p, i)[k] {
      WrittenElsewhere(x, q, j, at, bytes, y, a.blk, a.off + k);
    }
  }

  /** Outside the allocation that is written to, a byte stays. */
  lemma WrittenElsewhere(x: Store, p: nat, i: nat, at: nat, bytes: seq<char>, y: Store, b: nat, o: nat)
    requires Written(x, p, i, at, bytes, y)
    ensures y.st == x.st && IsPoolAlloc(x.st, p, i)
    ensures var a := x.st.pools[p].log[i];
            b != a.blk || o < a.off || a.off + a.req <= o ==> y.mem(b, o) == x.mem(b, o)
  {
  }

  /** What has been written can be read back. */
  lemma WrittenThere(x: Store, p: nat, i: nat, bytes: seq<char>, y: Store)
    requires Written(x, p, i, 0, bytes, y) && |bytes| == x.st.pools[p].log[i].req
    ensures IsPoolAlloc(y.st, p, i) && y.st.pools[p].log[i] == x.st.pools[p].log[i] && Content(y, p, i) == bytes
  {
    WrittenElsewhere(x, p, i, 0, bytes, y, 0, 0);
    var c := Content(y, p, i);
    forall k: nat | k < |bytes| ensures c[k] == bytes[k] {
      WrittenByte(x, p, i, bytes, y, k);
    }
    hide Written;
    assert |c| == |bytes|;
  }

  lemma WrittenByte(x: Store, p: nat, i: nat, bytes: seq<char>, y: Store, k: nat)
    requires Written(x, p, i, 0, bytes, y) && k < |bytes|
    ensures y.mem(x.st.pools[p].log[i].blk, x.st.pools[p].log[i].off + k) == bytes[k]
  {
  }

  // ---- Runs ----

  /** Over any run that spares it, a live allocation keeps its address and its bytes. */
  lemma {:induction false} Survives(x: Store, steps: seq<Step>, y: Store, p: nat, i: nat)
    requires Inv(x.st) && SparingRun(x, steps, y, p, i) && IsPoolAlloc(x.st, p, i)
    ensures IsPoolAlloc(y.st, p, i) && y.st.pools[p].log[i] == x.st.pools[p].log[i]
    ensures Content(y, p, i) == Content(x, p, i)
    decreases |steps|
  {
    if steps != [] {
      var z :| SparingStep(x, steps[0], z, p, i) && SparingRun(z, steps[1..], y, p, i);
      match steps[0] {
        case Call(op) => CallKeeps(x, op, z, p, i);
        case Write(q, j, at, bytes) => WriteKeeps(x, q, j, at, bytes, z, p, i);
      }
      Survives(z, steps[1..], y, p, i);
    }
  }

  /** Asking for room, filling it, and then anything that spares it: the bytes are there. */
  lemma CopySurvives(x: Store, p: nat, bytes: seq<char>, z: Store, filled: Store, steps: seq<Step>, y: Store)
    requires Inv(x.st) && bytes != [] && Called(x, PallocOp(p, |bytes|), z)
    requires Written(z, p, |x.st.pools[p].log|, 0, bytes, filled)
    requires Inv(filled.st) && SparingRun(filled, steps, y, p, |x.st.pools[p].log|)
    ensures var i := |x.st.pools[p].log|;
            && IsPoolAlloc(y.st, p, i) && y.st.pools[p].log[i].req == |bytes|
            && y.st.pools[p].log[i] == Returned(Palloc(x.st, p, |bytes|), p)
            && Content(y, p, i) == bytes
  {
    var i := |x.st.pools[p].log|;
    LastAsked(x.st, p, |bytes|);
    WrittenThere(z, p, i, bytes, filled);
    Survives(filled, steps, y, p, i);
  }

  /** palloc's answer is the last entry of the pool's log. */
  lemma LastAsked(s: State, p: nat, n: nat)
    requires Inv(s) && p in s.pools && n > 0
    ensures p in Palloc(s, p, n).pools
    ensures var log := Palloc(s, p, n).pools[p].log;
            && |log| == |s.pools[p].log| + 1 && log[..|s.pools[p].log|] == s.pools[p].log
            && log[|s.pools[p].log|].req == n && log[|s.pools[p].log|] == Returned(Palloc(s, p, n), p)
  {
  }
}
