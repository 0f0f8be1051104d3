/** Clearing a pool and asking again: the same requests get the same addresses, from the
    blocks the pool had, and malloc is not called. */
module PoolReplay {
  import opened PoolModel
  import opened PoolTree
  import opened PoolInv
  import opened PoolSteps
  import opened PoolRuns

  function Requests(log: seq<Alloc>): (r: seq<nat>)
    ensures |r| == |log|
    ensures forall i :: 0 <= i < |log| ==> r[i] == log[i].req
  {
    seq(|log|, i requires 0 <= i < |log| => log[i].req)
  }

  ghost predicate AllPositive(reqs: seq<nat>) {
    forall i :: 0 <= i < |reqs| ==> reqs[i] > 0
  }

  /** palloc for each request in order, nothing in between. */
  ghost function PallocAll(s: State, p: nat, reqs: seq<nat>): (r: State)
    requires Inv(s) && p in s.pools && AllPositive(reqs)
    ensures Inv(r) && p in r.pools
    decreases |reqs|
  {
    if reqs == [] then s
    else
      var t := PallocAll(s, p, reqs[..|reqs| - 1]);
      PallocInv(t, p, reqs[|reqs| - 1]);
      PallocSane(t, p, reqs[|reqs| - 1]);
      Palloc(t, p, reqs[|reqs| - 1])
  }

  /** t is on the way to the filling that `blocks` and `chain` record: it has served the
      log up to offset off of the k-th block, and the blocks still to come head its free list. */
  ghost predicate OnTheWay(blocks: seq<Block>, chain: seq<nat>, rest: seq<nat>, t: State, p: nat, log: seq<Alloc>,
                           k: nat, off: nat)
  {
    && Inv(t) && p in t.pools && |t.blocks| == |blocks| && InRange(chain, |blocks|)
    && (forall i :: 0 <= i < |blocks| ==> t.blocks[i].cap == blocks[i].cap)
    && k < |chain|
    && t.pools[p].log == log && t.pools[p].chain == chain[..k + 1] && t.free == chain[k + 1..] + rest
    && t.blocks[chain[k]].avail == off
  }

  /** The next request fits behind the last one. */
  lemma ReplayHere(blocks: seq<Block>, chain: seq<nat>, rest: seq<nat>, t: State, p: nat, log: seq<Alloc>, k: nat,
                   a: Alloc)
    requires OnTheWay(blocks, chain, rest, t, p, log, k, a.off)
    requires a.req > 0 && a.blk == chain[k] && a.off + RoundUp(a.req) <= blocks[chain[k]].cap
    ensures OnTheWay(blocks, chain, rest, Palloc(t, p, a.req), p, log + [a], k, a.off + RoundUp(a.req))
  {
    PallocInv(t, p, a.req);
    RoundUpIsLeast(a.req);
    assert FitsLast(t, p, RoundUp(a.req));
  }

  /** The next request does not fit, and the block it went to heads the free list. */
  lemma ReplayNext(blocks: seq<Block>, chain: seq<nat>, rest: seq<nat>, t: State, p: nat, log: seq<Alloc>, k: nat,
                   off: nat, a: Alloc)
    requires OnTheWay(blocks, chain, rest, t, p, log, k, off) && k + 1 < |chain|
    requires a.req > 0 && a.blk == chain[k + 1] && a.off == 0
    requires blocks[chain[k]].cap < off + RoundUp(a.req)
    requires RoundUp(a.req) + BLOCK_MINFREE <= blocks[chain[k + 1]].cap
    ensures OnTheWay(blocks, chain, rest, Palloc(t, p, a.req), p, log + [a], k + 1, RoundUp(a.req))
  {
    PallocInv(t, p, a.req);
    RoundUpIsLeast(a.req);
    assert !FitsLast(t, p, RoundUp(a.req));
    HeadOfFree(chain, rest, k);
    assert Empty(t.blocks, t.free[0]) by { assert t.free[0] in t.free; }
    assert FirstFit(t.blocks, t.free, RoundUp(a.req) + BLOCK_MINFREE) == 0;
    assert t.free[..0] + t.free[1..] == t.free[1..];
    assert ChosenBlock(t, RoundUp(a.req)) == chain[k + 1];
    assert chain[..k + 1] + [chain[k + 1]] == chain[..k + 2];
  }

  lemma HeadOfFree(chain: seq<nat>, rest: seq<nat>, k: nat)
    requires k + 1 < |chain|
    ensures (chain[k + 1..] + rest)[0] == chain[k + 1]
    ensures (chain[k + 1..] + rest)[1..] == chain[k + 2..] + rest
  {
    assert chain[k + 1..] == [chain[k + 1]] + chain[k + 2..];
  }

  lemma RequestsBefore(log: seq<Alloc>)
    requires log != []
    ensures Requests(log)[..|log| - 1] == Requests(log[..|log| - 1]) && Requests(log)[|log| - 1] == log[|log| - 1].req
    ensures AllPositive(Requests(log)) ==> AllPositive(Requests(log[..|log| - 1]))
  {
  }

  lemma LastRequest(t0: State, p: nat, log: seq<Alloc>)
    requires Inv(t0) && p in t0.pools && log != [] && AllPositive(Requests(log))
    ensures AllPositive(Requests(log[..|log| - 1])) && log[|log| - 1].req > 0
    ensures var t := PallocAll(t0, p, Requests(log[..|log| - 1]));
            PallocAll(t0, p, Requests(log)) == Palloc(t, p, log[|log| - 1].req)
  {
    hide Inv, Palloc, Requests;
    RequestsBefore(log);
  }

  /** The last request was served behind the one before, or from the start of the next block. */
  lemma LastServed(blocks: seq<Block>, chain: seq<nat>, log: seq<Alloc>, k: nat, off: nat) returns (here: bool)
    requires InRange(chain, |blocks|) && Serves(blocks, chain, log, k, off) && log != []
    ensures var a, before := log[|log| - 1], log[..|log| - 1];
            && log == before + [a] && k < |chain| && a.req > 0 && a.blk == chain[k] && a.off + RoundUp(a.req) == off
            && (here ==> off <= blocks[chain[k]].cap && Serves(blocks, chain, before, k, a.off))
            && (!here ==> && a.off == 0 && k > 0
                          && RoundUp(a.req) + BLOCK_MINFREE <= blocks[chain[k]].cap
                          && blocks[chain[k - 1]].cap < blocks[chain[k - 1]].avail + RoundUp(a.req)
                          && Serves(blocks, chain, before, k - 1, blocks[chain[k - 1]].avail))
  {
    here := Serves(blocks, chain, log[..|log| - 1], k, log[|log| - 1].off);
  }

  lemma StartFacts(blocks: seq<Block>, chain: seq<nat>, rest: seq<nat>, t0: State, p: nat)
    requires OnTheWay(blocks, chain, rest, t0, p, [], 0, POOL_HDR)
    ensures Inv(t0) && p in t0.pools && InRange(chain, |blocks|)
  {
  }

  lemma ServedNone(blocks: seq<Block>, chain: seq<nat>, k: nat, off: nat)
    requires InRange(chain, |blocks|) && Serves(blocks, chain, [], k, off)
    ensures k == 0 && off == POOL_HDR
  {
  }

  lemma AskNone(t0: State, p: nat)
    requires Inv(t0) && p in t0.pools
    ensures AllPositive([]) && PallocAll(t0, p, []) == t0
  {
  }

  lemma {:induction false} Replays(blocks: seq<Block>, chain: seq<nat>, rest: seq<nat>, t0: State, p: nat,
                                   log: seq<Alloc>, k: nat, off: nat)
    requires OnTheWay(blocks, chain, rest, t0, p, [], 0, POOL_HDR)
    requires AllPositive(Requests(log)) && Serves(blocks, chain, log, k, off)
    ensures OnTheWay(blocks, chain, rest, PallocAll(t0, p, Requests(log)), p, log, k, off)
    decreases |log|
  {
    hide *;
    StartFacts(blocks, chain, rest, t0, p);
    if log == [] {
      ServedNone(blocks, chain, k, off);
      assert Requests(log) == [];
      AskNone(t0, p);
    } else {
      var a, before := log[|log| - 1], log[..|log| - 1];
      var here := LastServed(blocks, chain, log, k, off);
      LastRequest(t0, p, log);
      var t := PallocAll(t0, p, Requests(before));
      if here {
        Replays(blocks, chain, rest, t0, p, before, k, a.off);
        ReplayHere(blocks, chain, rest, t, p, before, k, a);
      } else {
        var off0 := blocks[chain[k - 1]].avail;
        Replays(blocks, chain, rest, t0, p, before, k - 1, off0);
        ReplayNext(blocks, chain, rest, t, p, before, k - 1, off0, a);
      }
    }
  }

  lemma {:induction false} LogPositive(blocks: seq<Block>, chain: seq<nat>, log: seq<Alloc>, k: nat, off: nat)
    requires InRange(chain, |blocks|) && Serves(blocks, chain, log, k, off)
    ensures AllPositive(Requests(log))
    decreases |log|
  {
    if log != [] {
      var a, before := log[|log| - 1], log[..|log| - 1];
      if Serves(blocks, chain, before, k, a.off) {
        LogPositive(blocks, chain, before, k, a.off);
      } else {
        LogPositive(blocks, chain, before, k - 1, blocks[chain[k - 1]].avail);
      }
      assert forall i :: 0 <= i < |before| ==> Requests(log)[i] == Requests(before)[i];
    }
  }

  /** What the subtrees below p free, and then the blocks that were free before. */
  function Rest(s: State, p: nat): seq<nat>
    requires p in s.pools
  {
    FreedKids(s.pools, s.clock, s.pools[p].kids, s.pools[p].stamp) + s.free
  }

  /** A state with only the first block in the pool and its other blocks at the head of
      the free list is at the start of the old filling. */
  lemma StartIsOnTheWay(s: State, p: nat, t: State)
    requires p in s.pools && FilledPool(s.blocks, p, s.pools[p])
    requires Inv(t) && p in t.pools && t.pools[p].log == [] && t.pools[p].chain == [p]
    requires t.free == s.pools[p].chain[1..] + Rest(s, p)
    requires |t.blocks| == |s.blocks| && t.blocks[p].avail == POOL_HDR
    requires forall i :: 0 <= i < |s.blocks| ==> t.blocks[i].cap == s.blocks[i].cap
    ensures OnTheWay(s.blocks, s.pools[p].chain, Rest(s, p), t, p, [], 0, POOL_HDR)
  {
  }

  /** Clearing, seen from the pool. */
  lemma ClearShape(s: State, p: nat)
    requires Inv(s) && p in s.pools
    ensures var t := Clear(s, p);
            && p in t.pools && t.pools[p].log == [] && t.pools[p].chain == [p]
            && t.free == s.pools[p].chain[1..] + Rest(s, p)
            && |t.blocks| == |s.blocks| && t.blocks[p].avail == POOL_HDR
            && (forall i :: 0 <= i < |s.blocks| ==> t.blocks[i].cap == s.blocks[i].cap)
  {
    assert ChainOk(s, p) && FilledPool(s.blocks, p, s.pools[p]);
    Assoc(s.pools[p].chain[1..], FreedKids(s.pools, s.clock, s.pools[p].kids, s.pools[p].stamp), s.free);
  }

  lemma Assoc(a: seq<nat>, b: seq<nat>, c: seq<nat>)
    ensures (a + b) + c == a + (b + c)
  {
  }

  lemma ClearedIsOnTheWay(s: State, p: nat)
    requires Inv(s) && p in s.pools
    ensures OnTheWay(s.blocks, s.pools[p].chain, Rest(s, p), Clear(s, p), p, [], 0, POOL_HDR)
  {
    ClearInv(s, p);
    ClearShape(s, p);
    assert FilledPool(s.blocks, p, s.pools[p]);
    StartIsOnTheWay(s, p, Clear(s, p));
  }

  /** From the start of its old filling the pool gets there again. */
  lemma ReplayFrom(s: State, p: nat, t: State)
    requires Inv(s) && p in s.pools
    requires OnTheWay(s.blocks, s.pools[p].chain, Rest(s, p), t, p, [], 0, POOL_HDR)
    ensures AllPositive(Requests(s.pools[p].log))
    ensures var r := PallocAll(t, p, Requests(s.pools[p].log));
            && r.pools[p].log == s.pools[p].log
            && r.pools[p].chain == s.pools[p].chain
            && |r.blocks| == |s.blocks|
  {
    var pool := s.pools[p];
    assert FilledPool(s.blocks, p, pool);
    var k := |pool.chain| - 1;
    var off := s.blocks[pool.chain[k]].avail;
    LogPositive(s.blocks, pool.chain, pool.log, k, off);
    Replays(s.blocks, pool.chain, Rest(s, p), t, p, pool.log, k, off);
    assert pool.chain[..k + 1] == pool.chain;
  }

  /** In every state that keeps the invariant, so in every reachable one, whatever else
      has run in between: clear a pool and repeat the requests it had served, and they
      return the same addresses in the same order, the pool has its old blocks again, and
      malloc has not been called. */
  lemma ReplayAfterClear(s: State, p: nat)
    requires Inv(s) && p in s.pools
    ensures Inv(Clear(s, p)) && p in Clear(s, p).pools
    ensures AllPositive(Requests(s.pools[p].log))
    ensures var r := PallocAll(Clear(s, p), p, Requests(s.pools[p].log));
            && r.pools[p].log == s.pools[p].log
            && r.pools[p].chain == s.pools[p].chain
            && |r.blocks| == |s.blocks|
  {
    ClearInv(s, p);
    ClearedIsOnTheWay(s, p);
    ReplayFrom(s, p, Clear(s, p));
  }

  /** Destroying, seen from the block the pool lived in. */
  lemma DestroyShape(s: State, p: nat)
    requires Inv(s) && p in s.pools
    ensures var d := Destroy(s, p);
            && d.free == [p] + (s.pools[p].chain[1..] + Rest(s, p))
            && |d.blocks| == |s.blocks| && p < |s.blocks| && d.blocks[p].avail == 0
            && POOL_HDR + BLOCK_MINFREE <= d.blocks[p].cap
            && (forall i :: 0 <= i < |s.blocks| ==> d.blocks[i].cap == s.blocks[i].cap)
  {
    assert ChainOk(s, p) && FilledPool(s.blocks, p, s.pools[p]);
    FreedSplit(s, p);
    Assoc([p], Tail(s, p), s.free);
    Assoc(s.pools[p].chain[1..], FreedKids(s.pools, s.clock, s.pools[p].kids, s.pools[p].stamp), s.free);
  }

  /** A free list headed by a block with room gives that block to the new pool. */
  lemma MakeFromHead(d: State, p: nat, tail: seq<nat>, parent: Option<nat>)
    requires Inv(d) && d.free == [p] + tail && p < |d.blocks| && d.blocks[p].avail == 0
    requires POOL_HDR + BLOCK_MINFREE <= d.blocks[p].cap
    requires parent.Some? ==> parent.value in d.pools
    ensures ChosenBlock(d, POOL_HDR) == p
    ensures var t := MakeSub(d, parent);
            && p in t.pools && t.pools[p].log == [] && t.pools[p].chain == [p] && t.free == tail
            && |t.blocks| == |d.blocks| && t.blocks[p].avail == POOL_HDR
            && (forall i :: 0 <= i < |d.blocks| ==> t.blocks[i].cap == d.blocks[i].cap)
  {
    assert FirstFit(d.blocks, d.free, POOL_HDR + BLOCK_MINFREE) == 0;
    assert d.free[..0] + d.free[1..] == tail;
  }

  /** make_sub_pool right after destroy_pool takes the block the destroyed pool lived in. */
  lemma RemadeIsOnTheWay(s: State, p: nat, parent: Option<nat>)
    requires Inv(s) && p in s.pools && (parent.Some? ==> parent.value in Destroy(s, p).pools)
    ensures Inv(Destroy(s, p)) && ChosenBlock(Destroy(s, p), POOL_HDR) == p
    ensures OnTheWay(s.blocks, s.pools[p].chain, Rest(s, p), MakeSub(Destroy(s, p), parent), p, [], 0, POOL_HDR)
  {
    DestroyInv(s, p);
    MakeSubInv(Destroy(s, p), parent);
    DestroyShape(s, p);
    MakeFromHead(Destroy(s, p), p, s.pools[p].chain[1..] + Rest(s, p), parent);
    assert FilledPool(s.blocks, p, s.pools[p]);
    StartIsOnTheWay(s, p, MakeSub(Destroy(s, p), parent));
  }

  /** The same for destroying the pool and making one anew, under any live parent or
      none: the new pool has the old address, and the requests replay. */
  lemma ReplayAfterDestroy(s: State, p: nat, parent: Option<nat>)
    requires Inv(s) && p in s.pools && (parent.Some? ==> parent.value in Destroy(s, p).pools)
    ensures Inv(Destroy(s, p)) && Inv(MakeSub(Destroy(s, p), parent))
    ensures ChosenBlock(Destroy(s, p), POOL_HDR) == p && p in MakeSub(Destroy(s, p), parent).pools
    ensures AllPositive(Requests(s.pools[p].log))
    ensures var r := PallocAll(MakeSub(Destroy(s, p), parent), p, Requests(s.pools[p].log));
            && r.pools[p].log == s.pools[p].log
            && r.pools[p].chain == s.pools[p].chain
            && |r.blocks| == |s.blocks|
  {
    RemadeIsOnTheWay(s, p, parent);
    ReplayFrom(s, p, MakeSub(Destroy(s, p), parent));
  }
}
