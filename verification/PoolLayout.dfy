/** Where live allocations lie: aligned, inside their block, apart from each other and
    from every pool header; and how many bytes the filled blocks waste. */
module PoolLayout {
  import opened Sequences
  import opened PoolModel
  import opened PoolInv

  /** The allocation takes the bytes from off up to End. */
  function End(a: Alloc): int {
    a.off + RoundUp(a.req)
  }

  predicate Apart(a: Alloc, b: Alloc) {
    a.blk != b.blk || End(a) <= b.off || End(b) <= a.off
  }

  predicate IsPoolAlloc(s: State, p: nat, i: nat) {
    p in s.pools && i < |s.pools[p].log|
  }

  // ---- Within one pool ----

  /** The allocation lies in the j-th block, behind the header if that is the first,
      and before the cursor (k, off). */
  ghost predicate LiesIn(blocks: seq<Block>, chain: seq<nat>, a: Alloc, j: nat, k: nat, off: nat)
    requires InRange(chain, |blocks|)
  {
    && j <= k < |chain| && a.blk == chain[j] && a.req > 0
    && a.off % CLICK_SZ == 0 && (j == 0 ==> POOL_HDR <= a.off)
    && End(a) <= (if j == k then off else blocks[chain[j]].avail)
    && End(a) <= blocks[chain[j]].cap
  }

  ghost predicate Lies(blocks: seq<Block>, chain: seq<nat>, a: Alloc, k: nat, off: nat)
    requires InRange(chain, |blocks|)
  {
    exists j :: LiesIn(blocks, chain, a, j, k, off)
  }

  /** The cursor is on a click boundary. */
  lemma {:induction false} CursorAligned(blocks: seq<Block>, chain: seq<nat>, log: seq<Alloc>, k: nat, off: nat)
    requires InRange(chain, |blocks|) && Serves(blocks, chain, log, k, off)
    ensures off % CLICK_SZ == 0 && (k == 0 ==> POOL_HDR <= off)
    decreases |log|
  {
    WholeClicks(POOL_HDR_CLICKS);
    if log != [] {
      var a, before := log[|log| - 1], log[..|log| - 1];
      RoundUpIsLeast(a.req);
      if Serves(blocks, chain, before, k, a.off) {
        CursorAligned(blocks, chain, before, k, a.off);
        AlignedSum(a.off, RoundUp(a.req));
      }
    }
  }

  lemma {:induction false} AllLie(blocks: seq<Block>, chain: seq<nat>, log: seq<Alloc>, k: nat, off: nat)
    requires InRange(chain, |blocks|) && Serves(blocks, chain, log, k, off)
    ensures forall i :: 0 <= i < |log| ==> Lies(blocks, chain, log[i], k, off)
    decreases |log|
  {
    if log != [] {
      var n := |log| - 1;
      var a, before := log[n], log[..n];
      RoundUpIsLeast(a.req);
      LastLies(blocks, chain, log, k, off);
      var k0, off0 := k, a.off;
      if !Serves(blocks, chain, before, k, a.off) {
        k0, off0 := k - 1, blocks[chain[k - 1]].avail;
      }
      AllLie(blocks, chain, before, k0, off0);
      forall i | 0 <= i < n ensures Lies(blocks, chain, log[i], k, off) {
        assert before[i] == log[i];
        var j :| LiesIn(blocks, chain, log[i], j, k0, off0);
        assert LiesIn(blocks, chain, log[i], j, k, off);
      }
    }
  }

  lemma LastLies(blocks: seq<Block>, chain: seq<nat>, log: seq<Alloc>, k: nat, off: nat)
    requires InRange(chain, |blocks|) && Serves(blocks, chain, log, k, off) && log != []
    ensures LiesIn(blocks, chain, log[|log| - 1], k, k, off)
  {
    var a, before := log[|log| - 1], log[..|log| - 1];
    if Serves(blocks, chain, before, k, a.off) {
      CursorAligned(blocks, chain, before, k, a.off);
    }
  }

  /** Two allocations of one pool do not overlap. */
  lemma {:induction false} ApartInPool(blocks: seq<Block>, chain: seq<nat>, log: seq<Alloc>, k: nat, off: nat, i: nat,
                                       j: nat)
    requires InRange(chain, |blocks|) && Serves(blocks, chain, log, k, off) && NoDup(chain)
    requires i < j < |log|
    ensures Apart(log[i], log[j])
    decreases |log|
  {
    var n := |log| - 1;
    var a, before := log[n], log[..n];
    assert before[i] == log[i];
    var k0, off0 := k, a.off;
    if !Serves(blocks, chain, before, k, a.off) {
      k0, off0 := k - 1, blocks[chain[k - 1]].avail;
    }
    if j < n {
      ApartInPool(blocks, chain, before, k0, off0, i, j);
    } else {
      AllLie(blocks, chain, before, k0, off0);
      assert Lies(blocks, chain, before[i], k0, off0);
    }
  }

  // ---- Across all pools ----

  /** A block's header takes whole clicks. */
  lemma BehindHeader(off: nat)
    requires off % CLICK_SZ == 0
    ensures (BLOCK_HDR + off) % CLICK_SZ == 0
  {
    WholeClicks(BLOCK_HDR_CLICKS);
    AlignedSum(BLOCK_HDR, off);
  }

  /** In every state that keeps the invariant, so in every reachable one, every live
      allocation starts on a click boundary, also as a machine address when malloc's are
      aligned, ends inside its block, and starts behind the header when it shares a block
      with one. */
  lemma AllocInside(s: State, p: nat, i: nat)
    requires Inv(s) && IsPoolAlloc(s, p, i)
    ensures var a := s.pools[p].log[i];
            && a.req > 0 && a.blk < |s.blocks| && a.blk in s.pools[p].chain
            && a.off % CLICK_SZ == 0 && (BLOCK_HDR + a.off) % CLICK_SZ == 0
            && a.req <= RoundUp(a.req) && End(a) <= s.blocks[a.blk].avail <= s.blocks[a.blk].cap
            && (a.blk in s.pools ==> POOL_HDR <= a.off)
  {
    assert p in s.pools && i < |s.pools[p].log|;
    hide *;
    PoolFilled(s, p);
    var c, a := s.pools[p].chain, s.pools[p].log[i];
    var k := |c| - 1;
    var off := s.blocks[c[k]].avail;
    AllLie(s.blocks, c, s.pools[p].log, k, off);
    AvailWithinCap(s.blocks, c, s.pools[p].log, k, off);
    LiesSomewhere(s.blocks, c, a, k);
    RoundUpIsLeast(a.req);
    BehindHeader(a.off);
    if a.blk in s.pools {
      HeaderOwner(s, p, a.blk);
    }
  }

  lemma LiesSomewhere(blocks: seq<Block>, chain: seq<nat>, a: Alloc, k: nat)
    requires InRange(chain, |blocks|) && NoDup(chain) && k < |chain|
    requires Lies(blocks, chain, a, k, blocks[chain[k]].avail)
    requires forall j :: 0 <= j <= k ==> blocks[chain[j]].avail <= blocks[chain[j]].cap
    ensures a.req > 0 && a.off % CLICK_SZ == 0 && a.blk in chain && a.blk < |blocks|
    ensures End(a) <= blocks[a.blk].avail <= blocks[a.blk].cap && (a.blk == chain[0] ==> POOL_HDR <= a.off)
  {
    var j :| LiesIn(blocks, chain, a, j, k, blocks[chain[k]].avail);
  }

  lemma PoolFilled(s: State, p: nat)
    requires Inv(s) && p in s.pools
    ensures var c := s.pools[p].chain;
            && c != [] && c[0] == p && InRange(c, |s.blocks|) && NoDup(c) && POOL_HDR <= s.blocks[p].cap
            && Serves(s.blocks, c, s.pools[p].log, |c| - 1, s.blocks[c[|c| - 1]].avail)
  {
    assert FilledPool(s.blocks, p, s.pools[p]) && NoDup(ListOf(s, Some(p)));
  }

  /** Only the pool itself has the block its header is in. */
  lemma HeaderOwner(s: State, p: nat, q: nat)
    requires Inv(s) && p in s.pools && q in s.pools && q in s.pools[p].chain
    ensures q == p
  {
    assert FilledPool(s.blocks, q, s.pools[q]);
    assert On(s, q, Some(p)) && On(s, q, Some(q));
  }

  lemma {:induction false} AvailWithinCap(blocks: seq<Block>, chain: seq<nat>, log: seq<Alloc>, k: nat, off: nat)
    requires InRange(chain, |blocks|) && Serves(blocks, chain, log, k, off)
    requires POOL_HDR <= blocks[chain[0]].cap
    ensures off <= blocks[chain[k]].cap
    ensures forall j :: 0 <= j < k ==> blocks[chain[j]].avail <= blocks[chain[j]].cap
    decreases |log|
  {
    if log != [] {
      var a, before := log[|log| - 1], log[..|log| - 1];
      if Serves(blocks, chain, before, k, a.off) {
        AvailWithinCap(blocks, chain, before, k, a.off);
      } else {
        AvailWithinCap(blocks, chain, before, k - 1, blocks[chain[k - 1]].avail);
      }
    }
  }

  /** In such a state no two live allocations overlap, whichever pools they are from. */
  lemma AllocsApart(s: State, p: nat, i: nat, q: nat, j: nat)
    requires Inv(s) && IsPoolAlloc(s, p, i) && IsPoolAlloc(s, q, j) && (p != q || i != j)
    ensures Apart(s.pools[p].log[i], s.pools[q].log[j])
  {
    AllocInside(s, p, i);
    AllocInside(s, q, j);
    if p == q {
      var pool := s.pools[p];
      assert FilledPool(s.blocks, p, pool) && NoDup(ListOf(s, Some(p)));
      var k := |pool.chain| - 1;
      ApartInPool(s.blocks, pool.chain, pool.log, k, s.blocks[pool.chain[k]].avail,
                  if i < j then i else j, if i < j then j else i);
    } else {
      var b := s.pools[p].log[i].blk;
      assert On(s, b, Some(p)) && On(s, s.pools[q].log[j].blk, Some(q));
    }
  }

  // ---- Waste ----

  /** The unused bytes at the ends of the first k blocks. */
  function Waste(blocks: seq<Block>, chain: seq<nat>, k: nat): int
    requires InRange(chain, |blocks|) && k <= |chain|
  {
    if k == 0 then 0 else Waste(blocks, chain, k - 1) + blocks[chain[k - 1]].cap - blocks[chain[k - 1]].avail
  }

  function Served(log: seq<Alloc>): int {
    if log == [] then 0 else Served(log[..|log| - 1]) + RoundUp(log[|log| - 1].req)
  }

  lemma {:induction false} WasteBound(blocks: seq<Block>, chain: seq<nat>, log: seq<Alloc>, k: nat, off: nat)
    requires InRange(chain, |blocks|) && Serves(blocks, chain, log, k, off)
    ensures 0 <= Served(log) && (k == 0 || Waste(blocks, chain, k) < Served(log))
    decreases |log|
  {
    if log != [] {
      var a, before := log[|log| - 1], log[..|log| - 1];
      RoundUpIsLeast(a.req);
      if Serves(blocks, chain, before, k, a.off) {
        WasteBound(blocks, chain, before, k, a.off);
      } else {
        WasteBound(blocks, chain, before, k - 1, blocks[chain[k - 1]].avail);
      }
    }
  }

  /** In every pool of two or more blocks, in every state that keeps the invariant, the
      bytes left unused in all blocks but the last sum to less than what the pool has
      handed out. */
  lemma PoolWaste(s: State, p: nat)
    requires Inv(s) && p in s.pools && |s.pools[p].chain| >= 2
    ensures InRange(s.pools[p].chain, |s.blocks|)
    ensures Waste(s.blocks, s.pools[p].chain, |s.pools[p].chain| - 1) < Served(s.pools[p].log)
  {
    var pool := s.pools[p];
    assert FilledPool(s.blocks, p, pool);
    var k := |pool.chain| - 1;
    WasteBound(s.blocks, pool.chain, pool.log, k, s.blocks[pool.chain[k]].avail);
  }
}
