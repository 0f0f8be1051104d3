/** What every run of pool operations keeps: every block is on exactly one list, the
    pools form a forest, and every pool's blocks are filled exactly as its own requests
    have filled them. */
module PoolInv {
  import opened Sequences
  import opened PoolModel
  import opened PoolTree

  // ---- One list for every block ----

  /** The free list (None) or the chain of a live pool. */
  function ListOf(s: State, x: Option<nat>): seq<nat> {
    match x
    case None => s.free
    case Some(p) => if p in s.pools then s.pools[p].chain else []
  }

  ghost predicate On(s: State, b: nat, x: Option<nat>) {
    b in ListOf(s, x)
  }

  ghost predicate Placed(s: State, b: nat) {
    exists x :: On(s, b, x)
  }

  /** Every block obtained from malloc is on exactly one list, once. */
  ghost predicate Owned(s: State) {
    && (forall b: nat :: b < |s.blocks| ==> Placed(s, b))
    && (forall b, x, y :: On(s, b, x) && On(s, b, y) ==> x == y)
    && (forall x :: NoDup(ListOf(s, x)))
  }

  // ---- How a pool's blocks are filled ----

  /** Serving the requests of the log in order, from the pool's first block with only
      the header in it, leads to offset off of the k-th block: each request is placed
      after the one before, or at the start of the next block when it does not fit. */
  ghost predicate Serves(blocks: seq<Block>, chain: seq<nat>, log: seq<Alloc>, k: nat, off: nat)
    requires InRange(chain, |blocks|)
    decreases |log|
  {
    k < |chain| &&
    if log == [] then k == 0 && off == POOL_HDR
    else
      var a, before := log[|log| - 1], log[..|log| - 1];
      && a.req > 0 && a.blk == chain[k] && a.off + RoundUp(a.req) == off && off <= blocks[chain[k]].cap
      && (|| Serves(blocks, chain, before, k, a.off)
          || (&& a.off == 0 && k > 0
              && off + BLOCK_MINFREE <= blocks[chain[k]].cap
              && blocks[chain[k - 1]].cap < blocks[chain[k - 1]].avail + off
              && Serves(blocks, chain, before, k - 1, blocks[chain[k - 1]].avail)))
  }

  ghost predicate FilledPool(blocks: seq<Block>, p: nat, pool: Pool) {
    && pool.chain != [] && InRange(pool.chain, |blocks|)
    && pool.chain[0] == p
    && POOL_HDR + BLOCK_MINFREE <= blocks[p].cap
    && Serves(blocks, pool.chain, pool.log, |pool.chain| - 1, blocks[pool.chain[|pool.chain| - 1]].avail)
  }

  ghost predicate Empty(blocks: seq<Block>, b: nat) {
    b < |blocks| && blocks[b].avail == 0
  }

  ghost predicate Filled(s: State) {
    && (forall p {:trigger FilledPool(s.blocks, p, s.pools[p])} :: p in s.pools ==> FilledPool(s.blocks, p, s.pools[p]))
    && (forall b :: b in s.free ==> Empty(s.blocks, b))
  }

  ghost predicate Inv(s: State) {
    Sane(s) && TreeOk(s.pools, s.clock) && Owned(s) && Filled(s)
  }

  lemma InvParts(s: State)
    requires Inv(s)
    ensures Sane(s) && TreeOk(s.pools, s.clock) && Owned(s) && Filled(s)
  {
  }

  lemma FilledOf(s: State, p: nat)
    requires Filled(s) && p in s.pools
    ensures FilledPool(s.blocks, p, s.pools[p])
  {
  }

  lemma AllFilled(s: State)
    requires forall p {:trigger FilledPool(s.blocks, p, s.pools[p])} :: p in s.pools ==>
               FilledPool(s.blocks, p, s.pools[p])
    requires forall b :: b in s.free ==> Empty(s.blocks, b)
    ensures Filled(s)
  {
  }

  /** Filling looks only at the capacities up to the k-th block and at how full the
      blocks before it are. */
  lemma {:induction false} ServesFrame(blocks: seq<Block>, blocks': seq<Block>, chain: seq<nat>, chain': seq<nat>,
                                       log: seq<Alloc>, k: nat, off: nat)
    requires InRange(chain, |blocks|) && InRange(chain', |blocks'|)
    requires Serves(blocks, chain, log, k, off)
    requires k < |chain'| && forall i :: 0 <= i <= k ==> chain'[i] == chain[i]
    requires forall i :: 0 <= i <= k ==> blocks'[chain[i]].cap == blocks[chain[i]].cap
    requires forall i :: 0 <= i < k ==> blocks'[chain[i]].avail == blocks[chain[i]].avail
    ensures Serves(blocks', chain', log, k, off)
    decreases |log|
  {
    if log != [] {
      var a, before := log[|log| - 1], log[..|log| - 1];
      if Serves(blocks, chain, before, k, a.off) {
        ServesFrame(blocks, blocks', chain, chain', before, k, a.off);
      } else {
        ServesFrame(blocks, blocks', chain, chain', before, k - 1, blocks[chain[k - 1]].avail);
      }
    }
  }

  /** A pool whose blocks are untouched is as filled as before. */
  lemma FilledFrame(blocks: seq<Block>, blocks': seq<Block>, p: nat, pool: Pool, pool': Pool)
    requires FilledPool(blocks, p, pool) && |blocks'| >= |blocks|
    requires pool'.chain == pool.chain && pool'.log == pool.log
    requires forall i :: 0 <= i < |pool.chain| ==> blocks'[pool.chain[i]] == blocks[pool.chain[i]]
    ensures FilledPool(blocks', p, pool')
  {
    var c := pool.chain;
    ServesFrame(blocks, blocks', c, c, pool.log, |c| - 1, blocks[c[|c| - 1]].avail);
  }

  lemma InitInv()
    ensures Inv(Init())
  {
  }

  // ---- Arithmetic of a request ----

  lemma MulMono(a: int, b: int)
    requires a <= b
    ensures a * CLICK_SZ <= b * CLICK_SZ
  {
  }

  lemma Distribute(a: int, b: int)
    ensures (a + b) * CLICK_SZ == a * CLICK_SZ + b * CLICK_SZ
  {
  }

  /** Quotient and remainder are the only ones. */
  lemma DivisionIs(x: int, q: int, r: int)
    requires x == q * CLICK_SZ + r && 0 <= r < CLICK_SZ
    ensures x / CLICK_SZ == q && x % CLICK_SZ == r
  {
    var q' := x / CLICK_SZ;
    assert x == q' * CLICK_SZ + x % CLICK_SZ;
    Distribute(q, 1);
    Distribute(q', 1);
    if q' < q {
      MulMono(q' + 1, q);
    } else if q < q' {
      MulMono(q + 1, q');
    }
  }

  lemma WholeClicks(k: int)
    ensures (k * CLICK_SZ) % CLICK_SZ == 0
  {
    DivisionIs(k * CLICK_SZ, k, 0);
  }

  lemma AlignedSum(x: int, y: int)
    requires x % CLICK_SZ == 0 && y % CLICK_SZ == 0
    ensures (x + y) % CLICK_SZ == 0
  {
    assert x == (x / CLICK_SZ) * CLICK_SZ && y == (y / CLICK_SZ) * CLICK_SZ;
    Distribute(x / CLICK_SZ, y / CLICK_SZ);
    DivisionIs(x + y, x / CLICK_SZ + y / CLICK_SZ, 0);
  }

  /** palloc's size is the least whole number of clicks that is at least the request. */
  lemma RoundUpIsLeast(n: int)
    requires n > 0
    ensures n <= RoundUp(n) < n + CLICK_SZ && RoundUp(n) % CLICK_SZ == 0
    ensures forall m :: n <= m && m % CLICK_SZ == 0 ==> RoundUp(n) <= m
  {
    var q := (n - 1) / CLICK_SZ;
    assert n - 1 == q * CLICK_SZ + (n - 1) % CLICK_SZ;
    Distribute(1, q);
    WholeClicks(1 + q);
    forall m | n <= m && m % CLICK_SZ == 0 ensures RoundUp(n) <= m {
      assert m == (m / CLICK_SZ) * CLICK_SZ;
      MultipleAbove(q, m / CLICK_SZ, n, m);
    }
  }

  lemma MultipleAbove(q: int, k: int, n: int, m: int)
    requires q * CLICK_SZ <= n - 1 < m == k * CLICK_SZ
    ensures (1 + q) * CLICK_SZ <= m
  {
    if k <= q {
      MulMono(k, q);
    } else {
      MulMono(1 + q, k);
    }
  }
}
