/** Every pool operation keeps the invariant, and so does every run. */
module PoolSteps {
  import opened Sequences
  import opened PoolModel
  import opened PoolTree
  import opened PoolInv

  // ---- Blocks change lists ----

  /** Moving some blocks to one list, and no other, keeps every block on one list. */
  lemma OwnedTransfer(s: State, s': State, moved: set<nat>, x0: Option<nat>)
    requires Owned(s)
    requires forall b: nat :: b < |s'.blocks| ==> b < |s.blocks| || b in moved
    requires forall b, x :: On(s', b, x) <==> if b in moved then x == x0 else On(s, b, x)
    requires forall x :: NoDup(ListOf(s', x))
    ensures Owned(s')
  {
    forall b: nat | b < |s'.blocks| ensures Placed(s', b) {
      if b in moved {
        assert On(s', b, x0);
      } else {
        assert Placed(s, b);
        var x :| On(s, b, x);
        assert On(s', b, x);
      }
    }
  }

  /** new_block's result: first fit from the free list with the order of the others kept,
      malloc only when no free block has room, and always BLOCK_MINFREE bytes to spare. */
  lemma NewBlockFacts(s: State, min: nat)
    requires Inv(s)
    ensures var s1, b := NewBlock(s, min), ChosenBlock(s, min);
            && b < |s1.blocks| && s1.blocks[b].avail == 0 && min + BLOCK_MINFREE <= s1.blocks[b].cap
            && |s.blocks| <= |s1.blocks|
            && (forall i :: 0 <= i < |s.blocks| ==> s1.blocks[i] == s.blocks[i])
            && |s1.blocks| <= |s.blocks| + 1 && (|s1.blocks| == |s.blocks| + 1 ==> b == |s.blocks|)
            && (forall x :: x in s1.free <==> x in s.free && x != b)
            && NoDup(s1.free)
            && (forall x :: On(s, b, x) ==> x == None)
  {
    hide TreeOk, FilledPool, Take;
    var s1, b := NewBlock(s, min), ChosenBlock(s, min);
    var k := FirstFit(s.blocks, s.free, min + BLOCK_MINFREE);
    assert NoDup(ListOf(s, None));
    if k < |s.free| {
      assert b in s.free && Empty(s.blocks, b) && On(s, b, None);
      assert s.free == s.free[..k] + [b] + s.free[k + 1..];
    } else {
      forall x ensures !On(s, b, x) {
        if x.Some? && x.value in s.pools {
          assert ChainOk(s, x.value);
        }
      }
    }
  }

  /** Which block new_block takes: the first free one with room, all others keeping their
      order, or else a new one of the least size malloc is asked for. */
  lemma NewBlockTakesFirstFit(s: State, min: nat)
    requires Inv(s)
    ensures var s1, b, need := NewBlock(s, min), ChosenBlock(s, min), min + BLOCK_MINFREE;
            if exists i :: 0 <= i < |s.free| && s.blocks[s.free[i]].cap >= need then
              exists k :: 0 <= k <= |s1.free| && s.free == s1.free[..k] + [b] + s1.free[k..]
                && b < |s.blocks| && s.blocks[b].cap >= need
                && forall i :: 0 <= i < k ==> s.blocks[s1.free[i]].cap < need
            else b == |s.blocks| && s1.free == s.free && s1.blocks == s.blocks + [Block(Max(need, BLOCK_MINALLOC), 0)]
  {
    var s1, b, need := NewBlock(s, min), ChosenBlock(s, min), min + BLOCK_MINFREE;
    var k := FirstFit(s.blocks, s.free, need);
    forall i | 0 <= i < |s.free| ensures s.blocks[s.free[i]].avail == 0 {
      assert s.free[i] in s.free && Empty(s.blocks, s.free[i]);
    }
    if k < |s.free| {
      assert s1.free[..k] == s.free[..k] && s1.free[k..] == s.free[k + 1..];
      assert forall i :: 0 <= i < k ==> s1.free[i] == s.free[i];
      assert s.free == s1.free[..k] + [b] + s1.free[k..];
    }
  }

  // ---- palloc ----

  lemma PallocSane(s: State, p: nat, n: nat)
    requires Inv(s) && p in s.pools && n > 0
    ensures Sane(Palloc(s, p, n)) && Palloc(s, p, n).pools.Keys == s.pools.Keys
    ensures forall q :: q in s.pools && q != p ==> Palloc(s, p, n).pools[q] == s.pools[q]
    ensures |Palloc(s, p, n).blocks| >= |s.blocks|
  {
    RoundUpIsLeast(n);
    var s' := Palloc(s, p, n);
    NewBlockFacts(s, RoundUp(n));
    forall q | q in s'.pools ensures ChainOk(s', q) {
      assert ChainOk(s, q);
    }
  }

  lemma PallocTree(s: State, p: nat, n: nat)
    requires Inv(s) && p in s.pools && n > 0
    ensures TreeOk(Palloc(s, p, n).pools, s.clock)
  {
    var pools, pools' := s.pools, Palloc(s, p, n).pools;
    assert pools'.Keys == pools.Keys;
    assert forall q :: q in pools ==>
      pools'[q].parent == pools[q].parent && pools'[q].kids == pools[q].kids && pools'[q].stamp == pools[q].stamp;
    SameTree(pools, pools', s.clock);
  }

  lemma SameTree(pools: map<nat, Pool>, pools': map<nat, Pool>, clock: nat)
    requires TreeOk(pools, clock) && pools'.Keys == pools.Keys
    requires forall q :: q in pools ==>
      pools'[q].parent == pools[q].parent && pools'[q].kids == pools[q].kids && pools'[q].stamp == pools[q].stamp
    ensures TreeOk(pools', clock)
  {
    forall q ensures NodeOk(pools', clock, q) { assert NodeOk(pools, clock, q); }
    forall q ensures ParentOk(pools', q) { assert ParentOk(pools, q); }
    forall q, k ensures KidOk(pools', q, k) { assert KidOk(pools, q, k); }
  }

  lemma PallocHereOwned(s: State, p: nat, n: nat)
    requires Inv(s) && p in s.pools && n > 0
    ensures Owned(PallocHere(s, p, n))
  {
    var s' := PallocHere(s, p, n);
    forall x ensures ListOf(s', x) == ListOf(s, x) {}
    forall x ensures NoDup(ListOf(s', x)) {
      assert NoDup(ListOf(s, x));
    }
    OwnedTransfer(s, s', {}, None);
  }

  lemma PallocNextOwned(s: State, p: nat, n: nat)
    requires Inv(s) && p in s.pools && n > 0
    ensures Owned(PallocNext(s, p, n))
  {
    RoundUpIsLeast(n);
    NewBlockFacts(s, RoundUp(n));
    var s', b := PallocNext(s, p, n), ChosenBlock(s, RoundUp(n));
    forall c, x ensures On(s', c, x) <==> if c in {b} then x == Some(p) else On(s, c, x) {
      assert c == b && On(s, c, x) ==> x == None;
    }
    forall x ensures NoDup(ListOf(s', x)) {
      assert NoDup(ListOf(s, x));
      if x == Some(p) {
        assert !On(s, b, x);
        AppendNoDup(s.pools[p].chain, b);
      }
    }
    OwnedTransfer(s, s', {b}, Some(p));
  }

  lemma PallocHereFillsOwn(s: State, p: nat, n: nat)
    requires Inv(s) && p in s.pools && n > 0 && FitsLast(s, p, RoundUp(n))
    ensures FilledPool(PallocHere(s, p, n).blocks, p, PallocHere(s, p, n).pools[p])
  {
    RoundUpIsLeast(n);
    var s', pool := PallocHere(s, p, n), s.pools[p];
    var c := pool.chain;
    assert FilledPool(s.blocks, p, pool) && NoDup(ListOf(s, Some(p)));
    ServesFrame(s.blocks, s'.blocks, c, c, pool.log, |c| - 1, s.blocks[c[|c| - 1]].avail);
    assert s'.pools[p].log[..|pool.log|] == pool.log;
  }

  /** What appending a block does to the pool and to the blocks. */
  lemma NextOwn(s: State, p: nat, n: nat)
    requires Inv(s) && p in s.pools && n > 0 && RoundUp(n) >= 0 && !FitsLast(s, p, RoundUp(n))
    ensures Sane(s) && FilledPool(s.blocks, p, s.pools[p]) && ChosenBlock(s, RoundUp(n)) !in s.pools[p].chain
    ensures var s', b, c := PallocNext(s, p, n), ChosenBlock(s, RoundUp(n)), s.pools[p].chain;
            && p in s'.pools && s'.pools[p].chain == c + [b] && s'.pools[p].log == s.pools[p].log + [Alloc(n, b, 0)]
            && |s.blocks| <= |s'.blocks| && b < |s'.blocks| && s'.blocks[b].avail == RoundUp(n)
            && RoundUp(n) + BLOCK_MINFREE <= s'.blocks[b].cap
            && (forall i :: 0 <= i < |s.blocks| && i != b ==> s'.blocks[i] == s.blocks[i])
            && c != [] && c[|c| - 1] < |s.blocks|
            && s.blocks[c[|c| - 1]].cap < s.blocks[c[|c| - 1]].avail + RoundUp(n)
  {
    hide TreeOk, Owned, FirstFit, Serves;
    NewBlockFacts(s, RoundUp(n));
    var b := ChosenBlock(s, RoundUp(n));
    assert FilledPool(s.blocks, p, s.pools[p]) && !On(s, b, Some(p));
  }

  /** A request served from the start of a block appended to the chain. */
  lemma ServesNext(blocks: seq<Block>, c: seq<nat>, b: nat, log: seq<Alloc>, n: nat)
    requires InRange(c + [b], |blocks|) && c != [] && c[|c| - 1] < |blocks| && b < |blocks|
    requires n > 0 && RoundUp(n) + BLOCK_MINFREE <= blocks[b].cap
    requires blocks[c[|c| - 1]].cap < blocks[c[|c| - 1]].avail + RoundUp(n)
    requires Serves(blocks, c + [b], log, |c| - 1, blocks[c[|c| - 1]].avail)
    ensures Serves(blocks, c + [b], log + [Alloc(n, b, 0)], |c|, RoundUp(n))
  {
    var log' := log + [Alloc(n, b, 0)];
    assert log'[..|log'| - 1] == log;
  }

  lemma FilledParts(blocks: seq<Block>, p: nat, pool: Pool)
    requires FilledPool(blocks, p, pool)
    ensures pool.chain != [] && InRange(pool.chain, |blocks|) && pool.chain[0] == p
    ensures forall i :: 0 <= i < |pool.chain| ==> pool.chain[i] < |blocks|
    ensures POOL_HDR + BLOCK_MINFREE <= blocks[p].cap
    ensures Serves(blocks, pool.chain, pool.log, |pool.chain| - 1, blocks[pool.chain[|pool.chain| - 1]].avail)
  {
  }

  lemma FilledIs(blocks: seq<Block>, p: nat, pool: Pool)
    requires pool.chain != [] && InRange(pool.chain, |blocks|) && pool.chain[0] == p
    requires POOL_HDR + BLOCK_MINFREE <= blocks[p].cap
    requires Serves(blocks, pool.chain, pool.log, |pool.chain| - 1, blocks[pool.chain[|pool.chain| - 1]].avail)
    ensures FilledPool(blocks, p, pool)
  {
  }

  lemma AppendInRange(c: seq<nat>, b: nat, n: nat)
    requires b < n && forall i :: 0 <= i < |c| ==> c[i] < n
    ensures InRange(c + [b], n)
  {
  }

  lemma PallocNextFillsOwn(s: State, p: nat, n: nat)
    requires Inv(s) && p in s.pools && n > 0 && !FitsLast(s, p, RoundUp(n))
    ensures FilledPool(PallocNext(s, p, n).blocks, p, PallocNext(s, p, n).pools[p])
  {
    hide *;
    RoundUpIsLeast(n);
    NextOwn(s, p, n);
    FilledParts(s.blocks, p, s.pools[p]);
    var s', c, b := PallocNext(s, p, n), s.pools[p].chain, ChosenBlock(s, RoundUp(n));
    AppendInRange(c, b, |s'.blocks|);
    assert forall i :: 0 <= i < |c| ==> c[i] in c && (c + [b])[i] == c[i] && s'.blocks[c[i]] == s.blocks[c[i]];
    ServesFrame(s.blocks, s'.blocks, c, c + [b], s.pools[p].log, |c| - 1, s.blocks[c[|c| - 1]].avail);
    ServesNext(s'.blocks, c, b, s.pools[p].log, n);
    FilledIs(s'.blocks, p, s'.pools[p]);
  }

  /** The pools whose blocks an operation leaves alone stay filled as they are. */
  lemma OthersFilled(s: State, s': State, touched: nat, q: nat)
    requires Inv(s) && q in s.pools && !On(s, touched, Some(q)) && |s'.blocks| >= |s.blocks|
    requires forall i :: 0 <= i < |s.blocks| && i != touched ==> s'.blocks[i] == s.blocks[i]
    requires q in s'.pools && s'.pools[q].chain == s.pools[q].chain && s'.pools[q].log == s.pools[q].log
    ensures FilledPool(s'.blocks, q, s'.pools[q])
  {
    var d := s.pools[q].chain;
    assert FilledPool(s.blocks, q, s.pools[q]);
    forall i | 0 <= i < |d| ensures s'.blocks[d[i]] == s.blocks[d[i]] {
      assert On(s, d[i], Some(q));
    }
    FilledFrame(s.blocks, s'.blocks, q, s.pools[q], s'.pools[q]);
  }

  lemma PallocHereFilled(s: State, p: nat, n: nat)
    requires Inv(s) && p in s.pools && n > 0 && FitsLast(s, p, RoundUp(n))
    ensures Filled(PallocHere(s, p, n))
  {
    RoundUpIsLeast(n);
    var s' := PallocHere(s, p, n);
    var last := s.pools[p].chain[|s.pools[p].chain| - 1];
    assert On(s, last, Some(p));
    forall q | q in s'.pools ensures FilledPool(s'.blocks, q, s'.pools[q]) {
      if q == p { PallocHereFillsOwn(s, p, n); } else { OthersFilled(s, s', last, q); }
    }
    forall b | b in s'.free ensures Empty(s'.blocks, b) {
      assert On(s, b, None) && Empty(s.blocks, b);
    }
  }

  lemma PallocNextFilled(s: State, p: nat, n: nat)
    requires Inv(s) && p in s.pools && n > 0 && !FitsLast(s, p, RoundUp(n))
    ensures Filled(PallocNext(s, p, n))
  {
    RoundUpIsLeast(n);
    NewBlockFacts(s, RoundUp(n));
    var s', b := PallocNext(s, p, n), ChosenBlock(s, RoundUp(n));
    forall q | q in s'.pools ensures FilledPool(s'.blocks, q, s'.pools[q]) {
      assert !On(s, b, Some(q));
      if q == p { PallocNextFillsOwn(s, p, n); } else { OthersFilled(s, s', b, q); }
    }
    forall c | c in s'.free ensures Empty(s'.blocks, c) {
      assert Empty(s.blocks, c);
    }
  }

  lemma PallocInv(s: State, p: nat, n: nat)
    requires Inv(s) && p in s.pools && n > 0
    ensures Inv(Palloc(s, p, n))
  {
    PallocSane(s, p, n);
    PallocTree(s, p, n);
    if FitsLast(s, p, RoundUp(n)) {
      PallocHereOwned(s, p, n);
      PallocHereFilled(s, p, n);
    } else {
      PallocNextOwned(s, p, n);
      PallocNextFilled(s, p, n);
    }
  }
}
