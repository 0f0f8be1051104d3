/** The tree of pools: what lies under a pool, and why destroying a tree sub-pool by
    sub-pool, as the code does, gives the closed form of the model. */
module PoolTree {
  import opened Sequences
  import opened PoolModel

  /** A pool that has a parent is younger than it and on its list of sub-pools. */
  ghost predicate ParentOk(pools: map<nat, Pool>, p: nat) {
    p in pools && pools[p].parent.Some? ==>
      && pools[p].parent.value in pools
      && pools[pools[p].parent.value].stamp < pools[p].stamp
      && p in pools[pools[p].parent.value].kids
  }

  ghost predicate KidOk(pools: map<nat, Pool>, p: nat, k: nat) {
    p in pools && k in pools[p].kids ==> k in pools && pools[k].parent == Some(p)
  }

  ghost predicate NodeOk(pools: map<nat, Pool>, clock: nat, p: nat) {
    p in pools ==> pools[p].stamp < clock && NoDup(pools[p].kids)
  }

  /** parent and sub-pool lists describe one forest, in which a child is made after its parent. */
  ghost predicate TreeOk(pools: map<nat, Pool>, clock: nat) {
    && (forall p {:trigger NodeOk(pools, clock, p)} :: NodeOk(pools, clock, p))
    && (forall p {:trigger ParentOk(pools, p)} :: ParentOk(pools, p))
    && (forall p, k {:trigger KidOk(pools, p, k)} :: KidOk(pools, p, k))
  }

  /** A sub-pool is live, has the pool as its parent, and is younger. */
  lemma KidFacts(pools: map<nat, Pool>, clock: nat, p: nat, k: nat)
    requires TreeOk(pools, clock) && p in pools && k in pools[p].kids
    ensures k in pools && pools[k].parent == Some(p) && pools[p].stamp < pools[k].stamp < clock
    ensures Under(pools, k, p) && k != p
  {
    assert KidOk(pools, p, k) && ParentOk(pools, k) && NodeOk(pools, clock, k);
    assert Under(pools, p, p);
  }

  // ---- Being under a pool ----

  lemma {:induction false} UnderTrans(pools: map<nat, Pool>, q: nat, a: nat, b: nat)
    requires Under(pools, q, a) && Under(pools, a, b)
    ensures Under(pools, q, b)
    decreases if q in pools then pools[q].stamp else 0
  {
    if q != a {
      UnderTrans(pools, pools[q].parent.value, a, b);
    }
  }

  lemma {:induction false} UnderStamp(pools: map<nat, Pool>, q: nat, p: nat)
    requires q in pools && Under(pools, q, p)
    ensures p in pools && (q != p ==> pools[p].stamp < pools[q].stamp)
    decreases pools[q].stamp
  {
    if q != p {
      UnderStamp(pools, pools[q].parent.value, p);
    }
  }

  /** Two ancestors of the same pool lie on one path. */
  lemma {:induction false} Comparable(pools: map<nat, Pool>, q: nat, a: nat, b: nat)
    requires Under(pools, q, a) && Under(pools, q, b)
    ensures Under(pools, a, b) || Under(pools, b, a)
    decreases if q in pools then pools[q].stamp else 0
  {
    if q != a && q != b {
      Comparable(pools, pools[q].parent.value, a, b);
    }
  }

  /** The subtrees of two sub-pools of one pool have nothing in common. */
  lemma KidsApart(pools: map<nat, Pool>, clock: nat, p: nat, a: nat, b: nat, q: nat)
    requires TreeOk(pools, clock) && p in pools && a in pools[p].kids && b in pools[p].kids && a != b
    requires Under(pools, q, a)
    ensures !Under(pools, q, b)
  {
    KidFacts(pools, clock, p, a);
    KidFacts(pools, clock, p, b);
    if Under(pools, q, b) {
      Comparable(pools, q, a, b);
      if Under(pools, a, b) {
        UnderStamp(pools, p, b);
      } else {
        UnderStamp(pools, p, a);
      }
    }
  }

  lemma UnderOfKid(pools: map<nat, Pool>, clock: nat, p: nat, k: nat, q: nat)
    requires TreeOk(pools, clock) && p in pools && k in pools[p].kids && Under(pools, q, k)
    ensures Under(pools, q, p)
    ensures q in pools ==> q != p
  {
    KidFacts(pools, clock, p, k);
    UnderTrans(pools, q, k, p);
    if q == p {
      UnderStamp(pools, p, k);
    }
  }

  /** Being under a pool is settled by the parents and stamps of the pools that stay. */
  lemma {:induction false} UnderSame(pools: map<nat, Pool>, pools': map<nat, Pool>, q: nat, r: nat)
    requires q in pools'
    requires forall x :: x in pools' ==>
             x in pools && pools'[x].parent == pools[x].parent && pools'[x].stamp == pools[x].stamp
    requires forall x :: x in pools' && pools[x].parent.Some? && pools[x].parent.value in pools ==>
             pools[x].parent.value in pools'
    ensures Under(pools', q, r) == Under(pools, q, r)
    decreases pools[q].stamp
  {
    if q != r && pools[q].parent.Some? && pools[q].parent.value in pools
        && pools[pools[q].parent.value].stamp < pools[q].stamp {
      UnderSame(pools, pools', pools[q].parent.value, r);
    }
  }

  // ---- What destroying frees ----

  /** What a subtree frees depends on that subtree alone. */
  lemma {:induction false} FreedFrame(pools: map<nat, Pool>, pools': map<nat, Pool>, clock: nat, p: nat)
    requires TreeOk(pools, clock) && p in pools
    requires forall q :: q in pools && Under(pools, q, p) ==> q in pools' && pools'[q] == pools[q]
    ensures Freed(pools', clock, p) == Freed(pools, clock, p)
    decreases clock - pools[p].stamp, |pools[p].kids| + 1
  {
    forall q, k | k in pools[p].kids && q in pools && Under(pools, q, k) ensures q in pools' && pools'[q] == pools[q] {
      UnderOfKid(pools, clock, p, k, q);
    }
    assert Under(pools, p, p) && NodeOk(pools, clock, p);
    FreedKidsFrame(pools, pools', clock, pools[p].kids, p);
  }

  lemma {:induction false} FreedKidsFrame(pools: map<nat, Pool>, pools': map<nat, Pool>, clock: nat, ks: seq<nat>,
                                          p: nat)
    requires TreeOk(pools, clock) && p in pools
    requires forall k :: k in ks ==> k in pools[p].kids
    requires forall q, k :: k in ks && q in pools && Under(pools, q, k) ==> q in pools' && pools'[q] == pools[q]
    ensures FreedKids(pools', clock, ks, pools[p].stamp) == FreedKids(pools, clock, ks, pools[p].stamp)
    decreases clock - pools[p].stamp, |ks|
  {
    if ks != [] {
      var k := ks[0];
      assert k in ks && Under(pools, k, k);
      KidFacts(pools, clock, p, k);
      assert NodeOk(pools, clock, k);
      FreedFrame(pools, pools', clock, k);
      FreedKidsFrame(pools, pools', clock, ks[1..], p);
    }
  }

  // ---- clear_pool's loop and destroy_pool's end ----

  lemma {:induction false} WithoutHead(ks: seq<nat>)
    requires ks != []
    ensures Without(ks, ks[0]) == ks[1..]
  {
  }

  lemma {:induction false} WithoutMembers(ks: seq<nat>, k: nat)
    requires NoDup(ks)
    ensures forall x :: x in Without(ks, k) <==> x in ks && x != k
    ensures NoDup(Without(ks, k))
  {
    if ks != [] {
      var r := ks[1..];
      assert forall i :: 0 <= i < |r| ==> r[i] == ks[i + 1];
      if ks[0] == k {
        assert forall x :: x in ks <==> x == ks[0] || x in r;
        assert forall i :: 0 <= i < |r| ==> r[i] != k;
      } else {
        WithoutMembers(r, k);
        var w := Without(r, k);
        assert Without(ks, k) == [ks[0]] + w;
        assert ks[0] !in r;
        assert forall x :: x in ks <==> x == ks[0] || x in r;
      }
    }
  }

  /** The parent of a pool that is not under p is not under p either. */
  lemma ParentStays(pools: map<nat, Pool>, clock: nat, q: nat, p: nat)
    requires TreeOk(pools, clock) && q in pools && !Under(pools, q, p) && pools[q].parent.Some?
    ensures pools[q].parent.value in pools && !Under(pools, pools[q].parent.value, p)
  {
    assert ParentOk(pools, q);
  }

  /** Resetting one list and then another is resetting both. */
  lemma ResetTwice(blocks: seq<Block>, a: seq<nat>, b: seq<nat>, c: seq<nat>)
    requires forall x :: x in c <==> x in a || x in b
    ensures Reset(Reset(blocks, a), b) == Reset(blocks, c)
  {
  }

  /** k is the first on p's list of sub-pools. */
  ghost predicate FirstKid(s: State, p: nat, k: nat) {
    TreeOk(s.pools, s.clock) && p in s.pools && s.pools[p].kids != [] && k == s.pools[p].kids[0] && k in s.pools
  }

  /** What is left under a pool after another subtree is destroyed. */
  lemma UnderLeft(pools: map<nat, Pool>, clock: nat, k: nat, q: nat, r: nat)
    requires TreeOk(pools, clock) && k in pools && q in Left(pools, k)
    ensures Under(Left(pools, k), q, r) == Under(pools, q, r)
  {
    forall x | x in Left(pools, k) && pools[x].parent.Some? && pools[x].parent.value in pools
      ensures pools[x].parent.value in Left(pools, k)
    {
      ParentStays(pools, clock, x, k);
    }
    UnderSame(pools, Left(pools, k), q, r);
  }

  /** The rest of the sub-pools free the same blocks after the first one is gone. */
  lemma RestFrees(s: State, p: nat, k: nat)
    requires FirstKid(s, p, k)
    ensures FreedKids(Left(s.pools, k), s.clock, s.pools[p].kids[1..], s.pools[p].stamp)
         == FreedKids(s.pools, s.clock, s.pools[p].kids[1..], s.pools[p].stamp)
  {
    var ks := s.pools[p].kids;
    KidFacts(s.pools, s.clock, p, k);
    assert NodeOk(s.pools, s.clock, p);
    forall q, j | j in ks[1..] && q in s.pools && Under(s.pools, q, j)
      ensures q in Left(s.pools, k) && Left(s.pools, k)[q] == s.pools[q]
    {
      assert j != k && j in ks;
      KidsApart(s.pools, s.clock, p, j, k, q);
      UnderOfKid(s.pools, s.clock, p, j, q);
    }
    FreedKidsFrame(s.pools, Left(s.pools, k), s.clock, ks[1..], p);
  }

  /** The pool p itself after its first sub-pool is destroyed. */
  lemma ParentAfterKid(s: State, p: nat, k: nat)
    requires FirstKid(s, p, k)
    ensures p in Left(s.pools, k)
    ensures Left(s.pools, k)[p] == s.pools[p].(kids := s.pools[p].kids[1..])
  {
    KidFacts(s.pools, s.clock, p, k);
    if Under(s.pools, p, k) {
      UnderStamp(s.pools, p, k);
    }
    WithoutHead(s.pools[p].kids);
  }

  /** The same pools remain whether the first sub-pool is destroyed beforehand or not. */
  lemma ClearPoolsStep(s: State, p: nat, k: nat)
    requires FirstKid(s, p, k) && Sane(s) && Sane(Destroy(s, k)) && p in Left(s.pools, k)
    ensures Clear(Destroy(s, k), p).pools == Clear(s, p).pools
  {
    hide TreeOk, Sane, Under, Reset, Freed, FreedKids;
    ParentAfterKid(s, p, k);
    KidIsOne(s, p, k);
    KidFacts(s.pools, s.clock, p, k);
    var left := Left(s.pools, k);
    forall q | q in s.pools && Under(s.pools, q, k) ensures q != p && Under(s.pools, q, p) {
      UnderOfKid(s.pools, s.clock, p, k, q);
    }
    forall q | q in left ensures Under(left, q, p) == Under(s.pools, q, p) {
      UnderLeft(s.pools, s.clock, k, q, p);
    }
    assert Clear(Destroy(s, k), p).pools.Keys == Clear(s, p).pools.Keys;
  }

  lemma KidIsOne(s: State, p: nat, k: nat)
    requires FirstKid(s, p, k)
    ensures TreeOk(s.pools, s.clock) && p in s.pools && k in s.pools[p].kids && k in s.pools
  {
  }

  /** What ends up on the free list, and in which order, does not change either. */
  lemma ClearFreesStep(s: State, p: nat, k: nat)
    requires FirstKid(s, p, k) && Sane(s) && Sane(Destroy(s, k)) && p in Left(s.pools, k)
    ensures Clear(Destroy(s, k), p).free == Clear(s, p).free
    ensures Clear(Destroy(s, k), p).blocks == Clear(s, p).blocks
  {
    var pool := s.pools[p];
    KidFacts(s.pools, s.clock, p, k);
    ParentAfterKid(s, p, k);
    RestFrees(s, p, k);
    var mine := Freed(s.pools, s.clock, k);
    var rest := FreedKids(s.pools, s.clock, pool.kids[1..], pool.stamp);
    assert FreedKids(s.pools, s.clock, pool.kids, pool.stamp) == rest + mine;
    assert (pool.chain[1..] + rest) + (mine + s.free) == (pool.chain[1..] + (rest + mine)) + s.free;
    ResetTwice(s.blocks, mine, pool.chain[1..] + rest, pool.chain[1..] + (rest + mine));
  }

  /** One turn of clear_pool's loop: destroying the first sub-pool changes nothing about
      what clearing the pool comes to. */
  lemma ClearStep(s: State, p: nat, k: nat)
    requires FirstKid(s, p, k) && Sane(s) && Sane(Destroy(s, k))
    ensures p in Left(s.pools, k)
    ensures Clear(Destroy(s, k), p) == Clear(s, p)
  {
    ParentAfterKid(s, p, k);
    ClearPoolsStep(s, p, k);
    ClearFreesStep(s, p, k);
  }

  // ---- The two elementary steps ----

  /** clear_pool after its loop: the blocks after the first go to the free list. */
  function FreeTail(s: State, p: nat): State
    requires Sane(s) && p in s.pools
  {
    var pool := s.pools[p];
    var blocks := Reset(s.blocks, pool.chain[1..]);
    s.(blocks := blocks[pool.chain[0] := Block(blocks[pool.chain[0]].cap, POOL_HDR)],
       free := pool.chain[1..] + s.free,
       pools := s.pools[p := pool.(chain := [pool.chain[0]], log := [])])
  }

  /** destroy_pool after its clear_pool: unlink the pool and free its block. */
  function DropLeaf(s: State, p: nat): State
    requires p in s.pools
  {
    var pool := s.pools[p];
    s.(blocks := Reset(s.blocks, pool.chain),
       free := pool.chain + s.free,
       pools := map q | q in s.pools && q != p ::
         if pool.parent == Some(q) then s.pools[q].(kids := Without(s.pools[q].kids, p)) else s.pools[q])
  }

  /** Every pool under p other than p is under one of its sub-pools. */
  lemma {:induction false} UnderSomeKid(pools: map<nat, Pool>, clock: nat, q: nat, p: nat)
    requires TreeOk(pools, clock) && p in pools && q in pools && Under(pools, q, p) && q != p
    ensures exists k :: k in pools[p].kids && Under(pools, q, k)
    decreases pools[q].stamp
  {
    assert ParentOk(pools, q);
    var r := pools[q].parent.value;
    if r == p {
      assert q in pools[p].kids && Under(pools, q, q);
    } else {
      UnderSomeKid(pools, clock, r, p);
      var k :| k in pools[p].kids && Under(pools, r, k);
      assert Under(pools, q, k);
    }
  }

  lemma ClearLeaf(s: State, p: nat)
    requires Sane(s) && TreeOk(s.pools, s.clock) && p in s.pools && s.pools[p].kids == []
    ensures Clear(s, p) == FreeTail(s, p)
  {
    forall q | q in s.pools && q != p ensures !Under(s.pools, q, p) {
      if Under(s.pools, q, p) {
        UnderSomeKid(s.pools, s.clock, q, p);
      }
    }
    assert s.pools[p].chain[1..] + [] == s.pools[p].chain[1..];
    assert Clear(s, p).pools == FreeTail(s, p).pools;
  }

  lemma DestroyPoolsFromClear(s: State, p: nat)
    requires Sane(s) && TreeOk(s.pools, s.clock) && p in s.pools
    ensures p in Clear(s, p).pools
    ensures Destroy(s, p).pools == DropLeaf(Clear(s, p), p).pools
  {
    assert ParentOk(s.pools, p);
    assert Under(s.pools, p, p);
  }

  /** Everything clear_pool(p) frees. */
  function Tail(s: State, p: nat): seq<nat>
    requires Sane(s) && p in s.pools
  {
    s.pools[p].chain[1..] + FreedKids(s.pools, s.clock, s.pools[p].kids, s.pools[p].stamp)
  }

  lemma FreedSplit(s: State, p: nat)
    requires Sane(s) && TreeOk(s.pools, s.clock) && p in s.pools
    ensures Freed(s.pools, s.clock, p) == [s.pools[p].chain[0]] + Tail(s, p)
  {
    assert NodeOk(s.pools, s.clock, p) && ChainOk(s, p);
    SplitHead(s.pools[p].chain, FreedKids(s.pools, s.clock, s.pools[p].kids, s.pools[p].stamp));
  }

  lemma SplitHead(l: seq<nat>, x: seq<nat>)
    requires l != []
    ensures l + x == [l[0]] + (l[1..] + x)
  {
  }

  lemma DestroyFreesFromClear(s: State, p: nat)
    requires Sane(s) && TreeOk(s.pools, s.clock) && p in s.pools && p in Clear(s, p).pools
    ensures Destroy(s, p).free == DropLeaf(Clear(s, p), p).free
    ensures Destroy(s, p).blocks == DropLeaf(Clear(s, p), p).blocks
  {
    hide *;
    FreedSplit(s, p);
    ClearParts(s, p);
    DestroyParts(s, p);
    DropParts(Clear(s, p), p);
    var b := s.pools[p].chain[0];
    assert ([b] + Tail(s, p)) + s.free == [b] + (Tail(s, p) + s.free);
    ResetAll(s.blocks, b, Tail(s, p));
  }

  lemma ClearParts(s: State, p: nat)
    requires Sane(s) && p in s.pools && p in Clear(s, p).pools
    ensures s.pools[p].chain != [] && s.pools[p].chain[0] < |s.blocks| == |Reset(s.blocks, Tail(s, p))|
    ensures var b, r := s.pools[p].chain[0], Reset(s.blocks, Tail(s, p));
            && Clear(s, p).free == Tail(s, p) + s.free && Clear(s, p).pools[p].chain == [b]
            && Clear(s, p).blocks == r[b := Block(s.blocks[b].cap, POOL_HDR)]
  {
    assert ChainOk(s, p);
  }

  lemma DestroyParts(s: State, p: nat)
    requires p in s.pools
    ensures Destroy(s, p).free == Freed(s.pools, s.clock, p) + s.free
    ensures Destroy(s, p).blocks == Reset(s.blocks, Freed(s.pools, s.clock, p))
  {
  }

  lemma DropParts(s: State, p: nat)
    requires p in s.pools
    ensures DropLeaf(s, p).free == s.pools[p].chain + s.free
    ensures DropLeaf(s, p).blocks == Reset(s.blocks, s.pools[p].chain)
  {
  }

  /** destroy_pool is clear_pool and then the unlinking and freeing of what is left. */
  lemma DestroyFromClear(s: State, p: nat)
    requires Sane(s) && TreeOk(s.pools, s.clock) && p in s.pools
    ensures p in Clear(s, p).pools
    ensures Destroy(s, p) == DropLeaf(Clear(s, p), p)
  {
    DestroyPoolsFromClear(s, p);
    DestroyFreesFromClear(s, p);
  }

  lemma ResetAll(blocks: seq<Block>, b: nat, tail: seq<nat>)
    requires b < |blocks|
    ensures Reset(blocks, [b] + tail) == Reset(Reset(blocks, tail)[b := Block(blocks[b].cap, POOL_HDR)], [b])
  {
  }
}
