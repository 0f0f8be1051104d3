/** make_sub_pool, clear_pool and destroy_pool keep the invariant too; runs of operations. */
module PoolRuns {
  import opened Sequences
  import opened PoolModel
  import opened PoolTree
  import opened PoolInv
  import opened PoolSteps

  // ---- make_sub_pool ----

  /** The new pool's address is not the address of a live pool. */
  lemma NewPoolIsNew(s: State)
    requires Inv(s)
    ensures ChosenBlock(s, POOL_HDR) !in s.pools
  {
    NewBlockFacts(s, POOL_HDR);
    var b := ChosenBlock(s, POOL_HDR);
    forall q | q in s.pools ensures q != b {
      assert FilledPool(s.blocks, q, s.pools[q]);
      assert On(s, q, Some(q));
    }
  }

  lemma MakeSubSane(s: State, parent: Option<nat>)
    requires Inv(s) && (parent.Some? ==> parent.value in s.pools)
    ensures Sane(MakeSub(s, parent))
  {
    NewBlockFacts(s, POOL_HDR);
    var s' := MakeSub(s, parent);
    forall q | q in s'.pools ensures ChainOk(s', q) {
      if q in s.pools { assert ChainOk(s, q); }
    }
  }

  lemma MakeSubTree(s: State, parent: Option<nat>)
    requires Inv(s) && (parent.Some? ==> parent.value in s.pools)
    ensures TreeOk(MakeSub(s, parent).pools, s.clock + 1)
  {
    NewPoolIsNew(s);
    var b, pools, pools' := ChosenBlock(s, POOL_HDR), s.pools, MakeSub(s, parent).pools;
    var now := s.clock + 1;
    forall q: nat ensures NodeOk(pools', now, q) {
      assert NodeOk(pools, s.clock, q);
      if parent == Some(q) {
        assert KidOk(pools, q, b);
      }
    }
    forall q ensures ParentOk(pools', q) {
      assert ParentOk(pools, q);
      if parent.Some? { assert NodeOk(pools, s.clock, parent.value); }
    }
    forall q, k ensures KidOk(pools', q, k) {
      assert KidOk(pools, q, k);
    }
  }

  lemma MakeSubOwned(s: State, parent: Option<nat>)
    requires Inv(s) && (parent.Some? ==> parent.value in s.pools)
    ensures Owned(MakeSub(s, parent))
  {
    NewBlockFacts(s, POOL_HDR);
    NewPoolIsNew(s);
    var s', b := MakeSub(s, parent), ChosenBlock(s, POOL_HDR);
    forall c, x ensures On(s', c, x) <==> if c in {b} then x == Some(b) else On(s, c, x) {
      assert c == b && On(s, c, x) ==> x == None;
    }
    forall x ensures NoDup(ListOf(s', x)) {
      assert NoDup(ListOf(s, x));
    }
    OwnedTransfer(s, s', {b}, Some(b));
  }

  lemma NewPoolFilled(s: State, parent: Option<nat>)
    requires Inv(s) && (parent.Some? ==> parent.value in s.pools)
    ensures var s', b := MakeSub(s, parent), ChosenBlock(s, POOL_HDR);
            b in s'.pools && FilledPool(s'.blocks, b, s'.pools[b])
  {
    hide TreeOk, Owned, FirstFit;
    NewBlockFacts(s, POOL_HDR);
  }

  lemma MakeSubFilled(s: State, parent: Option<nat>)
    requires Inv(s) && (parent.Some? ==> parent.value in s.pools)
    ensures Filled(MakeSub(s, parent))
  {
    hide TreeOk, Owned, FirstFit, FilledPool;
    NewBlockFacts(s, POOL_HDR);
    NewPoolIsNew(s);
    NewPoolFilled(s, parent);
    var s', b := MakeSub(s, parent), ChosenBlock(s, POOL_HDR);
    forall q | q in s'.pools ensures FilledPool(s'.blocks, q, s'.pools[q]) {
      assert !On(s, b, Some(q));
      if q != b { OthersFilled(s, s', b, q); }
    }
    forall c | c in s'.free ensures Empty(s'.blocks, c) {
      assert Empty(s.blocks, c);
    }
  }

  lemma MakeSubInv(s: State, parent: Option<nat>)
    requires Inv(s) && (parent.Some? ==> parent.value in s.pools)
    ensures Inv(MakeSub(s, parent))
  {
    MakeSubSane(s, parent);
    MakeSubTree(s, parent);
    MakeSubOwned(s, parent);
    MakeSubFilled(s, parent);
  }

  // ---- The blocks after a pool's first go to the free list ----

  /** Some of a pool's blocks go to the head of the free list; the pool keeps the rest. */
  lemma ReleaseOwned(s: State, s': State, p: nat, freed: seq<nat>)
    requires Owned(s) && |s'.blocks| == |s.blocks|
    requires NoDup(freed) && forall b :: b in freed ==> On(s, b, Some(p))
    requires ListOf(s', None) == freed + s.free
    requires NoDup(ListOf(s', Some(p)))
    requires forall b :: b in ListOf(s', Some(p)) <==> b !in freed && On(s, b, Some(p))
    requires forall x :: x != None && x != Some(p) ==> ListOf(s', x) == ListOf(s, x)
    ensures Owned(s')
  {
    forall b | b in freed ensures b !in s.free {
      assert b in s.free ==> On(s, b, None);
    }
    forall x ensures NoDup(ListOf(s', x)) {
      assert NoDup(ListOf(s, x)) && NoDup(ListOf(s, None));
      if x == None { PrependNoDup(freed, s.free); }
    }
    var moved := set b | b in freed;
    forall b, x ensures On(s', b, x) <==> if b in moved then x == None else On(s, b, x) {
      assert b in moved && On(s, b, x) ==> x == Some(p);
      assert On(s, b, None) <==> b in s.free;
    }
    OwnedTransfer(s, s', moved, None);
  }

  lemma FreeTailSane(s: State, p: nat)
    requires Inv(s) && p in s.pools
    ensures Sane(FreeTail(s, p))
  {
    var s' := FreeTail(s, p);
    assert ChainOk(s, p);
    forall q | q in s'.pools ensures ChainOk(s', q) {
      assert ChainOk(s, q);
    }
  }

  lemma FreeTailTree(s: State, p: nat)
    requires Inv(s) && p in s.pools
    ensures TreeOk(FreeTail(s, p).pools, s.clock)
  {
    SameTree(s.pools, FreeTail(s, p).pools, s.clock);
  }

  lemma FreeTailOwned(s: State, p: nat)
    requires Inv(s) && p in s.pools
    ensures Owned(FreeTail(s, p))
  {
    var s', c := FreeTail(s, p), s.pools[p].chain;
    assert NoDup(ListOf(s, Some(p))) && ListOf(s, Some(p)) == c;
    HeadAndTail(c);
    forall b | b in c[1..] ensures On(s, b, Some(p)) {}
    ReleaseOwned(s, s', p, c[1..]);
  }

  lemma HeadAndTail(c: seq<nat>)
    requires NoDup(c) && c != []
    ensures NoDup(c[1..]) && NoDup([c[0]])
    ensures forall b :: b in [c[0]] <==> b !in c[1..] && b in c
  {
    assert c == [c[0]] + c[1..];
  }

  /** What clearing a pool without sub-pools does to blocks and lists. */
  lemma FreeTailParts(s: State, p: nat)
    requires Inv(s) && p in s.pools
    ensures Sane(s) && s.pools[p].chain != [] && s.pools[p].chain[0] == p && p !in s.pools[p].chain[1..]
    ensures var s', c := FreeTail(s, p), s.pools[p].chain;
            && |s'.blocks| == |s.blocks| && s'.free == c[1..] + s.free && s'.pools.Keys == s.pools.Keys
            && (forall q :: q in s.pools && q != p ==> s'.pools[q] == s.pools[q])
            && s'.pools[p].chain == [p] && s'.pools[p].log == []
            && (forall b :: 0 <= b < |s.blocks| ==>
                 s'.blocks[b] == if b == p then Block(s.blocks[b].cap, POOL_HDR)
                                 else if b in c[1..] then Block(s.blocks[b].cap, 0) else s.blocks[b])
  {
    assert FilledPool(s.blocks, p, s.pools[p]) && NoDup(ListOf(s, Some(p)));
    HeadAndTail(s.pools[p].chain);
    assert p in [s.pools[p].chain[0]];
  }

  lemma OtherStaysFilled(s: State, p: nat, q: nat)
    requires Inv(s) && p in s.pools && q in s.pools && q != p
    ensures Sane(s) && q in FreeTail(s, p).pools && FilledPool(FreeTail(s, p).blocks, q, FreeTail(s, p).pools[q])
  {
    hide *;
    InvParts(s);
    FreeTailParts(s, p);
    FilledOf(s, q);
    FilledParts(s.blocks, q, s.pools[q]);
    var s', c, d := FreeTail(s, p), s.pools[p].chain, s.pools[q].chain;
    forall i | 0 <= i < |d| ensures s'.blocks[d[i]] == s.blocks[d[i]] {
      NotInOther(s, p, q, i);
    }
    FilledFrame(s.blocks, s'.blocks, q, s.pools[q], s'.pools[q]);
  }

  /** A block of one pool is none of another's. */
  lemma NotInOther(s: State, p: nat, q: nat, i: nat)
    requires Owned(s) && p in s.pools && q in s.pools && q != p && i < |s.pools[q].chain|
    requires s.pools[p].chain != [] && s.pools[p].chain[0] == p
    ensures s.pools[q].chain[i] !in s.pools[p].chain[1..] && s.pools[q].chain[i] != p
  {
    assert On(s, s.pools[q].chain[i], Some(q)) && On(s, p, Some(p));
    assert s.pools[q].chain[i] in s.pools[p].chain[1..] ==> On(s, s.pools[q].chain[i], Some(p));
  }

  lemma FreedIsEmpty(s: State, p: nat, b: nat)
    requires Inv(s) && p in s.pools && b in s.pools[p].chain[1..] + s.free
    ensures Sane(s) && Empty(FreeTail(s, p).blocks, b)
  {
    FreeTailParts(s, p);
    hide TreeOk, FreeTail, Serves;
    assert On(s, p, Some(p));
    if b in s.free {
      assert Empty(s.blocks, b) && On(s, b, None);
      assert b in s.pools[p].chain ==> On(s, b, Some(p));
    } else {
      assert ChainOk(s, p);
    }
  }

  lemma FreeTailFilled(s: State, p: nat)
    requires Inv(s) && p in s.pools
    ensures Filled(FreeTail(s, p))
  {
    hide *;
    InvParts(s);
    FreeTailParts(s, p);
    var s' := FreeTail(s, p);
    forall q | q in s'.pools ensures FilledPool(s'.blocks, q, s'.pools[q]) {
      if q != p {
        OtherStaysFilled(s, p, q);
      } else {
        FilledOf(s, p);
        FirstOnlyFilled(s, p);
      }
    }
    forall b | b in s'.free ensures Empty(s'.blocks, b) {
      FreedIsEmpty(s, p, b);
    }
    AllFilled(s');
  }

  lemma FirstOnlyFilled(s: State, p: nat)
    requires Inv(s) && p in s.pools
    ensures Sane(s) && p in FreeTail(s, p).pools && FilledPool(FreeTail(s, p).blocks, p, FreeTail(s, p).pools[p])
  {
    assert FilledPool(s.blocks, p, s.pools[p]);
    hide TreeOk, Owned;
  }

  lemma FreeTailInv(s: State, p: nat)
    requires Inv(s) && p in s.pools
    ensures Inv(FreeTail(s, p))
  {
    FreeTailSane(s, p);
    FreeTailTree(s, p);
    FreeTailOwned(s, p);
    FreeTailFilled(s, p);
  }

  // ---- A pool without sub-pools goes away ----

  lemma DropLeafSane(s: State, p: nat)
    requires Inv(s) && p in s.pools
    ensures Sane(DropLeaf(s, p))
  {
    var s' := DropLeaf(s, p);
    assert ChainOk(s, p);
    forall q | q in s'.pools ensures ChainOk(s', q) {
      assert ChainOk(s, q);
    }
  }

  lemma DropLeafTree(s: State, p: nat)
    requires Inv(s) && p in s.pools && s.pools[p].kids == []
    ensures TreeOk(DropLeaf(s, p).pools, s.clock)
  {
    var pools, pools' := s.pools, DropLeaf(s, p).pools;
    forall q: nat ensures NodeOk(pools', s.clock, q) {
      assert NodeOk(pools, s.clock, q);
      if q in pools { WithoutMembers(pools[q].kids, p); }
    }
    forall q ensures ParentOk(pools', q) {
      assert ParentOk(pools, q);
      if q in pools' && pools[q].parent.Some? {
        assert NodeOk(pools, s.clock, pools[q].parent.value);
        WithoutMembers(pools[pools[q].parent.value].kids, p);
      }
    }
    forall q, k ensures KidOk(pools', q, k) {
      assert KidOk(pools, q, k) && KidOk(pools, q, p) && NodeOk(pools, s.clock, q);
      if q in pools' { WithoutMembers(pools[q].kids, p); }
    }
  }

  lemma DropLeafOwned(s: State, p: nat)
    requires Inv(s) && p in s.pools
    ensures Owned(DropLeaf(s, p))
  {
    assert NoDup(ListOf(s, Some(p)));
    ReleaseOwned(s, DropLeaf(s, p), p, s.pools[p].chain);
  }

  lemma DropLeafFilled(s: State, p: nat)
    requires Inv(s) && p in s.pools
    ensures Filled(DropLeaf(s, p))
  {
    var s', c := DropLeaf(s, p), s.pools[p].chain;
    forall q | q in s'.pools ensures FilledPool(s'.blocks, q, s'.pools[q]) {
      var d := s.pools[q].chain;
      assert FilledPool(s.blocks, q, s.pools[q]);
      forall i | 0 <= i < |d| ensures s'.blocks[d[i]] == s.blocks[d[i]] {
        assert On(s, d[i], Some(q));
        assert d[i] in c ==> On(s, d[i], Some(p));
      }
      FilledFrame(s.blocks, s'.blocks, q, s.pools[q], s'.pools[q]);
    }
    assert ChainOk(s, p);
    forall b | b in s'.free ensures Empty(s'.blocks, b) {
      if b in s.free { assert Empty(s.blocks, b); }
    }
  }

  lemma DropLeafInv(s: State, p: nat)
    requires Inv(s) && p in s.pools && s.pools[p].kids == []
    ensures Inv(DropLeaf(s, p))
  {
    DropLeafSane(s, p);
    DropLeafTree(s, p);
    DropLeafOwned(s, p);
    DropLeafFilled(s, p);
  }

  // ---- clear_pool and destroy_pool ----

  lemma {:induction false} ClearInv(s: State, p: nat)
    requires Inv(s) && p in s.pools
    ensures Inv(Clear(s, p))
    decreases s.clock - s.pools[p].stamp, |s.pools[p].kids|, 0
  {
    assert NodeOk(s.pools, s.clock, p);
    if s.pools[p].kids == [] {
      ClearLeaf(s, p);
      FreeTailInv(s, p);
    } else {
      var k := s.pools[p].kids[0];
      KidFacts(s.pools, s.clock, p, k);
      DestroyInv(s, k);
      ClearStep(s, p, k);
      ParentAfterKid(s, p, k);
      ClearInv(Destroy(s, k), p);
    }
  }

  lemma {:induction false} DestroyInv(s: State, p: nat)
    requires Inv(s) && p in s.pools
    ensures Inv(Destroy(s, p))
    decreases s.clock - s.pools[p].stamp, |s.pools[p].kids|, 1
  {
    ClearInv(s, p);
    DestroyFromClear(s, p);
    DropLeafInv(Clear(s, p), p);
  }

  // ---- Runs ----

  datatype Op = MakeOp(parent: Option<nat>) | PallocOp(pool: nat, n: int) | ClearOp(pool: nat) | DestroyOp(pool: nat)

  predicate Can(s: State, op: Op)
    requires Sane(s)
  {
    match op
    case MakeOp(parent) => parent.Some? ==> parent.value in s.pools
    case PallocOp(p, n) => p in s.pools && (n > 0 ==> IntSafe(s, p, n))
    case ClearOp(p) => p in s.pools
    case DestroyOp(p) => p in s.pools
  }

  /** One call; palloc of a size that is not positive returns NULL and does nothing.
      Every call keeps the invariant. */
  ghost function Do(s: State, op: Op): (r: State)
    requires Inv(s) && Can(s, op)
    ensures Inv(r)
  {
    match op
    case MakeOp(parent) => MakeSubInv(s, parent); MakeSub(s, parent)
    case PallocOp(p, n) => if n > 0 then PallocInv(s, p, n); Palloc(s, p, n) else s
    case ClearOp(p) => ClearInv(s, p); Clear(s, p)
    case DestroyOp(p) => DestroyInv(s, p); Destroy(s, p)
  }

  /** s' is reached from s by the calls ops. */
  ghost predicate Runs(s: State, ops: seq<Op>, s': State)
    requires Inv(s)
    decreases |ops|
  {
    if ops == [] then s' == s
    else Can(s, ops[0]) && Runs(Do(s, ops[0]), ops[1..], s')
  }

  /** Reachable from the state before any call. */
  ghost predicate Reachable(s: State) {
    InitInv();
    exists ops :: Runs(Init(), ops, s)
  }

  lemma {:induction false} RunInv(s: State, ops: seq<Op>, s': State)
    requires Inv(s) && Runs(s, ops, s')
    ensures Inv(s')
    decreases |ops|
  {
    if ops != [] {
      RunInv(Do(s, ops[0]), ops[1..], s');
    }
  }

  lemma ReachableInv(s: State)
    requires Reachable(s)
    ensures Inv(s)
  {
    InitInv();
    var ops :| Runs(Init(), ops, s);
    RunInv(Init(), ops, s);
  }
}
