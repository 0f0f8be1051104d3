/** Every byte obtained from malloc is accounted for, and the int arithmetic of a request
    does not overflow when the request leaves room for the headers. */
module PoolAccounting {
  import opened Sequences
  import opened PoolModel
  import opened PoolTree
  import opened PoolInv
  import opened PoolSteps
  import opened PoolRuns

  // ---- Ownership ----

  /** Every block ever obtained from malloc is on exactly one list, the free list or one
      live pool's chain, at one position; free blocks have first_avail at their start. */
  lemma EveryBlockHasOnePlace(s: State, b: nat)
    requires Inv(s) && b < |s.blocks|
    ensures exists x, i :: 0 <= i < |ListOf(s, x)| && ListOf(s, x)[i] == b
    ensures forall x, i, y, j ::
            0 <= i < |ListOf(s, x)| && 0 <= j < |ListOf(s, y)| && ListOf(s, x)[i] == b && ListOf(s, y)[j] == b ==>
              x == y && i == j
    ensures b in s.free ==> s.blocks[b].avail == 0
  {
    assert Placed(s, b);
    var x :| On(s, b, x);
    var i :| 0 <= i < |ListOf(s, x)| && ListOf(s, x)[i] == b;
    forall x, i, y, j | 0 <= i < |ListOf(s, x)| && 0 <= j < |ListOf(s, y)| && ListOf(s, x)[i] == b
        && ListOf(s, y)[j] == b
      ensures x == y && i == j
    {
      assert On(s, b, x) && On(s, b, y) && NoDup(ListOf(s, x));
    }
    assert b in s.free ==> Empty(s.blocks, b);
  }

  // ---- Conservation ----

  /** The usable bytes of the first n blocks obtained from malloc. */
  function Total(blocks: seq<Block>, n: nat): nat
    requires n <= |blocks|
  {
    if n == 0 then 0 else Total(blocks, n - 1) + blocks[n - 1].cap
  }

  lemma BytesWithout(blocks: seq<Block>, list: seq<nat>, k: nat)
    requires InRange(list, |blocks|) && k < |list|
    ensures InRange(list[..k] + list[k + 1..], |blocks|)
    ensures BytesIn(blocks, list) == BytesIn(blocks, list[..k] + list[k + 1..]) + blocks[list[k]].cap
  {
    assert list == list[..k] + list[k..] && list[k..][1..] == list[k + 1..];
    BytesSplit(blocks, list[..k], list[k + 1..]);
    BytesSplit(blocks, list[..k], list[k..]);
  }

  /** The list holds the blocks below n and no other. */
  ghost predicate HoldsFirst(list: seq<nat>, n: nat) {
    forall b: nat :: b in list <==> b < n
  }

  lemma WithoutTop(list: seq<nat>, k: nat, n: nat, rest: seq<nat>)
    requires NoDup(list) && k < |list| && HoldsFirst(list, n) && n > 0 && list[k] == n - 1
    requires rest == list[..k] + list[k + 1..]
    ensures NoDup(rest) && HoldsFirst(rest, n - 1)
  {
    assert list == list[..k] + [list[k]] + list[k + 1..];
    forall b: nat ensures b in rest <==> b in list && b != list[k] {}
  }

  /** A list of the first n blocks, each once and in any order, holds their bytes. */
  lemma {:induction false} BytesOfAll(blocks: seq<Block>, list: seq<nat>, n: nat)
    requires n <= |blocks| && NoDup(list) && HoldsFirst(list, n)
    ensures InRange(list, |blocks|) && BytesIn(blocks, list) == Total(blocks, n)
    decreases n
  {
    forall i | 0 <= i < |list| ensures list[i] < n { assert list[i] in list; }
    if n == 0 {
      assert list == [];
    } else {
      assert n - 1 in list;
      var k :| 0 <= k < |list| && list[k] == n - 1;
      var rest := list[..k] + list[k + 1..];
      WithoutTop(list, k, n, rest);
      BytesOfAll(blocks, rest, n - 1);
      BytesWithout(blocks, list, k);
    }
  }

  /** The chains of the pools ps, one after the other. */
  ghost function ChainedBlocks(s: State, ps: seq<nat>): seq<nat>
    requires forall i :: 0 <= i < |ps| ==> ps[i] in s.pools
  {
    if ps == [] then [] else s.pools[ps[0]].chain + ChainedBlocks(s, ps[1..])
  }

  /** The sum of bytes_in_pool over the pools ps. */
  ghost function BytesInPools(s: State, ps: seq<nat>): nat
    requires Sane(s) && forall i :: 0 <= i < |ps| ==> ps[i] in s.pools
  {
    if ps == [] then 0
    else
      assert ChainOk(s, ps[0]);
      BytesIn(s.blocks, s.pools[ps[0]].chain) + BytesInPools(s, ps[1..])
  }

  lemma PoolChain(s: State, p: nat)
    requires Inv(s) && p in s.pools
    ensures InRange(s.pools[p].chain, |s.blocks|) && NoDup(s.pools[p].chain)
  {
    assert ChainOk(s, p) && NoDup(ListOf(s, Some(p)));
  }

  /** What is on the chains of several pools. */
  lemma {:induction false} ChainedMembers(s: State, ps: seq<nat>, b: nat)
    requires Sane(s) && forall i :: 0 <= i < |ps| ==> ps[i] in s.pools
    ensures b in ChainedBlocks(s, ps) <==> exists i :: 0 <= i < |ps| && On(s, b, Some(ps[i]))
    decreases |ps|
  {
    if ps != [] {
      var p, r := ps[0], ps[1..];
      hide Sane;
      ChainedMembers(s, r, b);
      assert On(s, b, Some(ps[0])) <==> b in s.pools[p].chain;
      assert forall i :: 0 <= i < |r| ==> On(s, b, Some(r[i])) == On(s, b, Some(ps[i + 1]));
      if i :| 0 <= i < |ps| && On(s, b, Some(ps[i])) {
        if i > 0 { assert On(s, b, Some(r[i - 1])); }
      }
    }
  }

  /** A block of one pool is on no other pool's chain. */
  lemma FirstApart(s: State, ps: seq<nat>, b: nat)
    requires Inv(s) && ps != [] && NoDup(ps) && (forall i :: 0 <= i < |ps| ==> ps[i] in s.pools)
    requires b in s.pools[ps[0]].chain
    ensures b !in ChainedBlocks(s, ps[1..])
  {
    var r := ps[1..];
    ChainedMembers(s, r, b);
    assert On(s, b, Some(ps[0]));
    forall i | 0 <= i < |r| ensures !On(s, b, Some(r[i])) {
      assert r[i] == ps[i + 1] && r[i] != ps[0];
    }
  }

  lemma {:induction false} ChainedFacts(s: State, ps: seq<nat>)
    requires Inv(s) && NoDup(ps) && forall i :: 0 <= i < |ps| ==> ps[i] in s.pools
    ensures var l := ChainedBlocks(s, ps);
            && NoDup(l) && InRange(l, |s.blocks|)
            && (forall b :: b in l <==> exists i :: 0 <= i < |ps| && On(s, b, Some(ps[i])))
            && BytesIn(s.blocks, l) == BytesInPools(s, ps)
  {
    hide *;
    InvParts(s);
    forall b ensures b in ChainedBlocks(s, ps) <==> exists i :: 0 <= i < |ps| && On(s, b, Some(ps[i])) {
      ChainedMembers(s, ps, b);
    }
    if ps == [] {
      NoChains(s);
    } else {
      var p, r := ps[0], ps[1..];
      var c := s.pools[p].chain;
      FirstChained(s, ps);
      ChainedFacts(s, r);
      PoolChain(s, p);
      BytesSplit(s.blocks, c, ChainedBlocks(s, r));
      forall b | b in c ensures b !in ChainedBlocks(s, r) {
        FirstApart(s, ps, b);
      }
      PrependNoDup(c, ChainedBlocks(s, r));
    }
  }

  lemma NoChains(s: State)
    requires Sane(s)
    ensures ChainedBlocks(s, []) == [] && BytesInPools(s, []) == 0
    ensures NoDup([]) && InRange([], |s.blocks|) && BytesIn(s.blocks, []) == 0
  {
  }

  lemma FirstChained(s: State, ps: seq<nat>)
    requires Sane(s) && ps != [] && NoDup(ps) && forall i :: 0 <= i < |ps| ==> ps[i] in s.pools
    ensures NoDup(ps[1..]) && forall i :: 0 <= i < |ps[1..]| ==> ps[1..][i] in s.pools
    ensures InRange(s.pools[ps[0]].chain, |s.blocks|)
    ensures ChainedBlocks(s, ps) == s.pools[ps[0]].chain + ChainedBlocks(s, ps[1..])
    ensures BytesInPools(s, ps) == BytesIn(s.blocks, s.pools[ps[0]].chain) + BytesInPools(s, ps[1..])
  {
    assert ChainOk(s, ps[0]);
    assert forall i :: 0 <= i < |ps[1..]| ==> ps[1..][i] == ps[i + 1];
  }

  /** In every state that keeps the invariant, so in every reachable one, and for every
      enumeration of the live pools: the free bytes and the bytes of all pools sum to
      everything ever obtained from malloc. */
  lemma Conservation(s: State, ps: seq<nat>)
    requires Inv(s) && NoDup(ps) && forall p :: p in ps <==> p in s.pools
    ensures Sane(s) && BytesIn(s.blocks, s.free) + BytesInPools(s, ps) == Total(s.blocks, |s.blocks|)
  {
    ChainedFacts(s, ps);
    var l := ChainedBlocks(s, ps);
    forall b | b in s.free ensures b !in l {
      assert On(s, b, None);
    }
    assert NoDup(ListOf(s, None));
    PrependNoDup(s.free, l);
    BytesSplit(s.blocks, s.free, l);
    forall b: nat ensures b in s.free + l <==> b < |s.blocks| {
      if b < |s.blocks| {
        assert Placed(s, b);
        var x :| On(s, b, x);
        if x.Some? {
          assert x.value in ps;
          var i :| 0 <= i < |ps| && ps[i] == x.value;
          assert On(s, b, Some(ps[i]));
        }
      }
    }
    BytesOfAll(s.blocks, s.free + l, |s.blocks|);
  }

  /** No call changes the size of a block, and only a malloc adds one: so the total moves
      exactly by the size of the block malloc gives, at most one a call. */
  lemma TotalChangesByMallocOnly(s: State, op: Op)
    requires Inv(s) && Can(s, op)
    ensures var s' := Do(s, op);
            && |s.blocks| <= |s'.blocks| <= |s.blocks| + 1
            && Total(s'.blocks, |s'.blocks|) ==
               Total(s.blocks, |s.blocks|) + (if |s'.blocks| > |s.blocks| then s'.blocks[|s.blocks|].cap else 0)
  {
    var s' := Do(s, op);
    CapsKept(s, op);
    TotalFrame(s.blocks, s'.blocks, |s.blocks|);
  }

  lemma {:induction false} TotalFrame(blocks: seq<Block>, blocks': seq<Block>, n: nat)
    requires n <= |blocks| && n <= |blocks'|
    requires forall i :: 0 <= i < n ==> blocks'[i].cap == blocks[i].cap
    ensures Total(blocks', n) == Total(blocks, n)
  {
    if n > 0 {
      TotalFrame(blocks, blocks', n - 1);
    }
  }

  lemma CapsKept(s: State, op: Op)
    requires Inv(s) && Can(s, op)
    ensures var s' := Do(s, op);
            && |s.blocks| <= |s'.blocks| <= |s.blocks| + 1
            && (forall i :: 0 <= i < |s.blocks| ==> s'.blocks[i].cap == s.blocks[i].cap)
  {
    hide TreeOk, Owned, Filled, FirstFit;
    match op
    case MakeOp(parent) => NewBlockFacts(s, POOL_HDR);
    case PallocOp(p, n) =>
      if n > 0 {
        RoundUpIsLeast(n);
        NewBlockFacts(s, RoundUp(n));
      }
    case ClearOp(p) =>
    case DestroyOp(p) =>
  }

  // ---- int arithmetic ----

  function Wrap32(x: int): int {
    (x + 0x8000_0000) % 0x1_0000_0000 - 0x8000_0000
  }

  /** The int values palloc, new_block and malloc_block compute for a request, each
      wrapped to 32 bits as the machine would. */
  function CRounded(n: int): int {
    Wrap32(Wrap32(1 + (n - 1) / CLICK_SZ) * CLICK_SZ)
  }

  function CNeeded(n: int): int {
    Wrap32(CRounded(n) + BLOCK_MINFREE)
  }

  function CMalloced(n: int): int {
    Wrap32(Max(CNeeded(n), BLOCK_MINALLOC) + BLOCK_HDR)
  }

  /** No header comes anywhere near the range of an int. */
  predicate SmallHeaders() {
    CLICK_SZ <= 0x1_0000 && BLOCK_HDR <= 0x1_0000
  }

  lemma WrapsBeyond(x: int)
    requires 0 <= x <= INT_MAX + 0x1_0000_0000
    ensures Wrap32(x) == x <==> x <= INT_MAX
  {
  }

  /** For a positive int request the machine's values are the mathematical ones exactly
      when the rounded request, the spare bytes and the block header fit in an int; what
      palloc itself computes, exactly when the rounded request does. */
  lemma NoOverflow(n: int)
    requires 0 < n <= INT_MAX && SmallHeaders()
    ensures CRounded(n) == RoundUp(n) <==> RoundUp(n) <= INT_MAX
    ensures && CRounded(n) == RoundUp(n)
            && CNeeded(n) == RoundUp(n) + BLOCK_MINFREE
            && CMalloced(n) == Max(RoundUp(n) + BLOCK_MINFREE, BLOCK_MINALLOC) + BLOCK_HDR
            <==> FitsInt(n)
  {
    RoundUpIsLeast(n);
    var q := (n - 1) / CLICK_SZ;
    QuotientBound(n - 1);
    WrapsBeyond(1 + q);
    WrapsBeyond(RoundUp(n));
    if RoundUp(n) <= INT_MAX {
      WrapsBeyond(RoundUp(n) + BLOCK_MINFREE);
      WrapsBeyond(Max(RoundUp(n) + BLOCK_MINFREE, BLOCK_MINALLOC) + BLOCK_HDR);
    }
  }

  lemma QuotientBound(x: nat)
    ensures 0 <= x / CLICK_SZ <= x
  {
    var q := x / CLICK_SZ;
    assert x == q * CLICK_SZ + x % CLICK_SZ;
    if q < 0 {
      MulMono(q, -1);
    } else {
      MulAtLeast(q);
    }
  }

  lemma {:induction false} MulAtLeast(q: nat)
    ensures q <= q * CLICK_SZ
  {
    if q > 0 {
      MulAtLeast(q - 1);
      Distribute(q - 1, 1);
    }
  }
}
