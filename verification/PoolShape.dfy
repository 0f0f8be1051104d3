/** How the links in memory spell out the model: the free list, the chains of blocks and
    the doubly linked lists of sub-pools, as predicates on the values of the pointers,
    and how each operation's pointer writes keep them. */
module PoolShape {
  import opened Sequences
  import opened PoolModel
  import opened PoolTree
  import opened PoolInv
  import opened PoolSteps
  import opened PoolRuns
  import opened PoolBlocks

  /** struct pool. */
  class PoolHdr {
    var first: BlockHdr
    var last: BlockHdr
    var subPools: PoolHdr?
    var subNext: PoolHdr?
    var subPrev: PoolHdr?
    var parent: PoolHdr?
    var freeFirstAvail: nat

    constructor (blok: BlockHdr, freeFirstAvail: nat)
      ensures Rec() == PoolRec(blok, blok, null, null, null, null, freeFirstAvail)
    {
      first, last := blok, blok;
      subPools, subNext, subPrev, parent := null, null, null, null;
      this.freeFirstAvail := freeFirstAvail;
    }

    /** The fields as they are now. */
    ghost function Rec(): PoolRec
      reads this
    {
      PoolRec(first, last, subPools, subNext, subPrev, parent, freeFirstAvail)
    }
  }

  datatype PoolRec = PoolRec(first: BlockHdr, last: BlockHdr, subPools: PoolHdr?, subNext: PoolHdr?, subPrev: PoolHdr?,
                             parent: PoolHdr?, freeFirstAvail: nat)

  // ---- The shape ----

  ghost predicate ChainV(made: seq<BlockHdr>, nexts: seq<BlockHdr?>, r: PoolRec, p: nat, chain: seq<nat>) {
    && p < |made| && r.first == made[p] && r.freeFirstAvail == POOL_HDR
    && chain != [] && Linked(made, nexts, r.first, chain) && r.last == made[chain[|chain| - 1]]
  }

  ghost predicate Chains(made: seq<BlockHdr>, nexts: seq<BlockHdr?>, recs: map<nat, PoolRec>, pools: map<nat, Pool>) {
    && recs.Keys == pools.Keys
    && forall p {:trigger ChainV(made, nexts, recs[p], p, pools[p].chain)} :: p in pools ==>
         ChainV(made, nexts, recs[p], p, pools[p].chain)
  }

  /** The pool at position i of a list of pool addresses, or NULL outside it. */
  ghost function SubAt(live: map<nat, PoolHdr>, ks: seq<nat>, i: int): PoolHdr? {
    if 0 <= i < |ks| && ks[i] in live then live[ks[i]] else null
  }

  /** sub_next and sub_prev lead through the list both ways. */
  ghost predicate Siblings(live: map<nat, PoolHdr>, recs: map<nat, PoolRec>, ks: seq<nat>) {
    forall i {:trigger recs[ks[i]]} :: 0 <= i < |ks| ==>
      && ks[i] in recs
      && recs[ks[i]].subNext == SubAt(live, ks, i + 1)
      && recs[ks[i]].subPrev == SubAt(live, ks, i - 1)
  }

  ghost predicate PlaceV(live: map<nat, PoolHdr>, recs: map<nat, PoolRec>, r: PoolRec, pool: Pool) {
    && r.subPools == SubAt(live, pool.kids, 0)
    && Siblings(live, recs, pool.kids)
    && (if pool.parent.Some? then pool.parent.value in live && r.parent == live[pool.parent.value]
        else r.parent == null && r.subNext == null && r.subPrev == null)
  }

  /** No two live pools share a header. */
  ghost predicate Distinct(live: map<nat, PoolHdr>) {
    forall p, q {:trigger live[p], live[q]} :: p in live && q in live && live[p] == live[q] ==> p == q
  }

  /** parent, sub_pools, sub_next and sub_prev describe the forest of the model. */
  ghost predicate Places(live: map<nat, PoolHdr>, recs: map<nat, PoolRec>, pools: map<nat, Pool>) {
    && live.Keys == pools.Keys && recs.Keys == pools.Keys
    && (forall p {:trigger PlaceV(live, recs, recs[p], pools[p])} :: p in pools ==>
         PlaceV(live, recs, recs[p], pools[p]))
    && Distinct(live)
  }

  /** Memory spells out the state s, which keeps the invariant. */
  ghost predicate Good(made: seq<BlockHdr>, nexts: seq<BlockHdr?>, head: BlockHdr?, live: map<nat, PoolHdr>,
                       recs: map<nat, PoolRec>, s: State)
  {
    && |s.blocks| == |made| && Linked(made, nexts, head, s.free)
    && Chains(made, nexts, recs, s.pools) && Places(live, recs, s.pools) && Inv(s)
  }

  /** What a live pool's own fields say. */
  lemma GoodPool(made: seq<BlockHdr>, nexts: seq<BlockHdr?>, head: BlockHdr?, live: map<nat, PoolHdr>,
                 recs: map<nat, PoolRec>, s: State, p: nat)
    requires Good(made, nexts, head, live, recs, s) && p in live
    ensures p in s.pools && p in recs && Inv(s)
    ensures var c, r := s.pools[p].chain, recs[p];
            && c != [] && c[0] == p && InRange(c, |made|) && NoDup(c) && NoDup(s.free)
            && r.first == made[p] && r.last == made[c[|c| - 1]] && r.freeFirstAvail == POOL_HDR
            && Linked(made, nexts, r.first, c)
            && (forall b :: b in c ==> b !in s.free)
    ensures PlaceV(live, recs, recs[p], s.pools[p])
  {
    assert ChainV(made, nexts, recs[p], p, s.pools[p].chain) && FilledPool(s.blocks, p, s.pools[p]);
    assert PlaceV(live, recs, recs[p], s.pools[p]);
    assert NoDup(ListOf(s, Some(p))) && NoDup(ListOf(s, None));
    forall b | b in s.pools[p].chain ensures b !in s.free {
      assert On(s, b, Some(p));
      assert b in s.free ==> On(s, b, None);
    }
  }

  // ---- What an operation leaves alone ----

  /** A pool's chain is kept when its fields and the links of its blocks are. */
  lemma ChainKept(made: seq<BlockHdr>, nexts: seq<BlockHdr?>, made': seq<BlockHdr>, nexts': seq<BlockHdr?>,
                  r: PoolRec, r': PoolRec, p: nat, chain: seq<nat>)
    requires ChainV(made, nexts, r, p, chain) && |nexts'| == |made'|
    requires r'.first == r.first && r'.last == r.last && r'.freeFirstAvail == r.freeFirstAvail
    requires |made| <= |made'| && forall i :: 0 <= i < |made| ==> made'[i] == made[i]
    requires forall i :: 0 <= i < |chain| ==> nexts'[chain[i]] == nexts[chain[i]]
    ensures ChainV(made', nexts', r', p, chain)
  {
    SegmentKept(made, nexts, made', nexts', r.first, chain, null);
  }

  /** A pool's place is kept when the fields that say it are, in it and in its sub-pools. */
  lemma PlaceKept(live: map<nat, PoolHdr>, recs: map<nat, PoolRec>, live': map<nat, PoolHdr>,
                  recs': map<nat, PoolRec>, p: nat, pool: Pool, pool': Pool)
    requires p in recs && p in recs' && PlaceV(live, recs, recs[p], pool)
    requires pool'.kids == pool.kids && pool'.parent == pool.parent
    requires recs'[p].subPools == recs[p].subPools && recs'[p].parent == recs[p].parent
    requires pool.parent == None ==> recs'[p].subNext == recs[p].subNext && recs'[p].subPrev == recs[p].subPrev
    requires pool.parent.Some? ==> pool.parent.value in live' && live'[pool.parent.value] == live[pool.parent.value]
    requires forall k :: k in pool.kids ==> k in live && k in live' && live'[k] == live[k] && k in recs && k in recs'
    requires forall k :: k in pool.kids ==> recs'[k].subNext == recs[k].subNext && recs'[k].subPrev == recs[k].subPrev
    ensures PlaceV(live', recs', recs'[p], pool')
  {
    var ks := pool.kids;
    forall i: int ensures SubAt(live', ks, i) == SubAt(live, ks, i) {
      assert 0 <= i < |ks| ==> ks[i] in ks;
    }
    forall i: nat | i < |ks|
      ensures ks[i] in recs' && recs'[ks[i]].subNext == SubAt(live', ks, i + 1)
      ensures recs'[ks[i]].subPrev == SubAt(live', ks, i - 1)
    {
      assert ks[i] in ks && recs[ks[i]].subNext == SubAt(live, ks, i + 1);
    }
  }

  /** The links that say where pools are do not change, nor do the tree fields of the model. */
  lemma PlacesSame(live: map<nat, PoolHdr>, recs: map<nat, PoolRec>, recs': map<nat, PoolRec>, s: State,
                   pools': map<nat, Pool>)
    requires Places(live, recs, s.pools) && Inv(s) && recs'.Keys == recs.Keys && pools'.Keys == s.pools.Keys
    requires forall p :: p in recs ==> recs'[p].(last := recs[p].last) == recs[p]
    requires forall p :: p in s.pools ==> pools'[p].kids == s.pools[p].kids && pools'[p].parent == s.pools[p].parent
    ensures Places(live, recs', pools')
  {
    forall p | p in pools' ensures PlaceV(live, recs', recs'[p], pools'[p]) {
      assert PlaceV(live, recs, recs[p], s.pools[p]);
      forall k | k in s.pools[p].kids ensures k in live {
        KidFacts(s.pools, s.clock, p, k);
      }
      SameButLast(recs, recs');
      PlaceKept(live, recs, live, recs', p, s.pools[p], pools'[p]);
    }
  }

  lemma SameButLast(recs: map<nat, PoolRec>, recs': map<nat, PoolRec>)
    requires recs'.Keys == recs.Keys && forall p :: p in recs ==> recs'[p].(last := recs[p].last) == recs[p]
    ensures forall p :: p in recs ==>
              && recs'[p].subPools == recs[p].subPools && recs'[p].parent == recs[p].parent
              && recs'[p].subNext == recs[p].subNext && recs'[p].subPrev == recs[p].subPrev
              && recs'[p].first == recs[p].first && recs'[p].freeFirstAvail == recs[p].freeFirstAvail
  {
    forall p | p in recs
      ensures && recs'[p].subPools == recs[p].subPools && recs'[p].parent == recs[p].parent
              && recs'[p].subNext == recs[p].subNext && recs'[p].subPrev == recs[p].subPrev
              && recs'[p].first == recs[p].first && recs'[p].freeFirstAvail == recs[p].freeFirstAvail
    {
      var r, r' := recs[p], recs'[p];
      assert r'.(last := r.last).subNext == r.subNext && r'.(last := r.last).first == r.first;
      assert r'.(last := r.last).subPrev == r.subPrev && r'.(last := r.last).parent == r.parent;
      assert r'.(last := r.last).subPools == r.subPools && r'.(last := r.last).freeFirstAvail == r.freeFirstAvail;
    }
  }

  // ---- palloc ----

  /** Filling up the last block changes no link. */
  lemma GoodHere(made: seq<BlockHdr>, nexts: seq<BlockHdr?>, head: BlockHdr?, live: map<nat, PoolHdr>,
                 recs: map<nat, PoolRec>, s: State, p: nat, n: nat)
    requires Good(made, nexts, head, live, recs, s) && p in s.pools && n > 0 && FitsLast(s, p, RoundUp(n))
    ensures Good(made, nexts, head, live, recs, PallocHere(s, p, n))
  {
    var s' := PallocHere(s, p, n);
    PallocInv(s, p, n);
    PlacesSame(live, recs, recs, s, s'.pools);
    forall q | q in s'.pools ensures ChainV(made, nexts, recs[q], q, s'.pools[q].chain) {
      assert ChainV(made, nexts, recs[q], q, s.pools[q].chain);
    }
  }

  /** new_block leaves every chain alone: it touches the free list and fresh memory only. */
  ghost predicate AfterNewBlock(made: seq<BlockHdr>, nexts: seq<BlockHdr?>, made1: seq<BlockHdr>,
                                nexts1: seq<BlockHdr?>, head1: BlockHdr?, s: State, min: nat)
    requires Sane(s)
  {
    && |made1| == |NewBlock(s, min).blocks| == |nexts1| && |made| == |s.blocks| <= |made1| && |nexts| == |made|
    && (forall i :: 0 <= i < |made| ==> made1[i] == made[i])
    && Linked(made1, nexts1, head1, NewBlock(s, min).free)
    && nexts1[ChosenBlock(s, min)] == null
    && (forall i :: 0 <= i < |made| && i !in s.free ==> nexts1[i] == nexts[i])
  }

  lemma ChainsAfterNewBlock(made: seq<BlockHdr>, nexts: seq<BlockHdr?>, head: BlockHdr?, live: map<nat, PoolHdr>,
                            recs: map<nat, PoolRec>, s: State,
                            made1: seq<BlockHdr>, nexts1: seq<BlockHdr?>, head1: BlockHdr?, min: nat, q: nat)
    requires Good(made, nexts, head, live, recs, s) && q in s.pools
    requires AfterNewBlock(made, nexts, made1, nexts1, head1, s, min)
    ensures ChainV(made1, nexts1, recs[q], q, s.pools[q].chain)
    ensures ChosenBlock(s, min) !in s.pools[q].chain
  {
    NewBlockFacts(s, min);
    GoodPool(made, nexts, head, live, recs, s, q);
    assert ChainV(made, nexts, recs[q], q, s.pools[q].chain);
    var c := s.pools[q].chain;
    assert forall i :: 0 <= i < |c| ==> c[i] in c;
    assert !On(s, ChosenBlock(s, min), Some(q));
    ChainKept(made, nexts, made1, nexts1, recs[q], recs[q], q, c);
  }

  /** A pool's chain grows by one block. */
  lemma ChainAppended(made: seq<BlockHdr>, nexts: seq<BlockHdr?>, r: PoolRec, p: nat, c: seq<nat>, b: nat)
    requires ChainV(made, nexts, r, p, c) && NoDup(c) && b < |made| && b !in c && nexts[b] == null
    ensures ChainV(made, nexts[c[|c| - 1] := made[b]], r.(last := made[b]), p, c + [b])
  {
    var nexts' := nexts[c[|c| - 1] := made[b]];
    assert c[|c| - 1] in c;
    SegmentRetarget(made, nexts, r.first, c, null, made[b]);
    assert Segment(made, nexts', made[b], [b], null);
    SegmentConcat(made, nexts', r.first, c, made[b], [b], null);
  }

  /** Appending a block to a pool. */
  lemma GoodNext(made: seq<BlockHdr>, nexts: seq<BlockHdr?>, head: BlockHdr?, live: map<nat, PoolHdr>,
                 recs: map<nat, PoolRec>, s: State,
                 made1: seq<BlockHdr>, nexts1: seq<BlockHdr?>, head1: BlockHdr?, p: nat, n: nat)
    requires Good(made, nexts, head, live, recs, s) && p in s.pools && n > 0 && RoundUp(n) >= 0
    requires !FitsLast(s, p, RoundUp(n))
    requires AfterNewBlock(made, nexts, made1, nexts1, head1, s, RoundUp(n))
    ensures var c, b := s.pools[p].chain, ChosenBlock(s, RoundUp(n));
            && p in recs && c != [] && c[|c| - 1] < |made1| && b < |made1|
            && Good(made1, nexts1[c[|c| - 1] := made1[b]], head1, live, recs[p := recs[p].(last := made1[b])],
                 PallocNext(s, p, n))
  {
    hide *;
    GoodParts(made, nexts, head, live, recs, s);
    PallocInv(s, p, n);
    NextPools(s, p, n);
    GoodPool(made, nexts, head, live, recs, s, p);
    NewBlockLink(made, nexts, made1, nexts1, head1, s, RoundUp(n));
    var s', c, b := PallocNext(s, p, n), s.pools[p].chain, ChosenBlock(s, RoundUp(n));
    var lastb := c[|c| - 1];
    var nexts2, recs2 := nexts1[lastb := made1[b]], recs[p := recs[p].(last := made1[b])];
    PlacesSame(live, recs, recs2, s, s'.pools);
    ChainsNext(made, nexts, head, live, recs, s, made1, nexts1, head1, p, n);
    FreeListKept(s, RoundUp(n), made1, nexts1, head1, p, lastb, made1[b]);
    GoodIs(made1, nexts2, head1, live, recs2, s');
  }

  /** What appending a block does to the pools and the free list. */
  lemma NextPools(s: State, p: nat, n: nat)
    requires Inv(s) && p in s.pools && n > 0 && RoundUp(n) >= 0 && Sane(s) && !FitsLast(s, p, RoundUp(n))
    ensures PallocNext(s, p, n) == Palloc(s, p, n)
    ensures var s', s1, c := PallocNext(s, p, n), NewBlock(s, RoundUp(n)), s.pools[p].chain;
            && s'.free == s1.free && |s'.blocks| == |s1.blocks| && s'.pools.Keys == s.pools.Keys
            && c != [] && On(s, c[|c| - 1], Some(p))
            && forall q :: q in s.pools ==>
                 s'.pools[q].kids == s.pools[q].kids && s'.pools[q].parent == s.pools[q].parent
  {
    assert ChainOk(s, p);
  }

  /** Writing the link of a pool's block does not show on the free list. */
  lemma FreeListKept(s: State, min: nat, made1: seq<BlockHdr>, nexts1: seq<BlockHdr?>, head1: BlockHdr?, p: nat,
                     x: nat, v: BlockHdr?)
    requires Inv(s) && On(s, x, Some(p)) && x < |made1|
    requires Linked(made1, nexts1, head1, NewBlock(s, min).free)
    ensures Linked(made1, nexts1[x := v], head1, NewBlock(s, min).free)
  {
    NewBlockFacts(s, min);
    var f := NewBlock(s, min).free;
    forall i | 0 <= i < |f| ensures f[i] != x {
      assert f[i] in f && On(s, f[i], None);
    }
    SegmentKept(made1, nexts1, made1, nexts1[x := v], head1, f, null);
  }

  lemma ChainsNext(made: seq<BlockHdr>, nexts: seq<BlockHdr?>, head: BlockHdr?, live: map<nat, PoolHdr>,
                   recs: map<nat, PoolRec>, s: State,
                   made1: seq<BlockHdr>, nexts1: seq<BlockHdr?>, head1: BlockHdr?, p: nat, n: nat)
    requires Good(made, nexts, head, live, recs, s) && p in s.pools && n > 0 && RoundUp(n) >= 0
    requires AfterNewBlock(made, nexts, made1, nexts1, head1, s, RoundUp(n))
    ensures var c, b := s.pools[p].chain, ChosenBlock(s, RoundUp(n));
            && p in recs && c != [] && c[|c| - 1] < |made1| && b < |made1|
            && Chains(made1, nexts1[c[|c| - 1] := made1[b]], recs[p := recs[p].(last := made1[b])],
                 PallocNext(s, p, n).pools)
  {
    var s', c, b := PallocNext(s, p, n), s.pools[p].chain, ChosenBlock(s, RoundUp(n));
    GoodPool(made, nexts, head, live, recs, s, p);
    var lastb := c[|c| - 1];
    var nexts2, recs2 := nexts1[lastb := made1[b]], recs[p := recs[p].(last := made1[b])];
    assert On(s, lastb, Some(p));
    forall q | q in s'.pools ensures ChainV(made1, nexts2, recs2[q], q, s'.pools[q].chain) {
      ChainsAfterNewBlock(made, nexts, head, live, recs, s, made1, nexts1, head1, RoundUp(n), q);
      var d := s.pools[q].chain;
      if q == p {
        ChainAppended(made1, nexts1, recs[p], p, c, b);
      } else {
        forall i | 0 <= i < |d| ensures d[i] != lastb {
          assert On(s, d[i], Some(q));
        }
        ChainKept(made1, nexts1, made1, nexts2, recs[q], recs2[q], q, d);
      }
    }
  }

  // ---- make_sub_pool ----

  /** The fields of all pools after make_sub_pool has linked the new one in. */
  ghost function RecsMade(live: map<nat, PoolHdr>, recs: map<nat, PoolRec>, s: State, parent: Option<nat>, b: nat,
                          h: PoolHdr, blok: BlockHdr): map<nat, PoolRec>
    requires parent.Some? ==> parent.value in s.pools && parent.value in recs && parent.value in live
    requires parent.Some? && s.pools[parent.value].kids != [] ==> s.pools[parent.value].kids[0] in recs
  {
    if parent.None? then recs[b := PoolRec(blok, blok, null, null, null, null, POOL_HDR)]
    else
      var q := parent.value;
      var ks := s.pools[q].kids;
      var recs1 := if ks == [] then recs else recs[ks[0] := recs[ks[0]].(subPrev := h)];
      recs1[q := recs1[q].(subPools := h)][b := PoolRec(blok, blok, null, SubAt(live, ks, 0), null, live[q], POOL_HDR)]
  }

  /** What make_sub_pool does to the fields of the pools there were. */
  lemma RecsMadeFacts(live: map<nat, PoolHdr>, recs: map<nat, PoolRec>, s: State, parent: Option<nat>, b: nat,
                      h: PoolHdr, blok: BlockHdr)
    requires Places(live, recs, s.pools) && Inv(s) && b !in s.pools && (parent.Some? ==> parent.value in s.pools)
    ensures parent.Some? && s.pools[parent.value].kids != [] ==>
            s.pools[parent.value].kids[0] in recs && s.pools[parent.value].kids[0] != parent.value
    ensures var recs' := RecsMade(live, recs, s, parent, b, h, blok);
            && recs'.Keys == s.pools.Keys + {b}
            && recs'[b].first == blok && recs'[b].last == blok && recs'[b].freeFirstAvail == POOL_HDR
            && (forall q :: q in s.pools ==>
                  && recs'[q].first == recs[q].first && recs'[q].last == recs[q].last
                  && recs'[q].freeFirstAvail == recs[q].freeFirstAvail
                  && recs'[q].parent == recs[q].parent && recs'[q].subNext == recs[q].subNext
                  && recs'[q].subPools == (if parent == Some(q) then h else recs[q].subPools)
                  && recs'[q].subPrev == (if parent.Some? && s.pools[parent.value].kids != []
                       && q == s.pools[parent.value].kids[0] then h else recs[q].subPrev))
  {
    if parent.Some? && s.pools[parent.value].kids != [] {
      var k := s.pools[parent.value].kids[0];
      assert k in s.pools[parent.value].kids;
      KidFacts(s.pools, s.clock, parent.value, k);
    }
  }

  /** The new pool at the head of its parent's list. */
  lemma SiblingsPrepended(live: map<nat, PoolHdr>, recs: map<nat, PoolRec>, live': map<nat, PoolHdr>,
                          recs': map<nat, PoolRec>, ks: seq<nat>, b: nat)
    requires Siblings(live, recs, ks) && NoDup(ks) && b !in ks
    requires b in live' && b in recs' && recs'[b].subNext == SubAt(live, ks, 0) && recs'[b].subPrev == null
    requires forall k :: k in ks ==>
             k in live && k in live' && live'[k] == live[k] && k in recs && k in recs'
                 && recs'[k].subNext == recs[k].subNext
    requires forall k :: k in ks ==> recs'[k].subPrev == if k == ks[0] then live'[b] else recs[k].subPrev
    ensures Siblings(live', recs', [b] + ks)
  {
    var c := [b] + ks;
    forall i: int ensures 1 <= i ==> SubAt(live', c, i) == SubAt(live, ks, i - 1) {
      if 1 <= i < |c| { assert c[i] == ks[i - 1] && ks[i - 1] in ks; }
    }
    forall i: nat | i < |c|
      ensures c[i] in recs' && recs'[c[i]].subNext == SubAt(live', c, i + 1)
      ensures recs'[c[i]].subPrev == SubAt(live', c, i - 1)
    {
      if i > 0 {
        assert c[i] == ks[i - 1] && ks[i - 1] in ks && recs[ks[i - 1]].subNext == SubAt(live, ks, i);
      }
    }
  }

  lemma PlacesMade(live: map<nat, PoolHdr>, recs: map<nat, PoolRec>, s: State, parent: Option<nat>, h: PoolHdr,
                   blok: BlockHdr)
    requires Places(live, recs, s.pools) && Inv(s) && (parent.Some? ==> parent.value in s.pools) && h !in live.Values
    ensures ChosenBlock(s, POOL_HDR) !in s.pools
    ensures parent.Some? && s.pools[parent.value].kids != [] ==> s.pools[parent.value].kids[0] in recs
    ensures var b := ChosenBlock(s, POOL_HDR);
            Places(live[b := h], RecsMade(live, recs, s, parent, b, h, blok), MakeSub(s, parent).pools)
  {
    hide *;
    NewPoolIsNew(s);
    MadePools(s, parent);
    PlacesKeys(live, recs, s.pools);
    var b, pools' := ChosenBlock(s, POOL_HDR), MakeSub(s, parent).pools;
    RecsMadeFacts(live, recs, s, parent, b, h, blok);
    var live', recs' := live[b := h], RecsMade(live, recs, s, parent, b, h, blok);
    forall q | q in pools' ensures PlaceV(live', recs', recs'[q], pools'[q]) {
      if q != b {
        PlaceMade(live, recs, s, parent, h, blok, q);
      } else {
        NewPlace(live, recs, s, parent, h, blok);
      }
    }
    DistinctAdded(live, b, h);
    AllPlaces(live', recs', pools');
  }

  lemma PlacesKeys(live: map<nat, PoolHdr>, recs: map<nat, PoolRec>, pools: map<nat, Pool>)
    requires Places(live, recs, pools)
    ensures live.Keys == pools.Keys && recs.Keys == pools.Keys && Distinct(live)
  {
  }

  lemma AllPlaces(live: map<nat, PoolHdr>, recs: map<nat, PoolRec>, pools: map<nat, Pool>)
    requires live.Keys == pools.Keys && recs.Keys == pools.Keys && Distinct(live)
    requires forall p {:trigger PlaceV(live, recs, recs[p], pools[p])} :: p in pools ==>
             PlaceV(live, recs, recs[p], pools[p])
    ensures Places(live, recs, pools)
  {
  }

  /** The new pool itself. */
  lemma NewPlace(live: map<nat, PoolHdr>, recs: map<nat, PoolRec>, s: State, parent: Option<nat>, h: PoolHdr,
                 blok: BlockHdr)
    requires live.Keys == s.pools.Keys && recs.Keys == s.pools.Keys && Sane(s)
    requires parent.Some? ==> parent.value in s.pools
    requires ChosenBlock(s, POOL_HDR) !in s.pools
    requires parent.Some? && s.pools[parent.value].kids != [] ==> s.pools[parent.value].kids[0] in recs
    ensures var b := ChosenBlock(s, POOL_HDR);
            var recs' := RecsMade(live, recs, s, parent, b, h, blok);
            b in recs' && b in MakeSub(s, parent).pools
                && PlaceV(live[b := h], recs', recs'[b], MakeSub(s, parent).pools[b])
  {
    hide Sane, ChosenBlock, NewBlock, Take;
  }

  lemma DistinctAdded(live: map<nat, PoolHdr>, b: nat, h: PoolHdr)
    requires Distinct(live) && h !in live.Values
    ensures Distinct(live[b := h])
  {
  }

  /** A pool's place and its sub-pools. */
  lemma KidsOf(live: map<nat, PoolHdr>, recs: map<nat, PoolRec>, s: State, q: nat)
    requires Places(live, recs, s.pools) && Inv(s) && q in s.pools
    ensures q in recs && q in live && PlaceV(live, recs, recs[q], s.pools[q]) && NoDup(s.pools[q].kids)
    ensures forall k :: k in s.pools[q].kids ==> k in s.pools && k in live && k in recs && s.pools[k].parent == Some(q)
    ensures s.pools[q].parent.Some? ==> s.pools[q].parent.value in live && s.pools[q].parent.value in s.pools
  {
    hide Owned, Filled, Sane;
    assert PlaceV(live, recs, recs[q], s.pools[q]) && NodeOk(s.pools, s.clock, q) && ParentOk(s.pools, q);
    forall k | k in s.pools[q].kids ensures k in s.pools && s.pools[k].parent == Some(q) {
      KidFacts(s.pools, s.clock, q, k);
    }
  }

  lemma MadeKids(s: State, parent: Option<nat>, q: nat)
    requires Inv(s) && (parent.Some? ==> parent.value in s.pools) && q in s.pools
    ensures Sane(s) && ChosenBlock(s, POOL_HDR) !in s.pools
    ensures var pools', b := MakeSub(s, parent).pools, ChosenBlock(s, POOL_HDR);
            && q in pools' && pools'[q].parent == s.pools[q].parent
            && pools'[q].kids == if parent == Some(q) then [b] + s.pools[q].kids else s.pools[q].kids
  {
    NewPoolIsNew(s);
  }

  /** The fields of the new pool itself. */
  lemma RecsMadeNew(live: map<nat, PoolHdr>, recs: map<nat, PoolRec>, s: State, parent: nat, b: nat, h: PoolHdr,
                    blok: BlockHdr)
    requires parent in s.pools && parent in recs && parent in live
    requires s.pools[parent].kids != [] ==> s.pools[parent].kids[0] in recs
    ensures var recs' := RecsMade(live, recs, s, Some(parent), b, h, blok);
            b in recs' && recs'[b].subNext == SubAt(live, s.pools[parent].kids, 0) && recs'[b].subPrev == null
  {
  }

  lemma FirstIsNew(live: map<nat, PoolHdr>, ks: seq<nat>, b: nat, h: PoolHdr)
    ensures SubAt(live[b := h], [b] + ks, 0) == h
  {
  }

  lemma PlaceOf(live: map<nat, PoolHdr>, recs: map<nat, PoolRec>, r: PoolRec, pool: Pool)
    requires r.subPools == SubAt(live, pool.kids, 0) && Siblings(live, recs, pool.kids)
    requires if pool.parent.Some? then pool.parent.value in live && r.parent == live[pool.parent.value]
             else r.parent == null && r.subNext == null && r.subPrev == null
    ensures PlaceV(live, recs, r, pool)
  {
  }

  lemma PlaceParts(live: map<nat, PoolHdr>, recs: map<nat, PoolRec>, r: PoolRec, pool: Pool)
    requires PlaceV(live, recs, r, pool)
    ensures r.subPools == SubAt(live, pool.kids, 0) && Siblings(live, recs, pool.kids)
    ensures if pool.parent.Some? then pool.parent.value in live && r.parent == live[pool.parent.value]
            else r.parent == null && r.subNext == null && r.subPrev == null
  {
  }

  /** The parent of the new pool. */
  lemma ParentMade(live: map<nat, PoolHdr>, recs: map<nat, PoolRec>, s: State, q: nat, h: PoolHdr, blok: BlockHdr)
    requires Places(live, recs, s.pools) && Inv(s) && q in s.pools && q in recs && q in live && Sane(s)
    requires ChosenBlock(s, POOL_HDR) !in s.pools
    requires s.pools[q].kids != [] ==> s.pools[q].kids[0] in recs
    ensures var b := ChosenBlock(s, POOL_HDR);
            var recs' := RecsMade(live, recs, s, Some(q), b, h, blok);
            q in recs' && PlaceV(live[b := h], recs', recs'[q], MakeSub(s, Some(q)).pools[q])
  {
    hide *;
    KidsOf(live, recs, s, q);
    MadeKids(s, Some(q), q);
    var b, ks := ChosenBlock(s, POOL_HDR), s.pools[q].kids;
    RecsMadeFacts(live, recs, s, Some(q), b, h, blok);
    RecsMadeNew(live, recs, s, q, b, h, blok);
    var live', recs' := live[b := h], RecsMade(live, recs, s, Some(q), b, h, blok);
    PlaceParts(live, recs, recs[q], s.pools[q]);
    SiblingsPrepended(live, recs, live', recs', ks, b);
    FirstIsNew(live, ks, b, h);
    PlaceOf(live', recs', recs'[q], MakeSub(s, Some(q)).pools[q]);
  }

  /** Any other pool. */
  lemma OtherMade(live: map<nat, PoolHdr>, recs: map<nat, PoolRec>, s: State, parent: Option<nat>, h: PoolHdr,
                  blok: BlockHdr, q: nat)
    requires Places(live, recs, s.pools) && Inv(s) && (parent.Some? ==> parent.value in s.pools) && q in s.pools
    requires parent != Some(q) && Sane(s) && ChosenBlock(s, POOL_HDR) !in s.pools
    requires parent.Some? ==> parent.value in recs && parent.value in live
    requires parent.Some? && s.pools[parent.value].kids != [] ==> s.pools[parent.value].kids[0] in recs
    ensures var b := ChosenBlock(s, POOL_HDR);
            var recs' := RecsMade(live, recs, s, parent, b, h, blok);
            q in recs' && PlaceV(live[b := h], recs', recs'[q], MakeSub(s, parent).pools[q])
  {
    hide *;
    KidsOf(live, recs, s, q);
    MadeKids(s, parent, q);
    var b := ChosenBlock(s, POOL_HDR);
    RecsMadeFacts(live, recs, s, parent, b, h, blok);
    if parent.Some? && s.pools[parent.value].kids != [] {
      KidsOf(live, recs, s, parent.value);
      assert s.pools[parent.value].kids[0] in s.pools[parent.value].kids;
    }
    PlaceKept(live, recs, live[b := h], RecsMade(live, recs, s, parent, b, h, blok), q, s.pools[q],
              MakeSub(s, parent).pools[q]);
  }

  lemma PlaceMade(live: map<nat, PoolHdr>, recs: map<nat, PoolRec>, s: State, parent: Option<nat>, h: PoolHdr,
                  blok: BlockHdr, q: nat)
    requires Places(live, recs, s.pools) && Inv(s) && (parent.Some? ==> parent.value in s.pools) && q in s.pools
    ensures ChosenBlock(s, POOL_HDR) !in s.pools
    ensures parent.Some? && s.pools[parent.value].kids != [] ==> s.pools[parent.value].kids[0] in recs
    ensures var b := ChosenBlock(s, POOL_HDR);
            var recs' := RecsMade(live, recs, s, parent, b, h, blok);
            q in recs' && PlaceV(live[b := h], recs', recs'[q], MakeSub(s, parent).pools[q])
  {
    hide *;
    MadeKids(s, parent, q);
    PlacesKeys(live, recs, s.pools);
    RecsMadeFacts(live, recs, s, parent, ChosenBlock(s, POOL_HDR), h, blok);
    if parent == Some(q) {
      ParentMade(live, recs, s, q, h, blok);
    } else {
      OtherMade(live, recs, s, parent, h, blok, q);
    }
  }

  /** Making a pool. */
  lemma GoodMade(made: seq<BlockHdr>, nexts: seq<BlockHdr?>, head: BlockHdr?, live: map<nat, PoolHdr>,
                 recs: map<nat, PoolRec>, s: State,
                 made1: seq<BlockHdr>, nexts1: seq<BlockHdr?>, head1: BlockHdr?, parent: Option<nat>, h: PoolHdr)
    requires Good(made, nexts, head, live, recs, s) && (parent.Some? ==> parent.value in s.pools) && h !in live.Values
    requires AfterNewBlock(made, nexts, made1, nexts1, head1, s, POOL_HDR)
    ensures parent.Some? && s.pools[parent.value].kids != [] ==> s.pools[parent.value].kids[0] in recs
    ensures var b := ChosenBlock(s, POOL_HDR);
            && b < |made1|
            && Good(made1, nexts1, head1, live[b := h], RecsMade(live, recs, s, parent, b, h, made1[b]),
                 MakeSub(s, parent))
  {
    hide TreeOk, Owned, Filled, Sane, Siblings, PlaceV, Chains, Places;
    MakeSubInv(s, parent);
    var b := ChosenBlock(s, POOL_HDR);
    PlacesMade(live, recs, s, parent, h, made1[b]);
    ChainsMade(made, nexts, head, live, recs, s, made1, nexts1, head1, parent, h);
  }

  lemma ChainsMade(made: seq<BlockHdr>, nexts: seq<BlockHdr?>, head: BlockHdr?, live: map<nat, PoolHdr>,
                   recs: map<nat, PoolRec>, s: State,
                   made1: seq<BlockHdr>, nexts1: seq<BlockHdr?>, head1: BlockHdr?, parent: Option<nat>, h: PoolHdr)
    requires Good(made, nexts, head, live, recs, s) && (parent.Some? ==> parent.value in s.pools)
    requires AfterNewBlock(made, nexts, made1, nexts1, head1, s, POOL_HDR)
    ensures parent.Some? && s.pools[parent.value].kids != [] ==> s.pools[parent.value].kids[0] in recs
    ensures var b := ChosenBlock(s, POOL_HDR);
            b < |made1| && Chains(made1, nexts1, RecsMade(live, recs, s, parent, b, h, made1[b]),
                MakeSub(s, parent).pools)
  {
    hide *;
    GoodParts(made, nexts, head, live, recs, s);
    NewPoolIsNew(s);
    MadePools(s, parent);
    NewBlockLink(made, nexts, made1, nexts1, head1, s, POOL_HDR);
    var b, pools' := ChosenBlock(s, POOL_HDR), MakeSub(s, parent).pools;
    RecsMadeFacts(live, recs, s, parent, b, h, made1[b]);
    var recs' := RecsMade(live, recs, s, parent, b, h, made1[b]);
    forall q | q in pools' ensures ChainV(made1, nexts1, recs'[q], q, pools'[q].chain) {
      if q in s.pools {
        ChainsAfterNewBlock(made, nexts, head, live, recs, s, made1, nexts1, head1, POOL_HDR, q);
        SameChain(made1, nexts1, recs[q], recs'[q], q, s.pools[q].chain);
      } else {
        FirstChain(made1, nexts1, recs'[q], q);
      }
    }
    AllChains(made1, nexts1, recs', pools');
  }

  lemma GoodParts(made: seq<BlockHdr>, nexts: seq<BlockHdr?>, head: BlockHdr?, live: map<nat, PoolHdr>,
                  recs: map<nat, PoolRec>, s: State)
    requires Good(made, nexts, head, live, recs, s)
    ensures Chains(made, nexts, recs, s.pools) && Places(live, recs, s.pools) && Inv(s) && Sane(s)
    ensures recs.Keys == s.pools.Keys && live.Keys == s.pools.Keys && |s.blocks| == |made| == |nexts|
  {
  }

  lemma MadePools(s: State, parent: Option<nat>)
    requires Inv(s) && (parent.Some? ==> parent.value in s.pools)
    ensures Sane(s)
    ensures var b, pools' := ChosenBlock(s, POOL_HDR), MakeSub(s, parent).pools;
            && pools'.Keys == s.pools.Keys + {b} && pools'[b].chain == [b]
            && forall q :: q in s.pools && q != b ==> pools'[q].chain == s.pools[q].chain
  {
  }

  lemma NewBlockLink(made: seq<BlockHdr>, nexts: seq<BlockHdr?>, made1: seq<BlockHdr>, nexts1: seq<BlockHdr?>,
                     head1: BlockHdr?, s: State, min: nat)
    requires Sane(s) && AfterNewBlock(made, nexts, made1, nexts1, head1, s, min)
    ensures |nexts1| == |made1| == |NewBlock(s, min).blocks| && |made| <= |made1|
    ensures ChosenBlock(s, min) < |made1| && nexts1[ChosenBlock(s, min)] == null
    ensures Linked(made1, nexts1, head1, NewBlock(s, min).free)
  {
  }

  lemma SameChain(made: seq<BlockHdr>, nexts: seq<BlockHdr?>, r: PoolRec, r': PoolRec, p: nat, chain: seq<nat>)
    requires ChainV(made, nexts, r, p, chain) && r'.first == r.first && r'.last == r.last
    requires r'.freeFirstAvail == r.freeFirstAvail
    ensures ChainV(made, nexts, r', p, chain)
  {
  }

  /** A pool of one block. */
  lemma FirstChain(made: seq<BlockHdr>, nexts: seq<BlockHdr?>, r: PoolRec, p: nat)
    requires |nexts| == |made| && p < |made| && nexts[p] == null && r.first == made[p] && r.last == made[p]
    requires r.freeFirstAvail == POOL_HDR
    ensures ChainV(made, nexts, r, p, [p])
  {
    assert Segment(made, nexts, made[p], [p], null);
  }

  // ---- clear_pool after its loop ----

  /** Everything behind the pool's first block has gone to the free list, and the pool's
      fields are put back. */
  lemma GoodTailFreed(made: seq<BlockHdr>, nexts: seq<BlockHdr?>, head: BlockHdr?, live: map<nat, PoolHdr>,
                      recs: map<nat, PoolRec>, s: State, p: nat,
                      nexts1: seq<BlockHdr?>, head1: BlockHdr?)
    requires Good(made, nexts, head, live, recs, s) && p in s.pools && |nexts1| == |made| && p < |made|
    requires forall i :: 0 <= i < |made| && i !in s.pools[p].chain[1..] ==> nexts1[i] == nexts[i]
    requires Linked(made, nexts1, head1, s.pools[p].chain[1..] + s.free)
    ensures p in recs
    ensures Good(made, nexts1[p := null], head1, live, recs[p := recs[p].(last := made[p])], FreeTail(s, p))
  {
    hide *;
    GoodParts(made, nexts, head, live, recs, s);
    FreeTailPools(s, p);
    FreeTailInv(s, p);
    GoodPool(made, nexts, head, live, recs, s, p);
    var s', nexts2, recs2 := FreeTail(s, p), nexts1[p := null], recs[p := recs[p].(last := made[p])];
    PlacesSame(live, recs, recs2, s, s'.pools);
    ChainsTailFreed(made, nexts, recs, s, p, nexts1);
    TailIsFree(made, nexts1, head1, s, p);
    GoodIs(made, nexts2, head1, live, recs2, s');
  }

  lemma TailIsFree(made: seq<BlockHdr>, nexts1: seq<BlockHdr?>, head1: BlockHdr?, s: State, p: nat)
    requires s.pools.Keys >= {p} && |nexts1| == |made| && p < |made|
    requires var c := s.pools[p].chain; NoDup(c) && c != [] && c[0] == p && forall b :: b in c ==> b !in s.free
    requires Linked(made, nexts1, head1, s.pools[p].chain[1..] + s.free)
    ensures Linked(made, nexts1[p := null], head1, s.pools[p].chain[1..] + s.free)
  {
    var f := s.pools[p].chain[1..] + s.free;
    forall i | 0 <= i < |f| ensures f[i] != p {
      NotFirst(s.pools[p].chain, s.free, i);
    }
    SegmentKept(made, nexts1, made, nexts1[p := null], head1, f, null);
  }

  lemma GoodIs(made: seq<BlockHdr>, nexts: seq<BlockHdr?>, head: BlockHdr?, live: map<nat, PoolHdr>,
               recs: map<nat, PoolRec>, s: State)
    requires |s.blocks| == |made| && Linked(made, nexts, head, s.free)
    requires Chains(made, nexts, recs, s.pools) && Places(live, recs, s.pools) && Inv(s)
    ensures Good(made, nexts, head, live, recs, s)
  {
  }

  lemma NotFirst(c: seq<nat>, free: seq<nat>, i: nat)
    requires NoDup(c) && c != [] && i < |c[1..] + free| && forall b :: b in c ==> b !in free
    ensures (c[1..] + free)[i] != c[0]
  {
    assert c[0] in c;
    if i >= |c| - 1 { assert free[i - (|c| - 1)] in free; }
  }

  lemma ChainsTailFreed(made: seq<BlockHdr>, nexts: seq<BlockHdr?>, recs: map<nat, PoolRec>, s: State, p: nat,
                        nexts1: seq<BlockHdr?>)
    requires Chains(made, nexts, recs, s.pools) && Inv(s) && p in s.pools && |nexts1| == |nexts| == |made|
    requires p < |made| && s.pools[p].chain != []
    requires forall i :: 0 <= i < |made| && i !in s.pools[p].chain[1..] ==> nexts1[i] == nexts[i]
    ensures p in recs && Chains(made, nexts1[p := null], recs[p := recs[p].(last := made[p])], FreeTail(s, p).pools)
  {
    hide *;
    FreeTailPools(s, p);
    ChainOf(made, nexts, recs, s.pools, p);
    var s', nexts2, recs2 := FreeTail(s, p), nexts1[p := null], recs[p := recs[p].(last := made[p])];
    forall q | q in s'.pools ensures ChainV(made, nexts2, recs2[q], q, s'.pools[q].chain) {
      ChainOf(made, nexts, recs, s.pools, q);
      if q == p {
        ChainCut(made, nexts, nexts2, recs[p], p, s.pools[p].chain);
      } else {
        OtherChain(made, nexts, nexts1, recs[q], s, p, q);
      }
    }
    AllChains(made, nexts2, recs2, s'.pools);
  }

  lemma ChainOf(made: seq<BlockHdr>, nexts: seq<BlockHdr?>, recs: map<nat, PoolRec>, pools: map<nat, Pool>, p: nat)
    requires Chains(made, nexts, recs, pools) && p in pools
    ensures recs.Keys == pools.Keys && ChainV(made, nexts, recs[p], p, pools[p].chain)
  {
  }

  lemma AllChains(made: seq<BlockHdr>, nexts: seq<BlockHdr?>, recs: map<nat, PoolRec>, pools: map<nat, Pool>)
    requires recs.Keys == pools.Keys
    requires forall p {:trigger ChainV(made, nexts, recs[p], p, pools[p].chain)} :: p in pools ==>
             ChainV(made, nexts, recs[p], p, pools[p].chain)
    ensures Chains(made, nexts, recs, pools)
  {
  }

  lemma OtherChain(made: seq<BlockHdr>, nexts: seq<BlockHdr?>, nexts1: seq<BlockHdr?>, r: PoolRec, s: State, p: nat,
                   q: nat)
    requires Inv(s) && p in s.pools && q in s.pools && p != q && |nexts1| == |nexts| == |made| && p < |made|
    requires ChainV(made, nexts, r, q, s.pools[q].chain)
    requires forall i :: 0 <= i < |made| && i !in s.pools[p].chain[1..] ==> nexts1[i] == nexts[i]
    ensures ChainV(made, nexts1[p := null], r, q, s.pools[q].chain)
  {
    hide *;
    HeadIsAddress(s, p);
    ChainsApart(s, p, q);
    ChainUntouched(made, nexts, nexts1[p := null], r, q, s.pools[q].chain);
  }

  lemma FreeTailPools(s: State, p: nat)
    requires Inv(s) && p in s.pools
    ensures Sane(s) && FreeTail(s, p).pools.Keys == s.pools.Keys
    ensures forall q :: q in s.pools ==> FreeTail(s, p).pools[q].chain == if q == p then [p] else s.pools[q].chain
    ensures forall q :: q in s.pools ==>
              FreeTail(s, p).pools[q].kids == s.pools[q].kids && FreeTail(s, p).pools[q].parent == s.pools[q].parent
    ensures |FreeTail(s, p).blocks| == |s.blocks| && FreeTail(s, p).free == s.pools[p].chain[1..] + s.free
  {
    HeadIsAddress(s, p);
  }

  /** A pool's chain after everything behind its first block is gone. */
  lemma ChainCut(made: seq<BlockHdr>, nexts: seq<BlockHdr?>, nexts': seq<BlockHdr?>, r: PoolRec, p: nat,
                 chain: seq<nat>)
    requires ChainV(made, nexts, r, p, chain) && |nexts'| == |made| && p < |made| && nexts'[p] == null
    ensures ChainV(made, nexts', r.(last := made[p]), p, [p])
  {
    assert Segment(made, nexts', made[p], [p], null);
  }

  lemma ChainUntouched(made: seq<BlockHdr>, nexts: seq<BlockHdr?>, nexts': seq<BlockHdr?>, r: PoolRec, p: nat,
                       chain: seq<nat>)
    requires ChainV(made, nexts, r, p, chain) && |nexts'| == |made|
    requires forall i :: 0 <= i < |chain| ==> chain[i] < |made| ==> nexts'[chain[i]] == nexts[chain[i]]
    ensures ChainV(made, nexts', r, p, chain)
  {
    ChainKept(made, nexts, made, nexts', r, r, p, chain);
  }

  lemma ChainsApart(s: State, p: nat, q: nat)
    requires Inv(s) && p in s.pools && q in s.pools && p != q
    ensures var c, d := s.pools[p].chain, s.pools[q].chain;
            forall i :: 0 <= i < |d| ==> d[i] !in c && d[i] != p && d[i] !in c[1..]
  {
    HeadIsAddress(s, p);
    var c, d := s.pools[p].chain, s.pools[q].chain;
    assert c == [c[0]] + c[1..];
    forall i | 0 <= i < |d| ensures d[i] !in c {
      assert On(s, d[i], Some(q));
      assert d[i] in c ==> On(s, d[i], Some(p));
    }
  }

  lemma HeadIsAddress(s: State, p: nat)
    requires Inv(s) && p in s.pools
    ensures s.pools[p].chain != [] && s.pools[p].chain[0] == p && On(s, p, Some(p))
  {
    assert FilledPool(s.blocks, p, s.pools[p]);
  }

  // ---- destroy_pool after its clear_pool ----

  /** The fields after the i-th of the sub-pools ks of q has been unlinked. */
  ghost function RecsUnlinked(live: map<nat, PoolHdr>, recs: map<nat, PoolRec>, ks: seq<nat>, q: nat, i: nat)
    : map<nat, PoolRec>
    requires q in recs && i < |ks| && forall j :: 0 <= j < |ks| ==> ks[j] in recs
  {
    var r1 := if i == 0 then recs[q := recs[q].(subPools := SubAt(live, ks, 1))]
              else recs[ks[i - 1] := recs[ks[i - 1]].(subNext := SubAt(live, ks, i + 1))];
    if i + 1 < |ks| then r1[ks[i + 1] := r1[ks[i + 1]].(subPrev := SubAt(live, ks, i - 1))] else r1
  }

  lemma RecsUnlinkedFacts(live: map<nat, PoolHdr>, recs: map<nat, PoolRec>, ks: seq<nat>, q: nat, i: nat)
    requires q in recs && i < |ks| && (forall j :: 0 <= j < |ks| ==> ks[j] in recs) && NoDup(ks) && q !in ks
    ensures var r := RecsUnlinked(live, recs, ks, q, i);
            && r.Keys == recs.Keys
            && (forall x :: x in recs ==>
                  && r[x].first == recs[x].first && r[x].last == recs[x].last
                  && r[x].freeFirstAvail == recs[x].freeFirstAvail
                  && r[x].parent == recs[x].parent
                  && r[x].subPools == (if x == q && i == 0 then SubAt(live, ks, 1) else recs[x].subPools)
                  && r[x].subNext == (if i > 0 && x == ks[i - 1] then SubAt(live, ks, i + 1) else recs[x].subNext)
                  && r[x].subPrev == (if i + 1 < |ks| && x == ks[i + 1] then SubAt(live, ks, i - 1)
                       else recs[x].subPrev))
  {
    assert i > 0 ==> ks[i - 1] in ks;
    assert i + 1 < |ks| ==> ks[i + 1] in ks;
  }

  lemma {:induction false} WithoutAt(ks: seq<nat>, i: nat)
    requires NoDup(ks) && i < |ks|
    ensures Without(ks, ks[i]) == ks[..i] + ks[i + 1..]
    decreases |ks|
  {
    if i > 0 {
      var r := ks[1..];
      assert forall j :: 0 <= j < |r| ==> r[j] == ks[j + 1];
      WithoutAt(r, i - 1);
      assert ks[..i] == [ks[0]] + r[..i - 1] && r[i..] == ks[i + 1..];
    }
  }

  lemma SiblingLinks(live: map<nat, PoolHdr>, recs: map<nat, PoolRec>, ks: seq<nat>, k: nat)
    requires Siblings(live, recs, ks) && k < |ks|
    ensures ks[k] in recs && recs[ks[k]].subNext == SubAt(live, ks, k + 1)
    ensures recs[ks[k]].subPrev == SubAt(live, ks, k - 1)
  {
  }

  lemma SameIndex(ks: seq<nat>, i: nat, j: nat)
    requires NoDup(ks) && i < |ks| && j < |ks|
    ensures ks[i] == ks[j] <==> i == j
  {
  }

  /** The links of a sub-pool that stays when the i-th one is unlinked. */
  lemma SiblingStays(live: map<nat, PoolHdr>, recs: map<nat, PoolRec>, ks: seq<nat>, q: nat, i: nat, k: nat)
    requires Siblings(live, recs, ks) && NoDup(ks) && q in recs && i < |ks| && k < |ks| && k != i && q !in ks
    requires forall j :: 0 <= j < |ks| ==> ks[j] in recs
    ensures var r := RecsUnlinked(live, recs, ks, q, i);
            && ks[k] in r && ks[k] != ks[i]
            && r[ks[k]].subNext == SubAt(live, ks, if k + 1 == i then i + 1 else k + 1)
            && r[ks[k]].subPrev == SubAt(live, ks, if k == i + 1 then i - 1 else k - 1)
  {
    hide *;
    SiblingLinks(live, recs, ks, k);
    SameIndex(ks, k, i);
    if i > 0 { SameIndex(ks, k, i - 1); }
    if i + 1 < |ks| { SameIndex(ks, k, i + 1); }
    RecsUnlinkedFacts(live, recs, ks, q, i);
  }

  /** The i-th sub-pool taken out of the list. */
  lemma SubAtGap(live: map<nat, PoolHdr>, ks: seq<nat>, i: nat, j: int)
    requires NoDup(ks) && i < |ks|
    ensures SubAt(live - {ks[i]}, ks[..i] + ks[i + 1..], j) == SubAt(live, ks, if j < i then j else j + 1)
  {
    var c := ks[..i] + ks[i + 1..];
    if 0 <= j < |c| { assert c[j] == ks[if j < i then j else j + 1]; }
  }

  /** The j-th sub-pool of the list with a gap. */
  lemma SiblingAt(live: map<nat, PoolHdr>, recs: map<nat, PoolRec>, ks: seq<nat>, q: nat, i: nat, j: nat)
    requires Siblings(live, recs, ks) && NoDup(ks) && q in recs && i < |ks| && q !in ks && j < |ks| - 1
    requires forall k :: 0 <= k < |ks| ==> ks[k] in recs
    ensures var c, live', recs' := ks[..i] + ks[i + 1..], live - {ks[i]}, RecsUnlinked(live, recs, ks, q, i) - {ks[i]};
            && |c| == |ks| - 1 && c[j] in recs'
            && recs'[c[j]].subNext == SubAt(live', c, j + 1) && recs'[c[j]].subPrev == SubAt(live', c, j - 1)
  {
    hide *;
    var k := if j < i then j else j + 1;
    assert (ks[..i] + ks[i + 1..])[j] == ks[k];
    SiblingStays(live, recs, ks, q, i, k);
    SubAtGap(live, ks, i, j + 1);
    SubAtGap(live, ks, i, j - 1);
  }

  /** The list of sub-pools closes over the gap. */
  lemma SiblingsUnlinked(live: map<nat, PoolHdr>, recs: map<nat, PoolRec>, ks: seq<nat>, q: nat, i: nat)
    requires Siblings(live, recs, ks) && NoDup(ks) && q in recs && i < |ks| && q !in ks
    requires forall j :: 0 <= j < |ks| ==> ks[j] in recs && ks[j] in live
    ensures Siblings(live - {ks[i]}, RecsUnlinked(live, recs, ks, q, i) - {ks[i]}, ks[..i] + ks[i + 1..])
    ensures SubAt(live - {ks[i]}, ks[..i] + ks[i + 1..], 0) == if i == 0 then SubAt(live, ks, 1) else SubAt(live, ks, 0)
  {
    hide NoDup, RecsUnlinked, SubAt;
    var c, live', recs' := ks[..i] + ks[i + 1..], live - {ks[i]}, RecsUnlinked(live, recs, ks, q, i) - {ks[i]};
    SubAtGap(live, ks, i, 0);
    forall j: nat | j < |c|
      ensures c[j] in recs' && recs'[c[j]].subNext == SubAt(live', c, j + 1)
      ensures recs'[c[j]].subPrev == SubAt(live', c, j - 1)
    {
      SiblingAt(live, recs, ks, q, i, j);
    }
  }

  /** Position i is where p is on its parent's list (any i for a pool without parent). */
  ghost predicate AtPosition(s: State, p: nat, i: nat) {
    && p in s.pools
    && (s.pools[p].parent.Some? ==>
          && s.pools[p].parent.value in s.pools
          && i < |s.pools[s.pools[p].parent.value].kids| && s.pools[s.pools[p].parent.value].kids[i] == p)
  }

  lemma PositionFacts(live: map<nat, PoolHdr>, recs: map<nat, PoolRec>, s: State, p: nat, i: nat)
    requires Places(live, recs, s.pools) && Inv(s) && AtPosition(s, p, i) && s.pools[p].parent.Some?
    ensures var q := s.pools[p].parent.value;
            var ks := s.pools[q].kids;
            && q in recs && q in live && NoDup(ks) && q !in ks && Without(ks, p) == ks[..i] + ks[i + 1..]
            && (forall j :: 0 <= j < |ks| ==>
                 ks[j] in recs && ks[j] in live && ks[j] in s.pools && s.pools[ks[j]].parent == Some(q))
            && PlaceV(live, recs, recs[q], s.pools[q])
  {
    hide Owned, Filled, Sane;
    var q := s.pools[p].parent.value;
    var ks := s.pools[q].kids;
    assert NodeOk(s.pools, s.clock, q) && PlaceV(live, recs, recs[q], s.pools[q]);
    forall j | 0 <= j < |ks| ensures ks[j] in s.pools && s.pools[ks[j]].parent == Some(q) && ks[j] != q {
      assert ks[j] in ks;
      KidFacts(s.pools, s.clock, q, ks[j]);
    }
    WithoutAt(ks, i);
  }

  /** The fields of the pools that are left after destroy_pool(p). */
  ghost function RecsDropped(live: map<nat, PoolHdr>, recs: map<nat, PoolRec>, s: State, p: nat, i: nat)
    : map<nat, PoolRec>
    requires Places(live, recs, s.pools) && Inv(s) && AtPosition(s, p, i)
  {
    if s.pools[p].parent.None? then recs - {p}
    else
      PositionFacts(live, recs, s, p, i);
      RecsUnlinked(live, recs, s.pools[s.pools[p].parent.value].kids, s.pools[p].parent.value, i) - {p}
  }

  lemma PlaceOfParent(live: map<nat, PoolHdr>, recs: map<nat, PoolRec>, s: State, p: nat, i: nat, x: nat)
    requires Places(live, recs, s.pools) && Inv(s) && AtPosition(s, p, i) && s.pools[p].kids == []
    requires s.pools[p].parent == Some(x) && x != p
    ensures var recs' := RecsDropped(live, recs, s, p, i);
            x in recs' && x in DropLeaf(s, p).pools && PlaceV(live - {p}, recs', recs'[x], DropLeaf(s, p).pools[x])
  {
    PositionFacts(live, recs, s, p, i);
    var ks := s.pools[x].kids;
    RecsUnlinkedFacts(live, recs, ks, x, i);
    SiblingsUnlinked(live, recs, ks, x, i);
    var r := recs[x];
    ParentNotChild(s, p, x);
    if r.subNext != null || r.subPrev != null || r.parent != null {
      RootFields(live, recs, s, x);
    }
  }

  /** The parent of a pool that is going stays where it is. */
  lemma ParentNotChild(s: State, p: nat, x: nat)
    requires Inv(s) && p in s.pools && s.pools[p].kids == [] && x in s.pools
    ensures s.pools[x].parent != Some(p)
  {
    assert ParentOk(s.pools, x);
  }

  lemma RootFields(live: map<nat, PoolHdr>, recs: map<nat, PoolRec>, s: State, x: nat)
    requires Places(live, recs, s.pools) && x in s.pools
    ensures PlaceV(live, recs, recs[x], s.pools[x])
  {
    assert PlaceV(live, recs, recs[x], s.pools[x]);
  }

  lemma PlaceOfOther(live: map<nat, PoolHdr>, recs: map<nat, PoolRec>, s: State, p: nat, i: nat, x: nat)
    requires Places(live, recs, s.pools) && Inv(s) && AtPosition(s, p, i) && s.pools[p].kids == []
    requires x in s.pools && x != p && s.pools[p].parent != Some(x)
    ensures var recs' := RecsDropped(live, recs, s, p, i);
            x in recs' && x in DropLeaf(s, p).pools && PlaceV(live - {p}, recs', recs'[x], DropLeaf(s, p).pools[x])
  {
    hide Owned, Filled, Sane, Siblings, RecsUnlinked, Distinct, SubAt, Reset;
    var recs', pools' := RecsDropped(live, recs, s, p, i), DropLeaf(s, p).pools;
    RootFields(live, recs, s, x);
    ParentNotChild(s, p, x);
    if s.pools[p].parent.Some? {
      PositionFacts(live, recs, s, p, i);
      RecsUnlinkedFacts(live, recs, s.pools[s.pools[p].parent.value].kids, s.pools[p].parent.value, i);
    }
    forall k | k in s.pools[x].kids ensures k in live && k in recs && k != p && s.pools[k].parent == Some(x) {
      KidFacts(s.pools, s.clock, x, k);
    }
    PlaceKept(live, recs, live - {p}, recs', x, s.pools[x], pools'[x]);
  }

  lemma PlacesDropped(live: map<nat, PoolHdr>, recs: map<nat, PoolRec>, s: State, p: nat, i: nat)
    requires Places(live, recs, s.pools) && Inv(s) && AtPosition(s, p, i) && s.pools[p].kids == []
    ensures Places(live - {p}, RecsDropped(live, recs, s, p, i), DropLeaf(s, p).pools)
  {
    var live', recs', pools' := live - {p}, RecsDropped(live, recs, s, p, i), DropLeaf(s, p).pools;
    RecsDroppedKeys(live, recs, s, p, i);
    DistinctLess(live, p);
    assert pools'.Keys == s.pools.Keys - {p};
    hide TreeOk, Owned, Filled, Sane, PlaceV, Distinct, RecsDropped, AtPosition, DropLeaf;
    forall x | x in pools' ensures PlaceV(live', recs', recs'[x], pools'[x]) {
      if s.pools[p].parent == Some(x) {
        PlaceOfParent(live, recs, s, p, i, x);
      } else {
        PlaceOfOther(live, recs, s, p, i, x);
      }
    }
  }

  lemma DistinctLess(live: map<nat, PoolHdr>, p: nat)
    requires Distinct(live)
    ensures Distinct(live - {p})
  {
  }

  lemma RecsDroppedKeys(live: map<nat, PoolHdr>, recs: map<nat, PoolRec>, s: State, p: nat, i: nat)
    requires Places(live, recs, s.pools) && Inv(s) && AtPosition(s, p, i)
    ensures var recs' := RecsDropped(live, recs, s, p, i);
            && recs'.Keys == recs.Keys - {p}
            && (forall x :: x in recs' ==>
                 recs'[x].first == recs[x].first && recs'[x].last == recs[x].last
                     && recs'[x].freeFirstAvail == recs[x].freeFirstAvail)
  {
    if s.pools[p].parent.Some? {
      PositionFacts(live, recs, s, p, i);
      RecsUnlinkedFacts(live, recs, s.pools[s.pools[p].parent.value].kids, s.pools[p].parent.value, i);
    }
  }

  /** A pool without sub-pools and with only its first block has been destroyed. */
  lemma GoodDropped(made: seq<BlockHdr>, nexts: seq<BlockHdr?>, head: BlockHdr?, live: map<nat, PoolHdr>,
                    recs: map<nat, PoolRec>, s: State, p: nat, i: nat,
                    nexts1: seq<BlockHdr?>, head1: BlockHdr?)
    requires Good(made, nexts, head, live, recs, s) && AtPosition(s, p, i) && s.pools[p].kids == []
    requires s.pools[p].chain == [p]
    requires |nexts1| == |made| && forall j :: 0 <= j < |made| && j != p ==> nexts1[j] == nexts[j]
    requires Linked(made, nexts1, head1, [p] + s.free)
    ensures Good(made, nexts1, head1, live - {p}, RecsDropped(live, recs, s, p, i), DropLeaf(s, p))
  {
    hide TreeOk, Owned, Filled, Sane, Siblings, PlaceV;
    var s', recs' := DropLeaf(s, p), RecsDropped(live, recs, s, p, i);
    DropLeafInv(s, p);
    PlacesDropped(live, recs, s, p, i);
    RecsDroppedKeys(live, recs, s, p, i);
    forall q | q in s'.pools ensures ChainV(made, nexts1, recs'[q], q, s'.pools[q].chain) {
      assert ChainV(made, nexts, recs[q], q, s.pools[q].chain);
      ChainsApart(s, p, q);
      ChainKept(made, nexts, made, nexts1, recs[q], recs'[q], q, s.pools[q].chain);
    }
  }
}
