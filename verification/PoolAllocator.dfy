/** The pools of src/memmanager.c as linked objects, every routine tied to the model:
    what it leaves in memory is what the closed forms say. */
module PoolAllocator {
  import opened Sequences
  import opened PoolModel
  import opened PoolTree
  import opened PoolInv
  import opened PoolSteps
  import opened PoolRuns
  import opened PoolBlocks
  import opened PoolShape

  class Allocator {
    const store: BlockStore
    /** The state of the model that memory spells out. */
    ghost var model: State
    /** The live pools by address, and what their fields hold. */
    ghost var live: map<nat, PoolHdr>
    ghost var recs: map<nat, PoolRec>

    ghost predicate RecMirror(p: nat)
      reads this`live, this`recs, live.Values
    {
      p in live ==> p in recs && live[p].Rec() == recs[p]
    }

    ghost predicate RecMirrors()
      reads this`live, this`recs, live.Values
    {
      live.Keys == recs.Keys && forall p: nat {:trigger RecMirror(p)} :: RecMirror(p)
    }

    /** The ghost fields are what is in memory, and that has the shape of the model. */
    ghost predicate Valid()
      reads this, store, store.made, live.Values
    {
      && store.Mirrors() && store.vals == model.blocks && store.free == model.free
      && RecMirrors()
      && Good(store.made, store.nexts, store.blockFreelist, live, recs, model)
    }

    /** a is the handle of the live pool at address p. */
    ghost predicate Known(a: PoolHdr, p: nat)
      reads this`live
    {
      p in live && live[p] == a
    }

    constructor ()
      ensures Valid() && model == Init()
      ensures fresh(store)
    {
      store := new BlockStore();
      model, live, recs := Init(), map[], map[];
      new;
      InitInv();
    }

    /** What a known pool's fields hold. */
    lemma Fields(a: PoolHdr, p: nat)
      requires Valid() && Known(a, p)
      ensures p in model.pools && p in recs && a.Rec() == recs[p]
      ensures Inv(model) && Distinct(live) && InRange(model.pools[p].chain, |store.made|)
      ensures |model.blocks| == |store.made|
      ensures var c := model.pools[p].chain;
              && c != [] && c[0] == p && a.first == store.made[p] && a.last == store.made[c[|c| - 1]]
              && a.freeFirstAvail == POOL_HDR
              && a.last.firstAvail == model.blocks[c[|c| - 1]].avail && a.last.endp == model.blocks[c[|c| - 1]].cap
    {
      assert RecMirror(p);
      GoodPool(store.made, store.nexts, store.blockFreelist, live, recs, model, p);
      var c := model.pools[p].chain;
      assert store.Mirror(c[|c| - 1]);
    }

    /** Memory spells out the state s: from now on that is the state. */
    ghost method Become(s: State)
      requires store.Mirrors() && RecMirrors() && store.free == s.free && store.vals == s.blocks
      requires Good(store.made, store.nexts, store.blockFreelist, live, recs, s)
      modifies this`model
      ensures Valid() && model == s
    {
      model := s;
    }

    // ---- Writing a pool's fields ----

    method SetLast(h: PoolHdr, v: BlockHdr, ghost p: nat)
      requires RecMirrors() && Known(h, p) && Distinct(live)
      modifies this`recs, h`last
      ensures RecMirrors() && p in old(recs) && recs == old(recs)[p := old(recs)[p].(last := v)]
    {
      assert RecMirror(p);
      h.last := v;
      recs := recs[p := recs[p].(last := v)];
      forall q: nat ensures RecMirror(q) { assert old(RecMirror(q)); }
    }

    method SetSubPools(h: PoolHdr, v: PoolHdr?, ghost p: nat)
      requires RecMirrors() && Known(h, p) && Distinct(live)
      modifies this`recs, h`subPools
      ensures RecMirrors() && p in old(recs) && recs == old(recs)[p := old(recs)[p].(subPools := v)]
    {
      assert RecMirror(p);
      h.subPools := v;
      recs := recs[p := recs[p].(subPools := v)];
      forall q: nat ensures RecMirror(q) { assert old(RecMirror(q)); }
    }

    method SetSubNext(h: PoolHdr, v: PoolHdr?, ghost p: nat)
      requires RecMirrors() && Known(h, p) && Distinct(live)
      modifies this`recs, h`subNext
      ensures RecMirrors() && p in old(recs) && recs == old(recs)[p := old(recs)[p].(subNext := v)]
    {
      assert RecMirror(p);
      h.subNext := v;
      recs := recs[p := recs[p].(subNext := v)];
      forall q: nat ensures RecMirror(q) { assert old(RecMirror(q)); }
    }

    method SetSubPrev(h: PoolHdr, v: PoolHdr?, ghost p: nat)
      requires RecMirrors() && Known(h, p) && Distinct(live)
      modifies this`recs, h`subPrev
      ensures RecMirrors() && p in old(recs) && recs == old(recs)[p := old(recs)[p].(subPrev := v)]
    {
      assert RecMirror(p);
      h.subPrev := v;
      recs := recs[p := recs[p].(subPrev := v)];
      forall q: nat ensures RecMirror(q) { assert old(RecMirror(q)); }
    }

    // ---- Writing a block's fields ----

    method SetBlockNext(blk: BlockHdr, v: BlockHdr?, ghost b: nat)
      requires store.Mirrors() && RecMirrors() && b < |store.made| && store.made[b] == blk
      modifies store`nexts, blk`next
      ensures store.Mirrors() && RecMirrors() && |old(store.nexts)| == |store.made|
      ensures store.nexts == old(store.nexts)[b := v]
    {
      store.SetNext(blk, v, b);
      forall q: nat ensures RecMirror(q) { assert old(RecMirror(q)); }
    }

    method SetBlockAvail(blk: BlockHdr, v: nat, ghost b: nat)
      requires store.Mirrors() && RecMirrors() && b < |store.made| && store.made[b] == blk
      modifies store`vals, blk`firstAvail
      ensures store.Mirrors() && RecMirrors() && |old(store.vals)| == |store.made|
      ensures store.vals == old(store.vals)[b := Block(old(store.vals)[b].cap, v)]
    {
      store.SetAvail(blk, v, b);
      forall q: nat ensures RecMirror(q) { assert old(RecMirror(q)); }
    }

    // ---- palloc ----

    /** Whether the last block has room, read off its header. */
    lemma HasRoom(a: PoolHdr, p: nat, n: nat)
      requires Valid() && Known(a, p) && n > 0
      ensures Inv(model) && Sane(model) && p in model.pools && model.pools[p].chain != []
      ensures FitsLast(model, p, RoundUp(n)) <==> a.last.firstAvail + RoundUp(n) <= a.last.endp
    {
      Fields(a, p);
    }

    lemma HereParts(s: State, p: nat, n: nat)
      requires Inv(s) && Sane(s) && p in s.pools && n > 0 && s.pools[p].chain != []
      ensures var s', b := PoolModel.PallocHere(s, p, n), s.pools[p].chain[|s.pools[p].chain| - 1];
              && b < |s.blocks| && s'.free == s.free
              && s'.blocks == s.blocks[b := Block(s.blocks[b].cap, s.blocks[b].avail + RoundUp(n))]
              && p in s'.pools && s'.pools[p].log != [] && Returned(s', p).blk == b
              && Returned(s', p).off == s.blocks[b].avail
    {
    }

    /** palloc when the last block has room. */
    method PallocHere(a: PoolHdr, ghost p: nat, reqsize: nat, size: nat) returns (blk: BlockHdr, off: nat)
      requires Valid() && Known(a, p) && reqsize > 0 && size == RoundUp(reqsize)
      requires a.last.firstAvail + size <= a.last.endp
      modifies this`model, store`vals, a.last`firstAvail
      ensures Valid() && p in old(model).pools && Inv(old(model))
      ensures model == PoolModel.PallocHere(old(model), p, reqsize) && p in model.pools && model.pools[p].log != []
      ensures blk in store.made && blk.id == Returned(model, p).blk && off == Returned(model, p).off
    {
      hide *;
      Fields(a, p);
      HasRoom(a, p, reqsize);
      ghost var s, b := model, model.pools[p].chain[|model.pools[p].chain| - 1];
      HereParts(s, p, reqsize);
      GoodAtom();
      GoodHere(store.made, store.nexts, store.blockFreelist, live, recs, s, p, reqsize);
      blk := a.last;
      off := FillLast(blk, size, b);
      Become(PoolModel.PallocHere(s, p, reqsize));
    }

    lemma ValidFacts()
      requires Valid()
      ensures Inv(model) && Sane(model) && TreeOk(model.pools, model.clock)
      ensures live.Keys == model.pools.Keys && recs.Keys == model.pools.Keys && Distinct(live)
    {
    }

    lemma GoodAtom()
      requires Valid()
      ensures Good(store.made, store.nexts, store.blockFreelist, live, recs, model)
      ensures store.Mirrors() && RecMirrors() && store.vals == model.blocks && store.free == model.free
    {
    }

    /** Takes the request out of a block that has room for it. */
    method FillLast(blk: BlockHdr, size: nat, ghost b: nat) returns (off: nat)
      requires store.Mirrors() && RecMirrors() && b < |store.made| && store.made[b] == blk
      modifies store`vals, blk`firstAvail
      ensures store.Mirrors() && RecMirrors() && blk.id == b && |old(store.vals)| == |store.made|
      ensures off == old(store.vals)[b].avail
      ensures store.vals == old(store.vals)[b := Block(old(store.vals)[b].cap, off + size)]
    {
      assert store.Mirror(b);
      hide *;
      off := blk.firstAvail;
      SetBlockAvail(blk, off + size, b);
    }

    /** new_block, called from inside a pool operation. */
    method TakeBlock(min: nat) returns (blok: BlockHdr)
      requires Valid()
      modifies store, store.made
      ensures Inv(model) && store.Mirrors() && RecMirrors()
      ensures store.vals == NewBlock(model, min).blocks && store.free == NewBlock(model, min).free
      ensures AfterNewBlock(old(store.made), old(store.nexts), store.made, store.nexts, store.blockFreelist, model, min)
      ensures ChosenBlock(model, min) < |store.made| && blok == store.made[ChosenBlock(model, min)]
      ensures blok in store.made
      ensures NewBlock(model, min).blocks[ChosenBlock(model, min)].avail == 0
      ensures old(store.made) <= store.made && forall x :: x in store.made ==> x in old(store.made) || fresh(x)
    {
      assert NoDup(ListOf(model, None));
      NewBlockFacts(model, min);
      blok := store.NewBlock(min);
      forall q: nat ensures RecMirror(q) { assert old(RecMirror(q)); }
    }

    /** palloc when it has to append a block. */
    method PallocNext(a: PoolHdr, ghost p: nat, reqsize: nat, size: nat) returns (blk: BlockHdr, off: nat)
      requires Valid() && Known(a, p) && reqsize > 0 && size == RoundUp(reqsize)
      requires a.last.firstAvail + size > a.last.endp
      modifies this`model, this`recs, store, store.made, a`last
      ensures Valid() && p in old(model).pools && Inv(old(model))
      ensures model == PoolModel.PallocNext(old(model), p, reqsize) && p in model.pools && model.pools[p].log != []
      ensures old(store.made) <= store.made && forall x :: x in store.made ==> x in old(store.made) || fresh(x)
      ensures blk in store.made && blk.id == Returned(model, p).blk && off == Returned(model, p).off
    {
      hide *;
      Fields(a, p);
      HasRoom(a, p, reqsize);
      GoodAtom();
      ghost var s, made0, nexts0, head0, recs0 := model, store.made, store.nexts, store.blockFreelist, recs;
      ghost var lastb := s.pools[p].chain[|s.pools[p].chain| - 1];
      blk := TakeBlock(size);
      ghost var b := ChosenBlock(s, size);
      NextParts(s, p, reqsize);
      GoodNext(made0, nexts0, head0, live, recs0, s, store.made, store.nexts, store.blockFreelist, p, reqsize);
      off := AppendBlock(a, p, blk, size, lastb, b, PoolModel.PallocNext(s, p, reqsize));
    }

    lemma NextParts(s: State, p: nat, n: nat)
      requires Inv(s) && Sane(s) && p in s.pools && n > 0 && RoundUp(n) >= 0
      ensures var s', b, s1 := PoolModel.PallocNext(s, p, n), ChosenBlock(s, RoundUp(n)), NewBlock(s, RoundUp(n));
              && s'.free == s1.free && b < |s1.blocks|
              && s'.blocks == s1.blocks[b := Block(s1.blocks[b].cap, s1.blocks[b].avail + RoundUp(n))]
              && p in s'.pools && s'.pools[p].log != [] && Returned(s', p).blk == b
              && Returned(s', p).off == s1.blocks[b].avail
    {
    }

    /** palloc from the moment new_block has returned: link the block in and fill it. */
    method AppendBlock(a: PoolHdr, ghost p: nat, blk: BlockHdr, size: nat, ghost lastb: nat, ghost b: nat,
                       ghost s: State) returns (off: nat)
      requires store.Mirrors() && RecMirrors() && Known(a, p) && Distinct(live) && p in recs
      requires lastb < |store.made| && store.made[lastb] == a.last && b < |store.made| && store.made[b] == blk
      requires |store.nexts| == |store.made| == |store.vals|
      requires s.blocks == store.vals[b := Block(store.vals[b].cap, store.vals[b].avail + size)]
      requires s.free == store.free
      requires Good(store.made, store.nexts[lastb := blk], store.blockFreelist, live,
                    recs[p := recs[p].(last := blk)], s)
      modifies this`model, this`recs, a`last, store`nexts, store`vals, a.last`next, blk`firstAvail
      ensures Valid() && model == s && blk.id == b && off == old(store.vals)[b].avail
    {
      hide *;
      LinkLast(a, p, blk, lastb);
      off := FillLast(blk, size, b);
      Become(s);
    }

    /** a->last->h.next = blok; a->last = blok. */
    method LinkLast(a: PoolHdr, ghost p: nat, blok: BlockHdr, ghost lastb: nat)
      requires store.Mirrors() && RecMirrors() && Known(a, p) && Distinct(live)
      requires lastb < |store.made| && store.made[lastb] == a.last
      modifies this`recs, a`last, store`nexts, a.last`next
      ensures store.Mirrors() && RecMirrors() && p in old(recs)
      ensures recs == old(recs)[p := old(recs)[p].(last := blok)] && store.nexts == old(store.nexts)[lastb := blok]
    {
      SetBlockNext(a.last, blok, lastb);
      SetLast(a, blok, p);
    }

    /** No int overflows in serving the request from pool a. */
    ghost predicate IntSafe(a: PoolHdr, n: int)
      reads a, a.last
    {
      FitsInt(n) || (RoundUp(n) <= INT_MAX && a.last.firstAvail + RoundUp(n) <= a.last.endp)
    }

    lemma CanPalloc(a: PoolHdr, p: nat, n: int)
      requires Valid() && Known(a, p) && (n > 0 ==> IntSafe(a, n))
      ensures Inv(model) && Sane(model) && Can(model, PallocOp(p, n))
    {
      Fields(a, p);
    }

    /** palloc; a size that is not positive gives NULL. */
    method Palloc(a: PoolHdr, ghost p: nat, reqsize: int) returns (blk: BlockHdr?, off: nat)
      requires Valid() && Known(a, p) && (reqsize > 0 ==> IntSafe(a, reqsize))
      modifies this`model, this`recs, store, store.made, a`last
      ensures Valid() && Inv(old(model)) && p in old(model).pools
      ensures reqsize <= 0 ==> blk == null && model == old(model)
      ensures reqsize > 0 ==>
                && model == PoolModel.Palloc(old(model), p, reqsize)
                && p in model.pools && model.pools[p].log != []
                && blk != null && blk in store.made && blk.id == Returned(model, p).blk && off == Returned(model, p).off
      ensures old(store.made) <= store.made && forall x :: x in store.made ==> x in old(store.made) || fresh(x)
    {
      ghost var s := model;
      Fields(a, p);
      if reqsize <= 0 {
        return null, 0;
      }
      var nclicks := 1 + (reqsize - 1) / CLICK_SZ;
      var size: nat := nclicks * CLICK_SZ;
      if a.last.firstAvail + size <= a.last.endp {
        assert FitsLast(s, p, size);
        blk, off := PallocHere(a, p, reqsize, size);
      } else {
        assert !FitsLast(s, p, size);
        blk, off := PallocNext(a, p, reqsize, size);
      }
    }

    // ---- make_sub_pool ----

    /** What a known pool's tree fields say. */
    lemma Links(a: PoolHdr, p: nat)
      requires Valid() && Known(a, p)
      ensures Distinct(live) && p in model.pools && p in recs && a.Rec() == recs[p]
      ensures PlaceV(live, recs, recs[p], model.pools[p])
      ensures forall k :: k in model.pools[p].kids ==> k in live && k in recs && k != p
    {
      assert RecMirror(p);
      GoodPool(store.made, store.nexts, store.blockFreelist, live, recs, model, p);
      forall k | k in model.pools[p].kids ensures k in live && k in recs && k != p {
        KidFacts(model.pools, model.clock, p, k);
      }
    }

    /** What is known of the parent, if there is one. */
    lemma ParentLinks(parent: PoolHdr?, q: Option<nat>)
      requires Valid() && (parent == null <==> q == None) && (q.Some? ==> Known(parent, q.value))
      ensures Sane(model) && (q.Some? ==> q.value in live && q.value in model.pools && q.value in recs)
      ensures q.Some? ==> parent.subPools == SubAt(live, model.pools[q.value].kids, 0)
      ensures q.Some? ==> forall k :: k in model.pools[q.value].kids ==> k in live && k in recs && k != q.value
    {
      if q.Some? {
        Links(parent, q.value);
      }
    }

    /** The links of a pool that is first on the list of its parent, if it has one. */
    lemma FirstLinks(h: PoolHdr, b: nat, q: Option<nat>, kids: seq<nat>)
      requires Valid() && Known(h, b) && b in model.pools && model.pools[b].kids == [] && model.pools[b].parent == q
      requires q.Some? ==> q.value in live && q.value in model.pools && model.pools[q.value].kids == [b] + kids
      ensures h.subPools == null && h.subPrev == null
      ensures q == None ==> h.parent == null && h.subNext == null
      ensures q.Some? ==>
                && h.parent == live[q.value] && h.parent.subPools == h && h.subNext == SubAt(live, kids, 0)
                && (kids != [] ==> h.subNext != null && h.subNext.subPrev == h)
    {
      Links(h, b);
      if q.Some? {
        Links(live[q.value], q.value);
        var ks := model.pools[q.value].kids;
        assert recs[ks[0]] == recs[b];
        assert SubAt(live, ks, 1) == SubAt(live, kids, 0);
        if kids != [] {
          assert ks[1] == kids[0] && ks[1] in ks && RecMirror(kids[0]);
          assert recs[ks[1]].subPrev == SubAt(live, ks, 0);
        }
      }
    }

    /** What make_sub_pool comes to in the tree of pools. */
    lemma MadeFirst(s: State, q: Option<nat>)
      requires Inv(s) && (q.Some? ==> q.value in s.pools)
      ensures var b, s' := ChosenBlock(s, POOL_HDR), MakeSub(s, q);
              && b in s'.pools && s'.pools[b].kids == [] && s'.pools[b].parent == q
              && (q.Some? ==> q.value in s'.pools && s'.pools[q.value].kids == [b] + s.pools[q.value].kids)
              && b !in s.pools
    {
      NewPoolIsNew(s);
    }

    /** make_sub_pool, as far as the model tells. */
    method MakeAsModel(parent: PoolHdr?, ghost q: Option<nat>) returns (h: PoolHdr)
      requires Valid() && (parent == null <==> q == None) && (q.Some? ==> Known(parent, q.value))
      modifies this`model, this`live, this`recs, store, store.made, live.Values
      ensures Valid() && Inv(old(model)) && (q.Some? ==> q.value in old(model).pools) && fresh(h)
      ensures model == MakeSub(old(model), q) && live == old(live)[ChosenBlock(old(model), POOL_HDR) := h]
      ensures old(store.made) <= store.made && forall x :: x in store.made ==> x in old(store.made) || fresh(x)
    {
      hide *;
      ghost var s := model;
      ParentLinks(parent, q);
      var blok;
      h, blok := MakeHeader(q);
      LinkNew(h, parent, q, blok, ChosenBlock(s, POOL_HDR), s, MakeSub(s, q));
    }

    /** make_sub_pool: a new pool in a block of its own, first on its parent's list. */
    method MakeSubPool(parent: PoolHdr?, ghost q: Option<nat>) returns (h: PoolHdr)
      requires Valid() && (parent == null <==> q == None) && (q.Some? ==> Known(parent, q.value))
      modifies this`model, this`live, this`recs, store, store.made, live.Values
      ensures Valid() && Inv(old(model)) && (q.Some? ==> q.value in old(model).pools) && fresh(h)
      ensures model == MakeSub(old(model), q) && live == old(live)[ChosenBlock(old(model), POOL_HDR) := h]
      ensures h.parent == parent && h.subPools == null && h.subPrev == null
      ensures parent == null ==> h.subNext == null
      ensures parent != null ==> parent.subPools == h && h.subNext == old(parent.subPools)
      ensures h.subNext != null ==> h.subNext.subPrev == h
      ensures old(store.made) <= store.made && forall x :: x in store.made ==> x in old(store.made) || fresh(x)
    {
      BeforeMake(parent, q);
      hide *;
      ghost var s, live0 := model, live;
      MadeFirst(s, q);
      h := MakeAsModel(parent, q);
      MadeLinks(s, live0, h, parent, q);
    }

    /** What the new pool's links will be told from. */
    lemma BeforeMake(parent: PoolHdr?, q: Option<nat>)
      requires Valid() && (parent == null <==> q == None) && (q.Some? ==> Known(parent, q.value))
      ensures Inv(model) && Sane(model) && live.Keys == model.pools.Keys
      ensures q.Some? ==> q.value in model.pools && parent.subPools == SubAt(live, model.pools[q.value].kids, 0)
      ensures q.Some? ==> forall k :: k in model.pools[q.value].kids ==> k in live
    {
      ParentLinks(parent, q);
    }

    lemma MadeLinks(s: State, live0: map<nat, PoolHdr>, h: PoolHdr, parent: PoolHdr?, q: Option<nat>)
      requires Valid() && Inv(s) && Sane(s) && live0.Keys == s.pools.Keys && (q.Some? ==> q.value in s.pools)
      requires model == MakeSub(s, q) && live == live0[ChosenBlock(s, POOL_HDR) := h]
      requires (parent == null <==> q == None) && (q.Some? ==> q.value in live0 && live0[q.value] == parent)
      requires q.Some? ==> forall k :: k in s.pools[q.value].kids ==> k in live0
      ensures h.parent == parent && h.subPools == null && h.subPrev == null
      ensures parent == null ==> h.subNext == null
      ensures parent != null ==> parent.subPools == h && h.subNext == SubAt(live0, s.pools[q.value].kids, 0)
      ensures h.subNext != null ==> h.subNext.subPrev == h
    {
      hide Valid, Inv, Sane, MakeSub, ChosenBlock, SubAt;
      var b, kids := ChosenBlock(s, POOL_HDR), if q.Some? then s.pools[q.value].kids else [];
      MadeFirst(s, q);
      MadeKnown(live0, h, b, parent, q, kids);
      FirstLinks(h, b, q, kids);
    }

    /** The old handles are still there, and the first of the old sub-pools is the same. */
    lemma MadeKnown(live0: map<nat, PoolHdr>, h: PoolHdr, b: nat, parent: PoolHdr?, q: Option<nat>, kids: seq<nat>)
      requires live == live0[b := h] && b !in live0 && (forall k :: k in kids ==> k in live0)
      requires (parent == null <==> q == None) && (q.Some? ==> q.value in live0 && live0[q.value] == parent)
      ensures Known(h, b) && (q.Some? ==> Known(parent, q.value) && q.value in live && live[q.value] == parent)
      ensures SubAt(live, kids, 0) == SubAt(live0, kids, 0)
      ensures kids == [] ==> SubAt(live, kids, 0) == null
    {
      assert kids != [] ==> kids[0] in kids;
    }

    /** make_sub_pool up to the point where the header is blank but for its block. */
    method MakeHeader(ghost q: Option<nat>) returns (h: PoolHdr, blok: BlockHdr)
      requires Valid() && (q.Some? ==> q.value in live)
      modifies store, store.made
      ensures Inv(model) && (q.Some? ==> q.value in model.pools && q.value in recs)
      ensures q.Some? && model.pools[q.value].kids != [] ==> model.pools[q.value].kids[0] in recs
      ensures store.Mirrors() && RecMirrors() && Distinct(live) && fresh(h) && h !in live.Values
      ensures h.Rec() == PoolRec(blok, blok, null, null, null, null, POOL_HDR)
      ensures store.vals == MakeSub(model, q).blocks && store.free == MakeSub(model, q).free
      ensures ChosenBlock(model, POOL_HDR) !in live
      ensures var b := ChosenBlock(model, POOL_HDR);
              Good(store.made, store.nexts, store.blockFreelist, live[b := h],
                  RecsMade(live, recs, model, q, b, h, blok), MakeSub(model, q))
      ensures old(store.made) <= store.made && forall x :: x in store.made ==> x in old(store.made) || fresh(x)
    {
      hide *;
      ghost var made0, nexts0, head0 := store.made, store.nexts, store.blockFreelist;
      ValidFacts();
      GoodAtom();
      blok := TakeBlock(POOL_HDR);
      MakeSubBlocks(model, q);
      ghost var b := ChosenBlock(model, POOL_HDR);
      var off := FillLast(blok, POOL_HDR, b);
      h := new PoolHdr(blok, off + POOL_HDR);
      assert h !in live.Values;
      GoodMade(made0, nexts0, head0, live, recs, model, store.made, store.nexts, store.blockFreelist, q, h);
    }

    lemma MakeSubBlocks(s: State, q: Option<nat>)
      requires Inv(s) && (q.Some? ==> q.value in s.pools)
      ensures var s1, b := NewBlock(s, POOL_HDR), ChosenBlock(s, POOL_HDR);
              && b < |s1.blocks|
              && MakeSub(s, q).blocks == s1.blocks[b := Block(s1.blocks[b].cap, s1.blocks[b].avail + POOL_HDR)]
              && MakeSub(s, q).free == s1.free && b !in s.pools
    {
      NewPoolIsNew(s);
    }

    /** make_sub_pool from the moment the header is blank but for its block. */
    method LinkNew(h: PoolHdr, parent: PoolHdr?, ghost q: Option<nat>, blok: BlockHdr, ghost b: nat, ghost s: State,
                   ghost s': State)
      requires store.Mirrors() && RecMirrors() && Distinct(live) && h !in live.Values && b !in live
      requires h.Rec() == PoolRec(blok, blok, null, null, null, null, POOL_HDR)
      requires parent == null <==> q == None
      requires q.Some? ==> Known(parent, q.value) && q.value in s.pools && q.value in recs
      requires q.Some? ==> parent.subPools == SubAt(live, s.pools[q.value].kids, 0)
      requires q.Some? ==> forall k :: k in s.pools[q.value].kids ==> k in live && k in recs && k != q.value
      requires store.vals == s'.blocks && store.free == s'.free
      requires Good(store.made, store.nexts, store.blockFreelist, live[b := h],
               RecsMade(live, recs, s, q, b, h, blok), s')
      modifies this`model, this`live, this`recs, h, live.Values
      ensures Valid() && model == s' && live == old(live)[b := h]
    {
      hide *;
      FillHeader(h, parent, q, blok, b, s);
      Register(h, b);
      Become(s');
    }

    /** The fields of the new header, and those of its parent and its next sibling. */
    method FillHeader(h: PoolHdr, parent: PoolHdr?, ghost q: Option<nat>, blok: BlockHdr, ghost b: nat, ghost s: State)
      requires RecMirrors() && Distinct(live) && h !in live.Values
      requires h.Rec() == PoolRec(blok, blok, null, null, null, null, POOL_HDR)
      requires parent == null <==> q == None
      requires q.Some? ==> Known(parent, q.value) && q.value in s.pools && q.value in recs
      requires q.Some? ==> parent.subPools == SubAt(live, s.pools[q.value].kids, 0)
      requires q.Some? ==> forall k :: k in s.pools[q.value].kids ==> k in live && k in recs && k != q.value
      modifies this`recs, h, live.Values
      ensures RecMirrors() && recs[b := h.Rec()] == RecsMade(live, old(recs), s, q, b, h, blok)
    {
      if parent != null {
        Adopt(h, parent, q.value, s.pools[q.value].kids);
      }
    }

    /** Puts a new pool at the head of its parent's list. */
    method Adopt(h: PoolHdr, parent: PoolHdr, ghost q: nat, ghost ks: seq<nat>)
      requires RecMirrors() && Distinct(live) && h !in live.Values && Known(parent, q)
      requires h.Rec().subPrev == null && parent.subPools == SubAt(live, ks, 0)
      requires forall k :: k in ks ==> k in live && k in recs && k != q
      modifies this`recs, h, parent`subPools, (set k | k in live.Values)`subPrev
      ensures RecMirrors() && h.Rec() == old(h.Rec()).(parent := parent, subNext := SubAt(live, ks, 0))
      ensures q in old(recs)
      ensures var recs1 := if ks == [] then old(recs) else old(recs)[ks[0] := old(recs)[ks[0]].(subPrev := h)];
              recs == recs1[q := recs1[q].(subPools := h)]
    {
      assert RecMirror(q);
      hide Distinct;
      h.parent := parent;
      h.subNext := parent.subPools;
      assert RecMirrors() by {
        forall x: nat ensures RecMirror(x) { assert old(RecMirror(x)); }
      }
      assert (h.subNext == null) == (ks == []) && (ks != [] ==> h.subNext == live[ks[0]]) by {
        assert ks != [] ==> ks[0] in ks;
      }
      hide SubAt, RecMirrors, RecMirror;
      if h.subNext != null {
        SetSubPrev(h.subNext, h, ks[0]);
      }
      SetSubPools(parent, h, q);
    }

    /** The new pool is one of the live ones from now on. */
    ghost method Register(h: PoolHdr, b: nat)
      requires RecMirrors() && b !in live
      modifies this`live, this`recs
      ensures RecMirrors() && live == old(live)[b := h] && recs == old(recs)[b := h.Rec()]
    {
      live := live[b := h];
      recs := recs[b := h.Rec()];
      forall x: nat ensures RecMirror(x) { assert old(RecMirror(x)); }
    }

    // ---- clear_pool and destroy_pool ----

    /** free_blocks on the blocks behind the pool's first one. */
    method ReleaseTail(a: PoolHdr, ghost p: nat)
      requires Valid() && Known(a, p)
      modifies store, store.made
      ensures Inv(model) && Sane(model) && p in model.pools && p in recs && Distinct(live) && store.Mirrors()
      ensures RecMirrors()
      ensures store.made == old(store.made) && p < |store.made| && a.first == store.made[p]
      ensures a.freeFirstAvail == POOL_HDR
      ensures store.free == FreeTail(model, p).free && |store.vals| == |store.made| == |store.nexts|
      ensures FreeTail(model, p).blocks == store.vals[p := Block(store.vals[p].cap, POOL_HDR)]
      ensures Good(store.made, store.nexts[p := null], store.blockFreelist, live,
                   recs[p := recs[p].(last := store.made[p])], FreeTail(model, p))
    {
      ghost var made0, nexts0, head0, s := store.made, store.nexts, store.blockFreelist, model;
      ghost var c := s.pools[p].chain;
      TailOf(a, p);
      FreeTailParts(s, p);
      hide *;
      FreeChain(a.first.next, c[1..]);
      GoodTailFreed(made0, nexts0, head0, live, recs, s, p, store.nexts, store.blockFreelist);
    }

    /** free_blocks, called from inside a pool operation. */
    method FreeChain(blok: BlockHdr?, ghost l: seq<nat>)
      requires store.Mirrors() && RecMirrors() && store.FreeOk()
      requires Linked(store.made, store.nexts, blok, l) && NoDup(l) && forall b :: b in l ==> b !in store.free
      modifies store, store.made
      ensures store.Mirrors() && RecMirrors() && store.made == old(store.made)
      ensures Linked(store.made, store.nexts, store.blockFreelist, l + old(store.free))
      ensures store.free == l + old(store.free) && store.vals == Reset(old(store.vals), l)
      ensures |store.nexts| == |store.made| && |old(store.nexts)| == |store.made| && |store.vals| == |store.made|
      ensures forall i :: 0 <= i < |store.made| && i !in l ==> store.nexts[i] == old(store.nexts)[i]
    {
      hide store.Mirror, Segment, Linked, NoDup, InRange, Reset;
      store.FreeBlocks(blok, l);
      forall q: nat ensures RecMirror(q) { assert old(RecMirror(q)); }
    }

    /** What free_blocks is given by clear_pool. */
    lemma TailOf(a: PoolHdr, p: nat)
      requires Valid() && Known(a, p)
      ensures Inv(model) && Sane(model) && p in model.pools && p in recs && Distinct(live)
      ensures store.FreeOk() && p < |store.made| && |store.nexts| == |store.made|
      ensures a.freeFirstAvail == POOL_HDR && store.vals == model.blocks && store.free == model.free
      ensures Good(store.made, store.nexts, store.blockFreelist, live, recs, model)
      ensures var c := model.pools[p].chain;
              && c != [] && c[0] == p && a.first == store.made[p] && NoDup(c[1..])
              && Linked(store.made, store.nexts, a.first.next, c[1..]) && (forall b :: b in c[1..] ==> b !in store.free)
    {
      Fields(a, p);
      GoodPool(store.made, store.nexts, store.blockFreelist, live, recs, model, p);
      var c := model.pools[p].chain;
      store.LinkAt(a.first, c, 0);
      SegmentSplit(store.made, store.nexts, a.first, c, 1, null);
    }

    lemma FreeTailParts(s: State, p: nat)
      requires Sane(s) && p in s.pools && s.pools[p].chain[0] == p
      ensures FreeTail(s, p).free == s.pools[p].chain[1..] + s.free
      ensures p < |s.blocks|
      ensures var r := Reset(s.blocks, s.pools[p].chain[1..]);
              |r| == |s.blocks| && FreeTail(s, p).blocks == r[p := Block(r[p].cap, POOL_HDR)]
    {
    }

    /** clear_pool after its loop. */
    method FreeRest(a: PoolHdr, ghost p: nat)
      requires Valid() && Known(a, p)
      modifies this`model, this`recs, store, store.made, a`last
      ensures Inv(old(model)) && Sane(old(model)) && p in old(model).pools && Valid()
      ensures model == FreeTail(old(model), p)
      ensures store.made == old(store.made)
    {
      ghost var s := model;
      hide *;
      ReleaseTail(a, p);
      PutBack(a, p, FreeTail(s, p));
    }

    /** a->first->h.next = NULL; a->last = a->first. */
    method CutBehindFirst(a: PoolHdr, ghost p: nat)
      requires store.Mirrors() && RecMirrors() && Distinct(live) && Known(a, p) && p < |store.made|
      requires store.made[p] == a.first
      modifies this`recs, a`last, store`nexts, a.first`next
      ensures store.Mirrors() && RecMirrors() && p in old(recs) && |old(store.nexts)| == |store.made|
      ensures recs == old(recs)[p := old(recs)[p].(last := store.made[p])] && store.nexts == old(store.nexts)[p := null]
    {
      hide *;
      SetBlockNext(a.first, null, p);
      SetLast(a, a.first, p);
    }

    /** The rest of clear_pool: the pool's own fields and its first block go back to what they were. */
    method PutBack(a: PoolHdr, ghost p: nat, ghost s': State)
      requires store.Mirrors() && RecMirrors() && Distinct(live) && Known(a, p) && p in recs
      requires p < |store.made| && a.first == store.made[p] && |store.vals| == |store.made| == |store.nexts|
      requires a.freeFirstAvail == POOL_HDR
      requires store.free == s'.free && s'.blocks == store.vals[p := Block(store.vals[p].cap, POOL_HDR)]
      requires Good(store.made, store.nexts[p := null], store.blockFreelist, live,
                    recs[p := recs[p].(last := store.made[p])], s')
      modifies this`model, this`recs, store`nexts, store`vals, a`last, a.first`next, a.first`firstAvail
      ensures Valid() && model == s'
    {
      hide *;
      CutBehindFirst(a, p);
      SetBlockAvail(a.first, a.freeFirstAvail, p);
      Become(s');
    }

    // ---- destroy_pool ----

    /** Takes the pool a, at position i of the list ks of its parent's sub-pools, off that list. */
    method Unlink(a: PoolHdr, ghost p: nat, ghost q: nat, ghost ks: seq<nat>, ghost i: nat)
      requires RecMirrors() && Distinct(live) && Known(a, p)
      requires i < |ks| && ks[i] == p && NoDup(ks) && q !in ks && q in live && a.parent == live[q]
      requires forall j :: 0 <= j < |ks| ==> ks[j] in live && ks[j] in recs
      requires live[q].subPools == SubAt(live, ks, 0) && a.subNext == SubAt(live, ks, i + 1)
      requires a.subPrev == SubAt(live, ks, i - 1)
      modifies this`recs, live.Values
      ensures RecMirrors() && q in old(recs) && recs == RecsUnlinked(live, old(recs), ks, q, i)
      ensures a.first == old(a.first)
    {
      assert RecMirror(q);
      assert (a.parent.subPools == a) == (i == 0);
      assert i > 0 ==> live[ks[i - 1]] != a && a.subPrev == live[ks[i - 1]];
      assert i + 1 < |ks| ==> live[ks[i + 1]] != a && a.subNext == live[ks[i + 1]];
      hide RecMirrors, RecMirror, Distinct, NoDup;
      if a.parent.subPools == a {
        SetSubPools(a.parent, a.subNext, q);
      }
      if a.subPrev != null {
        SetSubNext(a.subPrev, a.subNext, ks[i - 1]);
      }
      if a.subNext != null {
        SetSubPrev(a.subNext, a.subPrev, ks[i + 1]);
      }
    }

    /** Where the pool a is on its parent's list. */
    lemma PositionOf(a: PoolHdr, p: nat) returns (i: nat)
      requires Valid() && Known(a, p)
      ensures Inv(model) && Places(live, recs, model.pools) && Distinct(live) && p in recs && AtPosition(model, p, i)
      ensures a.parent == null <==> model.pools[p].parent == None
      ensures a.parent != null ==>
                var q := model.pools[p].parent.value;
                var ks := model.pools[q].kids;
                && i < |ks| && ks[i] == p && NoDup(ks) && q !in ks && q in live && q in recs && a.parent == live[q]
                && (forall j :: 0 <= j < |ks| ==> ks[j] in live && ks[j] in recs)
                && live[q].subPools == SubAt(live, ks, 0) && a.subNext == SubAt(live, ks, i + 1)
                && a.subPrev == SubAt(live, ks, i - 1)
    {
      Links(a, p);
      i := 0;
      if model.pools[p].parent.Some? {
        var q := model.pools[p].parent.value;
        assert ParentOk(model.pools, p);
        i :| 0 <= i < |model.pools[q].kids| && model.pools[q].kids[i] == p;
        PositionFacts(live, recs, model, p, i);
        assert RecMirror(q);
        assert Siblings(live, recs, model.pools[q].kids) && recs[model.pools[q].kids[i]] == recs[p];
      }
    }

    /** destroy_pool's unlinking; a pool without parent has nothing to leave. */
    method LeaveParent(a: PoolHdr, ghost p: nat) returns (ghost i: nat)
      requires Valid() && Known(a, p)
      modifies this`recs, live.Values
      ensures Inv(model) && Places(live, old(recs), model.pools) && AtPosition(model, p, i) && a.first == old(a.first)
      ensures RecMirrors() && recs - {p} == RecsDropped(live, old(recs), model, p, i)
    {
      i := PositionOf(a, p);
      hide Valid, Good, Inv, Places, AtPosition, Distinct, NoDup, RecsUnlinked, SubAt;
      if a.parent != null {
        Unlink(a, p, model.pools[p].parent.value, model.pools[model.pools[p].parent.value].kids, i);
      }
    }

    /** What free_blocks is given by destroy_pool. */
    lemma OneBlock(a: PoolHdr, p: nat)
      requires Valid() && Known(a, p) && p in model.pools && model.pools[p].chain == [p]
      ensures store.FreeOk() && store.Mirrors() && store.vals == model.blocks && store.free == model.free
      ensures Good(store.made, store.nexts, store.blockFreelist, live, recs, model)
      ensures Linked(store.made, store.nexts, a.first, [p]) && NoDup([p]) && p !in store.free
    {
      Fields(a, p);
      GoodPool(store.made, store.nexts, store.blockFreelist, live, recs, model, p);
    }

    /** destroy_pool after its clear_pool. */
    method DropPool(a: PoolHdr, ghost p: nat)
      requires Valid() && Known(a, p) && p in model.pools && model.pools[p].kids == [] && model.pools[p].chain == [p]
      modifies this`model, this`live, this`recs, store, store.made, live.Values
      ensures Valid() && model == DropLeaf(old(model), p) && live == old(live) - {p} && store.made == old(store.made)
    {
      hide *;
      GiveUpBlock(a, p);
      Forget(p);
      Become(DropLeaf(model, p));
    }

    /** destroy_pool after its clear_pool: off the list of sub-pools, and its block to the free list. */
    method GiveUpBlock(a: PoolHdr, ghost p: nat)
      requires Valid() && Known(a, p) && p in model.pools && model.pools[p].kids == [] && model.pools[p].chain == [p]
      modifies this`recs, store, store.made, live.Values
      ensures store.Mirrors() && RecMirrors() && store.made == old(store.made)
      ensures store.vals == DropLeaf(model, p).blocks && store.free == DropLeaf(model, p).free
      ensures Good(store.made, store.nexts, store.blockFreelist, live - {p}, recs - {p}, DropLeaf(model, p))
    {
      hide *;
      ghost var made0, nexts0, head0, recs0, s := store.made, store.nexts, store.blockFreelist, recs, model;
      OneBlock(a, p);
      LeafParts(s, p);
      ghost var i := LeaveParent(a, p);
      FreeChain(a.first, [p]);
      GoodDropped(made0, nexts0, head0, live, recs0, s, p, i, store.nexts, store.blockFreelist);
    }

    lemma LeafParts(s: State, p: nat)
      requires p in s.pools && s.pools[p].chain == [p]
      ensures DropLeaf(s, p).free == [p] + s.free && DropLeaf(s, p).blocks == Reset(s.blocks, [p])
    {
    }

    /** A destroyed pool is no longer one of the live ones. */
    ghost method Forget(p: nat)
      requires RecMirrors()
      modifies this`live, this`recs
      ensures RecMirrors() && live == old(live) - {p} && recs == old(recs) - {p}
    {
      live, recs := live - {p}, recs - {p};
      forall x: nat ensures RecMirror(x) { assert old(RecMirror(x)); }
    }

    /** a names the sub-pools of a pool that has some. */
    lemma SubPools(a: PoolHdr, p: nat)
      requires Valid() && Known(a, p)
      ensures Inv(model) && p in model.pools && Sane(model) && TreeOk(model.pools, model.clock)
      ensures a.subPools == null <==> model.pools[p].kids == []
      ensures a.subPools != null ==>
                var k := model.pools[p].kids[0];
                Known(a.subPools, k) && FirstKid(model, p, k)
                    && model.pools[p].stamp < model.pools[k].stamp < model.clock
    {
      Links(a, p);
      if model.pools[p].kids != [] {
        var k := model.pools[p].kids[0];
        assert k in model.pools[p].kids;
        KidFacts(model.pools, model.clock, p, k);
      }
    }

    /** How much of the tree of pools can lie under p: what bounds the recursion. */
    ghost function Height(p: nat): nat
      reads this`model
    {
      if p in model.pools && model.pools[p].stamp < model.clock then model.clock - model.pools[p].stamp else 0
    }

    lemma IsLive(a: PoolHdr, p: nat)
      requires Known(a, p)
      ensures p in live && a in live.Values
    {
    }

    /** clear_pool: every sub-pool is destroyed, then the pool's own memory given back. */
    method ClearPool(a: PoolHdr, ghost p: nat)
      requires Valid() && Known(a, p)
      modifies this`model, this`live, this`recs, store, store.made, live.Values
      ensures Sane(old(model)) && p in old(model).pools && TreeOk(old(model).pools, old(model).clock)
      ensures Valid() && Known(a, p) && model == Clear(old(model), p)
      ensures store.made == old(store.made) && Shrunk(old(live), live)
      decreases Height(p), 2
    {
      hide *;
      ValidFacts();
      IsLive(a, p);
      DestroyAll(a, p);
      ClearRest(a, p);
    }

    /** clear_pool's loop. */
    method DestroyAll(a: PoolHdr, ghost p: nat)
      requires Valid() && Known(a, p)
      modifies this`model, this`live, this`recs, store, store.made, live.Values
      ensures Sane(old(model)) && p in old(model).pools && Sane(model) && p in model.pools
      ensures Valid() && Known(a, p) && a.subPools == null && Clear(model, p) == Clear(old(model), p)
      ensures store.made == old(store.made) && Shrunk(old(live), live)
      decreases Height(p), 1
    {
      SubPools(a, p);
      hide *;
      ShrunkSame(live);
      while a.subPools != null
        invariant Valid() && Known(a, p) && Sane(model) && p in model.pools && Clear(model, p) == Clear(old(model), p)
        invariant Height(p) == old(Height(p))
        invariant store.made == old(store.made) && Shrunk(old(live), live)
        decreases |model.pools[p].kids|
      {
        ShrunkValues(old(live), live);
        DestroyFirst(a, p, old(live));
      }
    }

    /** clear_pool when there are no more sub-pools. */
    method ClearRest(a: PoolHdr, ghost p: nat)
      requires Valid() && Known(a, p) && a.subPools == null
      modifies this`model, this`recs, store, store.made, a`last
      ensures Sane(old(model)) && p in old(model).pools && Valid() && model == Clear(old(model), p)
      ensures store.made == old(store.made)
    {
      SubPools(a, p);
      ClearLeaf(model, p);
      hide *;
      FreeRest(a, p);
    }

    /** The first sub-pool, and what destroying it leaves to clear. */
    lemma FirstSubPool(a: PoolHdr, p: nat) returns (k: nat)
      requires Valid() && Known(a, p) && a.subPools != null
      ensures Sane(model) && p in model.pools && model.pools[p].kids != [] && k in model.pools && Known(a.subPools, k)
      ensures Height(k) < Height(p)
      ensures var d := Destroy(model, k);
              && Sane(d) && p in d.pools && d.clock == model.clock && Clear(d, p) == Clear(model, p)
              && d.pools[p] == model.pools[p].(kids := model.pools[p].kids[1..])
    {
      SubPools(a, p);
      k := model.pools[p].kids[0];
      DestroyInv(model, k);
      ClearStep(model, p, k);
      ParentAfterKid(model, p, k);
    }

    /** One turn of clear_pool's loop. */
    method DestroyFirst(a: PoolHdr, ghost p: nat, ghost live0: map<nat, PoolHdr>)
      requires Valid() && Known(a, p) && a.subPools != null && Shrunk(live0, live)
      modifies this`model, this`live, this`recs, store, store.made, live.Values
      ensures Sane(old(model)) && p in old(model).pools
      ensures Valid() && Known(a, p) && Sane(model) && p in model.pools && Clear(model, p) == Clear(old(model), p)
      ensures Height(p) == old(Height(p))
      ensures |model.pools[p].kids| < |old(model).pools[p].kids|
      ensures store.made == old(store.made) && Shrunk(live0, live) && Shrunk(old(live), live)
      decreases Height(p), 0
    {
      ghost var s, live1 := model, live;
      hide Valid, Inv, Sane, TreeOk, Clear, Destroy, Under, Freed, FreedKids, Left, Shrunk;
      ghost var k := FirstSubPool(a, p);
      DestroyPool(a.subPools, k);
      ShrunkTwice(live0, live1, live);
      ValidFacts();
    }

    /** destroy_pool: the pool is cleared, leaves its parent's list and gives up its last block. */
    method DestroyPool(a: PoolHdr, ghost p: nat)
      requires Valid() && Known(a, p)
      modifies this`model, this`live, this`recs, store, store.made, live.Values
      ensures p in old(model).pools && Valid() && model == Destroy(old(model), p)
      ensures live.Keys == model.pools.Keys && store.made == old(store.made) && Shrunk(old(live), live)
      decreases Height(p), 3
    {
      ghost var s, live0 := model, live;
      ValidFacts();
      DestroyFromClear(s, p);
      ClearedPool(s, p);
      hide *;
      ClearPool(a, p);
      ghost var live1 := live;
      ShrunkValues(live0, live1);
      DropPool(a, p);
      ShrunkLess(live0, live1, p);
      ValidFacts();
    }

    // ---- Accounting ----

    /** bytes_in_pool. */
    method BytesInPool(a: PoolHdr, ghost p: nat) returns (size: nat)
      requires Valid() && Known(a, p)
      ensures p in model.pools && InRange(model.pools[p].chain, |model.blocks|)
      ensures size == BytesIn(model.blocks, model.pools[p].chain)
    {
      Fields(a, p);
      GoodPool(store.made, store.nexts, store.blockFreelist, live, recs, model, p);
      size := store.BytesInList(a.first, model.pools[p].chain);
    }

    /** bytes_in_free_blocks. */
    method BytesInFreeBlocks() returns (size: nat)
      requires Valid()
      ensures InRange(model.free, |model.blocks|) && size == BytesIn(model.blocks, model.free)
    {
      size := store.BytesInList(store.blockFreelist, model.free);
    }
  }

  /** The pools of l are pools of l0, with the same handles. */
  ghost predicate Shrunk(l0: map<nat, PoolHdr>, l: map<nat, PoolHdr>) {
    forall q :: q in l ==> q in l0 && l[q] == l0[q]
  }

  lemma ShrunkSame(l: map<nat, PoolHdr>)
    ensures Shrunk(l, l)
  {
  }

  lemma ShrunkTwice(l0: map<nat, PoolHdr>, l1: map<nat, PoolHdr>, l2: map<nat, PoolHdr>)
    requires Shrunk(l0, l1) && Shrunk(l1, l2)
    ensures Shrunk(l0, l2)
    ensures forall q :: q in l2 ==> q in l1 && l2[q] == l1[q]
  {
  }

  lemma ShrunkLess(l0: map<nat, PoolHdr>, l1: map<nat, PoolHdr>, p: nat)
    requires Shrunk(l0, l1)
    ensures Shrunk(l0, l1 - {p})
  {
  }

  lemma ShrunkValues(l0: map<nat, PoolHdr>, l: map<nat, PoolHdr>)
    requires Shrunk(l0, l)
    ensures l.Values <= l0.Values
  {
  }

  /** What a cleared pool has left. */
  lemma ClearedPool(s: State, p: nat)
    requires Inv(s) && p in s.pools
    ensures p in Clear(s, p).pools && Clear(s, p).pools[p].kids == [] && Clear(s, p).pools[p].chain == [p]
  {
    assert FilledPool(s.blocks, p, s.pools[p]);
    assert Under(s.pools, p, p);
  }
}
