/** The blocks of src/memmanager.c as linked objects, and the routines that work on
    lists of blocks: malloc_block, free_blocks, new_block and bytes_in_block_list. */
module PoolBlocks {
  import opened Sequences
  import opened PoolModel

  /** union block_hdr: endp and first_avail as distances from the first usable byte.  id is
      the number of mallocs before this one. */
  class BlockHdr {
    ghost const id: nat
    const endp: nat
    var firstAvail: nat
    var next: BlockHdr?

    constructor (ghost id: nat, size: nat)
      ensures this.id == id && endp == size && firstAvail == 0 && next == null
    {
      this.id, endp, firstAvail, next := id, size, 0, null;
    }
  }

  /** The block at position i of the list, or end behind the last one. */
  ghost function At(made: seq<BlockHdr>, l: seq<nat>, i: nat, end: BlockHdr?): BlockHdr?
    requires InRange(l, |made|)
  {
    if i < |l| then made[l[i]] else end
  }

  /** Starting at head, the next pointers lead through exactly the blocks of the list, and then to end. */
  ghost predicate Segment(made: seq<BlockHdr>, nexts: seq<BlockHdr?>, head: BlockHdr?, l: seq<nat>, end: BlockHdr?) {
    && |nexts| == |made| && InRange(l, |made|)
    && head == At(made, l, 0, end)
    && forall i {:trigger nexts[l[i]]} :: 0 <= i < |l| ==> nexts[l[i]] == At(made, l, i + 1, end)
  }

  ghost predicate Linked(made: seq<BlockHdr>, nexts: seq<BlockHdr?>, head: BlockHdr?, l: seq<nat>) {
    Segment(made, nexts, head, l, null)
  }

  /** A list whose last block leads to another list makes one list with it. */
  lemma SegmentConcat(made: seq<BlockHdr>, nexts: seq<BlockHdr?>, head: BlockHdr?, l: seq<nat>, mid: BlockHdr?,
                      f: seq<nat>, end: BlockHdr?)
    requires Segment(made, nexts, head, l, mid) && Segment(made, nexts, mid, f, end)
    ensures Segment(made, nexts, head, l + f, end)
  {
    var c := l + f;
    forall i: nat | i <= |c|
      ensures InRange(c, |made|) && At(made, c, i, end) == if i < |l| then At(made, l, i, mid)
              else At(made, f, i - |l|, end) {}
    forall i: nat | i < |c| ensures nexts[c[i]] == At(made, c, i + 1, end) {
      assert i < |l| ==> nexts[l[i]] == At(made, l, i + 1, mid);
      assert i >= |l| ==> nexts[f[i - |l|]] == At(made, f, i - |l| + 1, end);
    }
  }

  lemma LinkedConcat(made: seq<BlockHdr>, nexts: seq<BlockHdr?>, head: BlockHdr?, l: seq<nat>, mid: BlockHdr?,
                     f: seq<nat>)
    requires Segment(made, nexts, head, l, mid) && Linked(made, nexts, mid, f)
    ensures Linked(made, nexts, head, l + f)
  {
    SegmentConcat(made, nexts, head, l, mid, f, null);
  }

  /** A list taken apart at a position. */
  lemma SegmentSplit(made: seq<BlockHdr>, nexts: seq<BlockHdr?>, head: BlockHdr?, l: seq<nat>, k: nat, end: BlockHdr?)
    requires Segment(made, nexts, head, l, end) && k <= |l|
    ensures Segment(made, nexts, head, l[..k], At(made, l, k, end))
    ensures Segment(made, nexts, At(made, l, k, end), l[k..], end)
  {
    var a, b, mid := l[..k], l[k..], At(made, l, k, end);
    forall i: nat | i < |a| ensures nexts[a[i]] == At(made, a, i + 1, mid) {
      assert nexts[l[i]] == At(made, l, i + 1, end);
    }
    forall i: nat | i < |b| ensures nexts[b[i]] == At(made, b, i + 1, end) {
      assert nexts[l[k + i]] == At(made, l, k + i + 1, end);
    }
  }

  /** A list keeps its shape while its own next pointers do, however many blocks are made. */
  lemma SegmentKept(made: seq<BlockHdr>, nexts: seq<BlockHdr?>, made': seq<BlockHdr>, nexts': seq<BlockHdr?>,
                    head: BlockHdr?, l: seq<nat>, end: BlockHdr?)
    requires Segment(made, nexts, head, l, end) && |nexts'| == |made'|
    requires |made| <= |made'| && forall i :: 0 <= i < |made| ==> made'[i] == made[i]
    requires forall i :: 0 <= i < |l| ==> nexts'[l[i]] == nexts[l[i]]
    ensures Segment(made', nexts', head, l, end)
  {
    forall i: nat | i < |l| ensures nexts'[l[i]] == At(made', l, i + 1, end) {
      assert nexts[l[i]] == At(made, l, i + 1, end);
    }
  }

  /** Pointing the last block of a list somewhere else. */
  lemma SegmentRetarget(made: seq<BlockHdr>, nexts: seq<BlockHdr?>, head: BlockHdr?, l: seq<nat>, end: BlockHdr?,
                        end': BlockHdr?)
    requires Segment(made, nexts, head, l, end) && l != [] && NoDup(l)
    ensures Segment(made, nexts[l[|l| - 1] := end'], head, l, end')
  {
    var nexts' := nexts[l[|l| - 1] := end'];
    forall i: nat | i < |l| ensures nexts'[l[i]] == At(made, l, i + 1, end') {
      assert nexts[l[i]] == At(made, l, i + 1, end);
    }
  }

  /** The next pointers after unlinking the k-th block of a list. */
  ghost function UnlinkedNexts(made: seq<BlockHdr>, nexts: seq<BlockHdr?>, l: seq<nat>, k: nat): seq<BlockHdr?>
    requires |nexts| == |made| && InRange(l, |made|) && k < |l|
  {
    if k == 0 then nexts[l[0] := null] else nexts[l[k - 1] := At(made, l, k + 1, null)][l[k] := null]
  }

  lemma UnlinkedElsewhere(made: seq<BlockHdr>, nexts: seq<BlockHdr?>, l: seq<nat>, k: nat)
    requires |nexts| == |made| && InRange(l, |made|) && k < |l|
    ensures var r := UnlinkedNexts(made, nexts, l, k);
            |r| == |made| && r[l[k]] == null && forall i :: 0 <= i < |made| && i !in l ==> r[i] == nexts[i]
  {
  }

  lemma RemoveDistinct(l: seq<nat>, k: nat)
    requires NoDup(l) && k < |l|
    ensures NoDup(l[..k]) && NoDup(l[..k] + l[k + 1..])
    ensures var a, c := l[..k], l[k + 1..];
            && (forall i :: 0 <= i < |a| ==> a[i] != l[k])
            && (forall i :: 0 <= i < |c| ==> c[i] != l[k] && (k > 0 ==> c[i] != l[k - 1]))
  {
  }

  lemma UnlinkShape(made: seq<BlockHdr>, nexts: seq<BlockHdr?>, head: BlockHdr?, l: seq<nat>, k: nat)
    requires Linked(made, nexts, head, l) && NoDup(l) && k < |l|
    ensures Linked(made, UnlinkedNexts(made, nexts, l, k),
                   if k == 0 then At(made, l, 1, null) else head, l[..k] + l[k + 1..])
    ensures NoDup(l[..k] + l[k + 1..])
  {
    var mid, a, c := At(made, l, k + 1, null), l[..k], l[k + 1..];
    var nexts' := UnlinkedNexts(made, nexts, l, k);
    SegmentSplit(made, nexts, head, l, k, null);
    SegmentSplit(made, nexts, head, l, k + 1, null);
    RemoveDistinct(l, k);
    hide Segment, NoDup;
    SegmentKept(made, nexts, made, nexts', mid, c, null);
    if k > 0 {
      SegmentRetarget(made, nexts, head, a, made[l[k]], mid);
      SegmentKept(made, nexts[l[k - 1] := mid], made, nexts', head, a, mid);
      SegmentConcat(made, nexts', head, a, mid, c, null);
    } else {
      assert a + c == c;
    }
  }

  lemma {:induction false} FirstFitIs(blocks: seq<Block>, free: seq<nat>, need: int, k: nat)
    requires InRange(free, |blocks|) && k <= |free|
    requires forall i :: 0 <= i < k ==> !Room(blocks, free[i], need)
    requires k < |free| ==> Room(blocks, free[k], need)
    ensures FirstFit(blocks, free, need) == k
    decreases |free|
  {
    if k > 0 {
      assert forall i :: 0 <= i < k - 1 ==> free[1..][i] == free[i + 1];
      FirstFitIs(blocks, free[1..], need, k - 1);
    }
  }

  /** The global state the block routines work on.  The ghost fields list every block
      ever made and what its header holds. */
  class BlockStore {
    var blockFreelist: BlockHdr?
    ghost var made: seq<BlockHdr>
    ghost var nexts: seq<BlockHdr?>
    ghost var vals: seq<Block>
    ghost var free: seq<nat>

    /** The i-th block's header in memory holds what the ghost fields say. */
    ghost predicate Mirror(i: nat)
      requires |nexts| == |made| && |vals| == |made|
      reads this`made, this`nexts, this`vals, made
    {
      i < |made| ==>
        && made[i].id == i && made[i].next == nexts[i]
        && made[i].endp == vals[i].cap && made[i].firstAvail == vals[i].avail
    }

    ghost predicate Mirrors()
      reads this`made, this`nexts, this`vals, made
    {
      && |nexts| == |made| && |vals| == |made|
      && forall i: nat {:trigger Mirror(i)} :: Mirror(i)
    }

    ghost predicate FreeOk()
      reads this
    {
      Linked(made, nexts, blockFreelist, free) && NoDup(free)
    }

    constructor ()
      ensures Mirrors() && FreeOk() && made == [] && free == []
    {
      blockFreelist, made, nexts, vals, free := null, [], [], [], [];
    }

    /** malloc_block: a block nobody has had before. */
    method MallocBlock(size: nat) returns (blok: BlockHdr)
      requires Mirrors()
      modifies this`made, this`nexts, this`vals
      ensures fresh(blok) && Mirrors()
      ensures made == old(made) + [blok] && nexts == old(nexts) + [null] && vals == old(vals) + [Block(size, 0)]
    {
      blok := new BlockHdr(|made|, size);
      made, nexts, vals := made + [blok], nexts + [null], vals + [Block(size, 0)];
      forall i: nat ensures Mirror(i) { assert old(Mirror(i)); }
    }

    /** blok->h.first_avail = v. */
    method SetAvail(blok: BlockHdr, v: nat, ghost b: nat)
      requires Mirrors() && b < |made| && made[b] == blok
      modifies this`vals, blok`firstAvail
      ensures Mirrors() && vals == old(vals)[b := Block(old(vals)[b].cap, v)]
    {
      assert Mirror(b);
      blok.firstAvail := v;
      vals := vals[b := Block(vals[b].cap, v)];
      forall i: nat ensures Mirror(i) { assert old(Mirror(i)) && old(Mirror(b)); }
    }

    /** blok->h.next = n. */
    method SetNext(blok: BlockHdr, n: BlockHdr?, ghost b: nat)
      requires Mirrors() && b < |made| && made[b] == blok
      modifies this`nexts, blok`next
      ensures Mirrors() && nexts == old(nexts)[b := n]
    {
      assert Mirror(b);
      blok.next := n;
      nexts := nexts[b := n];
      forall i: nat ensures Mirror(i) { assert old(Mirror(i)) && old(Mirror(b)); }
    }

    /** Reading a chain: its head, and the link out of its k-th block. */
    lemma LinkAt(blok: BlockHdr?, l: seq<nat>, k: nat)
      requires Mirrors() && Linked(made, nexts, blok, l)
      ensures InRange(l, |made|) && blok == At(made, l, 0, null)
      ensures k < |l| ==>
                && made[l[k]].next == At(made, l, k + 1, null) && nexts[l[k]] == made[l[k]].next
                && made[l[k]].endp == vals[l[k]].cap && made[l[k]].firstAvail == vals[l[k]].avail
    {
      if k < |l| { assert Mirror(l[k]); }
    }

    /** Reading on in a chain. */
    lemma NextOf(blok: BlockHdr?, l: seq<nat>, k: nat)
      requires Mirrors() && Linked(made, nexts, blok, l) && k < |l|
      ensures l[k] < |made| && (k == 0 ==> blok == made[l[0]])
      ensures k + 1 < |l| ==> l[k + 1] < |made| && made[l[k]].next == made[l[k + 1]]
      ensures k + 1 == |l| ==> made[l[k]].next == null
    {
      LinkAt(blok, l, k);
    }

    lemma NonEmpty(blok: BlockHdr, l: seq<nat>)
      requires Mirrors() && Linked(made, nexts, blok, l)
      ensures l != [] && |vals| == |made|
    {
    }

    /** The loop of free_blocks: first_avail goes back to its start all along the chain. */
    method EmptyChain(blok: BlockHdr, ghost l: seq<nat>) returns (last: BlockHdr)
      requires Mirrors() && Linked(made, nexts, blok, l)
      modifies this`vals, made
      ensures Mirrors() && vals == Reset(old(vals), l)
      ensures l != [] && l[|l| - 1] < |made| && last == made[l[|l| - 1]]
    {
      hide *;
      var b := blok;
      ghost var k := 0;
      NonEmpty(blok, l);
      ResetNone(vals, l);
      NextOf(blok, l, 0);
      while b.next != null
        invariant Mirrors() && |vals| == |made| && ResetUpTo(old(vals), vals, l, k)
        invariant 0 <= k < |l| && l[k] < |made| && b == made[l[k]]
        invariant Linked(made, nexts, blok, l)
        invariant b.next == null <==> k + 1 == |l|
        decreases |l| - k
      {
        NextOf(blok, l, k);
        ResetOne(old(vals), vals, l, k);
        SetAvail(b, 0, l[k]);
        b := b.next;
        k := k + 1;
        NextOf(blok, l, k);
      }
      ResetOne(old(vals), vals, l, k);
      SetAvail(b, 0, l[k]);
      ResetDone(old(vals), vals, l);
      last := b;
    }

    /** free_blocks: the chain goes in front of the free list, every block of it empty. */
    method FreeBlocks(blok: BlockHdr?, ghost l: seq<nat>)
      requires Mirrors() && FreeOk() && Linked(made, nexts, blok, l) && NoDup(l) && forall b :: b in l ==> b !in free
      modifies this`blockFreelist, this`nexts, this`vals, this`free, made
      ensures Mirrors() && FreeOk()
      ensures free == l + old(free) && vals == Reset(old(vals), l)
      ensures |nexts| == |made| && forall i :: 0 <= i < |made| && i !in l ==> nexts[i] == old(nexts)[i]
    {
      hide *;
      if blok == null {
        NothingToFree(l);
        return;
      }
      var oldFreeList := blockFreelist;
      ChainToFree(blok, l);
      blockFreelist := blok;
      var last := EmptyChain(blok, l);
      SetNext(last, oldFreeList, l[|l| - 1]);
      FreeGrows(l, oldFreeList);
      free := l + free;
      FreeIsOk();
    }

    lemma FreeIsOk()
      requires Linked(made, nexts, blockFreelist, free) && NoDup(free)
      ensures FreeOk()
    {
    }

    lemma NothingToFree(l: seq<nat>)
      requires Mirrors() && Linked(made, nexts, null, l)
      ensures l == [] && l + free == free && Reset(vals, l) == vals && |nexts| == |made|
    {
    }

    /** What turning the last link of the chain to the free list comes to. */
    lemma ChainToFree(blok: BlockHdr, l: seq<nat>)
      requires Mirrors() && FreeOk() && Linked(made, nexts, blok, l) && NoDup(l) && forall b :: b in l ==> b !in free
      ensures l != [] && l[|l| - 1] < |made| && l[|l| - 1] in l && |nexts| == |made| && NoDup(free)
      ensures Segment(made, nexts[l[|l| - 1] := blockFreelist], blok, l, blockFreelist)
      ensures Linked(made, nexts[l[|l| - 1] := blockFreelist], blockFreelist, free)
    {
      NonEmpty(blok, l);
      NextOf(blok, l, |l| - 1);
      SegmentRetarget(made, nexts, blok, l, null, blockFreelist);
      FreeUntouched(l, blockFreelist);
    }

    /** The chain and, behind it, the old free list. */
    lemma FreeGrows(l: seq<nat>, mid: BlockHdr?)
      requires Segment(made, nexts, blockFreelist, l, mid) && Linked(made, nexts, mid, free)
      requires NoDup(l) && NoDup(free) && forall b :: b in l ==> b !in free
      ensures Linked(made, nexts, blockFreelist, l + free) && NoDup(l + free)
    {
      LinkedConcat(made, nexts, blockFreelist, l, mid, free);
      PrependNoDup(l, free);
    }

    /** The old free list does not notice. */
    lemma FreeUntouched(l: seq<nat>, n: BlockHdr?)
      requires Linked(made, nexts, n, free) && l != [] && InRange(l, |made|) && forall b :: b in l ==> b !in free
      ensures Linked(made, nexts[l[|l| - 1] := n], n, free)
    {
      assert l[|l| - 1] in l;
      SegmentKept(made, nexts, made, nexts[l[|l| - 1] := n], n, free, null);
    }

    /** Unlinks the k-th free block, given the one before it (NULL for the first). */
    method Unlink(blok: BlockHdr, prev: BlockHdr?, ghost k: nat)
      requires Mirrors() && FreeOk() && k < |free| && blok == made[free[k]]
      requires prev == if k == 0 then null else made[free[k - 1]]
      modifies this`blockFreelist, this`nexts, this`free, made
      ensures Mirrors() && FreeOk()
      ensures free == old(free)[..k] + old(free)[k + 1..]
      ensures |nexts| == |made| && nexts == UnlinkedNexts(made, old(nexts), old(free), k)
    {
      ghost var l := free;
      LinkAt(blockFreelist, l, k);
      UnlinkShape(made, nexts, blockFreelist, l, k);
      hide Linked, Segment, Mirrors, Mirror, NoDup;
      if prev == null {
        blockFreelist := blok.next;
      } else {
        SetNext(prev, blok.next, l[k - 1]);
      }
      SetNext(blok, null, l[k]);
      free := l[..k] + l[k + 1..];
    }

    /** The search of new_block: the first free block with room and the one before it. */
    method FindRoom(need: nat) returns (b: BlockHdr?, prev: BlockHdr?, ghost k: nat)
      requires Mirrors() && FreeOk()
      ensures |vals| == |made| == |nexts| && InRange(free, |made|) && k == FirstFit(vals, free, need)
      ensures b == At(made, free, FirstFit(vals, free, need), null)
      ensures prev == if k == 0 then null else made[free[k - 1]]
    {
      prev, b, k := null, blockFreelist, 0;
      LinkAt(blockFreelist, free, 0);
      while b != null && !(need <= b.endp - b.firstAvail)
        invariant 0 <= k <= |free| && b == At(made, free, k, null)
        invariant prev == if k == 0 then null else made[free[k - 1]]
        invariant forall i :: 0 <= i < k ==> !Room(vals, free[i], need)
        decreases |free| - k
      {
        LinkAt(blockFreelist, free, k);
        prev := b;
        b := b.next;
        k := k + 1;
      }
      LinkAt(blockFreelist, free, k);
      FirstFitIs(vals, free, need, k);
    }

    /** new_block: the first free block with room, or a new one from malloc. */
    method NewBlock(minSize: nat) returns (blok: BlockHdr)
      requires Mirrors() && FreeOk()
      modifies this, made
      ensures Mirrors() && FreeOk()
      ensures var need := minSize + BLOCK_MINFREE;
              var k := FirstFit(old(vals), old(free), need);
              if k < |old(free)| then
                && made == old(made) && vals == old(vals) && free == old(free)[..k] + old(free)[k + 1..]
                && blok == made[old(free)[k]] && nexts[old(free)[k]] == null
              else
                && fresh(blok) && made == old(made) + [blok] && free == old(free)
                && vals == old(vals) + [Block(Max(need, BLOCK_MINALLOC), 0)] && nexts == old(nexts) + [null]
      ensures forall i :: 0 <= i < |old(made)| && i !in old(free) ==> nexts[i] == old(nexts)[i]
    {
      var need := minSize + BLOCK_MINFREE;
      assert Linked(made, nexts, blockFreelist, free) && NoDup(free);
      hide Mirrors, Mirror, FreeOk, Linked, Segment, NoDup, UnlinkedNexts;
      var b, prev;
      ghost var k;
      b, prev, k := FindRoom(need);
      if b != null {
        UnlinkedElsewhere(made, nexts, free, k);
        Unlink(b, prev, k);
        return b;
      }
      ghost var made0, nexts0 := made, nexts;
      blok := MallocBlock(if need > BLOCK_MINALLOC then need else BLOCK_MINALLOC);
      FreeStays(made0, nexts0);
    }

    /** The free list does not notice a malloc. */
    lemma FreeStays(made0: seq<BlockHdr>, nexts0: seq<BlockHdr?>)
      requires Linked(made0, nexts0, blockFreelist, free) && NoDup(free) && |nexts| == |made| && made0 <= made
      requires nexts0 <= nexts
      ensures FreeOk()
    {
      SegmentKept(made0, nexts0, made, nexts, blockFreelist, free, null);
    }

    /** bytes_in_block_list: the usable bytes of a chain. */
    method BytesInList(blok: BlockHdr?, ghost l: seq<nat>) returns (size: nat)
      requires Mirrors() && Linked(made, nexts, blok, l)
      ensures size == BytesIn(vals, l)
    {
      size := 0;
      var b := blok;
      ghost var k := 0;
      assert l[..0] == [];
      while b != null
        invariant 0 <= k <= |l| && b == At(made, l, k, null)
        invariant InRange(l[..k], |made|) && size == BytesIn(vals, l[..k])
        decreases |l| - k
      {
        assert Mirror(l[k]) && nexts[l[k]] == At(made, l, k + 1, null);
        size := size + b.endp;
        assert l[..k + 1] == l[..k] + [l[k]];
        BytesSnoc(vals, l[..k], l[k]);
        b := b.next;
        k := k + 1;
      }
      assert l[..k] == l;
    }
  }

  /** The first k blocks of the list have been reset. */
  ghost predicate ResetUpTo(before: seq<Block>, now: seq<Block>, l: seq<nat>, k: nat) {
    k <= |l| && now == Reset(before, l[..k])
  }

  lemma ResetNone(blocks: seq<Block>, l: seq<nat>)
    ensures ResetUpTo(blocks, blocks, l, 0)
  {
    assert Reset(blocks, l[..0]) == blocks;
  }

  lemma ResetOne(before: seq<Block>, now: seq<Block>, l: seq<nat>, k: nat)
    requires ResetUpTo(before, now, l, k) && k < |l| && l[k] < |now|
    ensures ResetUpTo(before, now[l[k] := Block(now[l[k]].cap, 0)], l, k + 1)
  {
    assert l[..k + 1] == l[..k] + [l[k]];
    assert now[l[k] := Block(now[l[k]].cap, 0)] == Reset(before, l[..k + 1]);
  }

  lemma ResetDone(before: seq<Block>, now: seq<Block>, l: seq<nat>)
    requires ResetUpTo(before, now, l, |l|)
    ensures now == Reset(before, l)
  {
    assert l[..|l|] == l;
  }
}
