/** The region allocator of src/memmanager.c on values.

    A block is named by the number of malloc calls made before it was obtained; blocks
    are never given back to malloc, so the name is for ever.  An address is a block and
    an offset into its usable bytes.  A pool's header occupies the first POOL_HDR bytes
    of the pool's first block, so a pool's address is the name of that block. */
module PoolModel {

  datatype Option<+T> = None | Some(value: T)

  type Positive = n: int | 0 < n witness 1

  /** The sizes the compiler settles: of union align, and of the two headers, which take
      whole clicks. */
  const CLICK_SZ: Positive
  const BLOCK_HDR_CLICKS: Positive
  const POOL_HDR_CLICKS: Positive
  const BLOCK_HDR: nat := BLOCK_HDR_CLICKS * CLICK_SZ
  const POOL_HDR: nat := POOL_HDR_CLICKS * CLICK_SZ
  const BLOCK_MINALLOC: nat := 8192
  const BLOCK_MINFREE: nat := 4096
  const INT_MAX: nat := 0x7FFF_FFFF

  /** A block's usable bytes (endp minus its start) and how many of them are taken
      (first_avail minus its start). */
  datatype Block = Block(cap: nat, avail: nat)

  /** One call of palloc with a positive size, and the address it returned. */
  datatype Alloc = Alloc(req: nat, blk: nat, off: nat)

  /** A live pool: its blocks from first to last, its place in the tree of pools, the
      moment it was made, and (history) what it has served since it was made or cleared. */
  datatype Pool = Pool(chain: seq<nat>, parent: Option<nat>, kids: seq<nat>, stamp: nat, log: seq<Alloc>)

  datatype State = State(blocks: seq<Block>, free: seq<nat>, pools: map<nat, Pool>, clock: nat)

  function Init(): State {
    State([], [], map[], 0)
  }

  ghost predicate InRange(l: seq<nat>, n: nat) {
    forall i :: 0 <= i < |l| ==> l[i] < n
  }

  ghost predicate ChainOk(s: State, p: nat) {
    p in s.pools && s.pools[p].chain != [] && InRange(s.pools[p].chain, |s.blocks|)
  }

  /** Lists name blocks that exist, and every pool has a first block. */
  ghost predicate Sane(s: State) {
    && InRange(s.free, |s.blocks|)
    && (forall p {:trigger ChainOk(s, p)} {:trigger s.pools[p]} :: p in s.pools ==> ChainOk(s, p))
  }

  // ---- Getting a block ----

  /** palloc's rounding of a request to whole clicks. */
  function RoundUp(n: int): int {
    (1 + (n - 1) / CLICK_SZ) * CLICK_SZ
  }

  /** The request leaves room in an int for the bytes new_block and malloc_block add. */
  predicate FitsInt(n: int) {
    RoundUp(n) + BLOCK_MINFREE + BLOCK_HDR <= INT_MAX
  }

  predicate Room(blocks: seq<Block>, b: nat, need: int)
    requires b < |blocks|
  {
    need <= blocks[b].cap - blocks[b].avail
  }

  /** The position of the first free block with room, or the length of the list. */
  function FirstFit(blocks: seq<Block>, free: seq<nat>, need: int): (k: nat)
    requires InRange(free, |blocks|)
    ensures k <= |free|
    ensures forall i :: 0 <= i < k ==> !Room(blocks, free[i], need)
    ensures k < |free| ==> Room(blocks, free[k], need)
  {
    if free == [] || Room(blocks, free[0], need) then 0 else 1 + FirstFit(blocks, free[1..], need)
  }

  function Max(a: int, b: int): (m: int)
    ensures a <= m && b <= m && (m == a || m == b)
  {
    if a > b then a else b
  }

  /** The block new_block(min) returns. */
  function ChosenBlock(s: State, min: nat): nat
    requires Sane(s)
  {
    var k := FirstFit(s.blocks, s.free, min + BLOCK_MINFREE);
    if k < |s.free| then s.free[k] else |s.blocks|
  }

  /** The state after new_block(min): a free block unlinked, or one more malloc. */
  function NewBlock(s: State, min: nat): (r: State)
    requires Sane(s)
    ensures Sane(r) && ChosenBlock(s, min) < |r.blocks| && r.pools == s.pools
  {
    var k := FirstFit(s.blocks, s.free, min + BLOCK_MINFREE);
    if k < |s.free| then s.(free := s.free[..k] + s.free[k + 1..])
    else s.(blocks := s.blocks + [Block(Max(min + BLOCK_MINFREE, BLOCK_MINALLOC), 0)])
  }

  function Take(blocks: seq<Block>, b: nat, n: nat): seq<Block>
    requires b < |blocks|
  {
    blocks[b := blocks[b].(avail := blocks[b].avail + n)]
  }

  // ---- Pools ----

  /** make_sub_pool: the new pool becomes the head of its parent's list. */
  function MakeSub(s: State, parent: Option<nat>): State
    requires Sane(s) && (parent.Some? ==> parent.value in s.pools)
  {
    var s1 := NewBlock(s, POOL_HDR);
    var b := ChosenBlock(s, POOL_HDR);
    var pools := if parent.Some?
                 then s.pools[parent.value := s.pools[parent.value].(kids := [b] + s.pools[parent.value].kids)]
                 else s.pools;
    State(Take(s1.blocks, b, POOL_HDR), s1.free, pools[b := Pool([b], parent, [], s.clock, [])], s.clock + 1)
  }

  predicate FitsLast(s: State, p: nat, size: int)
    requires Sane(s) && p in s.pools
  {
    var c := s.pools[p].chain;
    var b := c[|c| - 1];
    s.blocks[b].avail + size <= s.blocks[b].cap
  }

  /** No int overflows in serving the request: its rounded size is an int, and new_block,
      if it is needed, has room in an int for what it adds. */
  predicate IntSafe(s: State, p: nat, n: int)
    requires Sane(s) && p in s.pools
  {
    FitsInt(n) || (RoundUp(n) <= INT_MAX && FitsLast(s, p, RoundUp(n)))
  }

  /** palloc when the pool's last block has room. */
  function PallocHere(s: State, p: nat, n: nat): State
    requires Sane(s) && p in s.pools && n > 0
  {
    var pool := s.pools[p];
    var b := pool.chain[|pool.chain| - 1];
    s.(blocks := Take(s.blocks, b, RoundUp(n)),
       pools := s.pools[p := pool.(log := pool.log + [Alloc(n, b, s.blocks[b].avail)])])
  }

  /** palloc when it has to append a block to the pool. */
  function PallocNext(s: State, p: nat, n: nat): State
    requires Sane(s) && p in s.pools && n > 0
  {
    var size: nat := RoundUp(n);
    var pool := s.pools[p];
    var s1 := NewBlock(s, size);
    var b := ChosenBlock(s, size);
    s1.(blocks := Take(s1.blocks, b, size),
        pools := s.pools[p := pool.(chain := pool.chain + [b], log := pool.log + [Alloc(n, b, s1.blocks[b].avail)])])
  }

  /** palloc with a positive request. */
  function Palloc(s: State, p: nat, n: nat): State
    requires Sane(s) && p in s.pools && n > 0
  {
    if FitsLast(s, p, RoundUp(n)) then PallocHere(s, p, n) else PallocNext(s, p, n)
  }

  /** The pointer the last palloc on p returned. */
  function Returned(s: State, p: nat): Alloc
    requires p in s.pools && s.pools[p].log != []
  {
    s.pools[p].log[|s.pools[p].log| - 1]
  }

  // ---- Clearing and destroying, in closed form ----

  /** Pool q is p or a descendant of p. */
  predicate Under(pools: map<nat, Pool>, q: nat, p: nat)
    decreases if q in pools then pools[q].stamp else 0
  {
    || q == p
    || (&& q in pools && pools[q].parent.Some? && pools[q].parent.value in pools
        && pools[pools[q].parent.value].stamp < pools[q].stamp
        && Under(pools, pools[q].parent.value, p))
  }

  /** The blocks destroy_pool(p) puts on the free list, in the order they end up there. */
  function Freed(pools: map<nat, Pool>, clock: nat, p: nat): seq<nat>
    decreases if p in pools && pools[p].stamp < clock then clock - pools[p].stamp else 0,
              if p in pools then |pools[p].kids| + 1 else 0
  {
    if p in pools && pools[p].stamp < clock then
      pools[p].chain + FreedKids(pools, clock, pools[p].kids, pools[p].stamp)
    else []
  }

  /** The blocks freed by destroying the sub-pools ks one by one from the head, in the
      order they end up on the free list: the last destroyed comes first. */
  function FreedKids(pools: map<nat, Pool>, clock: nat, ks: seq<nat>, above: nat): seq<nat>
    decreases if above < clock then clock - above else 0, |ks|
  {
    if ks == [] then []
    else FreedKids(pools, clock, ks[1..], above)
         + (if ks[0] in pools && above < pools[ks[0]].stamp < clock then Freed(pools, clock, ks[0]) else [])
  }

  /** Every block of the list has its first_avail put back to its start. */
  function Reset(blocks: seq<Block>, list: seq<nat>): (r: seq<Block>)
    ensures |r| == |blocks|
    ensures forall i :: 0 <= i < |blocks| ==> r[i] == if i in list then Block(blocks[i].cap, 0) else blocks[i]
  {
    seq(|blocks|, i requires 0 <= i < |blocks| => if i in list then Block(blocks[i].cap, 0) else blocks[i])
  }

  function Without(ks: seq<nat>, k: nat): seq<nat> {
    if ks == [] then [] else if ks[0] == k then ks[1..] else [ks[0]] + Without(ks[1..], k)
  }

  /** clear_pool: the strict descendants are gone, p keeps only its first block with
      only its header in it, and all other blocks of the subtree are free. */
  function Clear(s: State, p: nat): State
    requires Sane(s) && p in s.pools
  {
    var pool := s.pools[p];
    var freed := pool.chain[1..] + FreedKids(s.pools, s.clock, pool.kids, pool.stamp);
    var blocks := Reset(s.blocks, freed);
    s.(blocks := blocks[pool.chain[0] := Block(blocks[pool.chain[0]].cap, POOL_HDR)],
       free := freed + s.free,
       pools := map q | q in s.pools && (q == p || !Under(s.pools, q, p)) ::
         if q == p then pool.(chain := [pool.chain[0]], kids := [], log := []) else s.pools[q])
  }

  /** The pools that destroy_pool(p) leaves: p is off its parent's list. */
  function Left(pools: map<nat, Pool>, p: nat): map<nat, Pool>
    requires p in pools
  {
    map q | q in pools && !Under(pools, q, p) ::
      if pools[p].parent == Some(q) then pools[q].(kids := Without(pools[q].kids, p)) else pools[q]
  }

  /** destroy_pool: p and its descendants are gone, their blocks are free, and p is off
      its parent's list. */
  function Destroy(s: State, p: nat): State
    requires p in s.pools
  {
    var freed := Freed(s.pools, s.clock, p);
    s.(blocks := Reset(s.blocks, freed),
       free := freed + s.free,
       pools := Left(s.pools, p))
  }

  // ---- Accounting ----

  /** bytes_in_block_list: the usable bytes of the blocks of a list. */
  function BytesIn(blocks: seq<Block>, list: seq<nat>): nat
    requires InRange(list, |blocks|)
  {
    if list == [] then 0 else blocks[list[0]].cap + BytesIn(blocks, list[1..])
  }

  lemma {:induction false} BytesSplit(blocks: seq<Block>, a: seq<nat>, b: seq<nat>)
    requires InRange(a, |blocks|) && InRange(b, |blocks|)
    ensures InRange(a + b, |blocks|) && BytesIn(blocks, a + b) == BytesIn(blocks, a) + BytesIn(blocks, b)
    decreases |a|
  {
    if a == [] {
      assert a + b == b;
    } else {
      assert (a + b)[1..] == a[1..] + b;
      BytesSplit(blocks, a[1..], b);
    }
  }

  lemma BytesSnoc(blocks: seq<Block>, l: seq<nat>, b: nat)
    requires InRange(l, |blocks|) && b < |blocks|
    ensures InRange(l + [b], |blocks|) && BytesIn(blocks, l + [b]) == BytesIn(blocks, l) + blocks[b].cap
  {
    BytesSplit(blocks, l, [b]);
    assert BytesIn(blocks, [b]) == blocks[b].cap + BytesIn(blocks, []);
  }
}
