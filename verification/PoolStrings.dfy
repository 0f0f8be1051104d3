/** pcalloc, pstrdup, pstrndup and pstrcat: what they ask for, what they leave in the bytes
    they are given, and that this is a call of palloc and a write of PoolBytes. */
module PoolStrings {
  import opened PoolModel
  import opened PoolInv
  import opened PoolRuns
  import opened PoolBytes
  import opened PoolBlocks
  import opened PoolShape
  import opened PoolAllocator

  const NUL: char := '\0'

  type Memory = map<(BlockHdr, nat), char>

  // ---- Bytes in memory ----

  /** Memory after the bytes have been stored from offset off of a block on. */
  ghost function Put(m: Memory, blk: BlockHdr, off: nat, bytes: seq<char>): Memory
    decreases |bytes|
  {
    if bytes == [] then m
    else Put(m, blk, off, bytes[..|bytes| - 1])[(blk, off + |bytes| - 1) := bytes[|bytes| - 1]]
  }

  /** Storing puts each byte in its place and touches no other. */
  lemma {:induction false} PutAt(m: Memory, blk: BlockHdr, off: nat, bytes: seq<char>, b: BlockHdr, o: nat)
    ensures var m' := Put(m, blk, off, bytes);
            if b == blk && off <= o < off + |bytes| then (b, o) in m' && m'[(b, o)] == bytes[o - off]
            else ((b, o) in m' <==> (b, o) in m) && ((b, o) in m ==> m'[(b, o)] == m[(b, o)])
    decreases |bytes|
  {
    if bytes != [] {
      PutAt(m, blk, off, bytes[..|bytes| - 1], b, o);
    }
  }

  /** Storing one piece right behind another. */
  lemma {:induction false} PutAppend(m: Memory, blk: BlockHdr, off: nat, u: seq<char>, v: seq<char>)
    ensures Put(Put(m, blk, off, u), blk, off + |u|, v) == Put(m, blk, off, u + v)
    decreases |v|
  {
    if v == [] {
      assert u + v == u;
    } else {
      var n := |v| - 1;
      PutAppend(m, blk, off, u, v[..n]);
      assert (u + v)[..|u + v| - 1] == u + v[..n];
    }
  }

  /** A byte that is stored over leaves no trace. */
  lemma {:induction false} PutOver(m: Memory, blk: BlockHdr, off: nat, c: char, v: seq<char>)
    requires v != []
    ensures Put(m[(blk, off) := c], blk, off, v) == Put(m, blk, off, v)
    decreases |v|
  {
    if |v| > 1 {
      PutOver(m, blk, off, c, v[..|v| - 1]);
    } else {
      assert v[..0] == [];
    }
  }

  /** strcpy over the terminator of what is there appends. */
  lemma PutText(m: Memory, blk: BlockHdr, off: nat, u: seq<char>, v: seq<char>)
    ensures Put(Put(m, blk, off, u + [NUL]), blk, off + |u|, v + [NUL]) == Put(m, blk, off, (u + v) + [NUL])
  {
    assert (u + [NUL])[..|u + [NUL]| - 1] == u;
    PutOver(Put(m, blk, off, u), blk, off + |u|, NUL, v + [NUL]);
    PutAppend(m, blk, off, u, v + [NUL]);
    assert u + (v + [NUL]) == (u + v) + [NUL];
  }

  lemma PutLast(m: Memory, blk: BlockHdr, off: nat, bytes: seq<char>, c: char)
    ensures Put(m, blk, off, bytes)[(blk, off + |bytes|) := c] == Put(m, blk, off, bytes + [c])
    ensures bytes == [] ==> m[(blk, off) := c] == Put(m, blk, off, [c])
  {
    assert (bytes + [c])[..|bytes|] == bytes;
    assert [] + [c] == [c];
  }

  // ---- Strings in memory ----

  /** strlen: the position of the first NUL. */
  function StrLen(buf: seq<char>): (n: nat)
    requires NUL in buf
    ensures n < |buf| && buf[n] == NUL && forall i :: 0 <= i < n ==> buf[i] != NUL
  {
    if buf[0] == NUL then 0 else 1 + StrLen(buf[1..])
  }

  /** The characters of a string before its terminator. */
  function Text(buf: seq<char>): (t: seq<char>)
    requires NUL in buf
    ensures t + [NUL] <= buf && NUL !in t
  {
    buf[..StrLen(buf)]
  }

  lemma TextAndNul(buf: seq<char>)
    requires NUL in buf
    ensures StrLen(buf) < |buf| && buf[..StrLen(buf) + 1] == Text(buf) + [NUL] && |Text(buf)| == StrLen(buf)
  {
  }

  ghost predicate Strings(args: seq<seq<char>>) {
    forall i :: 0 <= i < |args| ==> NUL in args[i]
  }

  /** The texts of all arguments one after the other. */
  ghost function Concat(args: seq<seq<char>>): seq<char>
    requires Strings(args)
  {
    if args == [] then [] else Concat(args[..|args| - 1]) + Text(args[|args| - 1])
  }

  lemma ConcatNext(args: seq<seq<char>>, i: nat)
    requires Strings(args) && i < |args|
    ensures Concat(args[..i + 1]) == Concat(args[..i]) + Text(args[i])
  {
    assert args[..i + 1][..i] == args[..i];
  }

  /** The lengths of the first i texts together. */
  function Lengths(args: seq<seq<char>>, i: nat): nat
    requires Strings(args) && i <= |args|
  {
    if i == 0 then 0 else Lengths(args, i - 1) + StrLen(args[i - 1])
  }

  lemma {:induction false} LengthsSum(args: seq<seq<char>>, i: nat)
    requires Strings(args) && i <= |args|
    ensures Strings(args[..i]) && |Concat(args[..i])| == Lengths(args, i)
  {
    if i > 0 {
      LengthsSum(args, i - 1);
      ConcatNext(args, i - 1);
    }
  }

  lemma ConcatOne(args: seq<seq<char>>, n: nat)
    requires Strings(args) && 0 < n <= |args|
    ensures Strings(args[..n - 1]) && |Concat(args[..n - 1])| == Lengths(args, n - 1)
    ensures Strings(args[..n]) && Concat(args[..n]) == Concat(args[..n - 1]) + Text(args[n - 1])
    ensures Text(args[n - 1]) == args[n - 1][..StrLen(args[n - 1])]
  {
    ConcatNext(args, n - 1);
    LengthsSum(args, n - 1);
  }

  /** Each text stands where the earlier ones end. */
  lemma {:induction false} ConcatAt(args: seq<seq<char>>, n: nat, i: nat, k: nat)
    requires Strings(args) && i < n <= |args| && k < StrLen(args[i])
    ensures Strings(args[..n]) && Lengths(args, i) + k < |Concat(args[..n])|
    ensures Concat(args[..n])[Lengths(args, i) + k] == args[i][k]
    decreases n
  {
    hide Concat, Lengths, StrLen, Text, Strings;
    ConcatOne(args, n);
    if i < n - 1 {
      ConcatAt(args, n - 1, i, k);
    }
  }

  ghost predicate ByteIs(m: Memory, blk: BlockHdr, o: nat, c: char) {
    (blk, o) in m && m[(blk, o)] == c
  }

  /** The bytes stand in memory from an offset of a block on. */
  ghost predicate Holds(m: Memory, blk: BlockHdr, off: nat, bytes: seq<char>) {
    forall k: nat {:trigger bytes[k]} :: k < |bytes| ==> ByteIs(m, blk, off + k, bytes[k])
  }

  lemma PutHolds(m: Memory, blk: BlockHdr, off: nat, bytes: seq<char>)
    ensures Holds(Put(m, blk, off, bytes), blk, off, bytes)
  {
    var m' := Put(m, blk, off, bytes);
    forall k: nat {:trigger bytes[k]} | k < |bytes| ensures ByteIs(m', blk, off + k, bytes[k]) {
      PutAt(m, blk, off, bytes, blk, off + k);
    }
  }

  // ---- Seen from the model ----

  ghost predicate Numbered(made: seq<BlockHdr>) {
    forall i :: 0 <= i < |made| ==> made[i].id == i
  }

  /** The byte at every offset of every block. */
  ghost function View(made: seq<BlockHdr>, m: Memory): (nat, nat) -> char {
    (b: nat, o: nat) => if b < |made| && (made[b], o) in m then m[(made[b], o)] else NUL
  }

  /** The state s1 and the memory m1 come from s0 and m0 by a palloc on p for as many
      bytes as are given and a write of them at the address it returned. */
  ghost predicate Copied(made0: seq<BlockHdr>, m0: Memory, s0: State, made1: seq<BlockHdr>, m1: Memory, s1: State,
                         p: nat, bytes: seq<char>,
                         blk: BlockHdr, off: nat)
  {
    && made0 <= made1 && blk in made1 && Inv(s0) && p in s0.pools && m1 == Put(m0, blk, off, bytes)
    && Called(Store(s0, View(made0, m0)), PallocOp(p, |bytes|), Store(s1, View(made1, m0)))
    && Written(Store(s1, View(made1, m0)), p, |s0.pools[p].log|, 0, bytes, Store(s1, View(made1, m1)))
    && s1.pools[p].log[|s0.pools[p].log|] == Alloc(|bytes|, blk.id, off)
  }

  lemma CopyIsARun(made0: seq<BlockHdr>, m0: Memory, s0: State, made1: seq<BlockHdr>, m1: Memory, s1: State, p: nat,
                   bytes: seq<char>,
                   blk: BlockHdr, off: nat)
    requires Inv(s0) && p in s0.pools && bytes != [] && Can(s0, PallocOp(p, |bytes|)) && s1 == Palloc(s0, p, |bytes|)
    requires |made0| == |s0.blocks| && made0 <= made1 && |made1| == |s1.blocks| && Numbered(made1) && blk in made1
    requires p in s1.pools && s1.pools[p].log != [] && blk.id == Returned(s1, p).blk && off == Returned(s1, p).off
    requires m1 == Put(m0, blk, off, bytes)
    ensures Copied(made0, m0, s0, made1, m1, s1, p, bytes, blk, off)
  {
    var i, b := |s0.pools[p].log|, blk.id;
    LastAsked(s0, p, |bytes|);
    assert s1.pools[p].log[i] == Returned(s1, p);
    assert made1[b] == blk;
    ViewAfterPut(made1, m0, blk, off, bytes);
    hide Inv, Palloc, View, Put;
  }

  /** How storing bytes changes what the blocks hold. */
  lemma ViewAfterPut(made: seq<BlockHdr>, m: Memory, blk: BlockHdr, off: nat, bytes: seq<char>)
    requires Numbered(made) && blk in made
    ensures forall c: nat, o: nat :: View(made, Put(m, blk, off, bytes))(c, o) ==
              if c == blk.id && off <= o < off + |bytes| then bytes[o - off] else View(made, m)(c, o)
  {
    forall c: nat, o: nat
      ensures View(made, Put(m, blk, off, bytes))(c, o) ==
          if c == blk.id && off <= o < off + |bytes| then bytes[o - off] else View(made, m)(c, o)
    {
      if c < |made| { PutAt(m, blk, off, bytes, made[c], o); }
    }
  }

  // ---- The same byte by byte ----

  /** The last request of pool p was for n bytes, and got those at off of the block. */
  ghost predicate Got(st: State, p: nat, n: nat, blk: BlockHdr, off: nat) {
    p in st.pools && st.pools[p].log != [] && Returned(st, p) == Alloc(n, blk.id, off)
  }

  lemma CopiedBytes(made0: seq<BlockHdr>, m0: Memory, s0: State, made1: seq<BlockHdr>, m1: Memory, s1: State,
                    p: nat, bytes: seq<char>, blk: BlockHdr, off: nat)
    requires Copied(made0, m0, s0, made1, m1, s1, p, bytes, blk, off) && bytes != []
    ensures Got(s1, p, |bytes|, blk, off) && Holds(m1, blk, off, bytes)
  {
    LastAsked(s0, p, |bytes|);
    PutHolds(m0, blk, off, bytes);
  }

  /** As many bytes as asked for, and every one a NUL. */
  ghost predicate IsZeros(size: nat, st: State, p: nat, m: Memory, blk: BlockHdr, off: nat) {
    Got(st, p, size, blk, off) && forall o: nat :: off <= o < off + size ==> ByteIs(m, blk, o, NUL)
  }

  /** The bytes of src up to its first NUL and that one too, and no more. */
  ghost predicate IsCopy(src: seq<char>, st: State, p: nat, m: Memory, blk: BlockHdr, off: nat) {
    exists n :: 0 <= n < |src| && src[n] == NUL && NUL !in src[..n] && Got(st, p, n + 1, blk, off)
      && forall k: nat {:trigger src[k]} :: k <= n ==> ByteIs(m, blk, off + k, src[k])
  }

  /** The first n bytes of src, whatever they are, and a NUL behind them. */
  ghost predicate IsCopyOfFirst(n: nat, src: seq<char>, st: State, p: nat, m: Memory, blk: BlockHdr, off: nat) {
    && n <= |src| && Got(st, p, n + 1, blk, off) && ByteIs(m, blk, off + n, NUL)
    && forall k: nat {:trigger src[k]} :: k < n ==> ByteIs(m, blk, off + k, src[k])
  }

  /** The k-th byte of the i-th argument comes before its first NUL. */
  predicate IsChar(args: seq<seq<char>>, i: nat, k: nat) {
    i < |args| && k < |args[i]| && NUL !in args[i][..k + 1]
  }

  /** The characters of each argument before its first NUL, from where the earlier ones end,
      and a NUL behind the last. */
  ghost predicate IsJoin(args: seq<seq<char>>, st: State, p: nat, m: Memory, blk: BlockHdr, off: nat) {
    && Strings(args) && Got(st, p, Lengths(args, |args|) + 1, blk, off)
    && ByteIs(m, blk, off + Lengths(args, |args|), NUL)
    && forall i: nat, k: nat :: IsChar(args, i, k) ==> ByteIs(m, blk, off + Lengths(args, i) + k, args[i][k])
  }

  lemma BytesAreZeros(size: nat, st: State, p: nat, m: Memory, blk: BlockHdr, off: nat)
    requires Got(st, p, size, blk, off) && Holds(m, blk, off, seq(size, _ => NUL))
    ensures IsZeros(size, st, p, m, blk, off)
  {
    var z := seq(size, _ => NUL);
    forall o: nat | off <= o < off + size ensures ByteIs(m, blk, o, NUL) { assert z[o - off] == NUL; }
  }

  lemma BytesAreCopy(src: seq<char>, st: State, p: nat, m: Memory, blk: BlockHdr, off: nat)
    requires NUL in src
    requires Got(st, p, |Text(src)| + 1, blk, off) && Holds(m, blk, off, Text(src) + [NUL])
    ensures IsCopy(src, st, p, m, blk, off)
  {
    var n, t := |Text(src)|, Text(src) + [NUL];
    assert src[..n] == Text(src) && src[n] == t[n] == NUL;
    forall k: nat | k <= n ensures ByteIs(m, blk, off + k, src[k]) { assert t[k] == src[k]; }
  }

  lemma BytesAreFirst(n: nat, src: seq<char>, st: State, p: nat, m: Memory, blk: BlockHdr, off: nat)
    requires n <= |src| && Got(st, p, n + 1, blk, off) && Holds(m, blk, off, src[..n] + [NUL])
    ensures IsCopyOfFirst(n, src, st, p, m, blk, off)
  {
    var t := src[..n] + [NUL];
    assert t[n] == NUL;
    forall k: nat | k < n ensures ByteIs(m, blk, off + k, src[k]) { assert t[k] == src[k]; }
  }

  lemma InText(src: seq<char>, k: nat)
    requires NUL in src && k < |src| && NUL !in src[..k + 1]
    ensures k < StrLen(src)
  {
    assert src[StrLen(src)] == NUL;
  }

  lemma HoldsByte(m: Memory, blk: BlockHdr, off: nat, bytes: seq<char>, k: nat)
    requires Holds(m, blk, off, bytes) && k < |bytes|
    ensures ByteIs(m, blk, off + k, bytes[k])
  {
  }

  lemma JoinByte(args: seq<seq<char>>, m: Memory, blk: BlockHdr, off: nat, i: nat, k: nat)
    requires Strings(args) && Holds(m, blk, off, Concat(args) + [NUL]) && IsChar(args, i, k)
    ensures ByteIs(m, blk, off + Lengths(args, i) + k, args[i][k])
  {
    hide Concat, Lengths, StrLen, Holds, ByteIs;
    assert args[..|args|] == args;
    InText(args[i], k);
    ConcatAt(args, |args|, i, k);
    HoldsByte(m, blk, off, Concat(args) + [NUL], Lengths(args, i) + k);
  }

  lemma BytesAreJoin(args: seq<seq<char>>, st: State, p: nat, m: Memory, blk: BlockHdr, off: nat)
    requires Strings(args)
    requires Got(st, p, |Concat(args)| + 1, blk, off) && Holds(m, blk, off, Concat(args) + [NUL])
    ensures IsJoin(args, st, p, m, blk, off)
  {
    hide Concat, Lengths, Holds, Got, ByteIs;
    assert args[..|args|] == args;
    LengthsSum(args, |args|);
    HoldsByte(m, blk, off, Concat(args) + [NUL], |Concat(args)|);
    forall i: nat, k: nat | IsChar(args, i, k) ensures ByteIs(m, blk, off + Lengths(args, i) + k, args[i][k]) {
      JoinByte(args, m, blk, off, i, k);
    }
  }

  // ---- The routines ----

  class PoolHeap {
    const alloc: Allocator
    var mem: Memory

    constructor ()
      ensures alloc.Valid() && alloc.model == Init() && mem == map[]
    {
      alloc := new Allocator();
      mem := map[];
    }

    /** memset, memcpy and strcpy: the bytes go to memory one by one. */
    method CopyBytes(blk: BlockHdr, off: nat, bytes: seq<char>)
      modifies this`mem
      ensures mem == Put(old(mem), blk, off, bytes)
    {
      var k := 0;
      while k < |bytes|
        invariant 0 <= k <= |bytes| && mem == Put(old(mem), blk, off, bytes[..k])
      {
        mem := mem[(blk, off + k) := bytes[k]];
        assert bytes[..k + 1][..k] == bytes[..k];
        k := k + 1;
      }
      assert bytes[..k] == bytes;
    }

    /** What a valid heap is seen as. */
    lemma Seen()
      requires alloc.Valid()
      ensures Inv(alloc.model) && |alloc.store.made| == |alloc.model.blocks| && Numbered(alloc.store.made)
    {
      forall i | 0 <= i < |alloc.store.made| ensures alloc.store.made[i].id == i {
        assert alloc.store.Mirror(i);
      }
    }

    /** palloc for a positive number of bytes. */
    method Ask(a: PoolHdr, ghost p: nat, n: int) returns (blk: BlockHdr, off: nat)
      requires alloc.Valid() && alloc.Known(a, p) && n > 0 && alloc.IntSafe(a, n)
      modifies alloc`model, alloc`recs, alloc.store, alloc.store.made, a`last
      ensures alloc.Valid() && Inv(old(alloc.model)) && p in old(alloc.model).pools
      ensures alloc.model == Palloc(old(alloc.model), p, n)
      ensures Can(old(alloc.model), PallocOp(p, n))
      ensures |old(alloc.store.made)| == |old(alloc.model).blocks| && |alloc.store.made| == |alloc.model.blocks|
      ensures Numbered(alloc.store.made)
      ensures old(alloc.store.made) <= alloc.store.made && blk in alloc.store.made
      ensures p in alloc.model.pools && alloc.model.pools[p].log != []
      ensures blk.id == Returned(alloc.model, p).blk && off == Returned(alloc.model, p).off
    {
      hide *;
      Seen();
      alloc.CanPalloc(a, p, n);
      var res;
      res, off := alloc.Palloc(a, p, n);
      blk := res;
      Seen();
    }

    /** palloc of as many bytes as there are, and the bytes in them. */
    method Serve(a: PoolHdr, ghost p: nat, bytes: seq<char>) returns (blk: BlockHdr, off: nat)
      requires alloc.Valid() && alloc.Known(a, p) && bytes != [] && alloc.IntSafe(a, |bytes|)
      modifies this`mem, alloc`model, alloc`recs, alloc.store, alloc.store.made, a`last
      ensures alloc.Valid()
      ensures Copied(old(alloc.store.made), old(mem), old(alloc.model), alloc.store.made, mem, alloc.model, p, bytes,
              blk, off)
    {
      hide *;
      ghost var made0, m0, s0 := alloc.store.made, mem, alloc.model;
      blk, off := Ask(a, p, |bytes|);
      CopyBytes(blk, off, bytes);
      CopyIsARun(made0, m0, s0, alloc.store.made, mem, alloc.model, p, bytes, blk, off);
    }

    /** pcalloc: as many zero bytes as asked for, or NULL for none. */
    method Pcalloc(a: PoolHdr, ghost p: nat, size: nat) returns (blk: BlockHdr?, off: nat)
      requires alloc.Valid() && alloc.Known(a, p) && (size > 0 ==> alloc.IntSafe(a, size))
      modifies this`mem, alloc`model, alloc`recs, alloc.store, alloc.store.made, a`last
      ensures alloc.Valid()
      ensures size == 0 ==> blk == null && mem == old(mem) && alloc.model == old(alloc.model)
      ensures size > 0 ==>
                && blk != null
                && Copied(old(alloc.store.made), old(mem), old(alloc.model), alloc.store.made, mem, alloc.model, p,
                     seq(size, _ => NUL), blk, off)
                && IsZeros(size, alloc.model, p, mem, blk, off)
    {
      hide *;
      if size == 0 {
        return null, 0;
      }
      ghost var made0, m0, s0 := alloc.store.made, mem, alloc.model;
      var zeros := seq(size, _ => NUL);
      blk, off := Serve(a, p, zeros);
      CopiedBytes(made0, m0, s0, alloc.store.made, mem, alloc.model, p, zeros, blk, off);
      BytesAreZeros(size, alloc.model, p, mem, blk, off);
    }

    method Strlen(buf: seq<char>) returns (n: nat)
      requires NUL in buf
      ensures n == StrLen(buf)
    {
      n := 0;
      while buf[n] != NUL
        invariant n < |buf| && forall i :: 0 <= i < n ==> buf[i] != NUL
        invariant n <= StrLen(buf)
        decreases |buf| - n
      {
        n := n + 1;
      }
    }

    /** pstrdup: the text of the string and its terminator. */
    method Pstrdup(a: PoolHdr, ghost p: nat, s: Option<seq<char>>) returns (blk: BlockHdr?, off: nat)
      requires alloc.Valid() && alloc.Known(a, p)
      requires s.Some? ==> NUL in s.value && alloc.IntSafe(a, StrLen(s.value) + 1)
      modifies this`mem, alloc`model, alloc`recs, alloc.store, alloc.store.made, a`last
      ensures alloc.Valid()
      ensures s == None ==> blk == null && mem == old(mem) && alloc.model == old(alloc.model)
      ensures s.Some? ==>
                && blk != null
                && Copied(old(alloc.store.made), old(mem), old(alloc.model), alloc.store.made, mem, alloc.model, p,
                     Text(s.value) + [NUL], blk, off)
                && IsCopy(s.value, alloc.model, p, mem, blk, off)
    {
      hide *;
      if s == None {
        return null, 0;
      }
      ghost var made0, m0, s0 := alloc.store.made, mem, alloc.model;
      TextAndNul(s.value);
      var n := Strlen(s.value);
      var len := n + 1;
      blk, off := Serve(a, p, s.value[..len]);
      CopiedBytes(made0, m0, s0, alloc.store.made, mem, alloc.model, p, s.value[..len], blk, off);
      BytesAreCopy(s.value, alloc.model, p, mem, blk, off);
    }

    /** memcpy, and a terminator behind it. */
    method CopyTerminated(blk: BlockHdr, off: nat, bytes: seq<char>)
      modifies this`mem
      ensures mem == Put(old(mem), blk, off, bytes + [NUL])
    {
      CopyBytes(blk, off, bytes);
      PutLast(old(mem), blk, off, bytes, NUL);
      mem := mem[(blk, off + |bytes|) := NUL];
    }

    /** palloc of one more than there are bytes, the bytes in it and a terminator. */
    method ServeTerminated(a: PoolHdr, ghost p: nat, bytes: seq<char>) returns (blk: BlockHdr, off: nat)
      requires alloc.Valid() && alloc.Known(a, p) && alloc.IntSafe(a, |bytes| + 1)
      modifies this`mem, alloc`model, alloc`recs, alloc.store, alloc.store.made, a`last
      ensures alloc.Valid()
      ensures Copied(old(alloc.store.made), old(mem), old(alloc.model), alloc.store.made, mem, alloc.model, p,
              bytes + [NUL], blk, off)
    {
      hide *;
      ghost var made0, m0, s0 := alloc.store.made, mem, alloc.model;
      blk, off := Ask(a, p, |bytes| + 1);
      CopyTerminated(blk, off, bytes);
      CopyIsARun(made0, m0, s0, alloc.store.made, mem, alloc.model, p, bytes + [NUL], blk, off);
    }

    /** pstrndup: exactly n bytes, terminator or not, and a terminator behind them. */
    method Pstrndup(a: PoolHdr, ghost p: nat, s: Option<seq<char>>, n: nat) returns (blk: BlockHdr?, off: nat)
      requires alloc.Valid() && alloc.Known(a, p) && (s.Some? ==> n <= |s.value| && alloc.IntSafe(a, n + 1))
      modifies this`mem, alloc`model, alloc`recs, alloc.store, alloc.store.made, a`last
      ensures alloc.Valid()
      ensures s == None ==> blk == null && mem == old(mem) && alloc.model == old(alloc.model)
      ensures s.Some? ==>
                && blk != null
                && Copied(old(alloc.store.made), old(mem), old(alloc.model), alloc.store.made, mem, alloc.model, p,
                     s.value[..n] + [NUL], blk, off)
                && IsCopyOfFirst(n, s.value, alloc.model, p, mem, blk, off)
    {
      hide *;
      if s == None {
        return null, 0;
      }
      ghost var made0, m0, s0 := alloc.store.made, mem, alloc.model;
      blk, off := ServeTerminated(a, p, s.value[..n]);
      CopiedBytes(made0, m0, s0, alloc.store.made, mem, alloc.model, p, s.value[..n] + [NUL], blk, off);
      BytesAreFirst(n, s.value, alloc.model, p, mem, blk, off);
    }

    /** pstrcat: the texts of all arguments one after the other, and a terminator. */
    method Pstrcat(a: PoolHdr, ghost p: nat, args: seq<seq<char>>) returns (blk: BlockHdr, off: nat)
      requires alloc.Valid() && alloc.Known(a, p) && Strings(args) && alloc.IntSafe(a, |Concat(args)| + 1)
      modifies this`mem, alloc`model, alloc`recs, alloc.store, alloc.store.made, a`last
      ensures alloc.Valid()
      ensures Copied(old(alloc.store.made), old(mem), old(alloc.model), alloc.store.made, mem, alloc.model, p,
              Concat(args) + [NUL], blk, off)
      ensures IsJoin(args, alloc.model, p, mem, blk, off)
    {
      hide *;
      ghost var made0, m0, s0 := alloc.store.made, mem, alloc.model;
      var len := TotalLength(args);
      blk, off := Ask(a, p, len + 1);
      mem := mem[(blk, off) := NUL];
      PutLast(m0, blk, off, [], NUL);
      CopyAll(blk, off, args, m0);
      CopyIsARun(made0, m0, s0, alloc.store.made, mem, alloc.model, p, Concat(args) + [NUL], blk, off);
      CopiedBytes(made0, m0, s0, alloc.store.made, mem, alloc.model, p, Concat(args) + [NUL], blk, off);
      BytesAreJoin(args, alloc.model, p, mem, blk, off);
    }

    /** Pass one of pstrcat: the length of the result. */
    method TotalLength(args: seq<seq<char>>) returns (len: nat)
      requires Strings(args)
      ensures len == |Concat(args)|
    {
      len := 0;
      var i := 0;
      while i < |args|
        invariant 0 <= i <= |args| && len == |Concat(args[..i])|
      {
        var n := Strlen(args[i]);
        ConcatNext(args, i);
        len := len + n;
        i := i + 1;
      }
      assert args[..i] == args;
    }

    /** Pass two of pstrcat: every text over the terminator of the one before. */
    method CopyAll(blk: BlockHdr, off: nat, args: seq<seq<char>>, ghost m0: Memory)
      requires Strings(args) && mem == Put(m0, blk, off, [NUL])
      modifies this`mem
      ensures mem == Put(m0, blk, off, Concat(args) + [NUL])
    {
      var cp := off;
      var i := 0;
      assert Concat(args[..0]) + [NUL] == [NUL];
      hide Put, Text, Concat;
      while i < |args|
        invariant 0 <= i <= |args| && cp == off + |Concat(args[..i])|
        invariant mem == Put(m0, blk, off, Concat(args[..i]) + [NUL])
      {
        ConcatNext(args, i);
        var n := AppendText(blk, off, cp, args[i], m0, Concat(args[..i]));
        cp := cp + n;
        i := i + 1;
      }
      assert args[..i] == args;
    }

    /** strcpy(cp, argp) where cp is at the terminator of the text u, and strlen(argp). */
    method AppendText(blk: BlockHdr, ghost off: nat, cp: nat, argp: seq<char>, ghost m0: Memory, ghost u: seq<char>)
      returns (n: nat)
      requires NUL in argp && cp == off + |u| && mem == Put(m0, blk, off, u + [NUL])
      modifies this`mem
      ensures n == |Text(argp)| && mem == Put(m0, blk, off, (u + Text(argp)) + [NUL])
    {
      hide Put;
      n := Strlen(argp);
      assert argp[..n + 1] == Text(argp) + [NUL];
      PutText(m0, blk, off, u, Text(argp));
      CopyBytes(blk, cp, argp[..n + 1]);
    }
  }
}
