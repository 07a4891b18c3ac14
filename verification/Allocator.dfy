/** Memory in chunks: blocks of one size come from a free list or from the unused tail of the
    current chunk, and go back to the free list. */
module Allocator {
  import opened Collections

  /** An address; zero is no block. */
  type Address = nat

  const NULL: Address := 0

  /** The addresses of n blocks one after the other. */
  function Blocks(base: Address, n: nat, size: nat): (bs: seq<Address>)
    ensures |bs| == n
    decreases n
  {
    if n == 0 then [] else [base] + Blocks(base + size, n - 1, size)
  }

  lemma {:induction false} BlocksAt(base: Address, n: nat, size: nat)
    requires size > 0
    ensures var bs := Blocks(base, n, size);
            Row(bs, size) && (n > 0 ==> bs[0] == base && bs[n - 1] + size == base + n * size)
    ensures var bs := Blocks(base, n, size);
            forall i :: 0 <= i < n ==> base <= bs[i] && bs[i] + size <= base + n * size
    decreases n
  {
    if n > 0 {
      BlocksAt(base + size, n - 1, size);
      assert base + size + (n - 1) * size == base + n * size;
      assert n == 1 ==> 1 * size == size;
      var bs, rest := Blocks(base, n, size), Blocks(base + size, n - 1, size);
      assert forall i :: 0 < i < n ==> bs[i] == rest[i - 1];
    }
  }

  /** Blocks lie one after the other. */
  predicate Row(bs: seq<Address>, size: nat) {
    forall i, j :: 0 <= i < j < |bs| ==> bs[i] + size <= bs[j] && (j == i + 1 ==> bs[j] == bs[i] + size)
  }

  /** Each block is linked to the next, the last to none. */
  predicate Chain(s: seq<Address>, head: Address, link: map<Address, Address>) {
    && head == First(s)
    && forall i :: 0 <= i < |s| ==> Linked(s, i, link)
  }

  predicate Linked(s: seq<Address>, i: nat, link: map<Address, Address>)
    requires i < |s|
  {
    s[i] in link && link[s[i]] == First(s[i + 1..])
  }

  function First(s: seq<Address>): Address {
    if s == [] then NULL else s[0]
  }

  lemma ChainPop(s: seq<Address>, head: Address, link: map<Address, Address>)
    requires Chain(s, head, link) && s != []
    ensures head == s[0] && head in link && Chain(s[1..], link[head], link)
  {
    assert Linked(s, 0, link);
    forall i | 0 <= i < |s| - 1
      ensures Linked(s[1..], i, link)
    {
      assert Linked(s, i + 1, link) && s[1..][i + 1..] == s[i + 2..];
    }
  }

  lemma ChainPush(s: seq<Address>, head: Address, link: map<Address, Address>, b: Address)
    requires Chain(s, head, link) && b !in s
    ensures Chain([b] + s, b, link[b := head])
  {
    var t, link' := [b] + s, link[b := head];
    assert t[1..] == s;
    forall i | 0 <= i < |t|
      ensures Linked(t, i, link')
    {
      if i > 0 {
        assert Linked(s, i - 1, link) && t[i] in s && t[i + 1..] == s[i..];
      }
    }
  }

  // ----- where the blocks are -----

  /** Every block obtained is in exactly one place: in use, on the free list, or in the tail. */
  ghost predicate Parts(live: set<Address>, free: seq<Address>, tail: seq<Address>, obtained: set<Address>) {
    && Distinct(free) && Distinct(tail)
    && (forall b :: b in obtained <==> b in live || b in free || b in tail)
    && (forall b :: b in free ==> b !in live && b !in tail)
    && (forall b :: b in tail ==> b !in live)
  }

  /** Blocks do not overlap, and none is at address zero. */
  ghost predicate Spaced(obtained: set<Address>, size: nat) {
    NULL !in obtained && forall a, b :: a in obtained && b in obtained && a < b ==> a + size <= b
  }

  /** The unused blocks of the current chunk. */
  ghost predicate Unused(tail: seq<Address>, next: Address, end: Address, size: nat) {
    && Row(tail, size) && (next == end <==> tail == [])
    && (tail != [] ==> tail[0] == next && tail[|tail| - 1] + size == end)
  }

  /** Memory from chunk on, of a given length, does not meet any block obtained before. */
  ghost predicate Clear(obtained: set<Address>, size: nat, chunk: Address, length: nat) {
    chunk != NULL && forall b :: b in obtained ==> b + size <= chunk || chunk + length <= b
  }

  lemma TakeFree(live: set<Address>, free: seq<Address>, tail: seq<Address>, obtained: set<Address>)
    requires Parts(live, free, tail, obtained) && free != []
    ensures Parts(live + {free[0]}, free[1..], tail, obtained) && free[0] !in live && free[0] in obtained
  {
    var b := free[0];
    assert b in free;
    assert forall x :: x in free <==> x == b || x in free[1..];
    assert b !in free[1..];
  }

  lemma TakeUnused(live: set<Address>, free: seq<Address>, tail: seq<Address>, obtained: set<Address>)
    requires Parts(live, free, tail, obtained) && tail != []
    ensures Parts(live + {tail[0]}, free, tail[1..], obtained) && tail[0] !in live && tail[0] in obtained
  {
    var b := tail[0];
    assert b in tail;
    assert forall x :: x in tail <==> x == b || x in tail[1..];
    assert b !in tail[1..];
  }

  lemma GiveBack(live: set<Address>, free: seq<Address>, tail: seq<Address>, obtained: set<Address>, b: Address)
    requires Parts(live, free, tail, obtained) && b in live
    ensures Parts(live - {b}, [b] + free, tail, obtained)
  {
    assert forall x :: x in [b] + free <==> x == b || x in free;
    assert b !in free && b !in tail;
  }

  lemma Obtain(live: set<Address>, free: seq<Address>, obtained: set<Address>, chunk: Address, n: nat, size: nat)
    requires Parts(live, free, [], obtained) && Spaced(obtained, size) && size > 0
    requires Clear(obtained, size, chunk, n * size)
    ensures var bs := Blocks(chunk, n, size); var all := obtained + set b | b in bs;
            Parts(live, free, bs, all) && Spaced(all, size)
  {
    BlocksAt(chunk, n, size);
    var bs := Blocks(chunk, n, size);
    forall b | b in bs
      ensures b !in obtained && b != NULL && chunk <= b && b + size <= chunk + n * size
    {
      var i :| 0 <= i < |bs| && bs[i] == b;
    }
    var all := obtained + set b | b in bs;
    forall a, b | a in all && b in all && a < b
      ensures a + size <= b
    {
      if a in bs && b in bs {
        var i :| 0 <= i < |bs| && bs[i] == a;
        var j :| 0 <= j < |bs| && bs[j] == b;
      }
    }
  }

  class Allocator {
    const blockSize: nat
    const chunkSize: nat
    var freelist: Address
    var nextFree: Address
    var endOfChunk: Address
    /** The field of each block that the free list goes through. */
    var link: map<Address, Address>

    /** Blocks in use; on the free list; unused in the current chunk; and all ever obtained. */
    ghost var live: set<Address>
    ghost var free: seq<Address>
    ghost var tail: seq<Address>
    ghost var obtained: set<Address>

    ghost predicate Valid()
      reads this
    {
      && blockSize > 0 && chunkSize > 0
      && Chain(free, freelist, link) && Unused(tail, nextFree, endOfChunk, blockSize)
      && Parts(live, free, tail, obtained) && Spaced(obtained, blockSize)
    }

    constructor (blockSize: nat, chunkSize: nat)
      requires blockSize > 0 && chunkSize > 0
      ensures Valid() && live == {} && obtained == {} && this.blockSize == blockSize && this.chunkSize == chunkSize
    {
      this.blockSize, this.chunkSize := blockSize, chunkSize;
      freelist, nextFree, endOfChunk, link := NULL, NULL, NULL, map[];
      live, free, tail, obtained := {}, [], [], {};
    }

    /** Takes a chunk of memory, found at the given address. */
    method AllocateNewChunk(chunk: Address)
      requires Valid() && tail == [] && Clear(obtained, blockSize, chunk, chunkSize * blockSize)
      modifies this
      ensures Valid() && live == old(live) && free == old(free) && freelist == old(freelist)
      ensures tail == Blocks(chunk, chunkSize, blockSize) && obtained == old(obtained) + set b | b in tail
    {
      nextFree := chunk;
      endOfChunk := chunk + chunkSize * blockSize;
      Obtain(live, free, obtained, chunk, chunkSize, blockSize);
      BlocksAt(chunk, chunkSize, blockSize);
      tail := Blocks(chunk, chunkSize, blockSize);
      obtained := obtained + set b | b in tail;
    }

    /** Gives out a block: the one that is asked for, or one that is not in use. */
    method New(h: Address, chunk: Address) returns (block: Address)
      requires Valid() && Clear(obtained, blockSize, chunk, chunkSize * blockSize)
      modifies this
      ensures Valid()
      ensures h != NULL ==> block == h && live == old(live) && free == old(free)
      ensures h != NULL ==> tail == old(tail) && obtained == old(obtained)
      ensures h == NULL ==> block !in old(live) && block in obtained && live == old(live) + {block}
      ensures h == NULL && old(free) != [] ==>
        block == old(free)[0] && free == old(free)[1..] && tail == old(tail) && obtained == old(obtained)
      ensures h == NULL && old(free) == [] && old(tail) != [] ==>
        block == old(tail)[0] && tail == old(tail)[1..] && free == [] && obtained == old(obtained)
      ensures h == NULL && old(free) == [] && old(tail) == [] ==>
        var chunkBlocks := Blocks(chunk, chunkSize, blockSize);
        block == chunk && tail == chunkBlocks[1..] && free == [] && obtained == old(obtained) + set b | b in chunkBlocks
    {
      if h != NULL {
        return h;
      }
      NoFree();
      if freelist != NULL {
        block := TakeFromList();
      } else {
        if nextFree == endOfChunk {
          AllocateNewChunk(chunk);
        }
        block := TakeFromChunk();
      }
    }

    /** The list is empty exactly if it has no head. */
    lemma NoFree()
      requires Valid()
      ensures freelist == NULL <==> free == []
    {
      assert free != [] ==> free[0] in free;
    }

    method TakeFromList() returns (block: Address)
      requires Valid() && freelist != NULL
      modifies this
      ensures Valid() && old(free) != [] && block == old(free)[0]
      ensures block !in old(live) && block in obtained && live == old(live) + {block}
      ensures free == old(free)[1..] && tail == old(tail) && obtained == old(obtained)
    {
      NoFree();
      ChainPop(free, freelist, link);
      block := freelist;
      freelist := link[block];
      TakeFree(live, free, tail, obtained);
      free := free[1..];
      live := live + {block};
    }

    method TakeFromChunk() returns (block: Address)
      requires Valid() && tail != []
      modifies this
      ensures Valid() && block == old(tail)[0]
      ensures block !in old(live) && block in obtained && live == old(live) + {block}
      ensures free == old(free) && tail == old(tail)[1..] && obtained == old(obtained)
    {
      block := nextFree;
      nextFree := nextFree + blockSize;
      TakeUnused(live, free, tail, obtained);
      tail := tail[1..];
      live := live + {block};
    }

    /** Puts a block that is in use on the free list. */
    method Delete(block: Address)
      requires Valid() && block in live
      modifies this
      ensures Valid() && live == old(live) - {block} && free == [block] + old(free)
      ensures tail == old(tail) && obtained == old(obtained)
    {
      ChainPush(free, freelist, link, block);
      link := link[block := freelist];
      freelist := block;
      GiveBack(live, free, tail, obtained, block);
      free := [block] + free;
      live := live - {block};
    }
  }

  // ----- runs -----

  /** A client takes a block, for which memory would be found at chunk, or returns one it holds. */
  datatype Step = Take(chunk: Address) | Return(index: nat)

  /** Only blocks that are held are returned, if n are held at first. */
  predicate Legal(steps: seq<Step>, n: nat) {
    steps == [] ||
    (if steps[0].Take? then Legal(steps[1..], n + 1) else steps[0].index < n && Legal(steps[1..], n - 1))
  }

  /** Memory is found at places that do not meet. */
  predicate Apart(steps: seq<Step>, length: nat) {
    && (forall i :: 0 <= i < |steps| && steps[i].Take? ==> steps[i].chunk != NULL)
    && forall i, j :: 0 <= i < j < |steps| && steps[i].Take? && steps[j].Take? ==>
         steps[i].chunk + length <= steps[j].chunk || steps[j].chunk + length <= steps[i].chunk
  }

  /** Every block comes from memory that was found in the first n steps. */
  ghost predicate From(obtained: set<Address>, size: nat, steps: seq<Step>, n: nat, length: nat)
    requires n <= |steps|
  {
    forall b :: b in obtained ==>
      exists i :: 0 <= i < n && steps[i].Take? && steps[i].chunk <= b && b + size <= steps[i].chunk + length
  }

  lemma StillClear(obtained: set<Address>, size: nat, steps: seq<Step>, n: nat, length: nat)
    requires n < |steps| && steps[n].Take? && Apart(steps, length) && From(obtained, size, steps, n, length)
    ensures Clear(obtained, size, steps[n].chunk, length)
  {
  }

  lemma StillFrom(before: set<Address>, after: set<Address>, size: nat, steps: seq<Step>, n: nat, count: nat)
    requires n < |steps| && size > 0 && From(before, size, steps, n, count * size)
    requires after == before || (steps[n].Take? && after == before + set b | b in Blocks(steps[n].chunk, count, size))
    ensures From(after, size, steps, n + 1, count * size)
  {
    if after != before {
      BlocksAt(steps[n].chunk, count, size);
    }
  }

  /** The blocks held, in the order they were taken. */
  ghost predicate Holds(held: seq<Address>, live: set<Address>) {
    Distinct(held) && forall b :: b in live <==> b in held
  }

  lemma HoldMore(held: seq<Address>, live: set<Address>, b: Address)
    requires Holds(held, live) && b !in live
    ensures Holds(held + [b], live + {b})
  {
    assert forall x :: x in held + [b] <==> x in held || x == b;
  }

  lemma HoldLess(held: seq<Address>, live: set<Address>, i: nat)
    requires Holds(held, live) && i < |held|
    ensures Holds(held[..i] + held[i + 1..], live - {held[i]})
  {
    var rest := held[..i] + held[i + 1..];
    assert forall x :: x in held <==> x in rest || x == held[i] by {
      assert held == held[..i] + [held[i]] + held[i + 1..];
    }
    assert forall k :: 0 <= k < |rest| ==> rest[k] == held[if k < i then k else k + 1];
  }

  method TakeOne(a: Allocator, held: seq<Address>, steps: seq<Step>, n: nat) returns (more: seq<Address>)
    requires a.Valid() && Holds(held, a.live) && n < |steps| && steps[n].Take? &&
             Apart(steps, a.chunkSize * a.blockSize)
    requires From(a.obtained, a.blockSize, steps, n, a.chunkSize * a.blockSize)
    modifies a
    ensures a.Valid() && Holds(more, a.live) && |more| == |held| + 1
    ensures From(a.obtained, a.blockSize, steps, n + 1, a.chunkSize * a.blockSize)
  {
    StillClear(a.obtained, a.blockSize, steps, n, a.chunkSize * a.blockSize);
    ghost var live, before := a.live, a.obtained;
    var b := a.New(NULL, steps[n].chunk);
    HoldMore(held, live, b);
    StillFrom(before, a.obtained, a.blockSize, steps, n, a.chunkSize);
    more := held + [b];
  }

  method ReturnOne(a: Allocator, held: seq<Address>, i: nat) returns (rest: seq<Address>)
    requires a.Valid() && Holds(held, a.live) && i < |held|
    modifies a
    ensures a.Valid() && Holds(rest, a.live) && |rest| == |held| - 1 && a.obtained == old(a.obtained)
  {
    ghost var live := a.live;
    a.Delete(held[i]);
    HoldLess(held, live, i);
    rest := held[..i] + held[i + 1..];
  }

  /** Any run of a new allocator: the blocks in use are exactly those that are held, all of
      them different. */
  method Run(a: Allocator, steps: seq<Step>) returns (held: seq<Address>)
    requires a.Valid() && a.live == {} && a.obtained == {}
    requires Legal(steps, 0) && Apart(steps, a.chunkSize * a.blockSize)
    modifies a
    ensures a.Valid() && Holds(held, a.live)
  {
    held := [];
    var n := 0;
    while n < |steps|
      invariant n <= |steps| && a.Valid() && Holds(held, a.live) && Legal(steps[n..], |held|)
      invariant From(a.obtained, a.blockSize, steps, n, a.chunkSize * a.blockSize)
    {
      assert steps[n..][1..] == steps[n + 1..];
      if steps[n].Take? {
        held := TakeOne(a, held, steps, n);
      } else {
        held := ReturnOne(a, held, steps[n].index);
        StillFrom(a.obtained, a.obtained, a.blockSize, steps, n, a.chunkSize);
      }
      n := n + 1;
    }
  }
}
