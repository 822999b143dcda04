/** lib/cfa/src/arena.c: a bump allocator over one buffer, with savepoints and resizing,
    and grow_slice of lib/cfa/src/builtin.c, which uses it. Sums wrap around at 2^64. */
module Arenas {
  import opened Options
  import opened Bits
  import opened Memory
  import opened SliceGrowth

  const DEFAULT_ALIGNMENT := 8

  // A block handed out: its offset in the buffer, its size, and how many blocks were handed
  // out before it.
  datatype Block = Block(off: nat, size: nat, born: nat)

  // temp_arena: the two offsets, to be restored later.
  datatype TempArena = TempArena(prevOff: nat, currOff: nat)

  // The two offsets, the blocks in use in the order of their birth, and how many blocks were
  // handed out so far. A block that was moved away keeps its place and has no bytes left.
  datatype State = State(prev: nat, curr: nat, blocks: seq<Block>, clock: nat)

  // Blocks in the order of their birth lie one behind the other.
  ghost predicate Apart(bs: seq<Block>) {
    forall i, j :: 0 <= i < j < |bs| ==> bs[i].off + bs[i].size <= bs[j].off
  }

  // The blocks in use lie apart and between the start of the buffer and the current offset,
  // and only the last one may be where the previous offset points, which is the one that
  // would be resized in place.
  ghost predicate InOrder(len: nat, s: State) {
    && Apart(s.blocks) && s.curr <= len
    && (forall b <- s.blocks :: b.off + b.size <= s.curr)
    && (forall i :: 0 <= i < |s.blocks| - 1 && s.blocks[i].off == s.prev ==> s.blocks[i].size == 0)
  }

  ghost predicate Dated(s: State) {
    && (forall i, j :: 0 <= i < j < |s.blocks| ==> s.blocks[i].born < s.blocks[j].born)
    && (forall b <- s.blocks :: b.born < s.clock)
  }

  // Where the next block goes in a buffer at address addr, behind the offset curr.
  function NextOff(addr: nat, curr: nat, align: nat): (off: nat)
    requires align > 0 && IsPowerOfTwo(align)
    ensures curr <= off < curr + align && (addr + off) % align == 0
  {
    AlignForward(addr + curr, align) - addr
  }

  // The test of arena_alloc_align, whose sum can wrap around.
  predicate HandsOut(addr: nat, len: nat, s: State, size: nat, align: nat)
    requires align > 0 && IsPowerOfTwo(align)
  {
    Wrap(NextOff(addr, s.curr, align) + size) <= len
  }

  function AfterAlloc(addr: nat, len: nat, s: State, size: nat, align: nat): State
    requires align > 0 && IsPowerOfTwo(align)
  {
    if !HandsOut(addr, len, s, size, align) then s
    else
      var off := NextOff(addr, s.curr, align);
      State(off, Wrap(off + size), s.blocks + [Block(off, size, s.clock)], s.clock + 1)
  }

  lemma AllocCases(addr: nat, len: nat, s: State, size: nat, align: nat)
    requires align > 0 && IsPowerOfTwo(align)
    ensures var off := NextOff(addr, s.curr, align);
      var end := Wrap(off + size);
      AfterAlloc(addr, len, s, size, align)
      == (if end <= len then State(off, end, s.blocks + [Block(off, size, s.clock)], s.clock + 1) else s)
      && (HandsOut(addr, len, s, size, align) <==> end <= len)
  {
  }

  // A place for a block: aligned, behind the current offset and inside the buffer.
  predicate Suits(addr: nat, len: nat, s: State, size: nat, align: nat, off: nat)
    requires align > 0
  {
    off >= s.curr && (addr + off) % align == 0 && off + size <= len
  }

  // A block is handed out and its sum does not wrap, if and only if there is any place.
  lemma RoomOrNone(addr: nat, len: nat, s: State, size: nat, align: nat)
    requires align > 0 && IsPowerOfTwo(align) && len < U64
    ensures HandsOut(addr, len, s, size, align) && NextOff(addr, s.curr, align) + size < U64
        <==> exists off :: Suits(addr, len, s, size, align, off)
  {
    hide Wrap, IsPowerOfTwo, NextOff, HandsOut, AfterAlloc;
    var next := NextOff(addr, s.curr, align);
    AllocCases(addr, len, s, size, align);
    if next + size <= len {
      assert Suits(addr, len, s, size, align, next);
    }
    forall off | Suits(addr, len, s, size, align, off)
      ensures next <= off
    {
      NextIsLeast(addr, s.curr, align, off);
    }
  }

  lemma NextIsLeast(addr: nat, curr: nat, align: nat, off: nat)
    requires align > 0 && IsPowerOfTwo(align) && off >= curr && (addr + off) % align == 0
    ensures NextOff(addr, curr, align) <= off
  {
    hide Wrap, IsPowerOfTwo;
    AlignForwardIsLeast(addr + curr, align, addr + off);
  }

  // With one more block behind all others the order depends on where that one ends.
  lemma SnocInOrder(len: nat, bs: seq<Block>, b: Block, curr: nat, clock: nat)
    requires Apart(bs) && forall c <- bs :: c.off + c.size <= b.off
    ensures InOrder(len, State(b.off, curr, bs + [b], clock)) <==> b.off + b.size <= curr <= len
  {
    var all := bs + [b];
    assert b in all && forall i :: 0 <= i < |bs| ==> all[i] == bs[i] && bs[i] in bs;
    assert forall c <- all :: c in bs || c == b;
  }

  // An allocation leaves the blocks in order exactly when nothing is handed out or the sum
  // does not wrap around.
  lemma AllocInOrderIff(addr: nat, len: nat, s: State, size: nat, align: nat)
    requires align > 0 && IsPowerOfTwo(align) && InOrder(len, s) && Dated(s) && len < U64
    ensures Dated(AfterAlloc(addr, len, s, size, align))
    ensures InOrder(len, AfterAlloc(addr, len, s, size, align))
        <==> (HandsOut(addr, len, s, size, align) ==> NextOff(addr, s.curr, align) + size < U64)
  {
    hide Wrap, IsPowerOfTwo;
    var off := NextOff(addr, s.curr, align);
    hide NextOff;
    if HandsOut(addr, len, s, size, align) {
      SnocInOrder(len, s.blocks, Block(off, size, s.clock), Wrap(off + size), s.clock + 1);
    }
  }

  // The blocks after b has got another size.
  function Resized(bs: seq<Block>, b: Block, size: nat): (r: seq<Block>)
    ensures |r| == |bs|
    ensures forall i :: 0 <= i < |bs| ==> r[i] == if bs[i] == b then b.(size := size) else bs[i]
  {
    seq(|bs|, i requires 0 <= i < |bs| => if bs[i] == b then b.(size := size) else bs[i])
  }

  // A block with at least one byte gets a new size: in its place if the previous offset
  // points to it, otherwise by a move behind all others, if there is room for it.
  function AfterResize(addr: nat, len: nat, s: State, b: Block, size: nat, align: nat): State
    requires align > 0 && IsPowerOfTwo(align)
  {
    if b.off == s.prev then s.(curr := Wrap(s.prev + size), blocks := Resized(s.blocks, b, size))
    else if !HandsOut(addr, len, s, size, align) then s
    else AfterAlloc(addr, len, s.(blocks := Resized(s.blocks, b, 0)), size, align)
  }

  // A block that was just handed out is resized where it is.
  lemma JustAllocatedStays(addr: nat, len: nat, s: State, size: nat, align: nat, newSize: nat)
    requires align > 0 && IsPowerOfTwo(align) && Dated(s) && HandsOut(addr, len, s, size, align)
    ensures var (off, s') := (NextOff(addr, s.curr, align), AfterAlloc(addr, len, s, size, align));
      AfterResize(addr, len, s', Block(off, size, s.clock), newSize, align)
      == State(off, Wrap(off + newSize), s.blocks + [Block(off, newSize, s.clock)], s.clock + 1)
  {
    hide Wrap, IsPowerOfTwo, NextOff;
    var off := NextOff(addr, s.curr, align);
    var b := Block(off, size, s.clock);
    assert forall c <- s.blocks :: c != b;
    assert Resized(s.blocks + [b], b, newSize) == s.blocks + [b.(size := newSize)];
  }

  lemma OnlyLast(len: nat, s: State, b: Block)
    requires InOrder(len, s) && b in s.blocks && b.size > 0 && b.off == s.prev
    ensures b == s.blocks[|s.blocks| - 1]
  {
    var i :| 0 <= i < |s.blocks| && s.blocks[i] == b;
  }

  // Giving up bytes keeps the order.
  lemma EmptiedInOrder(len: nat, s: State, b: Block)
    requires InOrder(len, s) && Dated(s)
    ensures InOrder(len, s.(blocks := Resized(s.blocks, b, 0))) && Dated(s.(blocks := Resized(s.blocks, b, 0)))
  {
    hide InOrder, Dated;
    ShrunkInOrder(len, s, Resized(s.blocks, b, 0));
  }

  lemma ShrunkInOrder(len: nat, s: State, bs: seq<Block>)
    requires InOrder(len, s) && Dated(s) && |bs| == |s.blocks|
    requires forall i :: 0 <= i < |bs| ==>
      bs[i].off == s.blocks[i].off && bs[i].size <= s.blocks[i].size && bs[i].born == s.blocks[i].born
    ensures InOrder(len, s.(blocks := bs)) && Dated(s.(blocks := bs))
  {
    forall c | c in bs
      ensures c.off + c.size <= s.curr && c.born < s.clock
    {
      var i :| 0 <= i < |bs| && bs[i] == c;
      assert s.blocks[i] in s.blocks;
    }
  }

  // A resize leaves the blocks in order exactly when the new size fits the place, or when a
  // move would.
  lemma ResizeInOrderIff(addr: nat, len: nat, s: State, b: Block, size: nat, align: nat)
    requires align > 0 && IsPowerOfTwo(align) && InOrder(len, s) && Dated(s) && len < U64
    requires b in s.blocks && b.size > 0
    ensures Dated(AfterResize(addr, len, s, b, size, align))
    ensures InOrder(len, AfterResize(addr, len, s, b, size, align))
        <==> if b.off == s.prev then b.off + size <= len
             else HandsOut(addr, len, s, size, align) ==> NextOff(addr, s.curr, align) + size < U64
  {
    hide Wrap, IsPowerOfTwo, NextOff, InOrder, Dated, AfterAlloc, Resized;
    if b.off == s.prev {
      ResizeLastIff(len, s, b, size);
    } else {
      EmptiedInOrder(len, s, b);
      AllocInOrderIff(addr, len, s.(blocks := Resized(s.blocks, b, 0)), size, align);
    }
  }

  lemma ResizeLastIff(len: nat, s: State, b: Block, size: nat)
    requires InOrder(len, s) && Dated(s) && len < U64
    requires b in s.blocks && b.size > 0 && b.off == s.prev
    ensures var s' := s.(curr := Wrap(s.prev + size), blocks := Resized(s.blocks, b, size));
      && Dated(s') && (InOrder(len, s') <==> b.off + size <= len)
      && s'.blocks == s.blocks[..|s.blocks| - 1] + [b.(size := size)]
  {
    hide Wrap, InOrder, Dated;
    OnlyLast(len, s, b);
    ResizedLast(s, b, size);
    hide Resized;
    LastInOrderIff(len, s, size);
  }

  lemma ResizedLast(s: State, b: Block, size: nat)
    requires Dated(s) && s.blocks != [] && b == s.blocks[|s.blocks| - 1]
    ensures Resized(s.blocks, b, size) == s.blocks[..|s.blocks| - 1] + [b.(size := size)]
  {
    var n := |s.blocks| - 1;
    forall i | 0 <= i < n
      ensures Resized(s.blocks, b, size)[i] == s.blocks[i]
    {
      assert s.blocks[i].born < s.blocks[n].born;
    }
  }

  lemma LastInOrderIff(len: nat, s: State, size: nat)
    requires InOrder(len, s) && Dated(s) && len < U64 && s.blocks != []
    requires s.blocks[|s.blocks| - 1].off == s.prev
    ensures var init, last := s.blocks[..|s.blocks| - 1], s.blocks[|s.blocks| - 1];
      var s' := s.(curr := Wrap(s.prev + size), blocks := init + [last.(size := size)]);
      Dated(s') && (InOrder(len, s') <==> last.off + size <= len)
  {
    hide Wrap;
    var n := |s.blocks| - 1;
    assert forall c <- s.blocks[..n] :: c in s.blocks;
    assert s.blocks[n] in s.blocks;
    SnocInOrder(len, s.blocks[..n], s.blocks[n].(size := size), Wrap(s.prev + size), s.clock);
  }

  // The blocks that were handed out before number n.
  function BornBefore(bs: seq<Block>, n: nat): (r: seq<Block>)
    ensures r <= bs
  {
    if bs == [] || bs[|bs| - 1].born < n then bs else BornBefore(bs[..|bs| - 1], n)
  }

  // A savepoint is recovered: the offsets are the saved ones, and all blocks that were handed
  // out since are given up.
  function AfterRecover(s: State, saved: State): State {
    State(saved.prev, saved.curr, BornBefore(s.blocks, saved.clock), s.clock)
  }

  lemma {:induction false} BornBeforeMembers(bs: seq<Block>, n: nat)
    requires forall i, j :: 0 <= i < j < |bs| ==> bs[i].born < bs[j].born
    ensures forall b :: b in BornBefore(bs, n) <==> b in bs && b.born < n
  {
    if bs != [] && bs[|bs| - 1].born >= n {
      BornBeforeMembers(bs[..|bs| - 1], n);
      assert bs == bs[..|bs| - 1] + [bs[|bs| - 1]];
    } else {
      assert forall i :: 0 <= i < |bs| - 1 ==> bs[i].born < bs[|bs| - 1].born;
    }
  }

  // Every block of the time of saving that is still in use is where it was; it may have
  // another size, but none that was empty has become larger.
  ghost predicate Descends(s: State, saved: State) {
    && saved.clock <= s.clock
    && forall b <- s.blocks :: b.born < saved.clock ==> HasOrigin(b, saved.blocks)
  }

  ghost predicate HasOrigin(b: Block, bs: seq<Block>) {
    exists i :: 0 <= i < |bs| && bs[i].born == b.born && bs[i].off == b.off && (b.size > 0 ==> bs[i].size > 0)
  }

  // A recovery leaves the blocks in order exactly when none that remains ends behind the
  // place where the saved ones ended.
  lemma RecoverInOrderIff(len: nat, s: State, saved: State)
    requires InOrder(len, s) && Dated(s) && InOrder(len, saved) && Dated(saved) && Descends(s, saved)
    ensures Dated(AfterRecover(s, saved))
    ensures InOrder(len, AfterRecover(s, saved))
        <==> forall b <- s.blocks | b.born < saved.clock :: b.off + b.size <= saved.curr
  {
    BornBeforeMembers(s.blocks, saved.clock);
    var bs := BornBefore(s.blocks, saved.clock);
    forall i | 0 <= i < |bs| - 1 && bs[i].off == saved.prev
      ensures bs[i].size == 0
    {
      assert bs[i] in bs && bs[i + 1] in bs;
      assert HasOrigin(bs[i], saved.blocks) && HasOrigin(bs[i + 1], saved.blocks);
    }
  }

  predicate EndsWith(bs: seq<Block>, off: nat, size: nat) {
    bs != [] && bs[|bs| - 1].off == off && bs[|bs| - 1].size == size
  }

  class Arena {
    const mem: array<char> // buf, and buf_len as its length
    const addr: nat        // the address of the buffer
    var prevOff: nat
    var currOff: nat
    ghost var blocks: seq<Block>
    ghost var clock: nat

    ghost function Now(): State
      reads this
    {
      State(prevOff, currOff, blocks, clock)
    }

    ghost predicate Valid()
      reads this
    {
      && 0 < addr && addr + mem.Length < U64
      && InOrder(mem.Length, Now()) && Dated(Now())
    }

    // arena_init
    constructor (buf: array<char>, bufAddr: nat)
      requires 0 < bufAddr && bufAddr + buf.Length < U64
      ensures Valid() && mem == buf && addr == bufAddr && Now() == State(0, 0, [], 0)
    {
      mem, addr := buf, bufAddr;
      prevOff, currOff := 0, 0;
      blocks, clock := [], 0;
    }

    /** arena_alloc_align, on every size: a new aligned block, whose sum of offset and size is
        compared after it may have wrapped around. The arena stays in order if and only if
        nothing is handed out or the sum does not wrap. */
    method AllocAlign(size: nat, align: nat) returns (r: Option<nat>)
      requires Valid() && 0 < align < U64 && IsPowerOfTwo(align) && size < U64
      modifies this
      ensures Now() == AfterAlloc(addr, mem.Length, old(Now()), size, align)
      ensures var off := NextOff(addr, old(currOff), align);
        && r == (if HandsOut(addr, mem.Length, old(Now()), size, align) then Some(off) else None)
        && (Valid() <==> (r.Some? ==> off + size < U64))
      ensures r.Some? && Valid() <==> exists off :: Suits(addr, mem.Length, old(Now()), size, align, off)
      ensures r.Some? ==> EndsWith(blocks, r.value, size)
    {
      hide Wrap, IsPowerOfTwo, Suits, InOrder, Dated, NextOff, HandsOut, AfterAlloc;
      Ends();
      RoomOrNone(addr, mem.Length, Now(), size, align);
      AllocInOrderIff(addr, mem.Length, Now(), size, align);
      AllocCases(addr, mem.Length, Now(), size, align);
      NoWrapBefore(addr, currOff, align);
      var currPtr := Wrap(addr + currOff);
      var offset := Wrap(AlignForward(currPtr, align));
      offset := Wrap(offset - addr);
      var end := Wrap(offset + size);
      if end <= mem.Length {
        prevOff := offset;
        currOff := end;
        blocks, clock := blocks + [Block(offset, size, clock)], clock + 1;
        return Some(offset);
      }
      return None;
    }

    lemma Ends()
      requires Valid()
      ensures currOff <= mem.Length && forall b <- blocks :: b.off + b.size <= currOff
    {
    }

    // temp_arena_create
    method Save() returns (t: TempArena)
      ensures t == TempArena(prevOff, currOff)
    {
      t := TempArena(prevOff, currOff);
    }

    /** temp_arena_recover of a savepoint of this arena, whatever happened since: the blocks
        handed out since are given up. The arena is in order if and only if no other block
        ends behind the saved end. */
    method Recover(t: TempArena, ghost saved: State)
      requires Valid() && t == TempArena(saved.prev, saved.curr)
      requires InOrder(mem.Length, saved) && Dated(saved) && Descends(Now(), saved)
      modifies this
      ensures Now() == AfterRecover(old(Now()), saved)
      ensures Valid() <==> forall b <- old(blocks) | b.born < saved.clock :: b.off + b.size <= saved.curr
    {
      hide InOrder, Dated, Descends;
      RecoverInOrderIff(mem.Length, Now(), saved);
      prevOff := t.prevOff;
      currOff := t.currOff;
      blocks := BornBefore(blocks, saved.clock);
    }

    // arena_free_all
    method FreeAll()
      requires Valid()
      modifies this
      ensures Valid() && Now() == State(0, 0, [], old(clock))
    {
      currOff := 0;
      prevOff := 0;
      blocks := [];
    }

    // The old memory is the block b of this arena, and oldSize no more than its size.
    ghost predicate Owns(oldMem: Option<nat>, oldSize: nat, b: Block)
      reads this
    {
      oldMem.Some? && b in blocks && oldMem.value == b.off && oldSize <= b.size
    }

    // The branch for the block that the previous offset points to.
    method ResizeLast(newSize: nat, ghost b: Block)
      requires Valid() && b in blocks && b.off == prevOff && b.size > 0
      modifies this
      ensures old(blocks) != [] && blocks == old(blocks)[..|old(blocks)| - 1] + [b.(size := newSize)]
      ensures Now() == old(Now()).(curr := Wrap(old(prevOff) + newSize), blocks := Resized(old(blocks), b, newSize))
      ensures Valid() <==> b.off + newSize <= mem.Length
    {
      hide Wrap, InOrder, Dated;
      OnlyLast(mem.Length, Now(), b);
      ResizeLastIff(mem.Length, Now(), b, newSize);
      currOff := Wrap(prevOff + newSize);
      blocks := Resized(blocks, b, newSize);
    }

    // The branch for any other block.
    method Move(oldMem: nat, oldSize: nat, newSize: nat, align: nat, ghost b: Block)
      returns (r: Option<nat>, ghost copied: nat, faults: bool)
      requires Valid() && 0 < align < U64 && IsPowerOfTwo(align) && newSize < U64
      requires b in blocks && oldMem == b.off != prevOff && 0 < oldSize <= b.size
      modifies this, mem
      ensures Now() == AfterResize(addr, mem.Length, old(Now()), b, newSize, align)
      ensures var off := NextOff(addr, old(currOff), align);
        && r == (if HandsOut(addr, mem.Length, old(Now()), newSize, align) then Some(off) else None)
        && (Valid() <==> (r.Some? ==> off + newSize < U64))
      ensures var n := if oldSize < newSize then oldSize else newSize;
        && (faults <==> n > 0 && (r.None? || r.value + n > mem.Length))
        && copied == (if faults then 0 else n)
        && (n > 0 && !faults ==> mem[..] == Moved(old(mem[..]), r.value, b.off, n))
        && (n == 0 || faults ==> mem[..] == old(mem[..]))
      ensures r.Some? ==> EndsWith(blocks, r.value, newSize)
      ensures r.Some? && Valid() ==> !faults && currOff == r.value + newSize && r.value >= old(currOff) > b.off
    {
      hide Wrap, IsPowerOfTwo, Moved, InOrder, Dated, NextOff;
      Ends();
      ghost var was := Now();
      EmptiedInOrder(mem.Length, was, b);
      ResizeInOrderIff(addr, mem.Length, was, b, newSize, align);
      copied, faults := 0, false;
      r := AllocAlign(newSize, align);
      if r.Some? {
        blocks := Resized(was.blocks, b, 0) + [blocks[|was.blocks|]];
      }
      var copySize := if oldSize < newSize then oldSize else newSize;
      if copySize == 0 {
      } else if r == None || r.value + copySize > mem.Length {
        faults := true; // the store would be outside of the buffer
      } else {
        copied := MemCpy(mem, addr, r.value, oldMem, copySize);
      }
    }

    /** arena_resize_align of the block b, oldSize being the size that the caller states.
        Without an old block it allocates. The block that the previous offset points to is
        resized in place without a look at the end of the buffer, so the arena stays in order
        if and only if the new size fits. Any other block is moved; faults says whether the
        copy would leave the buffer, because there is no room. */
    method ResizeAlign(oldMem: Option<nat>, oldSize: nat, newSize: nat, align: nat, ghost b: Block)
      returns (r: Option<nat>, ghost copied: nat, faults: bool)
      requires Valid() && 0 < align < U64 && IsPowerOfTwo(align) && newSize < U64
      requires oldMem.None? || oldSize == 0 || Owns(oldMem, oldSize, b)
      modifies this, mem
      ensures oldMem.None? || oldSize == 0 ==>
        && Now() == AfterAlloc(addr, mem.Length, old(Now()), newSize, align)
        && (r.Some? && Valid() <==> exists off :: Suits(addr, mem.Length, old(Now()), newSize, align, off))
      ensures oldMem.Some? && oldSize > 0 ==>
        Now() == AfterResize(addr, mem.Length, old(Now()), b, newSize, align)
      ensures oldMem.Some? && oldSize > 0 && oldMem.value == old(prevOff) ==>
        && r == oldMem && (Valid() <==> r.value + newSize <= mem.Length)
        && old(blocks) != [] && blocks == old(blocks)[..|old(blocks)| - 1] + [b.(size := newSize)]
      ensures r.Some? ==> EndsWith(blocks, r.value, newSize)
      ensures oldMem.None? || oldSize == 0 || oldMem.value == old(prevOff) ==>
        mem[..] == old(mem[..]) && copied == 0 && !faults
      ensures oldMem.None? || oldSize == 0 || oldMem.value != old(prevOff) ==>
        var off := NextOff(addr, old(currOff), align);
        && r == (if HandsOut(addr, mem.Length, old(Now()), newSize, align) then Some(off) else None)
        && (Valid() <==> (r.Some? ==> off + newSize < U64))
      ensures oldMem.Some? && oldSize > 0 && oldMem.value != old(prevOff) ==>
        var n := if oldSize < newSize then oldSize else newSize;
        && (faults <==> n > 0 && (r.None? || r.value + n > mem.Length))
        && copied == (if faults then 0 else n)
        && (n > 0 && !faults ==> mem[..] == Moved(old(mem[..]), r.value, b.off, n))
        && (n == 0 || faults ==> mem[..] == old(mem[..]))
        && (r.Some? && Valid() ==> !faults && currOff == r.value + newSize && r.value >= old(currOff) > b.off)
    {
      hide Wrap, IsPowerOfTwo, Moved, InOrder, Dated, NextOff, AfterAlloc, Suits, HandsOut, Resized;
      copied, faults := 0, false;
      if oldMem == None || oldSize == 0 {
        r := AllocAlign(newSize, align);
        return;
      }
      Ends();
      assert oldMem.value < mem.Length; // so the source's check of the bounds succeeds
      if prevOff == oldMem.value {
        ResizeLast(newSize, b);
        return oldMem, 0, false;
      }
      r, copied, faults := Move(oldMem.value, oldSize, newSize, align, b);
    }
  }

  // The aligned address is at most 2^64, so that the wrapping sums give the plain offset.
  lemma NoWrapBefore(addr: nat, curr: nat, align: nat)
    requires 0 < addr && addr + curr < U64 && 0 < align < U64 && IsPowerOfTwo(align)
    ensures Wrap(Wrap(AlignForward(addr + curr, align)) - addr) == NextOff(addr, curr, align)
  {
    WordIsMultiple(align);
    hide Wrap, IsPowerOfTwo;
    AlignForwardIsLeast(addr + curr, align, U64);
  }

  // A moved block keeps its first bytes, and every block behind which the new one was put
  // keeps all of its own.
  lemma MoveKeepsBlocks(m: seq<char>, bs: seq<Block>, end: nat, b: Block, r: nat, n: nat)
    requires (forall c <- bs :: c.off + c.size <= end) && b in bs && n <= b.size && end <= r && r + n <= |m|
    ensures b.off + n <= |m|
    ensures Moved(m, r, b.off, n)[r..r + n] == m[b.off..b.off + n]
    ensures forall c <- bs :: Moved(m, r, b.off, n)[c.off..c.off + c.size] == m[c.off..c.off + c.size]
  {
  }

  // The limit that grow_slice compares with: 1 << 31 is an int and negative, and as an
  // uint64 it is this.
  const MAX_ALLOC := U64 - 0x8000_0000

  lemma LimitIsANegativeInt()
    ensures ToInt32(0x8000_0000) < 0 && MAX_ALLOC == Wrap(ToInt32(0x8000_0000))
  {
  }

  // What grow_slice comes to: a slice, whose base can be null, or the end of the program in
  // its panic or at a store outside of the buffer.
  datatype Growth = Grew(base: Option<nat>, len: nat, cap: nat) | Panicked | Faulted

  // A slice at base with a capacity of cap elements can get a block of size bytes.
  ghost predicate GrowthFits(a: Arena, base: nat, cap: nat, size: nat)
    requires IsPowerOfTwo(DEFAULT_ALIGNMENT)
    reads a
  {
    && size <= MAX_ALLOC
    && if cap > 0 && base == a.prevOff then base + size <= a.mem.Length
       else NextOff(a.addr, a.currOff, DEFAULT_ALIGNMENT) + size <= a.mem.Length
  }

  lemma FitsIff(a: Arena, base: nat, cap: nat, size: nat)
    requires IsPowerOfTwo(DEFAULT_ALIGNMENT) && size <= MAX_ALLOC && a.mem.Length < U64
    ensures cap > 0 && base == a.prevOff ==> (GrowthFits(a, base, cap, size) <==> base + size <= a.mem.Length)
    ensures !(cap > 0 && base == a.prevOff) ==>
      (GrowthFits(a, base, cap, size) <==>
        && HandsOut(a.addr, a.mem.Length, a.Now(), size, DEFAULT_ALIGNMENT)
        && NextOff(a.addr, a.currOff, DEFAULT_ALIGNMENT) + size < U64)
    ensures GrowthFits(a, base, cap, size) && !(cap > 0 && base == a.prevOff) ==>
      NextOff(a.addr, a.currOff, DEFAULT_ALIGNMENT) + size <= a.mem.Length
  {
    hide Wrap, IsPowerOfTwo, NextOff;
  }

  // The used bytes that stood at base in the memory m stand at p in m2, and no other of the
  // blocks has changed; was says whether b is the one that was there for the slice.
  ghost predicate SliceMoved(m: seq<char>, m2: seq<char>, base: nat, used: nat, p: nat, blocks: seq<Block>,
                             b: Block, was: bool) {
    && |m2| == |m| && base + used <= |m| && p + used <= |m| && m2[p..p + used] == m[base..base + used]
    && forall c <- blocks ::
         c.off + c.size <= |m| && (c != b || !was ==> m2[c.off..c.off + c.size] == m[c.off..c.off + c.size])
  }

  // The end of grow_slice: a block of size bytes, and the used bytes at base moved into it.
  method MoveSlice(a: Arena, base: nat, cap: nat, size: nat, used: nat, ghost b: Block)
    returns (p: Option<nat>, ghost copied: nat, faults: bool)
    requires a.Valid() && base <= a.mem.Length && used <= size <= MAX_ALLOC
    requires if cap > 0 then b in a.blocks && base == b.off && cap <= b.size && used <= b.size else used == 0
    requires IsPowerOfTwo(DEFAULT_ALIGNMENT)
    modifies a, a.mem
    ensures var fits := old(GrowthFits(a, base, cap, size));
      && (fits <==> !faults && p.Some? && a.Valid())
      && (fits ==> EndsWith(a.blocks, p.value, size))
      && (fits ==> SliceMoved(old(a.mem[..]), a.mem[..], base, used, p.value, old(a.blocks), b, cap > 0))
      && (fits ==>
            copied == if cap == 0 || base == old(a.prevOff) then 0 else (if cap < size then cap else size) + used)
  {
    hide Wrap, IsPowerOfTwo, Moved, NextOff, Suits, InOrder, Dated, GrowthFits, HandsOut, Resized;
    hide AfterAlloc, AfterResize, EndsWith, SliceMoved;
    ghost var m, was, fits := a.mem[..], a.Now(), GrowthFits(a, base, cap, size);
    a.Ends();
    FitsIff(a, base, cap, size);
    p, copied, faults := a.ResizeAlign(Some(base), cap, size, DEFAULT_ALIGNMENT, b);
    if faults {
      return;
    }
    ghost var m1, first := a.mem[..], copied;
    if used > 0 {
      if p == None || p.value + used > a.mem.Length {
        faults := true;
        return;
      }
      ghost var again := MemCpy(a.mem, a.addr, p.value, base, used);
      copied := first + again;
    }
    if fits && cap > 0 {
      MovedNone(m1, p.value, base);
      GrowKeeps(m, m1, a.mem[..], was.blocks, was.curr, b, p.value, first, used);
    } else if fits {
      NothingMoved(m, base, p.value, was.blocks, was.curr, b);
    }
  }

  // The size of n elements.
  function Bytes(n: nat, typeSize: nat): nat {
    n * typeSize
  }

  // The size of the block that grow_slice asks for.
  function NewSize(newLen: nat, cap: nat, typeSize: nat): nat
    requires newLen < U64 && cap < U64
  {
    Bytes(CapFor(newLen, cap), typeSize)
  }

  /** grow_slice. The slice holds s.len elements of typeSize bytes in the block b, or has no
      capacity at all; copied are the bytes that both of its copies have moved. It panics
      exactly when the size exceeds the limit. The result is a slice in an arena in order
      exactly when the new block fits. */
  method GrowSlice(a: Arena, s: Slice, newLen: nat, typeSize: nat, ghost b: Block)
    returns (g: Growth, ghost copied: nat)
    requires a.Valid() && s.len <= s.cap <= QUARTER && typeSize > 0 && newLen < U64
    requires s.base <= a.mem.Length
    requires s.cap > 0 ==> b in a.blocks && s.base == b.off && Bytes(s.cap, typeSize) == b.size
    requires IsPowerOfTwo(DEFAULT_ALIGNMENT) && NewSize(newLen, s.cap, typeSize) < U64
    modifies a, a.mem
    ensures g.Panicked? <==> NewSize(newLen, s.cap, typeSize) > MAX_ALLOC
    ensures g.Panicked? ==> a.Now() == old(a.Now()) && a.mem[..] == old(a.mem[..])
    ensures g.Grew? ==> g.len == newLen && g.cap == CapFor(newLen, s.cap) && Grown(newLen, s.cap, g.cap)
    ensures var size := NewSize(newLen, s.cap, typeSize);
      var fits := old(GrowthFits(a, s.base, s.cap, size));
      && (fits <==> g.Grew? && g.base.Some? && a.Valid())
      && (fits ==>
            && EndsWith(a.blocks, g.base.value, size)
            && SliceMoved(old(a.mem[..]), a.mem[..], s.base, Bytes(s.len, typeSize), g.base.value,
                          old(a.blocks), b, s.cap > 0)
            && copied == BytesMoved(s.len, s.cap, g.cap, typeSize, s.base != old(a.prevOff)))
  {
    hide IsPowerOfTwo, Grown, CapFor, BytesMoved, NextOff, InOrder, Dated, SliceMoved, EndsWith, Bytes;
    var newCap := NewSliceCap(newLen, s.cap);
    var size, used := Bytes(newCap, typeSize), Bytes(s.len, typeSize);
    copied := 0;
    if size > MAX_ALLOC {
      return Panicked, 0;
    }
    Sizes(s.len, s.cap, newLen, newCap, typeSize);
    Counted(s.len, s.cap, newCap, typeSize, s.base != a.prevOff);
    var p, faults;
    p, copied, faults := MoveSlice(a, s.base, s.cap, size, used, b);
    g := if faults then Faulted else Grew(p, newLen, newCap);
  }

  lemma Counted(len: nat, cap: nat, newCap: nat, typeSize: nat, moved: bool)
    requires len <= cap
    ensures var size := Bytes(newCap, typeSize);
      BytesMoved(len, cap, newCap, typeSize, moved)
      == if cap == 0 || !moved then 0 else (if cap < size then cap else size) + Bytes(len, typeSize)
  {
  }

  lemma Sizes(len: nat, cap: nat, newLen: nat, newCap: nat, typeSize: nat)
    requires len <= cap && typeSize > 0 && Grown(newLen, cap, newCap)
    ensures cap <= Bytes(cap, typeSize) && Bytes(len, typeSize) <= Bytes(cap, typeSize) <= Bytes(newCap, typeSize)
    ensures newLen <= newCap && (len == 0 ==> Bytes(len, typeSize) == 0)
  {
    Times(len, cap, typeSize);
    Times(cap, newCap, typeSize);
  }

  lemma Times(x: nat, y: nat, k: nat)
    requires x <= y
    ensures x * k <= y * k
    ensures k > 0 ==> x <= x * k
  {
    assert (y - x) * k == y * k - x * k;
    if k > 0 {
      assert x * k == x + x * (k - 1);
    }
  }

  // Whether the block stayed or was moved, the second copy leaves what the slice held.
  lemma GrowKeeps(m: seq<char>, m1: seq<char>, m2: seq<char>, bs: seq<Block>, end: nat, b: Block,
                  p: nat, n: nat, used: nat)
    requires (forall c <- bs :: c.off + c.size <= end) && b in bs && end <= |m| && used <= b.size && n <= b.size
    requires |m1| == |m| && p + used <= |m| && b.off + used <= |m|
    requires p == b.off ==> m1 == m
    requires p != b.off ==> end <= p && p + n <= |m| && b.off + n <= |m| && m1 == Moved(m, p, b.off, n)
    requires m2 == Moved(m1, p, b.off, used)
    ensures SliceMoved(m, m2, b.off, used, p, bs, b, true)
  {
    if p == b.off {
      assert m2 == m;
    } else {
      hide Moved;
      MoveKeepsBlocks(m, bs, end, b, p, n);
      MoveKeepsBlocks(m1, bs, end, b, p, used);
      TakeOfPart(m, b.off, b.size, used);
      TakeOfPart(m1, b.off, b.size, used);
    }
  }

  lemma NothingMoved(m: seq<char>, base: nat, p: nat, bs: seq<Block>, end: nat, b: Block)
    requires (forall c <- bs :: c.off + c.size <= end) && end <= |m| && base <= |m| && p <= |m|
    ensures SliceMoved(m, m, base, 0, p, bs, b, false)
  {
  }

  lemma TakeOfPart(m: seq<char>, off: nat, size: nat, n: nat)
    requires n <= size && off + size <= |m|
    ensures m[off..off + size][..n] == m[off..off + n]
  {
  }
}
