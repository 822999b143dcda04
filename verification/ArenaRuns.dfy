/** Whole runs of the allocator of lib/cfa/src/arena.c: allocations, resizes, savepoints,
    recoveries and resets, in any order. */
module ArenaRuns {
  import opened Bits
  import opened Arenas

  // Recover names a savepoint by its number; any one that was ever made may be recovered,
  // also after others and more than once.
  datatype Op =
    | Alloc(size: nat, align: nat)
    | Resize(b: Block, newSize: nat, newAlign: nat)
    | Save
    | Recover(i: nat)
    | FreeAll

  // The arena, and every savepoint made so far.
  datatype Run = Run(now: State, saves: seq<State>)

  // What the arguments of a call are: sizes and alignments of 64 bits, powers of two, a block
  // in use with at least one byte, a savepoint that was made.
  predicate Callable(r: Run, op: Op) {
    match op
    case Alloc(size, align) => size < U64 && 0 < align < U64 && IsPowerOfTwo(align)
    case Resize(b, size, align) =>
      size < U64 && 0 < align < U64 && IsPowerOfTwo(align) && b in r.now.blocks && b.size > 0
    case Save => true
    case Recover(i) => i < |r.saves|
    case FreeAll => true
  }

  function Step(addr: nat, len: nat, r: Run, op: Op): Run
    requires Callable(r, op)
  {
    match op
    case Alloc(size, align) => r.(now := AfterAlloc(addr, len, r.now, size, align))
    case Resize(b, size, align) => r.(now := AfterResize(addr, len, r.now, b, size, align))
    case Save => r.(saves := r.saves + [r.now])
    case Recover(i) => r.(now := AfterRecover(r.now, r.saves[i]))
    case FreeAll => r.(now := State(0, 0, [], r.now.clock))
  }

  // What a caller must see to, and can: that no sum of offset and size wraps around in a
  // block that is handed out, that a resize in place fits the buffer, and that since a
  // savepoint no block of its time was resized past its end.
  predicate Harmless(addr: nat, len: nat, r: Run, op: Op)
    requires Callable(r, op)
  {
    match op
    case Alloc(size, align) =>
      HandsOut(addr, len, r.now, size, align) ==> NextOff(addr, r.now.curr, align) + size < U64
    case Resize(b, size, align) =>
      if b.off == r.now.prev then b.off + size <= len
      else HandsOut(addr, len, r.now, size, align) ==> NextOff(addr, r.now.curr, align) + size < U64
    case Save => true
    case Recover(i) => forall b <- r.now.blocks | b.born < r.saves[i].clock :: b.off + b.size <= r.saves[i].curr
    case FreeAll => true
  }

  // The blocks are in order, now and at every savepoint, and the savepoints are of this run.
  ghost predicate Good(len: nat, r: Run) {
    && InOrder(len, r.now) && Dated(r.now)
    && forall s <- r.saves :: InOrder(len, s) && Dated(s) && Descends(r.now, s)
  }

  // A call keeps the blocks in order if and only if it is harmless.
  lemma StepInOrderIff(addr: nat, len: nat, r: Run, op: Op)
    requires Good(len, r) && Callable(r, op) && len < U64
    ensures InOrder(len, Step(addr, len, r, op).now) <==> Harmless(addr, len, r, op)
    ensures Harmless(addr, len, r, op) ==> Good(len, Step(addr, len, r, op))
  {
    hide Wrap, IsPowerOfTwo, InOrder, Dated, Descends, NextOff, HandsOut, AfterAlloc, AfterResize, AfterRecover;
    match op
    case Alloc(size, align) =>
      AllocInOrderIff(addr, len, r.now, size, align);
      forall s | s in r.saves ensures Descends(AfterAlloc(addr, len, r.now, size, align), s) {
        AllocDescends(addr, len, r.now, size, align, s);
      }
    case Resize(b, size, align) =>
      ResizeInOrderIff(addr, len, r.now, b, size, align);
      forall s | s in r.saves ensures Descends(AfterResize(addr, len, r.now, b, size, align), s) {
        ResizeDescends(addr, len, r.now, b, size, align, s);
      }
    case Save =>
      SaveDescends(r.now);
    case Recover(i) =>
      RecoverInOrderIff(len, r.now, r.saves[i]);
      forall s | s in r.saves ensures Descends(AfterRecover(r.now, r.saves[i]), s) {
        RecoverDescends(r.now, r.saves[i], s);
      }
    case FreeAll =>
      Emptied(len, r.now);
      forall s | s in r.saves ensures Descends(State(0, 0, [], r.now.clock), s) {
        EmptyDescends(r.now, s);
      }
  }

  lemma SaveDescends(s: State)
    ensures Descends(s, s)
  {
    forall b | b in s.blocks
      ensures HasOrigin(b, s.blocks)
    {
      var i :| 0 <= i < |s.blocks| && s.blocks[i] == b;
    }
  }

  lemma AllocDescends(addr: nat, len: nat, s: State, size: nat, align: nat, saved: State)
    requires align > 0 && IsPowerOfTwo(align) && Descends(s, saved)
    ensures Descends(AfterAlloc(addr, len, s, size, align), saved)
  {
    hide Wrap, IsPowerOfTwo, NextOff, HasOrigin;
  }

  lemma ResizedDescends(s: State, b: Block, size: nat, saved: State)
    requires Descends(s, saved) && b.size > 0
    ensures Descends(s.(blocks := Resized(s.blocks, b, size)), saved)
  {
    var bs := Resized(s.blocks, b, size);
    forall c | c in bs && c.born < saved.clock
      ensures HasOrigin(c, saved.blocks)
    {
      var i :| 0 <= i < |bs| && bs[i] == c;
      assert s.blocks[i] in s.blocks && HasOrigin(s.blocks[i], saved.blocks);
    }
  }

  lemma ResizeDescends(addr: nat, len: nat, s: State, b: Block, size: nat, align: nat, saved: State)
    requires align > 0 && IsPowerOfTwo(align) && Descends(s, saved) && b.size > 0
    ensures Descends(AfterResize(addr, len, s, b, size, align), saved)
  {
    hide Wrap, IsPowerOfTwo, NextOff, HandsOut, HasOrigin, AfterAlloc, Resized;
    ResizedDescends(s, b, size, saved);
    ResizedDescends(s, b, 0, saved);
    AllocDescends(addr, len, s.(blocks := Resized(s.blocks, b, 0)), size, align, saved);
  }

  lemma RecoverDescends(s: State, recovered: State, saved: State)
    requires Descends(s, saved)
    ensures Descends(AfterRecover(s, recovered), saved)
  {
    hide HasOrigin;
    assert forall b <- BornBefore(s.blocks, recovered.clock) :: b in s.blocks;
  }

  lemma Emptied(len: nat, s: State)
    ensures InOrder(len, State(0, 0, [], s.clock)) && Dated(State(0, 0, [], s.clock))
  {
  }

  lemma EmptyDescends(s: State, saved: State)
    requires Descends(s, saved)
    ensures Descends(State(0, 0, [], s.clock), saved)
  {
  }

  // A run is a list of operations, each callable where it happens.
  predicate Calls(addr: nat, len: nat, r: Run, ops: seq<Op>)
    decreases |ops|
  {
    ops == [] || (Callable(r, ops[0]) && Calls(addr, len, Step(addr, len, r, ops[0]), ops[1..]))
  }

  function RunOps(addr: nat, len: nat, r: Run, ops: seq<Op>): Run
    requires Calls(addr, len, r, ops)
    decreases |ops|
  {
    if ops == [] then r else RunOps(addr, len, Step(addr, len, r, ops[0]), ops[1..])
  }

  predicate AllHarmless(addr: nat, len: nat, r: Run, ops: seq<Op>)
    requires Calls(addr, len, r, ops)
    decreases |ops|
  {
    ops == [] || (Harmless(addr, len, r, ops[0]) && AllHarmless(addr, len, Step(addr, len, r, ops[0]), ops[1..]))
  }

  // The blocks are in order at every moment of the run.
  ghost predicate AlwaysInOrder(addr: nat, len: nat, r: Run, ops: seq<Op>)
    requires Calls(addr, len, r, ops)
    decreases |ops|
  {
    InOrder(len, r.now) && (ops != [] ==> AlwaysInOrder(addr, len, Step(addr, len, r, ops[0]), ops[1..]))
  }

  // Over every run the blocks in use are apart and inside the buffer, at every moment, if and
  // only if every call is harmless.
  lemma {:induction false} RunsInOrderIff(addr: nat, len: nat, r: Run, ops: seq<Op>)
    requires Good(len, r) && Calls(addr, len, r, ops) && len < U64
    ensures AlwaysInOrder(addr, len, r, ops) <==> AllHarmless(addr, len, r, ops)
    ensures AllHarmless(addr, len, r, ops) ==> Good(len, RunOps(addr, len, r, ops))
    decreases |ops|
  {
    if ops != [] {
      hide Callable, Step, Harmless, InOrder, Dated;
      StepInOrderIff(addr, len, r, ops[0]);
      if Harmless(addr, len, r, ops[0]) {
        RunsInOrderIff(addr, len, Step(addr, len, r, ops[0]), ops[1..]);
      } else {
        NotInOrder(addr, len, Step(addr, len, r, ops[0]), ops[1..]);
      }
    }
  }

  lemma NotInOrder(addr: nat, len: nat, r: Run, ops: seq<Op>)
    requires Calls(addr, len, r, ops) && !InOrder(len, r.now)
    ensures !AlwaysInOrder(addr, len, r, ops)
  {
  }

  predicate Disjoint(a: Block, b: Block) {
    a.size == 0 || b.size == 0 || a.off + a.size <= b.off || b.off + b.size <= a.off
  }

  // No two blocks in use share a byte.
  ghost predicate NoOverlap(bs: seq<Block>) {
    forall i, j :: 0 <= i < j < |bs| ==> Disjoint(bs[i], bs[j])
  }

  predicate OnlyAllocs(ops: seq<Op>) {
    forall op <- ops :: op.Alloc?
  }

  // Whatever is allocated after the recovery of savepoint i, without a sum that wraps, shares
  // no byte with a block that was in use then, nor with another one.
  ghost predicate StaysClear(addr: nat, len: nat, r: Run, i: nat)
    requires i < |r.saves|
  {
    forall ops: seq<Op> | OnlyAllocs(ops) && Calls(addr, len, Step(addr, len, r, Recover(i)), ops)
                        && AllHarmless(addr, len, Step(addr, len, r, Recover(i)), ops) ::
      NoOverlap(RunOps(addr, len, Step(addr, len, r, Recover(i)), ops).now.blocks)
  }

  // A savepoint may be recovered at any time. All later allocations, however many, stay clear
  // of the blocks that remain if and only if none of these ends behind the saved end.
  lemma RecoveryIsSafeIff(addr: nat, len: nat, r: Run, i: nat)
    requires Good(len, r) && i < |r.saves| && len < U64
    ensures StaysClear(addr, len, r, i) <==> Harmless(addr, len, r, Recover(i))
  {
    hide InOrder, Dated, Descends, Calls, RunOps, AllHarmless;
    if Harmless(addr, len, r, Recover(i)) {
      StepInOrderIff(addr, len, r, Recover(i));
      var r1 := Step(addr, len, r, Recover(i));
      forall ops: seq<Op> | OnlyAllocs(ops) && Calls(addr, len, r1, ops) && AllHarmless(addr, len, r1, ops)
        ensures NoOverlap(RunOps(addr, len, r1, ops).now.blocks)
      {
        RunsInOrderIff(addr, len, r1, ops);
        InOrderNoOverlap(len, RunOps(addr, len, r1, ops).now);
      }
    } else {
      var b :| b in r.now.blocks && b.born < r.saves[i].clock && b.off + b.size > r.saves[i].curr;
      OneAllocOverlaps(addr, len, r, i, b);
    }
  }

  // While every block of the time of saving that is in use is as it was then, the savepoint
  // can be recovered without harm.
  lemma UnresizedIsSafe(addr: nat, len: nat, r: Run, i: nat)
    requires Good(len, r) && i < |r.saves|
    requires forall b <- r.now.blocks | b.born < r.saves[i].clock :: b in r.saves[i].blocks
    ensures Harmless(addr, len, r, Recover(i))
  {
    assert r.saves[i] in r.saves;
  }

  lemma InOrderNoOverlap(len: nat, s: State)
    requires InOrder(len, s)
    ensures NoOverlap(s.blocks)
  {
  }

  lemma RunOfOne(addr: nat, len: nat, r: Run, op: Op)
    requires Callable(r, op)
    ensures Calls(addr, len, r, [op]) && RunOps(addr, len, r, [op]) == Step(addr, len, r, op)
    ensures AllHarmless(addr, len, r, [op]) <==> Harmless(addr, len, r, op)
  {
    hide Callable, Step, Harmless;
    assert [op][1..] == [];
    var r1 := Step(addr, len, r, op);
    assert Calls(addr, len, r1, []) && RunOps(addr, len, r1, []) == r1;
  }

  lemma EndsBehind(len: nat, r: Run, saved: State, b: Block)
    requires Good(len, r) && saved in r.saves
    requires b in r.now.blocks && b.born < saved.clock && b.off + b.size > saved.curr
    ensures b.off <= saved.curr < b.off + b.size <= len
  {
    assert HasOrigin(b, saved.blocks);
    var k :| 0 <= k < |saved.blocks| && saved.blocks[k].off == b.off;
    assert saved.blocks[k] in saved.blocks;
  }

  // The next allocation takes all that the arena takes to be left.
  lemma OneAllocOverlaps(addr: nat, len: nat, r: Run, i: nat, b: Block)
    requires Good(len, r) && i < |r.saves| && len < U64
    requires b in r.now.blocks && b.born < r.saves[i].clock && b.off + b.size > r.saves[i].curr
    ensures !StaysClear(addr, len, r, i)
  {
    OneIsPower();
    hide Wrap, IsPowerOfTwo;
    EndsBehind(len, r, r.saves[i], b);
    BornBeforeMembers(r.now.blocks, r.saves[i].clock);
    hide InOrder, Dated, Descends;
    var r1 := Step(addr, len, r, Recover(i));
    var op := Alloc(len - r.saves[i].curr, 1);
    assert NextOff(addr, r1.now.curr, 1) == r.saves[i].curr;
    var r2 := Step(addr, len, r1, op);
    RunOfOne(addr, len, r1, op);
    var bs, n := r2.now.blocks, |r1.now.blocks|;
    var k :| 0 <= k < n && r1.now.blocks[k] == b;
    assert bs[k] == b && bs[n] == Block(r.saves[i].curr, len - r.saves[i].curr, r.now.clock);
    assert !Disjoint(bs[k], bs[n]);
  }

  // Allocations between a savepoint and its recovery leave no trace, whatever their sizes.
  lemma RecoverUndoes(addr: nat, len: nat, r: Run, allocs: seq<Op>)
    requires OnlyAllocs(allocs) && Dated(r.now) && Calls(addr, len, Step(addr, len, r, Save), allocs)
    ensures var r1 := RunOps(addr, len, Step(addr, len, r, Save), allocs);
      && Callable(r1, Recover(|r.saves|))
      && Step(addr, len, r1, Recover(|r.saves|)).now == r.now.(clock := r1.now.clock)
  {
    var saved := Step(addr, len, r, Save);
    AllocsExtend(addr, len, saved, allocs);
    BornBeforePrefix(RunOps(addr, len, saved, allocs).now.blocks, r.now.blocks, r.now.clock);
  }

  lemma {:induction false} AllocsExtend(addr: nat, len: nat, r: Run, allocs: seq<Op>)
    requires OnlyAllocs(allocs) && Calls(addr, len, r, allocs)
    ensures var r1 := RunOps(addr, len, r, allocs);
      && r.now.blocks <= r1.now.blocks && r1.saves == r.saves && r.now.clock <= r1.now.clock
      && forall i :: |r.now.blocks| <= i < |r1.now.blocks| ==> r1.now.blocks[i].born >= r.now.clock
    decreases |allocs|
  {
    if allocs != [] {
      hide NextOff, IsPowerOfTwo, HandsOut;
      AllocsExtend(addr, len, Step(addr, len, r, allocs[0]), allocs[1..]);
    }
  }

  lemma {:induction false} BornBeforePrefix(all: seq<Block>, bs: seq<Block>, n: nat)
    requires bs <= all && forall b <- bs :: b.born < n
    requires forall i :: |bs| <= i < |all| ==> all[i].born >= n
    ensures BornBefore(all, n) == bs
  {
    if |all| > |bs| {
      BornBeforePrefix(all[..|all| - 1], bs, n);
    } else if bs != [] {
      assert all[|all| - 1] in bs;
    }
  }

  lemma RunOfThree(addr: nat, len: nat, r: Run, a: Op, b: Op, c: Op)
    requires Callable(r, a) && Callable(Step(addr, len, r, a), b)
    requires Callable(Step(addr, len, Step(addr, len, r, a), b), c)
    ensures Calls(addr, len, r, [a, b, c])
    ensures RunOps(addr, len, r, [a, b, c]) == Step(addr, len, Step(addr, len, Step(addr, len, r, a), b), c)
  {
    hide Callable, Step;
    assert [a, b, c][1..] == [b, c] && [b, c][1..] == [c] && [c][1..] == [];
    var r1 := Step(addr, len, r, a);
    var r2 := Step(addr, len, r1, b);
    assert Calls(addr, len, r2, [c]) && RunOps(addr, len, r2, [c]) == Step(addr, len, r2, c);
    assert Calls(addr, len, r1, [b, c]);
  }

  const FRESH := Run(State(0, 0, [], 0), [])

  // The last block is resized in place behind a savepoint: the recovery is not harmless, and
  // the next block is put inside the resized one.
  lemma ResizedBlockIsOverlapped(addr: nat)
    requires addr % DEFAULT_ALIGNMENT == 0
    ensures IsPowerOfTwo(DEFAULT_ALIGNMENT)
    ensures var ops := [Alloc(100, DEFAULT_ALIGNMENT), Save, Resize(Block(0, 100, 0), 200, DEFAULT_ALIGNMENT)];
      var r := Run(State(0, 200, [Block(0, 200, 0)], 1), [State(0, 100, [Block(0, 100, 0)], 1)]);
      && Calls(addr, 4096, FRESH, ops) && RunOps(addr, 4096, FRESH, ops) == r
      && !Harmless(addr, 4096, r, Recover(0))
      && NextOff(addr, AfterRecover(r.now, r.saves[0]).curr, DEFAULT_ALIGNMENT) == 104
  {
    EightIsPower();
    hide Wrap, IsPowerOfTwo, AlignForward, Calls, RunOps, Resized;
    Behind100(addr);
    FirstBlock(addr);
    LastGrows(addr);
    var resize := Resize(Block(0, 100, 0), 200, DEFAULT_ALIGNMENT);
    RunOfThree(addr, 4096, FRESH, Alloc(100, DEFAULT_ALIGNMENT), Save, resize);
    assert Block(0, 200, 0) in [Block(0, 200, 0)];
  }

  lemma FirstBlock(addr: nat)
    requires addr % DEFAULT_ALIGNMENT == 0 && IsPowerOfTwo(DEFAULT_ALIGNMENT)
    ensures Step(addr, 4096, FRESH, Alloc(100, DEFAULT_ALIGNMENT)) == Run(State(0, 100, [Block(0, 100, 0)], 1), [])
  {
    hide Wrap, IsPowerOfTwo, AlignForward;
    AlignedAlready(addr, DEFAULT_ALIGNMENT);
  }

  lemma LastGrows(addr: nat)
    requires IsPowerOfTwo(DEFAULT_ALIGNMENT)
    ensures var b := Block(0, 100, 0);
      AfterResize(addr, 4096, State(0, 100, [b], 1), b, 200, DEFAULT_ALIGNMENT) == State(0, 200, [Block(0, 200, 0)], 1)
  {
    hide Wrap, IsPowerOfTwo;
    assert Resized([Block(0, 100, 0)], Block(0, 100, 0), 200) == [Block(0, 200, 0)];
  }

  lemma Behind100(addr: nat)
    requires addr % 8 == 0 && IsPowerOfTwo(8)
    ensures AlignForward(addr + 100, 8) == addr + 104
  {
    hide Wrap, IsPowerOfTwo;
    AlignForwardIsLeast(addr + 100, 8, addr + 104);
  }

  // A size whose sum wraps around is handed out, and the next block lies on top of the first.
  lemma WrappedSizeOverlaps(addr: nat)
    requires addr % DEFAULT_ALIGNMENT == 0
    ensures IsPowerOfTwo(DEFAULT_ALIGNMENT)
    ensures var huge := U64 - 8;
      var ops := [Alloc(8, DEFAULT_ALIGNMENT), Alloc(huge, DEFAULT_ALIGNMENT), Alloc(8, DEFAULT_ALIGNMENT)];
      && Calls(addr, 4096, FRESH, ops)
      && RunOps(addr, 4096, FRESH, ops).now.blocks == [Block(0, 8, 0), Block(8, huge, 1), Block(0, 8, 2)]
  {
    EightIsPower();
    hide Wrap, IsPowerOfTwo, AlignForward, Calls, RunOps;
    AlignedAlready(addr, 8);
    AlignedAlready(addr + 8, 8);
    var small, huge := Alloc(8, DEFAULT_ALIGNMENT), Alloc(U64 - 8, DEFAULT_ALIGNMENT);
    var r1 := Step(addr, 4096, FRESH, small);
    assert r1.now == State(0, 8, [Block(0, 8, 0)], 1);
    var r2 := Step(addr, 4096, r1, huge);
    assert r2.now == State(8, 0, [Block(0, 8, 0), Block(8, U64 - 8, 1)], 2);
    RunOfThree(addr, 4096, FRESH, small, huge, small);
  }
}
