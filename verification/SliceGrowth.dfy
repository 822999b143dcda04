/** lib/cfa/src/builtin.c: the growth of a slice's capacity, in wrapping uint64 arithmetic. */
module SliceGrowth {
  import opened Basics
  import opened Bits

  const THRESHOLD := 256

  // One step of the loop: a quarter more, and 192 on top, where both sums can wrap.
  function GrowStep(cap: nat): (r: nat)
    ensures r < U64
    ensures cap + 3 * THRESHOLD < U64 ==> r == (cap + (cap + 3 * THRESHOLD) / 4) % U64
  {
    (cap + (cap + 3 * THRESHOLD) % U64 / 4) % U64
  }

  // What the new capacity promises to a caller whose old capacity is at most 2^62, so
  // that nothing wraps: enough room, a quarter more than before at least, and when
  // neither the doubling nor the request decides, little more than a quarter too much.
  predicate Grown(newLen: nat, oldCap: nat, r: nat) {
    && newLen <= r
    && 5 * oldCap <= 4 * r
    && (newLen > 2 * oldCap ==> r == newLen)
    && (newLen <= 2 * oldCap && oldCap < THRESHOLD ==> r == 2 * oldCap)
    && (newLen <= 2 * oldCap && oldCap >= THRESHOLD ==>
          4 * r <= 5 * (if newLen < oldCap then oldCap else newLen) + 3 * THRESHOLD)
  }

  // A step that starts within 768 of 2^64 can stand still, and the loop would then never
  // end. It does not get there: only capacities just below 2^63 can be asked for so
  // much, and from those the fourth step overflows.
  predicate OnTheWay(cap: nat, newLen: nat) {
    newLen > U64 - 3 * THRESHOLD ==>
      || 0x7FFF_FFFF_FFFF_FE80 <= cap <= 0x7FFF_FFFF_FFFF_FFFF
      || 0x9FFF_FFFF_FFFF_FEE0 <= cap <= 0xA000_0000_0000_00BF
      || 0xC7FF_FFFF_FFFF_FF58 <= cap <= 0xC800_0000_0000_01AF
      || 0xF9FF_FFFF_FFFF_FFEE <= cap <= 0xFA00_0000_0000_02DB
  }

  lemma StepOnTheWay(cap: nat, newLen: nat)
    requires cap < newLen < U64 && OnTheWay(cap, newLen)
    requires GrowStep(cap) >= cap
    ensures GrowStep(cap) > cap && OnTheWay(GrowStep(cap), newLen)
  {
    var sum := PlainStep(cap);
    hide GrowStep;
  }

  // The step before it wraps around.
  lemma PlainStep(cap: nat) returns (sum: nat)
    requires cap + 3 * THRESHOLD < U64
    ensures sum == cap + (cap + 3 * THRESHOLD) / 4
    ensures if sum < U64 then GrowStep(cap) == sum > cap else GrowStep(cap) < cap
  {
    sum := cap + (cap + 3 * THRESHOLD) / 4;
    if sum >= U64 {
      assert GrowStep(cap) == sum - U64;
    }
  }

  lemma EntryOnTheWay(newLen: nat, oldCap: nat)
    requires newLen <= (oldCap + oldCap) % U64 && oldCap < newLen && oldCap < U64
    ensures OnTheWay(oldCap, newLen)
  {
  }

  const QUARTER := 0x4000_0000_0000_0000 // 2^62

  lemma LastStep(newLen: nat, oldCap: nat, cap: nat)
    requires THRESHOLD <= oldCap <= QUARTER && newLen <= 2 * oldCap
    requires oldCap <= cap && (cap == oldCap || cap < newLen)
    ensures GrowStep(cap) >= cap
    ensures GrowStep(cap) >= newLen ==> Grown(newLen, oldCap, GrowStep(cap))
  {
    assert GrowStep(cap) == cap + (cap + 3 * THRESHOLD) / 4;
  }

  // The loop of new_slice_cap, which starts at cap.
  function GrowFrom(newLen: nat, cap: nat): (r: nat)
    requires cap < U64 && newLen < U64 && (cap < newLen ==> OnTheWay(cap, newLen))
    ensures newLen <= r < U64
    decreases U64 - cap
  {
    var next := GrowStep(cap);
    if next < cap then newLen
    else if next >= newLen then next
    else
      StepOnTheWay(cap, newLen);
      GrowFrom(newLen, next)
  }

  // The capacity that new_slice_cap chooses.
  function CapFor(newLen: nat, oldCap: nat): (r: nat)
    requires newLen < U64 && oldCap < U64
    ensures newLen <= r < U64
  {
    var doubleCap := (oldCap + oldCap) % U64;
    if newLen > doubleCap then newLen
    else if oldCap < THRESHOLD then doubleCap
    else
      LoopStarts(newLen, oldCap);
      GrowFrom(newLen, oldCap)
  }

  lemma LoopStarts(newLen: nat, oldCap: nat)
    requires oldCap < U64 && newLen <= (oldCap + oldCap) % U64
    ensures oldCap < newLen ==> OnTheWay(oldCap, newLen)
  {
    if oldCap < newLen {
      EntryOnTheWay(newLen, oldCap);
    }
  }

  lemma {:induction false} GrowFromIsGrown(newLen: nat, oldCap: nat, cap: nat)
    requires THRESHOLD <= oldCap <= QUARTER && newLen <= 2 * oldCap
    requires oldCap <= cap < U64 && (cap == oldCap || cap < newLen) && (cap < newLen ==> OnTheWay(cap, newLen))
    ensures Grown(newLen, oldCap, GrowFrom(newLen, cap))
    decreases U64 - cap
  {
    hide GrowStep, OnTheWay, Grown;
    LastStep(newLen, oldCap, cap);
    if GrowStep(cap) < newLen {
      StepOnTheWay(cap, newLen);
      GrowFromIsGrown(newLen, oldCap, GrowStep(cap));
    }
  }

  // A capacity, a quarter of it and 192, where the sum that is divided by four can wrap around.
  function QuarterMore(cap: nat): nat {
    cap + (cap + 768) % U64 / 4
  }

  predicate Quarters(caps: seq<nat>) {
    forall i :: 0 <= i < |caps| - 1 ==> caps[i + 1] == QuarterMore(caps[i])
  }

  // caps leads from cap to the first capacity behind it that reaches newLen.
  predicate FirstReaching(caps: seq<nat>, cap: nat, newLen: nat) {
    && |caps| > 1 && caps[0] == cap && Quarters(caps) && caps[|caps| - 1] >= newLen
    && forall i :: 0 < i < |caps| - 1 ==> caps[i] < newLen
  }

  lemma {:induction false} GrowFromIsFirst(newLen: nat, cap: nat) returns (caps: seq<nat>)
    requires cap < U64 && newLen < U64 && (cap < newLen ==> OnTheWay(cap, newLen))
    ensures FirstReaching(caps, cap, newLen)
    ensures GrowFrom(newLen, cap) == if caps[|caps| - 1] < U64 then caps[|caps| - 1] else newLen
    decreases U64 - cap
  {
    var plain := QuarterMore(cap);
    StepWraps(cap, plain);
    hide GrowStep, OnTheWay, QuarterMore;
    if plain >= newLen || plain >= U64 {
      caps := [cap, plain];
    } else {
      StepOnTheWay(cap, newLen);
      var rest := GrowFromIsFirst(newLen, plain);
      caps := [cap] + rest;
      OneMoreCap(cap, plain, newLen, rest);
      hide FirstReaching;
    }
  }

  lemma OneMoreCap(cap: nat, next: nat, newLen: nat, rest: seq<nat>)
    requires next == QuarterMore(cap) && next < newLen && FirstReaching(rest, next, newLen)
    ensures FirstReaching([cap] + rest, cap, newLen)
  {
    hide QuarterMore;
    var caps := [cap] + rest;
    assert forall i :: 0 < i < |caps| ==> caps[i] == rest[i - 1];
  }

  lemma StepWraps(cap: nat, plain: nat)
    requires cap < U64 && plain == QuarterMore(cap)
    ensures if plain < U64 then GrowStep(cap) == plain >= cap else GrowStep(cap) < cap
  {
    assert plain < 2 * U64;
    if plain >= U64 {
      assert GrowStep(cap) == plain - U64;
    }
  }

  // The capacity chosen, exactly: the request if doubling does not reach it, the double of a
  // small capacity, and otherwise the first of the growing capacities that reaches the
  // request, or the request if 64 bits do not hold that.
  lemma CapForIsFirst(newLen: nat, oldCap: nat) returns (caps: seq<nat>)
    requires newLen < U64 && oldCap < U64
    ensures newLen > 2 * oldCap % U64 ==> CapFor(newLen, oldCap) == newLen
    ensures newLen <= 2 * oldCap % U64 && oldCap < 256 ==> CapFor(newLen, oldCap) == 2 * oldCap
    ensures newLen <= 2 * oldCap % U64 && oldCap >= 256 ==>
      && FirstReaching(caps, oldCap, newLen)
      && CapFor(newLen, oldCap) == if caps[|caps| - 1] < U64 then caps[|caps| - 1] else newLen
  {
    caps := [];
    if newLen <= 2 * oldCap % U64 && oldCap >= 256 {
      LoopStarts(newLen, oldCap);
      caps := GrowFromIsFirst(newLen, oldCap);
    }
  }

  // What the caller is promised while nothing wraps.
  lemma CapForIsGrown(newLen: nat, oldCap: nat)
    requires newLen < U64 && oldCap <= QUARTER
    ensures Grown(newLen, oldCap, CapFor(newLen, oldCap))
  {
    if newLen <= 2 * oldCap && oldCap >= THRESHOLD {
      LoopStarts(newLen, oldCap);
      GrowFromIsGrown(newLen, oldCap, oldCap);
    }
  }

  /** new_slice_cap: it ends and returns enough room for every pair of uint64 values,
      although its sums may wrap around. */
  method NewSliceCap(newLen: nat, oldCap: nat) returns (r: nat)
    requires newLen < U64 && oldCap < U64
    ensures r == CapFor(newLen, oldCap)
    ensures newLen <= r < U64
    ensures oldCap <= QUARTER ==> Grown(newLen, oldCap, r)
  {
    hide Grown, GrowFrom;
    if oldCap <= QUARTER {
      CapForIsGrown(newLen, oldCap);
    }
    var newCap := oldCap;
    var doubleCap := (newCap + newCap) % U64;
    if newLen > doubleCap {
      return newLen;
    }
    if oldCap < THRESHOLD {
      return doubleCap;
    }
    r := GrowUntil(newLen, oldCap, doubleCap);
  }

  method GrowUntil(newLen: nat, oldCap: nat, ghost doubleCap: nat) returns (r: nat)
    requires THRESHOLD <= oldCap < U64
    requires newLen <= doubleCap == (oldCap + oldCap) % U64
    ensures newLen <= r < U64
    ensures r == CapFor(newLen, oldCap)
  {
    hide GrowStep, OnTheWay;
    LoopStarts(newLen, oldCap);
    var newCap := oldCap;
    while true
      invariant oldCap <= newCap < U64
      invariant newCap < newLen ==> OnTheWay(newCap, newLen)
      invariant GrowFrom(newLen, newCap) == GrowFrom(newLen, oldCap)
      decreases U64 - newCap
    {
      var oldNewCap := newCap;
      newCap := GrowStep(newCap);
      // The sum has wrapped around.
      if newCap < oldNewCap {
        return newLen;
      }
      if newCap >= newLen {
        return newCap;
      }
      StepOnTheWay(oldNewCap, newLen);
    }
  }

  // The bytes that grow_slice moves. A block that stays where it is costs nothing. A block
  // that is moved is copied twice: by arena_resize, which takes the old capacity for its
  // size in bytes, and by grow_slice itself.
  function BytesMoved(len: nat, cap: nat, newCap: nat, typeSize: nat, moved: bool): nat {
    if !moved then 0
    else (if cap < newCap * typeSize then cap else newCap * typeSize) + len * typeSize
  }

  // The capacities that a slice passes through when it is filled one element at a time.
  predicate FilledOneByOne(caps: seq<nat>) {
    forall i :: 0 <= i < |caps| - 1 ==> Grown(caps[i] + 1, caps[i], caps[i + 1])
  }

  // All bytes moved while it grows; moved tells for each growth whether the block moves.
  function AllMoved(caps: seq<nat>, typeSize: nat, moved: seq<bool>): nat
    requires |caps| == |moved| + 1
  {
    if moved == [] then 0
    else
      var n := |moved|;
      AllMoved(caps[..n], typeSize, moved[..n - 1])
      + BytesMoved(caps[n - 1], caps[n - 1], caps[n], typeSize, moved[n - 1])
  }

  // Filling a slice one by one moves at most four times its final size, and four bytes
  // more for each final place, whatever else is allocated in between.
  lemma {:induction false} AmortizedGrowth(caps: seq<nat>, typeSize: nat, moved: seq<bool>)
    requires |caps| == |moved| + 1 && FilledOneByOne(caps)
    ensures AllMoved(caps, typeSize, moved) <= 4 * (typeSize + 1) * caps[|moved|]
  {
    if moved != [] {
      hide Grown, BytesMoved;
      var n := |moved|;
      AmortizedGrowth(caps[..n], typeSize, moved[..n - 1]);
      assert Grown(caps[n - 1] + 1, caps[n - 1], caps[n - 1 + 1]);
      OneMoreGrowth(AllMoved(caps[..n], typeSize, moved[..n - 1]), caps[n - 1], caps[n], typeSize, moved[n - 1]);
    }
  }

  lemma OneMoreGrowth(before: nat, cap: nat, newCap: nat, typeSize: nat, moved: bool)
    requires Grown(cap + 1, cap, newCap) && before <= 4 * (typeSize + 1) * cap
    ensures before + BytesMoved(cap, cap, newCap, typeSize, moved) <= 4 * (typeSize + 1) * newCap
  {
    var k := typeSize + 1;
    assert BytesMoved(cap, cap, newCap, typeSize, moved) <= k * cap by {
      Distributes(cap, typeSize);
    }
    assert 5 * cap <= 4 * newCap;
    hide Grown, BytesMoved;
    FourFifths(k, cap, newCap);
  }

  lemma Distributes(cap: nat, typeSize: nat)
    ensures cap + cap * typeSize == (typeSize + 1) * cap
  {
  }

  lemma FourFifths(k: nat, cap: nat, newCap: nat)
    requires 5 * cap <= 4 * newCap
    ensures 4 * k * cap + k * cap <= 4 * k * newCap
  {
    MulUp(k, 5 * cap, 4 * newCap);
    assert k * (5 * cap) == 5 * (k * cap) && 4 * k * cap == 4 * (k * cap);
    assert k * (4 * newCap) == 4 * (k * newCap) && 4 * k * newCap == 4 * (k * newCap);
  }

  // The same sum by running totals, for single bytes that are moved at each growth.
  lemma {:induction false} AllMovedByTotals(caps: seq<nat>, moved: seq<bool>, totals: seq<nat>)
    requires |caps| == |totals| == |moved| + 1 && totals[0] == 0
    requires forall i :: 0 <= i < |moved| ==> moved[i] && caps[i] <= caps[i + 1]
    requires forall i :: 0 <= i < |moved| ==> totals[i + 1] == totals[i] + 2 * caps[i]
    ensures AllMoved(caps, 1, moved) == totals[|moved|]
  {
    if moved != [] {
      var n := |moved|;
      AllMovedByTotals(caps[..n], moved[..n - 1], totals[..n]);
      assert totals[n - 1 + 1] == totals[n - 1] + 2 * caps[n - 1];
      assert caps[n - 1] <= caps[n - 1 + 1];
    }
  }

  lemma StepsUp(cap: nat, newCap: nat)
    requires THRESHOLD <= cap < newCap && 5 * cap <= 4 * newCap <= 5 * (cap + 1) + 3 * THRESHOLD
    ensures Grown(cap + 1, cap, newCap)
  {
  }

  // Four times the final size alone would not be enough.
  lemma FourTimesIsExceeded()
    ensures var caps := [256, 512, 832, 1232, 1732, 2357, 3138, 4114];
      && FilledOneByOne(caps)
      && AllMoved(caps, 1, seq(7, _ => true)) > 4 * caps[7]
  {
    hide BytesMoved, AllMoved, Grown;
    StepsUp(256, 512);
    StepsUp(512, 832);
    StepsUp(832, 1232);
    StepsUp(1232, 1732);
    StepsUp(1732, 2357);
    StepsUp(2357, 3138);
    StepsUp(3138, 4114);
    AllMovedByTotals([256, 512, 832, 1232, 1732, 2357, 3138, 4114], seq(7, _ => true),
                     [0, 512, 1536, 3200, 5664, 9128, 13842, 20118]);
  }
}
