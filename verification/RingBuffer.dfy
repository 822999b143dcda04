/** lib/cfa/src/buffer.c: the circular buffer. Its memory is two halves of equal size that
    nothing keeps alike, so what a rebasing consume leaves is not always what was put in. */
module RingBuffer {
  import opened Bits
  import opened Memory

  // The offsets of a buffer whose halves have size half.
  predicate OffsetsOk(half: nat, head: nat, tail: nat) {
    head <= half && head <= tail <= head + half
  }

  // The offsets after consume.
  function Consumed(half: nat, head: nat, tail: nat, n: nat): (r: (nat, nat))
    requires OffsetsOk(half, head, tail) && n <= tail - head
    ensures OffsetsOk(half, r.0, r.1) && r.1 - r.0 == tail - head - n
  {
    if head + n > half then (head + n - half, tail - half) else (head + n, tail)
  }

  // The memory as a double mapping would make it: each byte stands in both halves.
  ghost predicate Mirrored(half: nat, mem: seq<char>) {
    |mem| == 2 * half && forall i :: 0 <= i < half ==> mem[i] == mem[i + half]
  }

  class CircularBuffer {
    const buf: array<char>
    var head: nat
    var tail: nat

    // len / 2
    function Half(): nat {
      buf.Length / 2
    }

    ghost predicate Valid()
      reads this
    {
      buf.Length % 2 == 0 && buf.Length < U64 && OffsetsOk(Half(), head, tail)
    }

    ghost function Contents(): seq<char>
      requires Valid()
      reads this, buf
    {
      buf[head..tail]
    }

    constructor (mem: array<char>)
      requires mem.Length % 2 == 0 && mem.Length < U64
      ensures Valid() && buf == mem && Contents() == []
    {
      buf := mem;
      head, tail := 0, 0;
    }

    // How much can be produced.
    method RemainingSpace() returns (n: nat)
      requires Valid()
      ensures n + |Contents()| == Half()
    {
      n := Half() - (tail - head);
    }

    method UnconsumedLen() returns (n: nat)
      requires Valid()
      ensures n == |Contents()|
    {
      n := tail - head;
    }

    // The place to write: from the tail on, as long as the space that remains and inside
    // the memory.
    method RemainingSlice() returns (s: Slice)
      requires Valid()
      ensures s.base == head + |Contents()| && s.len + |Contents()| == Half() && s.len <= s.cap
      ensures Fits(s, buf)
    {
      assert head + Half() <= buf.Length;
      s := Slice(tail, head + Half() - tail, buf.Length - tail);
    }

    method UnconsumedSlice() returns (s: Slice)
      requires Valid()
      ensures Fits(s, buf) && s.len == s.cap && buf[s.base..s.base + s.len] == Contents()
    {
      var n := UnconsumedLen();
      s := Slice(head, n, n);
    }

    // What has been written where RemainingSlice starts is appended.
    method Produce(n: nat)
      requires Valid() && n + |Contents()| <= Half()
      modifies this`tail
      ensures Valid() && tail == old(tail) + n
      ensures Contents() == old(Contents()) + buf[old(tail)..old(tail) + n]
    {
      tail := tail + n;
    }

    /** consume: the offsets stay in bounds, and no subtraction is below zero. */
    method Consume(n: nat)
      requires Valid() && n <= |Contents()|
      modifies this
      ensures Valid() && (head, tail) == Consumed(Half(), old(head), old(tail), n)
      ensures |Contents()| == |old(Contents())| - n
      ensures old(head) + n <= Half() || n == |old(Contents())| ==> Contents() == old(Contents())[n..]
      ensures Mirrored(Half(), buf[..]) ==> Contents() == old(Contents())[n..]
    {
      if Mirrored(Half(), buf[..]) {
        MirroredIsFifo(Half(), buf[..], head, tail, n);
      }
      head := head + n;
      if head > Half() {
        head := head - Half();
        tail := tail - Half();
      }
    }

    method Reset()
      requires Valid()
      modifies this
      ensures Valid() && Contents() == []
    {
      head, tail := 0, 0;
    }
  }

  // Consuming takes from the front, whatever the memory holds, exactly when the head does
  // not leave the lower half or nothing is left behind.
  lemma ConsumeIsFifo(half: nat, head: nat, tail: nat, n: nat)
    requires half > 0 && OffsetsOk(half, head, tail) && n <= tail - head
    ensures (forall mem: seq<char> | |mem| == 2 * half ::
               var (h, t) := Consumed(half, head, tail, n); mem[h..t] == mem[head..tail][n..])
        <==> head + n <= half || n == tail - head
  {
    if head + n > half && n < tail - head {
      var mem := seq(2 * half, i => if i == head + n then 'a' else 'b');
      var (h, t) := Consumed(half, head, tail, n);
      assert mem[h..t][0] == 'b' && mem[head..tail][n..][0] == 'a';
    }
  }

  // With both halves alike consuming would always take from the front.
  lemma MirroredIsFifo(half: nat, mem: seq<char>, head: nat, tail: nat, n: nat)
    requires Mirrored(half, mem) && OffsetsOk(half, head, tail) && n <= tail - head
    ensures var (h, t) := Consumed(half, head, tail, n); mem[h..t] == mem[head..tail][n..]
  {
    var (h, t) := Consumed(half, head, tail, n);
    var a, b := mem[h..t], mem[head..tail][n..];
    forall i | 0 <= i < |a|
      ensures a[i] == b[i]
    {
      if head + n > half {
        assert mem[h + i] == mem[h + i + half];
      }
    }
  }

  datatype Ring = Ring(mem: seq<char>, head: nat, tail: nat)

  datatype Op = Write(text: seq<char>) | Take(n: nat)

  predicate RingOk(half: nat, r: Ring) {
    |r.mem| == 2 * half && OffsetsOk(half, r.head, r.tail)
  }

  // Writing no more than the space and taking no more than the contents.
  predicate Allowed(half: nat, r: Ring, op: Op)
    requires RingOk(half, r)
  {
    match op
    case Write(text) => |text| + (r.tail - r.head) <= half
    case Take(n) => n <= r.tail - r.head
  }

  ghost function Step(half: nat, r: Ring, op: Op): (r': Ring)
    requires RingOk(half, r) && Allowed(half, r, op)
    ensures RingOk(half, r')
  {
    match op
    case Write(text) => Ring(Put(r.mem, r.tail, text), r.head, r.tail + |text|)
    case Take(n) =>
      var (h, t) := Consumed(half, r.head, r.tail, n);
      Ring(r.mem, h, t)
  }

  predicate Drains(half: nat, r: Ring, op: Op) {
    op.Take? ==> r.head + op.n <= half || TakesAll(r, op)
  }

  predicate TakesAll(r: Ring, op: Op)
    requires op.Take?
  {
    op.n + r.head == r.tail
  }

  // The queue that the buffer is meant to be.
  function QueueStep(q: seq<char>, op: Op): seq<char> {
    match op
    case Write(text) => q + text
    case Take(n) => if n <= |q| then q[n..] else []
  }

  // A run is a list of operations, each allowed where it happens.
  ghost predicate Runs(half: nat, r: Ring, ops: seq<Op>)
    requires RingOk(half, r)
    decreases |ops|
  {
    ops == [] || (Allowed(half, r, ops[0]) && Runs(half, Step(half, r, ops[0]), ops[1..]))
  }

  ghost predicate EveryRebaseDrains(half: nat, r: Ring, ops: seq<Op>)
    requires RingOk(half, r) && Runs(half, r, ops)
    decreases |ops|
  {
    ops == [] || (Drains(half, r, ops[0]) && EveryRebaseDrains(half, Step(half, r, ops[0]), ops[1..]))
  }

  ghost function RunAll(half: nat, r: Ring, ops: seq<Op>): (r': Ring)
    requires RingOk(half, r) && Runs(half, r, ops)
    ensures RingOk(half, r')
    decreases |ops|
  {
    if ops == [] then r else RunAll(half, Step(half, r, ops[0]), ops[1..])
  }

  function QueueRun(q: seq<char>, ops: seq<Op>): seq<char>
    decreases |ops|
  {
    if ops == [] then q else QueueRun(QueueStep(q, ops[0]), ops[1..])
  }

  // Over every such run the buffer is a first-in first-out queue.
  lemma {:induction false} RunsAreFifo(half: nat, r: Ring, ops: seq<Op>)
    requires RingOk(half, r) && Runs(half, r, ops) && EveryRebaseDrains(half, r, ops)
    ensures var r' := RunAll(half, r, ops); r'.mem[r'.head..r'.tail] == QueueRun(r.mem[r.head..r.tail], ops)
    decreases |ops|
  {
    if ops != [] {
      hide OffsetsOk, Consumed, Drains, Allowed, QueueStep;
      var next := Step(half, r, ops[0]);
      RunsAreFifo(half, next, ops[1..]);
      StepIsFifo(half, r, ops[0]);
    }
  }

  lemma StepIsFifo(half: nat, r: Ring, op: Op)
    requires RingOk(half, r) && Allowed(half, r, op) && Drains(half, r, op)
    ensures var r' := Step(half, r, op); r'.mem[r'.head..r'.tail] == QueueStep(r.mem[r.head..r.tail], op)
  {
  }
}
