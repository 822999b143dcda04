/** lib/cfa/src/pool.c: a free list threaded through the chunks of a buffer, and the chunk
    itself, which src/chat_server.c uses as a client. */
module Pools {
  import opened Basics
  import opened Bits
  import opened Registry

  // One chunk. As a free_node it holds freeNext, which shares its bytes with fd and
  // bufUsed and with nothing else.
  class Client {
    var fd: int
    var bufUsed: int
    const buf: array<char>
    const name: array<char>
    var nameUsed: int
    var nameOk: bool
    var next: Client?
    var freeNext: Client?

    // A chunk of pages fresh from mmap, which are zeroed.
    constructor (bufLen: nat, nameLen: nat)
      ensures fresh(buf) && fresh(name) && buf.Length == bufLen && name.Length == nameLen
      ensures buf != name && next == null && !nameOk
    {
      fd, bufUsed, nameUsed, nameOk := 0, 0, 0, false;
      buf := new char[bufLen](_ => '\0');
      name := new char[nameLen](_ => '\0');
      next, freeNext := null, null;
    }

    // A name that is complete lies within its buffer.
    predicate NameFits()
      reads this`nameOk, this`nameUsed
    {
      nameOk ==> 0 <= nameUsed <= name.Length
    }

    // Links the chunk to another one, through its free_node view.
    method Link(node: Client?)
      modifies this`freeNext, this`fd, this`bufUsed
      ensures freeNext == node
    {
      freeNext := node;
      fd, bufUsed := *, *;
    }
  }

  // The node at place i of a list, null behind its end.
  function At(s: seq<Client>, i: nat): Client? {
    if i < |s| then s[i] else null
  }

  // Starting at head, the links lead through the nodes of s to null.
  ghost predicate FreeChain(head: Client?, s: seq<Client>)
    reads s`freeNext
  {
    head == At(s, 0) && forall i {:trigger s[i].freeNext} :: 0 <= i < |s| ==> s[i].freeNext == At(s, i + 1)
  }

  function Reversed(s: seq<Client>): (r: seq<Client>)
    ensures |r| == |s| && forall i :: 0 <= i < |s| ==> r[i] == s[|s| - 1 - i]
  {
    if s == [] then [] else Reversed(s[1..]) + [s[0]]
  }

  lemma ReversedSnoc(s: seq<Client>, c: Client)
    ensures Reversed(s + [c]) == [c] + Reversed(s)
  {
  }

  lemma PrependChain(c: Client, s: seq<Client>)
    requires FreeChain(c.freeNext, s)
    ensures FreeChain(c, [c] + s)
  {
    var t := [c] + s;
    forall i | 0 <= i < |t|
      ensures t[i].freeNext == At(t, i + 1)
    {
      assert At(t, i + 1) == At(s, i);
      if i > 0 {
        assert t[i] == s[i - 1];
      }
    }
  }

  lemma TailChain(s: seq<Client>)
    requires s != [] && FreeChain(s[0], s)
    ensures FreeChain(s[0].freeNext, s[1..])
  {
    var t := s[1..];
    assert At(t, 0) == At(s, 1);
    forall i | 0 <= i < |t|
      ensures t[i].freeNext == At(t, i + 1)
    {
      assert t[i] == s[i + 1] && At(t, i + 1) == At(s, i + 2);
    }
  }

  // The chunk size rounded up, and the length that is left behind the aligned start.
  datatype Geometry = Geometry(bufLen: nat, chunkSize: nat)

  function GeometryOf(addr: nat, bufLen: nat, chunkSize: nat, align: nat): (g: Geometry)
    requires align > 0 && IsPowerOfTwo(align) && bufLen >= align
    ensures g.chunkSize >= chunkSize && g.chunkSize % align == 0
    ensures g.bufLen <= bufLen
  {
    Geometry(bufLen - (AlignForward(addr, align) - addr), AlignForward(chunkSize, align))
  }

  // The chunks start at the address of the buffer as it was given, not at its aligned
  // start. They lie inside the buffer in any case; they are aligned if and only if the
  // buffer was.
  lemma ChunksAligned(addr: nat, bufLen: nat, chunkSize: nat, align: nat, i: nat)
    requires align > 0 && IsPowerOfTwo(align) && bufLen >= align && chunkSize > 0
    requires var g := GeometryOf(addr, bufLen, chunkSize, align);
      g.chunkSize > 0 && i < g.bufLen / g.chunkSize
    ensures var g := GeometryOf(addr, bufLen, chunkSize, align);
      && (addr + i * g.chunkSize) % align == 0 <==> addr % align == 0
    ensures var g := GeometryOf(addr, bufLen, chunkSize, align);
      i * g.chunkSize + g.chunkSize <= bufLen
  {
    hide IsPowerOfTwo, AlignForward;
    var g := GeometryOf(addr, bufLen, chunkSize, align);
    var c, n := g.chunkSize, g.bufLen;
    hide GeometryOf;
    ChunkInside(n, c, i);
    ChunkAt(addr, align, c, i);
  }

  lemma ChunkAt(addr: nat, a: nat, c: nat, i: nat)
    requires a > 0 && c % a == 0
    ensures (addr + i * c) % a == addr % a
  {
    MultipleOfMultiple(i, c, a);
    AddMultiple(addr, a, i * (c / a));
  }

  lemma MultipleOfMultiple(i: nat, c: nat, a: nat)
    requires a > 0 && c % a == 0
    ensures i * c == a * (i * (c / a))
  {
    assert c == a * (c / a);
    assert i * (a * (c / a)) == a * (i * (c / a));
  }

  lemma AddMultiple(x: nat, a: nat, k: nat)
    requires a > 0
    ensures (x + a * k) % a == x % a
  {
    ModUnique(x + a * k, a, x / a + k, x % a);
  }

  lemma ChunkInside(len: nat, size: nat, i: nat)
    requires size > 0 && i < len / size
    ensures i * size + size <= len
  {
    MulUp(size, i + 1, len / size);
    assert size * (len / size) <= len;
  }

  /** The pool of pool.c. Its buffer is given as the chunks it is cut into. */
  class Pool {
    const bufLen: nat
    const chunkSize: nat
    ghost const chunks: set<Client>
    var head: Client?
    ghost var free: seq<Client>

    ghost predicate Valid()
      reads this`head, this`free, free`freeNext
    {
      FreeChain(head, free) && NoDup(free)
    }

    // pool_init: all chunks are free, the last one first.
    constructor (buf: seq<Client>, addr: nat, len: nat, size: nat, align: nat)
      requires align > 0 && IsPowerOfTwo(align) && size > 0
      requires addr + len < U64
      requires len >= align // the aligned buffer would not hold a chunk otherwise
      requires var g := GeometryOf(addr, len, size, align);
        |buf| == g.bufLen / g.chunkSize && NoDup(buf)
      modifies buf`freeNext, buf`fd, buf`bufUsed
      ensures Valid() && free == Reversed(buf) && chunks == SetOf(buf)
      ensures chunkSize > 0 && bufLen / chunkSize == |buf|
    {
      var g := GeometryOf(addr, len, size, align);
      bufLen, chunkSize := g.bufLen, g.chunkSize;
      chunks := SetOf(buf);
      head := null;
      free := [];
      new;
      FreeAll(buf);
    }

    // pool_free_all
    method FreeAll(buf: seq<Client>)
      requires NoDup(buf) && head == null && free == []
      modifies this, buf`freeNext, buf`fd, buf`bufUsed
      ensures Valid() && free == Reversed(buf)
    {
      var i := 0;
      while i < |buf|
        invariant 0 <= i <= |buf|
        invariant free == Reversed(buf[..i]) && FreeChain(head, free)
        modifies this, buf`freeNext, buf`fd, buf`bufUsed
      {
        var n := buf[i];
        NotYetFreed(buf, i);
        n.Link(head);
        PrependChain(n, free);
        ReversedSnoc(buf[..i], n);
        assert buf[..i + 1] == buf[..i] + [n];
        head := n;
        free := [n] + free;
        i := i + 1;
      }
      assert buf[..i] == buf;
    }

    /** pool_get: the most recently freed chunk, or nothing from an empty list. */
    method Get() returns (n: Client?)
      requires Valid()
      modifies this
      ensures Valid()
      ensures old(free) == [] ==> n == null && free == []
      ensures old(free) != [] ==> n == old(free)[0] && free == old(free)[1..]
    {
      n := head;
      if n == null {
        return;
      }
      TailChain(free);
      head := n.freeNext;
      free := free[1..];
    }

    /** pool_put of any chunk, whose range check is always true. The free list stays one if
        and only if the chunk was not free already, and stays within the pool if and only if
        the chunk is one of its own. */
    method Put(ptr: Client?)
      requires Valid()
      modifies this
      modifies if ptr == null then {} else {ptr}`freeNext
      modifies if ptr == null then {} else {ptr}`fd
      modifies if ptr == null then {} else {ptr}`bufUsed
      ensures free == if ptr == null then old(free) else [ptr] + old(free)
      ensures ptr != null ==> head == ptr && ptr.freeNext == old(head)
      ensures Valid() <==> ptr == null || ptr !in old(free)
      ensures SetOf(old(free)) <= chunks ==> (SetOf(free) <= chunks <==> ptr == null || ptr in chunks)
    {
      if ptr == null {
        return;
      }
      if ptr !in free {
        assert forall c <- free :: c != ptr;
      }
      ptr.Link(head);
      ghost var before := free;
      head := ptr;
      free := [ptr] + free;
      PutKeeps(before, ptr);
    }

    lemma PutKeeps(before: seq<Client>, ptr: Client)
      requires free == [ptr] + before && head == ptr && NoDup(before)
      requires ptr !in before ==> FreeChain(ptr.freeNext, before)
      ensures Valid() <==> ptr !in before
      ensures SetOf(free) == {ptr} + SetOf(before)
    {
      if ptr in before {
        var i :| 0 <= i < |before| && before[i] == ptr;
        assert free[0] == free[i + 1];
      } else {
        PrependChain(ptr, before);
      }
    }
  }

  lemma NotYetFreed(buf: seq<Client>, i: nat)
    requires NoDup(buf) && i < |buf|
    ensures buf[i] !in Reversed(buf[..i])
  {
  }
}
