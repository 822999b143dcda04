/** client_pool of src/chat_server.c: a pool, the list of its live clients, two counters. */
module ClientPools {
  import opened Options
  import opened Sizes
  import opened Bits
  import opened Registry
  import opened Pools
  import Arenas

  const PAGE_SIZE := 4096
  const SIZEOF_CLIENT := 568
  const SIZEOF_CLIENT_POOL := 48
  const POOL_SIZE := SIZEOF_CLIENT * CHUNKS

  // Starting at head, the next fields lead through the clients of s to null.
  ghost predicate LiveChain(head: Client?, s: seq<Client>)
    reads s`next
  {
    head == At(s, 0) && forall i {:trigger s[i].next} :: 0 <= i < |s| ==> s[i].next == At(s, i + 1)
  }

  lemma LivePrepend(c: Client, s: seq<Client>)
    requires LiveChain(c.next, s)
    ensures LiveChain(c, [c] + s)
  {
    var t := [c] + s;
    forall i | 0 <= i < |t|
      ensures t[i].next == At(t, i + 1)
    {
      assert At(t, i + 1) == At(s, i);
      if i > 0 {
        assert t[i] == s[i - 1];
      }
    }
  }

  // Buffers have their sizes, and no two are the same.
  ghost predicate Buffers(cs: set<Client>) {
    && (forall c <- cs :: c.buf.Length == MAX_LINE_LEN && c.name.Length == MAX_NAME_LEN)
    && (forall c, d :: c in cs && d in cs ==> c.buf != d.name && (c != d ==> c.buf != d.buf && c.name != d.name))
  }

  class ClientPool {
    const p: Pool
    var freeCh: int
    var usedCh: int
    var client: Client?

    constructor (pool: Pool, n: nat)
      ensures p == pool && freeCh == n && usedCh == 0 && client == null
    {
      p := pool;
      freeCh, usedCh, client := n, 0, null;
    }

    // The free chunks and the live clients of v are the pool's chunks, and both counters
    // say how many they are.
    ghost predicate Holds(v: PoolView<Client>)
      reads this`freeCh, this`usedCh, this`client, p`head, p`free, v.free`freeNext, v.live`next
    {
      && p.free == v.free && p.Valid() && Elems(v) == p.chunks
      && LiveChain(client, v.live)
      && freeCh == |v.free| && usedCh == |v.live|
      && p.chunkSize > 0 && freeCh + usedCh == p.bufLen / p.chunkSize
    }

    // What session_new does with a pool that has a free chunk: pool_get does not fail.
    method Admit(ghost v: PoolView<Client>) returns (c: Client)
      requires Holds(v) && PoolOk(v) && freeCh > 0
      modifies this, p, v.free`next
      ensures c == v.free[0] && Holds(TakenOut(v))
      ensures forall d <- v.free :: d != c ==> d.next == old(d.next)
    {
      TakeOutOk(v);
      var n := p.Get();
      c := n;
      assert c in v.free && c !in v.live;
      freeCh := freeCh - 1;
      usedCh := usedCh + 1;
      c.next := client;
      client := c;
      LivePrepend(c, v.live);
    }

    // The same for a new pool, where session_new leaves next alone: it is zero already.
    method AdmitFirst(ghost v: PoolView<Client>) returns (c: Client)
      requires Holds(v) && PoolOk(v) && v.live == [] && v.free != []
      requires forall d <- v.free :: d.next == null
      modifies this, p
      ensures c == v.free[0] && Holds(TakenOut(v))
    {
      TakeOutOk(v);
      var n := p.Get();
      c := n;
      assert c in v.free;
      client := c;
      freeCh := freeCh - 1;
      usedCh := usedCh + 1;
      LivePrepend(c, []);
      assert [c] + [] == TakenOut(v).live;
    }

    // The search of session_close through one list. prev stands for the pointer to the
    // pointer that leads to cur; null is the head of the list.
    method Unlink(c: Client, ghost v: PoolView<Client>) returns (found: bool)
      requires Holds(v) && PoolOk(v)
      modifies this`client, v.live`next
      ensures found <==> c in v.live
      ensures !found ==> Holds(v) && client == old(client) && forall d <- v.live :: d.next == old(d.next)
      ensures found ==> LiveChain(client, Without(v.live, c))
    {
      hide Without;
      ListOk(v);
      hide Holds, PoolOk;
      var prev: Client? := null;
      var cur := client;
      ghost var k := 0;
      while cur != null
        invariant 0 <= k <= |v.live| && c !in v.live[..k]
        invariant cur == At(v.live, k)
        invariant prev == if k == 0 then null else v.live[k - 1]
        decreases |v.live| - k
      {
        if cur == c {
          Bypass(prev, cur, v.live, k);
          WithoutAt(v.live, k);
          return true;
        }
        assert v.live[..k + 1] == v.live[..k] + [v.live[k]];
        prev := cur;
        cur := cur.next;
        k := k + 1;
      }
      assert v.live[..k] == v.live;
      return false;
    }

    // The list has lost c already and the counters say so, but c is not free yet.
    ghost predicate Lacks(v: PoolView<Client>, c: Client)
      reads this`freeCh, this`usedCh, this`client, p`head, p`free, v.free`freeNext, Without(v.live, c)`next
    {
      && c in v.live
      && p.free == v.free && p.Valid() && Elems(v) == p.chunks
      && LiveChain(client, Without(v.live, c))
      && freeCh == |v.free| + 1 && usedCh == |v.live| - 1
      && p.chunkSize > 0 && freeCh + usedCh == p.bufLen / p.chunkSize
    }

    // pool_put completes what Unlink began.
    method TakeBack(c: Client, ghost v: PoolView<Client>)
      requires Lacks(v, c) && PoolOk(v)
      modifies p, c`freeNext, c`fd, c`bufUsed
      ensures Holds(PutInto(v, c))
    {
      WithoutFacts(v.live, c);
      PutBackOk(v, c);
      ghost var w := Without(v.live, c);
      assert forall i :: 0 <= i < |w| ==> w[i] in w && w[i] in v.live;
      p.Put(c);
    }

    lemma ListOk(v: PoolView<Client>)
      requires Holds(v) && PoolOk(v)
      ensures LiveChain(client, v.live) && NoDup(v.live)
    {
    }

    // The pointer that led to cur now leads past it.
    method Bypass(prev: Client?, cur: Client, ghost s: seq<Client>, ghost k: nat)
      requires LiveChain(client, s) && NoDup(s) && k < |s| && cur == s[k]
      requires prev == if k == 0 then null else s[k - 1]
      modifies this`client, s`next
      ensures LiveChain(client, s[..k] + s[k + 1..])
    {
      if prev == null {
        client := cur.next;
      } else {
        prev.next := cur.next;
      }
      ghost var t := s[..k] + s[k + 1..];
      assert client == At(t, 0);
      forall i | 0 <= i < |t|
        ensures t[i].next == At(t, i + 1)
      {
        ghost var j := if i < k then i else i + 1;
        assert t[i] == s[j] && old(s[j].next) == At(s, j + 1);
        assert At(t, i + 1) == if i + 1 == k then At(s, k + 1) else At(s, j + 1);
      }
    }
  }

  lemma {:induction false} WithoutAt(s: seq<Client>, k: nat)
    requires k < |s| && s[k] !in s[..k]
    ensures Without(s, s[k]) == s[..k] + s[k + 1..]
  {
    if k > 0 {
      assert s[0] in s[..k];
      assert s[1..][k - 1] == s[k] && s[1..][..k - 1] == s[..k][1..];
      WithoutAt(s[1..], k - 1);
      assert s[..k] + s[k + 1..] == [s[0]] + (s[1..][..k - 1] + s[1..][k..]);
    }
  }

  // The chunks of a freshly mapped, zeroed buffer.
  method NewChunks(n: nat) returns (s: seq<Client>)
    ensures |s| == n && NoDup(s) && Buffers(SetOf(s))
    ensures forall c <- s :: fresh(c) && fresh(c.buf) && fresh(c.name) && c.next == null && !c.nameOk
  {
    s := [];
    while |s| < n
      invariant |s| <= n && NoDup(s) && Buffers(SetOf(s))
      invariant forall c <- s :: fresh(c) && fresh(c.buf) && fresh(c.name) && c.next == null && !c.nameOk
    {
      var c := new Client(MAX_LINE_LEN, MAX_NAME_LEN);
      s := s + [c];
    }
  }

  // What arena_create maps for one client_pool and its buffer.
  const ARENA_SIZE := ((POOL_SIZE + SIZEOF_CLIENT_POOL - 1) / PAGE_SIZE + 1) * PAGE_SIZE

  // An address that mmap can return for it: a page, not at null and not at the end of memory.
  predicate PageAddress(page: nat) {
    0 < page && page % PAGE_SIZE == 0 && page + 2 * ARENA_SIZE < U64
  }

  // In a buffer of whole pages both allocations succeed, and the pool gets the aligned
  // buffer that pool_init relies on, cut into as many chunks as a pool may have clients.
  lemma PageHasRoom(page: nat)
    requires page % PAGE_SIZE == 0
    ensures IsPowerOfTwo(Arenas.DEFAULT_ALIGNMENT)
    ensures Arenas.HandsOut(page, ARENA_SIZE, Arenas.State(0, 0, [], 0), SIZEOF_CLIENT_POOL, Arenas.DEFAULT_ALIGNMENT)
    ensures Arenas.NextOff(page, 0, Arenas.DEFAULT_ALIGNMENT) == 0
    ensures var header := Arenas.State(0, SIZEOF_CLIENT_POOL, [Arenas.Block(0, SIZEOF_CLIENT_POOL, 0)], 1);
      Arenas.HandsOut(page, ARENA_SIZE, header, POOL_SIZE, Arenas.DEFAULT_ALIGNMENT)
    ensures Arenas.NextOff(page, SIZEOF_CLIENT_POOL, Arenas.DEFAULT_ALIGNMENT) == SIZEOF_CLIENT_POOL
    ensures GeometryOf(page + SIZEOF_CLIENT_POOL, POOL_SIZE, SIZEOF_CLIENT, Arenas.DEFAULT_ALIGNMENT)
      == Geometry(POOL_SIZE, SIZEOF_CLIENT)
    ensures POOL_SIZE / SIZEOF_CLIENT == CHUNKS
  {
    EightIsPower();
    ModUnique(page, 8, page / PAGE_SIZE * 512, 0);
    ModUnique(page + SIZEOF_CLIENT_POOL, 8, page / PAGE_SIZE * 512 + 6, 0);
    hide Wrap, IsPowerOfTwo, AlignForward;
    AlignedAlready(page, 8);
    AlignedAlready(page + SIZEOF_CLIENT_POOL, 8);
    AlignedAlready(SIZEOF_CLIENT, 8);
  }

  // The two allocations of session_new_clp, in the page that arena_create maps. Both find
  // room, so neither of its checks for null fires.
  method CarvePage(page: nat) returns (pbuf: nat)
    requires PageAddress(page)
    ensures pbuf == SIZEOF_CLIENT_POOL
  {
    hide Wrap, IsPowerOfTwo, Arenas.HandsOut, Arenas.NextOff, Arenas.Suits, Arenas.InOrder, Arenas.Dated;
    PageHasRoom(page);
    var mem := new char[ARENA_SIZE];
    var a := new Arenas.Arena(mem, page);
    var header := a.AllocAlign(SIZEOF_CLIENT_POOL, Arenas.DEFAULT_ALIGNMENT);
    assert header == Some(0);
    assert a.Now() == Arenas.State(0, SIZEOF_CLIENT_POOL, [Arenas.Block(0, SIZEOF_CLIENT_POOL, 0)], 1);
    var buf := a.AllocAlign(POOL_SIZE, Arenas.DEFAULT_ALIGNMENT);
    assert buf == Some(SIZEOF_CLIENT_POOL);
    pbuf := buf.value;
  }

  /** session_new_clp, up to the point where the pool array gets it; page is the address
      that mmap returns. */
  method NewClientPool(page: nat) returns (clp: ClientPool, ghost v: PoolView<Client>)
    requires PageAddress(page)
    ensures fresh(clp) && fresh(clp.p) && clp.Holds(v)
    ensures v.live == [] && |v.free| == CHUNKS && NoDup(v.free)
    ensures Buffers(SetOf(v.free))
    ensures forall c <- v.free :: fresh(c) && fresh(c.buf) && fresh(c.name) && c.next == null && !c.nameOk
  {
    hide IsPowerOfTwo, GeometryOf, Buffers, NoDup, Reversed, Elems, SetOf, Wrap, Arenas.HandsOut, Arenas.NextOff;
    PageHasRoom(page);
    var pbuf := CarvePage(page);
    var chunks := NewChunks(CHUNKS);
    assert forall i :: 0 <= i < |chunks| ==> chunks[i] in chunks;
    assert forall c <- chunks :: fresh(c);
    assert forall i :: 0 <= i < |chunks| ==> fresh(chunks[i]);
    var pool := new Pool(chunks, page + pbuf, POOL_SIZE, SIZEOF_CLIENT, Arenas.DEFAULT_ALIGNMENT);
    clp := new ClientPool(pool, pool.bufLen / pool.chunkSize);
    v := PoolView(pool.free, []);
    ReversedMembers(chunks);
    AllFree(v);
  }

  lemma AllFree(v: PoolView<Client>)
    requires v.live == []
    ensures Elems(v) == SetOf(v.free)
  {
  }

  lemma {:induction false} ReversedMembers(s: seq<Client>)
    ensures SetOf(Reversed(s)) == SetOf(s)
    ensures NoDup(s) ==> NoDup(Reversed(s))
    ensures forall c <- Reversed(s) :: c in s
  {
    assert forall c <- Reversed(s) :: c in SetOf(Reversed(s));
    if s != [] {
      ReversedMembers(s[1..]);
      SetOfHead(s);
      assert SetOf(Reversed(s)) == SetOf(Reversed(s[1..])) + {s[0]};
    }
  }
}
