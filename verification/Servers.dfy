/** The server of src/chat_server.c: the array of pools, opening and closing sessions, and
    sending to all. */
module Servers {
  import opened Options
  import opened Sizes
  import opened Bits
  import opened Registry
  import opened Pools
  import opened ClientPools
  import opened Memory

  // What the server asks of the kernel, in order.
  datatype Output = Wrote(fd: int, text: seq<char>) | ClosedFd(fd: int)

  // All chunks of all pools.
  ghost function Chunks(view: seq<PoolView<Client>>): set<Client> {
    set i, c | 0 <= i < |view| && c in Elems(view[i]) :: c
  }

  ghost function PoolsOf(cps: seq<ClientPool>): set<Pool> {
    set clp | clp in cps :: clp.p
  }

  lemma InChunks(view: seq<PoolView<Client>>, i: nat)
    requires i < |view|
    ensures forall c <- view[i].free :: c in Chunks(view)
    ensures forall c <- view[i].live :: c in Chunks(view)
  {
    assert forall c <- view[i].free :: c in Elems(view[i]);
    assert forall c <- view[i].live :: c in Elems(view[i]);
  }

  function FdOf(fds: map<Client, int>, c: Client): int {
    if c in fds then fds[c] else -1
  }

  // The same text to each client, in order; fds gives their descriptors.
  function ToAll(s: seq<Client>, fds: map<Client, int>, text: seq<char>): seq<Output> {
    if s == [] then [] else ToAll(s[..|s| - 1], fds, text) + [Wrote(FdOf(fds, s[|s| - 1]), text)]
  }

  // Each client of the list gets the text once, at its place.
  lemma {:induction false} ToAllReaches(s: seq<Client>, fds: map<Client, int>, text: seq<char>)
    ensures |ToAll(s, fds, text)| == |s|
    ensures forall i :: 0 <= i < |s| ==> ToAll(s, fds, text)[i] == Wrote(FdOf(fds, s[i]), text)
  {
    if s != [] {
      ToAllReaches(s[..|s| - 1], fds, text);
    }
  }

  // The list of a pool, with the descriptors that fds gives.
  ghost predicate Linked(clp: ClientPool?, live: seq<Client>, fds: map<Client, int>)
    reads clp, live`next, live`fd
  {
    clp != null && LiveChain(clp.client, live) && forall c <- live :: FdOf(fds, c) == c.fd
  }

  const LEFT_MSG := " has left the chat\n"

  // What session_close tells the others about a client with a name.
  ghost function Farewell(c: Client, others: seq<Client>, fds: map<Client, int>): seq<Output>
    requires c.NameFits()
    reads c`nameOk, c`nameUsed, c.name
  {
    if c.nameOk then ToAll(others, fds, c.name[..c.nameUsed] + LEFT_MSG) else []
  }

  class Server {
    var nPls: int
    const firstClp: array<ClientPool?>
    ghost var cps: seq<ClientPool>
    ghost var view: seq<PoolView<Client>>
    ghost var log: seq<Output>

    // The server starts with one empty pool.
    constructor (page: nat)
      requires PageAddress(page)
      ensures Valid() && Live(view) == [] && |view| == 1 && log == []
      ensures fresh(firstClp) && fresh(SetOf(cps)) && fresh(PoolsOf(cps)) && fresh(Chunks(view))
      ensures forall d <- Chunks(view) :: fresh(d.buf) && fresh(d.name) && !d.nameOk
    {
      hide Ok, Live, Buffers, Elems, NoDup, PoolOk, LiveChain;
      firstClp := new ClientPool?[MAX_POOLS](_ => null);
      nPls := 0;
      cps, view, log := [], [], [];
      new;
      ghost var v;
      var clp: ClientPool;
      clp, v := NewClientPool(page);
      firstClp[0] := clp;
      nPls := 1;
      cps, view := [clp], [v];
      OnePool(v);
      OneOf(clp);
    }

    // The first nPls places of the array hold pools, these hold what view says, and that
    // is in order.
    ghost predicate Valid()
      reads this`nPls, this`cps, this`view, firstClp, cps`freeCh, cps`usedCh, cps`client
      reads PoolsOf(cps)`head, PoolsOf(cps)`free, Chunks(view)`next, Chunks(view)`freeNext
    {
      && firstClp.Length == MAX_POOLS
      && nPls == |cps| == |view| && Ok(view)
      && (forall i :: 0 <= i < |cps| ==> firstClp[i] == cps[i])
      && (forall i :: 0 <= i < |cps| ==> (InChunks(view, i); cps[i].Holds(view[i])))
      && (forall i, j :: 0 <= i < j < |cps| ==> cps[i] != cps[j] && cps[i].p != cps[j].p)
      && Buffers(Chunks(view))
    }

    // The same, except for what the pool at the place hole holds.
    ghost predicate ValidBut(hole: int)
      reads this`nPls, this`cps, this`view, firstClp, cps`freeCh, cps`usedCh, cps`client
      reads PoolsOf(cps)`head, PoolsOf(cps)`free, Chunks(view)`next, Chunks(view)`freeNext
    {
      && firstClp.Length == MAX_POOLS
      && nPls == |cps| == |view| && Ok(view)
      && (forall i :: 0 <= i < |cps| ==> firstClp[i] == cps[i])
      && (forall i :: 0 <= i < |cps| && i != hole ==> (InChunks(view, i); cps[i].Holds(view[i])))
      && (forall i, j :: 0 <= i < j < |cps| ==> cps[i] != cps[j] && cps[i].p != cps[j].p)
      && Buffers(Chunks(view))
    }

    // The descriptors of all chunks.
    ghost function Fds(): map<Client, int>
      reads this`view, Chunks(view)`fd
    {
      map c | c in Chunks(view) :: c.fd
    }

    /** session_send_all: every live client but except gets the text once, in list order. */
    method SendAll(text: seq<char>, except: Client)
      requires Valid()
      modifies this`log
      ensures log == old(log) + old(ToAll(Without(Live(view), except), Fds(), text))
    {
      ArrayFits();
      hide Ok, Live, Without, ToAll, ToOthers, Buffers;
      OkLiveNoDup(view);
      OthersIsWithout(Live(view), Fds(), except, text);
      ListsLinked();
      ghost var all := SendPools(text, except, view, Fds());
    }

    lemma ListsLinked()
      requires Valid()
      ensures 1 <= nPls == |view| == |cps| <= firstClp.Length
      ensures forall i :: 0 <= i < nPls ==> Linked(firstClp[i], view[i].live, Fds())
    {
      forall i | 0 <= i < nPls
        ensures Linked(firstClp[i], view[i].live, Fds())
      {
        PoolAt(i);
        FdsAt(i);
      }
    }

    // The outer loop.
    method SendPools(text: seq<char>, except: Client, ghost v: seq<PoolView<Client>>, ghost fds: map<Client, int>)
      returns (ghost all: seq<Output>)
      requires 0 <= nPls == |v| <= firstClp.Length
      requires forall i :: 0 <= i < nPls ==> Linked(firstClp[i], v[i].live, fds)
      modifies this`log
      ensures all == ToOthers(Live(v), fds, except, text)
      ensures log == old(log) + all
    {
      hide Live, ToOthers;
      all := [];
      var i := 0;
      SendNothing(fds, except, text);
      while i < nPls
        invariant 0 <= i <= nPls
        invariant all == ToOthers(Live(v[..i]), fds, except, text)
        invariant log == old(log) + all
      {
        ghost var sent := SendList(firstClp[i].client, v[i].live, Live(v[..i]), fds, except, text);
        LiveSnoc(v, i);
        all := all + sent;
        i := i + 1;
      }
      assert v[..i] == v;
    }

    // session_new in a pool with a free chunk.
    method Reuse(i: int) returns (c: Client)
      requires Valid() && 0 <= i < nPls && view[i].free != []
      modifies this`view, cps[i], cps[i].p, view[i].free`next
      ensures Valid() && cps == old(cps)
      ensures c == old(view)[i].free[0] && view == old(view)[i := TakenOut(old(view)[i])]
      ensures Chunks(view) == old(Chunks(view))
    {
      hide Ok, Buffers, Elems, PoolOk, NoDup, Chunks;
      PoolAt(i);
      ArrayFits();
      ByOk(view, i);
      ReuseKeepsOk(view, i);
      ghost var v := view[i];
      c := firstClp[i].Admit(v);
      forall j | 0 <= j < nPls && j != i
        ensures cps[j].Holds(view[j])
      {
        PoolsApart(view, j, i);
        assert forall k :: 0 <= k < |view[j].live| ==> view[j].live[k] !in v.free;
      }
      view := view[i := TakenOut(v)];
    }

    // session_new when every pool is full and there may be one more.
    method AddPool(page: nat) returns (c: Client, ghost free: seq<Client>, ghost added: ClientPool)
      requires Valid() && nPls < MAX_POOLS && forall i :: 0 <= i < |view| ==> view[i].free == []
      requires PageAddress(page)
      modifies this`nPls, this`cps, this`view, firstClp
      ensures Valid() && |free| == CHUNKS && FreshPage(old(view), free)
      ensures c == free[0] && view == old(view) + [PoolView(free[1..], [free[0]])]
      ensures Chunks(view) == old(Chunks(view)) + SetOf(free)
      ensures fresh(added) && fresh(added.p)
      ensures SetOf(cps) == old(SetOf(cps)) + {added} && PoolsOf(cps) == old(PoolsOf(cps)) + {added.p}
      ensures forall d <- free :: fresh(d) && fresh(d.buf) && fresh(d.name) && !d.nameOk
    {
      hide Ok, Buffers, FreshPage, PoolOk, NoDup, Elems, SetOf, TakenOut;
      ArrayFits();
      ghost var v;
      var clp: ClientPool;
      clp, v := NewClientPool(page);
      free, added := v.free, clp;
      NewPage(free);
      NewPoolOk(v);
      TakenOutOfNew(v);
      c := Install(clp, v);
      AppendKeepsOk(old(view), free);
      ChunksSnoc(old(view), TakenOut(v));
      TakeOutOk(v);
      AllFree(v);
    }

    // The new pool enters the array and gives up its first chunk.
    method Install(clp0: ClientPool, ghost v: PoolView<Client>) returns (c: Client)
      requires Valid() && nPls < MAX_POOLS
      requires forall j :: 0 <= j < |cps| ==> cps[j] != clp0 && cps[j].p != clp0.p
      requires clp0.Holds(v) && PoolOk(v) && v.live == [] && v.free != [] && forall d <- v.free :: d.next == null
      modifies this`nPls, this`cps, this`view, firstClp, clp0, clp0.p
      ensures cps == old(cps) + [clp0] && view == old(view) + [TakenOut(v)] && c == v.free[0]
      ensures Ok(view) && Buffers(Chunks(view)) ==> Valid()
      ensures SetOf(cps) == old(SetOf(cps)) + {clp0} && PoolsOf(cps) == old(PoolsOf(cps)) + {clp0.p}
    {
      hide Ok, Buffers, PoolOk, NoDup, Elems, SetOf, TakenOut;
      ArrayFits();
      firstClp[nPls] := clp0;
      nPls := nPls + 1;
      var clp := firstClp[nPls - 1];
      c := clp.AdmitFirst(v);
      Append(clp, TakenOut(v));
    }

    // Takes note of a pool that stands in the array already.
    ghost method Append(clp: ClientPool, v: PoolView<Client>)
      requires |cps| == |view| == nPls - 1 < firstClp.Length == MAX_POOLS && firstClp[nPls - 1] == clp
      requires clp.Holds(v)
      requires forall j :: 0 <= j < |cps| ==>
        firstClp[j] == cps[j] && cps[j].Holds(view[j]) && cps[j] != clp && cps[j].p != clp.p
      requires forall i, j :: 0 <= i < j < |cps| ==> cps[i] != cps[j] && cps[i].p != cps[j].p
      modifies this`cps, this`view
      ensures cps == old(cps) + [clp] && view == old(view) + [v]
      ensures Ok(view) && Buffers(Chunks(view)) ==> Valid()
      ensures SetOf(cps) == old(SetOf(cps)) + {clp} && PoolsOf(cps) == old(PoolsOf(cps)) + {clp.p}
    {
      hide Ok, Buffers, Elems, SetOf;
      SetsSnoc(cps, clp);
      cps := cps + [clp];
      view := view + [v];
    }

    // Chunks that did not exist before are not in use, nor are their buffers.
    twostate lemma NewPage(new free: seq<Client>)
      requires old(Valid()) && forall c <- free :: fresh(c) && fresh(c.buf) && fresh(c.name)
      requires NoDup(free) && |free| == CHUNKS && Buffers(SetOf(free))
      ensures FreshPage(old(view), free)
      ensures Buffers(old(Chunks(view)) + SetOf(free))
    {
      forall c, d | c in old(Chunks(view)) && d in free
        ensures c != d && c.buf != d.buf && c.name != d.name && c.buf != d.name && c.name != d.buf
      {
        var i :| 0 <= i < |old(view)| && c in Elems(old(view)[i]);
        assert old(allocated(c)) && old(allocated(c.buf)) && old(allocated(c.name));
      }
      BuffersUnion(old(Chunks(view)), SetOf(free));
    }

    /** session_new. free are the chunks of the pool that it creates, if it does. */
    method SessionNew(page: nat) returns (c: Client?, ghost free: seq<Client>)
      requires Valid()
      requires PageAddress(page)
      modifies this`nPls, this`cps, this`view, firstClp, cps, PoolsOf(cps), Chunks(view)`next
      ensures Valid() && PageIfNeeded(old(view), free)
      ensures view == Opened(old(view), free).0
      ensures c == match Opened(old(view), free).1 { case None => null case Some(d) => d }
      ensures fresh(SetOf(cps) - old(SetOf(cps))) && fresh(PoolsOf(cps) - old(PoolsOf(cps)))
      ensures fresh(Chunks(view) - old(Chunks(view)))
      ensures forall d <- Chunks(view) - old(Chunks(view)) :: fresh(d.buf) && fresh(d.name) && !d.nameOk
    {
      hide Ok, Buffers, Elems, NoDup;
      ArrayFits();
      var i := 0;
      while i < nPls
        invariant 0 <= i <= nPls && forall j :: 0 <= j < i ==> view[j].free == []
      {
        assert cps[i].Holds(view[i]);
        var clp := firstClp[i];
        if clp.freeCh > 0 {
          FirstIs(view, i);
          InChunks(view, i);
          assert cps[i] in cps && cps[i].p in PoolsOf(cps);
          c := Reuse(i);
          return c, [];
        }
        i := i + 1;
      }
      FirstIs(view, nPls);
      if nPls == MAX_POOLS {
        return null, [];
      }
      ghost var added;
      c, free, added := AddPool(page);
    }

    // session_close looks through the list of the pool at i and counts what it finds.
    method UnlinkAt(i: int, c: Client) returns (found: bool)
      requires Valid() && 0 <= i < nPls
      modifies cps[i], view[i].live`next
      ensures ValidBut(i)
      ensures found <==> c in view[i].live
      ensures !found ==> Valid()
      ensures found ==> cps[i].Lacks(view[i], c)
    {
      hide Ok, Buffers, Elems;
      PoolAt(i);
      ArrayFits();
      ByOk(view, i);
      var clp := firstClp[i];
      found := clp.Unlink(c, view[i]);
      if found {
        clp.freeCh := clp.freeCh + 1;
        clp.usedCh := clp.usedCh - 1;
      }
      forall j | 0 <= j < nPls && j != i
        ensures cps[j].Holds(view[j])
      {
        PoolsApart(view, j, i);
        assert forall k :: 0 <= k < |view[j].live| ==> view[j].live[k] !in view[i].live;
      }
    }

    // The pool behind place j.
    ghost function Later(j: int): ClientPool
      requires 0 <= j < |cps| - 1
      reads this`cps
    {
      cps[j + 1]
    }

    // The loop of session_close that moves the pools behind place i0 up.
    method ShiftPools(i0: int)
      requires 0 <= i0 <= nPls == |cps| - 1 < firstClp.Length
      requires forall j :: 0 <= j <= nPls ==> firstClp[j] == cps[j]
      modifies firstClp
      ensures forall j :: 0 <= j < i0 ==> firstClp[j] == cps[j]
      ensures forall j :: i0 <= j < nPls ==> firstClp[j] == Later(j)
      ensures firstClp[nPls] == null
    {
      var i := i0;
      while i < nPls
        invariant i0 <= i <= nPls
        invariant forall j :: i0 <= j < i ==> firstClp[j] == Later(j)
        invariant forall j :: 0 <= j < i0 || i <= j <= nPls ==> firstClp[j] == cps[j]
      {
        firstClp[i] := firstClp[i + 1];
        i := i + 1;
      }
      firstClp[i] := null;
    }

    /** The pools behind the one that goes move up by one place. */
    method DropPool(i0: int)
      requires ValidBut(i0) && 0 <= i0 < nPls && nPls > 1
      modifies this`nPls, this`cps, this`view, firstClp
      ensures Valid()
      ensures view == old(view[..i0] + view[i0 + 1..]) && cps == old(cps[..i0] + cps[i0 + 1..])
    {
      hide Ok, Buffers, Elems, NoDup;
      ArrayFitsBut(i0);
      nPls := nPls - 1;
      ShiftPools(i0);
      RemoveKeepsOk(view, i0);
      ChunksRemove(view, i0);
      BuffersOfSome(Chunks(view[..i0] + view[i0 + 1..]), Chunks(view));
      Forget(i0);
    }

    /** session_close of a live client: the others are told, its descriptor is closed, and
        it is taken out of its pool, which is dropped if it was the last one in it. */
    method SessionClose(c: Client)
      requires Valid() && c in Live(view)
      requires c.NameFits()
      modifies this, firstClp, cps, PoolsOf(cps), Chunks(view)`next, c`freeNext, c`fd, c`bufUsed
      ensures Valid() && view == Closed(old(view), c)
      ensures log == old(log) + old(Farewell(c, Without(Live(view), c), Fds())) + [ClosedFd(old(c.fd))]
      ensures SetOf(cps) <= old(SetOf(cps)) && PoolsOf(cps) <= old(PoolsOf(cps))
      ensures Chunks(view) <= old(Chunks(view))
    {
      hide Ok, Buffers, Closed, Live, Without, ToAll;
      SayGoodbye(c);
      Release(c);
    }

    // The first part of session_close.
    method SayGoodbye(c: Client)
      requires Valid() && c in Live(view)
      requires c.NameFits()
      modifies this`log
      ensures log == old(log) + old(Farewell(c, Without(Live(view), c), Fds())) + [ClosedFd(c.fd)]
    {
      hide Ok, Buffers, Live, Without, ToAll, Fds;
      ChunkOf(c);
      if c.nameOk {
        var msg := ComposeTwo(MAX_LINE_LEN + |LEFT_MSG| + 1, c.name[..c.nameUsed], LEFT_MSG);
        FdsSame();
        SendAll(msg, c);
      }
      log := log + [ClosedFd(c.fd)];
    }

    // The loops of session_close.
    method Release(c: Client)
      requires Valid() && c in Live(view)
      modifies this`nPls, this`cps, this`view, firstClp, cps, PoolsOf(cps), Chunks(view)`next
      modifies c`freeNext, c`fd, c`bufUsed
      ensures Valid() && view == Closed(old(view), c)
      ensures SetOf(cps) <= old(SetOf(cps)) && PoolsOf(cps) <= old(PoolsOf(cps))
      ensures Chunks(view) <= old(Chunks(view))
    {
      hide Ok, Buffers, Elems, Closed, Live;
      ArrayFits();
      var i := 0;
      while i < nPls
        invariant 0 <= i <= nPls <= firstClp.Length && Valid()
        invariant view == old(view) && cps == old(cps)
        invariant forall j :: 0 <= j < i ==> c !in view[j].live
      {
        InChunks(view, i);
        assert cps[i] in cps && cps[i].p in PoolsOf(cps);
        var found := UnlinkAt(i, c);
        if found {
          FirstLiveIs(view, i, c);
          Settle(i, c);
          return;
        }
        i := i + 1;
      }
      LiveMembers(view, c);
    }

    // The end of session_close: a pool without clients is dropped unless it is the only
    // one; any other gets its chunk back.
    method Settle(i: int, c: Client)
      requires ValidBut(i) && 0 <= i < nPls && cps[i].Lacks(view[i], c)
      modifies this`nPls, this`cps, this`view, firstClp, cps[i].p, c`freeNext, c`fd, c`bufUsed
      ensures Valid()
      ensures FirstWithLive(old(view), c) == i ==> view == Closed(old(view), c)
      ensures SetOf(cps) <= old(SetOf(cps)) && PoolsOf(cps) <= old(PoolsOf(cps))
      ensures Chunks(view) <= old(Chunks(view))
    {
      ByOk(view, i);
      WithoutFacts(view[i].live, c);
      if nPls > 1 && firstClp[i].usedCh == 0 {
        ChunksRemove(view, i);
        SubsetsRemove(cps, i);
        DropPool(i);
      } else {
        PutBack(i, c);
      }
    }

    lemma ChunkOf(c: Client)
      requires Valid() && c in Live(view)
      ensures c in Chunks(view) && c.buf.Length == MAX_LINE_LEN && c.name.Length == MAX_NAME_LEN && c.buf != c.name
    {
      LiveMembers(view, c);
      var i :| 0 <= i < |view| && c in view[i].live;
      InChunks(view, i);
    }

    // Takes note of a pool that is gone from the array.
    ghost method Forget(i0: int)
      requires 0 <= i0 < |cps| == |view| == nPls + 1 <= firstClp.Length == MAX_POOLS
      requires forall j :: 0 <= j < i0 ==> firstClp[j] == cps[j]
      requires forall j :: i0 <= j < nPls ==> firstClp[j] == Later(j)
      requires forall j :: 0 <= j < |cps| && j != i0 ==> cps[j].Holds(view[j])
      requires forall i, j :: 0 <= i < j < |cps| ==> cps[i] != cps[j] && cps[i].p != cps[j].p
      requires Ok(view[..i0] + view[i0 + 1..]) && Buffers(Chunks(view[..i0] + view[i0 + 1..]))
      modifies this`cps, this`view
      ensures view == old(view[..i0] + view[i0 + 1..]) && cps == old(cps[..i0] + cps[i0 + 1..])
      ensures Valid()
    {
      hide Ok, Buffers;
      assert forall j :: i0 <= j < nPls ==> firstClp[j] == cps[j + 1] by {
        assert forall j :: i0 <= j < nPls ==> firstClp[j] == Later(j);
      }
      cps := cps[..i0] + cps[i0 + 1..];
      view := view[..i0] + view[i0 + 1..];
      forall j | 0 <= j < nPls
        ensures firstClp[j] == cps[j] && cps[j].Holds(view[j])
      {
        ghost var k := if j < i0 then j else j + 1;
        assert cps[j] == old(cps)[k] && view[j] == old(view)[k];
      }
    }

    // pool_put of the client that has been taken off the list of the pool at i.
    method PutBack(i: int, c: Client)
      requires ValidBut(i) && 0 <= i < nPls && cps[i].Lacks(view[i], c)
      requires nPls > 1 ==> cps[i].usedCh != 0
      modifies this`view, cps[i].p, c`freeNext, c`fd, c`bufUsed
      ensures Valid() && cps == old(cps) && Chunks(view) == old(Chunks(view))
      ensures view == old(view[i := PutInto(view[i], c)])
    {
      ghost var v := view[i];
      ByOk(view, i);
      PutBackKeepsOk(view, i, c);
      firstClp[i].TakeBack(c, v);
      hide Ok, Buffers, Elems, PoolOk;
      forall j | 0 <= j < nPls && j != i
        ensures cps[j].Holds(view[j])
      {
        PoolsApart(view, i, j);
      }
      view := view[i := PutInto(v, c)];
    }

    // Allocating memory and writing elsewhere leaves the descriptors alone.
    twostate lemma FdsSame()
      requires view == old(view)
      requires forall c: Client | old(allocated(c)) :: c.fd == old(c.fd)
      ensures Fds() == old(Fds())
    {
      forall c | c in Chunks(view)
        ensures old(allocated(c))
      {
        var i :| 0 <= i < |view| && c in Elems(old(view)[i]);
      }
    }

    // Allocating memory leaves the server alone.
    twostate lemma Undisturbed()
      requires old(Valid()) && unchanged(this) && unchanged(firstClp)
      requires forall p: ClientPool | old(allocated(p)) ::
        p.freeCh == old(p.freeCh) && p.usedCh == old(p.usedCh) && p.client == old(p.client)
      requires forall p: Pool | old(allocated(p)) :: p.head == old(p.head) && p.free == old(p.free)
      requires forall c: Client | old(allocated(c)) ::
        c.fd == old(c.fd) && c.next == old(c.next) && c.freeNext == old(c.freeNext)
      ensures Valid() && Fds() == old(Fds())
    {
      FdsSame();
    }

    // Buffers have their sizes, and none of another chunk is one of c's.
    lemma OwnBuffers(c: Client)
      requires Valid() && c in Chunks(view)
      ensures c.buf.Length == MAX_LINE_LEN && c.name.Length == MAX_NAME_LEN && c.buf != c.name
      ensures forall d <- Chunks(view) ::
        d != c ==> d.name != c.name && d.name != c.buf && d.buf != c.buf && d.buf != c.name
    {
    }

    lemma BufferSizes()
      requires Valid()
      ensures forall d <- Chunks(view) :: d.buf.Length == MAX_LINE_LEN && d.name.Length == MAX_NAME_LEN
    {
    }

    // Chunks are objects of their time.
    twostate lemma ChunksAllocated()
      ensures forall d <- Chunks(old(view)) :: old(allocated(d))
    {
      forall d | d in Chunks(old(view))
        ensures old(allocated(d))
      {
        var i :| 0 <= i < |old(view)| && d in Elems(old(view)[i]);
      }
    }

    // Live clients are objects of their time.
    twostate lemma LiveAllocated()
      ensures forall d <- Live(old(view)) :: old(allocated(d))
    {
      forall d | d in Live(old(view))
        ensures old(allocated(d))
      {
        LiveMembers(old(view), d);
        var i :| 0 <= i < |old(view)| && d in old(view)[i].live;
      }
    }

    lemma FdsAt(i: int)
      requires 0 <= i < |view|
      ensures forall c <- view[i].live :: FdOf(Fds(), c) == c.fd
    {
      InChunks(view, i);
    }

    // The inner loop: one list, after the clients in done.
    method SendList(head: Client?, ghost live: seq<Client>, ghost done: seq<Client>, ghost fds: map<Client, int>,
                    except: Client, text: seq<char>)
      returns (ghost sent: seq<Output>)
      requires LiveChain(head, live)
      requires forall c <- live :: FdOf(fds, c) == c.fd
      modifies this`log
      ensures log == old(log) + sent
      ensures ToOthers(done + live, fds, except, text) == ToOthers(done, fds, except, text) + sent
    {
      sent := [];
      ghost var k := 0;
      var c := head;
      assert done + live[..k] == done;
      while c != null
        invariant 0 <= k <= |live| && c == At(live, k)
        invariant log == old(log) + sent
        invariant ToOthers(done + live[..k], fds, except, text) == ToOthers(done, fds, except, text) + sent
        decreases |live| - k
      {
        OthersSnoc(done + live[..k], c, fds, except, text);
        assert done + live[..k + 1] == done + live[..k] + [c];
        if except != c {
          log := log + [Wrote(c.fd, text)];
          sent := sent + [Wrote(c.fd, text)];
        }
        c := c.next;
        k := k + 1;
      }
      assert live[..k] == live;
    }

    lemma ArrayFits()
      requires Valid()
      ensures 1 <= nPls == |cps| == |view| <= firstClp.Length == MAX_POOLS && Ok(view)
    {
    }

    lemma ArrayFitsBut(hole: int)
      requires ValidBut(hole)
      ensures 1 <= nPls == |cps| == |view| <= firstClp.Length == MAX_POOLS && Ok(view)
    {
    }

    // What the array holds at place i.
    lemma PoolAt(i: int)
      requires Valid() && 0 <= i < nPls
      ensures nPls == |cps| == |view| <= firstClp.Length
      ensures firstClp[i] == cps[i] && cps[i].Holds(view[i]) && LiveChain(cps[i].client, view[i].live)
    {
    }
  }

  lemma SetsSnoc(cps: seq<ClientPool>, clp: ClientPool)
    ensures SetOf(cps + [clp]) == SetOf(cps) + {clp} && PoolsOf(cps + [clp]) == PoolsOf(cps) + {clp.p}
  {
    var cps' := cps + [clp];
    assert clp in cps';
    assert forall x <- cps' :: x in cps || x == clp;
    assert forall x <- cps :: x in cps';
  }

  lemma ChunksSnoc(view: seq<PoolView<Client>>, p: PoolView<Client>)
    ensures Chunks(view + [p]) == Chunks(view) + Elems(p)
  {
    var view' := view + [p];
    assert view'[|view|] == p;
    assert forall j :: 0 <= j < |view| ==> view'[j] == view[j];
    assert forall c <- Elems(p) :: c in Elems(view'[|view|]);
    assert forall i, c :: 0 <= i < |view| && c in Elems(view[i]) ==> c in Elems(view'[i]);
  }

  lemma FirstIs(view: seq<PoolView<Client>>, i: nat)
    requires i <= |view| && (forall j :: 0 <= j < i ==> view[j].free == [])
    requires i < |view| ==> view[i].free != []
    ensures FirstWithFree(view) == i
  {
  }

  lemma SubsetsRemove(cps: seq<ClientPool>, i: int)
    requires 0 <= i < |cps|
    ensures SetOf(cps[..i] + cps[i + 1..]) <= SetOf(cps)
    ensures PoolsOf(cps[..i] + cps[i + 1..]) <= PoolsOf(cps)
  {
    var cps' := cps[..i] + cps[i + 1..];
    assert forall x <- cps' :: x in cps;
  }

  lemma OnePool(v: PoolView<Client>)
    requires v.live == [] && |v.free| == CHUNKS && NoDup(v.free) && Buffers(SetOf(v.free))
    ensures Ok([v]) && Chunks([v]) == SetOf(v.free) && Buffers(Chunks([v]))
    ensures Live([v]) == []
  {
    NewPoolOk(v);
    AllFree(v);
    assert [v][0] == v;
    assert Live([v]) == [] + Live([]);
  }

  lemma OneOf(clp: ClientPool)
    ensures SetOf([clp]) == {clp} && PoolsOf([clp]) == {clp.p}
  {
    assert clp in [clp];
  }

  lemma NewPoolOk(v: PoolView<Client>)
    requires v.live == [] && |v.free| == CHUNKS && NoDup(v.free)
    ensures PoolOk(v)
  {
  }

  lemma TakenOutOfNew(v: PoolView<Client>)
    requires v.live == [] && v.free != []
    ensures TakenOut(v) == PoolView(v.free[1..], [v.free[0]])
  {
  }

  lemma BuffersOfSome(a: set<Client>, b: set<Client>)
    requires Buffers(b) && a <= b
    ensures Buffers(a)
  {
  }

  lemma BuffersUnion(a: set<Client>, b: set<Client>)
    requires Buffers(a) && Buffers(b)
    requires forall c, d :: c in a && d in b ==>
      c != d && c.buf != d.buf && c.name != d.name && c.buf != d.name && c.name != d.buf
    ensures Buffers(a + b)
  {
  }

  lemma ChunksRemove(view: seq<PoolView<Client>>, i: int)
    requires 0 <= i < |view|
    ensures Chunks(view[..i] + view[i + 1..]) <= Chunks(view)
  {
    var view' := view[..i] + view[i + 1..];
    assert forall j :: 0 <= j < |view'| ==> view'[j] == view[if j < i then j else j + 1];
  }

  lemma PoolsApart(view: seq<PoolView<Client>>, i: int, j: int)
    requires Ok(view) && 0 <= i < |view| && 0 <= j < |view| && i != j
    ensures forall c <- view[i].free :: c !in view[j].free && c !in view[j].live
    ensures forall c <- view[i].live :: c !in view[j].free && c !in view[j].live
  {
    assert Elems(view[i]) !! Elems(view[j]);
    assert forall c <- view[i].free :: c in Elems(view[i]);
    assert forall c <- view[i].live :: c in Elems(view[i]);
    assert forall c <- view[j].free :: c in Elems(view[j]);
    assert forall c <- view[j].live :: c in Elems(view[j]);
  }

  lemma ReuseKeepsOk(view: seq<PoolView<Client>>, i: int)
    requires Ok(view) && 0 <= i < |view| && view[i].free != []
    ensures Ok(view[i := TakenOut(view[i])])
    ensures Chunks(view[i := TakenOut(view[i])]) == Chunks(view)
  {
    TakeOutOk(view[i]);
    UpdateKeepsOk(view, i, TakenOut(view[i]));
    SameChunks(view, i, TakenOut(view[i]));
  }

  lemma PutBackKeepsOk(view: seq<PoolView<Client>>, i: int, c: Client)
    requires Ok(view) && 0 <= i < |view| && c in view[i].live
    requires |view| > 1 ==> |view[i].live| > 1
    ensures Ok(view[i := PutInto(view[i], c)])
    ensures Chunks(view[i := PutInto(view[i], c)]) == Chunks(view)
  {
    WithoutFacts(view[i].live, c);
    PutBackOk(view[i], c);
    UpdateKeepsOk(view, i, PutInto(view[i], c));
    SameChunks(view, i, PutInto(view[i], c));
  }

  lemma SameChunks(view: seq<PoolView<Client>>, i: int, p: PoolView<Client>)
    requires 0 <= i < |view| && Elems(p) == Elems(view[i])
    ensures Chunks(view[i := p]) == Chunks(view)
  {
    var view' := view[i := p];
    assert forall j :: 0 <= j < |view| ==> Elems(view'[j]) == Elems(view[j]);
  }

  // A message for everyone but one reaches each of the others exactly once, and the one
  // not at all.
  lemma EveryoneElseOnce(view: seq<PoolView<Client>>, except: Client, fds: map<Client, int>, text: seq<char>)
    requires Ok(view)
    ensures var others := Without(Live(view), except);
      && NoDup(others) && SetOf(others) == SetOf(Live(view)) - {except}
      && |ToAll(others, fds, text)| == |others|
      && forall i :: 0 <= i < |others| ==> ToAll(others, fds, text)[i] == Wrote(FdOf(fds, others[i]), text)
  {
    OkLiveNoDup(view);
    WithoutFacts(Live(view), except);
    ToAllReaches(Without(Live(view), except), fds, text);
  }

  // What a list of clients is sent, except being passed over.
  function ToOthers(s: seq<Client>, fds: map<Client, int>, except: Client, text: seq<char>): seq<Output> {
    if s == [] then []
    else
      var n := |s| - 1;
      ToOthers(s[..n], fds, except, text) + if s[n] == except then [] else [Wrote(FdOf(fds, s[n]), text)]
  }

  lemma SendNothing(fds: map<Client, int>, except: Client, text: seq<char>)
    ensures ToOthers(Live([]), fds, except, text) == []
  {
  }

  lemma LiveSnoc(view: seq<PoolView<Client>>, i: nat)
    requires i < |view|
    ensures Live(view[..i + 1]) == Live(view[..i]) + view[i].live
  {
    LiveConcat(view[..i], [view[i]]);
    assert view[..i + 1] == view[..i] + [view[i]];
    assert Live([view[i]]) == view[i].live + [];
  }

  lemma OthersSnoc(s: seq<Client>, c: Client, fds: map<Client, int>, except: Client, text: seq<char>)
    ensures ToOthers(s + [c], fds, except, text)
         == ToOthers(s, fds, except, text) + if c == except then [] else [Wrote(FdOf(fds, c), text)]
  {
    assert (s + [c])[..|s|] == s;
  }

  // In a list without repetition all others are the list without the one.
  lemma {:induction false} OthersIsWithout(s: seq<Client>, fds: map<Client, int>, c: Client, text: seq<char>)
    requires NoDup(s)
    ensures ToOthers(s, fds, c, text) == ToAll(Without(s, c), fds, text)
  {
    if s != [] {
      var n := |s| - 1;
      OthersIsWithout(s[..n], fds, c, text);
      WithoutLast(s, c);
      var w := Without(s[..n], c);
      assert w + [] == w && (w + [s[n]])[..|w|] == w;
    }
  }

  lemma WithoutLast(s: seq<Client>, c: Client)
    requires NoDup(s) && s != []
    ensures var n := |s| - 1;
      Without(s, c) == Without(s[..n], c) + if s[n] == c then [] else [s[n]]
  {
    hide Without;
    var n := |s| - 1;
    var init, last := s[..n], s[n];
    WithoutConcat(init, [last], c);
    assert init + [last] == s;
    WithoutOnly(last, c);
    if c in init {
      assert last != c;
    } else {
      WithoutAbsent(init, c);
    }
  }

  lemma WithoutOnly(d: Client, c: Client)
    ensures Without([d], c) == if d == c then [] else [d]
  {
    assert [d][1..] == [];
    assert [d] + [] == [d];
  }
}
