/** What session_new and session_close of src/chat_server.c do to the pools, on values: for
    each pool its free chunks and its live clients, both in list order. */
module Registry {
  import opened Basics
  import opened Options
  import opened Sizes

  datatype PoolView<T> = PoolView(free: seq<T>, live: seq<T>)

  ghost predicate NoDup<T>(s: seq<T>) {
    forall i, j :: 0 <= i < j < |s| ==> s[i] != s[j]
  }

  // A chunk is either free or live, once.
  ghost predicate PoolOk<T>(p: PoolView<T>) {
    && NoDup(p.free) && NoDup(p.live)
    && (forall c <- p.free :: c !in p.live)
    && |p.free| + |p.live| == CHUNKS
  }

  ghost function SetOf<T>(s: seq<T>): set<T> {
    set c | c in s
  }

  ghost function Elems<T>(p: PoolView<T>): set<T> {
    SetOf(p.free) + SetOf(p.live)
  }

  // What holds of the pools at every moment: there is at least one, and when there are
  // more, none is empty.
  ghost predicate Ok<T>(s: seq<PoolView<T>>) {
    && 1 <= |s| <= MAX_POOLS
    && (forall i :: 0 <= i < |s| ==> PoolOk(s[i]))
    && Separate(s)
    && (|s| > 1 ==> forall i :: 0 <= i < |s| ==> s[i].live != [])
  }

  ghost predicate Separate<T>(s: seq<PoolView<T>>) {
    forall i, j, c :: 0 <= i < |s| && 0 <= j < |s| && c in Elems(s[i]) && c in Elems(s[j]) ==> i == j
  }

  ghost predicate Knows<T>(s: seq<PoolView<T>>, c: T) {
    exists i :: 0 <= i < |s| && c in Elems(s[i])
  }

  // All live clients, in the order in which a message is sent to them.
  function Live<T>(s: seq<PoolView<T>>): seq<T> {
    if s == [] then [] else s[0].live + Live(s[1..])
  }

  function FirstWithFree<T>(s: seq<PoolView<T>>): (i: nat)
    ensures i <= |s|
    ensures i < |s| ==> s[i].free != []
    ensures forall j :: 0 <= j < i ==> s[j].free == []
  {
    if s == [] || s[0].free != [] then 0 else 1 + FirstWithFree(s[1..])
  }

  function FirstWithLive<T(==)>(s: seq<PoolView<T>>, c: T): (i: nat)
    ensures i <= |s|
    ensures i < |s| ==> c in s[i].live
    ensures forall j :: 0 <= j < i ==> c !in s[j].live
  {
    if s == [] || c in s[0].live then 0 else 1 + FirstWithLive(s[1..], c)
  }

  // A list without the first occurrence of c.
  function Without<T(==)>(l: seq<T>, c: T): seq<T> {
    if l == [] then [] else if l[0] == c then l[1..] else [l[0]] + Without(l[1..], c)
  }

  // All pools are full, and there may be one more.
  predicate NeedsPage<T>(s: seq<PoolView<T>>) {
    FirstWithFree(s) == |s| && |s| != MAX_POOLS
  }

  // session_new: the first pool with a free chunk gives it up; failing that, a new pool
  // whose free chunks are page. The new client heads its pool's list.
  function Opened<T>(s: seq<PoolView<T>>, page: seq<T>): (r: (seq<PoolView<T>>, Option<T>))
    requires NeedsPage(s) ==> page != []
  {
    var i := FirstWithFree(s);
    if i < |s| then
      (s[i := TakenOut(s[i])], Some(s[i].free[0]))
    else if |s| == MAX_POOLS then (s, None)
    else (s + [PoolView(page[1..], [page[0]])], Some(page[0]))
  }

  // The pool after its client c became free.
  function PutInto<T(==)>(p: PoolView<T>, c: T): PoolView<T> {
    PoolView([c] + p.free, Without(p.live, c))
  }

  // session_close: a pool that becomes empty is dropped, unless it is the only one.
  function Closed<T(==)>(s: seq<PoolView<T>>, c: T): seq<PoolView<T>> {
    var i := FirstWithLive(s, c);
    if i == |s| then s
    else
      var p := PutInto(s[i], c);
      if |s| > 1 && p.live == [] then s[..i] + s[i + 1..] else s[i := p]
  }

  // A page that mmap can return: enough chunks, none of them in use.
  ghost predicate FreshPage<T>(s: seq<PoolView<T>>, page: seq<T>) {
    NoDup(page) && |page| == CHUNKS && forall c <- page :: !Knows(s, c)
  }

  ghost predicate PageIfNeeded<T>(s: seq<PoolView<T>>, page: seq<T>) {
    NeedsPage(s) ==> FreshPage(s, page)
  }

  lemma LiveHead<T>(s: seq<PoolView<T>>)
    requires s != []
    ensures Live(s) == s[0].live + Live(s[1..])
  {
  }

  lemma {:induction false} LiveConcat<T>(a: seq<PoolView<T>>, b: seq<PoolView<T>>)
    ensures Live(a + b) == Live(a) + Live(b)
  {
    if a == [] {
      assert a + b == b;
    } else {
      hide Live;
      LiveConcat(a[1..], b);
      LiveHead(a);
      LiveHead(a + b);
      assert (a + b)[1..] == a[1..] + b;
      Associates(a[0].live, Live(a[1..]), Live(b));
    }
  }

  // The live clients around pool i, also when it is replaced.
  lemma LiveAround<T>(s: seq<PoolView<T>>, i: nat)
    requires i < |s|
    ensures Live(s) == Live(s[..i]) + (s[i].live + Live(s[i + 1..]))
  {
    hide Live;
    LiveConcat(s[..i], s[i..]);
    LiveHead(s[i..]);
    assert s == s[..i] + s[i..];
    assert s[i..][1..] == s[i + 1..];
  }

  lemma LiveReplaced<T>(s: seq<PoolView<T>>, i: nat, p: PoolView<T>)
    requires i < |s|
    ensures Live(s[i := p]) == Live(s[..i]) + (p.live + Live(s[i + 1..]))
  {
    var s' := s[i := p];
    LiveAround(s', i);
    assert s'[..i] == s[..i] && s'[i + 1..] == s[i + 1..];
  }

  lemma {:induction false} LiveMembers<T>(s: seq<PoolView<T>>, c: T)
    ensures c in Live(s) <==> exists i :: 0 <= i < |s| && c in s[i].live
  {
    if s != [] {
      LiveMembers(s[1..], c);
      if i :| 0 <= i < |s| && c in s[i].live {
        assert i == 0 || c in s[1..][i - 1].live;
      }
      if c in Live(s[1..]) {
        var i :| 0 <= i < |s[1..]| && c in s[1..][i].live;
        assert c in s[i + 1].live;
      }
    }
  }

  lemma SetOfHead<T>(l: seq<T>)
    requires l != []
    ensures SetOf(l) == {l[0]} + SetOf(l[1..])
    ensures NoDup(l) ==> NoDup(l[1..]) && l[0] !in SetOf(l[1..])
  {
  }

  lemma {:induction false} WithoutFacts<T>(l: seq<T>, c: T)
    requires NoDup(l)
    ensures NoDup(Without(l, c))
    ensures SetOf(Without(l, c)) == SetOf(l) - {c}
    ensures forall d <- Without(l, c) :: d in l && d != c
    ensures c in l ==> |Without(l, c)| == |l| - 1
  {
    if l != [] {
      SetOfHead(l);
      WithoutHead(l, c);
      hide Without, NoDup;
      WithoutFacts(l[1..], c);
      if l[0] != c {
        var w := Without(l, c);
        assert w[1..] == Without(l[1..], c);
        SetOfHead(w);
        PrependNoDup(l[0], w[1..]);
      }
      assert forall d <- Without(l, c) :: d in SetOf(Without(l, c));
    }
  }

  lemma PrependNoDup<T>(c: T, l: seq<T>)
    requires NoDup(l) && c !in SetOf(l)
    ensures NoDup([c] + l)
  {
  }

  lemma {:induction false} WithoutAbsent<T>(l: seq<T>, c: T)
    requires c !in l
    ensures Without(l, c) == l
  {
    if l != [] {
      WithoutAbsent(l[1..], c);
    }
  }

  lemma WithoutHead<T>(l: seq<T>, c: T)
    requires l != []
    ensures Without(l, c) == if l[0] == c then l[1..] else [l[0]] + Without(l[1..], c)
  {
  }

  lemma {:induction false} WithoutConcat<T>(a: seq<T>, b: seq<T>, c: T)
    ensures Without(a + b, c) == if c in a then Without(a, c) + b else a + Without(b, c)
  {
    if a == [] {
      assert a + b == b;
      assert Without(b, c) == a + Without(b, c);
    } else {
      WithoutHead(a, c);
      WithoutHead(a + b, c);
      hide Without;
      assert (a + b)[1..] == a[1..] + b;
      if a[0] != c {
        WithoutConcat(a[1..], b, c);
        Associates([a[0]], Without(a[1..], c), b);
        Associates([a[0]], a[1..], Without(b, c));
        assert [a[0]] + a[1..] == a;
      }
    }
  }

  // Live(s) when c is live in pool i only.
  lemma LiveNotAround<T>(s: seq<PoolView<T>>, i: nat, c: T)
    requires Separate(s) && i < |s| && c in Elems(s[i])
    ensures c !in Live(s[..i]) && c !in Live(s[i + 1..])
  {
    LiveMembers(s[..i], c);
    LiveMembers(s[i + 1..], c);
    forall j | 0 <= j < |s| && j != i
      ensures c !in s[j].live
    {
      assert c !in Elems(s[j]);
    }
  }

  // The pool after its first free chunk became a client.
  function TakenOut<T>(p: PoolView<T>): PoolView<T>
    requires p.free != []
  {
    PoolView(p.free[1..], [p.free[0]] + p.live)
  }

  lemma TakeOutOk<T>(p: PoolView<T>)
    requires PoolOk(p) && p.free != []
    ensures PoolOk(TakenOut(p))
    ensures Elems(TakenOut(p)) == Elems(p)
  {
    var c := p.free[0];
    assert p.free == [c] + p.free[1..];
    NoDupConcat([c], p.live);
  }

  // Opening a session keeps the pools in order.
  lemma OpenedKeepsOk<T>(s: seq<PoolView<T>>, page: seq<T>)
    requires Ok(s) && PageIfNeeded(s, page)
    ensures Ok(Opened(s, page).0)
  {
    var i := FirstWithFree(s);
    if i < |s| {
      TakeOutOk(s[i]);
      UpdateKeepsOk(s, i, TakenOut(s[i]));
    } else if |s| < MAX_POOLS {
      AppendKeepsOk(s, page);
    }
  }

  lemma UpdateKeepsOk<T>(s: seq<PoolView<T>>, i: nat, p: PoolView<T>)
    requires Ok(s) && i < |s| && PoolOk(p) && (|s| > 1 ==> p.live != [])
    requires Elems(p) <= Elems(s[i])
    ensures Ok(s[i := p])
  {
  }

  lemma AppendKeepsOk<T>(s: seq<PoolView<T>>, page: seq<T>)
    requires Ok(s) && FreshPage(s, page) && |s| < MAX_POOLS
    requires forall i :: 0 <= i < |s| ==> s[i].free == []
    ensures Ok(s + [PoolView(page[1..], [page[0]])])
  {
    var p := PoolView(page[1..], [page[0]]);
    forall c | c in Elems(p)
      ensures c in page && !Knows(s, c)
    {
    }
    assert forall i :: 0 <= i < |page| - 1 ==> page[1..][i] == page[i + 1];
  }

  // Opening a session adds one client that was not live, and keeps the others in order.
  lemma OpenedAddsOne<T>(s: seq<PoolView<T>>, page: seq<T>)
    requires Ok(s) && PageIfNeeded(s, page)
    ensures var (s', r) := Opened(s, page);
      match r
      case Some(c) => c !in Live(s) && c in Live(s') && Without(Live(s'), c) == Live(s)
      case None => s' == s
  {
    var i := FirstWithFree(s);
    if i < |s| {
      TakenOutAddsOne(s, i);
    } else if |s| < MAX_POOLS {
      NewPoolAddsOne(s, page);
    }
  }

  lemma TakenOutAddsOne<T>(s: seq<PoolView<T>>, i: nat)
    requires Ok(s) && i < |s| && s[i].free != []
    ensures var (s', c) := (s[i := TakenOut(s[i])], s[i].free[0]);
      c !in Live(s) && c in Live(s') && Without(Live(s'), c) == Live(s)
  {
    hide Live, Ok;
    var c := s[i].free[0];
    assert PoolOk(s[i]) && c in Elems(s[i]) && Separate(s) by {
      ByOk(s, i);
    }
    LiveAround(s, i);
    LiveReplaced(s, i, TakenOut(s[i]));
    LiveNotAround(s, i, c);
    InsertThenWithout(Live(s[..i]), s[i].live + Live(s[i + 1..]), c);
    assert [c] + s[i].live + Live(s[i + 1..]) == [c] + (s[i].live + Live(s[i + 1..]));
  }

  lemma ByOk<T>(s: seq<PoolView<T>>, i: nat)
    requires Ok(s) && i < |s|
    ensures PoolOk(s[i]) && Separate(s)
  {
  }

  lemma NewPoolAddsOne<T>(s: seq<PoolView<T>>, page: seq<T>)
    requires FreshPage(s, page)
    ensures var (s', c) := (s + [PoolView(page[1..], [page[0]])], page[0]);
      c !in Live(s) && c in Live(s') && Without(Live(s'), c) == Live(s)
  {
    var c := page[0];
    var p := PoolView(page[1..], [c]);
    LiveConcat(s, [p]);
    assert Live([p]) == [c] + [];
    assert c !in Live(s) by {
      assert !Knows(s, c);
      LiveMembers(s, c);
      assert forall j :: 0 <= j < |s| && c in s[j].live ==> c in Elems(s[j]);
    }
    hide Live;
    InsertThenWithout(Live(s), [], c);
    assert Live(s) + [] == Live(s);
  }

  lemma InsertThenWithout<T>(a: seq<T>, b: seq<T>, c: T)
    requires c !in a
    ensures Without(a + ([c] + b), c) == a + b
  {
    WithoutConcat(a, [c] + b, c);
    assert ([c] + b)[1..] == b;
  }

  // The new client is the first free chunk of the first pool that has one, or of a new pool
  // behind all others, and heads the list of that pool. All other pools are as they were.
  lemma OpenedHeadsItsPool<T>(s: seq<PoolView<T>>, page: seq<T>)
    requires NeedsPage(s) ==> page != []
    ensures var (s', r) := Opened(s, page);
      r.Some? ==> exists i :: 0 <= i < |s'| && HeadsPool(s, page, s', r.value, i)
  {
    var (s', r) := Opened(s, page);
    if r.Some? {
      assert HeadsPool(s, page, s', r.value, FirstWithFree(s));
    }
  }

  ghost predicate HeadsPool<T>(s: seq<PoolView<T>>, page: seq<T>, s': seq<PoolView<T>>, c: T, i: nat)
    requires i < |s'|
  {
    && |s| <= |s'| && (forall j :: 0 <= j < |s'| && j != i ==> j < |s| && s'[j] == s[j])
    && (forall j :: 0 <= j < i ==> s'[j].free == [])
    && (if i < |s| then s[i].free == [c] + s'[i].free && s'[i].live == [c] + s[i].live
        else page == [c] + s'[i].free && s'[i].live == [c])
  }

  // A chunk that is given back is the next that its pool gives out, if the pool stays.
  lemma ClosedHeadsFree<T>(s: seq<PoolView<T>>, c: T)
    requires Ok(s) && |Closed(s, c)| == |s| && c in Live(s)
    ensures exists i :: 0 <= i < |s| && HeadsFree(s, Closed(s, c), c, i)
  {
    LiveMembers(s, c);
    assert HeadsFree(s, Closed(s, c), c, FirstWithLive(s, c));
  }

  ghost predicate HeadsFree<T>(s: seq<PoolView<T>>, s': seq<PoolView<T>>, c: T, i: nat)
    requires i < |s| == |s'|
  {
    && c in s[i].live && s'[i].free == [c] + s[i].free
    && forall j :: 0 <= j < |s| && j != i ==> s'[j] == s[j]
  }

  // There is no session to be had if and only if all pools there may be are full.
  lemma OpenedFailsWhenFull<T>(s: seq<PoolView<T>>, page: seq<T>)
    requires Ok(s) && PageIfNeeded(s, page)
    ensures Opened(s, page).1 == None <==> |Live(s)| == MAX_POOLS * CHUNKS
  {
    LiveCount(s);
    var i := FirstWithFree(s);
    if i < |s| {
      LiveCount(s[..i]);
      LiveCount(s[i + 1..]);
      LiveAround(s, i);
    } else {
      FullCount(s);
    }
  }

  lemma {:induction false} LiveCount<T>(s: seq<PoolView<T>>)
    requires forall i :: 0 <= i < |s| ==> PoolOk(s[i])
    ensures |Live(s)| <= CHUNKS * |s|
  {
    if s != [] {
      LiveCount(s[1..]);
    }
  }

  lemma {:induction false} FullCount<T>(s: seq<PoolView<T>>)
    requires forall i :: 0 <= i < |s| ==> PoolOk(s[i]) && s[i].free == []
    ensures |Live(s)| == CHUNKS * |s|
  {
    if s != [] {
      FullCount(s[1..]);
    }
  }

  // Closing a session keeps the pools in order.
  lemma ClosedKeepsOk<T>(s: seq<PoolView<T>>, c: T)
    requires Ok(s)
    ensures Ok(Closed(s, c))
  {
    var i := FirstWithLive(s, c);
    if i < |s| {
      var p := PutInto(s[i], c);
      WithoutFacts(s[i].live, c);
      if |s| > 1 && p.live == [] {
        RemoveKeepsOk(s, i);
      } else {
        PutBackOk(s[i], c);
        UpdateKeepsOk(s, i, p);
      }
    }
  }

  lemma PutBackOk<T>(p: PoolView<T>, c: T)
    requires PoolOk(p) && c in p.live
    ensures PoolOk(PutInto(p, c))
    ensures Elems(PutInto(p, c)) == Elems(p)
  {
    WithoutFacts(p.live, c);
  }

  lemma RemoveKeepsOk<T>(s: seq<PoolView<T>>, i: nat)
    requires Ok(s) && i < |s| && |s| > 1
    ensures Ok(s[..i] + s[i + 1..])
  {
    var s' := s[..i] + s[i + 1..];
    assert forall j :: 0 <= j < |s'| ==> s'[j] == if j < i then s[j] else s[j + 1];
  }

  // Closing a live session removes that one and keeps all others in order, also when its
  // pool is dropped.
  lemma ClosedRemovesOne<T>(s: seq<PoolView<T>>, c: T)
    requires Ok(s)
    ensures Live(Closed(s, c)) == Without(Live(s), c)
  {
    var i := FirstWithLive(s, c);
    if i == |s| {
      LiveMembers(s, c);
      WithoutAbsent(Live(s), c);
    } else {
      hide Live, Ok;
      ByOk(s, i);
      WithoutInPool(s, i, c);
      var p := PutInto(s[i], c);
      if |s| > 1 && p.live == [] {
        LiveConcat(s[..i], s[i + 1..]);
        assert [] + Live(s[i + 1..]) == Live(s[i + 1..]);
      } else {
        LiveReplaced(s, i, p);
      }
    }
  }

  lemma WithoutInPool<T>(s: seq<PoolView<T>>, i: nat, c: T)
    requires Separate(s) && i < |s| && c in s[i].live
    ensures Without(Live(s), c) == Live(s[..i]) + (Without(s[i].live, c) + Live(s[i + 1..]))
  {
    hide Live;
    assert c in Elems(s[i]);
    LiveAround(s, i);
    LiveNotAround(s, i, c);
    WithoutConcat(Live(s[..i]), s[i].live + Live(s[i + 1..]), c);
    WithoutConcat(s[i].live, Live(s[i + 1..]), c);
  }

  lemma FirstLiveIs<T>(s: seq<PoolView<T>>, i: nat, c: T)
    requires i < |s| && c in s[i].live && forall j :: 0 <= j < i ==> c !in s[j].live
    ensures FirstWithLive(s, c) == i
  {
  }

  // Closing the session that was just opened leaves the pools as they were, the order of
  // their free chunks included.
  lemma OpenCloseUndoes<T>(s: seq<PoolView<T>>, page: seq<T>)
    requires Ok(s) && PageIfNeeded(s, page)
    ensures var (s', r) := Opened(s, page); r.Some? ==> Closed(s', r.value) == s
  {
    var i := FirstWithFree(s);
    if i < |s| {
      ReuseUndone(s, i);
    } else if |s| < MAX_POOLS {
      PageUndone(s, page);
    }
  }

  lemma ReuseUndone<T>(s: seq<PoolView<T>>, i: nat)
    requires Ok(s) && i < |s| && s[i].free != []
    ensures Closed(s[i := TakenOut(s[i])], s[i].free[0]) == s
  {
    var c, s' := s[i].free[0], s[i := TakenOut(s[i])];
    ByOk(s, i);
    assert c in Elems(s[i]);
    forall j | 0 <= j < i
      ensures c !in s'[j].live
    {
      assert c !in Elems(s[j]);
    }
    FirstLiveIs(s', i, c);
    assert ([c] + s[i].live)[1..] == s[i].live;
    assert [c] + s[i].free[1..] == s[i].free;
    assert PutInto(s'[i], c) == s[i];
    assert s'[i := s[i]] == s;
  }

  lemma PageUndone<T>(s: seq<PoolView<T>>, page: seq<T>)
    requires Ok(s) && FreshPage(s, page)
    ensures Closed(s + [PoolView(page[1..], [page[0]])], page[0]) == s
  {
    var c, s' := page[0], s + [PoolView(page[1..], [page[0]])];
    forall j | 0 <= j < |s|
      ensures c !in s'[j].live
    {
      assert !Knows(s, c) && c !in Elems(s[j]);
    }
    FirstLiveIs(s', |s|, c);
    assert PutInto(s'[|s|], c).live == [];
    assert s'[..|s|] + s'[|s| + 1..] == s;
  }

  // No client is live twice.
  lemma {:induction false} LiveNoDup<T>(s: seq<PoolView<T>>)
    requires Separate(s) && forall i :: 0 <= i < |s| ==> PoolOk(s[i])
    ensures NoDup(Live(s))
  {
    if s != [] {
      assert forall i :: 0 <= i < |s[1..]| ==> s[1..][i] == s[i + 1];
      LiveNoDup(s[1..]);
      forall c | c in s[0].live
        ensures c !in Live(s[1..])
      {
        assert s[0 + 1..] == s[1..];
        LiveNotAround(s, 0, c);
      }
      NoDupConcat(s[0].live, Live(s[1..]));
    }
  }

  lemma NoDupConcat<T>(a: seq<T>, b: seq<T>)
    requires NoDup(a) && NoDup(b) && forall c <- a :: c !in b
    ensures NoDup(a + b)
  {
    forall i, j | 0 <= i < j < |a + b|
      ensures (a + b)[i] != (a + b)[j]
    {
      if i < |a| <= j {
        assert a[i] in a && b[j - |a|] in b;
      }
    }
  }

  // Runs of the server: sessions are opened and closed in any order.
  datatype Op<T> = Open(page: seq<T>) | Close(c: T)

  function Step<T(==)>(s: seq<PoolView<T>>, op: Op<T>): seq<PoolView<T>> {
    match op
    case Open(page) => if NeedsPage(s) && page == [] then s else Opened(s, page).0
    case Close(c) => Closed(s, c)
  }

  // The client that a step returns, if it opens a session and succeeds.
  function Result<T(==)>(s: seq<PoolView<T>>, op: Op<T>): Option<T> {
    match op
    case Open(page) => if NeedsPage(s) && page == [] then None else Opened(s, page).1
    case Close(_) => None
  }

  // The run of ops leads from s to s'.
  ghost predicate Reaches<T>(s: seq<PoolView<T>>, ops: seq<Op<T>>, s': seq<PoolView<T>>)
    decreases |ops|
  {
    if ops == [] then s' == s
    else (ops[0].Open? ==> PageIfNeeded(s, ops[0].page)) && Reaches(Step(s, ops[0]), ops[1..], s')
  }

  function Results<T(==)>(s: seq<PoolView<T>>, ops: seq<Op<T>>): seq<Option<T>>
    decreases |ops|
  {
    if ops == [] then [] else [Result(s, ops[0])] + Results(Step(s, ops[0]), ops[1..])
  }

  lemma {:induction false} ReachesTwice<T>(s: seq<PoolView<T>>, a: seq<Op<T>>, t: seq<PoolView<T>>,
                                           b: seq<Op<T>>, u: seq<PoolView<T>>)
    requires Reaches(s, a, t) && Reaches(t, b, u)
    ensures Reaches(s, a + b, u)
    decreases |a|
  {
    hide Step, Reaches, PageIfNeeded;
    if a == [] {
      assert a + b == b;
      ReachesNone(s, t);
    } else {
      ReachesHead(s, a, t);
      ReachesHead(s, a + b, u);
      assert (a + b)[1..] == a[1..] + b;
      ReachesTwice(Step(s, a[0]), a[1..], t, b, u);
    }
  }

  lemma ReachesHead<T>(s: seq<PoolView<T>>, ops: seq<Op<T>>, t: seq<PoolView<T>>)
    requires ops != []
    ensures Reaches(s, ops, t) <==>
      (ops[0].Open? ==> PageIfNeeded(s, ops[0].page)) && Reaches(Step(s, ops[0]), ops[1..], t)
  {
  }

  lemma ReachesNone<T>(s: seq<PoolView<T>>, t: seq<PoolView<T>>)
    ensures Reaches(s, [], t) <==> t == s
  {
  }

  lemma ReachesByOne<T>(s: seq<PoolView<T>>, op: Op<T>)
    requires op.Open? ==> PageIfNeeded(s, op.page)
    ensures Reaches(s, [op], Step(s, op))
  {
    assert [op][1..] == [];
  }

  // The plain set of live sessions that the pools stand for. An open adds a session that
  // was not there, or fails if and only if 16 * 1023 are there; a close removes one.
  ghost predicate SetRun<T>(live: set<T>, ops: seq<Op<T>>, results: seq<Option<T>>, live': set<T>)
    decreases |ops|
  {
    && |results| == |ops|
    && if ops == [] then live' == live
       else
         match ops[0]
         case Open(_) =>
           (match results[0]
            case None => |live| == MAX_POOLS * CHUNKS && SetRun(live, ops[1..], results[1..], live')
            case Some(c) =>
              |live| < MAX_POOLS * CHUNKS && c !in live && SetRun(live + {c}, ops[1..], results[1..], live'))
         case Close(c) => SetRun(live - {c}, ops[1..], results[1..], live')
  }

  ghost function LiveSet<T>(s: seq<PoolView<T>>): set<T> {
    SetOf(Live(s))
  }

  // Every run keeps the pools in order.
  lemma {:induction false} RunsStayOk<T>(s: seq<PoolView<T>>, ops: seq<Op<T>>, s': seq<PoolView<T>>)
    requires Ok(s) && Reaches(s, ops, s')
    ensures Ok(s')
    decreases |ops|
  {
    if ops != [] {
      StepKeepsOk(s, ops[0]);
      RunsStayOk(Step(s, ops[0]), ops[1..], s');
    }
  }

  lemma StepKeepsOk<T>(s: seq<PoolView<T>>, op: Op<T>)
    requires Ok(s) && (op.Open? ==> PageIfNeeded(s, op.page))
    ensures Ok(Step(s, op))
  {
    match op
    case Open(page) =>
      OpenedKeepsOk(s, page);
    case Close(c) =>
      ClosedKeepsOk(s, c);
  }

  // Every run refines the set of live sessions.
  lemma {:induction false} RunsRefineSet<T>(s: seq<PoolView<T>>, ops: seq<Op<T>>, s': seq<PoolView<T>>)
    requires Ok(s) && Reaches(s, ops, s')
    ensures SetRun(LiveSet(s), ops, Results(s, ops), LiveSet(s'))
    decreases |ops|
  {
    if ops != [] {
      var t := Step(s, ops[0]);
      StepKeepsOk(s, ops[0]);
      RunsRefineSet(t, ops[1..], s');
      assert Results(s, ops)[1..] == Results(t, ops[1..]);
      StepRefinesSet(s, ops[0]);
    }
  }

  lemma StepRefinesSet<T>(s: seq<PoolView<T>>, op: Op<T>)
    requires Ok(s) && (op.Open? ==> PageIfNeeded(s, op.page))
    ensures var r := Result(s, op);
      match op
      case Open(_) =>
        && LiveSet(Step(s, op)) == (if r.Some? then LiveSet(s) + {r.value} else LiveSet(s))
        && |LiveSet(s)| <= MAX_POOLS * CHUNKS
        && (r == None <==> |LiveSet(s)| == MAX_POOLS * CHUNKS)
        && (r.Some? ==> r.value !in LiveSet(s))
      case Close(c) => LiveSet(Step(s, op)) == LiveSet(s) - {c}
  {
    match op
    case Open(page) =>
      OpenRefinesSet(s, page);
      OkLiveNoDup(s);
      NoDupCount(Live(s));
      LiveCount(s);
    case Close(c) =>
      CloseRefinesSet(s, c);
  }

  lemma OpenRefinesSet<T>(s: seq<PoolView<T>>, page: seq<T>)
    requires Ok(s) && PageIfNeeded(s, page)
    ensures var (s', r) := Opened(s, page);
      && LiveSet(s') == LiveSet(s) + (if r.Some? then {r.value} else {})
      && (r == None <==> |LiveSet(s)| == MAX_POOLS * CHUNKS)
      && (r.Some? ==> r.value !in LiveSet(s))
  {
    OpenedAddsOne(s, page);
    OpenedKeepsOk(s, page);
    OpenedFailsWhenFull(s, page);
    OkLiveNoDup(s);
    NoDupCount(Live(s));
    var (s', r) := Opened(s, page);
    hide Opened, Ok, Live;
    if r.Some? {
      OkLiveNoDup(s');
      WithoutFacts(Live(s'), r.value);
    }
  }

  lemma CloseRefinesSet<T>(s: seq<PoolView<T>>, c: T)
    requires Ok(s)
    ensures LiveSet(Closed(s, c)) == LiveSet(s) - {c}
  {
    ClosedRemovesOne(s, c);
    OkLiveNoDup(s);
    hide Closed, Ok, Live;
    WithoutFacts(Live(s), c);
  }

  lemma OkLiveNoDup<T>(s: seq<PoolView<T>>)
    requires Ok(s)
    ensures NoDup(Live(s))
  {
    LiveNoDup(s);
  }

  lemma {:induction false} NoDupCount<T>(l: seq<T>)
    requires NoDup(l)
    ensures |SetOf(l)| == |l|
  {
    if l != [] {
      NoDupCount(l[1..]);
      assert SetOf(l) == SetOf(l[1..]) + {l[0]};
    }
  }
}
