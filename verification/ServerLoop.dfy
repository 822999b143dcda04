/** server_handle and the dispatch of one epoll_wait batch in server_go of
    src/chat_server.c: every step of theirs is a step of the transition system on values. */
module ServerLoop {
  import opened Basics
  import opened Options
  import opened Calendar
  import opened Framing
  import opened Handlers
  import opened Registry
  import opened Pools
  import CP = ClientPools
  import opened Servers
  import opened Worlds

  ghost function CardOf(d: Client): Card
    reads d`fd, d`bufUsed, d`nameUsed, d`nameOk, d.buf, d.name
  {
    Card(d.fd, d.buf[..], d.bufUsed, d.name[..], d.nameUsed, d.nameOk)
  }

  // The pools as they are, and what each of their chunks holds.
  ghost function WorldOf(s: Server): World
    reads s`view, Chunks(s.view)
    reads set d | d in Chunks(s.view) :: d.buf, set d | d in Chunks(s.view) :: d.name
  {
    World(s.view, map d | d in Chunks(s.view) :: CardOf(d))
  }

  // The fields of a new session.
  method Initialise(c: Client, fd: int)
    modifies c`fd, c`bufUsed, c`nameUsed, c`nameOk
    ensures c.fd == fd && c.bufUsed == 0 && c.nameUsed == 0 && !c.nameOk
  {
    c.fd := fd;
    c.bufUsed := 0;
    c.nameUsed := 0;
    c.nameOk := false;
  }

  // The new session and its prompt.
  method Greet(s: Server, c: Client, fd: int)
    requires s.Valid()
    modifies s`log, c`fd, c`bufUsed, c`nameUsed, c`nameOk
    ensures s.Valid() && s.log == old(s.log) + [Wrote(fd, PROMPT)]
    ensures CardOf(c) == Card(fd, c.buf[..], 0, c.name[..], 0, false)
    ensures forall d: Client | old(allocated(d)) && d != c :: CardOf(d) == old(CardOf(d))
  {
    hide Ok, CP.Buffers, Elems, Live;
    Initialise(c, fd);
    s.log := s.log + [Wrote(fd, PROMPT)];
  }

  method Reject(s: Server, fd: int)
    requires s.Valid()
    modifies s`log
    ensures s.Valid() && s.log == old(s.log) + [Wrote(fd, LIMIT_CONN_MSG), ClosedFd(fd)]
    ensures WorldOf(s) == old(WorldOf(s))
  {
    hide Ok, CP.Buffers, Elems;
    s.log := s.log + [Wrote(fd, LIMIT_CONN_MSG)];
    s.log := s.log + [ClosedFd(fd)];
    s.ChunksAllocated();
    WorldAt(s);
  }

  // What world s is in, told chunk by chunk.
  lemma WorldAt(s: Server)
    ensures WorldOf(s).view == s.view && WorldOf(s).cards.Keys == Chunks(s.view)
    ensures forall d <- Chunks(s.view) :: WorldOf(s).cards[d] == CardOf(d)
    ensures FdsIn(WorldOf(s)) == s.Fds()
  {
  }

  lemma SameWorld(s: Server, w: World)
    requires s.view == w.view && w.cards.Keys == Chunks(w.view)
    requires forall d <- w.cards :: CardOf(d) == w.cards[d]
    ensures WorldOf(s) == w
  {
    hide Chunks, CardOf;
    WorldAt(s);
    assert WorldOf(s).cards == w.cards;
  }

  // session_new has just given c, in the world w; what the other chunks hold is as before,
  // and new ones have no names.
  ghost predicate JustOpened(s: Server, w: World, c: Client, free: seq<Client>)
    reads s`view, Chunks(s.view)
    reads set d | d in Chunks(s.view) :: d.buf, set d | d in Chunks(s.view) :: d.name
  {
    && PageIfNeeded(w.view, free) && Opened(w.view, free) == (s.view, Some(c)) && c in Chunks(s.view)
    && (forall d <- w.cards :: Tidy(w.cards[d]))
    && forall d <- Chunks(s.view) :: if d in w.cards then CardOf(d) == w.cards[d] else !d.nameOk
  }

  // session_new, in terms of the live clients and what the chunks hold.
  method OpenChunk(s: Server, page: nat) returns (c: Client?, ghost free: seq<Client>)
    requires s.Valid() && CP.PageAddress(page)
    modifies s, s.firstClp, s.cps, PoolsOf(s.cps), Chunks(s.view)`next
    ensures s.Valid() && s.log == old(s.log)
    ensures fresh(SetOf(s.cps) - old(SetOf(s.cps))) && fresh(PoolsOf(s.cps) - old(PoolsOf(s.cps)))
    ensures forall d <- Chunks(s.view) :: d in old(Chunks(s.view)) || (fresh(d) && !d.nameOk)
    ensures PageIfNeeded(old(s.view), free) && s.view == Opened(old(s.view), free).0
    ensures c == match Opened(old(s.view), free).1 { case None => null case Some(d) => d }
    ensures forall d: Client | old(allocated(d)) :: CardOf(d) == old(CardOf(d))
    ensures c == null <==> |old(Live(s.view))| >= MAX_CLIENTS
    ensures c == null ==> s.view == old(s.view)
    ensures c != null ==>
      && c in Live(s.view) && Without<Client>(Live(s.view), c) == old(Live(s.view)) && Closed(s.view, c) == old(s.view)
      && c in Chunks(s.view) && (fresh(c) || c in old(Chunks(s.view)))
  {
    hide Servers.Server.Valid, Ok, CP.Buffers, Elems, Live, Without, Opened, Closed, PageIfNeeded, Reaches;
    s.ArrayFits();
    c, free := s.SessionNew(page);
    s.ChunksAllocated();
    NewClient(old(s.view), free);
    OpenCloseUndoes(old(s.view), free);
    if c != null {
      s.ChunkOf(c);
    }
  }

  // The same as a state between two steps.
  method OpenSession(s: Server, page: nat) returns (c: Client?, ghost free: seq<Client>)
    requires s.Valid() && Sound(WorldOf(s)) && CP.PageAddress(page)
    modifies s, s.firstClp, s.cps, PoolsOf(s.cps), Chunks(s.view)`next
    ensures s.Valid() && s.log == old(s.log)
    ensures fresh(SetOf(s.cps) - old(SetOf(s.cps))) && fresh(PoolsOf(s.cps) - old(PoolsOf(s.cps)))
    ensures forall d <- Chunks(s.view) :: d in old(Chunks(s.view)) || fresh(d)
    ensures c == null <==> |old(Live(s.view))| >= MAX_CLIENTS
    ensures c == null ==> WorldOf(s) == old(WorldOf(s))
    ensures c != null ==>
      && JustOpened(s, old(WorldOf(s)), c, free) && (fresh(c) || c in old(Chunks(s.view)))
      && c in Live(s.view) && Without<Client>(Live(s.view), c) == old(Live(s.view)) && Closed(s.view, c) == old(s.view)
  {
    hide Servers.Server.Valid, Ok, CP.Buffers, Elems, Live, Without, Opened, Closed, PageIfNeeded, Tidy, Waiting;
    hide CardOf, Chunks;
    ghost var w := WorldOf(s);
    WorldAt(s);
    s.ChunksAllocated();
    c, free := OpenChunk(s, page);
    if c == null {
      SameWorld(s, w);
    }
  }

  // The branch for a connection that epoll_ctl has not taken: the new session is closed.
  method Unregistered(s: Server, c: Client) returns (ghost stale: Party)
    requires s.Valid() && c in Live(s.view) && c.NameFits()
    modifies s, s.firstClp, s.cps, PoolsOf(s.cps), Chunks(s.view)`next, c`freeNext, c`fd, c`bufUsed
    ensures s.Valid() && s.view == Closed(old(s.view), c)
    ensures s.log == old(s.log) + Goodbye(stale) && stale == old(PartyOf(s, c))
    ensures SetOf(s.cps) <= old(SetOf(s.cps)) && PoolsOf(s.cps) <= old(PoolsOf(s.cps))
    ensures Chunks(s.view) <= old(Chunks(s.view))
    ensures forall d: Client | old(allocated(d)) && d != c :: CardOf(d) == old(CardOf(d))
    ensures SameName(old(CardOf(c)), CardOf(c)) && c.buf[..] == old(c.buf[..])
  {
    hide Servers.Server.Valid, Ok, CP.Buffers, Elems, Live, Without, Closed, Goodbye;
    stale := PartyOf(s, c);
    Handlers.Close(s, c);
  }

  lemma {:induction false} ToAllAgrees(s: seq<Client>, f: map<Client, int>, g: map<Client, int>, text: seq<char>)
    requires forall c <- s :: FdOf(f, c) == FdOf(g, c)
    ensures ToAll(s, f, text) == ToAll(s, g, text)
  {
    if s != [] {
      ToAllAgrees(s[..|s| - 1], f, g, text);
    }
  }

  // The farewell does not depend on the descriptors of others than those it is for.
  lemma GoodbyeAgrees(p: Party, q: Party)
    requires p == q.(fds := p.fds) && forall c <- p.others :: FdOf(p.fds, c) == FdOf(q.fds, c)
    ensures Goodbye(p) == Goodbye(q)
  {
    hide ToAll;
    if p.name.Some? {
      ToAllAgrees(p.others, p.fds, q.fds, p.name.value + LEFT_MSG);
    }
  }

  // Chunks have buffers of their sizes.
  lemma TidyChunks(s: Server, w: World, c: Client?)
    requires s.Valid() && forall d <- w.cards :: Tidy(w.cards[d])
    requires forall d <- Chunks(s.view) :: d in w.cards || !d.nameOk
    requires forall d <- Chunks(s.view) :: d in w.cards && d != c ==> CardOf(d) == w.cards[d]
    requires c != null && c in Chunks(s.view) ==> c.NameFits()
    ensures forall d <- Chunks(s.view) :: Tidy(CardOf(d))
  {
    hide Servers.Server.Valid, Chunks;
    s.BufferSizes();
  }

  // The fields of the new session are set.
  method Register(s: Server, c: Client, fd: int, ghost w: World, ghost free: seq<Client>)
    requires s.Valid() && JustOpened(s, w, c, free)
    modifies s`log, c`fd, c`bufUsed, c`nameUsed, c`nameOk
    ensures s.Valid() && s.log == old(s.log) + [Wrote(fd, PROMPT)]
    ensures Opens(w, fd, free, WorldOf(s))
  {
    hide Servers.Server.Valid, Chunks, Opened, PageIfNeeded, Tidy, Opens;
    s.ChunksAllocated();
    Greet(s, c, fd);
    IsOpening(s, w, c, fd, free);
  }

  lemma IsOpening(s: Server, w: World, c: Client, fd: int, free: seq<Client>)
    requires s.Valid() && PageIfNeeded(w.view, free) && Opened(w.view, free) == (s.view, Some(c)) && c in Chunks(s.view)
    requires forall d <- w.cards :: Tidy(w.cards[d])
    requires forall d <- Chunks(s.view) :: d != c ==> if d in w.cards then CardOf(d) == w.cards[d] else !d.nameOk
    requires CardOf(c) == Card(fd, c.buf[..], 0, c.name[..], 0, false)
    ensures Opens(w, fd, free, WorldOf(s))
  {
    hide Servers.Server.Valid, Chunks, Opened, PageIfNeeded, Tidy;
    WorldAt(s);
    TidyChunks(s, w, c);
  }

  // The new session is closed again.
  method CloseAgain(s: Server, c: Client, ghost w: World, ghost free: seq<Client>) returns (ghost held: Card)
    requires s.Valid() && JustOpened(s, w, c, free) && c in Live(s.view) && w.cards.Keys == Chunks(w.view)
    requires Without(Live(s.view), c) == Live(w.view) && Closed(s.view, c) == w.view
    modifies s, s.firstClp, s.cps, PoolsOf(s.cps), Chunks(s.view)`next, c`freeNext, c`fd, c`bufUsed
    ensures s.Valid() && Reopens(w, free, held, WorldOf(s))
    ensures s.log == old(s.log) + Goodbye(PartyIn(w, held, Live(w.view)))
    ensures SetOf(s.cps) <= old(SetOf(s.cps)) && PoolsOf(s.cps) <= old(PoolsOf(s.cps))
    ensures Chunks(s.view) <= old(Chunks(s.view))
  {
    hide Servers.Server.Valid, Ok, CP.Buffers, Elems, Live, Without, Opened, Closed, PageIfNeeded, Goodbye;
    hide Reopens, Chunks;
    held := CardOf(c);
    s.ChunksAllocated();
    s.BufferSizes();
    s.ArrayFits();
    ClosedChunks(s.view, c);
    LiveInChunks(w.view);
    ghost var stale := Unregistered(s, c);
    GoodbyeAgrees(stale, PartyIn(w, held, Live(w.view)));
    IsReopening(s, w, c, free, held);
  }

  lemma IsReopening(s: Server, w: World, c: Client, free: seq<Client>, held: Card)
    requires PageIfNeeded(w.view, free) && Opened(w.view, free).1 == Some(c) && s.view == w.view
    requires w.cards.Keys == Chunks(w.view)
    requires forall d <- w.cards :: d != c ==> CardOf(d) == w.cards[d]
    requires if c in w.cards then held == w.cards[c] else !held.nameOk
    requires SameName(held, CardOf(c)) && CardOf(c).buf == held.buf
    ensures Reopens(w, free, held, WorldOf(s))
  {
    hide Chunks, Opened, PageIfNeeded;
    WorldAt(s);
  }

  /** One connection in server_handle: a session with empty buffers, or a rejection, or a
      session that is closed at once and leaves the pools as they were. */
  method AcceptOne(s: Server, a: Accept) returns (ghost m: Micro)
    requires s.Valid() && Sound(WorldOf(s)) && a.Connection? && PageOk(a)
    modifies s, s.firstClp, s.cps, PoolsOf(s.cps), Chunks(s.view)`next, Chunks(s.view)`freeNext
    modifies Chunks(s.view)`fd, Chunks(s.view)`bufUsed, Chunks(s.view)`nameUsed, Chunks(s.view)`nameOk
    ensures s.Valid()
    ensures fresh(SetOf(s.cps) - old(SetOf(s.cps))) && fresh(PoolsOf(s.cps) - old(PoolsOf(s.cps)))
    ensures forall d <- Chunks(s.view) :: d in old(Chunks(s.view)) || fresh(d)
    ensures m.input == Accepting(a) && Next(old(WorldOf(s)), m, WorldOf(s))
    ensures s.log == old(s.log) + Said(old(WorldOf(s)), m)
  {
    hide Servers.Server.Valid, Ok, CP.Buffers, Elems, Live, Without, Opened, Closed, PageIfNeeded, Goodbye;
    hide CardOf, Chunks, Tidy, Waiting, Opens, Reopens, JustOpened;
    ghost var w := WorldOf(s);
    WorldAt(s);
    var c, free := OpenSession(s, a.page);
    m := Micro(Accepting(a), free, Card(0, [], 0, [], 0, false), None);
    if c == null {
      Reject(s, a.fd);
    } else if a.registered {
      Register(s, c, a.fd, w, free);
    } else {
      ghost var held := CloseAgain(s, c, w, free);
      m := m.(held := held);
    }
  }

  // How many results there are before accepting ends.
  function Served(accepts: seq<Accept>): (k: nat)
    ensures k <= |accepts|
    ensures forall j :: 0 <= j < k ==> !accepts[j].NoMore?
    ensures k < |accepts| ==> accepts[k].NoMore?
  {
    if accepts == [] || accepts[0].NoMore? then 0 else 1 + Served(accepts[1..])
  }

  // The history leads from the world w, with the log as it was then, to w' and the log as it
  // is there.
  ghost predicate Leads(w: World, log: seq<Output>, h: History, w': World, log': seq<Output>) {
    IsHistory(h) && h.worlds[0] == w && Last(h) == w' && log' == log + AllSaid(h)
  }

  lemma NotYet(w: World, log: seq<Output>)
    ensures Leads(w, log, History([w], []), w, log)
  {
    NothingSaid(History([w], []));
  }

  function Inputs(steps: seq<Micro>): (r: seq<Input>)
    ensures |r| == |steps|
  {
    seq(|steps|, i requires 0 <= i < |steps| => steps[i].input)
  }

  function Longer(h: History, m: Micro, w: World): History {
    History(h.worlds + [w], h.steps + [m])
  }

  // One more step.
  lemma OneStep(w: World, log: seq<Output>, h: History, w1: World, log1: seq<Output>, m: Micro, w2: World)
    requires Leads(w, log, h, w1, log1) && Next(w1, m, w2)
    ensures Leads(w, log, Longer(h, m, w2), w2, log1 + Said(w1, m))
    ensures Inputs(Longer(h, m, w2).steps) == Inputs(h.steps) + [m.input]
  {
    hide Next, Said, AllSaid;
    var h' := Longer(h, m, w2);
    assert Before(h') == h;
    LastSaid(h');
    Associates(log, AllSaid(h), Said(w1, m));
    forall i | 0 <= i < |h'.steps|
      ensures Next(h'.worlds[i], h'.steps[i], h'.worlds[i + 1])
    {
    }
  }

  // Two histories, one after the other.
  lemma Then(w: World, log: seq<Output>, a: History, w1: World, log1: seq<Output>, b: History, w2: World,
             log2: seq<Output>)
    requires Leads(w, log, a, w1, log1) && Leads(w1, log1, b, w2, log2)
    ensures Leads(w, log, Joined(a, b), w2, log2)
    ensures Inputs(Joined(a, b).steps) == Inputs(a.steps) + Inputs(b.steps)
  {
    hide Next, Said, AllSaid;
    JoinedIsHistory(a, b);
    JoinedSays(a, b);
    Associates(log, AllSaid(a), AllSaid(b));
  }

  lemma LeadsSound(w: World, log: seq<Output>, h: History, w': World, log': seq<Output>)
    requires Leads(w, log, h, w', log') && Sound(w)
    ensures Sound(w')
  {
    hide Next, Sound;
    HistorySound(h, |h.steps|);
  }

  function AcceptInputs(accepts: seq<Accept>): (r: seq<Input>)
    ensures |r| == |accepts|
  {
    seq(|accepts|, i requires 0 <= i < |accepts| => Accepting(accepts[i]))
  }

  // The history has served the first k results.
  ghost predicate ServedAt(s: Server, accepts: seq<Accept>, k: nat, w: World, log: seq<Output>, h: History)
    reads s`view, s`log, Chunks(s.view)
    reads set d | d in Chunks(s.view) :: d.buf, set d | d in Chunks(s.view) :: d.name
  {
    && k <= |accepts| && Leads(w, log, h, WorldOf(s), s.log) && Inputs(h.steps) == AcceptInputs(accepts[..k])
  }

  lemma NoneServed(s: Server, accepts: seq<Accept>)
    ensures ServedAt(s, accepts, 0, WorldOf(s), s.log, History([WorldOf(s)], []))
  {
    hide WorldOf, Leads;
    NotYet(WorldOf(s), s.log);
    NoInputs();
  }

  // The next result, unless it ends accepting.
  method AcceptNext(s: Server, accepts: seq<Accept>, k: nat, ghost w: World, ghost log: seq<Output>, ghost h0: History)
    returns (ghost h: History)
    requires s.Valid() && Sound(w) && k < |accepts| && PageOk(accepts[k]) && !accepts[k].NoMore?
    requires ServedAt(s, accepts, k, w, log, h0)
    modifies s, s.firstClp, s.cps, PoolsOf(s.cps), Chunks(s.view)`next, Chunks(s.view)`freeNext
    modifies Chunks(s.view)`fd, Chunks(s.view)`bufUsed, Chunks(s.view)`nameUsed, Chunks(s.view)`nameOk
    ensures s.Valid() && ServedAt(s, accepts, k + 1, w, log, h)
    ensures fresh(SetOf(s.cps) - old(SetOf(s.cps))) && fresh(PoolsOf(s.cps) - old(PoolsOf(s.cps)))
    ensures forall d <- Chunks(s.view) :: d in old(Chunks(s.view)) || fresh(d)
  {
    hide Servers.Server.Valid, Ok, CP.Buffers, Elems, Live, Sound, Next, Said, WorldOf, Leads, Inputs, AcceptInputs;
    LeadsSound(w, log, h0, WorldOf(s), s.log);
    OneAccept(accepts, k);
    ghost var w1, log1, m := WorldOf(s), s.log, Micro(Accepting(accepts[k]), [], Card(0, [], 0, [], 0, false), None);
    if accepts[k].AcceptFailed? {
      NothingHappens(w1, m, log1);
    } else {
      m := AcceptOne(s, accepts[k]);
    }
    OneStep(w, log, h0, w1, log1, m, WorldOf(s));
    h := Longer(h0, m, WorldOf(s));
  }

  /** server_handle: connections are accepted until there are none left, each by a step. */
  method ServerHandle(s: Server, accepts: seq<Accept>) returns (ghost h: History)
    requires s.Valid() && Sound(WorldOf(s)) && forall a <- accepts :: PageOk(a)
    modifies s, s.firstClp, s.cps, PoolsOf(s.cps), Chunks(s.view)`next, Chunks(s.view)`freeNext
    modifies Chunks(s.view)`fd, Chunks(s.view)`bufUsed, Chunks(s.view)`nameUsed, Chunks(s.view)`nameOk
    ensures s.Valid() && ServedAt(s, accepts, Served(accepts), old(WorldOf(s)), old(s.log), h)
    ensures fresh(SetOf(s.cps) - old(SetOf(s.cps))) && fresh(PoolsOf(s.cps) - old(PoolsOf(s.cps)))
    ensures forall d <- Chunks(s.view) :: d in old(Chunks(s.view)) || fresh(d)
  {
    hide Servers.Server.Valid, Sound, WorldOf, Leads, Inputs, AcceptInputs;
    NoneServed(s, accepts);
    h := History([WorldOf(s)], []);
    var k := 0;
    while k < |accepts|
      invariant 0 <= k <= Served(accepts) && s.Valid()
      invariant fresh(SetOf(s.cps) - old(SetOf(s.cps))) && fresh(PoolsOf(s.cps) - old(PoolsOf(s.cps)))
      invariant forall d <- Chunks(s.view) :: d in old(Chunks(s.view)) || fresh(d)
      invariant ServedAt(s, accepts, k, old(WorldOf(s)), old(s.log), h)
    {
      assert accepts[k] in accepts;
      if accepts[k].NoMore? {
        break;
      }
      h := AcceptNext(s, accepts, k, old(WorldOf(s)), old(s.log), h);
      k := k + 1;
    }
  }

  lemma NoInputs()
    ensures Inputs([]) == [] && AcceptInputs([]) == [] && BatchInputs([]) == []
  {
  }

  lemma OneAccept(accepts: seq<Accept>, k: nat)
    requires k < |accepts|
    ensures AcceptInputs(accepts[..k + 1]) == AcceptInputs(accepts[..k]) + [Accepting(accepts[k])]
  {
  }

  lemma NothingHappens(w: World, m: Micro, log: seq<Output>)
    requires m.input == Accepting(AcceptFailed)
    ensures Next(w, m, w) && log + Said(w, m) == log
  {
  }

  // What a handler leaves of the client c and the log: w and log are those before.
  ghost predicate Handled(s: Server, c: Client, w: World, log: seq<Output>, script: seq<ReadResult>, now: Option<int>,
                          stamp: Option<Tm>)
    reads s`view, s`log, c`fd, c`bufUsed, c`nameUsed, c`nameOk, c.buf, c.name
  {
    && c in w.cards && CardFits(w.cards[c], script) && TimeOk(w.cards[c], script, now, stamp)
    && s.log == log + ClientSays(w, c, w.cards[c], script, stamp)
    && if LoopOf(w.cards[c], script).outcome == Drained then
         s.view == w.view && CardOf(c) == AfterReading(w.cards[c], script)
       else
         s.view == Closed(w.view, c) && LeftBehind(w.cards[c], CardOf(c))
  }

  // An event of a client that has a name.
  method HandleLine(s: Server, c: Client, script: seq<ReadResult>, now: Option<int>) returns (ghost stamp: Option<Tm>)
    requires s.Valid() && c in Live(s.view) && c in Chunks(s.view) && Waiting(CardOf(c)) && c.buf != c.name && c.nameOk
    requires CardFits(CardOf(c), script) && ClockOk(now)
    modifies s, s.firstClp, s.cps, PoolsOf(s.cps), Chunks(s.view)`next
    modifies c`freeNext, c`fd, c`bufUsed, c.buf
    ensures s.Valid() && Handled(s, c, old(WorldOf(s)), old(s.log), script, now, stamp)
    ensures SetOf(s.cps) <= old(SetOf(s.cps)) && PoolsOf(s.cps) <= old(PoolsOf(s.cps))
    ensures Chunks(s.view) <= old(Chunks(s.view))
  {
    hide Servers.Server.Valid, Ok, CP.Buffers, Elems, Live, Without, Closed, Answers, ReadLoop, NameOk,
      AfterName, AfterLine, FoundLine, NameTurn, LineTurn, StampOf, Advances;
    WorldAt(s);
    stamp := SessionLineRead(s, c, script, now);
  }

  // An event of a client that has none.
  method HandleName(s: Server, c: Client, script: seq<ReadResult>, now: Option<int>)
    requires s.Valid() && c in Live(s.view) && c in Chunks(s.view) && Waiting(CardOf(c)) && c.buf != c.name && !c.nameOk
    requires CardFits(CardOf(c), script)
    modifies s, s.firstClp, s.cps, PoolsOf(s.cps), Chunks(s.view)`next
    modifies c`freeNext, c`fd, c`bufUsed, c`nameUsed, c`nameOk, c.name
    ensures s.Valid() && Handled(s, c, old(WorldOf(s)), old(s.log), script, now, None)
    ensures SetOf(s.cps) <= old(SetOf(s.cps)) && PoolsOf(s.cps) <= old(PoolsOf(s.cps))
    ensures Chunks(s.view) <= old(Chunks(s.view))
  {
    hide Servers.Server.Valid, Ok, CP.Buffers, Elems, Live, Without, Closed, Answers, ReadLoop, NameOk,
      AfterName, AfterLine, FoundLine, NameTurn, LineTurn, StampOf, Advances;
    WorldAt(s);
    SessionNameRead(s, c, script);
  }

  // The handler that fits the client. Nothing else changes.
  method Dispatch(s: Server, c: Client, script: seq<ReadResult>, now: Option<int>) returns (ghost stamp: Option<Tm>)
    requires s.Valid() && c in Live(s.view) && c in Chunks(s.view) && Waiting(CardOf(c))
    requires CardFits(CardOf(c), script) && ClockOk(now)
    modifies s, s.firstClp, s.cps, PoolsOf(s.cps), Chunks(s.view)`next
    modifies c`freeNext, c`fd, c`bufUsed, c`nameUsed, c`nameOk, c.buf, c.name
    ensures s.Valid() && Handled(s, c, old(WorldOf(s)), old(s.log), script, now, stamp)
    ensures SetOf(s.cps) <= old(SetOf(s.cps)) && PoolsOf(s.cps) <= old(PoolsOf(s.cps))
    ensures Chunks(s.view) <= old(Chunks(s.view))
    ensures forall d: Client | old(allocated(d)) && d in old(Chunks(s.view)) && d != c :: CardOf(d) == old(CardOf(d))
  {
    hide Servers.Server.Valid, Ok, CP.Buffers, Elems, Live, Chunks, Handled, Waiting, CardFits;
    s.OwnBuffers(c);
    WorldAt(s);
    stamp := None;
    if !c.nameOk {
      HandleName(s, c, script, now);
    } else {
      stamp := HandleLine(s, c, script, now);
    }
  }

  /** An event of a client, as a step: the session goes on with what it has read, or is
      closed. Whatever it brings, all other chunks stay as they are. */
  method HandleReadable(s: Server, c: Client, script: seq<ReadResult>, now: Option<int>) returns (ghost m: Micro)
    requires s.Valid() && Sound(WorldOf(s)) && c in Live(s.view)
    requires CardFits(CardOf(c), script) && ClockOk(now)
    modifies s, s.firstClp, s.cps, PoolsOf(s.cps), Chunks(s.view)`next
    modifies c`freeNext, c`fd, c`bufUsed, c`nameUsed, c`nameOk, c.buf, c.name
    ensures s.Valid()
    ensures SetOf(s.cps) <= old(SetOf(s.cps)) && PoolsOf(s.cps) <= old(PoolsOf(s.cps))
    ensures Chunks(s.view) <= old(Chunks(s.view))
    ensures m.input == Reading(c, script, now) && Next(old(WorldOf(s)), m, WorldOf(s))
    ensures s.log == old(s.log) + Said(old(WorldOf(s)), m)
  {
    hide Servers.Server.Valid, Ok, CP.Buffers, Elems, Live, Chunks, Waiting, CardFits, CardOf, Closed;
    hide LoopOf, TimeOk, ClientSays, AfterReading, LeftBehind, Tidy;
    ghost var w := WorldOf(s);
    WorldAt(s);
    s.ChunkOf(c);
    s.ChunksAllocated();
    ghost var stamp := Dispatch(s, c, script, now);
    WorldAt(s);
    m := Micro(Reading(c, script, now), [], Card(0, [], 0, [], 0, false), stamp);
  }

  // One entry of what epoll_wait returns: the listening socket, or a client by its address.
  datatype Event = Listening(accepts: seq<Accept>) | Readable(c: Client, script: seq<ReadResult>, now: Option<int>)

  // What a client brings fits it; connections come with free addresses.
  ghost predicate EventOk(e: Event, w: World) {
    match e
    case Listening(accepts) => forall a <- accepts :: PageOk(a)
    case Readable(c, script, now) => c in Live(w.view) && c in w.cards && CardFits(w.cards[c], script) && ClockOk(now)
  }

  // The steps that an event stands for.
  function EventInputs(e: Event): seq<Input> {
    match e
    case Listening(accepts) => AcceptInputs(accepts[..Served(accepts)])
    case Readable(c, script, now) => [Reading(c, script, now)]
  }

  function BatchInputs(events: seq<Event>): seq<Input> {
    if events == [] then [] else BatchInputs(events[..|events| - 1]) + EventInputs(events[|events| - 1])
  }

  // One step for a client, and for the listening socket one for each result up to the first
  // that ends accepting.
  predicate StepsOf(e: Event, inputs: seq<Input>) {
    match e
    case Readable(c, script, now) => inputs == [Reading(c, script, now)]
    case Listening(accepts) =>
      && |inputs| <= |accepts| && (|inputs| < |accepts| ==> accepts[|inputs|].NoMore?)
      && forall j :: 0 <= j < |inputs| ==> inputs[j] == Accepting(accepts[j]) && !accepts[j].NoMore?
  }

  // The steps of a batch are those of each event, behind those of the events before it.
  lemma EventHasItsSteps(events: seq<Event>, i: nat)
    requires i < |events|
    ensures BatchInputs([]) == [] && BatchInputs(events[..i + 1]) <= BatchInputs(events)
    ensures var (before, after) := (BatchInputs(events[..i]), BatchInputs(events[..i + 1]));
      before <= after && StepsOf(events[i], after[|before|..])
  {
    hide StepsOf, EventInputs;
    OneEvent(events, i);
    BatchPrefix(events, i + 1);
    OwnSteps(events[i]);
    hide BatchInputs;
    var before := BatchInputs(events[..i]);
    assert (before + EventInputs(events[i]))[|before|..] == EventInputs(events[i]);
  }

  lemma OwnSteps(e: Event)
    ensures StepsOf(e, EventInputs(e))
  {
  }

  lemma {:induction false} BatchPrefix(events: seq<Event>, i: nat)
    requires i <= |events|
    ensures BatchInputs(events[..i]) <= BatchInputs(events)
    decreases |events|
  {
    if i < |events| {
      var init := events[..|events| - 1];
      assert init[..i] == events[..i];
      BatchPrefix(init, i);
    } else {
      assert events[..i] == events;
    }
  }

  // One event of a batch.
  method HandleEvent(s: Server, e: Event) returns (ghost h: History)
    requires s.Valid() && Sound(WorldOf(s)) && EventOk(e, WorldOf(s))
    modifies s, s.firstClp, s.cps, PoolsOf(s.cps), Chunks(s.view)`next, Chunks(s.view)`freeNext
    modifies Chunks(s.view)`fd, Chunks(s.view)`bufUsed, Chunks(s.view)`nameUsed, Chunks(s.view)`nameOk
    modifies if e.Readable? then {e.c.buf, e.c.name} else {}
    ensures s.Valid()
    ensures fresh(SetOf(s.cps) - old(SetOf(s.cps))) && fresh(PoolsOf(s.cps) - old(PoolsOf(s.cps)))
    ensures forall d <- Chunks(s.view) :: d in old(Chunks(s.view)) || fresh(d)
    ensures Leads(old(WorldOf(s)), old(s.log), h, WorldOf(s), s.log) && Inputs(h.steps) == EventInputs(e)
  {
    hide Servers.Server.Valid, Ok, CP.Buffers, Elems, Live, Sound, CardFits, Next, Said, CardOf, Leads;
    match e {
      case Listening(accepts) =>
        h := ServerHandle(s, accepts);
      case Readable(c, script, now) =>
        ghost var w, log := WorldOf(s), s.log;
        WorldAt(s);
        s.ChunkOf(c);
        NotYet(w, log);
        ghost var m := HandleReadable(s, c, script, now);
        OneStep(w, log, History([w], []), w, log, m, WorldOf(s));
        h := Longer(History([w], []), m, WorldOf(s));
    }
  }

  predicate Concerns(e: Event, d: Client) {
    e.Readable? && e.c == d
  }

  predicate NoClientTwice(events: seq<Event>) {
    forall i, j :: 0 <= i < j < |events| && events[i].Readable? ==> !Concerns(events[j], events[i].c)
  }

  // A step of a client comes from an event of that client.
  lemma {:induction false} StepsOfEvents(events: seq<Event>, d: Client)
    requires forall e <- events :: !Concerns(e, d)
    ensures forall i <- BatchInputs(events) :: !(i.Reading? && i.c == d)
  {
    if events != [] {
      var n := |events| - 1;
      StepsOfEvents(events[..n], d);
      assert events[n] in events;
    }
  }

  // The client of an event that is due is as it was when the batch began.
  lemma StillDue(events: seq<Event>, i: nat, w: World, log: seq<Output>, h: History, w': World, log': seq<Output>)
    requires Leads(w, log, h, w', log') && Sound(w) && NoClientTwice(events) && i < |events|
    requires events[i].Readable? && EventOk(events[i], w) && Inputs(h.steps) == BatchInputs(events[..i])
    ensures EventOk(events[i], w')
  {
    hide Next, Sound, Live, CardFits;
    var d := events[i].c;
    forall e | e in events[..i]
      ensures !Concerns(e, d)
    {
      var j :| 0 <= j < i && events[j] == e;
      assert e.Readable? ==> !Concerns(events[i], e.c);
    }
    StepsOfEvents(events[..i], d);
    forall m | m in h.steps
      ensures !IsOf(m, d)
    {
      var k :| 0 <= k < |h.steps| && h.steps[k] == m;
      assert Inputs(h.steps)[k] in BatchInputs(events[..i]);
    }
    UntouchedStays(h, d);
  }

  // A batch after its first i events: the history that led here from the world w has just the
  // steps that these stand for.
  ghost predicate BatchAt(s: Server, events: seq<Event>, i: nat, w: World, log: seq<Output>, h: History)
    reads s`view, s`log, Chunks(s.view)
    reads set d | d in Chunks(s.view) :: d.buf, set d | d in Chunks(s.view) :: d.name
  {
    && i <= |events| && Leads(w, log, h, WorldOf(s), s.log) && Inputs(h.steps) == BatchInputs(events[..i])
  }

  lemma NoEvents(s: Server, events: seq<Event>)
    ensures BatchAt(s, events, 0, WorldOf(s), s.log, History([WorldOf(s)], []))
  {
    hide WorldOf, Leads;
    NotYet(WorldOf(s), s.log);
    NoInputs();
  }

  lemma BatchSound(s: Server, events: seq<Event>, i: nat, w: World, log: seq<Output>, h: History)
    requires BatchAt(s, events, i, w, log, h) && Sound(w)
    ensures Sound(WorldOf(s))
  {
    hide WorldOf, Leads, Sound;
    LeadsSound(w, log, h, WorldOf(s), s.log);
  }

  // The next entry of a batch.
  method HandleNext(s: Server, events: seq<Event>, i: nat, ghost w: World, ghost log: seq<Output>, ghost h0: History)
    returns (ghost h: History)
    requires s.Valid() && Sound(w) && NoClientTwice(events) && i < |events| && EventOk(events[i], w)
    requires BatchAt(s, events, i, w, log, h0)
    modifies s, s.firstClp, s.cps, PoolsOf(s.cps), Chunks(s.view)`next, Chunks(s.view)`freeNext
    modifies Chunks(s.view)`fd, Chunks(s.view)`bufUsed, Chunks(s.view)`nameUsed, Chunks(s.view)`nameOk
    modifies if events[i].Readable? then {events[i].c.buf, events[i].c.name} else {}
    ensures s.Valid() && BatchAt(s, events, i + 1, w, log, h)
    ensures fresh(SetOf(s.cps) - old(SetOf(s.cps))) && fresh(PoolsOf(s.cps) - old(PoolsOf(s.cps)))
    ensures forall d <- Chunks(s.view) :: d in old(Chunks(s.view)) || fresh(d)
  {
    hide Servers.Server.Valid, Live, Sound, WorldOf, EventOk, EventInputs, BatchInputs, Inputs, Leads, NoClientTwice;
    OneEvent(events, i);
    LeadsSound(w, log, h0, WorldOf(s), s.log);
    if events[i].Readable? {
      StillDue(events, i, w, log, h0, WorldOf(s), s.log);
    } else {
      PagesStayOk(events[i], w, WorldOf(s));
    }
    ghost var w1, log1 := WorldOf(s), s.log;
    ghost var more := HandleEvent(s, events[i]);
    Then(w, log, h0, w1, log1, more, WorldOf(s), s.log);
    h := Joined(h0, more);
  }

  /** One batch of server_go. The kernel reports no client twice, and only clients that are
      live when the batch begins. Then every client handled is still live at its turn, and as
      it was when the batch began, whatever sessions earlier events have closed, pools they
      have dropped and chunks they have given to new connections. The batch as a whole is a
      history of the transition system, whose steps are those of the events, in order. */
  method HandleBatch(s: Server, events: seq<Event>) returns (ghost h: History)
    requires s.Valid() && Sound(WorldOf(s)) && NoClientTwice(events)
    requires forall e <- events :: EventOk(e, WorldOf(s))
    modifies s, s.firstClp, s.cps, PoolsOf(s.cps), Chunks(s.view)`next, Chunks(s.view)`freeNext
    modifies Chunks(s.view)`fd, Chunks(s.view)`bufUsed, Chunks(s.view)`nameUsed, Chunks(s.view)`nameOk
    modifies (set e | e in events && e.Readable? :: e.c.buf), (set e | e in events && e.Readable? :: e.c.name)
    ensures s.Valid() && Sound(WorldOf(s))
    ensures BatchAt(s, events, |events|, old(WorldOf(s)), old(s.log), h)
  {
    hide Servers.Server.Valid, Sound, WorldOf, EventOk, BatchInputs, Inputs, Leads, NoClientTwice;
    NoEvents(s, events);
    h := History([WorldOf(s)], []);
    var i := 0;
    while i < |events|
      invariant 0 <= i <= |events| && s.Valid()
      invariant fresh(SetOf(s.cps) - old(SetOf(s.cps))) && fresh(PoolsOf(s.cps) - old(PoolsOf(s.cps)))
      invariant forall d <- Chunks(s.view) :: d in old(Chunks(s.view)) || fresh(d)
      invariant BatchAt(s, events, i, old(WorldOf(s)), old(s.log), h)
    {
      assert events[i] in events;
      h := HandleNext(s, events, i, old(WorldOf(s)), old(s.log), h);
      i := i + 1;
    }
    BatchSound(s, events, |events|, old(WorldOf(s)), old(s.log), h);
  }

  lemma OneEvent(events: seq<Event>, i: nat)
    requires i < |events|
    ensures BatchInputs(events[..i + 1]) == BatchInputs(events[..i]) + EventInputs(events[i])
  {
    assert events[..i + 1][..i] == events[..i];
  }

  lemma PagesStayOk(e: Event, w: World, w': World)
    requires e.Listening? && EventOk(e, w)
    ensures EventOk(e, w')
  {
  }

  // The server begins in order.
  method Begin(page: nat) returns (s: Server)
    requires CP.PageAddress(page)
    ensures fresh(s) && s.Valid() && Sound(WorldOf(s)) && Live(s.view) == [] && s.log == []
  {
    hide Servers.Server.Valid, Ok, CP.Buffers, Elems, Live, Chunks;
    s := new Server(page);
    s.ArrayFits();
    s.BufferSizes();
    WorldAt(s);
  }
}
