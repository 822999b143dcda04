/** The server of src/chat_server.c as a transition system on values: the pools, and what
    each chunk holds as a client. One step is one result of accept4 in server_handle, or one
    event of a client in server_go. */
module Worlds {
  import opened Basics
  import opened Options
  import opened Sizes
  import opened Calendar
  import opened Framing
  import opened Handlers
  import opened Registry
  import opened Pools
  import CP = ClientPools
  import opened Servers

  // What accept4 reports. page is where mmap would put a new pool, should one be needed;
  // registered says whether epoll_ctl takes the connection.
  datatype Accept = Connection(fd: int, page: nat, registered: bool) | NoMore | AcceptFailed

  const LIMIT_CONN_MSG := "Connection limit reached, rejecting client\n"
  const PROMPT := "Your name please (max 29): "
  const MAX_CLIENTS := MAX_POOLS * CHUNKS

  predicate PageOk(a: Accept) {
    a.Connection? ==> CP.PageAddress(a.page)
  }

  // All that a session consists of.
  datatype Card = Card(fd: int, buf: seq<char>, bufUsed: int, name: seq<char>, nameUsed: int, nameOk: bool)

  datatype World = World(view: seq<PoolView<Client>>, cards: map<Client, Card>)

  // What a free chunk can be relied on to hold.
  predicate Tidy(d: Card) {
    && |d.buf| == MAX_LINE_LEN && |d.name| == MAX_NAME_LEN
    && (d.nameOk ==> 0 <= d.nameUsed <= |d.name|)
  }

  // A client between two events: its counters are in range, its name is complete if it says
  // so.
  predicate Waiting(d: Card) {
    && Tidy(d) && 0 <= d.bufUsed <= |d.buf| && 0 <= d.nameUsed <= |d.name|
    && (d.nameOk ==> NameOk(d.name, d.nameUsed))
  }

  ghost predicate Sound(w: World) {
    && Ok(w.view) && w.cards.Keys == Chunks(w.view)
    && (forall c <- w.cards :: Tidy(w.cards[c]))
    && (forall c <- Live(w.view) :: c in w.cards && Waiting(w.cards[c]))
  }

  // One step, and what decides it besides: the chunks of a page that is mapped for it, what
  // the chunk of a new session holds until its fields are set, the time that the clock gives.
  datatype Input = Accepting(a: Accept) | Reading(c: Client, script: seq<ReadResult>, now: Option<int>)

  datatype Micro = Micro(input: Input, free: seq<Client>, held: Card, stamp: Option<Tm>)

  // What an event brings fits the space that its client has at that moment.
  predicate CardFits(d: Card, script: seq<ReadResult>) {
    && 0 <= d.bufUsed <= |d.buf| && 0 <= d.nameUsed <= |d.name|
    && Answers(script, if d.nameOk then |d.buf| - d.bufUsed else |d.name| - d.nameUsed)
  }

  function FdsIn(w: World): map<Client, int> {
    map c | c in w.cards :: w.cards[c].fd
  }

  // A client and everyone else, as a handler finds them.
  function PartyIn(w: World, d: Card, others: seq<Client>): Party {
    Party(d.fd, d.name, if d.nameOk && 0 <= d.nameUsed <= |d.name| then Some(d.name[..d.nameUsed]) else None,
          others, FdsIn(w))
  }

  // The read loop of the client that d describes.
  ghost function LoopOf(d: Card, script: seq<ReadResult>): ReadState
    requires CardFits(d, script)
  {
    if d.nameOk then ReadLoop(d.buf, d.bufUsed, d.bufUsed, script)
    else ReadLoop(d.name, d.nameUsed, d.nameUsed, script)
  }

  // What an event of a client says.
  ghost function ClientSays(w: World, c: Client, d: Card, script: seq<ReadResult>, stamp: Option<Tm>): seq<Output>
    requires CardFits(d, script)
  {
    var p := PartyIn(w, d, Without(Live(w.view), c));
    if d.nameOk then LineTurn(p, LineState(d.buf, d.bufUsed), script, stamp)
    else NameTurn(p, d.nameUsed, script)
  }

  // What a result of accept4 says. A session whose connection cannot be registered is closed
  // again, as what its chunk holds.
  function AcceptSays(w: World, a: Accept, held: Card): seq<Output> {
    match a
    case NoMore => []
    case AcceptFailed => []
    case Connection(fd, _, registered) =>
      if |Live(w.view)| >= MAX_CLIENTS then [Wrote(fd, LIMIT_CONN_MSG), ClosedFd(fd)]
      else if registered then [Wrote(fd, PROMPT)]
      else Goodbye(PartyIn(w, held, Live(w.view)))
  }

  ghost function Said(w: World, m: Micro): seq<Output> {
    match m.input
    case Accepting(a) => AcceptSays(w, a, m.held)
    case Reading(c, script, _) =>
      if c in w.cards && CardFits(w.cards[c], script) then ClientSays(w, c, w.cards[c], script, m.stamp) else []
  }

  // All chunks but c are as they were.
  ghost predicate SameBut(w: World, c: Client, w': World) {
    && w'.cards.Keys == Chunks(w'.view)
    && forall d <- w'.cards :: d in w.cards && d != c ==> w'.cards[d] == w.cards[d]
  }

  predicate SameName(d: Card, d': Card) {
    d'.name == d.name && d'.nameUsed == d.nameUsed && d'.nameOk == d.nameOk
  }

  // A session is opened: its chunk is the first free one, or the first of a new pool, whose
  // chunks have no names.
  ghost predicate Opens(w: World, fd: int, free: seq<Client>, w': World) {
    && PageIfNeeded(w.view, free)
    && var (view, c) := Opened(w.view, free);
       && w'.view == view && c.Some? && SameBut(w, c.value, w')
       && c.value in w'.cards
       && w'.cards[c.value] == Card(fd, w'.cards[c.value].buf, 0, w'.cards[c.value].name, 0, false)
       && forall d <- w'.cards :: Tidy(w'.cards[d])
  }

  // A session is opened and closed again. held is what its chunk held; the pools are as
  // before, and of the chunk only the descriptor and the counter next to it have changed.
  ghost predicate Reopens(w: World, free: seq<Client>, held: Card, w': World) {
    && PageIfNeeded(w.view, free) && w'.view == w.view
    && var c := Opened(w.view, free).1;
       && c.Some? && SameBut(w, c.value, w')
       && (if c.value in w.cards then held == w.cards[c.value] else !held.nameOk)
       && (c.value in w'.cards && c.value in w.cards ==>
             SameName(w.cards[c.value], w'.cards[c.value]) && w'.cards[c.value].buf == w.cards[c.value].buf)
  }

  ghost predicate Accepts(w: World, a: Accept, free: seq<Client>, held: Card, w': World) {
    match a
    case NoMore => w' == w
    case AcceptFailed => w' == w
    case Connection(fd, _, registered) =>
      if |Live(w.view)| >= MAX_CLIENTS then w' == w
      else if registered then Opens(w, fd, free, w')
      else Reopens(w, free, held, w')
  }

  // What the client d becomes by an event after which the session goes on.
  ghost function AfterReading(d: Card, script: seq<ReadResult>): Card
    requires CardFits(d, script)
  {
    var r := LoopOf(d, script);
    if d.nameOk then
      if r.used > |r.buf| then d
      else
        var st := AfterLine(LineState(r.buf, r.used));
        d.(buf := st.buf, bufUsed := st.used)
    else
      if r.used > |r.buf| then d
      else
        var n := AfterName(NameState(r.buf, r.used, false));
        d.(name := n.name, nameUsed := n.used, nameOk := n.ok)
  }

  // The stamp is the time, if the event is one that looks for a line.
  ghost predicate TimeOk(d: Card, script: seq<ReadResult>, now: Option<int>, stamp: Option<Tm>)
    requires CardFits(d, script)
  {
    d.nameOk && LoopOf(d, script).outcome in {Drained, Ended} ==> StampOf(stamp, now)
  }

  // What a closed session leaves in its chunk: the name, if it was complete.
  predicate LeftBehind(d: Card, d': Card) {
    Tidy(d') && d'.nameOk == d.nameOk && (d.nameOk ==> SameName(d, d'))
  }

  // An event of a client: the session goes on with what it has read, or is closed.
  ghost predicate Reads(w: World, c: Client, script: seq<ReadResult>, now: Option<int>, stamp: Option<Tm>, w': World) {
    && c in Live(w.view) && c in w.cards && CardFits(w.cards[c], script)
    && TimeOk(w.cards[c], script, now, stamp) && SameBut(w, c, w')
    && if LoopOf(w.cards[c], script).outcome == Drained then
         w'.view == w.view && c in w'.cards && w'.cards[c] == AfterReading(w.cards[c], script)
       else
         && w'.view == Closed(w.view, c)
         && (c in w'.cards ==> LeftBehind(w.cards[c], w'.cards[c]))
  }

  ghost predicate Next(w: World, m: Micro, w': World) {
    match m.input
    case Accepting(a) => Accepts(w, a, m.free, m.held, w')
    case Reading(c, script, now) => Reads(w, c, script, now, m.stamp, w')
  }

  lemma LiveInChunks(view: seq<PoolView<Client>>)
    ensures forall c <- Live(view) :: c in Chunks(view)
  {
    forall c | c in Live(view)
      ensures c in Chunks(view)
    {
      LiveMembers(view, c);
      var i :| 0 <= i < |view| && c in view[i].live;
      InChunks(view, i);
    }
  }

  // session_new fails exactly when the server is full; otherwise it adds one client.
  lemma NewClient(view: seq<PoolView<Client>>, free: seq<Client>)
    requires Ok(view) && PageIfNeeded(view, free)
    ensures var (view', r) := Opened(view, free);
      && Ok(view') && |Live(view)| <= MAX_CLIENTS
      && (r == None <==> |Live(view)| == MAX_CLIENTS)
      && (r == None ==> view' == view)
      && (r.Some? ==> r.value in Live(view') && r.value !in Live(view) && Without(Live(view'), r.value) == Live(view))
  {
    OpenedKeepsOk(view, free);
    OpenedAddsOne(view, free);
    OpenedFailsWhenFull(view, free);
    LiveCount(view);
  }

  lemma PageGiven(view: seq<PoolView<Client>>, free: seq<Client>)
    requires PageIfNeeded(view, free)
    ensures NeedsPage(view) ==> free != []
  {
  }

  lemma JoinedMembers(view: seq<PoolView<Client>>, c: Client, before: seq<PoolView<Client>>)
    requires Ok(view) && c in Live(view) && Without(Live(view), c) == Live(before)
    ensures |Live(view)| == |Live(before)| + 1
    ensures forall d <- Live(view) :: d == c || d in Live(before)
    ensures forall d <- Live(before) :: d in Live(view) && d != c
  {
    OkLiveNoDup(view);
    WithoutFacts(Live(view), c);
    assert SetOf(Live(before)) == SetOf(Live(view)) - {c};
    forall d | d in Live(view) && d != c
      ensures d in Live(before)
    {
      assert d in SetOf(Live(before));
    }
    assert forall d <- Live(before) :: d in SetOf(Live(before));
  }

  lemma ClosedMembers(view: seq<PoolView<Client>>, c: Client)
    requires Ok(view) && c in Live(view)
    ensures Ok(Closed(view, c)) && Chunks(Closed(view, c)) <= Chunks(view)
    ensures |Live(Closed(view, c))| == |Live(view)| - 1
    ensures forall d <- Live(Closed(view, c)) :: d in Live(view) && d != c
    ensures forall d <- Live(view) :: d != c ==> d in Live(Closed(view, c))
  {
    ClosedKeepsOk(view, c);
    ClosedRemovesOne(view, c);
    ClosedChunks(view, c);
    OkLiveNoDup(view);
    WithoutFacts(Live(view), c);
    forall d | d in Live(view) && d != c
      ensures d in Live(Closed(view, c))
    {
      assert d in SetOf(Live(Closed(view, c)));
    }
  }

  lemma ClosedChunks(view: seq<PoolView<Client>>, c: Client)
    requires Ok(view)
    ensures Chunks(Closed(view, c)) <= Chunks(view)
  {
    var i := FirstWithLive(view, c);
    if i < |view| {
      PutBackOk(view[i], c);
      ChunksRemove(view, i);
      SameChunks(view, i, PutInto(view[i], c));
    }
  }

  // A session that goes on is as well-formed as before.
  lemma AfterReadingWaits(d: Card, script: seq<ReadResult>)
    requires Waiting(d) && CardFits(d, script) && LoopOf(d, script).outcome == Drained
    ensures Waiting(AfterReading(d, script))
  {
    hide ReadLoop, AfterLine, AfterName, NameOk, Answers, FirstOf;
  }

  predicate IsOf(m: Micro, c: Client) {
    m.input.Reading? && m.input.c == c
  }

  // Whatever happens, all other sessions stay as they are, buffers included.
  lemma OthersStay(w: World, m: Micro, w': World, d: Client)
    requires Sound(w) && Next(w, m, w') && d in Live(w.view) && !IsOf(m, d)
    ensures d in Live(w'.view) && d in w'.cards && w'.cards[d] == w.cards[d]
  {
    hide Ok, Live, Opened, Closed, Waiting, Tidy, AfterReading, LoopOf, CardFits, TimeOk, Chunks, Elems, PageIfNeeded;
    LiveInChunks(w'.view);
    match m.input
    case Accepting(a) =>
      if a.Connection? && |Live(w.view)| < MAX_CLIENTS {
        NewClient(w.view, m.free);
        PageGiven(w.view, m.free);
        if a.registered {
          JoinedMembers(w'.view, Opened(w.view, m.free).1.value, w.view);
        }
      }
    case Reading(c, _, _) =>
      ClosedMembers(w.view, c);
  }

  // Every step keeps the server well-formed.
  lemma NextSound(w: World, m: Micro, w': World)
    requires Sound(w) && Next(w, m, w')
    ensures Sound(w')
  {
    hide Ok, Live, Opened, Closed, AfterReading, LoopOf, CardFits, TimeOk, Chunks, Elems, PageIfNeeded, NameOk;
    LiveInChunks(w'.view);
    match m.input
    case Accepting(a) =>
      if a.Connection? && |Live(w.view)| < MAX_CLIENTS {
        NewClient(w.view, m.free);
        PageGiven(w.view, m.free);
        if a.registered {
          JoinedMembers(w'.view, Opened(w.view, m.free).1.value, w.view);
        }
      }
    case Reading(c, script, _) =>
      ClosedMembers(w.view, c);
      if LoopOf(w.cards[c], script).outcome == Drained {
        AfterReadingWaits(w.cards[c], script);
      }
  }

  // The opens and closes of sessions that a step amounts to.
  ghost function OpsOf(w: World, m: Micro): seq<Op<Client>> {
    match m.input
    case Accepting(a) =>
      if a.Connection? && a.registered && |Live(w.view)| < MAX_CLIENTS then [Op.Open(m.free)] else []
    case Reading(c, script, _) =>
      if c in w.cards && CardFits(w.cards[c], script) && LoopOf(w.cards[c], script).outcome != Drained
      then [Op.Close(c)] else []
  }

  lemma NextReaches(w: World, m: Micro, w': World)
    requires Next(w, m, w')
    ensures Reaches(w.view, OpsOf(w, m), w'.view)
  {
    hide Live, Opened, Closed, AfterReading, LoopOf, CardFits, TimeOk, Chunks, PageIfNeeded, Reaches;
    ReachesNone(w.view, w.view);
    match m.input
    case Accepting(a) =>
      if a.Connection? && a.registered && |Live(w.view)| < MAX_CLIENTS {
        OpenReaches(w.view, m.free);
      }
    case Reading(c, _, _) =>
      ReachesByOne(w.view, Op.Close(c));
  }

  lemma OpenReaches(view: seq<PoolView<Client>>, free: seq<Client>)
    requires PageIfNeeded(view, free)
    ensures Reaches(view, [Op.Open(free)], Opened(view, free).0)
  {
    ReachesByOne(view, Op.Open(free));
  }

  // Whole runs of the server.
  datatype History = History(worlds: seq<World>, steps: seq<Micro>)

  ghost predicate IsHistory(h: History) {
    && |h.worlds| == |h.steps| + 1
    && forall i :: 0 <= i < |h.steps| ==> Next(h.worlds[i], h.steps[i], h.worlds[i + 1])
  }

  function Before(h: History): History
    requires |h.worlds| == |h.steps| + 1 && h.steps != []
  {
    History(h.worlds[..|h.steps|], h.steps[..|h.steps| - 1])
  }

  function Last(h: History): World
    requires |h.worlds| == |h.steps| + 1
  {
    h.worlds[|h.steps|]
  }

  // All that is said, one step after the other.
  ghost function AllSaid(h: History): seq<Output>
    requires |h.worlds| == |h.steps| + 1
    decreases |h.steps|
  {
    if h.steps == [] then []
    else AllSaid(Before(h)) + Said(h.worlds[|h.steps| - 1], h.steps[|h.steps| - 1])
  }

  ghost function AllOps(h: History): seq<Op<Client>>
    requires |h.worlds| == |h.steps| + 1
    decreases |h.steps|
  {
    if h.steps == [] then []
    else AllOps(Before(h)) + OpsOf(h.worlds[|h.steps| - 1], h.steps[|h.steps| - 1])
  }

  lemma BeforeIsHistory(h: History)
    requires IsHistory(h) && h.steps != []
    ensures IsHistory(Before(h)) && Next(Last(Before(h)), h.steps[|h.steps| - 1], Last(h))
    ensures Before(h).worlds[0] == h.worlds[0]
  {
    var n := |h.steps| - 1;
    assert Next(h.worlds[n], h.steps[n], h.worlds[n + 1]);
  }

  // Every run keeps the server well-formed.
  lemma {:induction false} HistorySound(h: History, k: nat)
    requires IsHistory(h) && Sound(h.worlds[0]) && k < |h.worlds|
    ensures Sound(h.worlds[k])
  {
    if k > 0 {
      hide Next, Sound;
      HistorySound(h, k - 1);
      assert Next(h.worlds[k - 1], h.steps[k - 1], h.worlds[k - 1 + 1]);
      NextSound(h.worlds[k - 1], h.steps[k - 1], h.worlds[k]);
    }
  }

  // Every run is a run of opens and closes of sessions; closed are only clients that have an
  // event in it.
  lemma {:induction false} HistoryReaches(h: History)
    requires IsHistory(h)
    ensures Reaches(h.worlds[0].view, AllOps(h), Last(h).view)
    ensures forall op <- AllOps(h) :: op.Close? ==> exists m <- h.steps :: IsOf(m, op.c)
    decreases |h.steps|
  {
    hide Reaches, Next, OpsOf;
    if h.steps == [] {
      ReachesNone(h.worlds[0].view, h.worlds[0].view);
    } else {
      BeforeIsHistory(h);
      HistoryReaches(Before(h));
      var n := |h.steps| - 1;
      NextReaches(h.worlds[n], h.steps[n], h.worlds[n + 1]);
      ReachesTwice(h.worlds[0].view, AllOps(Before(h)), h.worlds[n].view, OpsOf(h.worlds[n], h.steps[n]), Last(h).view);
      ClosesOwn(h.worlds[n], h.steps[n]);
      forall op | op in AllOps(h) && op.Close?
        ensures exists m <- h.steps :: IsOf(m, op.c)
      {
        assert op in AllOps(Before(h)) || (IsOf(h.steps[n], op.c) && h.steps[n] in h.steps);
      }
    }
  }

  lemma ClosesOwn(w: World, m: Micro)
    ensures forall op <- OpsOf(w, m) :: op.Close? ==> IsOf(m, op.c)
  {
  }

  // A client without an event stays live and as it was.
  lemma {:induction false} UntouchedStays(h: History, d: Client)
    requires IsHistory(h) && Sound(h.worlds[0]) && d in Live(h.worlds[0].view)
    requires forall m <- h.steps :: !IsOf(m, d)
    ensures d in Live(Last(h).view) && d in Last(h).cards && d in h.worlds[0].cards
    ensures Last(h).cards[d] == h.worlds[0].cards[d]
    decreases |h.steps|
  {
    if h.steps != [] {
      hide Next, Sound, Live;
      BeforeIsHistory(h);
      UntouchedStays(Before(h), d);
      HistorySound(h, |h.steps| - 1);
      OthersStay(Last(Before(h)), h.steps[|h.steps| - 1], Last(h), d);
    }
  }

  // One run after another.
  function Joined(a: History, b: History): History {
    History(a.worlds + if b.worlds == [] then [] else b.worlds[1..], a.steps + b.steps)
  }

  lemma {:induction false} JoinedIsHistory(a: History, b: History)
    requires IsHistory(a) && IsHistory(b) && Last(a) == b.worlds[0]
    ensures IsHistory(Joined(a, b)) && Last(Joined(a, b)) == Last(b) && Joined(a, b).worlds[0] == a.worlds[0]
  {
    hide Next;
    var j := Joined(a, b);
    forall i | 0 <= i < |j.steps|
      ensures Next(j.worlds[i], j.steps[i], j.worlds[i + 1])
    {
      if i >= |a.steps| {
        assert Next(b.worlds[i - |a.steps|], b.steps[i - |a.steps|], b.worlds[i - |a.steps| + 1]);
      }
    }
  }

  lemma {:induction false} JoinedSays(a: History, b: History)
    requires |a.worlds| == |a.steps| + 1 && |b.worlds| == |b.steps| + 1 && Last(a) == b.worlds[0]
    ensures |Joined(a, b).worlds| == |Joined(a, b).steps| + 1
    ensures AllSaid(Joined(a, b)) == AllSaid(a) + AllSaid(b)
    decreases |b.steps|
  {
    hide Said, AllSaid;
    var j := Joined(a, b);
    if b.steps == [] {
      assert j == a;
      NothingSaid(b);
      assert AllSaid(a) + [] == AllSaid(a);
    } else {
      var n := |b.steps| - 1;
      JoinedSays(a, Before(b));
      JoinedBefore(a, b);
      LastSaid(j);
      LastSaid(b);
      Associates(AllSaid(a), AllSaid(Before(b)), Said(b.worlds[n], b.steps[n]));
    }
  }

  lemma NothingSaid(h: History)
    requires |h.worlds| == 1 && h.steps == []
    ensures AllSaid(h) == []
  {
  }

  lemma LastSaid(h: History)
    requires |h.worlds| == |h.steps| + 1 && h.steps != []
    ensures var n := |h.steps| - 1; AllSaid(h) == AllSaid(Before(h)) + Said(h.worlds[n], h.steps[n])
  {
  }

  lemma JoinedBefore(a: History, b: History)
    requires |a.worlds| == |a.steps| + 1 && |b.worlds| == |b.steps| + 1 && b.steps != []
    ensures |Joined(a, b).worlds| == |Joined(a, b).steps| + 1
    ensures Before(Joined(a, b)) == Joined(a, Before(b))
    ensures var (n, k) := (|b.steps| - 1, |a.steps| + |b.steps| - 1);
      && Joined(a, b).steps[k] == b.steps[n]
      && (Last(a) == b.worlds[0] ==> Joined(a, b).worlds[k] == b.worlds[n])
  {
  }

  // How many clients are live after a result of accept4, if n were.
  function Grown(a: Accept, n: nat): nat {
    if a.Connection? && a.registered && n < MAX_CLIENTS then n + 1 else n
  }

  lemma AcceptCount(w: World, m: Micro, w': World)
    requires Sound(w) && Next(w, m, w') && m.input.Accepting?
    ensures |Live(w.view)| <= MAX_CLIENTS && |Live(w'.view)| == Grown(m.input.a, |Live(w.view)|)
  {
    hide Live, Opened, Chunks, PageIfNeeded, Tidy, Waiting;
    LiveCount(w.view);
    if m.input.a.Connection? && m.input.a.registered && |Live(w.view)| < MAX_CLIENTS {
      NewClient(w.view, m.free);
      PageGiven(w.view, m.free);
      JoinedMembers(w'.view, Opened(w.view, m.free).1.value, w.view);
    }
  }

  // The chunk of the next session, if it is one that there is already.
  predicate NextChunk(view: seq<PoolView<Client>>, c: Client) {
    var i := FirstWithFree(view);
    i < |view| && view[i].free[0] == c
  }

  // A connection that cannot be registered when the server is not full. It is closed if and
  // only if the first free chunk holds its descriptor already, and all live clients are told
  // that one has left if and only if that chunk holds a complete name. The chunks of a new
  // pool hold none.
  lemma UnregisteredIff(w: World, m: Micro, w': World, fd: int, page: nat)
    requires Sound(w) && Next(w, m, w') && |Live(w.view)| < MAX_CLIENTS
    requires m.input == Accepting(Connection(fd, page, false))
    ensures w'.view == w.view
    ensures forall c <- w.cards :: NextChunk(w.view, c) ==>
      && (ClosedFd(fd) in Said(w, m) <==> w.cards[c].fd == fd)
      && |Said(w, m)| == 1 + if w.cards[c].nameOk then |Live(w.view)| else 0
    ensures NeedsPage(w.view) ==> Said(w, m) == [ClosedFd(m.held.fd)]
  {
    hide Live, Ok, Chunks, Waiting, PageIfNeeded, ToAll;
    PageGiven(w.view, m.free);
    NewClient(w.view, m.free);
    if NeedsPage(w.view) {
      NewChunk(w, m.free);
    }
    var p := PartyIn(w, m.held, Live(w.view));
    if p.name.Some? {
      ToAllReaches(p.others, p.fds, p.name.value + LEFT_MSG);
    }
  }

  lemma NewChunk(w: World, free: seq<Client>)
    requires Sound(w) && PageIfNeeded(w.view, free) && NeedsPage(w.view)
    ensures free != [] && Opened(w.view, free).1 == Some(free[0]) && free[0] !in w.cards
  {
    assert !Knows(w.view, free[0]);
  }

  // Such a connection: the first free chunk is the one that bob had, and holds descriptor 0.
  // Connection 7 is not closed, and the other client learns for the second time that bob has
  // left.
  lemma UnregisteredExample(w: World, m: Micro, w': World, c: Client, d: Client, page: nat)
    requires Sound(w) && Next(w, m, w') && Live(w.view) == [d] && NextChunk(w.view, c) && c in w.cards && d in w.cards
    requires m.input == Accepting(Connection(7, page, false))
    requires w.cards[c].fd == 0 && w.cards[c].nameOk && w.cards[c].name[..3] == "bob" && w.cards[c].nameUsed == 3
    ensures Said(w, m) == [Wrote(w.cards[d].fd, "bob" + LEFT_MSG), ClosedFd(0)]
    ensures ClosedFd(7) !in Said(w, m)
  {
    hide Ok, Chunks, Waiting, PageIfNeeded;
    PageGiven(w.view, m.free);
    var p := PartyIn(w, m.held, Live(w.view));
    assert p.name == Some("bob");
    assert [d][..0] == [];
    assert ToAll([], p.fds, "bob" + LEFT_MSG) == [];
    assert ToAll([d], p.fds, "bob" + LEFT_MSG) == [] + [Wrote(w.cards[d].fd, "bob" + LEFT_MSG)];
  }

  // What a client has done since its session was opened: its name so far with the bytes read
  // for it, and its lines.
  datatype Talk = Talk(naming: Naming, session: Session)

  ghost function NewTalk(d: Card): Talk {
    Talk(Naming(NameState(d.name, 0, false), []), Session(LineState(d.buf, 0), [], []))
  }

  // An event of the client goes to its name until that is complete, and to its lines then.
  ghost function AfterTalk(t: Talk, c: Client, m: Micro): Talk {
    if !IsOf(m, c) then t
    else if !t.naming.n.ok then
      if NameProceeds(t.naming, m.input.script) then t.(naming := AfterNaming(t.naming, m.input.script)) else t
    else
      if Proceeds(t.session, m.input.script) then t.(session := AfterEvent(t.session, m.input.script)) else t
  }

  // The talk of the client c, whose session step i opens, up to world k.
  ghost function TalkAt(h: History, c: Client, i: nat, k: nat): Talk
    requires i < k < |h.worlds| == |h.steps| + 1 && c in h.worlds[i + 1].cards
    decreases k
  {
    if k == i + 1 then NewTalk(h.worlds[i + 1].cards[c]) else AfterTalk(TalkAt(h, c, i, k - 1), c, h.steps[k - 1])
  }

  ghost predicate OpensFor(w: World, m: Micro, c: Client) {
    && m.input.Accepting? && m.input.a.Connection? && m.input.a.registered && |Live(w.view)| < MAX_CLIENTS
    && PageIfNeeded(w.view, m.free) && Opened(w.view, m.free).1 == Some(c)
  }

  // The chunk holds what the talk has come to. The name is the first line the client has
  // sent; after it, all bytes are the lines sent to the others, in order, and those that
  // still wait.
  ghost predicate Tells(d: Card, t: Talk) {
    && d.name == t.naming.n.name && d.nameUsed == t.naming.n.used && d.nameOk == t.naming.n.ok
    && d.buf == t.session.st.buf && d.bufUsed == t.session.st.used
    && Named(t.naming) && Accounted(t.session)
  }

  // The session of c is open from step i up to world k, and no event of it has more than one
  // data read.
  ghost predicate Talks(h: History, c: Client, i: nat, k: nat) {
    && IsHistory(h) && Sound(h.worlds[0]) && i < k < |h.worlds|
    && OpensFor(h.worlds[i], h.steps[i], c)
    && (forall j :: i < j <= k ==> c in Live(h.worlds[j].view))
    && (forall j :: i < j < k && IsOf(h.steps[j], c) ==> |DataReads(h.steps[j].input.script)| <= 1)
  }

  // Over every run of the server, whatever happens to all other sessions, the chunk of a
  // session holds what its own talk has come to.
  lemma {:induction false} SessionTalks(h: History, c: Client, i: nat, k: nat)
    requires Talks(h, c, i, k)
    ensures c in h.worlds[i + 1].cards && c in h.worlds[k].cards
    ensures Tells(h.worlds[k].cards[c], TalkAt(h, c, i, k))
    decreases k
  {
    hide Next, Sound, Live, Tells, Opened, AfterTalk, NewTalk, OpensFor, PageIfNeeded, DataReads;
    assert Next(h.worlds[i], h.steps[i], h.worlds[i + 1]);
    TalkBegins(h.worlds[i], h.steps[i], h.worlds[i + 1], c);
    if k > i + 1 {
      SessionTalks(h, c, i, k - 1);
      HistorySound(h, k - 1);
      assert Next(h.worlds[k - 1], h.steps[k - 1], h.worlds[k - 1 + 1]);
      TalkGoesOn(h.worlds[k - 1], h.steps[k - 1], h.worlds[k], c, TalkAt(h, c, i, k - 1));
    }
  }

  lemma TalkBegins(w: World, m: Micro, w': World, c: Client)
    requires Next(w, m, w') && OpensFor(w, m, c)
    ensures c in w'.cards && Tells(w'.cards[c], NewTalk(w'.cards[c]))
  {
    hide Live, Opened, PageIfNeeded, SameBut, FirstOf;
    PageGiven(w.view, m.free);
    assert [] + w'.cards[c].buf[..0] == [];
  }

  lemma TalkGoesOn(w: World, m: Micro, w': World, c: Client, t: Talk)
    requires Sound(w) && Next(w, m, w') && c in Live(w.view) && c in Live(w'.view)
    requires c in w.cards && Tells(w.cards[c], t)
    requires IsOf(m, c) ==> |DataReads(m.input.script)| <= 1
    ensures c in w'.cards && Tells(w'.cards[c], AfterTalk(t, c, m))
  {
    hide Live, Ok, Chunks, Closed, Tidy, Waiting, Named, Accounted, DataReads, TimeOk, Answers, SameBut;
    if !IsOf(m, c) {
      OthersStay(w, m, w', c);
    } else {
      ClosedMembers(w.view, c);
      var d, script := w.cards[c], m.input.script;
      assert LoopOf(d, script).outcome == Drained;
      if d.nameOk {
        LineGoesOn(d, t, script);
      } else {
        NameGoesOn(d, t, script);
      }
    }
  }

  lemma LineGoesOn(d: Card, t: Talk, script: seq<ReadResult>)
    requires Tells(d, t) && d.nameOk && CardFits(d, script) && |DataReads(script)| <= 1
    requires LoopOf(d, script).outcome == Drained
    ensures Proceeds(t.session, script) && Tells(AfterReading(d, script), t.(session := AfterEvent(t.session, script)))
  {
    hide ReadLoop, DataReads, Answers, Named, Concat, FoundLine, AfterLine;
    EventAccounts(t.session, script);
  }

  lemma NameGoesOn(d: Card, t: Talk, script: seq<ReadResult>)
    requires Tells(d, t) && !d.nameOk && CardFits(d, script) && |DataReads(script)| <= 1
    requires LoopOf(d, script).outcome == Drained
    ensures NameProceeds(t.naming, script)
    ensures Tells(AfterReading(d, script), t.(naming := AfterNaming(t.naming, script)))
  {
    hide ReadLoop, DataReads, Answers, Accounted, Concat, FirstOf, AfterName, Named;
    NamingStep(t.naming, script);
  }

  // What an event of such a session says, once it has a name, is the line that it adds to the
  // talk, and the farewell if the session ends.
  lemma TalkSays(h: History, c: Client, i: nat, k: nat)
    requires Talks(h, c, i, k) && k < |h.steps| && IsOf(h.steps[k], c)
    requires var script := h.steps[k].input.script;
      && c in h.worlds[i + 1].cards && TalkAt(h, c, i, k).naming.n.ok
      && Proceeds(TalkAt(h, c, i, k).session, script)
    ensures var (w, m, t) := (h.worlds[k], h.steps[k], TalkAt(h, c, i, k).session);
      && c in w.cards
      && var p := PartyIn(w, w.cards[c], Without(Live(w.view), c));
         Said(w, m) == NewLine(t, AfterEvent(t, m.input.script), p, m.stamp)
                     + if LineEvent(t.st, m.input.script).outcome == Drained then [] else Goodbye(p)
  {
    hide Live, Without, Goodbye, NewLine, AfterEvent, Talks, LineTurn, ReadLoop, Answers, Named, Accounted;
    SessionTalks(h, c, i, k);
    TalkStep(h, c, i, k);
    var w, m, t := h.worlds[k], h.steps[k], TalkAt(h, c, i, k).session;
    StepOfRun(t, m.input.script, PartyIn(w, w.cards[c], Without(Live(w.view), c)), m.stamp);
  }

  lemma TalkStep(h: History, c: Client, i: nat, k: nat)
    requires Talks(h, c, i, k) && k < |h.steps| && IsOf(h.steps[k], c)
    ensures i < k < |h.worlds| == |h.steps| + 1
    ensures c in h.worlds[k].cards && CardFits(h.worlds[k].cards[c], h.steps[k].input.script)
  {
    hide Live, CardFits, Sound, OpensFor;
    assert Next(h.worlds[k], h.steps[k], h.worlds[k + 1]);
  }
}
