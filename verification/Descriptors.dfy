/** What becomes of the connections that src/chat_server.c accepts: over every run each
    descriptor is that of a live client or has been closed, once. */
module Descriptors {
  import opened Basics
  import opened Framing
  import opened Handlers
  import opened Registry
  import opened Pools
  import opened Servers
  import opened Worlds

  // The descriptors that a log closes, as often as it does.
  function ClosedIn(log: seq<Output>): multiset<int> {
    if log == [] then multiset{}
    else
      var n := |log| - 1;
      ClosedIn(log[..n]) + ClosedBy(log[n])
  }

  function ClosedBy(o: Output): multiset<int> {
    if o.ClosedFd? then multiset{o.fd} else multiset{}
  }

  // The descriptors of some clients.
  function FdsOf(l: seq<Client>, fds: map<Client, int>): multiset<int> {
    if l == [] then multiset{} else multiset{FdOf(fds, l[0])} + FdsOf(l[1..], fds)
  }

  function LiveFds(w: World): multiset<int> {
    FdsOf(Live(w.view), FdsIn(w))
  }

  // The descriptor that a step brings in.
  function Arrives(m: Micro): multiset<int> {
    if m.input.Accepting? && m.input.a.Connection? then multiset{m.input.a.fd} else multiset{}
  }

  // A connection that epoll_ctl does not take although there is room for it.
  predicate IsLost(w: World, m: Micro) {
    m.input.Accepting? && m.input.a.Connection? && !m.input.a.registered && |Live(w.view)| < MAX_CLIENTS
  }

  // Its descriptor, and the one that its chunk holds and that is closed in its place.
  function Lost(w: World, m: Micro): multiset<int> {
    if IsLost(w, m) then multiset{m.input.a.fd} else multiset{}
  }

  function Stale(w: World, m: Micro): multiset<int> {
    if IsLost(w, m) then multiset{m.held.fd} else multiset{}
  }

  lemma Regroup(a: multiset<int>, b: multiset<int>, c: multiset<int>)
    ensures a + (b + c) == a + b + c
  {
  }

  lemma ClosedLast(log: seq<Output>, o: Output)
    ensures ClosedIn(log + [o]) == ClosedIn(log) + ClosedBy(o)
  {
    assert (log + [o])[..|log|] == log;
  }

  lemma {:induction false} ClosedConcat(a: seq<Output>, b: seq<Output>)
    ensures ClosedIn(a + b) == ClosedIn(a) + ClosedIn(b)
    decreases |b|
  {
    if b == [] {
      assert a + b == a;
    } else {
      var n := |b| - 1;
      ClosedConcat(a, b[..n]);
      ClosedLast(b[..n], b[n]);
      ClosedLast(a + b[..n], b[n]);
      hide ClosedIn;
      Associates(a, b[..n], [b[n]]);
      assert b == b[..n] + [b[n]];
      Regroup(ClosedIn(a), ClosedIn(b[..n]), ClosedBy(b[n]));
    }
  }

  lemma {:induction false} OnlyWrites(log: seq<Output>)
    requires forall o <- log :: o.Wrote?
    ensures ClosedIn(log) == multiset{}
  {
    if log != [] {
      assert log[|log| - 1] in log;
      OnlyWrites(log[..|log| - 1]);
    }
  }

  lemma ClosesOne(fd: int)
    ensures ClosedIn([ClosedFd(fd)]) == multiset{fd}
  {
    assert [ClosedFd(fd)][..0] == [];
  }

  lemma ToAllWrites(to: seq<Client>, fds: map<Client, int>, text: seq<char>)
    ensures ClosedIn(ToAll(to, fds, text)) == multiset{}
  {
    ToAllReaches(to, fds, text);
    OnlyWrites(ToAll(to, fds, text));
  }

  lemma GoodbyeCloses(p: Party)
    ensures ClosedIn(Goodbye(p)) == multiset{p.fd}
  {
    hide ToAll, ClosedIn;
    ClosesOne(p.fd);
    if p.name.Some? {
      ToAllWrites(p.others, p.fds, p.name.value + LEFT_MSG);
      ClosedConcat(ToAll(p.others, p.fds, p.name.value + LEFT_MSG), [ClosedFd(p.fd)]);
    } else {
      assert [] + [ClosedFd(p.fd)] == [ClosedFd(p.fd)];
    }
  }

  lemma {:induction false} SameFds(l: seq<Client>, a: map<Client, int>, b: map<Client, int>)
    requires forall c <- l :: FdOf(a, c) == FdOf(b, c)
    ensures FdsOf(l, a) == FdsOf(l, b)
  {
    if l != [] {
      SameFds(l[1..], a, b);
    }
  }

  lemma {:induction false} FdsWithout(l: seq<Client>, c: Client, fds: map<Client, int>)
    requires c in l
    ensures FdsOf(l, fds) == FdsOf(Without(l, c), fds) + multiset{FdOf(fds, c)}
  {
    WithoutHead(l, c);
    hide Without;
    if l[0] != c {
      FdsWithout(l[1..], c, fds);
      FdsHead(l[0], Without(l[1..], c), fds);
    }
  }

  lemma FdsHead(c: Client, l: seq<Client>, fds: map<Client, int>)
    ensures FdsOf([c] + l, fds) == multiset{FdOf(fds, c)} + FdsOf(l, fds)
  {
    assert ([c] + l)[1..] == l;
  }

  // What a handler says before the farewell closes nothing.
  lemma TurnCloses(w: World, c: Client, d: Card, m: Micro)
    requires m.input.Reading? && CardFits(d, m.input.script)
    ensures ClosedIn(ClientSays(w, c, d, m.input.script, m.stamp))
         == if LoopOf(d, m.input.script).outcome == Drained then multiset{} else multiset{d.fd}
  {
    hide Live, Without, ReadLoop, Answers, ToAll, ClosedIn, FoundLine, FirstOf, Goodbye, Truncated, ChatLine;
    var p, script := PartyIn(w, d, Without(Live(w.view), c)), m.input.script;
    GoodbyeCloses(p);
    NothingCloses();
    if d.nameOk {
      var r := LineEvent(LineState(d.buf, d.bufUsed), script);
      var line := EventLine(r);
      var said := LineSaid(p, r.outcome, line, m.stamp);
      ToAllReaches(p.others, p.fds, Truncated(ChatLine(p.buffer, m.stamp, line), MSG_LEN));
      OnlyWrites(said);
      ClosedConcat(said, if r.outcome == Drained then [] else Goodbye(p));
    } else {
      var r := ReadLoop(p.buffer, d.nameUsed, d.nameUsed, script);
      var n := if r.outcome == Drained then AfterName(NameState(r.buf, r.used, false)) else NameState([], 0, false);
      hide AfterName;
      var said := NameSaid(p, r.outcome, n);
      if n.ok {
        ToAllReaches(p.others, p.fds, n.name[..n.used] + ENTERED_MSG);
      }
      OnlyWrites(said);
      ClosedConcat(said, if r.outcome == Drained then [] else Goodbye(p));
    }
  }

  lemma NothingCloses()
    ensures ClosedIn([]) == multiset{}
  {
  }

  // One step: what comes in and what was live is what is closed and what is live, but for a
  // lost connection and the descriptor closed in its place.
  lemma StepConserves(w: World, m: Micro, w': World)
    requires Sound(w) && Next(w, m, w')
    ensures Sound(w')
    ensures Arrives(m) + LiveFds(w) + Stale(w, m) == ClosedIn(Said(w, m)) + LiveFds(w') + Lost(w, m)
  {
    NextSound(w, m, w');
    match m.input
    case Accepting(a) =>
      AcceptConserves(w, m, w');
    case Reading(c, script, now) =>
      ReadConserves(w, m, w', c);
  }

  lemma AcceptConserves(w: World, m: Micro, w': World)
    requires Sound(w) && Sound(w') && Next(w, m, w') && m.input.Accepting?
    ensures Arrives(m) + LiveFds(w) + Stale(w, m) == ClosedIn(Said(w, m)) + LiveFds(w') + Lost(w, m)
  {
    hide Live, Ok, Opened, Chunks, Waiting, Tidy, PageIfNeeded, Goodbye, ClosedIn, FdsOf;
    NothingCloses();
    if m.input.a.Connection? {
      var fd := m.input.a.fd;
      if |Live(w.view)| >= MAX_CLIENTS {
        ClosesOne(fd);
        OnlyWrites([Wrote(fd, LIMIT_CONN_MSG)]);
        ClosedConcat([Wrote(fd, LIMIT_CONN_MSG)], [ClosedFd(fd)]);
        assert Said(w, m) == [Wrote(fd, LIMIT_CONN_MSG)] + [ClosedFd(fd)];
      } else if m.input.a.registered {
        OnlyWrites([Wrote(fd, PROMPT)]);
        OpenAddsFd(w, m, w');
      } else {
        GoodbyeCloses(PartyIn(w, m.held, Live(w.view)));
        ReopenKeepsFds(w, m, w');
      }
    }
  }

  lemma OthersKeepFds(w: World, m: Micro, w': World, l: seq<Client>)
    requires Sound(w) && Next(w, m, w') && forall d <- l :: d in Live(w.view) && !IsOf(m, d)
    ensures FdsOf(l, FdsIn(w)) == FdsOf(l, FdsIn(w'))
  {
    hide Live, Next, FdsOf;
    forall d | d in l
      ensures FdOf(FdsIn(w), d) == FdOf(FdsIn(w'), d)
    {
      OthersStay(w, m, w', d);
    }
    SameFds(l, FdsIn(w), FdsIn(w'));
  }

  lemma OpenAddsFd(w: World, m: Micro, w': World)
    requires Sound(w) && Next(w, m, w') && m.input.Accepting? && m.input.a.Connection?
    requires |Live(w.view)| < MAX_CLIENTS && m.input.a.registered
    ensures LiveFds(w') == LiveFds(w) + multiset{m.input.a.fd}
  {
    OthersKeepFds(w, m, w', Live(w.view));
    NewClient(w.view, m.free);
    PageGiven(w.view, m.free);
    hide Live, Sound, Opened, Chunks, Tidy, PageIfNeeded, FdsOf, Without;
    FdsWithout(Live(w'.view), Opened(w.view, m.free).1.value, FdsIn(w'));
  }

  lemma ReopenKeepsFds(w: World, m: Micro, w': World)
    requires Sound(w) && Next(w, m, w') && IsLost(w, m)
    ensures LiveFds(w') == LiveFds(w)
  {
    hide Live, Sound, FdsOf;
    OthersKeepFds(w, m, w', Live(w.view));
  }

  lemma ReadConserves(w: World, m: Micro, w': World, c: Client)
    requires Sound(w) && Next(w, m, w') && IsOf(m, c)
    ensures LiveFds(w) == ClosedIn(Said(w, m)) + LiveFds(w')
  {
    hide Live, Ok, Chunks, Closed, Waiting, Tidy, TimeOk, LoopOf, CardFits, ClosedIn, ClientSays, FdsOf;
    var d := w.cards[c];
    TurnCloses(w, c, d, m);
    if LoopOf(d, m.input.script).outcome == Drained {
      SameFds(Live(w.view), FdsIn(w), FdsIn(w'));
    } else {
      CloseRemovesFd(w, m, w', c);
    }
  }

  lemma CloseRemovesFd(w: World, m: Micro, w': World, c: Client)
    requires Sound(w) && Next(w, m, w') && IsOf(m, c) && c in Live(w.view) && c in w.cards
    requires w'.view == Closed(w.view, c)
    ensures LiveFds(w) == multiset{w.cards[c].fd} + LiveFds(w')
  {
    OkLiveNoDup(w.view);
    ClosedRemovesOne(w.view, c);
    hide Live, Sound, Next, Closed, Without, FdsOf, NoDup;
    FdsWithout(Live(w.view), c, FdsIn(w));
    WithoutFacts(Live(w.view), c);
    OthersKeepFds(w, m, w', Live(w'.view));
  }

  // The sums over a run.
  ghost function AllArrived(h: History): multiset<int>
    requires |h.worlds| == |h.steps| + 1
    decreases |h.steps|
  {
    if h.steps == [] then multiset{} else AllArrived(Before(h)) + Arrives(h.steps[|h.steps| - 1])
  }

  ghost function AllLost(h: History): multiset<int>
    requires |h.worlds| == |h.steps| + 1
    decreases |h.steps|
  {
    if h.steps == [] then multiset{}
    else AllLost(Before(h)) + Lost(h.worlds[|h.steps| - 1], h.steps[|h.steps| - 1])
  }

  ghost function AllStale(h: History): multiset<int>
    requires |h.worlds| == |h.steps| + 1
    decreases |h.steps|
  {
    if h.steps == [] then multiset{}
    else AllStale(Before(h)) + Stale(h.worlds[|h.steps| - 1], h.steps[|h.steps| - 1])
  }

  // The sums grow with the last step.
  lemma LastAdds(h: History)
    requires |h.worlds| == |h.steps| + 1 && h.steps != []
    ensures var (n, b) := (|h.steps| - 1, Before(h));
      && AllArrived(h) == AllArrived(b) + Arrives(h.steps[n])
      && AllLost(h) == AllLost(b) + Lost(h.worlds[n], h.steps[n])
      && AllStale(h) == AllStale(b) + Stale(h.worlds[n], h.steps[n])
      && ClosedIn(AllSaid(h)) == ClosedIn(AllSaid(b)) + ClosedIn(Said(h.worlds[n], h.steps[n]))
  {
    hide Said, ClosedIn, Arrives, Lost, Stale;
    LastSaid(h);
    ClosedConcat(AllSaid(Before(h)), Said(h.worlds[|h.steps| - 1], h.steps[|h.steps| - 1]));
  }

  lemma NothingYet(h: History)
    requires |h.worlds| == 1 && h.steps == []
    ensures AllArrived(h) == AllLost(h) == AllStale(h) == ClosedIn(AllSaid(h)) == multiset{}
  {
  }

  // What has come in and was live is what has been closed and is live, but for the lost
  // connections and the descriptors closed in their place.
  lemma {:induction false} RunConserves(h: History)
    requires IsHistory(h) && Sound(h.worlds[0])
    ensures Sound(Last(h))
    ensures AllArrived(h) + LiveFds(h.worlds[0]) + AllStale(h) == ClosedIn(AllSaid(h)) + LiveFds(Last(h)) + AllLost(h)
    decreases |h.steps|
  {
    hide Next, Sound, LiveFds, Arrives, Lost, Stale, Said, ClosedIn, AllArrived, AllLost, AllStale, AllSaid;
    if h.steps == [] {
      NothingYet(h);
    } else {
      var n := |h.steps| - 1;
      BeforeIsHistory(h);
      RunConserves(Before(h));
      StepConserves(h.worlds[n], h.steps[n], h.worlds[n + 1]);
      LastAdds(h);
      hide IsHistory;
      AddUp(AllArrived(Before(h)), LiveFds(h.worlds[0]), AllStale(Before(h)), ClosedIn(AllSaid(Before(h))),
            LiveFds(h.worlds[n]), AllLost(Before(h)), Arrives(h.steps[n]), Stale(h.worlds[n], h.steps[n]),
            ClosedIn(Said(h.worlds[n], h.steps[n])), LiveFds(Last(h)), Lost(h.worlds[n], h.steps[n]));
    }
  }

  // Two balances, one after the other.
  lemma AddUp(a: multiset<int>, l: multiset<int>, s: multiset<int>, c: multiset<int>, l': multiset<int>,
              x: multiset<int>, a': multiset<int>, s': multiset<int>, c': multiset<int>, l'': multiset<int>,
              x': multiset<int>)
    requires a + l + s == c + l' + x && a' + l' + s' == c' + l'' + x'
    ensures (a + a') + l + (s + s') == (c + c') + l'' + (x + x')
  {
    forall fd: int
      ensures ((a + a') + l + (s + s'))[fd] == ((c + c') + l'' + (x + x'))[fd]
    {
      assert (a + l + s)[fd] == (c + l' + x)[fd] && (a' + l' + s')[fd] == (c' + l'' + x')[fd];
    }
  }

  // Over every run from an empty server every descriptor that accept4 gave is that of a live
  // client or has been closed, each as often as it was given, and nothing else has been
  // closed, if and only if the connections that epoll_ctl has not taken, if any, had just the
  // descriptors that their chunks hold.
  lemma DescriptorsConservedIff(h: History)
    requires IsHistory(h) && Sound(h.worlds[0]) && Live(h.worlds[0].view) == []
    ensures Sound(Last(h))
    ensures AllArrived(h) == ClosedIn(AllSaid(h)) + LiveFds(Last(h)) <==> AllLost(h) == AllStale(h)
  {
    RunConserves(h);
    NoFds(h.worlds[0]);
    hide *;
    Cancel(AllArrived(h), ClosedIn(AllSaid(h)) + LiveFds(Last(h)), AllStale(h), AllLost(h));
  }

  lemma NoFds(w: World)
    requires Live(w.view) == []
    ensures LiveFds(w) == multiset{}
  {
  }

  lemma Cancel(a: multiset<int>, b: multiset<int>, x: multiset<int>, y: multiset<int>)
    requires a + multiset{} + x == b + y
    ensures a == b <==> y == x
  {
    forall fd: int
      ensures a[fd] + x[fd] == b[fd] + y[fd]
    {
      assert (a + multiset{} + x)[fd] == (b + y)[fd];
    }
    if a == b {
      forall fd: int
        ensures x[fd] == y[fd]
      {
        assert a[fd] + x[fd] == b[fd] + y[fd];
      }
    } else if x == y {
      forall fd: int
        ensures a[fd] == b[fd]
      {
        assert a[fd] + x[fd] == b[fd] + y[fd];
      }
    }
  }

  // So it is while every connection is registered.
  lemma DescriptorsConserved(h: History)
    requires IsHistory(h) && Sound(h.worlds[0]) && Live(h.worlds[0].view) == []
    requires forall m <- h.steps :: m.input.Accepting? && m.input.a.Connection? ==> m.input.a.registered
    ensures AllArrived(h) == ClosedIn(AllSaid(h)) + LiveFds(Last(h))
  {
    NoneLost(h);
    DescriptorsConservedIff(h);
  }

  lemma {:induction false} NoneLost(h: History)
    requires |h.worlds| == |h.steps| + 1
    requires forall m <- h.steps :: m.input.Accepting? && m.input.a.Connection? ==> m.input.a.registered
    ensures AllLost(h) == AllStale(h) == multiset{}
    decreases |h.steps|
  {
    if h.steps != [] {
      hide Live;
      assert h.steps[|h.steps| - 1] in h.steps;
      NoneLost(Before(h));
    }
  }
}
