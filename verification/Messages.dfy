/** What the server of src/chat_server.c says to its clients, step by step and over whole
    runs, in the words of the program. Nothing here looks at how a text is composed. */
module Messages {
  import opened Basics
  import opened Options
  import opened Framing
  import opened ChatText
  import opened Handlers
  import opened Registry
  import opened Pools
  import opened Servers
  import opened Worlds

  // The client that d describes is gone: if it has a name all of the list learn that it has
  // left, and its connection is closed.
  ghost predicate Leaves(said: seq<Output>, d: Card, others: seq<Client>, fds: map<Client, int>) {
    if d.nameOk then
      && 0 <= d.nameUsed <= |d.name| && |said| == |others| + 1 && said[|others|] == ClosedFd(d.fd)
      && EachGets(said[..|others|], others, fds, d.name[..d.nameUsed] + " has left the chat\n")
    else said == [ClosedFd(d.fd)]
  }

  // A client gets its welcome, and all of the list learn its name.
  ghost predicate Introduces(said: seq<Output>, fd: int, name: seq<char>, others: seq<Client>, fds: map<Client, int>) {
    && |said| == 1 + |others| && said[0] == Wrote(fd, "Welcome to the chat, you are known as " + name + "\n")
    && EachGets(said[1..], others, fds, name + " has entered the chat\n")
  }

  // That is all that is said, and only if the name is complete.
  ghost predicate NameSpreads(said: seq<Output>, fd: int, d: Card, others: seq<Client>, fds: map<Client, int>) {
    && 0 <= d.nameUsed <= |d.name|
    && if d.nameOk then Introduces(said, fd, d.name[..d.nameUsed], others, fds) else said == []
  }

  lemma GoodbyeLeaves(w: World, d: Card, others: seq<Client>)
    requires d.nameOk ==> 0 <= d.nameUsed <= |d.name|
    requires forall c <- others :: c in w.cards
    ensures Leaves(Goodbye(PartyIn(w, d, others)), d, others, FdsIn(w))
  {
    hide ToAll, EachGets;
    if d.nameOk {
      var sent := ToAll(others, FdsIn(w), d.name[..d.nameUsed] + LEFT_MSG);
      ToAllReaches(others, FdsIn(w), d.name[..d.nameUsed] + LEFT_MSG);
      ToAllEach(others, FdsIn(w), d.name[..d.nameUsed] + LEFT_MSG);
      assert Goodbye(PartyIn(w, d, others)) == sent + [ClosedFd(d.fd)];
      assert (sent + [ClosedFd(d.fd)])[..|others|] == sent;
    }
  }

  lemma IntroductionIntroduces(w: World, d: Card, name: seq<char>, others: seq<Client>)
    requires forall c <- others :: c in w.cards
    ensures Introduces(Introduction(PartyIn(w, d, others), name), d.fd, name, others, FdsIn(w))
  {
    hide ToAll, EachGets;
    var sent := ToAll(others, FdsIn(w), name + ENTERED_MSG);
    ToAllReaches(others, FdsIn(w), name + ENTERED_MSG);
    ToAllEach(others, FdsIn(w), name + ENTERED_MSG);
    var said := Introduction(PartyIn(w, d, others), name);
    assert said == [Wrote(d.fd, WELCOME_MSG + name + "\n")] + sent;
    assert said[1..] == sent;
  }

  lemma LiveHaveCards(w: World, c: Client)
    requires Sound(w)
    ensures forall d <- Live(w.view) :: d in w.cards
    ensures forall d <- Without(Live(w.view), c) :: d in w.cards
  {
    hide Ok, Live, Without, Tidy, Waiting;
    OkLiveNoDup(w.view);
    WithoutFacts(Live(w.view), c);
  }

  // A result of accept4 that is registered, or finds the server full: the connection is
  // closed if and only if 16368 clients are live. It is told so, or asked for a name.
  lemma AcceptSaid(w: World, m: Micro, w': World, fd: int, page: nat, registered: bool)
    requires Sound(w) && Next(w, m, w') && m.input == Accepting(Connection(fd, page, registered))
    requires registered || |Live(w.view)| == 16368
    ensures ClosedFd(fd) in Said(w, m) <==> |Live(w.view)| == 16368
    ensures |Live(w.view)| == 16368 ==>
      w' == w && Said(w, m) == [Wrote(fd, "Connection limit reached, rejecting client\n"), ClosedFd(fd)]
    ensures |Live(w.view)| != 16368 ==>
      && Said(w, m) == [Wrote(fd, "Your name please (max 29): ")]
      && exists c <- Live(w'.view) :: c !in Live(w.view) && c in w'.cards && w'.cards[c].fd == fd
  {
    hide Live, Ok, Opened, Chunks, Waiting, PageIfNeeded;
    LiveCount16(w.view);
    if |Live(w.view)| < 16368 {
      NewClient(w.view, m.free);
      PageGiven(w.view, m.free);
    }
  }

  lemma LiveCount16(view: seq<PoolView<Client>>)
    requires Ok(view)
    ensures |Live(view)| <= 16368
  {
    LiveCount(view);
  }

  // The end of the connections that wait, and an error of accept4, leave everything as it was.
  lemma NothingAccepted(w: World, m: Micro, w': World)
    requires Next(w, m, w') && (m.input == Accepting(NoMore) || m.input == Accepting(AcceptFailed))
    ensures w' == w && Said(w, m) == []
  {
  }

  // A connection that cannot be registered: the first free chunk is said to leave, in its own
  // words, and nothing else is said.
  lemma UnregisteredSaid(w: World, m: Micro, w': World, c: Client, fd: int, page: nat)
    requires Sound(w) && Next(w, m, w') && |Live(w.view)| < MAX_CLIENTS
    requires m.input == Accepting(Connection(fd, page, false)) && NextChunk(w.view, c) && c in w.cards
    ensures Leaves(Said(w, m), w.cards[c], Live(w.view), FdsIn(w))
  {
    hide Live, Ok, Chunks, PageIfNeeded, Goodbye, Leaves;
    PageGiven(w.view, m.free);
    LiveHaveCards(w, c);
    GoodbyeLeaves(w, w.cards[c], Live(w.view));
  }

  // The session of the client goes on after an event if and only if what it has sent fits its
  // buffer and the loop ends with nothing left to read.
  predicate GoesOn(d: Card, script: seq<ReadResult>) {
    Stop(script) == Again && (if d.nameOk then d.bufUsed else d.nameUsed) + |Concat(DataReads(script))|
                             <= (if d.nameOk then 512 else 32)
  }

  lemma GoesOnIff(w: World, m: Micro, w': World, c: Client)
    requires Sound(w) && Next(w, m, w') && IsOf(m, c) && c in w.cards
    ensures c in Live(w'.view) <==> GoesOn(w.cards[c], m.input.script)
    ensures CardFits(w.cards[c], m.input.script)
    ensures LoopOf(w.cards[c], m.input.script).outcome == Drained <==> GoesOn(w.cards[c], m.input.script)
  {
    hide Live, Ok, Chunks, Closed, TimeOk, AfterReading, LeftBehind, SameBut, ReadLoop, DataReads, Concat, Stop, NameOk;
    var d, script := w.cards[c], m.input.script;
    if d.nameOk {
      LoopEndsBy(d.buf, d.bufUsed, d.bufUsed, script);
    } else {
      LoopEndsBy(d.name, d.nameUsed, d.nameUsed, script);
    }
    ClosedMembers(w.view, c);
  }

  // An event of a client without a name. If it has sent too much it is told; then, or at the
  // end of the stream or an error, its connection is closed and nobody hears of it. If the
  // session goes on and the name is complete, it gets its welcome and all others learn the
  // name; otherwise nothing is said.
  lemma NameEventSaid(w: World, m: Micro, w': World, c: Client)
    requires Sound(w) && Next(w, m, w') && IsOf(m, c) && c in w.cards && !w.cards[c].nameOk
    ensures var (d, script, said) := (w.cards[c], m.input.script, Said(w, m));
      && 0 <= d.nameUsed
      && (d.nameUsed + |Concat(DataReads(script))| > 32 ==>
            said == [Wrote(d.fd, "Name too long! Good bye...\n"), ClosedFd(d.fd)])
      && (d.nameUsed + |Concat(DataReads(script))| <= 32 && Stop(script) != Again ==> said == [ClosedFd(d.fd)])
      && (GoesOn(d, script) ==>
            c in w'.cards && NameSpreads(said, d.fd, w'.cards[c], Without(Live(w.view), c), FdsIn(w)))
  {
    hide Live, Ok, Chunks, Closed, LeftBehind, SameBut, ReadLoop, DataReads, Concat, Stop, NameOk, AfterName, Without;
    hide Introduction, Introduces, Answers;
    var d, script := w.cards[c], m.input.script;
    GoesOnIff(w, m, w', c);
    LoopEndsBy(d.name, d.nameUsed, d.nameUsed, script);
    LiveHaveCards(w, c);
    if GoesOn(d, script) && w'.cards[c].nameOk {
      var name, others := w'.cards[c].name[..w'.cards[c].nameUsed], Without(Live(w.view), c);
      IntroductionIntroduces(w, d, name, others);
      assert Introduction(PartyIn(w, d, others), name) + [] == Introduction(PartyIn(w, d, others), name);
    }
  }

  // The first line of some bytes, with its newline; nothing if there is none.
  function FirstLine(bytes: seq<char>): (line: seq<char>)
    ensures line <= bytes && (line == [] <==> '\n' !in bytes)
    ensures line != [] ==> IsLine(line)
  {
    var pos := FirstOf(bytes, {'\n'});
    if pos == |bytes| then [] else bytes[..pos + 1]
  }

  // What is said is the line of a client, if there is one, to all others, and then that it
  // leaves, if it does.
  ghost predicate LineThenLeaves(said: seq<Output>, d: Card, line: seq<char>, now: Option<int>, stays: bool,
                                 others: seq<Client>, fds: map<Client, int>) {
    var n := if line == [] then 0 else |others|;
    && n <= |said|
    && (line != [] && ShownRight(now) ==> Delivers(said[..n], others, fds, CString(d.name), now, line))
    && (if stays then |said| == n else Leaves(said[n..], d, others, fds))
  }

  // An event of a client that has a name. If it has sent too much it is told; then, or at an
  // error, it leaves. Otherwise the first line of the bytes that wait and those that came goes
  // to all others; at the end of the stream it leaves as well.
  lemma LineEventSaid(w: World, m: Micro, w': World, c: Client)
    requires Sound(w) && Next(w, m, w') && IsOf(m, c) && c in w.cards && w.cards[c].nameOk
    ensures var (d, script, said) := (w.cards[c], m.input.script, Said(w, m));
      var (others, fds) := (Without(Live(w.view), c), FdsIn(w));
      && 0 <= d.bufUsed <= |d.buf|
      && (d.bufUsed + |Concat(DataReads(script))| > 512 ==>
            said != [] && said[0] == Wrote(d.fd, "Line too long! Good bye...\n") && Leaves(said[1..], d, others, fds))
      && (d.bufUsed + |Concat(DataReads(script))| <= 512 && Stop(script) == Failed ==> Leaves(said, d, others, fds))
      && (|DataReads(script)| <= 1 && Stop(script) != Failed ==>
            LineThenLeaves(said, d, FirstLine(d.buf[..d.bufUsed] + Concat(DataReads(script))), m.input.now,
                           GoesOn(d, script), others, fds))
  {
    hide Live, Ok, Chunks, Closed, LeftBehind, SameBut, ReadLoop, DataReads, Concat, Stop, NameOk, AfterLine, Without;
    hide Leaves, Goodbye, LineOut, FoundLine, FirstLine, Delivers, StampOf, LineThenLeaves, Answers, AfterReading;
    var d, script := w.cards[c], m.input.script;
    var others := Without(Live(w.view), c);
    var p := PartyIn(w, d, others);
    GoesOnIff(w, m, w', c);
    LoopEndsBy(d.buf, d.bufUsed, d.bufUsed, script);
    LiveHaveCards(w, c);
    GoodbyeLeaves(w, d, others);
    assert [Wrote(d.fd, TOO_LONG_MSG)] + Goodbye(p) == Said(w, m) ==> Said(w, m)[1..] == Goodbye(p);
    assert [] + Goodbye(p) == Goodbye(p);
    if |DataReads(script)| <= 1 && Stop(script) != Failed {
      OneReadFits(d.buf, d.bufUsed, script);
      LineIsFirst(d, script);
      var line := FirstLine(d.buf[..d.bufUsed] + Concat(DataReads(script)));
      LineSaidThenLeaves(w, c, d, line, m, GoesOn(d, script));
    }
  }

  // A single read asks for no more than the space.
  lemma OneReadFits(buf: seq<char>, used: nat, script: seq<ReadResult>)
    requires used <= |buf| && Answers(script, |buf| - used) && |DataReads(script)| <= 1
    ensures used + |Concat(DataReads(script))| <= |buf|
  {
    TooLongIff(buf, used, used, script);
    TooLongNeedsTwoReads(buf, used, script);
  }

  // The line that the handler finds is the first one of the bytes that wait and those read.
  lemma LineIsFirst(d: Card, script: seq<ReadResult>)
    requires CardFits(d, script) && d.nameOk && |DataReads(script)| <= 1
    ensures LoopOf(d, script).outcome in {Drained, Ended} ==>
      var r := LineEvent(LineState(d.buf, d.bufUsed), script);
      r.used <= |r.buf| && EventLine(r) == FirstLine(d.buf[..d.bufUsed] + Concat(DataReads(script)))
  {
    hide ReadLoop, FirstOf, Answers, DataReads, Concat;
    OneReadFits(d.buf, d.bufUsed, script);
    OneReadKeepsStream(d.buf, d.bufUsed, script);
  }

  lemma LineSaidThenLeaves(w: World, c: Client, d: Card, line: seq<char>, m: Micro, stays: bool)
    requires Sound(w) && c in Live(w.view) && c in w.cards && w.cards[c] == d && d.nameOk
    requires m.input.Reading? && (line != [] ==> |line| <= 512) && StampOf(m.stamp, m.input.now)
    ensures var (others, fds) := (Without(Live(w.view), c), FdsIn(w));
      var p := PartyIn(w, d, others);
      LineThenLeaves(LineOut(line, p.buffer, m.stamp, p.others, p.fds) + if stays then [] else Goodbye(p),
                     d, line, m.input.now, stays, others, fds)
  {
    hide Live, Ok, Without, Goodbye, Leaves, Delivers, StampOf, ShownRight, NameOk, ToAll, ChatLine;
    var others, fds := Without(Live(w.view), c), FdsIn(w);
    var p := PartyIn(w, d, others);
    var news := LineOut(line, p.buffer, m.stamp, others, fds);
    LiveHaveCards(w, c);
    GoodbyeLeaves(w, d, others);
    if line != [] {
      ToAllReaches(others, fds, Truncated(ChatLine(d.name, m.stamp, line), MSG_LEN));
      if ShownRight(m.input.now) {
        LineOutDelivers(line, d.name, d.nameUsed, m.stamp, m.input.now, others, fds);
      }
    }
    var end := if stays then [] else Goodbye(p);
    assert (news + end)[..|news|] == news && (news + end)[|news|..] == end;
  }

  // The bytes that step m brings from the client c.
  function BytesOf(m: Micro, c: Client): seq<char> {
    if IsOf(m, c) then Concat(DataReads(m.input.script)) else []
  }

  // All bytes of the session that step i opens for c, up to world k.
  function Bytes(h: History, c: Client, i: nat, k: nat): seq<char>
    requires i < k <= |h.steps|
    decreases k
  {
    if k == i + 1 then [] else Bytes(h, c, i, k - 1) + BytesOf(h.steps[k - 1], c)
  }

  // What a talk has heard is all that was read, first the name and then the lines.
  ghost predicate Hears(t: Talk, bytes: seq<char>) {
    && t.naming.received + t.session.received == bytes
    && (!t.naming.n.ok ==> t.session.received == [] && t.session.st.used == 0)
  }

  lemma {:induction false} TalkHears(h: History, c: Client, i: nat, k: nat)
    requires Talks(h, c, i, k)
    ensures c in h.worlds[i + 1].cards && Hears(TalkAt(h, c, i, k), Bytes(h, c, i, k))
    decreases k
  {
    hide Next, Sound, Live, Tells, AfterTalk, NewTalk, OpensFor, DataReads, Hears, BytesOf;
    SessionTalks(h, c, i, k);
    if k > i + 1 {
      TalkHears(h, c, i, k - 1);
      SessionTalks(h, c, i, k - 1);
      HistorySound(h, k - 1);
      assert Next(h.worlds[k - 1], h.steps[k - 1], h.worlds[k - 1 + 1]);
      StepHears(h.worlds[k - 1], h.steps[k - 1], h.worlds[k], c, TalkAt(h, c, i, k - 1), Bytes(h, c, i, k - 1));
    } else {
      NewTalkHears(h.worlds[i + 1].cards[c]);
    }
  }

  lemma NewTalkHears(d: Card)
    ensures Hears(NewTalk(d), [])
  {
  }

  lemma StepHears(w: World, m: Micro, w': World, c: Client, t: Talk, bytes: seq<char>)
    requires Sound(w) && Next(w, m, w') && c in Live(w.view) && c in Live(w'.view)
    requires c in w.cards && Tells(w.cards[c], t) && Hears(t, bytes)
    requires IsOf(m, c) ==> |DataReads(m.input.script)| <= 1
    ensures Hears(AfterTalk(t, c, m), bytes + BytesOf(m, c))
  {
    hide Live, Ok, Chunks, Closed, Tidy, Waiting, DataReads, Concat, TimeOk, SameBut, AfterReading, LoopOf, NameOk;
    hide ReadLoop, FirstOf, AfterLine, AfterName, FoundLine, Stop, Named, Accounted;
    if IsOf(m, c) {
      GoesOnIff(w, m, w', c);
      var d, script := w.cards[c], m.input.script;
      if d.nameOk {
        LineGoesOn(d, t, script);
        Associates(t.naming.received, t.session.received, Concat(DataReads(script)));
      } else {
        NameGoesOn(d, t, script);
        assert bytes == t.naming.received;
      }
    } else {
      assert bytes + [] == bytes;
    }
  }

  // The session keeps the descriptor that accept4 gave it.
  lemma {:induction false} SessionKeepsFd(h: History, c: Client, i: nat, k: nat)
    requires Talks(h, c, i, k)
    ensures h.steps[i].input.Accepting? && h.steps[i].input.a.Connection?
    ensures c in h.worlds[k].cards && h.worlds[k].cards[c].fd == h.steps[i].input.a.fd
    decreases k
  {
    hide Sound, Live, Opened, PageIfNeeded, DataReads, AfterReading, LoopOf, CardFits, TimeOk, SameBut;
    if k > i + 1 {
      SessionKeepsFd(h, c, i, k - 1);
      HistorySound(h, k - 1);
      assert Next(h.worlds[k - 1], h.steps[k - 1], h.worlds[k - 1 + 1]);
      FdStays(h.worlds[k - 1], h.steps[k - 1], h.worlds[k], c);
    } else {
      assert Next(h.worlds[i], h.steps[i], h.worlds[i + 1]);
      PageGiven(h.worlds[i].view, h.steps[i].free);
    }
  }

  lemma FdStays(w: World, m: Micro, w': World, c: Client)
    requires Sound(w) && Next(w, m, w') && c in Live(w.view) && c in Live(w'.view) && c in w.cards
    ensures c in w'.cards && w'.cards[c].fd == w.cards[c].fd
  {
    hide Live, Ok, Chunks, Closed, Tidy, Waiting, LoopOf, TimeOk, SameBut, Stop, DataReads, Concat;
    if IsOf(m, c) {
      GoesOnIff(w, m, w', c);
    } else {
      OthersStay(w, m, w', c);
    }
  }

  predicate HasLineEnd(bytes: seq<char>) {
    '\n' in bytes || '\r' in bytes
  }

  // What stands before the first line end.
  function NameIn(bytes: seq<char>): seq<char> {
    bytes[..FirstOf(bytes, {'\n', '\r'})]
  }

  lemma NamedByBytes(s: Naming)
    requires Named(s)
    ensures s.n.ok <==> HasLineEnd(s.received)
    ensures s.n.name[..s.n.used] == NameIn(s.received)
  {
  }

  lemma NameInPrefix(a: seq<char>, b: seq<char>)
    requires HasLineEnd(a)
    ensures HasLineEnd(a + b) && NameIn(a + b) == NameIn(a)
  {
    var stops := {'\n', '\r'};
    var i, j := FirstOf(a, stops), FirstOf(a + b, stops);
    assert i < |a|;
    assert (a + b)[i] == a[i];
    assert j < |a| ==> (a + b)[j] == a[j];
    assert forall x <- a :: x in a + b;
  }

  // What the chunk of a session holds, in terms of the bytes of its client.
  ghost predicate HoldsBytes(d: Card, t: Talk, bytes: seq<char>) {
    && 0 <= d.nameUsed <= |d.name| && 0 <= d.bufUsed <= |d.buf|
    && (d.nameOk <==> HasLineEnd(bytes))
    && (d.nameOk ==> d.name[..d.nameUsed] == NameIn(bytes) && CString(d.name) == CString(NameIn(bytes)))
    && (!d.nameOk ==> d.name[..d.nameUsed] == bytes && d.bufUsed == 0)
    && (d.nameOk ==> exists named :: bytes == named + Concat(t.session.sent) + d.buf[..d.bufUsed] && HasLineEnd(named))
  }

  lemma TellsHolds(d: Card, t: Talk, bytes: seq<char>)
    requires Tells(d, t) && Hears(t, bytes) && Waiting(d)
    ensures HoldsBytes(d, t, bytes)
  {
    hide FirstOf, CString;
    NamedByBytes(t.naming);
    if d.nameOk {
      NameInPrefix(t.naming.received, t.session.received);
      SameCString(d.name, d.nameUsed);
      Associates(t.naming.received, Concat(t.session.sent), d.buf[..d.bufUsed]);
    } else {
      assert t.naming.received + [] == t.naming.received;
      NoLineEnd(t.naming);
    }
  }

  lemma NoLineEnd(s: Naming)
    requires Named(s) && !s.n.ok
    ensures s.n.name[..s.n.used] == s.received
  {
  }

  // A terminator further back does not matter.
  lemma SameCString(s: seq<char>, n: nat)
    requires n < |s| && s[n] == '\0'
    ensures CString(s) == CString(s[..n])
  {
    var a, b := CString(s), CString(s[..n]);
    hide CString;
    assert |a| <= n;
    assert a <= s[..n] && b <= s;
  }

  lemma CardHolds(h: History, c: Client, i: nat, k: nat)
    requires Talks(h, c, i, k)
    ensures i < k < |h.worlds| == |h.steps| + 1
    ensures c in h.worlds[i + 1].cards && c in h.worlds[k].cards && Sound(h.worlds[k]) && c in Live(h.worlds[k].view)
    ensures HoldsBytes(h.worlds[k].cards[c], TalkAt(h, c, i, k), Bytes(h, c, i, k))
  {
    hide Next, Live, Tells, OpensFor, DataReads, Hears, HoldsBytes, Tidy, Waiting, Ok;
    SessionTalks(h, c, i, k);
    TalkHears(h, c, i, k);
    HistorySound(h, k);
    TellsHolds(h.worlds[k].cards[c], TalkAt(h, c, i, k), Bytes(h, c, i, k));
  }

  lemma TalkGoesFurther(h: History, c: Client, i: nat, k: nat)
    requires Talks(h, c, i, k) && k < |h.steps|
    ensures k < |h.worlds| - 1 && Next(h.worlds[k], h.steps[k], h.worlds[k + 1])
    ensures c in Live(h.worlds[k + 1].view) && (IsOf(h.steps[k], c) ==> |DataReads(h.steps[k].input.script)| <= 1) ==>
      Talks(h, c, i, k + 1) && Bytes(h, c, i, k + 1) == Bytes(h, c, i, k) + BytesOf(h.steps[k], c)
  {
    hide Next, Sound, Live, OpensFor, DataReads, BytesOf;
  }

  lemma StaysAsRead(w: World, m: Micro, w': World, c: Client)
    requires Sound(w) && Next(w, m, w') && IsOf(m, c) && c in w.cards && c in Live(w'.view)
    ensures CardFits(w.cards[c], m.input.script) && LoopOf(w.cards[c], m.input.script).outcome == Drained
    ensures c in w'.cards && w'.cards[c] == AfterReading(w.cards[c], m.input.script)
  {
    hide Live, Ok, Chunks, Closed, AfterReading, LoopOf, CardFits, Stop, SameBut, TimeOk;
    GoesOnIff(w, m, w', c);
  }

  lemma NameStepTold(w: World, m: Micro, w': World, c: Client, all: seq<char>)
    requires Sound(w) && Next(w, m, w') && IsOf(m, c) && c in w.cards && !w.cards[c].nameOk
    requires |DataReads(m.input.script)| <= 1
    requires c in Live(w'.view) && c in w'.cards && 0 <= w'.cards[c].nameUsed <= |w'.cards[c].name| ==>
      && (w'.cards[c].nameOk <==> HasLineEnd(all))
      && (w'.cards[c].nameOk ==> w'.cards[c].name[..w'.cards[c].nameUsed] == NameIn(all))
    ensures var (d, said) := (w.cards[c], Said(w, m));
      && (c in Live(w'.view) <==> Stop(m.input.script) == Again)
      && (c in Live(w'.view) ==> c in w'.cards && w'.cards[c].bufUsed == d.bufUsed)
      && if c !in Live(w'.view) then said == [ClosedFd(d.fd)]
         else if HasLineEnd(all) then Introduces(said, d.fd, NameIn(all), Without(Live(w.view), c), FdsIn(w))
         else said == []
  {
    hide Live, Said, DataReads, Concat, Introduces, Stop, Without, NameIn, Next, Ok, Answers, Chunks;
    var d := w.cards[c];
    GoesOnIff(w, m, w', c);
    OneReadFits(d.name, d.nameUsed, m.input.script);
    NameEventSaid(w, m, w', c);
    if c in Live(w'.view) {
      StaysAsRead(w, m, w', c);
    }
  }

  // Over every run of the server: what the next event of a session says that has no name yet,
  // if no event of it brings more than one data read. all are the bytes that the client has
  // sent in the session. If the session goes on, there is a welcome to the client, and news to
  // each of the others, as soon as a line end has come, with what stands before it for a name;
  // and nothing before. At its end the connection is closed, which nobody hears of.
  lemma NameTold(h: History, c: Client, i: nat, k: nat)
    requires Talks(h, c, i, k) && k < |h.steps| && IsOf(h.steps[k], c) && |DataReads(h.steps[k].input.script)| <= 1
    requires !HasLineEnd(Bytes(h, c, i, k)) && h.steps[i].input.Accepting? && h.steps[i].input.a.Connection?
    ensures var all := Bytes(h, c, i, k) + BytesOf(h.steps[k], c);
      var (w, fd, said) := (h.worlds[k], h.steps[i].input.a.fd, Said(h.worlds[k], h.steps[k]));
      && (c in Live(h.worlds[k + 1].view) <==> Stop(h.steps[k].input.script) == Again)
      && (c in Live(h.worlds[k + 1].view) ==> c in h.worlds[k + 1].cards && h.worlds[k + 1].cards[c].bufUsed == 0)
      && (if c !in Live(h.worlds[k + 1].view) then said == [ClosedFd(fd)]
          else if HasLineEnd(all) then Introduces(said, fd, NameIn(all), Without(Live(w.view), c), FdsIn(w))
          else said == [])
  {
    hide Live, Sound, Said, DataReads, Introduces, Stop, Without, NameIn, Next, Talks, BytesOf, CString, Bytes;
    hide HasLineEnd;
    CardHolds(h, c, i, k);
    SessionKeepsFd(h, c, i, k);
    TalkGoesFurther(h, c, i, k);
    if c in Live(h.worlds[k + 1].view) {
      CardHolds(h, c, i, k + 1);
    }
    NameStepTold(h.worlds[k], h.steps[k], h.worlds[k + 1], c, Bytes(h, c, i, k) + BytesOf(h.steps[k], c));
  }

  // The bytes that waited and those that came are the line and the bytes that wait then.
  ghost predicate TakesLine(d: Card, d': Card, bytes: seq<char>) {
    && 0 <= d.bufUsed <= |d.buf| && 0 <= d'.bufUsed <= |d'.buf|
    && var all := d.buf[..d.bufUsed] + bytes;
       all == FirstLine(all) + d'.buf[..d'.bufUsed]
  }

  lemma LineStepTold(w: World, m: Micro, w': World, c: Client)
    requires Sound(w) && Next(w, m, w') && IsOf(m, c) && c in w.cards && w.cards[c].nameOk
    requires |DataReads(m.input.script)| <= 1
    ensures var (d, said, others, fds) := (w.cards[c], Said(w, m), Without(Live(w.view), c), FdsIn(w));
      && 0 <= d.bufUsed <= |d.buf|
      && (c in Live(w'.view) <==> Stop(m.input.script) == Again)
      && (if Stop(m.input.script) == Failed then Leaves(said, d, others, fds)
          else LineThenLeaves(said, d, FirstLine(d.buf[..d.bufUsed] + BytesOf(m, c)), m.input.now,
                              c in Live(w'.view), others, fds))
      && (c in Live(w'.view) ==> c in w'.cards && TakesLine(d, w'.cards[c], BytesOf(m, c)))
  {
    hide Live, Said, DataReads, Concat, Stop, Without, LineThenLeaves, Leaves, Next, Ok, Answers, Chunks, FirstLine;
    hide AfterReading;
    var d := w.cards[c];
    GoesOnIff(w, m, w', c);
    OneReadFits(d.buf, d.bufUsed, m.input.script);
    LineEventSaid(w, m, w', c);
    if c in Live(w'.view) {
      StaysAsRead(w, m, w', c);
      LineTaken(d, m.input.script);
    }
  }

  // The line is taken off the front of the bytes that wait.
  lemma LineTaken(d: Card, script: seq<ReadResult>)
    requires CardFits(d, script) && d.nameOk && |DataReads(script)| <= 1 && LoopOf(d, script).outcome == Drained
    ensures var (d', all) := (AfterReading(d, script), d.buf[..d.bufUsed] + Concat(DataReads(script)));
      0 <= d'.bufUsed <= |d'.buf| && FirstLine(all) + d'.buf[..d'.bufUsed] == all
  {
    hide ReadLoop, FirstLine, FoundLine, AfterLine, Answers, DataReads, Concat;
    OneReadFits(d.buf, d.bufUsed, script);
    OneReadKeepsStream(d.buf, d.bufUsed, script);
    LineIsFirst(d, script);
  }

  // The same once a line end has come. The name is what stands before the first one, and rest
  // are the bytes behind it that wait: all bytes are those up to the event that brought the
  // name, the lines sent since, and rest. The first line of rest and what has come with the
  // event, if there is one, goes to each of the others in one text, which conveys the name up
  // to its terminator, the time of day in Moscow and exactly that line. At the end of the
  // session each of the others learns the name of who has left, and the connection is closed.
  lemma LineTold(h: History, c: Client, i: nat, k: nat)
    requires Talks(h, c, i, k) && k < |h.steps| && IsOf(h.steps[k], c) && |DataReads(h.steps[k].input.script)| <= 1
    requires HasLineEnd(Bytes(h, c, i, k)) && h.steps[i].input.Accepting? && h.steps[i].input.a.Connection?
    ensures c in h.worlds[i + 1].cards && c in h.worlds[k].cards
    ensures var (w, d, said) := (h.worlds[k], h.worlds[k].cards[c], Said(h.worlds[k], h.steps[k]));
      && d.fd == h.steps[i].input.a.fd && d.nameOk
      && HoldsBytes(d, TalkAt(h, c, i, k), Bytes(h, c, i, k))
      && (c in Live(h.worlds[k + 1].view) <==> Stop(h.steps[k].input.script) == Again)
      && (var (others, fds) := (Without(Live(w.view), c), FdsIn(w));
          if Stop(h.steps[k].input.script) == Failed then Leaves(said, d, others, fds)
          else LineThenLeaves(said, d, FirstLine(d.buf[..d.bufUsed] + BytesOf(h.steps[k], c)), h.steps[k].input.now,
                              c in Live(h.worlds[k + 1].view), others, fds))
      && (c in Live(h.worlds[k + 1].view) ==>
            c in h.worlds[k + 1].cards && TakesLine(d, h.worlds[k + 1].cards[c], BytesOf(h.steps[k], c)))
  {
    hide Live, Sound, Said, DataReads, Stop, Without, LineThenLeaves, Leaves, Next, Talks, CString, Bytes, FirstLine;
    hide TakesLine, BytesOf;
    CardHolds(h, c, i, k);
    SessionKeepsFd(h, c, i, k);
    TalkGoesFurther(h, c, i, k);
    LineStepTold(h.worlds[k], h.steps[k], h.worlds[k + 1], c);
  }
}
