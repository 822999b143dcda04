/** The event handlers of src/chat_server.c. What the kernel answers is given as a script
    for each event. */
module Handlers {
  import opened Options
  import opened Sizes
  import opened Bits
  import opened Memory
  import opened Calendar
  import opened Time
  import opened TimeText
  import opened Framing
  import opened ChatText
  import opened Registry
  import opened Pools
  import CP = ClientPools
  import opened Servers

  // What sys_read stores.
  method Store(mem: array<char>, at: nat, bytes: seq<char>)
    requires at + |bytes| <= mem.Length
    modifies mem
    ensures mem[..] == Put(old(mem[..]), at, bytes)
  {
    forall j | 0 <= j < |bytes| {
      mem[at + j] := bytes[j];
    }
  }

  lemma ScriptStep(buf: seq<char>, at: nat, used: nat, script: seq<ReadResult>)
    requires at <= |buf| && Answers(script, |buf| - at) && script != []
    ensures script[0].Data? || script[0].Interrupted? ==> Answers(script[1..], |buf| - at)
    ensures script[0].Interrupted? ==> ReadLoop(buf, at, used, script) == ReadLoop(buf, at, used, script[1..])
    ensures script[0].Data? ==>
      && at + |script[0].bytes| <= |buf|
      && ReadLoop(buf, at, used, script) ==
         var buf', used' := Put(buf, at, script[0].bytes), used + |script[0].bytes|;
         if used' > |buf| then ReadState(buf', used', TooLong) else ReadLoop(buf', at, used', script[1..])
    ensures script[0].Again? ==> ReadLoop(buf, at, used, script) == ReadState(buf, used, Drained)
    ensures script[0].Failed? ==> ReadLoop(buf, at, used, script) == ReadState(buf, used, Broken)
    ensures script[0].Eof? ==> ReadLoop(buf, at, used, script) == ReadState(buf, used, Ended)
  {
    assert forall i :: 0 <= i < |script| - 1 ==> script[1..][i] == script[i + 1];
  }

  // The loop of session_line_read.
  method FillLine(c: Client, script: seq<ReadResult>) returns (o: Outcome)
    requires 0 <= c.bufUsed <= c.buf.Length == MAX_LINE_LEN && Answers(script, MAX_LINE_LEN - c.bufUsed)
    modifies c`bufUsed, c.buf
    ensures c.bufUsed >= 0
    ensures ReadState(c.buf[..], c.bufUsed, o) == old(ReadLoop(c.buf[..], c.bufUsed, c.bufUsed, script))
  {
    hide ReadLoop, Put, Answers;
    var bufp := c.bufUsed;
    var k := 0;
    assert script[k..] == script;
    while k < |script|
      invariant 0 <= k <= |script| && 0 <= c.bufUsed <= MAX_LINE_LEN
      invariant Answers(script[k..], MAX_LINE_LEN - bufp)
      invariant ReadLoop(c.buf[..], bufp, c.bufUsed, script[k..])
             == old(ReadLoop(c.buf[..], c.bufUsed, c.bufUsed, script))
    {
      ScriptStep(c.buf[..], bufp, c.bufUsed, script[k..]);
      assert script[k..][1..] == script[k + 1..];
      match script[k] {
      case Again => return Drained;
      case Interrupted =>
      case Failed => return Broken;
      case Eof => return Ended;
      case Data(bytes) =>
        Store(c.buf, bufp, bytes);
        c.bufUsed := c.bufUsed + |bytes|;
        if c.bufUsed > MAX_LINE_LEN {
          return TooLong;
        }
      }
      k := k + 1;
    }
    assert script[k..] == [];
    NothingToRead(c.buf[..], bufp, c.bufUsed);
    return Drained;
  }

  lemma NothingToRead(buf: seq<char>, at: nat, used: nat)
    requires at <= |buf| && Answers([], |buf| - at)
    ensures ReadLoop(buf, at, used, []) == ReadState(buf, used, Drained)
  {
  }

  // The loop of session_name_read.
  method FillName(c: Client, script: seq<ReadResult>) returns (o: Outcome)
    requires 0 <= c.nameUsed <= c.name.Length == MAX_NAME_LEN && Answers(script, MAX_NAME_LEN - c.nameUsed)
    modifies c`nameUsed, c.name
    ensures c.nameUsed >= 0
    ensures ReadState(c.name[..], c.nameUsed, o) == old(ReadLoop(c.name[..], c.nameUsed, c.nameUsed, script))
  {
    hide ReadLoop, Put, Answers;
    var bufn := c.nameUsed;
    var k := 0;
    assert script[k..] == script;
    while k < |script|
      invariant 0 <= k <= |script| && 0 <= c.nameUsed <= MAX_NAME_LEN
      invariant Answers(script[k..], MAX_NAME_LEN - bufn)
      invariant ReadLoop(c.name[..], bufn, c.nameUsed, script[k..])
             == old(ReadLoop(c.name[..], c.nameUsed, c.nameUsed, script))
    {
      ScriptStep(c.name[..], bufn, c.nameUsed, script[k..]);
      assert script[k..][1..] == script[k + 1..];
      match script[k] {
      case Again => return Drained;
      case Interrupted =>
      case Failed => return Broken;
      case Eof => return Ended;
      case Data(bytes) =>
        Store(c.name, bufn, bytes);
        c.nameUsed := c.nameUsed + |bytes|;
        if c.nameUsed > MAX_NAME_LEN {
          return TooLong;
        }
      }
      k := k + 1;
    }
    assert script[k..] == [];
    NothingToRead(c.name[..], bufn, c.nameUsed);
    return Drained;
  }

  // The loop that ends the name at its first line end.
  method EndName(c: Client)
    requires 0 <= c.nameUsed <= c.name.Length && !c.nameOk
    modifies c`nameUsed, c`nameOk, c.name
    ensures c.nameUsed >= 0
    ensures NameState(c.name[..], c.nameUsed, c.nameOk) == old(AfterName(NameState(c.name[..], c.nameUsed, false)))
  {
    ghost var before := c.name[..c.nameUsed];
    var n := 0;
    while n < c.nameUsed
      invariant 0 <= n
      invariant !c.nameOk ==> n <= c.nameUsed == old(c.nameUsed) && c.name[..] == old(c.name[..])
      invariant !c.nameOk ==> forall j :: 0 <= j < n ==> before[j] != '\n' && before[j] != '\r'
      invariant c.nameOk ==> 0 <= c.nameUsed < n && c.nameUsed == FirstOf(before, LINE_ENDS) < |before|
      invariant c.nameOk ==> c.name[..] == old(c.name[..])[c.nameUsed := '\0']
      decreases c.name.Length - n
    {
      if c.name[n] == '\n' || c.name[n] == '\r' {
        FirstIsAt(before, LINE_ENDS, n);
        c.name[n] := '\0';
        c.nameOk := true;
        c.nameUsed := n;
      }
      n := n + 1;
    }
    if !c.nameOk {
      NoneIn(before, LINE_ENDS);
    }
  }

  lemma FirstIsAt(s: seq<char>, stops: set<char>, n: nat)
    requires n < |s| && s[n] in stops && forall j :: 0 <= j < n ==> s[j] !in stops
    ensures FirstOf(s, stops) == n
  {
  }

  lemma NoneIn(s: seq<char>, stops: set<char>)
    requires forall j :: 0 <= j < |s| ==> s[j] !in stops
    ensures FirstOf(s, stops) == |s|
  {
  }

  // Appends a part to the n bytes already written, as far as the buffer has room for it.
  method AppendPart(msg: array<char>, n: nat, part: seq<char>, ghost m: seq<char>, ghost out: seq<char>)
    returns (n': nat)
    requires |m| == msg.Length < U64 && n == |out| <= msg.Length
    requires msg[..] == Put(m, 0, out)
    modifies msg
    ensures n' == |Truncated(out + part, msg.Length)| && msg[..] == Put(m, 0, Truncated(out + part, msg.Length))
  {
    hide Put;
    var l := StringInSlice(msg, SliceLeft(Slice(0, msg.Length, msg.Length), n), part);
    assert out + part[..l] == Truncated(out + part, msg.Length);
    PutPut(m, 0, out, part[..l]);
    n' := n + l;
  }

  // The length of a complete name.
  method NameLength(name: array<char>, ghost used: nat) returns (n: nat)
    requires name.Length == MAX_NAME_LEN && NameOk(name[..], used)
    ensures n <= name.Length && name[..n] == CString(name[..])
  {
    assert name[..][used] == '\0';
    assert used < 0x8000_0000 && name[used] == '\0';
    n := CStrlen(name);
    FirstIsAt(name[..], {'\0'}, n);
    assert name[..][..n] == name[..n];
  }

  // The name and the time of a chat line.
  method ComposeHead(msg: array<char>, name: array<char>, ghost used: nat, clock: Option<Tm>) returns (i: nat)
    requires msg.Length == MSG_LEN && name.Length == MAX_NAME_LEN && NameOk(name[..], used) && msg != name
    requires clock.Some? ==> SmallFields(clock.value)
    modifies msg
    ensures i == |ChatHead(name[..], clock)| <= MSG_LEN && name[..] == old(name[..])
    ensures msg[..] == Put(old(msg[..]), 0, ChatHead(name[..], clock))
  {
    hide Put, Join, NameOk, ClockPieces, CString, FirstOf, SmallFields;
    ChatHeadFits(name[..], used, clock);
    var n := NameLength(name, used);
    ghost var m := msg[..];
    PutNothing(m, 0);
    i := AppendPart(msg, 0, name[..n], m, []);
    ghost var out := name[..n];
    assert [] + out == out;
    if clock.None? {
      i := AppendPart(msg, i, ": ", m, out);
      return;
    }
    i := AppendPart(msg, i, " (", m, out);
    out := out + " (";
    var k := TmInSlice2(msg, SliceLeft(Slice(0, MSG_LEN, MSG_LEN), i), clock.value);
    ghost var t := Join(ClockPieces(clock.value));
    PutPut(m, 0, out, t);
    out := out + t;
    i := i + k;
    i := AppendPart(msg, i, "): ", m, out);
  }

  /** The message that check_line_and_send composes, on a buffer of 561 bytes. */
  method ComposeChat(name: array<char>, ghost used: nat, clock: Option<Tm>, line: seq<char>) returns (text: seq<char>)
    requires name.Length == MAX_NAME_LEN && NameOk(name[..], used)
    requires clock.Some? ==> SmallFields(clock.value)
    ensures text == Truncated(ChatLine(name[..], clock, line), MSG_LEN)
  {
    hide Put, NameOk, ChatHead, SmallFields;
    var msg := new char[MSG_LEN];
    ghost var m := msg[..];
    ghost var head := ChatHead(name[..], clock);
    var i := ComposeHead(msg, name, used, clock);
    i := AppendPart(msg, i, line, m, head);
    PutReads(m, 0, Truncated(head + line, MSG_LEN));
    text := msg[..i];
    assert text == msg[..][..i];
  }

  // A client between two events: its counters are in range, its name is complete if it
  // says so.
  ghost predicate Ready(c: Client)
    reads c`bufUsed, c`nameUsed, c`nameOk, c.name
  {
    && c.buf.Length == MAX_LINE_LEN && c.name.Length == MAX_NAME_LEN && c.buf != c.name
    && 0 <= c.bufUsed <= MAX_LINE_LEN
    && 0 <= c.nameUsed <= MAX_NAME_LEN
    && (c.nameOk ==> NameOk(c.name[..], c.nameUsed))
  }

  // What the others see of a line, if there is one.
  function LineOut(line: seq<char>, name: seq<char>, stamp: Option<Tm>, others: seq<Client>,
                   fds: map<Client, int>): seq<Output> {
    if line == [] then [] else ToAll(others, fds, Truncated(ChatLine(name, stamp, line), MSG_LEN))
  }

  // A second for which the sums of time_to_tm do not overflow.
  predicate ClockOk(now: Option<int>) {
    now.Some? ==> MIN_INT64 <= now.value && now.value + SHIFT <= MAX_INT64
  }

  // stamp is the time that now gives, if the clock could be read.
  ghost predicate StampOf(stamp: Option<Tm>, now: Option<int>) {
    && (stamp.Some? <==> now.Some?)
    && (now.Some? ==> ShowsClock(stamp.value, now.value))
    && (now.Some? && 0 <= now.value + SHIFT <= LAST ==> IsTmOf(stamp.value, now.value))
  }

  lemma NoLineLeaves(st: LineState)
    requires st.used <= |st.buf| && FoundLine(st) == []
    ensures AfterLine(st) == st
  {
  }

  // Each client of the list gets the text once, at its descriptor and in its place.
  ghost predicate EachGets(said: seq<Output>, to: seq<Client>, fds: map<Client, int>, text: seq<char>) {
    |said| == |to| && forall i :: 0 <= i < |to| ==> to[i] in fds && said[i] == Wrote(fds[to[i]], text)
  }

  // Each client of the list gets one text, from which it learns the name, the time and the line.
  ghost predicate Delivers(said: seq<Output>, to: seq<Client>, fds: map<Client, int>, name: seq<char>,
                           now: Option<int>, line: seq<char>) {
    exists text :: EachGets(said, to, fds, text) && Conveys(text, name, now, line)
  }

  lemma ToAllEach(to: seq<Client>, fds: map<Client, int>, text: seq<char>)
    requires forall c <- to :: c in fds
    ensures EachGets(ToAll(to, fds, text), to, fds, text)
  {
    ToAllReaches(to, fds, text);
  }

  lemma LineOutDelivers(line: seq<char>, name: seq<char>, used: nat, stamp: Option<Tm>, now: Option<int>,
                        to: seq<Client>, fds: map<Client, int>)
    requires line != [] && |line| <= MAX_LINE_LEN && |name| == MAX_NAME_LEN && NameOk(name, used)
    requires StampOf(stamp, now) && ShownRight(now) && forall c <- to :: c in fds
    ensures Delivers(LineOut(line, name, stamp, to, fds), to, fds, CString(name), now, line)
  {
    hide ToAll, EachGets, Conveys, ChatLine, NameOk, ShowsClock, CString;
    ChatConveys(name, stamp, now, line);
    ChatLineFits(name, used, stamp, line);
    ToAllEach(to, fds, ChatLine(name, stamp, line));
  }

  // sys_clock_gettime and time_to_tm.
  method ReadClock(now: Option<int>) returns (clock: Option<Tm>)
    requires ClockOk(now)
    ensures StampOf(clock, now) && (clock.Some? ==> SmallFields(clock.value))
  {
    clock := None;
    if now.Some? {
      var tm := TimeToTm(now.value);
      clock := Some(tm);
    }
  }

  // The bytes of a client that wait for the end of their line.
  ghost function LineOf(c: Client): LineState
    reads c`bufUsed, c.buf
  {
    LineState(c.buf[..], if c.bufUsed < 0 then 0 else c.bufUsed)
  }

  // The search for the newline.
  method FindLine(c: Client) returns (pos: int)
    requires 0 <= c.bufUsed <= c.buf.Length
    ensures pos == -1 ==> FoundLine(LineOf(c)) == []
    ensures pos != -1 ==> 0 <= pos < c.bufUsed && FoundLine(LineOf(c)) == c.buf[..pos + 1]
  {
    ghost var all := c.buf[..c.bufUsed];
    assert c.buf[..][..c.bufUsed] == all;
    for i := 0 to c.bufUsed
      invariant forall j :: 0 <= j < i ==> all[j] != '\n'
    {
      if c.buf[i] == '\n' {
        FirstIsAt(all, {'\n'}, i);
        assert c.buf[..][..i + 1] == c.buf[..i + 1];
        return i;
      }
    }
    NoneIn(all, {'\n'});
    return -1;
  }

  // The chunk is aligned, and buf is its third field.
  const BUF_ADDRESS := 8

  // The memmove that takes the line out of the buffer.
  method DropLine(c: Client, pos: int)
    requires 0 <= pos < c.bufUsed <= c.buf.Length
    requires FoundLine(LineOf(c)) == c.buf[..pos + 1]
    modifies c`bufUsed, c.buf
    ensures c.bufUsed >= 0
    ensures LineOf(c) == AfterLine(old(LineOf(c)))
  {
    hide Moved, FoundLine;
    c.bufUsed := c.bufUsed - (pos + 1);
    ghost var copied := MemCpy(c.buf, BUF_ADDRESS, 0, pos + 1, c.bufUsed);
  }

  // What is added to a log tells the line to all the others, if there is one.
  ghost predicate Told(log: seq<Output>, log': seq<Output>, line: seq<char>, name: seq<char>, now: Option<int>,
                       others: seq<Client>, fds: map<Client, int>) {
    && log <= log'
    && (line == [] ==> log' == log)
    && (line != [] && ShownRight(now) ==> Delivers(log'[|log|..], others, fds, CString(name), now, line))
  }

  lemma LineIsTold(log: seq<Output>, line: seq<char>, name: seq<char>, used: nat, stamp: Option<Tm>, now: Option<int>,
                   others: seq<Client>, fds: map<Client, int>)
    requires |line| <= MAX_LINE_LEN && |name| == MAX_NAME_LEN && NameOk(name, used)
    requires StampOf(stamp, now) && forall c <- others :: c in fds
    ensures Told(log, log + LineOut(line, name, stamp, others, fds), line, name, now, others, fds)
  {
    hide NameOk, StampOf, Delivers, ShownRight;
    var said := LineOut(line, name, stamp, others, fds);
    assert (log + said)[|log|..] == said;
    if line != [] && ShownRight(now) {
      LineOutDelivers(line, name, used, stamp, now, others, fds);
    }
  }

  lemma NoLineTold(log: seq<Output>, name: seq<char>, stamp: Option<Tm>, now: Option<int>,
                   others: seq<Client>, fds: map<Client, int>)
    ensures log + LineOut([], name, stamp, others, fds) == log && Told(log, log, [], name, now, others, fds)
  {
  }

  lemma OthersAreChunks(s: Server, c: Client)
    requires s.Valid()
    ensures forall d <- Without(Live(s.view), c) :: d in s.Fds()
  {
    hide Live, Without, Ok, CP.Buffers;
    s.ArrayFits();
    OkLiveNoDup(s.view);
    WithoutFacts(Live(s.view), c);
    forall d | d in Live(s.view)
      ensures d in Chunks(s.view)
    {
      s.ChunkOf(d);
    }
  }

  // Composes the message and sends it to all others.
  method SendLine(s: Server, c: Client, clock: Option<Tm>, line: seq<char>, ghost now: Option<int>)
    requires s.Valid() && Ready(c) && c.nameOk && line != [] && |line| <= MAX_LINE_LEN
    requires StampOf(clock, now) && (clock.Some? ==> SmallFields(clock.value))
    modifies s`log
    ensures s.log == old(s.log) + LineOut(line, c.name[..], clock, old(Without(Live(s.view), c)), old(s.Fds()))
    ensures Told(old(s.log), s.log, line, c.name[..], now, old(Without(Live(s.view), c)), old(s.Fds()))
  {
    hide Live, Without, ToAll, ChatLine, Truncated, StampOf, NameOk, Ok, CP.Buffers, Elems, Told;
    OthersAreChunks(s, c);
    LineIsTold(s.log, line, c.name[..], c.nameUsed, clock, now, Without(Live(s.view), c), s.Fds());
    var msg := ComposeChat(c.name, c.nameUsed, clock, line);
    s.FdsSame();
    s.SendAll(msg, c);
  }

  /** check_line_and_send: the first line in the buffer goes to all others, who learn from
      the text who has said it, when, and what; and what is behind it moves to the front. */
  method CheckLineAndSend(s: Server, c: Client, now: Option<int>) returns (ghost stamp: Option<Tm>)
    requires s.Valid() && Ready(c) && c.nameOk
    requires ClockOk(now)
    modifies s`log, c`bufUsed, c.buf
    ensures Ready(c) && StampOf(stamp, now)
    ensures LineOf(c) == AfterLine(old(LineOf(c)))
    ensures s.log == old(s.log) + LineOut(FoundLine(old(LineOf(c))), old(c.name[..]), stamp,
                                          old(Without(Live(s.view), c)), old(s.Fds()))
    ensures Told(old(s.log), s.log, FoundLine(old(LineOf(c))), old(c.name[..]), now,
                 old(Without(Live(s.view), c)), old(s.Fds()))
  {
    hide Live, Without, StampOf, FoundLine, AfterLine, NameOk, Told, LineOut, Servers.Server.Valid, Servers.Server.Fds;
    ghost var line, log, name := FoundLine(LineOf(c)), s.log, c.name[..];
    ghost var others, fds := Without(Live(s.view), c), s.Fds();
    var clock := ReadClock(now);
    stamp := clock;
    var pos := FindLine(c);
    if pos == -1 {
      NoLineLeaves(LineOf(c));
      NoLineTold(log, name, stamp, now, others, fds);
      return;
    }
    s.Undisturbed();
    SendLine(s, c, clock, c.buf[..pos + 1], now);
    DropLine(c, pos);
  }

  const TOO_LONG_MSG := "Line too long! Good bye...\n"
  const TOO_LONG_NAME := "Name too long! Good bye...\n"
  const WELCOME_MSG := "Welcome to the chat, you are known as "
  const ENTERED_MSG := " has entered the chat\n"

  // A client as a handler finds it: its descriptor, its name buffer, its name if it has
  // one, and everyone else with their descriptors.
  datatype Party = Party(fd: int, buffer: seq<char>, name: Option<seq<char>>, others: seq<Client>,
                         fds: map<Client, int>)

  ghost function PartyOf(s: Server, c: Client): Party
    requires c.NameFits()
    reads s`view, Chunks(s.view)`fd, c`fd, c`nameOk, c`nameUsed, c.name
  {
    Party(c.fd, c.name[..], if c.nameOk then Some(c.name[..c.nameUsed]) else None, Without(Live(s.view), c), s.Fds())
  }

  // Everyone else learns that a client with a name has left; the connection is closed.
  function Goodbye(p: Party): seq<Output> {
    (if p.name.Some? then ToAll(p.others, p.fds, p.name.value + LEFT_MSG) else []) + [ClosedFd(p.fd)]
  }

  // What a line event says before the session goes on or ends.
  function LineSaid(p: Party, o: Outcome, line: seq<char>, stamp: Option<Tm>): seq<Output> {
    match o
    case Drained => LineOut(line, p.buffer, stamp, p.others, p.fds)
    case Ended => LineOut(line, p.buffer, stamp, p.others, p.fds)
    case TooLong => [Wrote(p.fd, TOO_LONG_MSG)]
    case Broken => []
  }

  // session_close, in terms of the party.
  method Close(s: Server, c: Client)
    requires s.Valid() && c in Live(s.view)
    requires c.NameFits()
    modifies s, s.firstClp, s.cps, PoolsOf(s.cps), Chunks(s.view)`next, c`freeNext, c`fd, c`bufUsed
    ensures s.Valid() && s.view == Closed(old(s.view), c)
    ensures s.log == old(s.log) + Goodbye(old(PartyOf(s, c)))
    ensures SetOf(s.cps) <= old(SetOf(s.cps)) && PoolsOf(s.cps) <= old(PoolsOf(s.cps))
    ensures Chunks(s.view) <= old(Chunks(s.view))
  {
    hide Live, Without, ToAll, Ok, CP.Buffers, Elems, Closed;
    s.SessionClose(c);
  }

  // The part of session_line_read before it closes the session, if it does.
  method ReadAndSend(s: Server, c: Client, script: seq<ReadResult>, now: Option<int>)
    returns (o: Outcome, ghost stamp: Option<Tm>)
    requires s.Valid() && c in Live(s.view) && Ready(c) && c.nameOk
    requires Answers(script, MAX_LINE_LEN - c.bufUsed)
    requires ClockOk(now)
    modifies s`log, c`bufUsed, c.buf
    ensures var r := LineEvent(old(LineOf(c)), script);
      && o == r.outcome
      && (o == Drained ==> Ready(c) && LineOf(c) == AfterLine(LineState(r.buf, r.used)))
      && (o == Drained || o == Ended ==> StampOf(stamp, now))
      && s.log == old(s.log) + LineSaid(old(PartyOf(s, c)), o, EventLine(r), stamp)
  {
    hide Live, Without, ToAll, LineOut, StampOf, FoundLine, AfterLine, NameOk, Ok, CP.Buffers, Elems, ReadLoop, Answers;
    stamp := None;
    o := FillLine(c, script);
    s.FdsSame();
    if o == Drained || o == Ended {
      stamp := CheckLineAndSend(s, c, now);
    } else if o == TooLong {
      s.log := s.log + [Wrote(c.fd, TOO_LONG_MSG)];
    }
  }

  // All that a line event says, its end included if it ends the session.
  ghost function LineTurn(p: Party, st: LineState, script: seq<ReadResult>, stamp: Option<Tm>): seq<Output>
    requires st.used <= |st.buf| && Answers(script, |st.buf| - st.used)
  {
    var r := LineEvent(st, script);
    LineSaid(p, r.outcome, EventLine(r), stamp) + if r.outcome == Drained then [] else Goodbye(p)
  }

  // For a session that has come to t in a run of line events, one more event of the client
  // c leads to AfterEvent(t, script): what is said is the line that this adds, and the
  // farewell unless the session goes on with the buffer of that state.
  ghost predicate Advances(t: Session, script: seq<ReadResult>, c: Client, open: bool, p: Party, stamp: Option<Tm>,
                           said: seq<Output>)
    reads c`bufUsed, c.buf
  {
    Proceeds(t, script) ==>
      var t' := AfterEvent(t, script);
      && (open ==> LineOf(c) == t'.st)
      && said == NewLine(t, t', p, stamp) + if open then [] else Goodbye(p)
  }

  // How a line event leaves the server and its client c, whose buffer was st: what is said,
  // what stays in the buffer, whether the session ends. It ends when the buffer was full.
  ghost predicate LineHandled(s: Server, c: Client, st: LineState, script: seq<ReadResult>, now: Option<int>, p: Party,
                              stamp: Option<Tm>, view: seq<PoolView<Client>>, log: seq<Output>)
    requires st.used <= |st.buf| && Answers(script, |st.buf| - st.used)
    reads s`view, s`log, c`fd, c`bufUsed, c`nameUsed, c`nameOk, c.buf, c.name
  {
    var r, said := LineEvent(st, script), LineTurn(p, st, script, stamp);
    && s.view == (if r.outcome == Drained then view else Closed(view, c))
    && (r.outcome == Drained ==> Ready(c) && LineOf(c) == AfterLine(LineState(r.buf, r.used)) && c.fd == p.fd)
    && (r.outcome == Drained || r.outcome == Ended ==> StampOf(stamp, now))
    && s.log == log + said
    && (forall t: Session | t.st == st :: Advances(t, script, c, s.view == view, p, stamp, said))
    && (st.used == |st.buf| && '\n' !in st.buf ==> s.view == Closed(view, c) && said == Goodbye(p))
  }

  /** session_line_read. After the read loop a line is looked for, unless the client has
      sent too much or reading failed; the session ends unless nothing is left to read. For
      a session that has come this far in a run of line events it is one more of them. */
  method SessionLineRead(s: Server, c: Client, script: seq<ReadResult>, now: Option<int>)
    returns (ghost stamp: Option<Tm>)
    requires s.Valid() && c in Live(s.view) && Ready(c) && c.nameOk
    requires Answers(script, MAX_LINE_LEN - c.bufUsed)
    requires ClockOk(now)
    modifies s, s.firstClp, s.cps, PoolsOf(s.cps), Chunks(s.view)`next
    modifies c`freeNext, c`fd, c`bufUsed, c.buf
    ensures LineHandled(s, c, old(LineOf(c)), script, now, old(PartyOf(s, c)), stamp, old(s.view), old(s.log))
    ensures s.Valid() && c.NameFits()
    ensures SetOf(s.cps) <= old(SetOf(s.cps)) && PoolsOf(s.cps) <= old(PoolsOf(s.cps))
    ensures Chunks(s.view) <= old(Chunks(s.view))
  {
    hide Live, Without, ToAll, LineSaid, Goodbye, StampOf, FoundLine, AfterLine, NameOk, Ok, CP.Buffers, Elems, Closed;
    hide ReadLoop, Answers, Advances;
    ghost var st, p := LineOf(c), PartyOf(s, c);
    var o: Outcome;
    o, stamp := ReadAndSend(s, c, script, now);
    s.FdsSame();
    if o != Drained {
      Close(s, c);
    }
    FullBufferCloses(p, st, script, stamp);
    CloseChanges(old(s.view), c);
    forall t: Session | t.st == st
      ensures Advances(t, script, c, s.view == old(s.view), p, stamp, LineTurn(p, st, script, stamp))
    {
      OneMoreEvent(t, script, c, p, stamp);
    }
  }

  lemma OneMoreEvent(t: Session, script: seq<ReadResult>, c: Client, p: Party, stamp: Option<Tm>)
    requires t.st.used <= |t.st.buf| && Answers(script, |t.st.buf| - t.st.used)
    requires var r := LineEvent(t.st, script);
      r.outcome == Drained ==> LineOf(c) == AfterLine(LineState(r.buf, r.used))
    ensures Advances(t, script, c, LineEvent(t.st, script).outcome == Drained, p, stamp,
                     LineTurn(p, t.st, script, stamp))
  {
    hide Goodbye, AfterLine, ReadLoop, Answers, AfterEvent, NewLine, LineTurn;
    if Proceeds(t, script) {
      StepOfRun(t, script, p, stamp);
    }
  }

  // What the others see of the line that t' has sent and t has not.
  function NewLine(t: Session, t': Session, p: Party, stamp: Option<Tm>): seq<Output> {
    if |t'.sent| <= |t.sent| then [] else LineOut(t'.sent[|t.sent|], p.buffer, stamp, p.others, p.fds)
  }

  // What an event says is the line that it adds to the run, and the farewell if it is the last.
  lemma StepOfRun(t: Session, script: seq<ReadResult>, p: Party, stamp: Option<Tm>)
    requires Proceeds(t, script)
    ensures var r := LineEvent(t.st, script);
      && AfterEvent(t, script).st == AfterLine(LineState(r.buf, r.used))
      && LineTurn(p, t.st, script, stamp)
         == NewLine(t, AfterEvent(t, script), p, stamp) + if r.outcome == Drained then [] else Goodbye(p)
  {
    hide ToAll, Goodbye, FoundLine, AfterLine, ReadLoop, Answers, DataReads, Concat, ChatLine, Truncated;
    var line := EventLine(LineEvent(t.st, script));
    if line != [] {
      assert (t.sent + [line])[|t.sent|] == line;
    }
  }

  lemma CloseChanges(view: seq<PoolView<Client>>, c: Client)
    requires Ok(view) && c in Live(view)
    ensures Closed(view, c) != view
  {
    ClosedRemovesOne(view, c);
    OkLiveNoDup(view);
    hide Closed, Ok, Live;
    WithoutFacts(Live(view), c);
  }

  lemma FullBufferCloses(p: Party, st: LineState, script: seq<ReadResult>, stamp: Option<Tm>)
    requires st.used <= |st.buf| && Answers(script, |st.buf| - st.used)
    ensures st.used == |st.buf| && '\n' !in st.buf ==>
      LineEvent(st, script).outcome != Drained && LineTurn(p, st, script, stamp) == Goodbye(p)
  {
    hide Goodbye, ToAll, ReadLoop, FoundLine;
    if st.used == |st.buf| && '\n' !in st.buf {
      FullBufferReadsNothing(st.buf, script);
      assert st.buf[..st.used] == st.buf;
      assert EventLine(LineEvent(st, script)) == [];
      assert LineSaid(p, LineEvent(st, script).outcome, [], stamp) == [];
    }
  }

  // What session_name_read says when the name is complete: a welcome to the client, the
  // news to the others.
  function Introduction(p: Party, name: seq<char>): seq<Output> {
    [Wrote(p.fd, WELCOME_MSG + name + "\n")] + ToAll(p.others, p.fds, name + ENTERED_MSG)
  }

  // What a name event says before the session goes on or ends.
  function NameSaid(p: Party, o: Outcome, n: NameState): seq<Output>
    requires n.ok ==> n.used <= |n.name|
  {
    match o
    case Drained => if n.ok then Introduction(p, n.name[..n.used]) else []
    case Ended => []
    case TooLong => [Wrote(p.fd, TOO_LONG_NAME)]
    case Broken => []
  }

  // The part of session_name_read before it closes the session, if it does.
  method ReadAndWelcome(s: Server, c: Client, script: seq<ReadResult>) returns (o: Outcome)
    requires s.Valid() && c in Live(s.view) && Ready(c) && !c.nameOk
    requires Answers(script, MAX_NAME_LEN - c.nameUsed)
    modifies s`log, c`nameUsed, c`nameOk, c.name
    ensures !c.nameOk || o == Drained
    ensures var r := old(ReadLoop(c.name[..], c.nameUsed, c.nameUsed, script));
      && o == r.outcome
      && (o == Drained ==> Ready(c) && r.used <= |r.buf|)
      && (o == Drained ==> NameState(c.name[..], c.nameUsed, c.nameOk) == AfterName(NameState(r.buf, r.used, false)))
      && s.log == old(s.log) + NameSaid(old(PartyOf(s, c)), o,
           if o == Drained then AfterName(NameState(r.buf, r.used, false)) else NameState([], 0, false))
  {
    hide Live, Without, ToAll, FirstOf, Ok, CP.Buffers, Elems, ReadLoop, Answers, AfterName;
    o := FillName(c, script);
    if o == TooLong {
      s.log := s.log + [Wrote(c.fd, TOO_LONG_NAME)];
    } else if o == Drained {
      EndName(c);
      s.FdsSame();
      if c.nameOk {
        Welcome(s, c);
      }
    }
  }

  // Both messages, once the name is complete.
  method Welcome(s: Server, c: Client)
    requires s.Valid() && c.nameOk && 0 <= c.nameUsed < c.name.Length == MAX_NAME_LEN
    modifies s`log
    ensures s.log == old(s.log) + old([Wrote(c.fd, WELCOME_MSG + c.name[..c.nameUsed] + "\n")]
      + ToAll(Without(Live(s.view), c), s.Fds(), c.name[..c.nameUsed] + ENTERED_MSG))
  {
    hide Live, Without, ToAll, Ok, CP.Buffers, Elems;
    ghost var name := c.name[..c.nameUsed];
    var size := |WELCOME_MSG| + 1 + MAX_NAME_LEN;
    var hello := ComposeTwo(size, WELCOME_MSG, c.name[..c.nameUsed]);
    hello := ComposeTwo(size, hello, "\n");
    s.log := s.log + [Wrote(c.fd, hello)];
    var news := ComposeTwo(size, c.name[..c.nameUsed], ENTERED_MSG);
    s.FdsSame();
    s.SendAll(news, c);
  }

  // All that a name event says, its end included if it ends the session.
  ghost function NameTurn(p: Party, used: nat, script: seq<ReadResult>): seq<Output>
    requires used <= |p.buffer| && Answers(script, |p.buffer| - used)
  {
    var r := ReadLoop(p.buffer, used, used, script);
    var n := if r.outcome == Drained then AfterName(NameState(r.buf, r.used, false)) else NameState([], 0, false);
    NameSaid(p, r.outcome, n)
    + if r.outcome == Drained then [] else Goodbye(p)
  }

  lemma FullNameCloses(p: Party, script: seq<ReadResult>)
    requires Answers(script, 0)
    ensures ReadLoop(p.buffer, |p.buffer|, |p.buffer|, script).outcome != Drained
    ensures NameTurn(p, |p.buffer|, script) == Goodbye(p)
  {
    hide Goodbye, ToAll, ReadLoop, AfterName;
    FullBufferReadsNothing(p.buffer, script);
  }

  /** session_name_read. */
  method SessionNameRead(s: Server, c: Client, script: seq<ReadResult>)
    requires s.Valid() && c in Live(s.view) && Ready(c) && !c.nameOk
    requires Answers(script, MAX_NAME_LEN - c.nameUsed)
    modifies s, s.firstClp, s.cps, PoolsOf(s.cps), Chunks(s.view)`next
    modifies c`freeNext, c`fd, c`bufUsed, c`nameUsed, c`nameOk, c.name
    ensures s.Valid()
    ensures SetOf(s.cps) <= old(SetOf(s.cps)) && PoolsOf(s.cps) <= old(PoolsOf(s.cps))
    ensures Chunks(s.view) <= old(Chunks(s.view))
    ensures var r := old(ReadLoop(c.name[..], c.nameUsed, c.nameUsed, script));
      && s.view == (if r.outcome == Drained then old(s.view) else Closed(old(s.view), c))
      && (r.outcome == Drained ==> Ready(c) && r.used <= |r.buf| && c.fd == old(c.fd) && c.bufUsed == old(c.bufUsed))
      && (r.outcome != Drained ==> !c.nameOk)
      && (r.outcome == Drained ==>
            NameState(c.name[..], c.nameUsed, c.nameOk) == AfterName(NameState(r.buf, r.used, false)))
    ensures s.log == old(s.log) + NameTurn(old(PartyOf(s, c)), old(c.nameUsed), script)
    ensures old(c.nameUsed) == MAX_NAME_LEN ==>
      s.view == Closed(old(s.view), c) && s.log == old(s.log) + Goodbye(old(PartyOf(s, c)))
  {
    hide Live, Without, ToAll, NameSaid, AfterName, NameOk, Ok, CP.Buffers, Elems, ReadLoop, Answers, Closed;
    ghost var p, used := PartyOf(s, c), c.nameUsed;
    var o := ReadAndWelcome(s, c, script);
    s.FdsSame();
    if o != Drained {
      Close(s, c);
    }
    if used == MAX_NAME_LEN {
      FullNameCloses(p, script);
    }
  }
}
