/** What the read handlers of src/chat_server.c do to the bytes of one client, on values. */
module Framing {
  import opened Basics
  import opened Options
  import opened Sizes
  import opened Memory
  import opened Numerals
  import opened Calendar
  import opened TimeText

  // What sys_read reports; Again is EAGAIN and Interrupted is EINTR.
  datatype ReadResult = Data(bytes: seq<char>) | Again | Interrupted | Failed | Eof

  // Why a read loop ended: nothing left to read, more bytes than the buffer holds, end of
  // the stream, or an error.
  datatype Outcome = Drained | TooLong | Ended | Broken

  datatype ReadState = ReadState(buf: seq<char>, used: nat, outcome: Outcome)

  // Every read asks for the space that was there when the event began, so no more arrives.
  predicate Answers(script: seq<ReadResult>, space: nat) {
    && (forall i :: 0 <= i < |script| && script[i].Data? ==> 0 < |script[i].bytes| <= space)
    && (space == 0 ==> ZeroRead(script))
  }

  // A read of no bytes returns zero at once, unless it is interrupted or fails. Zero is what
  // is taken for the end of the stream.
  predicate ZeroRead(script: seq<ReadResult>) {
    script != [] &&
    match script[0]
    case Eof => true
    case Failed => true
    case Interrupted => ZeroRead(script[1..])
    case _ => false
  }

  // The read loop. All reads of one event store at the same offset at, while used grows
  // with each. A script that ends counts as EAGAIN.
  ghost function ReadLoop(buf: seq<char>, at: nat, used: nat, script: seq<ReadResult>): (r: ReadState)
    requires at <= |buf| && Answers(script, |buf| - at)
    ensures |r.buf| == |buf| && r.buf[..at] == buf[..at]
    ensures used <= |buf| ==> (r.outcome.TooLong? <==> r.used > |buf|)
    decreases |script|
  {
    if script == [] then ReadState(buf, used, Drained)
    else
      match script[0]
      case Again => ReadState(buf, used, Drained)
      case Interrupted => ReadLoop(buf, at, used, script[1..])
      case Failed => ReadState(buf, used, Broken)
      case Eof => ReadState(buf, used, Ended)
      case Data(bytes) =>
        var buf' := Put(buf, at, bytes);
        if used + |bytes| > |buf| then ReadState(buf', used + |bytes|, TooLong)
        else ReadLoop(buf', at, used + |bytes|, script[1..])
  }

  // The data reads of an event, in order, up to the result that ends the loop.
  function DataReads(script: seq<ReadResult>): (ds: seq<seq<char>>) {
    if script == [] then []
    else
      match script[0]
      case Data(bytes) => [bytes] + DataReads(script[1..])
      case Interrupted => DataReads(script[1..])
      case _ => []
  }

  function Concat(ds: seq<seq<char>>): seq<char> {
    if ds == [] then [] else ds[0] + Concat(ds[1..])
  }

  // All reads on top of each other.
  ghost function Overlay(buf: seq<char>, at: nat, ds: seq<seq<char>>): (r: seq<char>)
    requires at <= |buf| && forall i :: 0 <= i < |ds| ==> |ds[i]| <= |buf| - at
    ensures |r| == |buf| && r[..at] == buf[..at]
    decreases |ds|
  {
    if ds == [] then buf
    else
      assert forall i :: 0 <= i < |ds| - 1 ==> ds[1..][i] == ds[i + 1];
      Overlay(Put(buf, at, ds[0]), at, ds[1..])
  }

  // The loop stacks the data reads at one place and counts all of them.
  lemma {:induction false} ReadLoopEffect(buf: seq<char>, at: nat, used: nat, script: seq<ReadResult>)
    requires at <= |buf| && Answers(script, |buf| - at)
    requires used + |Concat(DataReads(script))| <= |buf|
    ensures var ds := DataReads(script);
      && (forall i :: 0 <= i < |ds| ==> 0 < |ds[i]| <= |buf| - at)
      && ReadLoop(buf, at, used, script).buf == Overlay(buf, at, ds)
      && ReadLoop(buf, at, used, script).used == used + |Concat(ds)|
    decreases |script|
  {
    if script != [] {
      assert forall i :: 0 <= i < |script| - 1 ==> script[1..][i] == script[i + 1];
      match script[0]
      case Data(bytes) =>
        var ds := DataReads(script);
        assert ds[1..] == DataReads(script[1..]);
        ReadLoopEffect(Put(buf, at, bytes), at, used + |bytes|, script[1..]);
      case Interrupted =>
        ReadLoopEffect(buf, at, used, script[1..]);
      case _ =>
    }
  }

  // Past the longest read the buffer is as it was.
  lemma {:induction false} OverlayStale(buf: seq<char>, at: nat, ds: seq<seq<char>>, k: nat)
    requires at <= k < |buf|
    requires forall i :: 0 <= i < |ds| ==> |ds[i]| <= k - at
    ensures Overlay(buf, at, ds)[k] == buf[k]
    decreases |ds|
  {
    if ds != [] {
      OverlayStale(Put(buf, at, ds[0]), at, ds[1..], k);
    }
  }

  lemma {:induction false} ConcatBound(ds: seq<seq<char>>, i: nat)
    requires i < |ds| && forall j :: 0 <= j < |ds| ==> 0 < |ds[j]|
    ensures |Concat(ds)| >= |ds[i]| + (|ds| - 1)
  {
    if i > 0 {
      ConcatBound(ds[1..], i - 1);
    } else if |ds| > 1 {
      ConcatBound(ds[1..], 0);
    }
  }

  // The bytes in use after an event are those before it and those read in it.
  ghost predicate KeepsStream(buf: seq<char>, used: nat, script: seq<ReadResult>)
    requires used <= |buf| && Answers(script, |buf| - used)
  {
    var r := ReadLoop(buf, used, used, script);
    r.used <= |buf| && r.buf[..r.used] == buf[..used] + Concat(DataReads(script))
  }

  // An event with at most one data read keeps the stream.
  lemma OneReadKeepsStream(buf: seq<char>, used: nat, script: seq<ReadResult>)
    requires used <= |buf| && Answers(script, |buf| - used)
    requires used + |Concat(DataReads(script))| <= |buf|
    requires |DataReads(script)| <= 1
    ensures KeepsStream(buf, used, script)
  {
    ReadLoopEffect(buf, used, used, script);
    var ds := DataReads(script);
    if ds == [] {
      assert Concat(ds) == [];
    } else {
      assert Concat(ds) == ds[0] + Concat(ds[1..]) == ds[0];
      assert Overlay(buf, used, ds) == Overlay(Put(buf, used, ds[0]), used, ds[1..]) == Put(buf, used, ds[0]);
    }
  }

  // With two or more, the last byte counted is one that no read has written.
  lemma TwoReadsLoseBytes(buf: seq<char>, used: nat, script: seq<ReadResult>)
    requires used <= |buf| && Answers(script, |buf| - used)
    requires used + |Concat(DataReads(script))| <= |buf|
    requires |DataReads(script)| > 1
    ensures var r := ReadLoop(buf, used, used, script);
      used < r.used <= |buf| && r.buf[r.used - 1] == buf[r.used - 1]
  {
    ReadLoopEffect(buf, used, used, script);
    var ds := DataReads(script);
    forall i | 0 <= i < |ds|
      ensures |ds[i]| < |Concat(ds)|
    {
      ConcatBound(ds, i);
    }
    assert |ds[0]| < |Concat(ds)|;
    OverlayStale(buf, used, ds, used + |Concat(ds)| - 1);
  }

  lemma StaleByteBreaksStream(prev: seq<char>, size: nat, script: seq<ReadResult>) returns (buf: seq<char>)
    requires |prev| <= size && Answers(script, size - |prev|)
    requires |prev| + |Concat(DataReads(script))| <= size
    requires |DataReads(script)| > 1
    ensures |buf| == size && buf[..|prev|] == prev && !KeepsStream(buf, |prev|, script)
  {
    var used, all := |prev|, Concat(DataReads(script));
    ReadLoopEffect(prev + seq(size - used, _ => 'a'), used, used, script);
    ConcatBound(DataReads(script), 0);
    var stale := if all[|all| - 1] == 'a' then 'b' else 'a';
    buf := prev + seq(size - used, _ => stale);
    ReadLoopEffect(buf, used, used, script);
    TwoReadsLoseBytes(buf, used, script);
    var r := ReadLoop(buf, used, used, script);
    assert r.buf[..r.used][r.used - 1] != (prev + all)[r.used - 1];
  }

  // The read offset is computed once per event. So the stream is kept, whatever stale
  // bytes the buffer holds, exactly when the event has at most one data read.
  lemma StreamKeptIffOneRead(prev: seq<char>, size: nat, script: seq<ReadResult>)
    requires |prev| <= size && Answers(script, size - |prev|)
    requires |prev| + |Concat(DataReads(script))| <= size
    ensures (forall buf: seq<char> | |buf| == size && buf[..|prev|] == prev :: KeepsStream(buf, |prev|, script))
        <==> |DataReads(script)| <= 1
  {
    hide KeepsStream;
    if |DataReads(script)| > 1 {
      var buf := StaleByteBreaksStream(prev, size, script);
    }
    forall buf: seq<char> | |buf| == size && |DataReads(script)| <= 1
      ensures KeepsStream(buf, |prev|, script)
    {
      OneReadKeepsStream(buf, |prev|, script);
    }
  }

  // The result that ends a loop, if no data does. A script that ends counts as EAGAIN.
  function Stop(script: seq<ReadResult>): (r: ReadResult)
    ensures r == Again || r == Failed || r == Eof
  {
    if script == [] then Again
    else
      match script[0]
      case Again => Again
      case Failed => Failed
      case Eof => Eof
      case _ => Stop(script[1..])
  }

  // How the loop ends: by that result, unless what was there and what comes exceed the buffer.
  lemma {:induction false} LoopEndsBy(buf: seq<char>, at: nat, used: nat, script: seq<ReadResult>)
    requires at <= |buf| && used <= |buf| && Answers(script, |buf| - at)
    ensures var (o, fits) := (ReadLoop(buf, at, used, script).outcome, used + |Concat(DataReads(script))| <= |buf|);
      && (o == TooLong <==> !fits)
      && (o == Drained <==> fits && Stop(script) == Again)
      && (o == Ended <==> fits && Stop(script) == Eof)
      && (o == Broken <==> fits && Stop(script) == Failed)
    decreases |script|
  {
    if script != [] {
      assert forall i :: 0 <= i < |script| - 1 ==> script[1..][i] == script[i + 1];
      match script[0]
      case Interrupted =>
        LoopEndsBy(buf, at, used, script[1..]);
      case Data(bytes) =>
        assert DataReads(script)[1..] == DataReads(script[1..]);
        if used + |bytes| <= |buf| {
          LoopEndsBy(Put(buf, at, bytes), at, used + |bytes|, script[1..]);
        }
      case _ =>
    }
  }

  // The event is found too long if and only if what was there and what it brings exceed
  // the buffer.
  lemma {:induction false} TooLongIff(buf: seq<char>, at: nat, used: nat, script: seq<ReadResult>)
    requires at <= |buf| && used <= |buf| && Answers(script, |buf| - at)
    ensures ReadLoop(buf, at, used, script).outcome == TooLong <==> used + |Concat(DataReads(script))| > |buf|
    decreases |script|
  {
    if script != [] {
      assert forall i :: 0 <= i < |script| - 1 ==> script[1..][i] == script[i + 1];
      match script[0]
      case Interrupted =>
        TooLongIff(buf, at, used, script[1..]);
      case Data(bytes) =>
        assert DataReads(script)[1..] == DataReads(script[1..]);
        if used + |bytes| <= |buf| {
          TooLongIff(Put(buf, at, bytes), at, used + |bytes|, script[1..]);
        }
      case _ =>
    }
  }

  // A single read never exceeds the buffer: it asks for no more than the space. So only a
  // second one in the same event can make the line, or the name, too long.
  lemma TooLongNeedsTwoReads(buf: seq<char>, used: nat, script: seq<ReadResult>)
    requires used <= |buf| && Answers(script, |buf| - used)
    ensures ReadLoop(buf, used, used, script).outcome == TooLong ==> |DataReads(script)| >= 2
  {
    TooLongIff(buf, used, used, script);
    DataFits(script, |buf| - used);
    var ds := DataReads(script);
    if |ds| == 1 {
      assert Concat(ds) == ds[0] + Concat(ds[1..]) == ds[0];
    }
  }

  lemma {:induction false} DataFits(script: seq<ReadResult>, space: nat)
    requires Answers(script, space)
    ensures forall i :: 0 <= i < |DataReads(script)| ==> 0 < |DataReads(script)[i]| <= space
  {
    if script != [] && (script[0].Data? || script[0].Interrupted?) {
      assert forall i :: 0 <= i < |script| - 1 ==> script[1..][i] == script[i + 1];
      DataFits(script[1..], space);
    }
  }

  // A client whose buffer is full can send nothing more. Its next event ends as if it had
  // hung up, or with an error of the read; it is never too long, and the session does not
  // go on.
  lemma {:induction false} FullBufferReadsNothing(buf: seq<char>, script: seq<ReadResult>)
    requires Answers(script, 0)
    ensures DataReads(script) == []
    ensures var r := ReadLoop(buf, |buf|, |buf|, script);
      && r.buf == buf && r.used == |buf|
      && (r.outcome == Ended || (r.outcome == Broken && Failed in script))
    decreases |script|
  {
    if script[0].Interrupted? {
      assert forall i :: 0 <= i < |script| - 1 ==> script[1..][i] == script[i + 1];
      FullBufferReadsNothing(buf, script[1..]);
    }
  }

  // The first place of a character of a set, or the end.
  function FirstOf(s: seq<char>, stops: set<char>): (i: nat)
    ensures i <= |s|
    ensures i < |s| ==> s[i] in stops
    ensures forall j :: 0 <= j < i ==> s[j] !in stops
  {
    if s == [] || s[0] in stops then 0 else 1 + FirstOf(s[1..], stops)
  }

  datatype LineState = LineState(buf: seq<char>, used: nat)

  // The line that check_line_and_send finds, with its newline; empty if there is none.
  function FoundLine(st: LineState): (line: seq<char>)
    requires st.used <= |st.buf|
    ensures |line| <= st.used && line <= st.buf
    ensures line == [] <==> '\n' !in st.buf[..st.used]
    ensures line != [] ==> line[|line| - 1] == '\n' && '\n' !in line[..|line| - 1]
  {
    var pos := FirstOf(st.buf[..st.used], {'\n'});
    if pos == st.used then [] else st.buf[..pos + 1]
  }

  // What it leaves: the rest of the bytes at the front of the buffer.
  ghost function AfterLine(st: LineState): (st': LineState)
    requires st.used <= |st.buf|
    ensures |st'.buf| == |st.buf| && st'.used <= st.used
    ensures FoundLine(st) + st'.buf[..st'.used] == st.buf[..st.used]
  {
    var n := |FoundLine(st)|;
    if n == 0 then st else LineState(Moved(st.buf, 0, n, st.used - n), st.used - n)
  }

  // Only one line is sent for each event. Nothing complete stays behind if and only if
  // there was at most one newline, and the buffer stays full if and only if it was full and
  // there was none.
  lemma LinesLeftBehind(st: LineState)
    requires st.used <= |st.buf|
    ensures FoundLine(AfterLine(st)) == [] <==> multiset(st.buf[..st.used])['\n'] <= 1
    ensures AfterLine(st).used == |st.buf| <==> st.used == |st.buf| && '\n' !in st.buf[..st.used]
  {
    hide FoundLine, AfterLine;
    var line, st' := FoundLine(st), AfterLine(st);
    var all, rest := st.buf[..st.used], st'.buf[..st'.used];
    assert line + rest == all;
    CountIn(all, '\n');
    CountIn(rest, '\n');
    if line != [] {
      CountInLine(line);
      assert multiset(all) == multiset(line) + multiset(rest);
    }
  }

  lemma CountIn(s: seq<char>, c: char)
    ensures c in s <==> multiset(s)[c] > 0
  {
  }

  lemma CountInLine(line: seq<char>)
    requires IsLine(line)
    ensures multiset(line)['\n'] == 1
  {
    var init := line[..|line| - 1];
    CountIn(init, '\n');
    assert line == init + ['\n'];
  }

  predicate IsLine(l: seq<char>) {
    l != [] && l[|l| - 1] == '\n' && '\n' !in l[..|l| - 1]
  }

  // The line that an event finds, given how its read loop ended: a session that is closed
  // for too long a line or for an error sends nothing more.
  ghost function EventLine(r: ReadState): seq<char>
    requires r.outcome == Drained || r.outcome == Ended ==> r.used <= |r.buf|
  {
    if r.outcome == Drained || r.outcome == Ended then FoundLine(LineState(r.buf, r.used)) else []
  }

  // The read loop of a line event.
  ghost function LineEvent(st: LineState, script: seq<ReadResult>): ReadState
    requires st.used <= |st.buf| && Answers(script, |st.buf| - st.used)
  {
    ReadLoop(st.buf, st.used, st.used, script)
  }

  // A session that has seen some line events: its buffer, the lines sent, the bytes read.
  datatype Session = Session(st: LineState, sent: seq<seq<char>>, received: seq<char>)

  // An event with at most one data read, after which a line is looked for.
  ghost predicate Proceeds(s: Session, script: seq<ReadResult>) {
    && s.st.used <= |s.st.buf| && Answers(script, |s.st.buf| - s.st.used)
    && LineEvent(s.st, script).outcome in {Drained, Ended}
    && |DataReads(script)| <= 1
  }

  // One line event: one read loop, at most one line sent.
  ghost function AfterEvent(s: Session, script: seq<ReadResult>): Session
    requires Proceeds(s, script)
  {
    var r := LineEvent(s.st, script);
    var line := EventLine(r);
    Session(AfterLine(LineState(r.buf, r.used)), if line == [] then s.sent else s.sent + [line],
            s.received + Concat(DataReads(script)))
  }

  // A run of events from a fresh session on. Only the last one may end the session.
  ghost predicate IsRun(states: seq<Session>, scripts: seq<seq<ReadResult>>) {
    && |states| == |scripts| + 1
    && |states[0].st.buf| == MAX_LINE_LEN && states[0].st.used == 0
    && states[0].sent == [] && states[0].received == []
    && (forall i :: 0 <= i < |scripts| ==>
          Proceeds(states[i], scripts[i]) && states[i + 1] == AfterEvent(states[i], scripts[i]))
    && (forall i :: 0 <= i < |scripts| - 1 ==> LineEvent(states[i].st, scripts[i]).outcome == Drained)
  }

  ghost predicate Accounted(s: Session) {
    && s.st.used <= |s.st.buf| == MAX_LINE_LEN
    && s.received == Concat(s.sent) + s.st.buf[..s.st.used]
    && forall i :: 0 <= i < |s.sent| ==> IsLine(s.sent[i])
  }

  // Over every run all bytes read are the lines sent, in order, and the bytes still in
  // the buffer; and what is sent is one line each.
  lemma {:induction false} RunsAccount(states: seq<Session>, scripts: seq<seq<ReadResult>>, i: nat)
    requires IsRun(states, scripts) && i < |states|
    ensures Accounted(states[i])
  {
    if i > 0 {
      RunsAccount(states, scripts, i - 1);
      assert states[i - 1 + 1] == AfterEvent(states[i - 1], scripts[i - 1]);
      EventAccounts(states[i - 1], scripts[i - 1]);
    }
  }

  lemma EventAccounts(s: Session, script: seq<ReadResult>)
    requires Accounted(s) && Proceeds(s, script)
    ensures Accounted(AfterEvent(s, script))
  {
    hide ReadLoop, Overlay, KeepsStream, FoundLine, AfterLine, Concat, DataReads, Answers;
    EventReads(s, script);
    var r := LineEvent(s.st, script);
    var st := LineState(r.buf, r.used);
    var line, all, st' := FoundLine(st), Concat(s.sent), AfterLine(st);
    ConcatAppend(s.sent, line);
    Associates(all, line, st'.buf[..st'.used]);
    Associates(all, s.st.buf[..s.st.used], Concat(DataReads(script)));
    if line == [] {
      assert all + line == all;
    }
  }

  lemma EventReads(s: Session, script: seq<ReadResult>)
    requires Proceeds(s, script)
    ensures var r := LineEvent(s.st, script);
      && r.used <= |r.buf| == |s.st.buf|
      && r.buf[..r.used] == s.st.buf[..s.st.used] + Concat(DataReads(script))
  {
    TooLongIff(s.st.buf, s.st.used, s.st.used, script);
    OneReadKeepsStream(s.st.buf, s.st.used, script);
  }

  lemma {:induction false} ConcatAppend(ds: seq<seq<char>>, d: seq<char>)
    ensures Concat(ds + [d]) == Concat(ds) + d
  {
    if ds == [] {
      assert Concat([d]) == d + Concat([]);
    } else {
      ConcatAppend(ds[1..], d);
      assert (ds + [d])[1..] == ds[1..] + [d];
    }
  }

  // What session_name_read does to the name once nothing is left to read: the first line
  // end becomes the terminator.
  datatype NameState = NameState(name: seq<char>, used: nat, ok: bool)

  const LINE_ENDS := {'\n', '\r'}

  function AfterName(n: NameState): (n': NameState)
    requires n.used <= |n.name| && !n.ok
    ensures |n'.name| == |n.name| && n'.used <= |n'.name|
    ensures n'.ok <==> '\n' in n.name[..n.used] || '\r' in n.name[..n.used]
    ensures n'.ok ==> NameOk(n'.name, n'.used)
    ensures !n'.ok ==> n' == n
    ensures n'.ok ==>
      && n'.used < n.used && n.name[n'.used] in LINE_ENDS
      && n.name[..n.used] == n'.name[..n'.used] + [n.name[n'.used]] + n.name[n'.used + 1..n.used]
  {
    var pos := FirstOf(n.name[..n.used], LINE_ENDS);
    if pos == n.used then n else NameState(n.name[pos := '\0'], pos, true)
  }

  // A complete name: terminated, and free of line ends up to there.
  predicate NameOk(name: seq<char>, used: nat) {
    && used < |name| && name[used] == '\0'
    && '\n' !in name[..used] && '\r' !in name[..used]
  }

  // What a name event leaves, once nothing is left to read.
  ghost function NameEvent(name: seq<char>, used: nat, script: seq<ReadResult>): NameState
    requires used <= |name| && Answers(script, |name| - used)
    requires ReadLoop(name, used, used, script).outcome == Drained
  {
    var r := ReadLoop(name, used, used, script);
    AfterName(NameState(r.buf, r.used, false))
  }

  // All bytes before and of the event are the name, and its line end if it has one.
  ghost predicate KeepsName(name: seq<char>, used: nat, script: seq<ReadResult>)
    requires used <= |name| && Answers(script, |name| - used)
  {
    && ReadLoop(name, used, used, script).outcome == Drained
    && var n := NameEvent(name, used, script);
       AllInName(name[..used] + Concat(DataReads(script)), n)
  }

  ghost predicate AllInName(all: seq<char>, n: NameState) {
    n.used <= |n.name|
    && if n.ok then n.used < |all| && all[n.used] in LINE_ENDS && all == n.name[..n.used] + [all[n.used]]
       else all == n.name[..n.used]
  }

  // How a loop ends depends on the results alone, not on the bytes that are in the buffer.
  lemma {:induction false} SameOutcome(a: seq<char>, b: seq<char>, at: nat, used: nat, script: seq<ReadResult>)
    requires |a| == |b| && at <= |a| && Answers(script, |a| - at)
    ensures ReadLoop(a, at, used, script).outcome == ReadLoop(b, at, used, script).outcome
    decreases |script|
  {
    if script != [] {
      assert forall i :: 0 <= i < |script| - 1 ==> script[1..][i] == script[i + 1];
      match script[0]
      case Interrupted =>
        SameOutcome(a, b, at, used, script[1..]);
      case Data(bytes) =>
        if used + |bytes| <= |a| {
          SameOutcome(Put(a, at, bytes), Put(b, at, bytes), at, used + |bytes|, script[1..]);
        }
      case _ =>
    }
  }

  // A whole name event, after which the session goes on, loses nothing, whatever stale bytes
  // the buffer holds, exactly when it has at most one data read and nothing stands behind the
  // first line end.
  lemma NameKeptIff(some: seq<char>, used: nat, script: seq<ReadResult>)
    requires used <= |some| && Answers(script, |some| - used)
    requires ReadLoop(some, used, used, script).outcome == Drained
    ensures var all := some[..used] + Concat(DataReads(script));
      (forall name: seq<char> | |name| == |some| && name[..used] == some[..used] :: KeepsName(name, used, script))
      <==> |DataReads(script)| <= 1 && FirstOf(all, LINE_ENDS) + 1 >= |all|
  {
    hide KeepsName, ReadLoop, FirstOf, Answers;
    var all := some[..used] + Concat(DataReads(script));
    TooLongIff(some, used, used, script);
    if |DataReads(script)| > 1 {
      var name := StaleByteBreaksName(some, used, script);
    } else {
      OneReadName(some, used, script);
      forall name: seq<char> | |name| == |some| && name[..used] == some[..used] && FirstOf(all, LINE_ENDS) + 1 >= |all|
        ensures KeepsName(name, used, script)
      {
        SameOutcome(some, name, used, used, script);
        OneReadName(name, used, script);
      }
    }
  }

  // With one data read the name is cut at the first line end of all bytes.
  lemma OneReadName(name: seq<char>, used: nat, script: seq<ReadResult>)
    requires used <= |name| && Answers(script, |name| - used)
    requires ReadLoop(name, used, used, script).outcome == Drained && |DataReads(script)| <= 1
    ensures var all, n := name[..used] + Concat(DataReads(script)), NameEvent(name, used, script);
      && |all| <= |name| && n.used == FirstOf(all, LINE_ENDS) && n.name[..n.used] == all[..n.used]
      && (n.ok <==> n.used < |all|)
    ensures var all := name[..used] + Concat(DataReads(script));
      KeepsName(name, used, script) <==> FirstOf(all, LINE_ENDS) + 1 >= |all|
  {
    hide ReadLoop, FirstOf, Answers;
    TooLongIff(name, used, used, script);
    OneReadKeepsStream(name, used, script);
    var r := ReadLoop(name, used, used, script);
    var all, n := name[..used] + Concat(DataReads(script)), NameEvent(name, used, script);
    assert r.buf[..r.used] == all;
    if n.ok {
      assert all == n.name[..n.used] + [all[n.used]] + all[n.used + 1..];
    }
  }

  lemma StaleByteBreaksName(some: seq<char>, used: nat, script: seq<ReadResult>) returns (name: seq<char>)
    requires used <= |some| && Answers(script, |some| - used)
    requires used + |Concat(DataReads(script))| <= |some| && |DataReads(script)| > 1
    requires ReadLoop(some, used, used, script).outcome == Drained
    ensures |name| == |some| && name[..used] == some[..used] && !KeepsName(name, used, script)
  {
    hide ReadLoop, FirstOf, Answers, Overlay, AllInName;
    var all := some[..used] + Concat(DataReads(script));
    var stale := if all != [] && all[|all| - 1] == 'a' then 'b' else 'a';
    name := some[..used] + seq(|some| - used, _ => stale);
    SameOutcome(some, name, used, used, script);
    TwoReadsLoseBytes(name, used, script);
    ReadLoopEffect(name, used, used, script);
    var r := ReadLoop(name, used, used, script);
    WrongLastByte(all, NameState(r.buf, r.used, false));
  }

  lemma WrongLastByte(all: seq<char>, n: NameState)
    requires 0 < n.used == |all| <= |n.name| && !n.ok
    requires n.name[n.used - 1] !in LINE_ENDS && n.name[n.used - 1] != all[n.used - 1]
    ensures !AllInName(all, AfterName(n))
  {
    hide FirstOf;
    var n' := AfterName(n);
    if !n'.ok {
      assert n.name[..n.used][n.used - 1] != all[n.used - 1];
    }
  }

  // A client that has no name yet: its name so far, and all bytes read.
  datatype Naming = Naming(n: NameState, received: seq<char>)

  // An event with at most one data read, after which the session goes on.
  ghost predicate NameProceeds(s: Naming, script: seq<ReadResult>) {
    && !s.n.ok && s.n.used <= |s.n.name| && Answers(script, |s.n.name| - s.n.used)
    && ReadLoop(s.n.name, s.n.used, s.n.used, script).outcome == Drained
    && |DataReads(script)| <= 1
  }

  ghost function AfterNaming(s: Naming, script: seq<ReadResult>): Naming
    requires NameProceeds(s, script)
  {
    Naming(NameEvent(s.n.name, s.n.used, script), s.received + Concat(DataReads(script)))
  }

  ghost predicate IsNaming(states: seq<Naming>, scripts: seq<seq<ReadResult>>) {
    && |states| == |scripts| + 1
    && |states[0].n.name| == MAX_NAME_LEN && states[0].n.used == 0 && !states[0].n.ok && states[0].received == []
    && (forall i :: 0 <= i < |scripts| ==>
          NameProceeds(states[i], scripts[i]) && states[i + 1] == AfterNaming(states[i], scripts[i]))
  }

  // The name is complete as soon as a line end has been read, and then is the first line;
  // until then it is all that has been read.
  ghost predicate Named(s: Naming) {
    && s.n.used <= |s.n.name| == MAX_NAME_LEN
    && s.n.used == FirstOf(s.received, LINE_ENDS) && s.n.name[..s.n.used] == s.received[..s.n.used]
    && (s.n.ok <==> s.n.used < |s.received|)
  }

  // Over every such run the name is the first line that the client has sent.
  lemma {:induction false} RunsName(states: seq<Naming>, scripts: seq<seq<ReadResult>>, i: nat)
    requires IsNaming(states, scripts) && i < |states|
    ensures Named(states[i])
  {
    if i > 0 {
      RunsName(states, scripts, i - 1);
      assert states[i - 1 + 1] == AfterNaming(states[i - 1], scripts[i - 1]);
      NamingStep(states[i - 1], scripts[i - 1]);
    }
  }

  lemma NamingStep(s: Naming, script: seq<ReadResult>)
    requires Named(s) && NameProceeds(s, script)
    ensures Named(AfterNaming(s, script))
  {
    hide ReadLoop, FirstOf, Answers, KeepsName, AllInName;
    OneReadName(s.n.name, s.n.used, script);
    assert s.received[..s.n.used] == s.received;
  }

  // A C string: what stands before the first terminator.
  function CString(s: seq<char>): (c: seq<char>)
    ensures c <= s && '\0' !in c && (|c| < |s| ==> s[|c|] == '\0')
  {
    s[..FirstOf(s, {'\0'})]
  }

  // What stands before a chat line; without a clock it carries no time.
  function ChatHead(name: seq<char>, clock: Option<Tm>): seq<char> {
    if clock.Some? then CString(name) + " (" + Join(ClockPieces(clock.value)) + "): "
    else CString(name) + ": "
  }

  // The chat line that the others get to see.
  function ChatLine(name: seq<char>, clock: Option<Tm>, line: seq<char>): seq<char> {
    ChatHead(name, clock) + line
  }

  const MSG_LEN := MAX_LINE_LEN + MAX_NAME_LEN + 17

  function Truncated(text: seq<char>, n: nat): seq<char> {
    if |text| <= n then text else text[..n]
  }

  // A clock has room for the brackets and the name next to it, also when its fields are
  // not those of a time of day.
  lemma ClockText(tm: Tm)
    requires SmallFields(tm)
    ensures |Join(ClockPieces(tm))| <= 17
    ensures ValidClock(tm) ==> |Join(ClockPieces(tm))| <= 12
  {
    SmallNumber(tm.hour);
    SmallNumber(tm.min);
    SmallNumber(tm.sec);
    hide Two, IntText, ParseInt, Join;
    ClockWidth(ClockPieces(tm));
  }

  lemma ClockWidth(ps: seq<string>)
    requires |ps| == 9 && |ps[1]| == 1 && |ps[3]| == 1
    requires |ps[5]| == 1 && |ps[6]| == 1 && |ps[7]| == 1 && |ps[8]| == 1
    ensures |Join(ps)| == |ps[0]| + |ps[2]| + |ps[4]| + 6
  {
    var a, b, c := |ps[0]|, |ps[0]| + |ps[2]| + 1, |ps[0]| + |ps[2]| + |ps[4]| + 2;
    JoinWidth(ps);
    SumByTotals(Widths(ps), [0, a, a + 1, b, b + 1, c, c + 1, c + 2, c + 3, c + 4]);
  }

  lemma ChatHeadFits(name: seq<char>, used: nat, clock: Option<Tm>)
    requires |name| == MAX_NAME_LEN && NameOk(name, used)
    requires clock.Some? ==> SmallFields(clock.value)
    ensures |CString(name)| <= used
    ensures |ChatHead(name, clock)| <= MAX_NAME_LEN + 21
  {
    if clock.Some? {
      ClockText(clock.value);
    }
  }

  // A chat line with a time of day, or without a clock, is at most one byte shorter than the
  // buffer it is composed in.
  lemma ChatLineFits(name: seq<char>, used: nat, clock: Option<Tm>, line: seq<char>)
    requires |name| == MAX_NAME_LEN && NameOk(name, used) && |line| <= MAX_LINE_LEN
    requires clock.Some? ==> ValidClock(clock.value)
    ensures |CString(name)| <= used
    ensures |ChatLine(name, clock, line)| <= 560 && MSG_LEN == 561
    ensures Truncated(ChatLine(name, clock, line), MSG_LEN) == ChatLine(name, clock, line)
  {
    if clock.Some? {
      ClockText(clock.value);
    }
  }
}
