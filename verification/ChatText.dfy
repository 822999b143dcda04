/** What a chat message tells its readers: a parser of the text that check_line_and_send of
    src/chat_server.c composes, written without looking at how it does. */
module ChatText {
  import opened Basics
  import opened Options
  import opened Bits
  import opened Numerals
  import opened Calendar
  import opened Time
  import opened TimeText
  import opened Framing

  // Who has said it, when, if the text carries a time, and what.
  datatype Chat = Chat(name: string, time: Option<TimeOfDay>, line: string)

  // Reads the text of a client whose name has n bytes.
  function ReadChat(text: string, n: nat, timed: bool): Option<Chat> {
    if n > |text| then None
    else if timed then ReadTimed(text[..n], text[n..])
    else if |text| >= n + 2 && text[n..n + 2] == ": " then Some(Chat(text[..n], None, text[n + 2..]))
    else None
  }

  // What follows the name is a time in brackets, a colon, a space, and the line.
  function ReadTimed(name: string, rest: string): Option<Chat> {
    var k := FirstOf(rest, {')'});
    if 2 <= k && k + 3 <= |rest| && rest[..2] == " (" && rest[k..k + 3] == "): " then
      match ParseClock(rest[2..k])
      case None => None
      case Some(t) => Some(Chat(name, Some(t), rest[k + 3..]))
    else None
  }

  // What the fields of a clock say.
  function TimeOf(clock: Option<Tm>): Option<TimeOfDay> {
    if clock.None? then None else Some(TimeOfDay(clock.value.hour, clock.value.min, clock.value.sec))
  }

  predicate DayTime(clock: Option<Tm>) {
    clock.Some? ==> ValidClock(clock.value)
  }

  lemma FirstBehind(s: string, t: string, stops: set<char>)
    requires forall i :: 0 <= i < |s| ==> s[i] !in stops
    requires t != [] && t[0] in stops
    ensures FirstOf(s + t, stops) == |s|
  {
    assert (s + t)[|s|] == t[0];
  }

  lemma NoBracket(tm: Tm)
    requires SmallFields(tm)
    ensures ')' !in Join(ClockPieces(tm))
  {
    hide Join, IntText, Two;
    ClockJoined(tm);
    NumberHasNoBracket(tm.hour);
    NumberHasNoBracket(tm.min);
    NumberHasNoBracket(tm.sec);
  }

  lemma NumberHasNoBracket(x: int)
    ensures ')' !in IntText(x) && ')' !in Two(x)
  {
    var ds := Digits(if x < 0 then -x else x, 10);
    TextIsDigits(ds);
    assert ')' !in Text(ds);
  }

  // The text of a message gives back the name up to its terminator, the time and exactly the
  // line, if and only if the clock shows a time of day, or there is none.
  lemma ChatReadsBackIff(name: string, clock: Option<Tm>, line: string)
    requires clock.Some? ==> SmallFields(clock.value)
    ensures var n := |CString(name)|;
      ReadChat(ChatLine(name, clock, line), n, clock.Some?) == Some(Chat(CString(name), TimeOf(clock), line))
      <==> DayTime(clock)
  {
    hide Join, ClockPieces, ParseClock, FirstOf;
    var who, text := CString(name), ChatLine(name, clock, line);
    hide CString;
    if clock.None? {
      assert text == who + (": " + line);
      assert text[..|who|] == who && text[|who|..] == ": " + line;
      assert text[|who|..|who| + 2] == ": " && text[|who| + 2..] == line;
    } else {
      var t := Join(ClockPieces(clock.value));
      assert text == who + (" (" + t + "): " + line);
      TimedReadsBack(who, clock.value, line);
      ClockReadsBackIff(clock.value);
    }
  }

  lemma TimedReadsBack(who: string, tm: Tm, line: string)
    requires SmallFields(tm)
    ensures var t := Join(ClockPieces(tm));
      ReadTimed(who, " (" + t + "): " + line)
      == match ParseClock(t) { case None => None case Some(d) => Some(Chat(who, Some(d), line)) }
  {
    hide Join, ClockPieces, ParseClock, FirstOf;
    var t := Join(ClockPieces(tm));
    var rest := " (" + t + "): " + line;
    NoBracket(tm);
    assert rest == (" (" + t) + ("): " + line);
    FirstBehind(" (" + t, "): " + line, {')'});
    assert rest[2..2 + |t|] == t && rest[2 + |t|..5 + |t|] == "): " && rest[5 + |t|..] == line;
  }

  // A second for which the clock shows a time of day: any from 1601 on, in Moscow, and before
  // that one that starts a day.
  predicate ShownRight(now: Option<int>) {
    now.Some? ==> now.value + 10800 >= -134774 * 86400 || (now.value + 10800) % 86400 == 0
  }

  // The time of day in Moscow.
  predicate InMoscow(time: TimeOfDay, now: int) {
    && 0 <= time.hour < 24 && 0 <= time.min < 60 && 0 <= time.sec < 60
    && 3600 * time.hour + 60 * time.min + time.sec == (now + 10800) % 86400
  }

  // Whoever reads the text learns the name, the time, if the clock could be read, and the line.
  predicate Conveys(text: string, name: string, now: Option<int>, line: string) {
    match ReadChat(text, |name|, now.Some?)
    case None => false
    case Some(chat) =>
      && chat.name == name && chat.line == line && (chat.time.Some? <==> now.Some?)
      && (now.Some? ==> InMoscow(chat.time.value, now.value))
  }

  lemma ChatConveys(name: string, clock: Option<Tm>, now: Option<int>, line: string)
    requires clock.Some? <==> now.Some?
    requires clock.Some? ==> ShowsClock(clock.value, now.value)
    requires ShownRight(now)
    ensures DayTime(clock) && Conveys(ChatLine(name, clock, line), CString(name), now, line)
  {
    hide ReadChat, ChatLine, CString, ShowsClock;
    if clock.Some? {
      ClockIsUnique(clock.value, clock.value, now.value);
      ModUnique(now.value + SHIFT, DAY, 134774 + (now.value + 10800) / DAY, (now.value + 10800) % DAY);
      ClockIsMoscow(clock.value, now.value);
    }
    ChatReadsBackIff(name, clock, line);
  }

  // So two messages with the same text and names of the same length are the same message.
  lemma SameTextSameChat(a: string, s: Option<Tm>, line: string, b: string, t: Option<Tm>, line': string)
    requires DayTime(s) && DayTime(t) && s.Some? == t.Some? && |CString(a)| == |CString(b)|
    ensures ChatLine(a, s, line) == ChatLine(b, t, line')
        <==> CString(a) == CString(b) && TimeOf(s) == TimeOf(t) && line == line'
  {
    hide ReadChat, FirstOf;
    ChatReadsBackIff(a, s, line);
    ChatReadsBackIff(b, t, line');
    if CString(a) == CString(b) && TimeOf(s) == TimeOf(t) && s.Some? {
      hide Join;
      assert ClockPieces(s.value) == ClockPieces(t.value);
    }
  }

  // The name ends where the first bracket begins, or the first colon if there is no time, if
  // and only if it holds none itself.
  lemma NameShowsIff(name: string, clock: Option<Tm>, line: string)
    ensures var mark := if clock.Some? then '(' else ':';
      FirstOf(ChatLine(name, clock, line), {mark}) == |CString(name)| + (if clock.Some? then 1 else 0)
      <==> mark !in CString(name)
  {
    hide Join, ClockPieces;
    var who, text := CString(name), ChatLine(name, clock, line);
    var mark := if clock.Some? then '(' else ':';
    var before := if clock.Some? then who + " " else who;
    assert before <= text && text[|before|] == mark;
    assert mark in who ==> mark in before;
    assert forall i :: 0 <= i < |before| ==> text[i] == before[i];
  }

  // Otherwise the text alone does not tell the name: a message of one client can have the
  // text of another client's.
  lemma TextOfTwo(a: string, s: Option<Tm>, b: string, t: Option<Tm>, line: string)
    requires '\0' !in a && '\0' !in b
    ensures ChatLine(a, s, ChatLine(b, t, line)) == ChatLine(ChatHead(a, s) + b, t, line)
  {
    HeadHasNoTerminator(a, s);
    HeadBehind(ChatHead(a, s), b, t);
    hide ChatHead;
    Associates(ChatHead(a, s), ChatHead(b, t), line);
  }

  lemma HeadHasNoTerminator(name: string, clock: Option<Tm>)
    requires '\0' !in name
    ensures '\0' !in ChatHead(name, clock)
  {
    hide Join, ClockPieces, FirstOf;
    if clock.Some? {
      NoTerminator(clock.value);
    }
  }

  lemma HeadBehind(before: string, name: string, clock: Option<Tm>)
    requires '\0' !in before && '\0' !in name
    ensures ChatHead(before + name, clock) == before + ChatHead(name, clock)
  {
    NoneBefore(name);
    NoneBefore(before + name);
    hide Join, ClockPieces, CString;
    if clock.Some? {
      InFront(before, name, " (", Join(ClockPieces(clock.value)), "): ");
    } else {
      Associates(before, name, ": ");
    }
  }

  lemma InFront<T>(before: seq<T>, a: seq<T>, b: seq<T>, c: seq<T>, d: seq<T>)
    ensures before + a + b + c + d == before + (a + b + c + d)
  {
    Associates(before, a, b);
    Associates(before, a + b, c);
    Associates(before, a + b + c, d);
  }

  lemma NoneBefore(s: string)
    requires '\0' !in s
    ensures CString(s) == s
  {
  }

  lemma NoTerminator(tm: Tm)
    ensures '\0' !in Join(ClockPieces(tm))
  {
    hide Join, IntText, Two;
    ClockJoined(tm);
    NumberHasNoTerminator(tm.hour);
    NumberHasNoTerminator(tm.min);
    NumberHasNoTerminator(tm.sec);
  }

  lemma NumberHasNoTerminator(x: int)
    ensures '\0' !in IntText(x) && '\0' !in Two(x)
  {
    var ds := Digits(if x < 0 then -x else x, 10);
    TextIsDigits(ds);
    assert '\0' !in Text(ds);
  }
}
