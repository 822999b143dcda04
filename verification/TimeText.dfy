/** lib/cfa/src/time.c: the three formatters of struct tm, and parsers that undo them. */
module TimeText {
  import opened Options
  import opened Bits
  import opened Memory
  import opened Numerals
  import opened Calendar
  import opened Time

  // A text in pieces. The formatters write one piece after the other.
  function Join(ps: seq<string>): string {
    if ps == [] then "" else Join(ps[..|ps| - 1]) + ps[|ps| - 1]
  }

  function Widths(ps: seq<string>): (ws: seq<nat>)
    ensures |ws| == |ps|
  {
    seq(|ps|, i requires 0 <= i < |ps| => |ps[i]|)
  }

  function Sum(ws: seq<nat>): nat {
    if ws == [] then 0 else Sum(ws[..|ws| - 1]) + ws[|ws| - 1]
  }

  // Cuts a text into pieces of the given widths.
  function Cut(s: string, ws: seq<nat>): (ps: seq<string>)
    requires |s| == Sum(ws)
    ensures |ps| == |ws|
    decreases |ws|
  {
    if ws == [] then []
    else
      var n := |s| - ws[|ws| - 1];
      Cut(s[..n], ws[..|ws| - 1]) + [s[n..]]
  }

  lemma {:induction false} JoinWidth(ps: seq<string>)
    ensures |Join(ps)| == Sum(Widths(ps))
  {
    if ps != [] {
      JoinWidth(ps[..|ps| - 1]);
      assert Widths(ps)[..|ps| - 1] == Widths(ps[..|ps| - 1]);
    }
  }

  // Cutting at the right places undoes joining.
  lemma {:induction false} CutJoin(ps: seq<string>)
    ensures |Join(ps)| == Sum(Widths(ps))
    ensures Cut(Join(ps), Widths(ps)) == ps
  {
    JoinWidth(ps);
    if ps != [] {
      CutJoin(ps[..|ps| - 1]);
      assert Widths(ps)[..|ps| - 1] == Widths(ps[..|ps| - 1]);
      var n := |Join(ps)| - |ps[|ps| - 1]|;
      assert Join(ps)[..n] == Join(ps[..|ps| - 1]) && Join(ps)[n..] == ps[|ps| - 1];
    }
  }

  lemma JoinStep(ps: seq<string>, k: nat)
    requires k < |ps|
    ensures Join(ps[..k + 1]) == Join(ps[..k]) + ps[k]
  {
    assert ps[..k + 1][..k] == ps[..k];
  }

  lemma {:induction false} JoinPrefix(ps: seq<string>, k: nat)
    requires k <= |ps|
    ensures |Join(ps[..k])| <= |Join(ps)|
    decreases |ps| - k
  {
    if k < |ps| {
      JoinPrefix(ps, k + 1);
      JoinStep(ps, k);
    } else {
      assert ps[..k] == ps;
    }
  }

  // The first k pieces stand at the start of the slice, and n is their length.
  ghost predicate Written(mem: array<char>, m0: seq<char>, s: Slice, ps: seq<string>, k: nat, n: nat)
    reads mem
  {
    && |m0| == mem.Length && s.base + s.cap <= |m0| && |Join(ps)| <= s.cap < U64
    && k <= |ps| && n == |Join(ps[..k])| <= |Join(ps)|
    && mem[..] == Put(m0, s.base, Join(ps[..k]))
  }

  lemma StartWriting(mem: array<char>, s: Slice, ps: seq<string>)
    requires Fits(s, mem) && |Join(ps)| <= s.cap < U64
    ensures Written(mem, mem[..], s, ps, 0, 0)
  {
    PutNothing(mem[..], s.base);
  }

  // Piece k is a character.
  method WriteChar(mem: array<char>, s: Slice, n0: nat, ch: char,
                   ghost m0: seq<char>, ghost ps: seq<string>, ghost k: nat)
    returns (n: nat)
    requires Written(mem, m0, s, ps, k, n0) && k < |ps| && ps[k] == [ch]
    modifies mem
    ensures Written(mem, m0, s, ps, k + 1, n)
  {
    hide Put, Join;
    JoinStep(ps, k);
    JoinPrefix(ps, k + 1);
    PutChar(mem, s.base + n0, ch);
    PutPut(m0, s.base, Join(ps[..k]), [ch]);
    n := n0 + 1;
  }

  // Piece k is a number.
  method WriteInt(mem: array<char>, s: Slice, n0: nat, x: int,
                  ghost m0: seq<char>, ghost ps: seq<string>, ghost k: nat)
    returns (n: nat)
    requires Written(mem, m0, s, ps, k, n0) && k < |ps| && ps[k] == IntText(x)
    requires -MAX_INT64 <= x <= MAX_INT64
    modifies mem
    ensures Written(mem, m0, s, ps, k + 1, n)
  {
    hide Put, Join, IntText;
    JoinStep(ps, k);
    JoinPrefix(ps, k + 1);
    var i := IntInSlice(mem, SliceLeft(s, n0), x);
    assert IntText(x)[..i] == IntText(x);
    PutPut(m0, s.base, Join(ps[..k]), IntText(x));
    n := n0 + i;
  }

  // A number below ten gets a leading zero.
  function Two(x: int): string {
    (if x < 10 then "0" else "") + IntText(x)
  }

  method WriteTwo(mem: array<char>, s: Slice, n0: nat, x: int,
                  ghost m0: seq<char>, ghost ps: seq<string>, ghost k: nat)
    returns (n: nat)
    requires Written(mem, m0, s, ps, k, n0) && k < |ps| && ps[k] == Two(x)
    requires -MAX_INT64 <= x <= MAX_INT64
    modifies mem
    ensures Written(mem, m0, s, ps, k + 1, n)
  {
    hide Put, Join, IntText;
    JoinStep(ps, k);
    JoinPrefix(ps, k + 1);
    n := n0;
    ghost var pad := "";
    if x < 10 {
      PutChar(mem, s.base + n, '0');
      n := n + 1;
      pad := "0";
      PutPut(m0, s.base, Join(ps[..k]), pad);
    }
    assert Join(ps[..k]) + "" == Join(ps[..k]);
    var i := IntInSlice(mem, SliceLeft(s, n), x);
    assert IntText(x)[..i] == IntText(x);
    assert Join(ps[..k]) + pad + IntText(x) == Join(ps[..k + 1]);
    PutPut(m0, s.base, Join(ps[..k]) + pad, IntText(x));
    n := n + i;
  }

  // Piece k is a text.
  method WriteString(mem: array<char>, s: Slice, n0: nat, text: string,
                     ghost m0: seq<char>, ghost ps: seq<string>, ghost k: nat)
    returns (n: nat)
    requires Written(mem, m0, s, ps, k, n0) && k < |ps| && ps[k] == text
    requires |Join(ps)| <= s.len <= s.cap
    modifies mem
    ensures Written(mem, m0, s, ps, k + 1, n)
  {
    hide Put, Join;
    JoinStep(ps, k);
    JoinPrefix(ps, k + 1);
    var l := StringInSlice(mem, SliceLeft(s, n0), text);
    assert text[..l] == text;
    PutPut(m0, s.base, Join(ps[..k]), text);
    n := n0 + l;
  }

  // The six pieces from the hour on, as two of the formatters write them.
  method WriteClock(mem: array<char>, s: Slice, n0: nat, tm: Tm,
                    ghost m0: seq<char>, ghost ps: seq<string>, ghost k: nat)
    returns (n: nat)
    requires Written(mem, m0, s, ps, k, n0)
    requires k + 6 <= |ps| && ps[k] == Two(tm.hour) && ps[k + 2] == Two(tm.min) && ps[k + 4] == Two(tm.sec)
    requires ps[k + 1] == ps[k + 3] == ":" && ps[k + 5] == " "
    modifies mem
    ensures Written(mem, m0, s, ps, k + 6, n)
  {
    hide Join, Put, Written, Two, IntText;
    n := WriteTwo(mem, s, n0, tm.hour, m0, ps, k);
    n := WriteChar(mem, s, n, ':', m0, ps, k + 1);
    n := WriteTwo(mem, s, n, tm.min, m0, ps, k + 2);
    n := WriteChar(mem, s, n, ':', m0, ps, k + 3);
    n := WriteTwo(mem, s, n, tm.sec, m0, ps, k + 4);
    n := WriteChar(mem, s, n, ' ', m0, ps, k + 5);
  }

  // Day, month and year with dots, the clock with colons, and the name of the zone.
  function TmPieces(tm: Tm): seq<string> {
    [Two(tm.mday), ".", Two(tm.mon + 1), ".", IntText(tm.year + 1900), " ",
     Two(tm.hour), ":", Two(tm.min), ":", Two(tm.sec), " ", "M", "S", "K"]
  }

  /** tm_in_slice. It writes without looking at the capacity, so the caller must. */
  method TmInSlice(mem: array<char>, s: Slice, tm: Tm) returns (n: nat)
    requires tm.year + 1900 <= 0x7FFF_FFFF // an int sum
    requires Fits(s, mem) && |Join(TmPieces(tm))| <= s.cap < U64
    modifies mem
    ensures n == |Join(TmPieces(tm))|
    ensures mem[..] == Put(old(mem[..]), s.base, Join(TmPieces(tm)))
  {
    hide Join, Put, Written, Two, IntText;
    ghost var ps, m0 := TmPieces(tm), mem[..];
    StartWriting(mem, s, ps);
    n := 0;
    n := WriteTwo(mem, s, n, tm.mday, m0, ps, 0);
    n := WriteChar(mem, s, n, '.', m0, ps, 1);
    n := WriteTwo(mem, s, n, tm.mon + 1, m0, ps, 2);
    n := WriteChar(mem, s, n, '.', m0, ps, 3);
    n := WriteInt(mem, s, n, tm.year + 1900, m0, ps, 4);
    n := WriteChar(mem, s, n, ' ', m0, ps, 5);
    n := WriteClock(mem, s, n, tm, m0, ps, 6);
    n := WriteChar(mem, s, n, 'M', m0, ps, 12);
    n := WriteChar(mem, s, n, 'S', m0, ps, 13);
    n := WriteChar(mem, s, n, 'K', m0, ps, 14);
    AllWritten(mem, m0, s, ps, n);
  }

  lemma AllWritten(mem: array<char>, m0: seq<char>, s: Slice, ps: seq<string>, n: nat)
    requires Written(mem, m0, s, ps, |ps|, n)
    ensures s.base + |Join(ps)| <= |m0|
    ensures n == |Join(ps)| && mem[..] == Put(m0, s.base, Join(ps))
  {
    assert ps[..|ps|] == ps;
  }

  // The clock alone, with no zero before the hour.
  function ClockPieces(tm: Tm): seq<string> {
    [IntText(tm.hour), ":", Two(tm.min), ":", Two(tm.sec), " ", "M", "S", "K"]
  }

  /** tm_in_slice2, the time in a chat line. */
  method TmInSlice2(mem: array<char>, s: Slice, tm: Tm) returns (n: nat)
    requires Fits(s, mem) && |Join(ClockPieces(tm))| <= s.cap < U64
    modifies mem
    ensures n == |Join(ClockPieces(tm))|
    ensures mem[..] == Put(old(mem[..]), s.base, Join(ClockPieces(tm)))
  {
    hide Join, Put, Written, Two, IntText;
    ghost var ps, m0 := ClockPieces(tm), mem[..];
    StartWriting(mem, s, ps);
    n := WriteInt(mem, s, 0, tm.hour, m0, ps, 0);
    n := WriteChar(mem, s, n, ':', m0, ps, 1);
    n := WriteTwo(mem, s, n, tm.min, m0, ps, 2);
    n := WriteChar(mem, s, n, ':', m0, ps, 3);
    n := WriteTwo(mem, s, n, tm.sec, m0, ps, 4);
    n := WriteChar(mem, s, n, ' ', m0, ps, 5);
    n := WriteChar(mem, s, n, 'M', m0, ps, 6);
    n := WriteChar(mem, s, n, 'S', m0, ps, 7);
    n := WriteChar(mem, s, n, 'K', m0, ps, 8);
    AllWritten(mem, m0, s, ps, n);
  }

  // A number between -100 and 100, printed plainly and with two digits.
  lemma SmallNumber(x: int)
    requires -100 < x < 100
    ensures |IntText(x)| <= 3 && |Two(x)| <= 4
    ensures 0 <= x ==> |IntText(x)| <= 2 && |Two(x)| == 2
    ensures 0 <= x < 10 ==> |IntText(x)| == 1
    ensures x < 0 ==> IntText(x)[0] == '-' && |Two(x)| > 2
  {
    if x < 0 {
      ShortDigits(-x);
    } else {
      TwoDigits(x);
      if x < 10 {
        OneDigit(x);
      } else {
        ShortDigits(x);
      }
    }
  }

  // The fields of a clock that time_to_tm can show, a time of day or not.
  predicate SmallFields(tm: Tm) {
    -24 < tm.hour < 24 && -60 < tm.min < 60 && -60 < tm.sec < 60
  }

  datatype TimeOfDay = TimeOfDay(hour: int, min: int, sec: int)

  // Reads a time of day in Moscow with an hour of one or two digits.
  function ParseClock(s: string): Option<TimeOfDay> {
    var h := if |s| > 1 && s[1] == ':' then 1 else 2;
    if |s| == h + 10
      && AllDigits(s[..h]) && AllDigits(s[h + 1..h + 3]) && AllDigits(s[h + 4..h + 6])
      && s[h] == ':' && s[h + 3] == ':' && s[h + 6..] == " MSK"
    then Some(TimeOfDay(ParseInt(s[..h]), ParseInt(s[h + 1..h + 3]), ParseInt(s[h + 4..h + 6])))
    else None
  }

  lemma JoinThree(a: string, b: string, c: string)
    ensures Join([a, b, c]) == a + b + c
  {
    var ps := [a, b, c];
    assert Join(ps[..1]) == "" + a;
    JoinStep(ps, 1);
    JoinStep(ps, 2);
    assert ps[..3] == ps;
  }

  lemma {:induction false} JoinConcat(ps: seq<string>, qs: seq<string>)
    ensures Join(ps + qs) == Join(ps) + Join(qs)
    decreases |qs|
  {
    if qs == [] {
      assert ps + qs == ps;
    } else {
      var n := |qs| - 1;
      JoinConcat(ps, qs[..n]);
      assert (ps + qs)[..|ps| + n] == ps + qs[..n];
    }
  }

  lemma ClockJoined(tm: Tm)
    ensures Join(ClockPieces(tm)) == IntText(tm.hour) + ":" + Two(tm.min) + ":" + Two(tm.sec) + " MSK"
  {
    hide Join, IntText, Two;
    var a, b, c := IntText(tm.hour), Two(tm.min), Two(tm.sec);
    JoinConcat([a, ":", b] + [":", c, " "], ["M", "S", "K"]);
    JoinConcat([a, ":", b], [":", c, " "]);
    JoinThree(a, ":", b);
    JoinThree(":", c, " ");
    JoinThree("M", "S", "K");
    assert ClockPieces(tm) == [a, ":", b] + [":", c, " "] + ["M", "S", "K"];
    assert a + ":" + b + (":" + c + " ") + ("M" + "S" + "K") == a + ":" + b + ":" + c + " MSK";
  }

  lemma HourText(x: nat)
    requires x < 24
    ensures 1 <= |IntText(x)| <= 2 && AllDigits(IntText(x)) && ParseInt(IntText(x)) == x
  {
    SmallNumber(x);
    IntTextIsDigits(x);
    IntRoundTrip(x);
  }

  lemma TwoText(x: nat)
    requires x < 60
    ensures |Two(x)| == 2 && AllDigits(Two(x)) && ParseInt(Two(x)) == x
  {
    TwoDigits(x);
    IntTextIsDigits(x);
  }

  // Where the parts of a clock stand.
  lemma ClockParts(a: string, b: string, c: string)
    requires 1 <= |a| <= 2 && |b| >= 2 && |c| >= 2
    ensures var s := a + ":" + b + ":" + c + " MSK";
      && |s| == |a| + |b| + |c| + 6 && s[..|a|] == a && s[|a|] == ':'
      && (|b| == 2 && |c| == 2 ==>
            && s[|a| + 1..|a| + 3] == b && s[|a| + 3] == ':' && s[|a| + 4..|a| + 6] == c && s[|a| + 6..] == " MSK")
  {
  }

  // The clock of a chat line can be read back if and only if it shows a time of day.
  lemma ClockReadsBackIff(tm: Tm)
    requires SmallFields(tm)
    ensures ParseClock(Join(ClockPieces(tm))) == Some(TimeOfDay(tm.hour, tm.min, tm.sec)) <==> ValidClock(tm)
    ensures ParseClock(Join(ClockPieces(tm))).Some? <==> ValidClock(tm)
  {
    hide Join, Two, IntText, ParseInt, AllDigits;
    var a, b, c := IntText(tm.hour), Two(tm.min), Two(tm.sec);
    ClockJoined(tm);
    var s := a + ":" + b + ":" + c + " MSK";
    assert Join(ClockPieces(tm)) == s;
    SmallNumber(tm.hour);
    SmallNumber(tm.min);
    SmallNumber(tm.sec);
    if tm.hour < 0 {
      SignIsNoDigit(s);
    } else {
      HourText(tm.hour);
      ClockParts(a, b, c);
      DigitIsNoColon(a);
      if tm.min >= 0 && tm.sec >= 0 {
        TwoText(tm.min);
        TwoText(tm.sec);
      }
    }
  }

  lemma SignIsNoDigit(s: string)
    requires s != [] && s[0] == '-'
    ensures forall h :: 1 <= h <= |s| ==> !AllDigits(s[..h])
  {
    forall h | 1 <= h <= |s|
      ensures !AllDigits(s[..h])
    {
      assert s[..h][0] == '-';
    }
  }

  lemma DigitIsNoColon(a: string)
    requires AllDigits(a)
    ensures ':' !in a
  {
  }

  // Two times of day have the same text if and only if they are the same.
  lemma ClockTextIsInjective(a: Tm, b: Tm)
    requires ValidClock(a) && ValidClock(b)
    ensures Join(ClockPieces(a)) == Join(ClockPieces(b)) <==> a.hour == b.hour && a.min == b.min && a.sec == b.sec
  {
    hide Join, ParseClock, Two, IntText;
    ClockReadsBackIff(a);
    ClockReadsBackIff(b);
  }

  const WDAYS := ["Sun", "Mon", "Tue", "Wed", "Thu", "Fri", "Sat"]
  const MONTHS := ["Jan", "Feb", "Mar", "Apr", "May", "Jun", "Jul", "Aug", "Sep", "Oct", "Nov", "Dec"]

  // Weekday and month by name, the clock, and the zone as an offset.
  function Rfc822Pieces(tm: Tm): seq<string>
    requires 0 <= tm.wday < 7 && 0 <= tm.mon < 12
  {
    [WDAYS[tm.wday], ",", " ", Two(tm.mday), " ", MONTHS[tm.mon], " ", IntText(tm.year + 1900), " ",
     Two(tm.hour), ":", Two(tm.min), ":", Two(tm.sec), " ", "+", "0", "3", "0", "0"]
  }

  /** tm_rfc822_in_slice. */
  method TmRfc822InSlice(mem: array<char>, s: Slice, tm: Tm) returns (n: nat)
    requires 0 <= tm.wday < 7 && 0 <= tm.mon < 12
    requires tm.year + 1900 <= 0x7FFF_FFFF
    requires Fits(s, mem) && |Join(Rfc822Pieces(tm))| <= s.len <= s.cap < U64
    modifies mem
    ensures n == |Join(Rfc822Pieces(tm))|
    ensures mem[..] == Put(old(mem[..]), s.base, Join(Rfc822Pieces(tm)))
  {
    hide Join, Put, Written, Two, IntText;
    ghost var ps, m0 := Rfc822Pieces(tm), mem[..];
    StartWriting(mem, s, ps);
    n := WriteString(mem, s, 0, WDAYS[tm.wday], m0, ps, 0);
    n := WriteChar(mem, s, n, ',', m0, ps, 1);
    n := WriteChar(mem, s, n, ' ', m0, ps, 2);
    n := WriteTwo(mem, s, n, tm.mday, m0, ps, 3);
    n := WriteChar(mem, s, n, ' ', m0, ps, 4);
    n := WriteString(mem, s, n, MONTHS[tm.mon], m0, ps, 5);
    n := WriteChar(mem, s, n, ' ', m0, ps, 6);
    n := WriteInt(mem, s, n, tm.year + 1900, m0, ps, 7);
    n := WriteChar(mem, s, n, ' ', m0, ps, 8);
    n := WriteClock(mem, s, n, tm, m0, ps, 9);
    n := WriteChar(mem, s, n, '+', m0, ps, 15);
    n := WriteChar(mem, s, n, '0', m0, ps, 16);
    n := WriteChar(mem, s, n, '3', m0, ps, 17);
    n := WriteChar(mem, s, n, '0', m0, ps, 18);
    n := WriteChar(mem, s, n, '0', m0, ps, 19);
    AllWritten(mem, m0, s, ps, n);
  }

  // The date and time that the first of the texts shows.
  datatype Stamp = Stamp(mday: int, mon: int, year: int, hour: int, min: int, sec: int)

  const TM_WIDTHS: seq<nat> := [2, 1, 2, 1, 4, 1, 2, 1, 2, 1, 2, 1, 1, 1, 1]

  function ParseTm(s: string): Option<Stamp> {
    if |s| != Sum(TM_WIDTHS) then None
    else
      var p := Cut(s, TM_WIDTHS);
      if [p[1], p[3], p[5], p[7], p[9], p[11], p[12], p[13], p[14]] == [".", ".", " ", ":", ":", " ", "M", "S", "K"]
      then Some(Stamp(ParseInt(p[0]), ParseInt(p[2]), ParseInt(p[4]), ParseInt(p[6]), ParseInt(p[8]), ParseInt(p[10])))
      else None
  }

  // Sums by running totals.
  lemma {:induction false} SumByTotals(ws: seq<nat>, totals: seq<nat>)
    requires |totals| == |ws| + 1 && totals[0] == 0
    requires forall i :: 0 <= i < |ws| ==> totals[i + 1] == totals[i] + ws[i]
    ensures Sum(ws) == totals[|ws|]
  {
    if ws != [] {
      var n := |ws| - 1;
      SumByTotals(ws[..n], totals[..n + 1]);
      assert totals[n + 1] == totals[n] + ws[n];
    }
  }

  lemma SumTmWidths()
    ensures Sum(TM_WIDTHS) == 23
  {
    SumByTotals(TM_WIDTHS, [0, 2, 3, 5, 6, 10, 11, 13, 14, 16, 17, 19, 20, 21, 22, 23]);
  }

  // A number of one or two digits, printed with two, parses back.
  lemma TwoDigits(x: nat)
    requires x < 100
    ensures |Two(x)| == 2 && ParseInt(Two(x)) == x
  {
    if x < 10 {
      OneDigit(x);
      assert DigitsIn(Two(x)) == [0, x];
      assert [0, x][..1] == [0] && [0][..0] == [];
      assert Value([0, x], 10) == 10 * Value([0], 10) + x;
    } else {
      ShortDigits(x);
      IntRoundTrip(x);
      assert Two(x) == IntText(x);
    }
  }

  lemma OneDigit(x: nat)
    requires x < 10
    ensures |IntText(x)| == 1 && DigitOf(IntText(x)[0]) == x && IntText(x)[0] != '-'
  {
    if x > 0 {
      assert Quotient(x, 10) == 0;
      assert Digits(x, 10) == [x];
    }
  }

  lemma ShortDigits(x: nat)
    requires x > 0
    ensures x < 10 ==> |Digits(x, 10)| == 1
    ensures 10 <= x < 100 ==> |Digits(x, 10)| == 2 && |IntText(x)| == 2
  {
    if 10 <= x < 100 {
      assert 1 <= Quotient(x, 10) < 10;
      assert Quotient(Quotient(x, 10), 10) == 0;
    }
  }

  lemma FourDigits(x: nat)
    requires 1000 <= x <= 9999
    ensures |IntText(x)| == 4 && ParseInt(IntText(x)) == x
  {
    IntRoundTrip(x);
    var q := Quotient(x, 10);
    var r := Quotient(q, 10);
    assert 100 <= q < 1000 && 10 <= r < 100;
    ShortDigits(r);
    assert Digits(q, 10) == Digits(r, 10) + [q - 10 * r];
  }

  // A time whose fields print with their usual widths and parse back.
  predicate Printable(tm: Tm) {
    && |Two(tm.mday)| == 2 && ParseInt(Two(tm.mday)) == tm.mday
    && |Two(tm.mon + 1)| == 2 && ParseInt(Two(tm.mon + 1)) == tm.mon + 1
    && |IntText(tm.year + 1900)| == 4 && ParseInt(IntText(tm.year + 1900)) == tm.year + 1900
    && |Two(tm.hour)| == 2 && ParseInt(Two(tm.hour)) == tm.hour
    && |Two(tm.min)| == 2 && ParseInt(Two(tm.min)) == tm.min
    && |Two(tm.sec)| == 2 && ParseInt(Two(tm.sec)) == tm.sec
  }

  lemma ValidIsPrintable(tm: Tm)
    requires ValidClock(tm) && ValidDate(tm) && tm.year + 1900 <= 9999
    ensures Printable(tm)
  {
    hide Two, IntText, ParseInt;
    TwoDigits(tm.mday);
    TwoDigits(tm.mon + 1);
    FourDigits(tm.year + 1900);
    TwoDigits(tm.hour);
    TwoDigits(tm.min);
    TwoDigits(tm.sec);
  }

  lemma TmWidths(tm: Tm)
    requires Printable(tm)
    ensures Widths(TmPieces(tm)) == TM_WIDTHS
    ensures |Join(TmPieces(tm))| == 23
  {
    hide Two, IntText, ParseInt, Join, Sum;
    var ps := TmPieces(tm);
    JoinWidth(ps);
    SumTmWidths();
    assert forall i :: 0 <= i < 15 ==> |ps[i]| == TM_WIDTHS[i];
  }

  // The text of a valid time up to the year 9999 has 23 characters and can be parsed back.
  lemma TmRoundTrip(tm: Tm)
    requires ValidClock(tm) && ValidDate(tm) && tm.year + 1900 <= 9999
    ensures |Join(TmPieces(tm))| == 23
    ensures ParseTm(Join(TmPieces(tm)))
         == Some(Stamp(tm.mday, tm.mon + 1, tm.year + 1900, tm.hour, tm.min, tm.sec))
  {
    hide Two, IntText, ParseInt, Join, Sum, Cut, ValidDate, ValidClock;
    ValidIsPrintable(tm);
    TmWidths(tm);
    SumTmWidths();
    CutJoin(TmPieces(tm));
  }

  // Different instants have different texts, until the year needs a fifth digit.
  lemma TmTextIsInjective(a: Tm, b: Tm, t: int, u: int)
    requires IsTmOf(a, t) && IsTmOf(b, u)
    requires a.year + 1900 <= 9999 && b.year + 1900 <= 9999
    ensures Join(TmPieces(a)) == Join(TmPieces(b)) <==> t == u
  {
    hide Join, TmPieces, Count, ParseTm, ValidDate, Consistent;
    TmRoundTrip(a);
    TmRoundTrip(b);
    if t == u {
      TmIsUnique(a, b, t);
    } else if Join(TmPieces(a)) == Join(TmPieces(b)) {
      assert a.mday == b.mday && a.mon == b.mon && a.year == b.year;
      CountIsMonotone(a, b);
      CountIsMonotone(b, a);
    }
  }

  // The grammar of a date and time of section 5.1 of RFC 822, with a weekday, with
  // seconds, with a numeric zone and with the four-digit year of section 5.2.14 of
  // RFC 1123: what it denotes, if the text follows it.
  datatype Rfc822 = Rfc822(wday: int, mday: int, mon: int, year: int, hour: int, min: int, sec: int, zone: string)

  const RFC822_WIDTHS: seq<nat> := [3, 1, 1, 2, 1, 3, 1, 4, 1, 2, 1, 2, 1, 2, 1, 1, 1, 1, 1, 1]

  predicate AllDigits(s: string) {
    forall i :: 0 <= i < |s| ==> '0' <= s[i] <= '9'
  }

  // The days of the week from Sunday on, 7 for any other text.
  function WeekdayOf(s: string): int {
    if s == "Sun" then 0 else if s == "Mon" then 1 else if s == "Tue" then 2 else if s == "Wed" then 3
    else if s == "Thu" then 4 else if s == "Fri" then 5 else if s == "Sat" then 6 else 7
  }

  // The months from January on, 12 for any other text.
  function MonthOf(s: string): int {
    if s == "Jan" then 0 else if s == "Feb" then 1 else if s == "Mar" then 2 else if s == "Apr" then 3
    else if s == "May" then 4 else if s == "Jun" then 5 else if s == "Jul" then 6 else if s == "Aug" then 7
    else if s == "Sep" then 8 else if s == "Oct" then 9 else if s == "Nov" then 10 else if s == "Dec" then 11
    else 12
  }

  function ParseRfc822(s: string): Option<Rfc822> {
    if |s| != Sum(RFC822_WIDTHS) then None
    else
      var p := Cut(s, RFC822_WIDTHS);
      var wday, mon := WeekdayOf(p[0]), MonthOf(p[5]);
      if wday < 7 && mon < 12
        && [p[1], p[2], p[4], p[6], p[8], p[10], p[12], p[14]] == [",", " ", " ", " ", " ", ":", ":", " "]
        && AllDigits(p[3]) && AllDigits(p[7]) && AllDigits(p[9]) && AllDigits(p[11]) && AllDigits(p[13])
        && (p[15] == "+" || p[15] == "-") && AllDigits(p[16] + p[17] + p[18] + p[19])
      then Some(Rfc822(wday, ParseInt(p[3]), mon, ParseInt(p[7]), ParseInt(p[9]), ParseInt(p[11]), ParseInt(p[13]),
                       p[15] + p[16] + p[17] + p[18] + p[19]))
      else None
  }

  lemma SumRfc822Widths()
    ensures Sum(RFC822_WIDTHS) == 31
  {
    SumByTotals(RFC822_WIDTHS, [0, 3, 4, 5, 7, 8, 11, 12, 16, 17, 19, 20, 22, 23, 25, 26, 27, 28, 29, 30, 31]);
  }

  lemma IntTextIsDigits(x: nat)
    ensures AllDigits(IntText(x)) && AllDigits(Two(x))
  {
    if x > 0 {
      TextIsDigits(Digits(x, 10));
    }
  }

  lemma TextIsDigits(ds: seq<nat>)
    requires Below(ds, 10)
    ensures AllDigits(Text(ds))
  {
    forall i | 0 <= i < |ds|
      ensures '0' <= Text(ds)[i] <= '9'
    {
      DigitChar(ds[i]);
    }
  }

  lemma DigitChar(d: nat)
    requires d < 10
    ensures '0' <= Char(d) <= '9'
  {
  }

  lemma NamesAreFound(wday: int, mon: int)
    requires 0 <= wday < 7 && 0 <= mon < 12
    ensures |WDAYS[wday]| == 3 && WeekdayOf(WDAYS[wday]) == wday
    ensures |MONTHS[mon]| == 3 && MonthOf(MONTHS[mon]) == mon
  {
    WeekdayIsFound(wday);
    MonthIsFound(mon);
  }

  lemma WeekdayIsFound(wday: int)
    requires 0 <= wday < 7
    ensures |WDAYS[wday]| == 3 && WeekdayOf(WDAYS[wday]) == wday
  {
    var s := WDAYS[wday];
    assert s[0] in "SMTWF" && s[1] in "unoehra";
  }

  lemma MonthIsFound(mon: int)
    requires 0 <= mon < 12
    ensures |MONTHS[mon]| == 3 && MonthOf(MONTHS[mon]) == mon
  {
    var s := MONTHS[mon];
    assert s[1] in "aepuco" && s[2] in "nbrylgptvc";
  }

  lemma NameWidths(tm: Tm)
    requires 0 <= tm.wday < 7 && 0 <= tm.mon < 12
    ensures var ps := Rfc822Pieces(tm); |ps| == 20 && |ps[0]| == |ps[5]| == 3
  {
    hide Two, IntText;
    NamesAreFound(tm.wday, tm.mon);
  }

  lemma NumberWidths(tm: Tm)
    requires Printable(tm) && 0 <= tm.wday < 7 && 0 <= tm.mon < 12
    ensures var ps := Rfc822Pieces(tm);
      |ps| == 20 && |ps[3]| == |ps[9]| == |ps[11]| == |ps[13]| == 2 && |ps[7]| == 4
  {
    hide Two, IntText, ParseInt;
  }

  lemma SeparatorWidths(tm: Tm)
    requires 0 <= tm.wday < 7 && 0 <= tm.mon < 12
    ensures var ps := Rfc822Pieces(tm);
      && |ps| == 20
      && |ps[1]| == |ps[2]| == |ps[4]| == |ps[6]| == |ps[8]| == |ps[10]| == |ps[12]| == |ps[14]| == 1
      && |ps[15]| == |ps[16]| == |ps[17]| == |ps[18]| == |ps[19]| == 1
  {
    hide Two, IntText;
  }

  lemma Rfc822Widths(tm: Tm)
    requires Printable(tm) && 0 <= tm.wday < 7 && 0 <= tm.mon < 12
    ensures Widths(Rfc822Pieces(tm)) == RFC822_WIDTHS
    ensures |Join(Rfc822Pieces(tm))| == 31
  {
    hide Two, IntText, ParseInt, Join, Sum, Rfc822Pieces, Printable;
    var ps := Rfc822Pieces(tm);
    JoinWidth(ps);
    SumRfc822Widths();
    NameWidths(tm);
    NumberWidths(tm);
    SeparatorWidths(tm);
    assert forall i :: 0 <= i < 20 ==> |ps[i]| == RFC822_WIDTHS[i];
  }

  lemma ValidIsDigits(tm: Tm)
    requires ValidClock(tm) && ValidDate(tm)
    ensures AllDigits(Two(tm.mday)) && AllDigits(IntText(tm.year + 1900))
    ensures AllDigits(Two(tm.hour)) && AllDigits(Two(tm.min)) && AllDigits(Two(tm.sec))
    ensures AllDigits("0" + "3" + "0" + "0")
  {
    hide Two, IntText;
    IntTextIsDigits(tm.mday);
    IntTextIsDigits(tm.year + 1900);
    IntTextIsDigits(tm.hour);
    IntTextIsDigits(tm.min);
    IntTextIsDigits(tm.sec);
  }

  // What tm_rfc822_in_slice writes is 31 characters that follow the grammar and denote
  // the time, its weekday included.
  lemma Rfc822RoundTrip(tm: Tm)
    requires ValidClock(tm) && ValidDate(tm) && tm.year + 1900 <= 9999 && 0 <= tm.wday < 7
    ensures |Join(Rfc822Pieces(tm))| == 31
    ensures ParseRfc822(Join(Rfc822Pieces(tm)))
         == Some(Rfc822(tm.wday, tm.mday, tm.mon, tm.year + 1900, tm.hour, tm.min, tm.sec, "+0300"))
  {
    hide Two, IntText, ParseInt, Join, Sum, Cut, WeekdayOf, MonthOf, AllDigits;
    ValidIsPrintable(tm);
    ValidIsDigits(tm);
    NamesAreFound(tm.wday, tm.mon);
    Rfc822Widths(tm);
    SumRfc822Widths();
    CutJoin(Rfc822Pieces(tm));
    assert "+" + "0" + "3" + "0" + "0" == "+0300";
  }
}
