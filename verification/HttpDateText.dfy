/**
 HTTP dates as text (tpt-http-cache/src/time.rs): the three historical formats that are parsed, the one that
 is printed, and that parsing undoes printing to the second except on the last day of a 400-year era.
 */
module HttpDateText {
  import opened Decimal
  import opened HttpDate
  import opened Wrappers

  // ----- Words -----

  /** The characters with the Unicode White_Space property. */
  predicate IsSpace(c: char)
  {
    var n := c as int;
    || 9 <= n <= 13 || n == 0x20 || n == 0x85 || n == 0xa0 || n == 0x1680 || 0x2000 <= n <= 0x200a
    || n == 0x2028 || n == 0x2029 || n == 0x202f || n == 0x205f || n == 0x3000
  }

  predicate IsWord(s: string)
  {
    s != "" && forall i :: 0 <= i < |s| ==> !IsSpace(s[i])
  }

  /** The words of a text, `word` being the one read so far. */
  function Words(s: string, word: string): (r: seq<string>)
  {
    if s == "" then if word == "" then [] else [word]
    else if IsSpace(s[0]) then (if word == "" then [] else [word]) + Words(s[1..], "")
    else Words(s[1..], word + [s[0]])
  }

  function Joined(words: seq<string>): (s: string)
  {
    if words == [] then "" else if |words| == 1 then words[0] else words[0] + " " + Joined(words[1..])
  }

  lemma {:induction false} WordRead(w: string, rest: string, word: string)
    requires forall i :: 0 <= i < |w| ==> !IsSpace(w[i])
    ensures Words(w + rest, word) == Words(rest, word + w)
  {
    if w == "" {
      assert w + rest == rest && word + w == word;
    } else {
      assert (w + rest)[1..] == w[1..] + rest;
      WordRead(w[1..], rest, word + [w[0]]);
      assert word + [w[0]] + w[1..] == word + w;
    }
  }

  lemma {:induction false} WordsJoined(words: seq<string>)
    requires forall i :: 0 <= i < |words| ==> IsWord(words[i])
    ensures Words(Joined(words), "") == words
  {
    if |words| == 1 {
      WordRead(words[0], "", "");
      assert words[0] + "" == words[0] && "" + words[0] == words[0];
    } else if |words| > 1 {
      var tail := " " + Joined(words[1..]);
      WordRead(words[0], tail, "");
      assert words[0] + " " + Joined(words[1..]) == words[0] + tail && "" + words[0] == words[0];
      assert tail[1..] == Joined(words[1..]);
      WordsJoined(words[1..]);
    }
  }

  /** At most three pieces between separators. */
  function Split3(s: string, c: char): (r: seq<string>)
  {
    var i := Find(s, c, 0);
    if i == |s| then [s]
    else
      var t := s[i + 1..];
      var j := Find(t, c, 0);
      if j == |t| then [s[..i], t] else [s[..i], t[..j], t[j + 1..]]
  }

  function Find(s: string, c: char, i: nat): (k: nat)
    requires i <= |s|
    ensures i <= k <= |s|
    decreases |s| - i
  {
    if i == |s| || s[i] == c then i else Find(s, c, i + 1)
  }

  lemma {:induction false} FindAfter(a: string, b: string, c: char, i: nat)
    requires i <= |a| && (forall k :: 0 <= k < |a| ==> a[k] != c) && (b == "" || b[0] == c)
    ensures Find(a + b, c, i) == |a|
    decreases |a| - i
  {
    if i < |a| {
      assert (a + b)[i] == a[i];
      FindAfter(a, b, c, i + 1);
    }
  }

  lemma SplitJoined(a: string, b: string, d: string, c: char)
    requires forall k :: 0 <= k < |a| ==> a[k] != c
    requires forall k :: 0 <= k < |b| ==> b[k] != c
    ensures Split3(a + [c] + b + [c] + d, c) == [a, b, d]
  {
    var rest, tail := [c] + b + [c] + d, [c] + d;
    var s, t := a + rest, b + tail;
    assert a + [c] + b + [c] + d == s;
    FindAfter(a, rest, c, 0);
    assert s[|a| + 1..] == t;
    FindAfter(b, tail, c, 0);
    assert t[|b| + 1..] == d;
  }

  // ----- Parsing -----

  function Lower(c: char): (l: char)
  {
    if 'A' <= c <= 'Z' then c + 32 as char else c
  }

  predicate SameIgnoringCase(a: string, b: string)
  {
    |a| == |b| && forall i :: 0 <= i < |a| ==> Lower(a[i]) == Lower(b[i])
  }

  const MONTHS: seq<string> := ["Jan", "Feb", "Mar", "Apr", "May", "Jun", "Jul", "Aug", "Sep", "Oct", "Nov", "Dec"]
  const WEEKDAYS: seq<string> := ["Sun", "Mon", "Tue", "Wed", "Thu", "Fri", "Sat"]

  /** The first month whose name matches, from 1. */
  function MonthFrom(name: string, i: nat): (r: Option<nat>)
    requires i <= 12
    decreases 12 - i
  {
    if i == 12 then None else if SameIgnoringCase(MONTHS[i], name) then Some(i + 1) else MonthFrom(name, i + 1)
  }

  datatype Time = Time(hour: nat, minute: nat, second: nat)

  function ParseTime(s: string): (r: Option<Time>)
  {
    var parts := Split3(s, ':');
    if |parts| < 3 then None
    else
      var h, m, t := ParseUnsigned(parts[0]), ParseUnsigned(parts[1]), ParseUnsigned(parts[2]);
      if h.None? || m.None? || t.None? || h.value > 23 || m.value > 59 || t.value > 60 then None
      else Some(Time(h.value, m.value, t.value))
  }

  /** Two-digit years are years of the twentieth century. */
  function ParseYear(s: string): (r: Option<int>)
  {
    var y := ParseSigned(s);
    if y.None? then None else if 0 <= y.value <= 99 then Some(1900 + y.value) else y
  }

  function DateToSeconds(y: int, m: int, d: int, t: Time): (r: Option<nat>)
  {
    if !(1 <= m <= 12) || !(1 <= d <= 31) then None
    else
      var secs := DaysFromCivil(Date(y, m, d)) * 86400 + t.hour * 3600 + t.minute * 60 + t.second;
      if secs < 0 then None else Some(secs)
  }

  function Assemble(day: string, month: string, year: string, time: string): (r: Option<nat>)
  {
    var d, m, y, t := ParseUnsigned(day), MonthFrom(month, 0), ParseYear(year), ParseTime(time);
    if d.None? || m.None? || y.None? || t.None? then None else DateToSeconds(y.value, m.value, d.value, t.value)
  }

  predicate Contains(s: string, c: char)
  {
    exists i :: 0 <= i < |s| && s[i] == c
  }

  /** The words after an optional weekday, ending in GMT. */
  function ParseBody(body: seq<string>): (r: Option<nat>)
  {
    if |body| < 2 then None
    else if Contains(body[0], '-') then
      var parts := Split3(body[0], '-');
      if |parts| < 3 then None else Assemble(parts[0], parts[1], parts[2], body[1])
    else if |body| < 4 then None
    else Assemble(body[0], body[1], body[2], body[3])
  }

  function ParseWords(words: seq<string>): (r: Option<nat>)
  {
    if words != [] && !SameIgnoringCase(words[|words| - 1], "GMT") && |words| >= 5 then
      Assemble(words[2], words[1], words[4], words[3])
    else if |words| < 2 then None
    else
      var first := words[0];
      ParseBody(if first != "" && first[|first| - 1] == ',' then words[1..] else words)
  }

  /** Seconds since the epoch, if the text is a date. */
  function ParseHttpDate(s: string): (r: Option<nat>)
  {
    ParseWords(Words(s, ""))
  }

  // ----- Printing -----

  predicate TimeOk(t: Time)
  {
    t.hour <= 23 && t.minute <= 59 && t.second <= 60
  }

  function TimeText(t: Time): (s: string)
  {
    Padded(t.hour, 2) + ":" + Padded(t.minute, 2) + ":" + Padded(t.second, 2)
  }

  /** A day that has a number from 1 to 31 in a month from 1 to 12. */
  predicate Printable(t: Date)
  {
    0 <= t.year < 0x8000_0000_0000_0000 && 1 <= t.month <= 12 && 1 <= t.day <= 31
  }

  /** "Sun, 06 Nov 1994 08:49:37 GMT" */
  function ImfWords(weekday: nat, t: Date, time: Time): (w: seq<string>)
    requires Printable(t) && weekday < 7
  {
    [WEEKDAYS[weekday] + ",", Padded(t.day, 2), MONTHS[t.month - 1], Padded(t.year, 4), TimeText(time), "GMT"]
  }

  lemma DigitsAreWords(s: string)
    requires s != "" && AllDigits(s)
    ensures IsWord(s) && !Contains(s, '-') && !Contains(s, ':') && !Contains(s, ',')
  {
    forall i | 0 <= i < |s| ensures !IsSpace(s[i]) && s[i] != '-' && s[i] != ':' && s[i] != ',' {
      assert IsDigit(s[i]);
    }
  }

  lemma TimeTextParses(h: string, m: string, s: string)
    requires h != "" && m != "" && s != "" && AllDigits(h) && AllDigits(m) && AllDigits(s)
    ensures Split3(h + ":" + m + ":" + s, ':') == [h, m, s] && IsWord(h + ":" + m + ":" + s)
  {
    DigitsAreWords(h);
    DigitsAreWords(m);
    DigitsAreWords(s);
    SplitJoined(h, m, s, ':');
  }

  lemma TimeParses(t: Time)
    requires TimeOk(t)
    ensures ParseTime(TimeText(t)) == Some(t) && IsWord(TimeText(t))
  {
    TimeTextParses(Padded(t.hour, 2), Padded(t.minute, 2), Padded(t.second, 2));
    UnsignedPadded(t.hour, 2);
    UnsignedPadded(t.minute, 2);
    UnsignedPadded(t.second, 2);
  }

  predicate Letters(s: string)
  {
    forall i :: 0 <= i < |s| ==> 'A' <= s[i] <= 'z'
  }

  lemma LettersAreWords(s: string)
    requires s != "" && Letters(s)
    ensures IsWord(s) && !Contains(s, '-') && IsWord(s + ",")
  {}

  lemma MonthWord(k: nat)
    requires k < 12
    ensures MONTHS[k] != "" && Letters(MONTHS[k])
  {}

  lemma MonthParses(m: int)
    requires 1 <= m <= 12
    ensures MonthFrom(MONTHS[m - 1], 0) == Some(m) && IsWord(MONTHS[m - 1]) && !Contains(MONTHS[m - 1], '-')
  {
    MonthSearch(m - 1, 0);
    MonthWord(m - 1);
    LettersAreWords(MONTHS[m - 1]);
  }

  lemma {:induction false} MonthSearch(k: nat, i: nat)
    requires i <= k < 12
    ensures MonthFrom(MONTHS[k], i) == Some(k + 1)
    decreases 12 - i
  {
    if i < k {
      MonthsDiffer(i, k);
      MonthSearch(k, i + 1);
    }
  }

  /** No two month names agree even without regard to case. */
  lemma MonthsDiffer(i: nat, k: nat)
    requires i < k < 12
    ensures !SameIgnoringCase(MONTHS[i], MONTHS[k])
  {
    var a, b := MONTHS[i], MONTHS[k];
    assert Lower(a[0]) != Lower(b[0]) || Lower(a[1]) != Lower(b[1]) || Lower(a[2]) != Lower(b[2]);
  }

  lemma AssembleIs(day: string, month: string, year: string, time: string, t: Date, clock: Time)
    requires ParseUnsigned(day) == Some(t.day) && MonthFrom(month, 0) == Some(t.month)
    requires ParseYear(year) == Some(t.year) && ParseTime(time) == Some(clock)
    ensures Assemble(day, month, year, time) == DateToSeconds(t.year, t.month, t.day, clock)
  {}

  /** The year that a number is taken for. */
  function YearRead(year: nat): (y: nat)
  {
    if year <= 99 then 1900 + year else year
  }

  lemma YearParses(year: nat, width: nat)
    requires year < 0x8000_0000_0000_0000
    ensures ParseYear(Padded(year, width)) == Some(YearRead(year))
  {
    SignedPadded(year, width);
  }

  lemma AssembleParses(t: Date, time: Time, dayWidth: nat, year: nat, yearWidth: nat)
    requires Printable(t) && TimeOk(time) && year < 0x8000_0000_0000_0000
    ensures Assemble(Padded(t.day, dayWidth), MONTHS[t.month - 1], Padded(year, yearWidth), TimeText(time))
         == DateToSeconds(YearRead(year), t.month, t.day, time)
  {
    var day, month, text, clock := Padded(t.day, dayWidth), MONTHS[t.month - 1], Padded(year, yearWidth), TimeText(time);
    assert ParseUnsigned(day) == Some(t.day) by { UnsignedPadded(t.day, dayWidth); }
    assert MonthFrom(month, 0) == Some(t.month) by { MonthParses(t.month); }
    assert ParseYear(text) == Some(YearRead(year)) by { YearParses(year, yearWidth); }
    assert ParseTime(clock) == Some(time) by { TimeParses(time); }
    AssembleIs(day, month, text, clock, Date(YearRead(year), t.month, t.day), time);
  }

  // ----- Which instant a date names -----

  lemma {:induction false} YearStartGrows(y: int, z: int)
    requires y <= z
    ensures YearStart(z) >= YearStart(y) + 365 * (z - y)
    decreases z - y
  {
    if y < z {
      YearLength(z - 1);
      YearStartGrows(y, z - 1);
    }
  }

  /** The same day of a later year is more than eleven months later. */
  lemma LaterYear(y: int, z: int, m: int, d: int)
    requires y < z
    ensures DaysFromCivil(Date(z, m, d)) >= DaysFromCivil(Date(y, m, d)) + 365
  {
    DaysSplit(Date(y, m, d));
    DaysSplit(Date(z, m, d));
    YearStartGrows(MarchYear(Date(y, m, d)), MarchYear(Date(z, m, d)));
  }

  /** Dates before 1900 have no seconds since the epoch, dates after 1999 have many. */
  lemma FarFromEpoch(t: Date, time: Time)
    requires Printable(t) && TimeOk(time)
    ensures t.year < 1900 ==> DateToSeconds(t.year, t.month, t.day, time).None?
    ensures t.year > 1999 ==> DateToSeconds(t.year, t.month, t.day, time).Some?
  {
    NoInstantIff(t.year, t.month, t.day, time);
  }

  lemma YearsApart(y: int, z: int, m: int, d: int, time: Time)
    requires y < z && DateToSeconds(z, m, d, time).Some?
    ensures DateToSeconds(y, m, d, time) != DateToSeconds(z, m, d, time)
  {
    LaterYear(y, z, m, d);
  }

  /** The leap second that ends 1969 is the epoch. */
  predicate LastSecond(y: int, m: int, d: int, time: Time)
  {
    y == 1969 && m == 12 && d == 31 && time == Time(23, 59, 60)
  }

  /** A date before the epoch has no seconds since the epoch. */
  predicate BeforeEpoch(y: int, m: int, d: int, time: Time)
  {
    y < 1970 && !LastSecond(y, m, d, time)
  }

  lemma YearDays(y: int, m: int, d: int)
    requires 1 <= m <= 12 && 1 <= d <= 31
    ensures y >= 1970 ==> DaysFromCivil(Date(y, m, d)) >= 0
    ensures y < 1970 ==> DaysFromCivil(Date(y, m, d)) <= -1
    ensures y < 1970 && !(y == 1969 && m == 12 && d == 31) ==> DaysFromCivil(Date(y, m, d)) <= -2
  {
    var t := Date(y, m, d);
    DaysSplit(t);
    if y >= 1970 { YearStartGrows(if m <= 2 then 1969 else 1970, MarchYear(t)); }
    if y < 1970 { YearStartGrows(MarchYear(t), if m <= 2 then 1968 else 1969); }
  }

  lemma NoInstantIff(y: int, m: int, d: int, time: Time)
    requires 1 <= m <= 12 && 1 <= d <= 31 && TimeOk(time)
    ensures DateToSeconds(y, m, d, time).None? <==> BeforeEpoch(y, m, d, time)
  {
    YearDays(y, m, d);
  }

  /** Taking a year for `y` of the twentieth century is right if it is `y`, or if neither has an instant. */
  lemma CenturyIff(t: Date, time: Time, y: nat)
    requires Printable(t) && TimeOk(time) && 1900 <= y <= 1999 && (1900 <= t.year <= 1999 ==> y == t.year)
    ensures DateToSeconds(y, t.month, t.day, time) == DateToSeconds(t.year, t.month, t.day, time)
       <==> y == t.year || (t.year < 1900 && BeforeEpoch(y, t.month, t.day, time))
  {
    FarFromEpoch(t, time);
    NoInstantIff(y, t.month, t.day, time);
    if t.year > 1999 { YearsApart(y, t.year, t.month, t.day, time); }
  }

  lemma ReadIff(t: Date, time: Time)
    requires Printable(t) && TimeOk(time)
    ensures DateToSeconds(YearRead(t.year), t.month, t.day, time) == DateToSeconds(t.year, t.month, t.day, time)
       <==> t.year > 99 || BeforeEpoch(1900 + t.year, t.month, t.day, time)
  {
    if t.year <= 99 { CenturyIff(t, time, YearRead(t.year)); }
  }

  /** A year of the twentieth century. */
  predicate Twentieth(year: int)
  {
    1900 <= year <= 1999
  }

  lemma LastDigits(year: nat, y: nat)
    requires y == 1900 + year % 100
    ensures 1900 <= y <= 1999 && YearRead(year % 100) == y && (Twentieth(year) <==> y == year)
  {}

  lemma WeekdayWord(i: nat)
    requires i < 7
    ensures WEEKDAYS[i] != "" && Letters(WEEKDAYS[i])
  {}

  /** Six words of the printed format, whatever they are. */
  lemma ImfWordsParse(weekday: string, day: string, month: string, year: string, time: string)
    requires IsWord(weekday + ",") && IsWord(day) && IsWord(month) && IsWord(year) && IsWord(time) && !Contains(day, '-')
    ensures ParseHttpDate(Joined([weekday + ",", day, month, year, time, "GMT"])) == Assemble(day, month, year, time)
  {
    var w := [weekday + ",", day, month, year, time, "GMT"];
    assert IsWord("GMT");
    WordsJoined(w);
    assert w[1..] == [day, month, year, time, "GMT"];
  }

  /**
   The format that is printed parses to the instant it names, if its year has more than two digits without its
   leading zeros. Other years are taken for years of the twentieth century, which is right only where neither year
   has an instant.
   */
  lemma ImfParses(t: Date, time: Time, weekday: nat)
    requires Printable(t) && TimeOk(time) && weekday < 7
    ensures ParseHttpDate(Joined(ImfWords(weekday, t, time))) == DateToSeconds(YearRead(t.year), t.month, t.day, time)
    ensures ParseHttpDate(Joined(ImfWords(weekday, t, time))) == DateToSeconds(t.year, t.month, t.day, time)
       <==> t.year > 99 || BeforeEpoch(1900 + t.year, t.month, t.day, time)
  {
    var day, year := Padded(t.day, 2), Padded(t.year, 4);
    WeekdayWord(weekday);
    LettersAreWords(WEEKDAYS[weekday]);
    DigitsAreWords(day);
    DigitsAreWords(year);
    MonthParses(t.month);
    TimeParses(time);
    ImfWordsParse(WEEKDAYS[weekday], day, MONTHS[t.month - 1], year, TimeText(time));
    AssembleParses(t, time, 2, t.year, 4);
    ReadIff(t, time);
  }

  // ----- The round trip -----

  function TimeOf(secs: nat): (t: Time)
    ensures TimeOk(t) && secs % 86400 == t.hour * 3600 + t.minute * 60 + t.second
  {
    var rem := secs % 86400;
    Time(rem / 3600, rem % 3600 / 60, rem % 60)
  }

  lemma CivilPrintable(days: nat)
    requires days < 0x4000_0000_0000_0000
    ensures Printable(CivilFromDays(days)) && CivilFromDays(days).year > 99
  {
    var z := days + 719468;
    var era, doe := z / 146097, z % 146097;
    if EraEnd(days) {
      EraEndIsOffByOne(days);
    } else {
      CivilInverse(days);
      YearOfEraFits(doe);
    }
    assert era >= 4;
  }

  function FormatHttpDate(secs: nat): (s: string)
    requires secs < 0x8000_0000_0000_0000
  {
    CivilPrintable(secs / 86400);
    Joined(ImfWords(WeekdayOf(CivilFromDays(secs / 86400)), CivilFromDays(secs / 86400), TimeOf(secs)))
  }

  function WeekdayOf(t: Date): (w: nat)
    ensures w < 7
  {
    WeekShift(DaysFromCivil(t));
    WeekdayIndex(t)
  }

  /** Parsing a printed time gives it back to the second, except that an era's last day becomes the day after. */
  lemma FormatThenParse(secs: nat)
    requires secs < 0x8000_0000_0000_0000
    ensures ParseHttpDate(FormatHttpDate(secs)) == Some(if EraEnd(secs / 86400) then secs + 86400 else secs)
  {
    var days := secs / 86400;
    var t := CivilFromDays(days);
    CivilPrintable(days);
    ImfParses(t, TimeOf(secs), WeekdayOf(t));
    SecondsOf(secs, t);
  }

  lemma SecondsOf(secs: nat, t: Date)
    requires t == CivilFromDays(secs / 86400) && Printable(t)
    ensures DateToSeconds(t.year, t.month, t.day, TimeOf(secs))
         == Some(if EraEnd(secs / 86400) then secs + 86400 else secs)
  {
    var days := secs / 86400;
    assert DaysFromCivil(t) == if EraEnd(days) then days + 1 else days by { DaysFound(days); }
    assert secs == days * 86400 + secs % 86400;
  }

  lemma DaysFound(days: nat)
    ensures DaysFromCivil(CivilFromDays(days)) == if EraEnd(days) then days + 1 else days
  {
    if EraEnd(days) { EraEndIsOffByOne(days); } else { CivilInverse(days); }
  }

  // ----- The other two formats of RFC 9110, section 5.6.7 -----

  /** "Sun Nov  6 08:49:37 1994": the day is padded with a space. */
  function AsctimeText(weekday: string, month: string, gap: string, day: string, time: string, year: string): (s: string)
  {
    weekday + (" " + (month + (" " + (gap + (day + (" " + (time + (" " + year))))))))
  }

  lemma SpaceSkipped(s: string)
    ensures Words(" " + s, "") == Words(s, "")
  {
    assert (" " + s)[1..] == s;
  }

  lemma NextWord(w: string, s: string)
    requires IsWord(w)
    ensures Words(w + (" " + s), "") == [w] + Words(s, "")
  {
    WordRead(w, " " + s, "");
    assert "" + w == w && (" " + s)[1..] == s;
  }

  lemma LastWord(w: string)
    requires IsWord(w)
    ensures Words(w, "") == [w]
  {
    WordRead(w, "", "");
    assert w + "" == w && "" + w == w;
  }

  lemma AsctimeWords(weekday: string, month: string, gap: string, day: string, time: string, year: string)
    requires IsWord(weekday) && IsWord(month) && IsWord(day) && IsWord(time) && IsWord(year) && (gap == "" || gap == " ")
    ensures Words(AsctimeText(weekday, month, gap, day, time, year), "") == [weekday, month, day, time, year]
  {
    var afterDay := time + (" " + year);
    var fromDay := day + (" " + afterDay);
    LastWord(year);
    NextWord(time, year);
    NextWord(day, afterDay);
    if gap == " " { SpaceSkipped(fromDay); } else { assert gap + fromDay == fromDay; }
    NextWord(month, gap + fromDay);
    NextWord(weekday, month + (" " + (gap + fromDay)));
  }

  lemma AsctimeWordsParse(weekday: string, month: string, gap: string, day: string, time: string, year: string)
    requires IsWord(weekday) && IsWord(month) && IsWord(day) && IsWord(time) && IsWord(year) && (gap == "" || gap == " ")
    requires !SameIgnoringCase(year, "GMT")
    ensures ParseHttpDate(AsctimeText(weekday, month, gap, day, time, year)) == Assemble(day, month, year, time)
  {
    AsctimeWords(weekday, month, gap, day, time, year);
  }

  function AsctimeOf(weekday: nat, t: Date, time: Time): (s: string)
    requires Printable(t) && weekday < 7
  {
    AsctimeText(WEEKDAYS[weekday], MONTHS[t.month - 1], if t.day < 10 then " " else "",
                Padded(t.day, 1), TimeText(time), Padded(t.year, 4))
  }

  lemma AsctimeParses(t: Date, time: Time, weekday: nat)
    requires Printable(t) && TimeOk(time) && weekday < 7
    ensures ParseHttpDate(AsctimeOf(weekday, t, time)) == DateToSeconds(YearRead(t.year), t.month, t.day, time)
    ensures ParseHttpDate(AsctimeOf(weekday, t, time)) == DateToSeconds(t.year, t.month, t.day, time)
       <==> t.year > 99 || BeforeEpoch(1900 + t.year, t.month, t.day, time)
  {
    var day, year := Padded(t.day, 1), Padded(t.year, 4);
    WeekdayWord(weekday);
    LettersAreWords(WEEKDAYS[weekday]);
    DigitsAreWords(day);
    DigitsAreWords(year);
    MonthParses(t.month);
    TimeParses(time);
    assert !SameIgnoringCase(year, "GMT") by { assert IsDigit(year[0]); }
    AsctimeWordsParse(WEEKDAYS[weekday], MONTHS[t.month - 1], if t.day < 10 then " " else "", day, TimeText(time), year);
    AssembleParses(t, time, 1, t.year, 4);
    ReadIff(t, time);
  }

  lemma FourWordsParse(weekday: string, date: string, time: string)
    requires IsWord(weekday + ",") && IsWord(date) && IsWord(time)
    ensures ParseHttpDate(Joined([weekday + ",", date, time, "GMT"])) == ParseBody([date, time, "GMT"])
  {
    var w := [weekday + ",", date, time, "GMT"];
    assert IsWord("GMT");
    WordsJoined(w);
    assert w[1..] == [date, time, "GMT"];
  }

  lemma Rfc850Body(day: string, month: string, year: string, time: string)
    requires !Contains(day, '-') && !Contains(month, '-')
    ensures ParseBody([day + "-" + month + "-" + year, time, "GMT"]) == Assemble(day, month, year, time)
  {
    var date := day + "-" + month + "-" + year;
    assert date[|day|] == '-';
    SplitJoined(day, month, year, '-');
  }

  lemma DateIsWord(day: string, month: string, year: string)
    requires IsWord(day) && IsWord(month) && IsWord(year)
    ensures IsWord(day + "-" + month + "-" + year)
  {}

  /** "Sunday, 06-Nov-94 08:49:37 GMT" */
  function Rfc850Joined(weekday: string, day: string, month: string, year: string, time: string): (s: string)
  {
    Joined([weekday + ",", day + "-" + month + "-" + year, time, "GMT"])
  }

  lemma Rfc850WordsParse(weekday: string, day: string, month: string, year: string, time: string)
    requires IsWord(weekday + ",") && IsWord(day) && IsWord(month) && IsWord(year) && IsWord(time)
    requires !Contains(day, '-') && !Contains(month, '-')
    ensures ParseHttpDate(Rfc850Joined(weekday, day, month, year, time)) == Assemble(day, month, year, time)
  {
    DateIsWord(day, month, year);
    FourWordsParse(weekday, day + "-" + month + "-" + year, time);
    Rfc850Body(day, month, year, time);
  }

  function Rfc850Of(weekday: string, t: Date, time: Time): (s: string)
    requires Printable(t)
  {
    Rfc850Joined(weekday, Padded(t.day, 2), MONTHS[t.month - 1], Padded(t.year % 100, 2), TimeText(time))
  }

  lemma Rfc850Text(t: Date, time: Time, weekday: string)
    requires Printable(t) && TimeOk(time) && weekday != "" && Letters(weekday)
    ensures ParseHttpDate(Rfc850Of(weekday, t, time)) == DateToSeconds(YearRead(t.year % 100), t.month, t.day, time)
  {
    var day, year := Padded(t.day, 2), Padded(t.year % 100, 2);
    LettersAreWords(weekday);
    DigitsAreWords(day);
    DigitsAreWords(year);
    MonthParses(t.month);
    TimeParses(time);
    Rfc850WordsParse(weekday, day, MONTHS[t.month - 1], year, TimeText(time));
    AssembleParses(t, time, 2, t.year % 100, 2);
  }

  /**
   A two-digit year names a year of the twentieth century. So the text of a date parses to the instant of that
   date exactly in that century, or before it where neither year has an instant: the year read is before 1970, and
   the time not the leap second before the epoch.
   */
  lemma Rfc850Parses(t: Date, time: Time, weekday: string, y: nat)
    requires Printable(t) && TimeOk(time) && weekday != "" && Letters(weekday) && y == 1900 + t.year % 100
    ensures ParseHttpDate(Rfc850Of(weekday, t, time)) == DateToSeconds(y, t.month, t.day, time)
    ensures ParseHttpDate(Rfc850Of(weekday, t, time)) == DateToSeconds(t.year, t.month, t.day, time)
       <==> Twentieth(t.year) || (t.year < 1900 && BeforeEpoch(y, t.month, t.day, time))
  {
    Rfc850Text(t, time, weekday);
    LastDigits(t.year, y);
    CenturyIff(t, time, y);
  }

  lemma NoonIn1994(noon: Time)
    requires noon == Time(12, 0, 0)
    ensures DateToSeconds(1994, 11, 6, noon) == Some(784123200)
  {
    assert DaysFromCivil(Date(1994, 11, 6)) == 9075;
  }

  /** 6 November 2094 in the format of RFC 850, and 6 November 94 as it is printed, are read as 6 November 1994. */
  lemma WrongCentury(t: Date, u: Date, noon: Time, name: string, weekday: nat)
    requires t == Date(2094, 11, 6) && u == Date(94, 11, 6) && noon == Time(12, 0, 0)
    requires name != "" && Letters(name) && weekday < 7
    ensures ParseHttpDate(Rfc850Of(name, t, noon)) == ParseHttpDate(Joined(ImfWords(weekday, u, noon))) == Some(784123200)
    ensures DateToSeconds(t.year, 11, 6, noon) != Some(784123200) && DateToSeconds(u.year, 11, 6, noon) != Some(784123200)
  {
    NoonIn1994(noon);
    Rfc850Parses(t, noon, name, 1994);
    ImfParses(u, noon, weekday);
  }
}
