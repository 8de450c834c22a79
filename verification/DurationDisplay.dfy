/**
  cli/util.go: durations shown as days, hours and minutes. A duration is a signed 64-bit
  number of nanoseconds.
*/
module DurationDisplay {
  import opened Counting
  import opened Decimal
  import opened Durations
  import opened MachineInts
  import opened Wrappers

  const SUFFIXES := ["m0s", "h0m", "d0s", "d0h"]

  /** `duration *= -1` wraps on the most negative value. */
  function Negated(d: Duration): Duration { if d == MIN_INT64 then d else -d }

  /** time.Duration.String for h hours and m minutes. */
  function HourMinuteString(h: nat, m: nat): string {
    if h > 0 then Itoa(h) + "h" + Itoa(m) + "m0s"
    else if m > 0 then Itoa(m) + "m0s"
    else "0s"
  }

  function Raw(days: nat, h: nat, m: nat): string {
    (if days > 0 then Itoa(days) + "d" else "") + HourMinuteString(h, m)
  }

  predicate HasSuffix(s: string, suffix: string) {
    |suffix| <= |s| && s[|s| - |suffix|..] == suffix
  }

  function TrimOne(s: string, suffix: string): string {
    if HasSuffix(s, suffix) && |s| >= 2 then s[..|s| - 2] else s
  }

  function TrimAll(s: string, suffixes: seq<string>): string
    decreases |suffixes|
  {
    if suffixes == [] then s else TrimAll(TrimOne(s, suffixes[0]), suffixes[1..])
  }

  /** Above a day to the hour, otherwise to the minute. */
  function Rounded(a: nat): nat {
    if a > DAY then Truncated(a, HOUR) else Truncated(a, MINUTE)
  }

  function Shown(r: nat): string {
    TrimAll(Raw(r / DAY, r % DAY / HOUR, r % HOUR / MINUTE), SUFFIXES)
  }

  function Display(d: Duration): string {
    if d == 0 then "0s"
    else
      var a := if d < 0 then Negated(d) else d;
      if a < MINUTE then "<1m" else Shown(Rounded(a))
  }

  lemma Exact(k: nat, unit: nat)
    requires unit > 0
    ensures k * unit / unit == k && k * unit % unit == 0
  {
    DivModUnique(k * unit, unit, k);
  }

  /** Rounding leaves whole minutes, and whole hours from a day upwards. */
  lemma RoundedWhole(a: nat) returns (q: nat)
    ensures Rounded(a) == q * MINUTE && (q >= 1440 ==> q % 60 == 0)
    ensures a >= MINUTE ==> q > 0
    ensures Truncated(Rounded(a), MINUTE) == Rounded(a)
  {
    q := if a > DAY then a / HOUR * 60 else a / MINUTE;
    Exact(q, MINUTE);
  }

  method DisplayDuration(d: Duration) returns (text: string)
    ensures text == Display(d)
  {
    var duration: int := d;
    if duration == 0 { return "0s"; }
    if duration < 0 { duration := Negated(duration); }
    if duration < MINUTE { return "<1m"; }
    ghost var a: nat := duration;
    ghost var q := RoundedWhole(a);
    if duration > DAY { duration := Truncated(duration, HOUR); }
    if duration > MINUTE { duration := Truncated(duration, MINUTE); }
    assert duration == Rounded(a);
    text := DisplayWhole(duration);
  }

  /** The day loop. */
  method CountDays(r: nat) returns (days: nat, rest: nat)
    ensures days == r / DAY && rest == r % DAY
  {
    days, rest := 0, r;
    while rest >= DAY
      invariant r == days * DAY + rest
      decreases rest
    {
      days := days + 1;
      rest := rest - DAY;
    }
    DivModUnique(r, DAY, days);
  }

  method DisplayWhole(r: nat) returns (text: string)
    ensures text == Shown(r)
  {
    var days, duration := CountDays(r);
    SameHour(r);
    var clock := HourMinuteString(duration / HOUR, duration % HOUR / MINUTE);
    text := if days > 0 then Itoa(days) + "d" + clock else clock;
    NoPrefix(clock);
    text := TrimSuffixes(text);
  }

  method TrimSuffixes(raw: string) returns (text: string)
    ensures text == TrimAll(raw, SUFFIXES)
  {
    text := raw;
    for i := 0 to |SUFFIXES|
      invariant TrimAll(raw, SUFFIXES) == TrimAll(text, SUFFIXES[i..])
    {
      var suffix := SUFFIXES[i];
      assert |suffix| == 3 && SUFFIXES[i..][0] == suffix && SUFFIXES[i..][1..] == SUFFIXES[i + 1..];
      if HasSuffix(text, suffix) {
        text := text[..|text| - 2];
      }
    }
  }

  lemma SameHour(r: nat)
    ensures r % DAY % HOUR == r % HOUR
  {
    DivModUnique(r, HOUR, r / DAY * 24 + r % DAY / HOUR);
  }

  // ---- reading it back ----

  datatype Part = Part(count: nat, unit: char)

  predicate IsUnit(c: char) { c == 'd' || c == 'h' || c == 'm' }

  function UnitLength(c: char): nat {
    if c == 'd' then DAY else if c == 'h' then HOUR else if c == 'm' then MINUTE else 0
  }

  function Total(parts: seq<Part>): nat {
    if parts == [] then 0 else parts[0].count * UnitLength(parts[0].unit) + Total(parts[1..])
  }

  function DigitsAhead(s: string): (k: nat)
    ensures k <= |s| && AllDigits(s[..k])
  {
    if s == "" || !IsDigit(s[0]) then 0
    else
      var k := DigitsAhead(s[1..]) + 1;
      assert s[..k] == [s[0]] + s[1..][..k - 1];
      k
  }

  /** Numbers with units d, h and m; anything else is unreadable. */
  function Parse(s: string): Option<seq<Part>>
    decreases |s|
  {
    if s == "" then Some([])
    else
      var k := DigitsAhead(s);
      if k == 0 || k == |s| || !IsUnit(s[k]) then None
      else
        var rest := Parse(s[k + 1..]);
        if rest.None? then None else Some([Part(Value(s[..k]), s[k])] + rest.value)
  }

  function Read(s: string): Option<nat> {
    var parts := Parse(s);
    if parts.None? then None else Some(Total(parts.value))
  }

  lemma {:induction false} DigitsAheadOf(a: string, rest: string)
    requires AllDigits(a) && (rest == "" || !IsDigit(rest[0]))
    ensures DigitsAhead(a + rest) == |a|
  {
    if a == "" {
      assert a + rest == rest;
    } else {
      DigitsAheadOf(a[1..], rest);
      assert (a + rest)[1..] == a[1..] + rest;
    }
  }

  lemma ParseUnfolds(s: string, head: string, tail: string)
    requires head <= s && 0 < |head| == DigitsAhead(s) < |s| && IsUnit(s[|head|])
    requires s[|head| + 1..] == tail && Parse(tail).Some?
    ensures AllDigits(head) && Parse(s) == Some([Part(Value(head), s[|head|])] + Parse(tail).value)
  {
    assert s[..|head|] == head;
  }

  lemma Pieces(a: string, unit: char, rest: string, s: string)
    requires s == a + [unit] + rest
    ensures a <= s && |a| < |s| && s[|a|] == unit && s[|a| + 1..] == rest && s == a + ([unit] + rest)
  {
  }

  lemma ParseDigits(a: string, unit: char, rest: string)
    requires AllDigits(a) && a != "" && IsUnit(unit) && Parse(rest).Some?
    ensures Parse(a + [unit] + rest) == Some([Part(Value(a), unit)] + Parse(rest).value)
  {
    Pieces(a, unit, rest, a + [unit] + rest);
    DigitsAheadOf(a, [unit] + rest);
    ParseUnfolds(a + [unit] + rest, a, rest);
  }

  lemma ParseNumber(n: nat, unit: char, rest: string)
    requires IsUnit(unit) && Parse(rest).Some?
    ensures Parse(Itoa(n) + [unit] + rest) == Some([Part(n, unit)] + Parse(rest).value)
  {
    ValueOfItoa(n);
    ParseDigits(Itoa(n), unit, rest);
  }

  lemma ParseLast(n: nat, unit: char)
    requires IsUnit(unit)
    ensures Parse(Itoa(n) + [unit]) == Some([Part(n, unit)])
  {
    ParseNumber(n, unit, "");
    assert Itoa(n) + [unit] + "" == Itoa(n) + [unit];
    assert [Part(n, unit)] + [] == [Part(n, unit)];
  }

  // ---- what the suffix trims leave ----

  lemma TrimStep(s: string, suffix: string, rest: seq<string>)
    ensures TrimAll(s, [suffix] + rest) == TrimAll(TrimOne(s, suffix), rest)
  {
    assert ([suffix] + rest)[1..] == rest;
  }

  lemma TrimFour(s: string)
    ensures TrimAll(s, SUFFIXES) == TrimOne(TrimOne(TrimOne(TrimOne(s, "m0s"), "h0m"), "d0s"), "d0h")
  {
    var s1 := TrimOne(s, "m0s");
    var s2 := TrimOne(s1, "h0m");
    var s3 := TrimOne(s2, "d0s");
    TrimStep(s, "m0s", ["h0m"] + ["d0s"] + ["d0h"]);
    TrimStep(s1, "h0m", ["d0s"] + ["d0h"]);
    TrimStep(s2, "d0s", ["d0h"] + []);
    TrimStep(s3, "d0h", []);
  }

  /** A printed number that is not zero has no final digit 0 standing alone. */
  lemma ItoaEnd(n: nat)
    requires n > 0
    ensures var s := Itoa(n);
            s != "" && if |s| == 1 then s[0] != '0' else IsDigit(s[|s| - 2])
  {
    ValueOfItoa(n);
  }

  /** A number that is not zero keeps a trim of the shape x0y from matching. */
  lemma NotTrimmed(front: string, n: nat, unit: char, suffix: string)
    requires n > 0 && |suffix| == 3 && suffix[1] == '0' && !IsDigit(suffix[0])
    ensures TrimOne(front + Itoa(n) + [unit], suffix) == front + Itoa(n) + [unit]
  {
    ItoaEnd(n);
    var num := Itoa(n);
    var s := front + num + [unit];
    assert s[|s| - 2] == num[|num| - 1];
    assert |num| >= 2 ==> s[|s| - 3] == num[|num| - 2];
    assert |s| >= 3 ==> s[|s| - 3..][0] == s[|s| - 3] && s[|s| - 3..][1] == s[|s| - 2];
  }

  lemma WrongEnd(s: string, suffix: string)
    requires |suffix| == 3 && s != "" && s[|s| - 1] != suffix[2]
    ensures TrimOne(s, suffix) == s
  {
    assert |s| >= 3 ==> s[|s| - 3..][2] == s[|s| - 1];
  }

  lemma TrimEnd(front: string, suffix: string)
    requires |suffix| == 3
    ensures TrimOne(front + suffix, suffix) == front + [suffix[0]]
  {
    var s := front + suffix;
    assert s[|s| - 3..] == suffix;
  }

  lemma ShownMinutes(front: string, m: nat)
    requires m > 0
    ensures TrimAll(front + Itoa(m) + "m0s", SUFFIXES) == front + Itoa(m) + ['m']
  {
    var s := front + Itoa(m) + ['m'];
    TrimFour(front + Itoa(m) + "m0s");
    TrimEnd(front + Itoa(m), "m0s");
    NotTrimmed(front, m, 'm', "h0m");
    WrongEnd(s, "d0s");
    WrongEnd(s, "d0h");
  }

  lemma ShownHours(front: string, h: nat)
    requires h > 0
    ensures TrimAll(front + Itoa(h) + "h0" + "m0s", SUFFIXES) == front + Itoa(h) + ['h']
  {
    var number := front + Itoa(h);
    var s := number + ['h'];
    TrimFour(number + "h0" + "m0s");
    TrimEnd(number + "h0", "m0s");
    assert number + "h0" + ['m'] == number + "h0m";
    TrimEnd(number, "h0m");
    WrongEnd(s, "d0s");
    NotTrimmed(front, h, 'h', "d0h");
  }

  lemma ShownDays(front: string)
    ensures TrimAll(front + "d0s", SUFFIXES) == front + ['d']
  {
    var s := front + "d0s";
    TrimFour(s);
    assert TrimOne(s, "m0s") == s by { assert s[|s| - 3..][0] == 'd'; }
    WrongEnd(s, "h0m");
    TrimEnd(front, "d0s");
    WrongEnd(front + ['d'], "d0h");
  }

  // ---- every case of the text ----

  lemma ZeroMinutes(h: nat)
    requires h > 0
    ensures HourMinuteString(h, 0) == Itoa(h) + "h0" + "m0s"
  {
    assert Itoa(0) == "0";
    assert "h" + "0" == "h0";
    assert Itoa(h) + "h" + "0" == Itoa(h) + "h0";
  }

  lemma NoPrefix(s: string)
    ensures "" + s == s
  {
  }

  lemma Assoc(a: string, b: string, c: string)
    ensures a + (b + c) == a + b + c
  {
  }

  /** The parts that are not zero; days leave no room for minutes. */
  function Clock(days: nat, h: nat, m: nat): seq<Part> {
    (if days > 0 then [Part(days, 'd')] else []) +
    (if h > 0 then [Part(h, 'h')] else []) +
    (if m > 0 then [Part(m, 'm')] else [])
  }

  ghost predicate ReadsAsClock(days: nat, h: nat, m: nat) {
    Parse(TrimAll(Raw(days, h, m), SUFFIXES)) == Some(Clock(days, h, m))
  }

  lemma WholeDaysReadBack(days: nat)
    requires days > 0
    ensures ReadsAsClock(days, 0, 0)
  {
    Assoc(Itoa(days), "d", "0s");
    assert "d" + "0s" == "d0s";
    ShownDays(Itoa(days));
    ParseLast(days, 'd');
    assert Clock(days, 0, 0) == [Part(days, 'd')];
  }

  lemma DaysReadBack(days: nat, h: nat)
    requires days > 0 && h > 0
    ensures ReadsAsClock(days, h, 0)
  {
    var front := Itoa(days) + ['d'];
    ZeroMinutes(h);
    Assoc(front, Itoa(h) + "h0", "m0s");
    Assoc(front, Itoa(h), "h0");
    ShownHours(front, h);
    ParseLast(h, 'h');
    ParseNumber(days, 'd', Itoa(h) + ['h']);
    Assoc(front, Itoa(h), ['h']);
    assert Clock(days, h, 0) == [Part(days, 'd')] + [Part(h, 'h')];
  }

  lemma WholeHoursReadBack(h: nat)
    requires h > 0
    ensures ReadsAsClock(0, h, 0)
  {
    ZeroMinutes(h);
    NoPrefix(Itoa(h));
    NoPrefix(HourMinuteString(h, 0));
    ShownHours("", h);
    ParseLast(h, 'h');
    assert Clock(0, h, 0) == [Part(h, 'h')];
  }

  lemma HoursReadBack(h: nat, m: nat)
    requires h > 0 && m > 0
    ensures ReadsAsClock(0, h, m)
  {
    var front := Itoa(h) + ['h'];
    NoPrefix(HourMinuteString(h, m));
    ShownMinutes(front, m);
    ParseLast(m, 'm');
    ParseNumber(h, 'h', Itoa(m) + ['m']);
    Assoc(front, Itoa(m), ['m']);
    assert Clock(0, h, m) == [Part(h, 'h')] + [Part(m, 'm')];
  }

  lemma MinutesReadBack(m: nat)
    requires m > 0
    ensures ReadsAsClock(0, 0, m)
  {
    NoPrefix(HourMinuteString(0, m));
    NoPrefix(Itoa(m));
    ShownMinutes("", m);
    ParseLast(m, 'm');
    assert Clock(0, 0, m) == [Part(m, 'm')];
  }

  lemma ReadBack(days: nat, h: nat, m: nat)
    requires days + h + m > 0 && (days > 0 ==> m == 0)
    ensures ReadsAsClock(days, h, m)
  {
    if days > 0 && h == 0 {
      WholeDaysReadBack(days);
    } else if days > 0 {
      DaysReadBack(days, h);
    } else if h > 0 && m == 0 {
      WholeHoursReadBack(h);
    } else if h > 0 {
      HoursReadBack(h, m);
    } else {
      MinutesReadBack(m);
    }
  }

  lemma TotalOfClock(days: nat, h: nat, m: nat)
    ensures Total(Clock(days, h, m)) == days * DAY + h * HOUR + m * MINUTE
  {
    var minutes := if m > 0 then [Part(m, 'm')] else [];
    var hours := (if h > 0 then [Part(h, 'h')] else []) + minutes;
    assert Total(minutes) == m * MINUTE;
    assert h > 0 ==> hours[1..] == minutes;
    assert Total(hours) == h * HOUR + m * MINUTE;
    assert Clock(days, h, m) == (if days > 0 then [Part(days, 'd')] else []) + hours;
    assert days > 0 ==> Clock(days, h, m)[1..] == hours;
  }

  lemma Parts(q: nat)
    ensures var r := q * MINUTE;
            r / DAY == q / 1440 && r % DAY / HOUR == q % 1440 / 60 && r % HOUR / MINUTE == q % 60
  {
    var r, p := q * MINUTE, q % 1440;
    DivModUnique(r, DAY, q / 1440);
    DivModUnique(p * MINUTE, HOUR, p / 60);
    DivModUnique(r, HOUR, q / 60);
    Exact(q % 60, MINUTE);
  }

  lemma Sum(q: nat)
    ensures q % 1440 % 60 == q % 60
    ensures q * MINUTE == q / 1440 * DAY + q % 1440 / 60 * HOUR + q % 60 * MINUTE
  {
    DivModUnique(q, 60, q / 1440 * 24 + q % 1440 / 60);
    assert q == q / 1440 * 1440 + q % 1440 / 60 * 60 + q % 60;
  }

  lemma ShownParts(q: nat)
    ensures Shown(q * MINUTE) == TrimAll(Raw(q / 1440, q % 1440 / 60, q % 60), SUFFIXES)
  {
    Parts(q);
  }

  lemma ReadTotal(days: nat, h: nat, m: nat)
    requires days + h + m > 0 && (days > 0 ==> m == 0)
    ensures Read(TrimAll(Raw(days, h, m), SUFFIXES)) == Some(days * DAY + h * HOUR + m * MINUTE)
  {
    ReadBack(days, h, m);
    TotalOfClock(days, h, m);
  }

  lemma NotAllZero(q: nat)
    requires q > 0 && (q >= 1440 ==> q % 60 == 0)
    ensures q / 1440 + q % 1440 / 60 + q % 60 > 0 && (q / 1440 > 0 ==> q % 60 == 0)
  {
    Sum(q);
  }

  lemma ShownReadsBack(q: nat)
    requires q > 0 && (q >= 1440 ==> q % 60 == 0)
    ensures Read(Shown(q * MINUTE)) == Some(q * MINUTE)
  {
    ShownParts(q);
    NotAllZero(q);
    Sum(q);
    ReadTotal(q / 1440, q % 1440 / 60, q % 60);
  }

  /**
    The displayed text of any duration of at least a minute reads back as its absolute value,
    rounded down to the minute, or to the hour above a day. The most negative duration is the
    one exception: it is shown as under a minute.
  */
  lemma DisplayReadsBackIff(d: Duration)
    ensures var a := if d < 0 then 0 - d else d;
            Read(Display(d)) == Some(Rounded(a)) <==> a >= MINUTE && d != MIN_INT64
    ensures Display(d) == "0s" <==> d == 0
    ensures var a := if d < 0 then 0 - d else d;
            Display(d) == "<1m" <==> 0 < a < MINUTE || d == MIN_INT64
  {
    var a := if d < 0 then 0 - d else d;
    ShortTexts();
    if a >= MINUTE && d != MIN_INT64 {
      var q := RoundedWhole(a);
      ShownReadsBack(q);
    }
  }

  lemma ShortTexts()
    ensures Read("<1m").None? && Read("0s").None?
  {
    assert DigitsAhead("<1m") == 0;
    assert DigitsAhead("0s") == 1 by { assert "0s"[1..] == "s" && DigitsAhead("s") == 0; }
  }
}
