/** Time spans in systemd's syntax, whole seconds only
    (cmd/peasant/cmd_service.go; "PARSING TIME SPANS" in systemd.time(7)). */
module Timespans {
  import opened Wrappers
  import opened Strings
  import opened SystemdQuoting

  const SECOND: int := 1_000_000_000
  const MINUTE: int := 60 * SECOND
  const HOUR: int := 60 * MINUTE
  const DAY: int := 24 * HOUR

  const MAX_DURATION: int := 0x7fff_ffff_ffff_ffff

  /** Nanoseconds in 64 bits. */
  type Duration = d: int | -MAX_DURATION - 1 <= d <= MAX_DURATION

  /** Rounding to a whole second, half away from zero; a result that does not
      fit is replaced by the largest duration. */
  function RoundToSecond(duration: Duration): Duration {
    var d: int := duration;
    if d < 0 then
      var r := (-d) % SECOND;
      if 2 * r < SECOND then d + r
      else if d - SECOND + r >= -MAX_DURATION - 1 then d - SECOND + r
      else -MAX_DURATION - 1
    else
      var r := d % SECOND;
      if 2 * r < SECOND then d - r
      else if d + SECOND - r <= MAX_DURATION then d + SECOND - r
      else MAX_DURATION
  }

  datatype Unit = Unit(size: int, name: string)

  const UNITS: seq<Unit> := [Unit(DAY, "d"), Unit(HOUR, "h"), Unit(MINUTE, "min"), Unit(SECOND, "s")]

  function Digit(n: nat): char
    requires n < 10
  {
    ('0' as int + n) as char
  }

  function Decimal(n: nat): string {
    if n < 10 then [Digit(n)] else Decimal(n / 10) + [Digit(n % 10)]
  }

  /** How often each unit fits, largest first, the remainder going on. */
  function Parts(d: nat, units: seq<Unit>): seq<string>
    requires forall u :: u in units ==> u.size > 0
  {
    if units == [] then []
    else
      var n := d / units[0].size;
      (if n > 0 then [Decimal(n) + units[0].name] else []) + Parts(d % units[0].size, units[1..])
  }

  function Timespan(d: Duration): string {
    var rounded := RoundToSecond(d);
    if rounded <= 0 then "0" else Join(Parts(rounded, UNITS), " ")
  }

  lemma Remainder(d: nat, size: nat)
    requires size > 0
    ensures d - (d / size) * size == d % size
    ensures d / size == 0 ==> d % size == d
  {
  }

  lemma PartsStep(d: nat, units: seq<Unit>, i: nat, n: nat, left: nat)
    requires (forall u :: u in units ==> u.size > 0) && i < |units|
    requires units[i].size > 0 && n == d / units[i].size && left == d % units[i].size
    ensures Parts(d, units[i..]) == (if n > 0 then [Decimal(n) + units[i].name] else []) + Parts(left, units[i + 1..])
  {
    assert units[i..][1..] == units[i + 1..] && units[i..][0] == units[i];
  }

  /** All units to go, and none. */
  lemma PartsAll(d: nat, units: seq<Unit>)
    requires forall u :: u in units ==> u.size > 0
    ensures Parts(d, units) == [] + Parts(d, units[0..])
    ensures forall rest: nat :: Parts(rest, units[|units|..]) == []
  {
    assert units[0..] == units;
  }

  /** The loop over the units. */
  method SpanParts(duration: nat, units: seq<Unit>) returns (parts: seq<string>)
    requires forall u :: u in units ==> u.size > 0
    ensures parts == Parts(duration, units)
  {
    var d: nat := duration;
    hide Parts, Decimal;
    parts := [];
    PartsAll(duration, units);
    for i := 0 to |units|
      invariant Parts(duration, units) == parts + Parts(d, units[i..])
    {
      var unit := units[i];
      assert unit in units;
      var n := d / unit.size;
      ghost var left := d % unit.size;
      Remainder(d, unit.size);
      PartsStep(d, units, i, n, left);
      if n > 0 {
        parts := parts + [Decimal(n) + unit.name];
        d := d - n * unit.size;
        assert d == left;
      }
    }
  }

  method SystemdTimespan(duration: Duration) returns (text: string)
    ensures text == Timespan(duration)
  {
    var d := RoundToSecond(duration);
    if d <= 0 {
      return "0";
    }
    var parts := SpanParts(d, UNITS);
    text := Join(parts, " ");
  }

  // ----- reading -----

  predicate IsDigit(c: char) {
    '0' <= c <= '9'
  }

  predicate IsLetter(c: char) {
    'a' <= c <= 'z'
  }

  predicate AllDigits(s: string) {
    forall i :: 0 <= i < |s| ==> IsDigit(s[i])
  }

  predicate AllLetters(s: string) {
    forall i :: 0 <= i < |s| ==> IsLetter(s[i])
  }

  function DigitRun(s: string): (n: nat)
    ensures n <= |s|
  {
    if s != "" && IsDigit(s[0]) then 1 + DigitRun(s[1..]) else 0
  }

  function LetterRun(s: string): (n: nat)
    ensures n <= |s|
  {
    if s != "" && IsLetter(s[0]) then 1 + LetterRun(s[1..]) else 0
  }

  function Value(digits: string): nat
    requires AllDigits(digits)
  {
    if digits == "" then 0
    else
      assert IsDigit(digits[|digits| - 1]);
      Value(digits[..|digits| - 1]) * 10 + (digits[|digits| - 1] as int - '0' as int)
  }

  lemma {:induction false} DigitRunIsDigits(s: string)
    ensures AllDigits(s[..DigitRun(s)])
  {
    if s != "" && IsDigit(s[0]) {
      DigitRunIsDigits(s[1..]);
      assert s[..DigitRun(s)] == [s[0]] + s[1..][..DigitRun(s[1..])];
    }
  }

  /** Seconds of a unit; a number without one is in seconds. The longer names
      systemd also knows are not modelled. */
  function UnitSeconds(name: string): Option<nat> {
    if name == "" then Some(1)
    else if |name| == 1 then
      match name[0] {
        case 's' => Some(1)
        case 'm' => Some(60)
        case 'h' => Some(3600)
        case 'd' => Some(86400)
        case _ => None
      }
    else if |name| == 3 && name[0] == 'm' && name[1] == 'i' && name[2] == 'n' then Some(60)
    else None
  }

  /** The seconds a span names: numbers with units, added up. */
  function ReadSpan(s: string): Option<nat> {
    if s == "" then Some(0)
    else if IsBlank(s[0]) then ReadSpan(s[1..])
    else
      var digits := DigitRun(s);
      if digits == 0 then None
      else
        DigitRunIsDigits(s);
        var rest := s[digits..];
        var letters := LetterRun(rest);
        match UnitSeconds(rest[..letters])
        case None => None
        case Some(unit) =>
          match ReadSpan(rest[letters..])
          case None => None
          case Some(more) => Some(Value(s[..digits]) * unit + more)
  }

  // ----- round trip -----

  lemma {:induction false} DecimalValue(n: nat)
    ensures Decimal(n) != ""
    ensures AllDigits(Decimal(n))
    ensures Value(Decimal(n)) == n
  {
    if n >= 10 {
      DecimalValue(n / 10);
      assert Decimal(n)[..|Decimal(n)| - 1] == Decimal(n / 10);
    }
  }

  lemma {:induction false} DigitRunOf(digits: string, rest: string)
    requires AllDigits(digits)
    requires rest != "" ==> !IsDigit(rest[0])
    ensures DigitRun(digits + rest) == |digits|
  {
    if digits == "" {
      assert digits + rest == rest;
    } else {
      assert (digits + rest)[1..] == digits[1..] + rest;
      DigitRunOf(digits[1..], rest);
    }
  }

  lemma {:induction false} LetterRunOf(letters: string, rest: string)
    requires AllLetters(letters)
    requires rest != "" ==> !IsLetter(rest[0])
    ensures LetterRun(letters + rest) == |letters|
  {
    if letters == "" {
      assert letters + rest == rest;
    } else {
      assert (letters + rest)[1..] == letters[1..] + rest;
      LetterRunOf(letters[1..], rest);
    }
  }

  ghost predicate IsName(name: string) {
    name != "" && AllLetters(name)
  }

  /** Where a number, its unit and the rest begin. */
  lemma Runs(digits: string, name: string, rest: string)
    requires digits != "" && AllDigits(digits)
    requires IsName(name) && (rest != "" ==> IsBlank(rest[0]))
    ensures var s := digits + name + rest;
      && s != "" && !IsBlank(s[0]) && DigitRun(s) == |digits| && s[..|digits|] == digits
      && s[|digits|..] == name + rest
      && LetterRun(name + rest) == |name| && (name + rest)[..|name|] == name && (name + rest)[|name|..] == rest
  {
    var s := digits + name + rest;
    assert s == digits + (name + rest);
    assert (name + rest)[0] == name[0];
    DigitRunOf(digits, name + rest);
    LetterRunOf(name, rest);
  }

  lemma ReadStep(s: string, digits: nat, letters: nat, unit: nat, more: nat)
    requires s != "" && !IsBlank(s[0]) && DigitRun(s) == digits > 0
    requires LetterRun(s[digits..]) == letters && UnitSeconds(s[digits..][..letters]) == Some(unit)
    requires ReadSpan(s[digits..][letters..]) == Some(more)
    ensures AllDigits(s[..digits]) && ReadSpan(s) == Some(Value(s[..digits]) * unit + more)
  {
    hide Value, DigitRun, LetterRun, UnitSeconds;
    DigitRunIsDigits(s);
  }

  /** One number with its unit, read off the front. */
  lemma ReadOne(n: nat, name: string, unit: nat, rest: string)
    requires IsName(name) && UnitSeconds(name) == Some(unit)
    requires rest != "" ==> IsBlank(rest[0])
    requires ReadSpan(rest).Some?
    ensures ReadSpan(Decimal(n) + name + rest) == Some(n * unit + ReadSpan(rest).value)
  {
    hide *;
    DecimalValue(n);
    Runs(Decimal(n), name, rest);
    ReadStep(Decimal(n) + name + rest, |Decimal(n)|, |name|, unit, ReadSpan(rest).value);
  }

  lemma UnitsReadable(unit: Unit)
    requires unit in UNITS
    ensures IsName(unit.name) && UnitSeconds(unit.name).Some?
  {
  }

  lemma SplitAtUnit(d: nat, unit: Unit)
    requires unit in UNITS
    ensures (d / unit.size) * UnitSeconds(unit.name).value + (d % unit.size) / SECOND == d / SECOND
  {
    if unit == UNITS[0] {
      SplitAtDay(d);
    } else if unit == UNITS[1] {
      SplitAtHour(d);
    } else if unit == UNITS[2] {
      SplitAtMinute(d);
    }
  }

  lemma SplitAtDay(d: nat)
    ensures (d / DAY) * 86400 + (d % DAY) / SECOND == d / SECOND
  {
  }

  lemma SplitAtHour(d: nat)
    ensures (d / HOUR) * 3600 + (d % HOUR) / SECOND == d / SECOND
  {
  }

  lemma SplitAtMinute(d: nat)
    ensures (d / MINUTE) * 60 + (d % MINUTE) / SECOND == d / SECOND
  {
  }

  lemma {:induction false} JoinParts(part: string, parts: seq<string>)
    ensures Join([part] + parts, " ") == part + if parts == [] then "" else " " + Join(parts, " ")
  {
    if parts != [] {
      JoinFront([part] + parts, " ");
      assert ([part] + parts)[1..] == parts;
    }
  }

  lemma NothingToRead()
    ensures ReadSpan(Join([], " ")) == Some(0)
  {
  }

  lemma {:induction false} ReadParts(d: nat, units: seq<Unit>)
    requires (forall u :: u in units ==> u in UNITS) && (units == [] || units[|units| - 1].size == SECOND)
    requires units == [] ==> d < SECOND
    ensures ReadSpan(Join(Parts(d, units), " ")) == Some(d / SECOND)
  {
    hide ReadSpan, Join, Decimal, UnitSeconds;
    if units == [] {
      NothingToRead();
    } else {
      var unit, rest := units[0], units[1..];
      assert unit in UNITS;
      var n, left := d / unit.size, d % unit.size;
      ReadParts(left, rest);
      ReadPart(n, unit, left, Parts(left, rest));
      SplitAtUnit(d, unit);
    }
  }

  lemma ReadJoined(n: nat, name: string, unit: nat, parts: seq<string>, more: nat)
    requires IsName(name) && UnitSeconds(name) == Some(unit)
    requires ReadSpan(Join(parts, " ")) == Some(more)
    ensures ReadSpan(Join([Decimal(n) + name] + parts, " ")) == Some(n * unit + more)
  {
    hide *;
    JoinParts(Decimal(n) + name, parts);
    var tail := if parts == [] then "" else " " + Join(parts, " ");
    BlankFirst(parts);
    ReadOne(n, name, unit, tail);
  }

  lemma BlankFirst(parts: seq<string>)
    ensures var tail := if parts == [] then "" else " " + Join(parts, " ");
      (tail != "" ==> IsBlank(tail[0])) && ReadSpan(tail) == ReadSpan(Join(parts, " "))
  {
    if parts != [] {
      assert (" " + Join(parts, " "))[1..] == Join(parts, " ");
    }
  }

  /** A number of units in front of a printed rest. */
  lemma ReadPart(n: nat, unit: Unit, left: nat, parts: seq<string>)
    requires unit in UNITS && ReadSpan(Join(parts, " ")) == Some(left / SECOND)
    ensures UnitSeconds(unit.name).Some?
    ensures ReadSpan(Join((if n > 0 then [Decimal(n) + unit.name] else []) + parts, " "))
         == Some(n * UnitSeconds(unit.name).value + left / SECOND)
  {
    hide ReadSpan, Decimal, Join, UnitSeconds;
    UnitsReadable(unit);
    ReadJoined(n, unit.name, UnitSeconds(unit.name).value, parts, left / SECOND);
    assert [] + parts == parts;
  }

  /** What a printed span stands for. */
  function PrintedSeconds(d: Duration): nat {
    if RoundToSecond(d) <= 0 then 0 else RoundToSecond(d) / SECOND
  }

  /** A printed span reads back as its seconds; so distinct whole seconds print differently. */
  lemma TimespanReadsBack(d: Duration)
    ensures ReadSpan(Timespan(d)) == Some(PrintedSeconds(d))
  {
    if RoundToSecond(d) <= 0 {
      assert Decimal(0) == "0" && "0" + "" == "0";
      assert DigitRun("0") == 1;
      assert "0"[..1] == "0" && "0"[1..] == "";
      assert Value("0") == 0;
    } else {
      ReadParts(RoundToSecond(d), UNITS);
    }
  }

  /** The span is the duration rounded half away from zero, exactly up to the
      last half second 64 bits can hold; from there it is rounded down. */
  lemma RoundsHalfAwayIff(d: Duration)
    ensures PrintedSeconds(d) == (if d <= 0 then 0 else (d + SECOND / 2) / SECOND)
        <==> d < 9_223_372_036_500_000_000
  {
  }

  lemma TimespanInjective(d: Duration, e: Duration)
    requires Timespan(d) == Timespan(e)
    ensures PrintedSeconds(d) == PrintedSeconds(e)
  {
    TimespanReadsBack(d);
    TimespanReadsBack(e);
  }

  /** How often each unit fits, largest unit first. */
  function Counts(d: nat, units: seq<Unit>): (c: seq<nat>)
    requires forall u :: u in units ==> u.size > 0
    ensures |c| == |units|
  {
    if units == [] then [] else [d / units[0].size] + Counts(d % units[0].size, units[1..])
  }

  /** Each count that is not zero, with its unit. */
  function Printed(counts: seq<nat>, units: seq<Unit>): seq<string>
    requires |counts| == |units|
  {
    if units == [] then []
    else (if counts[0] > 0 then [Decimal(counts[0]) + units[0].name] else []) + Printed(counts[1..], units[1..])
  }

  lemma {:induction false} PartsArePrinted(d: nat, units: seq<Unit>)
    requires forall u :: u in units ==> u.size > 0
    ensures Parts(d, units) == Printed(Counts(d, units), units)
  {
    if units != [] {
      PartsArePrinted(d % units[0].size, units[1..]);
      assert Counts(d, units)[1..] == Counts(d % units[0].size, units[1..]);
    }
  }

  lemma CountsStep(d: nat, i: nat)
    requires i < |UNITS| && UNITS[i].size > 0
    ensures Counts(d, UNITS[i..]) == [d / UNITS[i].size] + Counts(d % UNITS[i].size, UNITS[i + 1..])
  {
    assert UNITS[i..][1..] == UNITS[i + 1..];
  }

  lemma CountsAre(d: nat)
    ensures Counts(d, UNITS) == [d / DAY, d % DAY / HOUR, d % DAY % HOUR / MINUTE, d % DAY % HOUR % MINUTE / SECOND]
  {
    hide Counts;
    CountsStep(d, 0);
    CountsStep(d % DAY, 1);
    CountsStep(d % DAY % HOUR, 2);
    CountsStep(d % DAY % HOUR % MINUTE, 3);
  }

  lemma CountsInRange(d: nat)
    ensures var c := Counts(d, UNITS);
      c[1] < 24 && c[2] < 60 && c[3] < 60 && c[0] * 86400 + c[1] * 3600 + c[2] * 60 + c[3] == d / SECOND
  {
    hide Counts;
    CountsAre(d);
    SplitAtDay(d);
    SplitAtHour(d % DAY);
    SplitAtMinute(d % DAY % HOUR);
  }

  /** A span above zero is written as its days, hours below 24, minutes below 60
      and seconds below 60, the zeros left out. */
  lemma TimespanDigits(d: Duration) returns (c: seq<nat>)
    requires RoundToSecond(d) > 0
    ensures |c| == |UNITS| && Timespan(d) == Join(Printed(c, UNITS), " ")
    ensures c[1] < 24 && c[2] < 60 && c[3] < 60
    ensures c[0] * 86400 + c[1] * 3600 + c[2] * 60 + c[3] == PrintedSeconds(d)
  {
    c := Counts(RoundToSecond(d), UNITS);
    PartsArePrinted(RoundToSecond(d), UNITS);
    CountsInRange(RoundToSecond(d));
  }
}
