/** What systemd reads out of the rendered timer unit. */
module TimerTheorems {
  import opened Wrappers
  import opened Strings
  import opened SystemdQuoting
  import opened Timespans
  import opened UnitFile
  import opened ServiceUnits
  import opened ServiceTheorems

  lemma TriggerKeys()
    ensures IsKey("OnCalendar") && IsKey("Persistent")
  {
  }

  lemma SpanKeys()
    ensures IsKey("OnStartupSec") && IsKey("OnUnitActiveSec") && IsKey("RandomizedDelaySec")
  {
  }

  lemma EndKeys()
    ensures IsKey("Unit") && IsKey("WantedBy")
    ensures Plain("timers.target") && Plain("peasant-harvest.service") && Plain("true") && OneLine("Install")
  {
  }

  // ----- the settings -----

  function EndSettings(): seq<Setting> {
    [Setting("Timer", "Unit", "peasant-harvest.service"), Setting("Install", "WantedBy", "timers.target")]
  }

  function TailSettings(s: Schedule): seq<Setting> {
    (if s.randomizedDelay > 0 then [Setting("Timer", "RandomizedDelaySec", Timespan(s.randomizedDelay))] else [])
    + EndSettings()
  }

  function EndLines(): seq<string> {
    [Line("Unit", "peasant-harvest.service")] + ([""] + (["[" + "Install" + "]"] + ([Line("WantedBy", "timers.target")] + [])))
  }

  lemma NoLines(section: string)
    ensures ReadLines([], section, "") == []
  {
  }

  lemma ReadEnd()
    ensures ReadLines(EndLines(), "Timer", "") == EndSettings()
    ensures AllOneLine(EndLines())
  {
    hide ReadLines, Plain, OneLine, Line, IsKey;
    EndKeys();
    NoLines("Install");
    HeadersOneLine("Install");
    var wanted := [Line("WantedBy", "timers.target")] + [];
    var install := ["[" + "Install" + "]"] + wanted;
    ReadPlain("WantedBy", "timers.target", [], "Install");
    ReadHeader("Install", wanted, "Timer");
    ReadBlank(install, "Timer");
    ReadPlain("Unit", "peasant-harvest.service", [""] + install, "Timer");
  }

  lemma ReadTimerTail(s: Schedule)
    ensures ReadLines(TimerTail(s), "Timer", "") == TailSettings(s)
    ensures AllOneLine(TimerTail(s))
  {
    hide ReadLines, Timespan, Plain, OneLine, Line, IsKey, EndSettings;
    ReadEnd();
    if s.randomizedDelay > 0 {
      SpanKeys();
      TimespanPlain(s.randomizedDelay);
      ReadPlain("RandomizedDelaySec", Timespan(s.randomizedDelay), EndLines(), "Timer");
      assert TimerTail(s) == [Line("RandomizedDelaySec", Timespan(s.randomizedDelay))] + EndLines();
    } else {
      assert TimerTail(s) == EndLines();
    }
  }

  /** The trigger of an interval schedule. */
  lemma ReadInterval(s: Schedule, rest: seq<string>)
    requires s.calendar == "" && AllOneLine(rest)
    ensures ReadLines(TriggerLines(s, rest), "Timer", "")
         == [Setting("Timer", "OnStartupSec", Timespan(STARTUP_DELAY)),
             Setting("Timer", "OnUnitActiveSec", Timespan(s.interval))] + ReadLines(rest, "Timer", "")
    ensures AllOneLine(TriggerLines(s, rest))
  {
    hide ReadLines, Timespan, Plain, OneLine, Line, IsKey;
    SpanKeys();
    TimespanPlain(STARTUP_DELAY);
    TimespanPlain(s.interval);
    ReadPlain("OnUnitActiveSec", Timespan(s.interval), rest, "Timer");
    ReadPlain("OnStartupSec", Timespan(STARTUP_DELAY), [Line("OnUnitActiveSec", Timespan(s.interval))] + rest, "Timer");
  }

  /** The trigger of a calendar schedule that does not end in a backslash. */
  lemma ReadCalendar(s: Schedule, rest: seq<string>)
    requires s.calendar != "" && Plain(s.calendar) && AllOneLine(rest)
    ensures ReadLines(TriggerLines(s, rest), "Timer", "")
         == [Setting("Timer", "OnCalendar", s.calendar), Setting("Timer", "Persistent", "true")]
            + ReadLines(rest, "Timer", "")
    ensures AllOneLine(TriggerLines(s, rest))
  {
    hide ReadLines, Plain, OneLine, Line, IsKey;
    TriggerKeys();
    EndKeys();
    ReadPlain("Persistent", "true", rest, "Timer");
    ReadPlain("OnCalendar", s.calendar, [Line("Persistent", "true")] + rest, "Timer");
  }

  /** One that does swallows the next line. */
  lemma ReadBrokenCalendar(s: Schedule, rest: seq<string>) returns (got: string)
    requires Continues(s.calendar) && OneLine(s.calendar) && AllOneLine(rest)
    ensures got != "" && got[|got| - 1] == 'e'
    ensures ReadLines(TriggerLines(s, rest), "Timer", "")
         == [Setting("Timer", "OnCalendar", got)] + ReadLines(rest, "Timer", "")
    ensures AllOneLine(TriggerLines(s, rest))
  {
    TriggerKeys();
    var next := Line("Persistent", "true");
    assert next[0] == 'P' && next[|next| - 1] == "true"[3];
    got := ReadContinued("OnCalendar", s.calendar, next, rest, "Timer");
    assert OneLine(next) by {
      EndKeys();
    }
  }

  lemma ReadTimerHead(s: Schedule)
    requires AllOneLine(TriggerLines(s, TimerTail(s)))
    ensures Settings(Text(TimerLines(s)))
         == [Setting("Unit", "Description", TIMER_DESCRIPTION)] + ReadLines(TriggerLines(s, TimerTail(s)), "Timer", "")
  {
    DescriptionsPlain();
    ReadHead(TIMER_DESCRIPTION, "Timer", TriggerLines(s, TimerTail(s)));
    assert TimerLines(s) == HeadLines(TIMER_DESCRIPTION, "Timer", TriggerLines(s, TimerTail(s)));
    LinesOfText(TimerLines(s));
  }

  // ----- the values -----

  lemma TailValuesOf(s: Schedule, key: string)
    requires key in {"OnCalendar", "OnUnitActiveSec", "RandomizedDelaySec"}
    ensures Values(TailSettings(s), "Timer", key)
         == if key == "RandomizedDelaySec" && s.randomizedDelay > 0 then [Timespan(s.randomizedDelay)] else []
  {
    var unit, wanted := Setting("Timer", "Unit", "peasant-harvest.service"), Setting("Install", "WantedBy", "timers.target");
    assert EndSettings() == [unit] + ([wanted] + []);
    ValuesCons(wanted, [], "Timer", key);
    ValuesCons(unit, [wanted] + [], "Timer", key);
    if s.randomizedDelay > 0 {
      ValuesCons(Setting("Timer", "RandomizedDelaySec", Timespan(s.randomizedDelay)), EndSettings(), "Timer", key);
    } else {
      assert TailSettings(s) == EndSettings();
    }
  }

  lemma ValuesTwo(a: Setting, b: Setting, rest: seq<Setting>, section: string, key: string)
    ensures Values([a, b] + rest, section, key)
         == (if a.section == section && a.key == key then [a.value] else [])
            + ((if b.section == section && b.key == key then [b.value] else []) + Values(rest, section, key))
  {
    assert [a, b] + rest == [a] + ([b] + rest);
    ValuesCons(b, rest, section, key);
    ValuesCons(a, [b] + rest, section, key);
  }

  lemma HeadValues(rest: seq<Setting>, key: string)
    ensures Values([Setting("Unit", "Description", TIMER_DESCRIPTION)] + rest, "Timer", key) == Values(rest, "Timer", key)
  {
    ValuesCons(Setting("Unit", "Description", TIMER_DESCRIPTION), rest, "Timer", key);
  }

  /** The delay reads back whatever the trigger is. */
  lemma DelayReads(s: Schedule)
    requires s.randomizedDelay >= 0
    ensures var read := ReadSpanOf(Values(TailSettings(s), "Timer", "RandomizedDelaySec"));
      && read.Some?
      && PrintedSeconds(s.randomizedDelay) == if read.value.Some? then read.value.value else 0
  {
    TailValuesOf(s, "RandomizedDelaySec");
    TimespanReadsBack(s.randomizedDelay);
  }

  /** An interval schedule reads back, its spans in whole seconds. */
  lemma {:induction false} IntervalReadsBack(s: Schedule, table: SpecifierTable)
    requires s.calendar == "" && s.randomizedDelay >= 0
    ensures ReadTimer(Settings(Text(TimerLines(s))), table)
         == Some(Timer(None, Some(PrintedSeconds(s.interval)), PrintedSeconds(s.randomizedDelay)))
  {
    ReadTimerTail(s);
    ReadInterval(s, TimerTail(s));
    ReadTimerHead(s);
    var a := Setting("Timer", "OnStartupSec", Timespan(STARTUP_DELAY));
    var b := Setting("Timer", "OnUnitActiveSec", Timespan(s.interval));
    HeadAndTwo(s, a, b);
    DelayReads(s);
    TimespanReadsBack(s.interval);
  }

  /** What the three settings of interest are worth behind a two-line trigger. */
  lemma HeadAndTwo(s: Schedule, a: Setting, b: Setting)
    requires a.section == b.section == "Timer" && a.key != "RandomizedDelaySec" && b.key != "RandomizedDelaySec"
    ensures var all := [Setting("Unit", "Description", TIMER_DESCRIPTION)] + ([a, b] + TailSettings(s));
      && Values(all, "Timer", "OnCalendar")
         == (if a.key == "OnCalendar" then [a.value] else []) + (if b.key == "OnCalendar" then [b.value] else [])
      && Values(all, "Timer", "OnUnitActiveSec")
         == (if a.key == "OnUnitActiveSec" then [a.value] else []) + (if b.key == "OnUnitActiveSec" then [b.value] else [])
      && Values(all, "Timer", "RandomizedDelaySec") == Values(TailSettings(s), "Timer", "RandomizedDelaySec")
  {
    hide Values, TailSettings, EndSettings;
    forall key | key in {"OnCalendar", "OnUnitActiveSec", "RandomizedDelaySec"}
      ensures Values([Setting("Unit", "Description", TIMER_DESCRIPTION)] + ([a, b] + TailSettings(s)), "Timer", key)
           == (if a.key == key then [a.value] else [])
              + ((if b.key == key then [b.value] else []) + Values(TailSettings(s), "Timer", key))
    {
      HeadValues([a, b] + TailSettings(s), key);
      ValuesTwo(a, b, TailSettings(s), "Timer", key);
    }
    TailValuesOf(s, "OnCalendar");
    TailValuesOf(s, "OnUnitActiveSec");
  }

  /** A calendar that does not end in a backslash reaches systemd's specifier stage intact. */
  lemma CalendarReads(s: Schedule, table: SpecifierTable)
    requires s.calendar != "" && Plain(s.calendar) && s.randomizedDelay >= 0
    ensures ReadTimer(Settings(Text(TimerLines(s))), table)
         == Some(Timer(Some(Specifiers(s.calendar, table)), None, PrintedSeconds(s.randomizedDelay)))
  {
    ReadTimerTail(s);
    ReadCalendar(s, TimerTail(s));
    ReadTimerHead(s);
    HeadAndTwo(s, Setting("Timer", "OnCalendar", s.calendar), Setting("Timer", "Persistent", "true"));
    DelayReads(s);
  }

  /** One that ends in a backslash does not: systemd reads a value ending in `e`. */
  lemma BrokenCalendarReads(s: Schedule) returns (got: string)
    requires Continues(s.calendar) && OneLine(s.calendar)
    ensures got != "" && got[|got| - 1] == 'e'
    ensures Values(Settings(Text(TimerLines(s))), "Timer", "OnCalendar") == [got]
  {
    ReadTimerTail(s);
    got := ReadBrokenCalendar(s, TimerTail(s));
    ReadTimerHead(s);
    HeadValues([Setting("Timer", "OnCalendar", got)] + TailSettings(s), "OnCalendar");
    ValuesCons(Setting("Timer", "OnCalendar", got), TailSettings(s), "Timer", "OnCalendar");
    TailValuesOf(s, "OnCalendar");
  }

  // ----- specifiers in a calendar -----

  /** No % with a character behind it. */
  predicate NoSpecifier(s: string) {
    forall i :: 0 <= i < |s| - 1 ==> s[i] != '%'
  }

  lemma {:induction false} SpecifiersKeep(s: string, table: SpecifierTable)
    requires NoSpecifier(s)
    ensures Specifiers(s, table) == s
  {
    if s != "" && s[0] != '%' {
      SpecifiersKeep(s[1..], table);
      assert s == [s[0]] + s[1..];
    } else if s != "" {
      assert |s| == 1 && s == "%";
    }
  }

  lemma {:induction false} SpecifiersShrink(s: string)
    ensures |Specifiers(s, c => "")| <= |s|
    ensures !NoSpecifier(s) ==> |Specifiers(s, c => "")| < |s|
  {
    if s == "" {
    } else if s[0] != '%' {
      SpecifiersShrink(s[1..]);
      if !NoSpecifier(s) {
        var i :| 0 <= i < |s| - 1 && s[i] == '%';
        assert s[1..][i - 1] == '%';
      }
    } else if |s| > 1 {
      SpecifiersShrink(s[2..]);
    }
  }

  /** A table under which every specifier stands for an `e`. */
  function EchoTable(): SpecifierTable {
    c => "e"
  }

  lemma {:induction false} EchoKeeps(s: string)
    requires s != "" && s[|s| - 1] == 'e'
    ensures var r := Specifiers(s, EchoTable()); r != "" && r[|r| - 1] == 'e'
  {
    if |s| > 1 && s[0] != '%' {
      EchoKeeps(s[1..]);
    } else if |s| > 2 {
      EchoKeeps(s[2..]);
    } else if |s| == 2 {
      assert s[2..] == "" && Specifiers(s, EchoTable()) == "e" + "";
    }
  }

  /** systemd runs the calendar and the delay that were asked for. */
  ghost predicate ReadsBack(s: Schedule, table: SpecifierTable) {
    ReadTimer(Settings(Text(TimerLines(s))), table)
    == Some(Timer(Some(s.calendar), None, PrintedSeconds(s.randomizedDelay)))
  }

  lemma BrokenNever(s: Schedule)
    requires Continues(s.calendar) && OneLine(s.calendar)
    ensures !ReadsBack(s, EchoTable())
  {
    hide Values, Settings, Text, TimerLines, Specifiers, ReadSpanOf;
    var got := BrokenCalendarReads(s);
    EchoKeeps(got);
    var read := Specifiers(got, EchoTable());
    assert read[|read| - 1] != s.calendar[|s.calendar| - 1];
  }

  lemma PlainIff(s: Schedule, table: SpecifierTable)
    requires s.calendar != "" && Plain(s.calendar) && s.randomizedDelay >= 0
    ensures ReadsBack(s, table) <==> Specifiers(s.calendar, table) == s.calendar
  {
    CalendarReads(s, table);
  }

  /** A calendar schedule the check accepts is the schedule systemd runs, whatever
      the specifiers stand for, exactly when the expression does not end in a
      backslash and holds no % before its last character. */
  lemma CalendarReadsBackIff(s: Schedule)
    requires ValidSchedule(s) && s.calendar != ""
    ensures (forall table :: ReadsBack(s, table)) <==> !Continues(s.calendar) && NoSpecifier(s.calendar)
  {
    CleanOneLine(s.calendar);
    if Continues(s.calendar) {
      BrokenNever(s);
    } else if NoSpecifier(s.calendar) {
      forall table
        ensures ReadsBack(s, table)
      {
        PlainIff(s, table);
        SpecifiersKeep(s.calendar, table);
      }
    } else {
      SpecifiersShrink(s.calendar);
      PlainIff(s, c => "");
    }
  }

  // ----- every schedule the check accepts -----

  lemma {:induction false} TrimLeftClean(s: string)
    requires Clean(s)
    ensures Clean(TrimLeft(s)) && (TrimLeft(s) != "" ==> !IsSpace(TrimLeft(s)[0]))
  {
    if s != "" && IsSpace(s[0]) {
      TrimLeftClean(s[1..]);
    }
  }

  lemma {:induction false} TrimRightClean(s: string)
    requires Clean(s) && (s != "" ==> !IsSpace(s[0]))
    ensures var t := TrimRight(s);
      Clean(t) && (t != "" ==> !IsSpace(t[0]) && !IsSpace(t[|t| - 1]))
  {
    if s != "" && IsSpace(s[|s| - 1]) {
      TrimRightClean(s[..|s| - 1]);
    }
  }

  /** The check accepts schedules that are one line, with exactly one trigger. */
  lemma AcceptedIsValid(flags: Flags, intervalSet: bool)
    requires NewServiceSchedule(flags, intervalSet).Ok?
    ensures var s := NewServiceSchedule(flags, intervalSet).value;
      && ValidSchedule(s)
      && (s.calendar != "" <==> flags.onCalendar != "")
      && (s.calendar != "" ==> !intervalSet && s.interval == 0)
      && s.randomizedDelay == flags.randomizedDelay
  {
    if flags.onCalendar != "" {
      TrimLeftClean(flags.onCalendar);
      TrimRightClean(TrimLeft(flags.onCalendar));
    }
  }

  /** Which flags are accepted: not both triggers, no negative delay, and a calendar
      that is one line and not all blank, or an interval of a minute and more. */
  lemma AcceptedIff(flags: Flags, intervalSet: bool)
    ensures NewServiceSchedule(flags, intervalSet).Ok? <==>
      && flags.randomizedDelay >= 0
      && (if flags.onCalendar != "" then
            !intervalSet && Clean(flags.onCalendar) && exists i :: 0 <= i < |flags.onCalendar| && !IsSpace(flags.onCalendar[i])
          else flags.interval >= 60_000_000_000)
  {
    TrimSpaceIs(flags.onCalendar);
  }

  /** And to what: the interval as given, or the calendar without the blanks around it. */
  lemma AcceptedAs(flags: Flags, intervalSet: bool)
    requires NewServiceSchedule(flags, intervalSet).Ok?
    ensures var s := NewServiceSchedule(flags, intervalSet).value;
      && s.randomizedDelay == flags.randomizedDelay
      && (flags.onCalendar == "" ==> s.interval == flags.interval && s.calendar == "")
      && (flags.onCalendar != "" ==>
            && s.interval == 0
            && exists left, right ::
                 && flags.onCalendar == left + s.calendar + right && Blank(left) && Blank(right)
                 && s.calendar != "" && !IsSpace(s.calendar[0]) && !IsSpace(s.calendar[|s.calendar| - 1]))
  {
    TrimSpaceIs(flags.onCalendar);
  }

  /** Why the others are not, the first that holds. */
  lemma RefusedFor(flags: Flags, intervalSet: bool)
    requires NewServiceSchedule(flags, intervalSet).Err?
    ensures NewServiceSchedule(flags, intervalSet).error ==
      if flags.onCalendar != "" && intervalSet then Exclusive
      else if flags.randomizedDelay < 0 then NegativeDelay
      else if flags.onCalendar != "" then NotOneLine
      else IntervalTooShort
  {
  }

  // ----- every setting of the timer -----

  function TimerSettings(s: Schedule): seq<Setting> {
    [Setting("Unit", "Description", TIMER_DESCRIPTION)]
    + ((if s.calendar != "" then
          [Setting("Timer", "OnCalendar", s.calendar), Setting("Timer", "Persistent", "true")]
        else
          [Setting("Timer", "OnStartupSec", "2min"), Setting("Timer", "OnUnitActiveSec", Timespan(s.interval))])
       + ((if s.randomizedDelay > 0 then [Setting("Timer", "RandomizedDelaySec", Timespan(s.randomizedDelay))] else [])
          + [Setting("Timer", "Unit", "peasant-harvest.service"), Setting("Install", "WantedBy", "timers.target")]))
  }

  lemma TwoMinutes()
    ensures Timespan(STARTUP_DELAY) == "2min"
  {
    assert RoundToSecond(STARTUP_DELAY) == 2 * MINUTE;
    PartsArePrinted(2 * MINUTE, UNITS);
    CountsAre(2 * MINUTE);
    assert Counts(2 * MINUTE, UNITS) == [0, 0, 2, 0];
    assert [0, 0, 2, 0][1..] == [0, 2, 0] && [0, 2, 0][1..] == [2, 0] && [2, 0][1..] == [0];
    assert UNITS[1..][1..] == UNITS[2..] && UNITS[2..][1..] == UNITS[3..] && UNITS[3..][1..] == [];
    assert Printed([0], UNITS[3..]) == [];
    assert Decimal(2) == "2" && "2" + "min" == "2min" && UNITS[2..][0].name == "min";
    assert Printed([2, 0], UNITS[2..]) == ["2min"] + [];
    assert Printed([0, 2, 0], UNITS[1..]) == [] + ["2min"];
    assert Printed([0, 0, 2, 0], UNITS) == ["2min"];
  }

  /** The text of the timer unit reads as these settings, whichever the trigger. */
  lemma TimerReads(s: Schedule)
    requires Plain(s.calendar)
    ensures Settings(Text(TimerLines(s))) == TimerSettings(s)
  {
    ReadTimerTail(s);
    TwoMinutes();
    if s.calendar != "" {
      ReadCalendar(s, TimerTail(s));
    } else {
      ReadInterval(s, TimerTail(s));
    }
    ReadTimerHead(s);
  }
}
