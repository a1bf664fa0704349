/** The systemd user units `peasant service install` writes, and what systemd
    reads out of them (cmd/peasant/cmd_service.go). */
module ServiceUnits {
  import opened Wrappers
  import opened SystemdQuoting
  import opened Timespans
  import opened UnitFile
  import opened Strings

  const MARKER := "# Generated by peasant " + "service install. " + "Re-run it to change this unit; "
    + "peasant service " + "uninstall removes it."
  const SERVICE_DESCRIPTION := "Peasant: harvest " + "AI coding agent " + "transcripts, then " + "redact the local copies"
  const TIMER_DESCRIPTION := "Peasant: run " + "peasant-harvest.service" + " on a schedule"
  const MIN_INTERVAL: int := MINUTE
  const STARTUP_DELAY: Duration := 2 * MINUTE

  datatype ServiceEnv = ServiceEnv(name: string, value: string)

  /** The harvest command line, the redact command line unless it is left out,
      and one environment. */
  datatype Invocation = Invocation(harvest: seq<string>, redact: Option<seq<string>>, env: seq<ServiceEnv>)

  /** Exactly one of interval and calendar is set. */
  datatype Schedule = Schedule(interval: Duration, calendar: string, randomizedDelay: Duration)

  datatype Flags = Flags(interval: Duration, onCalendar: string, randomizedDelay: Duration)

  // ----- validation -----

  datatype ScheduleError = Exclusive | NegativeDelay | NotOneLine | IntervalTooShort

  function NewServiceSchedule(flags: Flags, intervalSet: bool): Result<Schedule, ScheduleError> {
    if flags.onCalendar != "" && intervalSet then Err(Exclusive)
    else if flags.randomizedDelay < 0 then Err(NegativeDelay)
    else if flags.onCalendar != "" then
      if TrimSpace(flags.onCalendar) == "" || !Clean(flags.onCalendar) then Err(NotOneLine)
      else Ok(Schedule(0, TrimSpace(flags.onCalendar), flags.randomizedDelay))
    else if flags.interval < MIN_INTERVAL then Err(IntervalTooShort)
    else Ok(Schedule(flags.interval, "", flags.randomizedDelay))
  }

  /** A schedule the check accepts. */
  ghost predicate ValidSchedule(s: Schedule) {
    && Clean(s.calendar) && Trim(s.calendar)
    && s.randomizedDelay >= 0
    && (s.calendar == "" ==> s.interval >= MIN_INTERVAL)
  }

  function EnvValues(env: seq<ServiceEnv>): (v: seq<string>)
    ensures |v| == |env|
    ensures forall i :: 0 <= i < |v| ==> v[i] == env[i].value
  {
    seq(|env|, i requires 0 <= i < |env| => env[i].value)
  }

  datatype WordError = ControlCharacter(word: string) | UnrunnableExecutable

  function FirstDirty(words: seq<string>): Option<string> {
    if words == [] then None
    else if !Clean(words[0]) then Some(words[0])
    else FirstDirty(words[1..])
  }

  function ValidateUnitWords(inv: Invocation): Option<WordError>
    requires inv.harvest != []
  {
    var words := inv.harvest + (if inv.redact.Some? then inv.redact.value else []) + EnvValues(inv.env);
    if FirstDirty(words).Some? then Some(ControlCharacter(FirstDirty(words).value))
    else if exists c :: c in inv.harvest[0] && c in {'"', '\\', '\'', '$'} then Some(UnrunnableExecutable)
    else None
  }

  /** Names the installer uses are constants; a name is one word without `=`. */
  predicate EnvName(name: string) {
    Clean(name) && '=' !in name
  }

  // ----- rendering -----

  /** One assignment as a word. */
  function EnvWord(e: ServiceEnv): string {
    e.name + "=" + e.value
  }

  function EnvText(e: ServiceEnv): string {
    Quoted(EnvWord(e), false)
  }

  function EnvLines(env: seq<ServiceEnv>): seq<string> {
    if env == [] then []
    else [Line("Environment", EnvText(env[0]))] + EnvLines(env[1..])
  }

  function RedactLines(redact: Option<seq<string>>, rest: seq<string>): seq<string> {
    if redact.None? then rest
    else [Line("ExecStopPost", ExecLine(redact.value))] + ([Line("TimeoutStopSec", "30min")] + rest)
  }

  function ServiceTail(inv: Invocation): seq<string> {
    [Line("ExecStart", ExecLine(inv.harvest))]
    + RedactLines(inv.redact, [Line("Nice", "10")] + ([Line("IOSchedulingClass", "idle")] + []))
  }

  function ServiceLines(inv: Invocation): seq<string> {
    [MARKER] + (["[" + "Unit" + "]"] + ([Line("Description", SERVICE_DESCRIPTION)] + ([""]
    + (["[" + "Service" + "]"] + ([Line("Type", "oneshot")] + (EnvLines(inv.env) + ServiceTail(inv)))))))
  }

  function TimerTail(s: Schedule): seq<string> {
    var end := [Line("Unit", "peasant-harvest.service")] + ([""] + (["[" + "Install" + "]"] + ([Line("WantedBy", "timers.target")] + [])));
    if s.randomizedDelay > 0 then [Line("RandomizedDelaySec", Timespan(s.randomizedDelay))] + end else end
  }

  function TriggerLines(s: Schedule, rest: seq<string>): seq<string> {
    if s.calendar != "" then [Line("OnCalendar", s.calendar)] + ([Line("Persistent", "true")] + rest)
    else [Line("OnStartupSec", Timespan(STARTUP_DELAY))] + ([Line("OnUnitActiveSec", Timespan(s.interval))] + rest)
  }

  function TimerLines(s: Schedule): seq<string> {
    [MARKER] + (["[" + "Unit" + "]"] + ([Line("Description", TIMER_DESCRIPTION)] + ([""]
    + (["[" + "Timer" + "]"] + TriggerLines(s, TimerTail(s))))))
  }

  // ----- reading -----

  function SplitEnv(word: string): ServiceEnv {
    var at := Find(word, '=');
    ServiceEnv(word[..at], if at < |word| then word[at + 1..] else "")
  }

  function SplitEnvs(words: seq<string>): seq<ServiceEnv> {
    if words == [] then [] else [SplitEnv(words[0])] + SplitEnvs(words[1..])
  }

  function ReadEnvs(values: seq<string>, table: SpecifierTable): Option<seq<ServiceEnv>> {
    if values == [] then Some([])
    else
      match ReadEnvironment(values[0], table)
      case None => None
      case Some(words) =>
        match ReadEnvs(values[1..], table)
        case None => None
        case Some(rest) => Some(SplitEnvs(words) + rest)
  }

  function ReadOptional(values: seq<string>, table: SpecifierTable, vars: VariableTable): Option<Option<seq<string>>> {
    if values == [] then Some(None)
    else if |values| > 1 then None
    else match ReadCommand(values[0], table, vars)
      case None => None
      case Some(args) => Some(Some(args))
  }

  /** The invocation systemd makes of a service unit. */
  function ReadService(settings: seq<Setting>, table: SpecifierTable, vars: VariableTable): Option<Invocation> {
    var start := Values(settings, "Service", "ExecStart");
    if |start| != 1 then None
    else
      match ReadCommand(start[0], table, vars)
      case None => None
      case Some(harvest) =>
        match ReadOptional(Values(settings, "Service", "ExecStopPost"), table, vars)
        case None => None
        case Some(redact) =>
          match ReadEnvs(Values(settings, "Service", "Environment"), table)
          case None => None
          case Some(env) => Some(Invocation(harvest, redact, env))
  }

  datatype Timer = Timer(calendar: Option<string>, interval: Option<nat>, delay: nat)

  function ReadSpanOf(values: seq<string>): Option<Option<nat>> {
    if values == [] then Some(None)
    else if |values| > 1 || ReadSpan(values[0]).None? then None
    else Some(Some(ReadSpan(values[0]).value))
  }

  /** The schedule systemd makes of a timer unit; every setting expands % specifiers. */
  function ReadTimer(settings: seq<Setting>, table: SpecifierTable): Option<Timer> {
    var calendars := Values(settings, "Timer", "OnCalendar");
    var interval := ReadSpanOf(Values(settings, "Timer", "OnUnitActiveSec"));
    var delay := ReadSpanOf(Values(settings, "Timer", "RandomizedDelaySec"));
    if |calendars| > 1 || interval.None? || delay.None? then None
    else Some(Timer(
      if calendars == [] then None else Some(Specifiers(calendars[0], table)),
      interval.value,
      if delay.value.Some? then delay.value.value else 0))
  }

  // ----- the loops -----

  lemma {:induction false} TextAppend(a: seq<string>, b: seq<string>)
    ensures Text(a + b) == Text(a) + Text(b)
  {
    if a == [] {
      assert a + b == b;
    } else {
      assert (a + b)[1..] == a[1..] + b;
      TextAppend(a[1..], b);
    }
  }

  lemma {:induction false} EnvLinesAppend(a: seq<ServiceEnv>, b: seq<ServiceEnv>)
    ensures EnvLines(a + b) == EnvLines(a) + EnvLines(b)
  {
    if a == [] {
      assert a + b == b;
    } else {
      assert (a + b)[1..] == a[1..] + b;
      EnvLinesAppend(a[1..], b);
    }
  }

  lemma TextOne(line: string)
    ensures Text([line]) == line + "\n"
  {
    assert [line][1..] == [] && line + "\n" + "" == line + "\n";
  }

  method RenderEnvironment(env: seq<ServiceEnv>) returns (svc: string)
    ensures svc == Text(EnvLines(env))
  {
    svc := "";
    for i := 0 to |env|
      invariant svc == Text(EnvLines(env[..i]))
    {
      var q := SystemdQuote(EnvWord(env[i]), false);
      svc := svc + (Line("Environment", q) + "\n");
      assert env[..i + 1] == env[..i] + [env[i]];
      EnvLinesAppend(env[..i], [env[i]]);
      TextAppend(EnvLines(env[..i]), EnvLines([env[i]]));
      assert [env[i]][1..] == [];
      TextOne(Line("Environment", q));
    }
    assert env[..|env|] == env;
  }

  /** One line written, with what is still to be written behind it. */
  method Write(builder: string, line: string, ghost rest: seq<string>, ghost all: string) returns (longer: string)
    requires builder + Text([line] + rest) == all
    ensures longer == builder + (line + "\n") && longer + Text(rest) == all
  {
    assert ([line] + rest)[1..] == rest;
    assert builder + (line + "\n" + Text(rest)) == (builder + (line + "\n")) + Text(rest);
    longer := builder + (line + "\n");
  }

  method RenderService(inv: Invocation) returns (svc: string)
    ensures svc == Text(ServiceLines(inv))
  {
    hide Text, Line, EnvLines, ServiceTail;
    ghost var all := Text(ServiceLines(inv));
    ghost var body := EnvLines(inv.env) + ServiceTail(inv);
    ghost var typed := [Line("Type", "oneshot")] + body;
    ghost var section := ["[" + "Service" + "]"] + typed;
    ghost var blank := [""] + section;
    ghost var described := [Line("Description", SERVICE_DESCRIPTION)] + blank;
    assert "" + all == all;
    svc := Write("", MARKER, ["[" + "Unit" + "]"] + described, all);
    svc := Write(svc, "[" + "Unit" + "]", described, all);
    svc := Write(svc, Line("Description", SERVICE_DESCRIPTION), blank, all);
    svc := Write(svc, "", section, all);
    svc := Write(svc, "[" + "Service" + "]", typed, all);
    svc := Write(svc, Line("Type", "oneshot"), body, all);
    var env := RenderEnvironment(inv.env);
    TextAppend(EnvLines(inv.env), ServiceTail(inv));
    assert svc + (env + Text(ServiceTail(inv))) == (svc + env) + Text(ServiceTail(inv));
    svc := RenderCommands(svc + env, inv, all);
  }

  method RenderCommands(head: string, inv: Invocation, ghost all: string) returns (svc: string)
    requires head + Text(ServiceTail(inv)) == all
    ensures svc == all
  {
    ghost var idle := [Line("IOSchedulingClass", "idle")] + [];
    ghost var nice := [Line("Nice", "10")] + idle;
    var line := SystemdExecLine(inv.harvest);
    svc := Write(head, Line("ExecStart", line), RedactLines(inv.redact, nice), all);
    if inv.redact.Some? {
      line := SystemdExecLine(inv.redact.value);
      svc := Write(svc, Line("ExecStopPost", line), [Line("TimeoutStopSec", "30min")] + nice, all);
      svc := Write(svc, Line("TimeoutStopSec", "30min"), nice, all);
    }
    svc := Write(svc, Line("Nice", "10"), idle, all);
    svc := Write(svc, Line("IOSchedulingClass", "idle"), [], all);
    assert svc + "" == svc;
  }

  method RenderTimer(schedule: Schedule) returns (tmr: string)
    ensures tmr == Text(TimerLines(schedule))
  {
    hide Text, Line, Timespan, TimerTail;
    ghost var all := Text(TimerLines(schedule));
    ghost var tail := TimerTail(schedule);
    ghost var body := TriggerLines(schedule, tail);
    ghost var section := ["[" + "Timer" + "]"] + body;
    ghost var blank := [""] + section;
    ghost var described := [Line("Description", TIMER_DESCRIPTION)] + blank;
    assert "" + all == all;
    tmr := Write("", MARKER, ["[" + "Unit" + "]"] + described, all);
    tmr := Write(tmr, "[" + "Unit" + "]", described, all);
    tmr := Write(tmr, Line("Description", TIMER_DESCRIPTION), blank, all);
    tmr := Write(tmr, "", section, all);
    tmr := Write(tmr, "[" + "Timer" + "]", body, all);
    if schedule.calendar != "" {
      tmr := Write(tmr, Line("OnCalendar", schedule.calendar), [Line("Persistent", "true")] + tail, all);
      tmr := Write(tmr, Line("Persistent", "true"), tail, all);
    } else {
      var startup := SystemdTimespan(STARTUP_DELAY);
      var interval := SystemdTimespan(schedule.interval);
      tmr := Write(tmr, Line("OnStartupSec", startup), [Line("OnUnitActiveSec", interval)] + tail, all);
      tmr := Write(tmr, Line("OnUnitActiveSec", interval), tail, all);
    }
    tmr := RenderTimerEnd(tmr, schedule, all);
  }

  method RenderTimerEnd(head: string, schedule: Schedule, ghost all: string) returns (tmr: string)
    requires head + Text(TimerTail(schedule)) == all
    ensures tmr == all
  {
    ghost var wanted := [Line("WantedBy", "timers.target")] + [];
    ghost var install := ["[" + "Install" + "]"] + wanted;
    ghost var blank := [""] + install;
    ghost var unit := [Line("Unit", "peasant-harvest.service")] + blank;
    tmr := head;
    if schedule.randomizedDelay > 0 {
      var delay := SystemdTimespan(schedule.randomizedDelay);
      tmr := Write(tmr, Line("RandomizedDelaySec", delay), unit, all);
    }
    tmr := Write(tmr, Line("Unit", "peasant-harvest.service"), blank, all);
    tmr := Write(tmr, "", install, all);
    tmr := Write(tmr, "[" + "Install" + "]", wanted, all);
    tmr := Write(tmr, Line("WantedBy", "timers.target"), [], all);
    assert tmr + "" == tmr;
  }
}
