/** What systemd reads out of the rendered units: the invocation and the
    schedule they were rendered from, and exactly when not. */
module ServiceTheorems {
  import opened Wrappers
  import opened Strings
  import opened SystemdQuoting
  import opened Timespans
  import opened UnitFile
  import opened ServiceUnits

  // ----- text without newlines -----

  predicate OneLine(s: string) {
    '\n' !in s
  }

  lemma {:induction false} SlashedOneLine(w: string)
    ensures OneLine(Slashed(w)) <==> OneLine(w)
  {
    if w != "" {
      SlashedOneLine(w[1..]);
      assert w == [w[0]] + w[1..];
    }
  }

  lemma {:induction false} DoubledOneLine(w: string, x: char)
    ensures OneLine(Doubled(w, x)) <==> OneLine(w)
  {
    if w != "" {
      DoubledOneLine(w[1..], x);
      assert w == [w[0]] + w[1..];
    }
  }

  lemma QuotedOneLine(w: string, execLine: bool)
    requires OneLine(w)
    ensures OneLine(Quoted(w, execLine))
  {
    DoubledOneLine(w, '$');
    var d := if execLine then Doubled(w, '$') else w;
    DoubledOneLine(d, '%');
    SlashedOneLine(Doubled(d, '%'));
  }

  lemma CleanOneLine(w: string)
    requires Clean(w)
    ensures OneLine(w)
  {
  }

  lemma {:induction false} JoinOneLine(parts: seq<string>)
    requires forall i :: 0 <= i < |parts| ==> OneLine(parts[i])
    ensures OneLine(Join(parts, " "))
  {
    if |parts| > 1 {
      JoinOneLine(parts[..|parts| - 1]);
    }
  }

  lemma ExecLineOneLine(args: seq<string>)
    requires forall a :: a in args ==> Clean(a)
    ensures OneLine(ExecLine(args))
  {
    forall i | 0 <= i < |args|
      ensures OneLine(QuotedAll(args)[i])
    {
      assert args[i] in args;
      QuotedOneLine(args[i], true);
    }
    JoinOneLine(QuotedAll(args));
  }

  /** A value that stands on a line by itself. */
  predicate Plain(value: string) {
    OneLine(value) && Trim(value) && !Continues(value)
  }

  lemma QuotedPlain(w: string, execLine: bool)
    requires OneLine(w)
    ensures Plain(Quoted(w, execLine))
  {
    QuotedOneLine(w, execLine);
    var q := Quoted(w, execLine);
    assert q[0] == '"' && q[|q| - 1] == '"';
  }

  lemma {:induction false} JoinEnds(parts: seq<string>)
    requires parts != [] && forall i :: 0 <= i < |parts| ==> parts[i] != ""
    ensures Join(parts, " ") != ""
    ensures Join(parts, " ")[0] == parts[0][0]
    ensures var last := parts[|parts| - 1]; Join(parts, " ")[|Join(parts, " ")| - 1] == last[|last| - 1]
  {
    if |parts| > 1 {
      JoinEnds(parts[..|parts| - 1]);
    }
  }

  lemma ExecLinePlain(args: seq<string>)
    requires forall a :: a in args ==> Clean(a)
    ensures Plain(ExecLine(args))
  {
    ExecLineOneLine(args);
    if args != [] {
      var parts := QuotedAll(args);
      JoinEnds(parts);
      var last := parts[|parts| - 1];
      assert parts[0][0] == '"' && last[|last| - 1] == '"';
    }
  }

  // ----- printed spans are plain -----

  lemma {:induction false} PartsPlain(d: nat, units: seq<Unit>)
    requires forall u :: u in units ==> u in UNITS
    ensures forall u :: u in units ==> u.size > 0
    ensures forall i :: 0 <= i < |Parts(d, units)| ==> Plain(Parts(d, units)[i]) && Parts(d, units)[i] != ""
    decreases units
  {
    if units != [] {
      var unit := units[0];
      assert unit in UNITS;
      PartsPlain(d % unit.size, units[1..]);
      PartPlain(d / unit.size, unit);
    }
  }

  lemma PartPlain(n: nat, unit: Unit)
    requires unit in UNITS
    ensures Plain(Decimal(n) + unit.name)
  {
    DecimalValue(n);
    UnitsReadable(unit);
    var p := Decimal(n) + unit.name;
    assert IsDigit(p[0]) && IsLetter(unit.name[|unit.name| - 1]);
    assert p[|p| - 1] == unit.name[|unit.name| - 1];
    forall i | 0 <= i < |p|
      ensures p[i] != '\n'
    {
      if i < |Decimal(n)| {
        assert IsDigit(Decimal(n)[i]);
      } else {
        assert IsLetter(unit.name[i - |Decimal(n)|]);
      }
    }
  }

  lemma TimespanPlain(d: Duration)
    ensures Plain(Timespan(d))
  {
    var rounded := RoundToSecond(d);
    if rounded > 0 {
      PartsPlain(rounded, UNITS);
      var parts := Parts(rounded, UNITS);
      if parts != [] {
        JoinOneLine(parts);
        JoinEnds(parts);
        var last := parts[|parts| - 1];
        assert Plain(last) && Plain(parts[0]);
      }
    }
  }

  // ----- the constant parts -----

  lemma MarkerIsComment()
    ensures IsComment(MARKER) && OneLine(MARKER)
  {
    assert OneLine("# Generated by peasant ") && OneLine("service install. ") && OneLine("Re-run it to change this unit; ");
    assert OneLine("peasant service ") && OneLine("uninstall removes it.");
  }

  lemma DescriptionsPlain()
    ensures Plain(SERVICE_DESCRIPTION) && Plain(TIMER_DESCRIPTION)
  {
    assert OneLine("Peasant: harvest ") && OneLine("AI coding agent ") && OneLine("transcripts, then ");
    assert OneLine("redact the local copies") && OneLine("Peasant: run ");
    assert OneLine("peasant-harvest.service") && OneLine(" on a schedule");
  }

  lemma ServiceKeys()
    ensures IsKey("Description") && IsKey("Type") && IsKey("Environment")
  {
  }

  lemma CommandKeys()
    ensures IsKey("ExecStart") && IsKey("ExecStopPost") && IsKey("TimeoutStopSec")
  {
  }

  lemma PriorityKeys()
    ensures IsKey("Nice") && IsKey("IOSchedulingClass")
  {
  }

  lemma ServiceConstants()
    ensures Plain("oneshot") && Plain("30min") && Plain("10") && Plain("idle")
  {
  }

  /** One setting that stands on its line. */
  lemma ReadPlain(key: string, value: string, rest: seq<string>, section: string)
    requires IsKey(key) && Plain(value)
    ensures ReadLines([Line(key, value)] + rest, section, "")
         == [Setting(section, key, value)] + ReadLines(rest, section, "")
    ensures OneLine(Line(key, value))
  {
    ReadEntry(key, value, rest, section);
  }

  // ----- the settings of the service unit -----

  function EnvSettings(env: seq<ServiceEnv>): seq<Setting> {
    if env == [] then []
    else [Setting("Service", "Environment", EnvText(env[0]))] + EnvSettings(env[1..])
  }

  function RedactSettings(redact: Option<seq<string>>): seq<Setting> {
    if redact.None? then []
    else [Setting("Service", "ExecStopPost", ExecLine(redact.value)), Setting("Service", "TimeoutStopSec", "30min")]
  }

  function TailSettings(inv: Invocation): seq<Setting> {
    [Setting("Service", "ExecStart", ExecLine(inv.harvest))] + RedactSettings(inv.redact)
    + [Setting("Service", "Nice", "10"), Setting("Service", "IOSchedulingClass", "idle")]
  }

  /** Words that stay on their line. */
  ghost predicate WritableWords(inv: Invocation) {
    && (forall w :: w in inv.harvest ==> Clean(w))
    && (inv.redact.Some? ==> forall w :: w in inv.redact.value ==> Clean(w))
    && (forall e :: e in inv.env ==> Clean(e.value) && EnvName(e.name))
  }

  lemma EnvWordOneLine(e: ServiceEnv)
    requires Clean(e.value) && EnvName(e.name)
    ensures Plain(EnvText(e))
  {
    CleanOneLine(e.name);
    CleanOneLine(e.value);
    QuotedPlain(EnvWord(e), false);
  }

  ghost predicate AllOneLine(lines: seq<string>) {
    forall l :: l in lines ==> OneLine(l)
  }

  lemma ReadBefore(key: string, value: string, lines: seq<string>, rest: seq<string>, section: string, settings: seq<Setting>)
    requires IsKey(key) && Plain(value) && AllOneLine(lines)
    requires ReadLines(lines + rest, section, "") == settings + ReadLines(rest, section, "")
    ensures ReadLines([Line(key, value)] + lines + rest, section, "")
         == [Setting(section, key, value)] + settings + ReadLines(rest, section, "")
    ensures AllOneLine([Line(key, value)] + lines)
  {
    ReadPlain(key, value, lines + rest, section);
    assert [Line(key, value)] + lines + rest == [Line(key, value)] + (lines + rest);
    assert [Setting(section, key, value)] + (settings + ReadLines(rest, section, ""))
        == [Setting(section, key, value)] + settings + ReadLines(rest, section, "");
  }

  lemma {:induction false} ReadEnvLines(env: seq<ServiceEnv>, rest: seq<string>)
    requires forall e :: e in env ==> Clean(e.value) && EnvName(e.name)
    ensures ReadLines(EnvLines(env) + rest, "Service", "") == EnvSettings(env) + ReadLines(rest, "Service", "")
    ensures AllOneLine(EnvLines(env))
  {
    if env == [] {
      assert EnvLines(env) + rest == rest;
    } else {
      EnvWordOneLine(env[0]);
      ReadEnvLines(env[1..], rest);
      ServiceKeys();
      ReadBefore("Environment", EnvText(env[0]), EnvLines(env[1..]), rest, "Service", EnvSettings(env[1..]));
    }
  }

  lemma ReadRedact(redact: Option<seq<string>>, rest: seq<string>)
    requires redact.Some? ==> forall w :: w in redact.value ==> Clean(w)
    requires AllOneLine(rest)
    ensures ReadLines(RedactLines(redact, rest), "Service", "") == RedactSettings(redact) + ReadLines(rest, "Service", "")
    ensures AllOneLine(RedactLines(redact, rest))
  {
    if redact.Some? {
      CommandKeys();
      ServiceConstants();
      ExecLinePlain(redact.value);
      ReadStop(ExecLine(redact.value), rest);
    }
  }

  lemma ReadStop(command: string, rest: seq<string>)
    requires Plain(command) && Plain("30min") && AllOneLine(rest)
    requires IsKey("ExecStopPost") && IsKey("TimeoutStopSec")
    ensures ReadLines([Line("ExecStopPost", command)] + ([Line("TimeoutStopSec", "30min")] + rest), "Service", "")
         == [Setting("Service", "ExecStopPost", command), Setting("Service", "TimeoutStopSec", "30min")]
            + ReadLines(rest, "Service", "")
    ensures AllOneLine([Line("ExecStopPost", command)] + ([Line("TimeoutStopSec", "30min")] + rest))
  {
    hide ReadLines, Plain, OneLine, Line, IsKey;
    ReadPlain("TimeoutStopSec", "30min", rest, "Service");
    ReadPlain("ExecStopPost", command, [Line("TimeoutStopSec", "30min")] + rest, "Service");
  }

  lemma ReadTail(inv: Invocation)
    requires WritableWords(inv)
    ensures ReadLines(ServiceTail(inv), "Service", "") == TailSettings(inv)
    ensures AllOneLine(ServiceTail(inv))
  {
    var idle := [Line("IOSchedulingClass", "idle")] + [];
    var nice := [Line("Nice", "10")] + idle;
    CommandKeys();
    PriorityKeys();
    ServiceConstants();
    ReadPlain("IOSchedulingClass", "idle", [], "Service");
    ReadPlain("Nice", "10", idle, "Service");
    ReadRedact(inv.redact, nice);
    ExecLinePlain(inv.harvest);
    ReadPlain("ExecStart", ExecLine(inv.harvest), RedactLines(inv.redact, nice), "Service");
  }

  /** The lines above the body: they set nothing but the description. */
  function HeadLines(description: string, section: string, rest: seq<string>): seq<string> {
    [MARKER] + (["[" + "Unit" + "]"] + ([Line("Description", description)] + ([""] + (["[" + section + "]"] + rest))))
  }

  lemma HeadersOneLine(section: string)
    requires OneLine(section)
    ensures OneLine("[" + section + "]") && OneLine("[" + "Unit" + "]") && OneLine("")
  {
    assert OneLine("Unit");
  }

  lemma ReadHead(description: string, section: string, rest: seq<string>)
    requires Plain(description) && OneLine(section) && AllOneLine(rest)
    ensures ReadLines(HeadLines(description, section, rest), "", "")
         == [Setting("Unit", "Description", description)] + ReadLines(rest, section, "")
    ensures AllOneLine(HeadLines(description, section, rest))
  {
    hide ReadLines, Plain, OneLine, Line, IsKey;
    MarkerIsComment();
    ServiceKeys();
    HeadersOneLine(section);
    var last := ["[" + section + "]"] + rest;
    var described := [Line("Description", description)] + ([""] + last);
    ReadHeader(section, rest, "Unit");
    ReadBlank(last, "Unit");
    ReadPlain("Description", description, [""] + last, "Unit");
    ReadHeader("Unit", described, "");
    ReadComment(MARKER, ["[" + "Unit" + "]"] + described, "", "");
  }

  function ServiceSettings(inv: Invocation): seq<Setting> {
    [Setting("Unit", "Description", SERVICE_DESCRIPTION)]
    + ([Setting("Service", "Type", "oneshot")] + (EnvSettings(inv.env) + TailSettings(inv)))
  }

  /** Both units begin with the marker line by which they are known again. */
  lemma MarkedFirst(inv: Invocation, s: Schedule)
    ensures MARKER + "\n" <= Text(ServiceLines(inv)) && MARKER + "\n" <= Text(TimerLines(s))
  {
    hide MARKER, Line, EnvLines, ServiceTail, TriggerLines;
  }

  /** The text of the service unit reads as these settings. */
  lemma {:induction false} ServiceReads(inv: Invocation)
    requires WritableWords(inv)
    ensures Settings(Text(ServiceLines(inv))) == ServiceSettings(inv)
  {
    var body := EnvLines(inv.env) + ServiceTail(inv);
    ReadTail(inv);
    ReadEnvLines(inv.env, ServiceTail(inv));
    ServiceKeys();
    ServiceConstants();
    DescriptionsPlain();
    ReadPlain("Type", "oneshot", body, "Service");
    ReadHead(SERVICE_DESCRIPTION, "Service", [Line("Type", "oneshot")] + body);
    assert ServiceLines(inv) == HeadLines(SERVICE_DESCRIPTION, "Service", [Line("Type", "oneshot")] + body);
    LinesOfText(ServiceLines(inv));
  }

  // ----- reading the invocation -----

  lemma {:induction false} ValuesAppend(a: seq<Setting>, b: seq<Setting>, section: string, key: string)
    ensures Values(a + b, section, key) == Values(a, section, key) + Values(b, section, key)
  {
    if a == [] {
      assert a + b == b;
    } else {
      assert (a + b)[1..] == a[1..] + b;
      ValuesAppend(a[1..], b, section, key);
    }
  }

  function EnvTexts(env: seq<ServiceEnv>): seq<string> {
    if env == [] then [] else [EnvText(env[0])] + EnvTexts(env[1..])
  }

  lemma {:induction false} EnvSettingsValues(env: seq<ServiceEnv>, key: string)
    ensures Values(EnvSettings(env), "Service", key) == if key == "Environment" then EnvTexts(env) else []
  {
    if env != [] {
      EnvSettingsValues(env[1..], key);
      assert EnvSettings(env)[1..] == EnvSettings(env[1..]);
    }
  }

  lemma ValuesCons(s: Setting, rest: seq<Setting>, section: string, key: string)
    ensures Values([s] + rest, section, key)
         == (if s.section == section && s.key == key then [s.value] else []) + Values(rest, section, key)
  {
    assert ([s] + rest)[1..] == rest;
  }

  lemma TailValues(inv: Invocation, key: string)
    ensures Values(TailSettings(inv), "Service", key)
         == if key == "ExecStart" then [ExecLine(inv.harvest)]
            else if key == "ExecStopPost" then (if inv.redact.Some? then [ExecLine(inv.redact.value)] else [])
            else if key == "TimeoutStopSec" then (if inv.redact.Some? then ["30min"] else [])
            else if key == "Nice" then ["10"]
            else if key == "IOSchedulingClass" then ["idle"]
            else []
  {
    var end := [Setting("Service", "Nice", "10")] + ([Setting("Service", "IOSchedulingClass", "idle")] + []);
    assert end == [Setting("Service", "Nice", "10"), Setting("Service", "IOSchedulingClass", "idle")];
    ValuesCons(Setting("Service", "IOSchedulingClass", "idle"), [], "Service", key);
    ValuesCons(Setting("Service", "Nice", "10"), [Setting("Service", "IOSchedulingClass", "idle")] + [], "Service", key);
    var start := Setting("Service", "ExecStart", ExecLine(inv.harvest));
    if inv.redact.None? {
      assert TailSettings(inv) == [start] + end;
      ValuesCons(start, end, "Service", key);
    } else {
      var stop := Setting("Service", "ExecStopPost", ExecLine(inv.redact.value));
      var limit := Setting("Service", "TimeoutStopSec", "30min");
      assert TailSettings(inv) == [start] + ([stop] + ([limit] + end));
      ValuesCons(limit, end, "Service", key);
      ValuesCons(stop, [limit] + end, "Service", key);
      ValuesCons(start, [stop] + ([limit] + end), "Service", key);
    }
  }

  lemma ServiceValues(inv: Invocation, key: string)
    requires key in {"ExecStart", "ExecStopPost", "Environment"}
    ensures Values(ServiceSettings(inv), "Service", key)
         == if key == "ExecStart" then [ExecLine(inv.harvest)]
            else if key == "ExecStopPost" then (if inv.redact.Some? then [ExecLine(inv.redact.value)] else [])
            else EnvTexts(inv.env)
  {
    TailValues(inv, key);
    EnvSettingsValues(inv.env, key);
    ValuesAppend(EnvSettings(inv.env), TailSettings(inv), "Service", key);
    var rest := EnvSettings(inv.env) + TailSettings(inv);
    ValuesCons(Setting("Service", "Type", "oneshot"), rest, "Service", key);
    ValuesCons(Setting("Unit", "Description", SERVICE_DESCRIPTION), [Setting("Service", "Type", "oneshot")] + rest, "Service", key);
  }

  lemma SplitEnvBack(e: ServiceEnv)
    requires EnvName(e.name)
    ensures SplitEnvs([EnvWord(e)]) == [e]
  {
    var word := EnvWord(e);
    assert word == e.name + ['='] + e.value;
    FindFirst(e.name, '=', e.value);
    assert word[..|e.name|] == e.name && word[|e.name| + 1..] == e.value;
    assert SplitEnvs([word]) == [e] + SplitEnvs([word][1..]);
  }

  lemma {:induction false} EnvReadsBack(env: seq<ServiceEnv>, table: SpecifierTable)
    requires forall e :: e in env ==> EnvName(e.name)
    ensures ReadEnvs(EnvTexts(env), table) == Some(env)
  {
    if env != [] {
      var e := env[0];
      EnvReadsBack(env[1..], table);
      EnvironmentReadsBack(EnvWord(e), table);
      assert EnvTexts(env)[1..] == EnvTexts(env[1..]);
      SplitEnvBack(e);
      assert [e] + env[1..] == env;
    }
  }

  lemma {:induction false} CleanWords(words: seq<string>)
    ensures FirstDirty(words).None? <==> forall w :: w in words ==> Clean(w)
  {
    if words != [] {
      CleanWords(words[1..]);
      assert words == [words[0]] + words[1..];
    }
  }

  /** What the check accepts: no control character in any word or value, and in the
      harvest executable no quote, backslash or $; a control character is named first. */
  lemma WordsAcceptedIff(inv: Invocation)
    requires inv.harvest != []
    ensures var clean :=
        && (forall w :: w in inv.harvest ==> Clean(w))
        && (inv.redact.Some? ==> forall w :: w in inv.redact.value ==> Clean(w))
        && (forall e :: e in inv.env ==> Clean(e.value));
      var exe := inv.harvest[0];
      var plain := '"' !in exe && '\\' !in exe && '\'' !in exe && '$' !in exe;
      && (ValidateUnitWords(inv).None? <==> clean && plain)
      && (ValidateUnitWords(inv) == Some(UnrunnableExecutable) <==> clean && !plain)
      && (forall w :: ValidateUnitWords(inv) == Some(ControlCharacter(w)) ==> !Clean(w))
  {
    var redact := if inv.redact.Some? then inv.redact.value else [];
    var words := inv.harvest + redact + EnvValues(inv.env);
    CleanWords(words);
    FirstDirtyIs(words);
    assert forall w :: w in words <==> w in inv.harvest || w in redact || w in EnvValues(inv.env);
    forall w | w in EnvValues(inv.env)
      ensures exists e :: e in inv.env && e.value == w
    {
      var i :| 0 <= i < |inv.env| && EnvValues(inv.env)[i] == w;
      assert inv.env[i] in inv.env;
    }
    forall e | e in inv.env
      ensures e.value in EnvValues(inv.env)
    {
      var i :| 0 <= i < |inv.env| && inv.env[i] == e;
      assert EnvValues(inv.env)[i] == e.value;
    }
  }

  lemma {:induction false} FirstDirtyIs(words: seq<string>)
    ensures FirstDirty(words).Some? ==> !Clean(FirstDirty(words).value)
  {
    if words != [] {
      FirstDirtyIs(words[1..]);
    }
  }

  /** What the check accepts is writable and has a runnable executable. */
  lemma ValidIsWritable(inv: Invocation)
    requires inv.harvest != [] && ValidateUnitWords(inv).None?
    requires forall e :: e in inv.env ==> EnvName(e.name)
    ensures WritableWords(inv)
    ensures var exe := inv.harvest[0]; '"' !in exe && '\\' !in exe && '\'' !in exe && '$' !in exe && Clean(exe)
  {
    var words := inv.harvest + (if inv.redact.Some? then inv.redact.value else []) + EnvValues(inv.env);
    CleanWords(words);
    forall e | e in inv.env
      ensures Clean(e.value)
    {
      var i :| 0 <= i < |inv.env| && inv.env[i] == e;
      assert EnvValues(inv.env)[i] in words;
    }
  }

  /** systemd runs what was asked for: an accepted invocation is read out of its
      own unit, whatever the specifiers and variables stand for, exactly when
      both executables are runnable. */
  lemma {:induction false} ServiceReadsBackIff(inv: Invocation, table: SpecifierTable, vars: VariableTable)
    requires inv.harvest != [] && ValidateUnitWords(inv).None?
    requires forall e :: e in inv.env ==> EnvName(e.name)
    ensures ReadService(Settings(Text(ServiceLines(inv))), table, vars) == Some(inv)
        <==> Runnable(inv.harvest) && (inv.redact.Some? ==> Runnable(inv.redact.value))
  {
    ValidIsWritable(inv);
    ServiceReads(inv);
    var settings := ServiceSettings(inv);
    assert Values(settings, "Service", "ExecStart") == [ExecLine(inv.harvest)] by {
      ServiceValues(inv, "ExecStart");
    }
    CommandReadsBackIff(inv.harvest, table, vars);
    ReadsRedactIff(inv, table, vars);
    assert ReadEnvs(Values(settings, "Service", "Environment"), table) == Some(inv.env) by {
      ServiceValues(inv, "Environment");
      EnvReadsBack(inv.env, table);
    }
  }

  lemma ReadsRedactIff(inv: Invocation, table: SpecifierTable, vars: VariableTable)
    ensures ReadOptional(Values(ServiceSettings(inv), "Service", "ExecStopPost"), table, vars) == Some(inv.redact)
        <==> (inv.redact.Some? ==> Runnable(inv.redact.value))
  {
    ServiceValues(inv, "ExecStopPost");
    if inv.redact.Some? {
      CommandReadsBackIff(inv.redact.value, table, vars);
    }
  }

  /** The invocations the installer builds: one absolute binary runs both steps. */
  ghost predicate Installed(inv: Invocation) {
    && inv.harvest != [] && inv.harvest[0] != "" && inv.harvest[0][0] == '/'
    && (inv.redact.Some? ==> inv.redact.value != [] && inv.redact.value[0] == inv.harvest[0])
    && (forall e :: e in inv.env ==> EnvName(e.name))
  }

  /** So whatever the installer builds and the check accepts, systemd runs. */
  lemma InstalledReadsBack(inv: Invocation, table: SpecifierTable, vars: VariableTable)
    requires Installed(inv) && ValidateUnitWords(inv).None?
    ensures ReadService(Settings(Text(ServiceLines(inv))), table, vars) == Some(inv)
  {
    hide ReadService, Settings, Text, ServiceLines, ValidateUnitWords, EnvName;
    ValidIsWritable(inv);
    ServiceReadsBackIff(inv, table, vars);
  }

  /** An invocation the check accepts by its harvest step alone. */
  function QuotedRedact(): Invocation {
    Invocation(["/p", "harvest"], Some(["/p'q", "redact"]), [])
  }

  /** The check looks at the harvest executable only: this one is accepted and
      systemd refuses its redact step. */
  lemma RedactIsUnchecked(table: SpecifierTable, vars: VariableTable)
    ensures ValidateUnitWords(QuotedRedact()).None?
    ensures ReadService(Settings(Text(ServiceLines(QuotedRedact()))), table, vars) != Some(QuotedRedact())
  {
    hide ReadService, Settings, Text, ServiceLines;
    var inv := QuotedRedact();
    var words := ["/p", "harvest", "/p'q", "redact"];
    assert inv.harvest + inv.redact.value + EnvValues(inv.env) == words;
    CleanWords(words);
    assert inv.redact.value[0][2] == '\'';
    ServiceReadsBackIff(inv, table, vars);
  }
}
