/** Unit file text as lines, and systemd's reading of it into settings
    (systemd.syntax(7)). */
module UnitFile {
  import opened Wrappers
  import opened SystemdQuoting

  datatype Setting = Setting(section: string, key: string, value: string)

  /** Lines, each ended by a newline. */
  function Text(lines: seq<string>): string {
    if lines == [] then "" else lines[0] + "\n" + Text(lines[1..])
  }

  /** A setting as it is written. */
  function Line(key: string, value: string): string {
    key + "=" + value
  }

  function Find(s: string, c: char): (n: nat)
    ensures n <= |s|
    ensures n < |s| ==> s[n] == c
  {
    if s == "" || s[0] == c then 0 else 1 + Find(s[1..], c)
  }

  /** The lines of a text; what follows the last newline is a line of its own unless empty. */
  function Lines(text: string): seq<string>
    decreases |text|
  {
    if text == "" then []
    else
      var end := Find(text, '\n');
      [text[..end]] + if end < |text| then Lines(text[end + 1..]) else []
  }

  function StripLeft(s: string): string {
    if s != "" && IsBlank(s[0]) then StripLeft(s[1..]) else s
  }

  function StripRight(s: string): string {
    if s != "" && IsBlank(s[|s| - 1]) then StripRight(s[..|s| - 1]) else s
  }

  function Strip(s: string): string {
    StripRight(StripLeft(s))
  }

  predicate IsComment(line: string) {
    line != "" && (line[0] == '#' || line[0] == ';')
  }

  predicate Continues(line: string) {
    line != "" && line[|line| - 1] == '\\'
  }

  /** One logical line: a section header, a setting, or nothing. */
  datatype Item = Header(name: string) | Entry(key: string, value: string) | Nothing

  function ReadLine(line: string): Item {
    var s := Strip(line);
    if s == "" then Nothing
    else if |s| > 1 && s[0] == '[' && s[|s| - 1] == ']' then Header(s[1..|s| - 1])
    else if Find(s, '=') < |s| then Entry(Strip(s[..Find(s, '=')]), Strip(s[Find(s, '=') + 1..]))
    else Nothing
  }

  /** Comment lines are skipped; a line ending in a backslash goes on with the
      next one, the backslash read as a space. `pending` is what was continued. */
  function ReadLines(lines: seq<string>, section: string, pending: string): seq<Setting> {
    if lines == [] then []
    else if IsComment(lines[0]) then ReadLines(lines[1..], section, pending)
    else
      var line := pending + lines[0];
      if Continues(line) then ReadLines(lines[1..], section, line[..|line| - 1] + " ")
      else match ReadLine(line)
        case Nothing => ReadLines(lines[1..], section, "")
        case Header(name) => ReadLines(lines[1..], name, "")
        case Entry(key, value) => [Setting(section, key, value)] + ReadLines(lines[1..], section, "")
  }

  function Settings(text: string): seq<Setting> {
    ReadLines(Lines(text), "", "")
  }

  function Values(settings: seq<Setting>, section: string, key: string): seq<string> {
    if settings == [] then []
    else
      (if settings[0].section == section && settings[0].key == key then [settings[0].value] else [])
      + Values(settings[1..], section, key)
  }

  // ----- written lines read back -----

  lemma {:induction false} FindFirst(a: string, c: char, b: string)
    requires c !in a
    ensures Find(a + [c] + b, c) == |a|
  {
    var s := a + [c] + b;
    if a != "" {
      assert s[1..] == a[1..] + [c] + b && s[0] == a[0];
      FindFirst(a[1..], c, b);
    }
  }

  lemma {:induction false} LinesOfText(lines: seq<string>)
    requires forall l :: l in lines ==> '\n' !in l
    ensures Lines(Text(lines)) == lines
  {
    if lines != [] {
      var text := Text(lines);
      assert text == lines[0] + ['\n'] + Text(lines[1..]);
      FindFirst(lines[0], '\n', Text(lines[1..]));
      assert text[..|lines[0]|] == lines[0] && text[|lines[0]| + 1..] == Text(lines[1..]);
      LinesOfText(lines[1..]);
    }
  }

  /** No blank at either end. */
  predicate Trim(s: string) {
    s != "" ==> !IsBlank(s[0]) && !IsBlank(s[|s| - 1])
  }

  lemma StripTrim(s: string)
    requires Trim(s)
    ensures Strip(s) == s
  {
  }

  /** A line that is neither comment nor continued. */
  lemma ReadNext(line: string, rest: seq<string>, section: string)
    requires !IsComment(line) && !Continues(line)
    ensures ReadLine(line).Nothing? ==> ReadLines([line] + rest, section, "") == ReadLines(rest, section, "")
    ensures ReadLine(line).Header? ==>
              ReadLines([line] + rest, section, "") == ReadLines(rest, ReadLine(line).name, "")
    ensures ReadLine(line).Entry? ==>
              ReadLines([line] + rest, section, "")
              == [Setting(section, ReadLine(line).key, ReadLine(line).value)] + ReadLines(rest, section, "")
  {
    assert "" + line == line && ([line] + rest)[1..] == rest;
  }

  lemma ReadComment(line: string, rest: seq<string>, section: string, pending: string)
    requires IsComment(line)
    ensures ReadLines([line] + rest, section, pending) == ReadLines(rest, section, pending)
  {
    assert ([line] + rest)[1..] == rest;
  }

  lemma ReadBlank(rest: seq<string>, section: string)
    ensures ReadLines([""] + rest, section, "") == ReadLines(rest, section, "")
  {
    ReadNext("", rest, section);
  }

  lemma ReadHeader(name: string, rest: seq<string>, section: string)
    ensures ReadLines(["[" + name + "]"] + rest, section, "") == ReadLines(rest, name, "")
  {
    var line := "[" + name + "]";
    StripTrim(line);
    assert line[1..|line| - 1] == name;
    ReadNext(line, rest, section);
  }

  /** A name that can stand before a `=`. */
  predicate IsKey(key: string) {
    key != "" && Trim(key) && '=' !in key && '\n' !in key && key[0] != '#' && key[0] != ';' && key[0] != '['
  }

  lemma EntryLine(key: string, value: string)
    requires IsKey(key) && (value != "" ==> !IsBlank(value[|value| - 1]))
    ensures ReadLine(Line(key, value)) == Entry(key, Strip(value))
  {
    var line := key + "=" + value;
    assert line == key + ['='] + value && line[0] == key[0];
    assert line[|line| - 1] == if value == "" then '=' else value[|value| - 1];
    StripTrim(line);
    FindFirst(key, '=', value);
    assert line[..|key|] == key && line[|key| + 1..] == value;
    StripTrim(key);
  }

  lemma ReadEntry(key: string, value: string, rest: seq<string>, section: string)
    requires IsKey(key) && Trim(value) && !Continues(value)
    ensures ReadLines([Line(key, value)] + rest, section, "")
         == [Setting(section, key, value)] + ReadLines(rest, section, "")
  {
    EntryLine(key, value);
    StripTrim(value);
    var line := key + "=" + value;
    assert line[0] == key[0];
    assert line[|line| - 1] == if value == "" then '=' else value[|value| - 1];
    ReadNext(line, rest, section);
  }

  // ----- a setting that swallows the next line -----

  lemma {:induction false} StripRightKeepsEnd(s: string)
    requires s != "" && !IsBlank(s[|s| - 1])
    ensures Strip(s) != "" && Strip(s)[|Strip(s)| - 1] == s[|s| - 1]
  {
    if IsBlank(s[0]) {
      assert s[1..] != "";
      StripRightKeepsEnd(s[1..]);
    }
  }

  lemma ReadTwo(first: string, next: string, rest: seq<string>, section: string, key: string, value: string)
    requires !IsComment(first) && Continues(first) && !IsComment(next)
    requires var line := first[..|first| - 1] + " " + next; !Continues(line) && ReadLine(line) == Entry(key, value)
    ensures ReadLines([first] + ([next] + rest), section, "")
         == [Setting(section, key, value)] + ReadLines(rest, section, "")
  {
    var lines := [first] + ([next] + rest);
    assert "" + first == first && lines[1..] == [next] + rest && ([next] + rest)[1..] == rest;
    assert ReadLines(lines, section, "") == ReadLines([next] + rest, section, first[..|first| - 1] + " ");
  }

  /** A value ending in a backslash takes the next line into itself. */
  lemma ReadContinued(key: string, value: string, next: string, rest: seq<string>, section: string)
      returns (got: string)
    requires IsKey(key) && Continues(value)
    requires next != "" && !IsComment(next) && !Continues(next) && !IsBlank(next[|next| - 1])
    ensures got != "" && got[|got| - 1] == next[|next| - 1]
    ensures ReadLines([Line(key, value)] + ([next] + rest), section, "")
         == [Setting(section, key, got)] + ReadLines(rest, section, "")
  {
    var first := key + "=" + value;
    assert first[0] == key[0] && first[|first| - 1] == '\\';
    var kept := value[..|value| - 1] + " " + next;
    assert kept[|kept| - 1] == next[|next| - 1];
    assert first[..|first| - 1] + " " + next == key + "=" + kept;
    EntryLine(key, kept);
    StripRightKeepsEnd(kept);
    got := Strip(kept);
    ReadTwo(first, next, rest, section, key, got);
  }
}
