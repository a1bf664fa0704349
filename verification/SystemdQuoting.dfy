/** Quoting a word for a systemd unit, and systemd's reading of it
    (cmd/peasant/cmd_service.go; "QUOTING" in systemd.syntax(7), "COMMAND LINES"
    in systemd.service(5), "SPECIFIERS" in systemd.unit(5)). */
module SystemdQuoting {
  import opened Wrappers
  import opened Strings

  // ----- writing -----

  /** Every backslash and double quote behind a backslash. */
  function Slashed(w: string): string {
    if w == "" then ""
    else (if w[0] in {'\\', '"'} then ['\\', w[0]] else [w[0]]) + Slashed(w[1..])
  }

  /** Every `x` twice. */
  function Doubled(w: string, x: char): string {
    if w == "" then ""
    else (if w[0] == x then [x, x] else [w[0]]) + Doubled(w[1..], x)
  }

  /** The three escapes one after the other. */
  function Escaped(word: string, execLine: bool): string {
    Slashed(Doubled(if execLine then Doubled(word, '$') else word, '%'))
  }

  function Quoted(word: string, execLine: bool): string {
    "\"" + Escaped(word, execLine) + "\""
  }

  lemma {:induction false} DoubledAppend(a: string, b: string, x: char)
    ensures Doubled(a + b, x) == Doubled(a, x) + Doubled(b, x)
  {
    if a == "" {
      assert a + b == b;
    } else {
      assert (a + b)[1..] == a[1..] + b;
      DoubledAppend(a[1..], b, x);
    }
  }

  lemma {:induction false} SlashedAppend(a: string, b: string)
    ensures Slashed(a + b) == Slashed(a) + Slashed(b)
  {
    if a == "" {
      assert a + b == b;
    } else {
      assert (a + b)[1..] == a[1..] + b;
      SlashedAppend(a[1..], b);
    }
  }

  lemma OneCharacter(c: char)
    ensures Slashed([c]) == if c in {'\\', '"'} then ['\\', c] else [c]
    ensures forall x :: Doubled([c], x) == if c == x then [x, x] else [c]
    ensures c !in {'\\', '"'} ==> Slashed([c, c]) == [c, c]
    ensures forall x :: c != x ==> Doubled([c, c], x) == [c, c]
  {
    assert [c][1..] == "" && [c, c][1..] == [c];
    forall x | c != x
      ensures Doubled([c, c], x) == [c, c]
    {
      assert Doubled([c], x) == [c];
    }
  }

  function EscapedOne(c: char, execLine: bool): string {
    if c == '\\' || c == '"' then ['\\', c]
    else if c == '%' then "%%"
    else if c == '$' && execLine then "$$"
    else [c]
  }

  /** What the three escapes make of one more character. */
  lemma EscapeOne(word: string, c: char, execLine: bool)
    ensures Escaped(word + [c], execLine) == Escaped(word, execLine) + EscapedOne(c, execLine)
  {
    var w := if execLine then Doubled(word, '$') else word;
    var tail := if execLine then Doubled([c], '$') else [c];
    OneCharacter(c);
    if execLine {
      DoubledAppend(word, [c], '$');
    }
    DoubledAppend(w, tail, '%');
    SlashedAppend(Doubled(w, '%'), Doubled(tail, '%'));
  }

  /** The one pass over the word computes the composition. */
  method SystemdQuote(word: string, execLine: bool) returns (b: string)
    ensures b == Quoted(word, execLine)
  {
    b := "\"";
    for i := 0 to |word|
      invariant b == "\"" + Escaped(word[..i], execLine)
    {
      var r := word[i];
      EscapeOne(word[..i], r, execLine);
      assert word[..i + 1] == word[..i] + [r];
      if r == '\\' || r == '"' {
        b := b + ['\\', r];
      } else if r == '%' {
        b := b + "%%";
      } else if r == '$' && execLine {
        b := b + "$$";
      } else {
        b := b + [r];
      }
    }
    assert word[..|word|] == word;
    b := b + "\"";
  }

  function QuotedAll(args: seq<string>): (q: seq<string>)
    ensures |q| == |args|
    ensures forall i :: 0 <= i < |q| ==> q[i] == Quoted(args[i], true)
  {
    seq(|args|, i requires 0 <= i < |args| => Quoted(args[i], true))
  }

  function ExecLine(args: seq<string>): string {
    Join(QuotedAll(args), " ")
  }

  method SystemdExecLine(args: seq<string>) returns (line: string)
    ensures line == ExecLine(args)
  {
    var quoted: seq<string> := [];
    for i := 0 to |args|
      invariant quoted == QuotedAll(args[..i])
    {
      var q := SystemdQuote(args[i], true);
      quoted := quoted + [q];
    }
    assert args[..|args|] == args;
    line := Join(quoted, " ");
  }

  // ----- reading -----

  /** The character a backslash sequence stands for; numeric sequences are not modelled. */
  function Unescape(c: char): Option<char> {
    if c in {'\\', '"', '\''} then Some(c)
    else if c == 's' then Some(' ')
    else if c == 'n' then Some('\n')
    else if c == 't' then Some('\t')
    else if c == 'r' then Some('\r')
    else if c == 'a' then Some('\U{07}')
    else if c == 'b' then Some('\U{08}')
    else if c == 'f' then Some('\U{0C}')
    else if c == 'v' then Some('\U{0B}')
    else None
  }

  predicate IsBlank(c: char) {
    c in {' ', '\t', '\n', '\r'}
  }

  function Cons(word: string, rest: Option<seq<string>>): Option<seq<string>> {
    match rest
    case None => None
    case Some(words) => Some([word] + words)
  }

  /** Splits a line into words: blanks separate, single and double quotes group,
      backslash sequences are unescaped. `word` is the word being read, if any,
      and `quote` the quote it is inside of. */
  function Words(s: string, word: Option<string>, quote: Option<char>): Option<seq<string>> {
    var soFar := if word.Some? then word.value else "";
    if s == "" then
      if quote.Some? then None
      else Some(if word.Some? then [word.value] else [])
    else if s[0] == '\\' then
      if |s| == 1 || Unescape(s[1]).None? then None
      else Words(s[2..], Some(soFar + [Unescape(s[1]).value]), quote)
    else if quote.Some? then
      if s[0] == quote.value then Words(s[1..], Some(soFar), None)
      else Words(s[1..], Some(soFar + [s[0]]), quote)
    else if IsBlank(s[0]) then
      if word.Some? then Cons(word.value, Words(s[1..], None, None)) else Words(s[1..], None, None)
    else if s[0] in {'"', '\''} then Words(s[1..], Some(soFar), Some(s[0]))
    else Words(s[1..], Some(soFar + [s[0]]), None)
  }

  /** What a % specifier expands to. */
  type SpecifierTable = char -> string

  function Specifiers(s: string, table: SpecifierTable): string {
    if s == "" then ""
    else if s[0] != '%' then [s[0]] + Specifiers(s[1..], table)
    else if |s| == 1 then "%"
    else if s[1] == '%' then "%" + Specifiers(s[2..], table)
    else table(s[1]) + Specifiers(s[2..], table)
  }

  /** What the text behind a single $ expands to, and how much of it is used. */
  type VariableTable = string -> (string, nat)

  function Variables(s: string, vars: VariableTable): string {
    if s == "" then ""
    else if s[0] != '$' then [s[0]] + Variables(s[1..], vars)
    else if |s| > 1 && s[1] == '$' then "$" + Variables(s[2..], vars)
    else
      var (text, used) := vars(s[1..]);
      text + if 1 + used < |s| then Variables(s[1 + used..], vars) else ""
  }

  function Expanded(words: seq<string>, table: SpecifierTable): (e: seq<string>)
    ensures |e| == |words|
    ensures forall i :: 0 <= i < |e| ==> e[i] == Specifiers(words[i], table)
  {
    seq(|words|, i requires 0 <= i < |words| => Specifiers(words[i], table))
  }

  /** The executable path takes no variables. */
  function Substituted(words: seq<string>, vars: VariableTable): (e: seq<string>)
    ensures |e| == |words|
    ensures forall i :: 0 <= i < |e| ==> e[i] == if i == 0 then words[i] else Variables(words[i], vars)
  {
    seq(|words|, i requires 0 <= i < |words| => if i == 0 then words[i] else Variables(words[i], vars))
  }

  predicate IsControl(c: char) {
    c < ' ' || c == '\U{7F}'
  }

  predicate Clean(word: string) {
    forall i :: 0 <= i < |word| ==> !IsControl(word[i])
  }

  /** What systemd runs: an absolute path or a plain file name, neither empty nor
      beginning with a character that changes how it is run, and without a quote,
      a backslash or a control character, however the word was quoted. */
  predicate Executable(path: string) {
    && path != "" && path[0] !in {'@', '-', ':', '+', '!', '|'}
    && (path[0] == '/' || '/' !in path)
    && Clean(path)
    && '"' !in path && '\\' !in path && '\'' !in path
  }

  /** The words of a command line, None when systemd refuses it. */
  function ReadCommand(line: string, table: SpecifierTable, vars: VariableTable): Option<seq<string>> {
    match Words(line, None, None)
    case None => None
    case Some(words) =>
      var args := Substituted(Expanded(words, table), vars);
      if args == [] || !Executable(args[0]) then None else Some(args)
  }

  function ReadEnvironment(value: string, table: SpecifierTable): Option<seq<string>> {
    match Words(value, None, None)
    case None => None
    case Some(words) => Some(Expanded(words, table))
  }

  // ----- each stage undoes one escape -----

  lemma {:induction false} SpecifiersUndo(w: string, table: SpecifierTable)
    ensures Specifiers(Doubled(w, '%'), table) == w
  {
    if w != "" {
      SpecifiersUndo(w[1..], table);
      var d := Doubled(w, '%');
      if w[0] == '%' {
        assert d[2..] == Doubled(w[1..], '%');
      } else {
        assert d[1..] == Doubled(w[1..], '%');
      }
    }
  }

  lemma {:induction false} VariablesUndo(w: string, vars: VariableTable)
    ensures Variables(Doubled(w, '$'), vars) == w
  {
    if w != "" {
      VariablesUndo(w[1..], vars);
      var d := Doubled(w, '$');
      if w[0] == '$' {
        assert d[2..] == Doubled(w[1..], '$');
      } else {
        assert d[1..] == Doubled(w[1..], '$');
      }
    }
  }

  lemma {:induction false} WordsUndo(w: string, rest: string, soFar: string)
    ensures Words(Slashed(w) + "\"" + rest, Some(soFar), Some('"')) == Words(rest, Some(soFar + w), None)
  {
    var s := Slashed(w) + "\"" + rest;
    if w == "" {
      assert s == "\"" + rest && s[1..] == rest && soFar + w == soFar;
    } else {
      WordsUndo(w[1..], rest, soFar + [w[0]]);
      assert soFar + [w[0]] + w[1..] == soFar + w;
      if w[0] in {'\\', '"'} {
        assert s[2..] == Slashed(w[1..]) + "\"" + rest;
      } else {
        assert s[1..] == Slashed(w[1..]) + "\"" + rest;
      }
    }
  }

  /** A quoted word reads as its inner text, whatever follows it. */
  lemma WordsOfQuoted(inner: string, rest: string)
    ensures Words("\"" + Slashed(inner) + "\"" + rest, None, None) == Words(rest, Some(inner), None)
  {
    var s := "\"" + Slashed(inner) + "\"" + rest;
    assert s[1..] == Slashed(inner) + "\"" + rest;
    WordsUndo(inner, rest, "");
    assert "" + inner == inner;
  }

  function Inner(arg: string): string {
    Doubled(Doubled(arg, '$'), '%')
  }

  function Inners(args: seq<string>): (q: seq<string>)
    ensures |q| == |args|
    ensures forall i :: 0 <= i < |q| ==> q[i] == Inner(args[i])
  {
    seq(|args|, i requires 0 <= i < |args| => Inner(args[i]))
  }

  /** The first of several quoted words. */
  lemma WordsOfFirst(inner: string, line: string)
    ensures Words("\"" + Slashed(inner) + "\"" + (" " + line), None, None) == Cons(inner, Words(line, None, None))
  {
    var rest := " " + line;
    WordsOfQuoted(inner, rest);
    assert rest[0] == ' ' && rest[1..] == line;
  }

  lemma ExecLineFront(args: seq<string>)
    requires |args| > 1
    ensures ExecLine(args) == "\"" + Slashed(Inner(args[0])) + "\"" + (" " + ExecLine(args[1..]))
  {
    JoinFront(QuotedAll(args), " ");
    assert QuotedAll(args)[1..] == QuotedAll(args[1..]);
  }

  lemma {:induction false} WordsOfLine(args: seq<string>)
    ensures Words(ExecLine(args), None, None) == Some(Inners(args))
  {
    if |args| == 1 {
      WordsOfQuoted(Inner(args[0]), "");
      assert ExecLine(args) == "\"" + Slashed(Inner(args[0])) + "\"" + "";
      assert Inners(args) == [Inner(args[0])];
    } else if |args| > 1 {
      ExecLineFront(args);
      WordsOfFirst(Inner(args[0]), ExecLine(args[1..]));
      WordsOfLine(args[1..]);
      assert Inners(args) == [Inner(args[0])] + Inners(args[1..]);
    }
  }

  lemma {:induction false} DoubledIsSame(w: string, x: char)
    ensures Doubled(w, x) == w <==> x !in w
    ensures |Doubled(w, x)| >= |w|
  {
    if w != "" {
      DoubledIsSame(w[1..], x);
      assert w == [w[0]] + w[1..];
      if w[0] == x {
        assert |Doubled(w, x)| > |w|;
      } else {
        assert Doubled(w, x)[1..] == Doubled(w[1..], x);
      }
    }
  }

  /** The stages after the quotes: all but the $ stage of the executable come undone. */
  lemma InnersRead(args: seq<string>, table: SpecifierTable, vars: VariableTable)
    ensures Substituted(Expanded(Inners(args), table), vars)
         == if args == [] then [] else [Doubled(args[0], '$')] + args[1..]
  {
    hide Doubled, Specifiers, Variables;
    var read := Substituted(Expanded(Inners(args), table), vars);
    forall i | 0 <= i < |args|
      ensures read[i] == if i == 0 then Doubled(args[0], '$') else args[i]
    {
      SpecifiersUndo(Doubled(args[i], '$'), table);
      VariablesUndo(args[i], vars);
    }
  }

  /** Runs as it is written: nothing systemd refuses, and no $, which it does not
      unescape in an executable. */
  predicate Runnable(args: seq<string>) {
    args != [] && Executable(args[0]) && '$' !in args[0]
  }

  /** A command line reads back as its words, for every specifier and variable
      table, exactly when its executable is runnable. */
  lemma CommandReadsBackIff(args: seq<string>, table: SpecifierTable, vars: VariableTable)
    ensures ReadCommand(ExecLine(args), table, vars) == Some(args) <==> Runnable(args)
  {
    hide Doubled, Words, ExecLine, Inners, Expanded, Substituted, Executable;
    WordsOfLine(args);
    InnersRead(args, table, vars);
    if args != [] {
      DoubledIsSame(args[0], '$');
      assert args == [args[0]] + args[1..];
      assert ([Doubled(args[0], '$')] + args[1..])[0] == Doubled(args[0], '$');
    }
  }

  /** An environment word reads back without the $ stage. */
  lemma EnvironmentReadsBack(word: string, table: SpecifierTable)
    ensures ReadEnvironment(Quoted(word, false), table) == Some([word])
  {
    WordsOfQuoted(Doubled(word, '%'), "");
    assert Quoted(word, false) == "\"" + Slashed(Doubled(word, '%')) + "\"" + "";
    SpecifiersUndo(word, table);
    assert Expanded([Doubled(word, '%')], table) == [word];
  }
}
