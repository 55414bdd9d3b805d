// stack_update.go buildUpdaterShellSnippet: the script that writes the compose
// override and restarts the services, and what a POSIX shell reads from it.
module Shell {
  import opened Seqs
  import opened Text
  import Sorting

  // ----------------------------------------------------- strings.ReplaceAll

  function ReplaceAll(s: string, from: string, to: string): string
    requires from != ""
  {
    if s == "" then ""
    else if from <= s then to + ReplaceAll(s[|from|..], from, to)
    else [s[0]] + ReplaceAll(s[1..], from, to)
  }

  predicate Contains(s: string, sub: string) {
    sub <= s || (s != "" && Contains(s[1..], sub))
  }

  lemma {:induction false} ReplaceNothing(s: string, from: string, to: string)
    requires from != "" && !Contains(s, from)
    ensures ReplaceAll(s, from, to) == s
  {
    if s != "" {
      ReplaceNothing(s[1..], from, to);
    }
  }

  lemma {:induction false} ReplaceGrows(s: string, from: string, to: string)
    requires from != "" && |from| <= |to|
    ensures |ReplaceAll(s, from, to)| >= |s|
    ensures |from| < |to| && Contains(s, from) ==> |ReplaceAll(s, from, to)| > |s|
  {
    if s != "" {
      if from <= s {
        ReplaceGrows(s[|from|..], from, to);
      } else {
        ReplaceGrows(s[1..], from, to);
      }
    }
  }

  // ---------------------------------------------------- the script's pieces

  const EOF := "__SELENWRIGHT_OVERRIDE_EOF__"
  const SAFE := "__SELENWRIGHT_OVERRIDE_EOF_SAFE__"

  // One word of a command: plain, a variable with what follows it in double
  // quotes, or any text in single quotes.
  datatype Arg = Bare(word: string) | Var(name: string, tail: string) | Quoted(text: string)

  function ShellSingleQuote(s: string): string {
    "'" + ReplaceAll(s, "'", "'\\''") + "'"
  }

  function PrintArg(a: Arg): string {
    match a
    case Bare(word) => word
    case Var(name, tail) => "\"$" + name + tail + "\""
    case Quoted(text) => ShellSingleQuote(text)
  }

  // The first three lines: stop on errors, name the override, and write the
  // here-document to it.
  const SET := "set -e"
  const ASSIGN := "OVERRIDE_PATH=" + PrintArg(Var("WORKING_DIR", "/docker-compose.override.yml"))
  const WRITE := "cat > " + PrintArg(Var("OVERRIDE_PATH", "")) + " <<" + "'" + EOF + "'"
  const PROLOGUE := SET + "\n" + ASSIGN + "\n" + WRITE + "\n"

  function PrintArgs(args: seq<Arg>): string {
    if args == [] then ""
    else if |args| == 1 then PrintArg(args[0])
    else PrintArgs(args[..|args| - 1]) + " " + PrintArg(args[|args| - 1])
  }

  // docker compose -f "$CONFIG_FILE" -f "$OVERRIDE_PATH" --project-directory "$WORKING_DIR" up -d
  function Compose(): seq<Arg> {
    [Bare("docker"), Bare("compose"), Bare("-f"), Var("CONFIG_FILE", ""), Bare("-f"), Var("OVERRIDE_PATH", ""),
     Bare("--project-directory"), Var("WORKING_DIR", ""), Bare("up"), Bare("-d")]
  }

  function QuotedAll(names: seq<string>): seq<Arg> {
    seq(|names|, i requires 0 <= i < |names| => Quoted(names[i]))
  }

  function ByName(): (string, string) -> bool {
    (a: string, b: string) => StrLe(a, b)
  }

  function CommandArgs(changed: seq<string>): seq<Arg> {
    if changed == [] then Compose()
    else Compose() + [Bare("--force-recreate")] + QuotedAll(Sorting.Sort(changed, ByName()))
  }

  function TrimNewlines(s: string): string {
    if s != "" && s[|s| - 1] == '\n' then TrimNewlines(s[..|s| - 1]) else s
  }

  function Body(yaml: string): string {
    TrimNewlines(ReplaceAll(yaml, EOF, SAFE))
  }

  function Snippet(yaml: string, changed: seq<string>): string {
    PROLOGUE + (Body(yaml) + "\n" + EOF + "\n" + PrintArgs(CommandArgs(changed)))
  }

  // content is text with the newlines at its end replaced by one.
  predicate OneNewline(text: string, content: string) {
    && content != "" && content[|content| - 1] == '\n'
    && var t := content[..|content| - 1];
       && t <= text && (forall i :: |t| <= i < |text| ==> text[i] == '\n')
       && (t == "" || t[|t| - 1] != '\n')
  }

  lemma {:induction false} TrimmedOnce(s: string)
    ensures OneNewline(s, TrimNewlines(s) + "\n")
  {
    hide OneNewline;
    if s != "" && s[|s| - 1] == '\n' {
      TrimmedOnce(s[..|s| - 1]);
      OneMoreNewline(s, TrimNewlines(s) + "\n");
    } else {
      NoNewlineAdded(s);
    }
  }

  lemma OneMoreNewline(s: string, content: string)
    requires s != "" && s[|s| - 1] == '\n' && OneNewline(s[..|s| - 1], content)
    ensures OneNewline(s, content)
  {
    var front, t := s[..|s| - 1], content[..|content| - 1];
    forall i | |t| <= i < |s|
      ensures s[i] == '\n'
    {
      assert i < |front| ==> s[i] == front[i];
    }
  }

  lemma NoNewlineAdded(s: string)
    requires s == "" || s[|s| - 1] != '\n'
    ensures OneNewline(s, s + "\n")
  {
    assert (s + "\n")[..|s|] == s;
  }

  // There is only one such text.
  lemma OneNewlineUnique(text: string, a: string, b: string)
    requires OneNewline(text, a) && OneNewline(text, b)
    ensures a == b
  {
    var s, t := a[..|a| - 1], b[..|b| - 1];
    assert a == s + "\n" && b == t + "\n";
    assert t != "" ==> text[|t| - 1] == t[|t| - 1] != '\n';
    assert s != "" ==> text[|s| - 1] == s[|s| - 1] != '\n';
  }

  lemma ReplaceHere(from: string, b: string, to: string)
    requires from != ""
    ensures ReplaceAll(from + b, from, to) == to + ReplaceAll(b, from, to)
  {
    assert (from + b)[|from|..] == b;
  }

  lemma ReplaceNotHere(s: string, from: string, to: string)
    requires from != "" && s != "" && !(from <= s)
    ensures ReplaceAll(s, from, to) == [s[0]] + ReplaceAll(s[1..], from, to)
  {
  }

  // It does not stand in s before position n.
  predicate FirstAt(s: string, from: string, n: nat) {
    forall k :: 0 <= k < n && k <= |s| ==> !(from <= s[k..])
  }

  lemma FirstAtTail(c: char, r: string, from: string, n: nat)
    requires FirstAt([c] + r, from, n + 1)
    ensures FirstAt(r, from, n) && !(from <= [c] + r)
  {
    var s := [c] + r;
    assert s[0..] == s;
    forall k | 0 <= k < n && k <= |r|
      ensures !(from <= r[k..])
    {
      assert r[k..] == s[k + 1..];
    }
  }

  // The first place where it stands is replaced, and then the rest.
  lemma {:induction false} ReplaceFirst(a: string, from: string, b: string, to: string)
    requires from != "" && FirstAt(a + (from + b), from, |a|)
    ensures ReplaceAll(a + (from + b), from, to) == a + (to + ReplaceAll(b, from, to))
    decreases |a|
  {
    hide ReplaceAll, FirstAt;
    var more := to + ReplaceAll(b, from, to);
    if a == "" {
      ReplaceHere(from, b, to);
      assert a + (from + b) == from + b && a + more == more;
    } else {
      var r := a[1..] + (from + b);
      assert a + (from + b) == [a[0]] + r;
      FirstAtTail(a[0], r, from, |a| - 1);
      ReplaceNotHere([a[0]] + r, from, to);
      assert ([a[0]] + r)[1..] == r;
      ReplaceFirst(a[1..], from, b, to);
      assert [a[0]] + (a[1..] + more) == a + more;
    }
  }

  method BuildUpdaterShellSnippet(yaml: string, changed: seq<string>) returns (snippet: string)
    ensures snippet == Snippet(yaml, changed)
    ensures forall env: string -> string :: Delivers(RunScript(snippet, env), yaml, changed, env)
  {
    hide RunScript, Delivers, Snippet;
    AlwaysDelivers(yaml, changed);
    BuiltIs(yaml, changed);
    hide PrintArgs, PrintArg, ReplaceAll, Compose, Contains, TrimNewlines;
    var body := yaml;
    if Contains(body, EOF) {
      body := ReplaceAll(body, EOF, SAFE);
    } else {
      ReplaceNothing(yaml, EOF, SAFE);
    }
    var composeCmd := PrintArgs(Compose());
    if |changed| > 0 {
      var sorted := Sorting.Sort(changed, ByName());
      composeCmd := composeCmd + " --force-recreate";
      ghost var args := Compose() + [Bare("--force-recreate")];
      ghost var names := QuotedAll(sorted);
      ComposeWellFormed();
      PrintSnoc(Compose(), Bare("--force-recreate"));
      FlagPrints();
      assert args + names[..0] == args;
      for i := 0 to |sorted|
        invariant composeCmd == PrintArgs(args + names[..i])
      {
        PrintSnoc(args + names[..i], names[i]);
        QuotedPrints(sorted[i]);
        assert args + names[..i + 1] == args + names[..i] + [names[i]];
        composeCmd := composeCmd + " " + ShellSingleQuote(sorted[i]);
      }
      assert args + names[..|sorted|] == CommandArgs(changed);
    }
    snippet := PROLOGUE + (TrimNewlines(body) + "\n" + EOF + "\n" + composeCmd);
  }

  lemma AlwaysDelivers(yaml: string, changed: seq<string>)
    ensures forall env: string -> string :: Delivers(RunScript(Snippet(yaml, changed), env), yaml, changed, env)
  {
    hide RunScript, Delivers, Snippet;
    forall env: string -> string
      ensures Delivers(RunScript(Snippet(yaml, changed), env), yaml, changed, env)
    {
      SnippetReads(yaml, changed, env);
    }
  }

  lemma BuiltIs(yaml: string, changed: seq<string>)
    ensures Snippet(yaml, changed) == PROLOGUE + (Body(yaml) + "\n" + EOF + "\n" + PrintArgs(CommandArgs(changed)))
  {
  }

  lemma FlagPrints()
    ensures " --force-recreate" == " " + PrintArg(Bare("--force-recreate"))
  {
  }

  lemma QuotedPrints(text: string)
    ensures PrintArg(Quoted(text)) == ShellSingleQuote(text)
  {
  }

  lemma PrintSnoc(args: seq<Arg>, a: Arg)
    requires args != []
    ensures PrintArgs(args + [a]) == PrintArgs(args) + " " + PrintArg(a)
  {
    assert (args + [a])[..|args|] == args;
  }

  // ------------------------------- here-documents, section 2.7.4 of POSIX.1-2017

  // The text up to the first line that is the delimiter, and what follows it.
  function HereDoc(text: string, delimiter: string): (string, string)
    decreases |text|
  {
    var n := Index(text, '\n');
    var line := text[..n];
    if n == |text| then (if line == delimiter then ("", "") else (text, ""))
    else
      var rest := text[n + 1..];
      if line == delimiter then ("", rest)
      else
        var (content, after) := HereDoc(rest, delimiter);
        (line + "\n" + content, after)
  }

  // No line is the delimiter.
  predicate NoLine(s: string, delimiter: string) {
    forall i :: 0 <= i < |Split(s, '\n')| ==> Split(s, '\n')[i] != delimiter
  }

  lemma {:induction false} HereDocEnds(b: string, delimiter: string, cmd: string)
    requires NoLine(b, delimiter) && '\n' !in delimiter
    ensures HereDoc(b + "\n" + delimiter + "\n" + cmd, delimiter) == (b + "\n", cmd)
    decreases |b|
  {
    hide HereDoc, NoLine, Index;
    var tail := delimiter + "\n" + cmd;
    var n := Index(b, '\n');
    HereDocDelimiter(delimiter, cmd);
    IndexAbsent(b, '\n');
    if n == |b| {
      NoLineAlone(b, delimiter);
      HereDocLine(b, tail, delimiter);
      assert b + "\n" + delimiter + "\n" + cmd == b + "\n" + tail;
      assert b + "\n" + "" == b + "\n";
    } else {
      var line, rest := b[..n], b[n + 1..];
      assert b == line + "\n" + rest;
      NoLineTail(line, rest, delimiter);
      HereDocEnds(rest, delimiter, cmd);
      HereDocLine(line, rest + "\n" + delimiter + "\n" + cmd, delimiter);
      assert b + "\n" + delimiter + "\n" + cmd == line + "\n" + (rest + "\n" + delimiter + "\n" + cmd);
      assert line + "\n" + (rest + "\n") == b + "\n";
    }
  }

  lemma NoLineAlone(b: string, delimiter: string)
    requires NoLine(b, delimiter) && '\n' !in b
    ensures b != delimiter
  {
    SplitNoSep(b, '\n');
    assert Split(b, '\n')[0] == b;
  }

  lemma NoLineTail(line: string, rest: string, delimiter: string)
    requires NoLine(line + "\n" + rest, delimiter) && '\n' !in line
    ensures line != delimiter && NoLine(rest, delimiter)
  {
    SplitConcat(line, '\n', rest);
    var all := Split(line + "\n" + rest, '\n');
    assert all[0] == line;
    assert forall i :: 0 <= i < |Split(rest, '\n')| ==> all[i + 1] == Split(rest, '\n')[i];
  }

  lemma HereDocLine(line: string, rest: string, delimiter: string)
    requires '\n' !in line && line != delimiter
    ensures var (content, after) := HereDoc(rest, delimiter);
            HereDoc(line + "\n" + rest, delimiter) == (line + "\n" + content, after)
  {
    var text := line + "\n" + rest;
    IndexConcat(line, '\n', rest);
    assert text[..|line|] == line && text[|line| + 1..] == rest;
  }

  lemma HereDocDelimiter(delimiter: string, cmd: string)
    requires '\n' !in delimiter
    ensures HereDoc(delimiter + "\n" + cmd, delimiter) == ("", cmd)
  {
    IndexConcat(delimiter, '\n', cmd);
    var text := delimiter + "\n" + cmd;
    assert text[..|delimiter|] == delimiter && text[|delimiter| + 1..] == cmd;
  }

  // ------------------------------------- the delimiter is not a line of the body

  lemma PrefixLine(a: string, b: string, from: string)
    requires '\n' !in from
    ensures from <= a + "\n" + b <==> from <= a
  {
    var s := a + "\n" + b;
    assert s[|a|] == '\n' && a <= s;
    if from <= s {
      assert forall i :: 0 <= i < |from| ==> s[i] == from[i] != '\n';
    }
  }

  lemma ReplaceNewline(b: string, from: string, to: string)
    requires from != "" && '\n' !in from
    ensures ReplaceAll("\n" + b, from, to) == "\n" + ReplaceAll(b, from, to)
  {
    PrefixLine("", b, from);
    assert "" + "\n" + b == "\n" + b && ("\n" + b)[1..] == b;
  }

  // Replacing works line by line.
  lemma {:induction false} ReplaceLine(a: string, b: string, from: string, to: string)
    requires from != "" && '\n' !in from
    ensures ReplaceAll(a + "\n" + b, from, to) == ReplaceAll(a, from, to) + "\n" + ReplaceAll(b, from, to)
    decreases |a|
  {
    hide ReplaceAll;
    PrefixLine(a, b, from);
    if a == "" {
      assert a + "\n" + b == "\n" + b;
      ReplaceNothingIn(from, to);
      ReplaceNewline(b, from, to);
      assert "" + "\n" + ReplaceAll(b, from, to) == "\n" + ReplaceAll(b, from, to);
    } else if from <= a {
      var rest := a[|from|..];
      assert a == from + rest && a + "\n" + b == from + (rest + "\n" + b);
      ReplaceHere(from, rest + "\n" + b, to);
      ReplaceHere(from, rest, to);
      ReplaceLine(rest, b, from, to);
    } else {
      var s, rest := a + "\n" + b, a[1..];
      assert s[0] == a[0] && s[1..] == rest + "\n" + b;
      ReplaceNotHere(s, from, to);
      ReplaceNotHere(a, from, to);
      ReplaceLine(rest, b, from, to);
    }
  }

  lemma ReplaceNothingIn(from: string, to: string)
    requires from != ""
    ensures ReplaceAll("", from, to) == ""
  {
  }

  lemma ReplacedLineDiffers(line: string)
    ensures ReplaceAll(line, EOF, SAFE) != EOF
  {
    ReplaceGrows(line, EOF, SAFE);
    if !Contains(line, EOF) {
      ReplaceNothing(line, EOF, SAFE);
    } else {
      ContainsLength(line, EOF);
    }
  }

  lemma {:induction false} ContainsLength(s: string, sub: string)
    requires Contains(s, sub)
    ensures |sub| <= |s|
  {
    if !(sub <= s) {
      ContainsLength(s[1..], sub);
    }
  }

  lemma {:induction false} ReplaceNoNewline(s: string, from: string, to: string)
    requires from != "" && '\n' !in to && '\n' !in s
    ensures '\n' !in ReplaceAll(s, from, to)
  {
    if s != "" {
      if from <= s {
        ReplaceNoNewline(s[|from|..], from, to);
      } else {
        ReplaceNoNewline(s[1..], from, to);
      }
    }
  }

  lemma {:induction false} BodyHasNoDelimiter(yaml: string)
    ensures NoLine(ReplaceAll(yaml, EOF, SAFE), EOF)
    decreases |yaml|
  {
    hide ReplaceAll, NoLine, Index;
    var n := Index(yaml, '\n');
    IndexAbsent(yaml, '\n');
    var line := yaml[..n];
    var newLine := ReplaceAll(line, EOF, SAFE);
    ReplaceNoNewline(line, EOF, SAFE);
    ReplacedLineDiffers(line);
    if n == |yaml| {
      assert line == yaml;
      NoLineSingle(newLine, EOF);
    } else {
      var rest := yaml[n + 1..];
      assert yaml == line + "\n" + rest;
      ReplaceLine(line, rest, EOF, SAFE);
      BodyHasNoDelimiter(rest);
      NoLineCons(newLine, ReplaceAll(rest, EOF, SAFE), EOF);
    }
  }

  lemma NoLineSingle(line: string, delimiter: string)
    requires '\n' !in line && line != delimiter
    ensures NoLine(line, delimiter)
  {
    SplitNoSep(line, '\n');
  }

  lemma NoLineCons(line: string, rest: string, delimiter: string)
    requires '\n' !in line && line != delimiter && NoLine(rest, delimiter)
    ensures NoLine(line + "\n" + rest, delimiter)
  {
    SplitConcat(line, '\n', rest);
  }

  // Dropping a final newline drops an empty last line.
  lemma {:induction false} SplitNewlineEnd(s: string)
    ensures Split(s + "\n", '\n') == Split(s, '\n') + [""]
  {
    if s == "" {
      assert s + "\n" == "\n";
      assert Split("\n", '\n') == [""] + Split("\n"[1..], '\n');
    } else {
      SplitNewlineEnd(s[1..]);
      assert (s + "\n")[1..] == s[1..] + "\n";
    }
  }

  lemma {:induction false} TrimKeepsNoLine(s: string, delimiter: string)
    requires NoLine(s, delimiter)
    ensures NoLine(TrimNewlines(s), delimiter)
  {
    if s != "" && s[|s| - 1] == '\n' {
      var t := s[..|s| - 1];
      assert s == t + "\n";
      SplitNewlineEnd(t);
      assert forall i :: 0 <= i < |Split(t, '\n')| ==> Split(s, '\n')[i] == Split(t, '\n')[i];
      TrimKeepsNoLine(t, delimiter);
    }
  }

  // ---------------------------------------- words, section 2.2 of POSIX.1-2017

  datatype Mode = Plain | Single | Double

  // A name: letters, digits and underscores, with no digit in front
  // (section 3.235 of POSIX.1-2017).
  predicate NameStart(c: char) {
    'A' <= c <= 'Z' || 'a' <= c <= 'z' || c == '_'
  }

  predicate NameChar(c: char) {
    NameStart(c) || IsDigit(c)
  }

  predicate IsName(s: string) {
    s != "" && NameStart(s[0]) && forall i :: 0 <= i < |s| ==> NameChar(s[i])
  }

  function NameRun(s: string): (n: nat)
    ensures n <= |s|
  {
    if s != "" && NameChar(s[0]) then 1 + NameRun(s[1..]) else 0
  }

  // The longest name that s starts with
  function NameLength(s: string): (n: nat)
    ensures n <= |s|
  {
    if s != "" && NameStart(s[0]) then NameRun(s) else 0
  }

  // Characters that stand for themselves outside quotes, wherever they are.
  predicate WordChar(c: char) {
    'a' <= c <= 'z' || 'A' <= c <= 'Z' || IsDigit(c) || c == '-' || c == '_' || c == '.' || c == '/'
  }

  function SoFar(word: Option<string>): string {
    if word.Some? then word.value else ""
  }

  // The words of one simple command, given the variables' values.  None when
  // the text ends inside quotes or uses anything this reader does not know.
  function Words(s: string, mode: Mode, word: Option<string>, env: string -> string): Option<seq<string>>
    decreases |s|
  {
    match mode
    case Plain =>
      if s == "" then Some(if word.Some? then [word.value] else [])
      else if s[0] == ' ' then
        var rest := Words(s[1..], Plain, None, env);
        if word.Some? && rest.Some? then Some([word.value] + rest.value) else rest
      else if s[0] == '\'' then Words(s[1..], Single, Some(SoFar(word)), env)
      else if s[0] == '"' then Words(s[1..], Double, Some(SoFar(word)), env)
      else if s[0] == '\\' && |s| > 1 && s[1] != '\n' then Words(s[2..], Plain, Some(SoFar(word) + [s[1]]), env)
      else if WordChar(s[0]) then Words(s[1..], Plain, Some(SoFar(word) + [s[0]]), env)
      else None
    case Single =>
      if s == "" then None
      else if s[0] == '\'' then Words(s[1..], Plain, word, env)
      else Words(s[1..], Single, Some(SoFar(word) + [s[0]]), env)
    case Double =>
      if s == "" then None
      else if s[0] == '"' then Words(s[1..], Plain, word, env)
      else if s[0] == '$' && NameLength(s[1..]) > 0 then
        var n := NameLength(s[1..]);
        Words(s[1 + n..], Double, Some(SoFar(word) + env(s[1..1 + n])), env)
      else if s[0] == '$' || s[0] == '`' || s[0] == '\\' then None
      else Words(s[1..], Double, Some(SoFar(word) + [s[0]]), env)
  }

  function Value(a: Arg, env: string -> string): string {
    match a
    case Bare(word) => word
    case Var(name, tail) => env(name) + tail
    case Quoted(text) => text
  }

  function Values(args: seq<Arg>, env: string -> string): seq<string> {
    seq(|args|, i requires 0 <= i < |args| => Value(args[i], env))
  }

  predicate WordChars(s: string) {
    forall i :: 0 <= i < |s| ==> WordChar(s[i])
  }

  // Characters that stand for themselves in double quotes
  predicate TailChars(s: string) {
    forall i :: 0 <= i < |s| ==> s[i] != '"' && s[i] != '$' && s[i] != '`' && s[i] != '\\'
  }

  // Any text may be quoted; the other words are the program's own.
  predicate WellFormed(a: Arg) {
    match a
    case Bare(word) => word != "" && WordChars(word)
    case Var(name, tail) =>
      IsName(name) && (tail == "" || !NameChar(tail[0])) && TailChars(tail)
    case Quoted(_) => true
  }

  lemma ReadPlainChar(c: char, more: string, w: Option<string>, env: string -> string)
    requires WordChar(c)
    ensures Words([c] + more, Plain, w, env) == Words(more, Plain, Some(SoFar(w) + [c]), env)
  {
    assert ([c] + more)[1..] == more;
  }

  lemma {:induction false} ReadBare(word: string, rest: string, w: Option<string>, env: string -> string)
    requires word != "" && WordChars(word)
    ensures Words(word + rest, Plain, w, env) == Words(rest, Plain, Some(SoFar(w) + word), env)
    decreases |word|
  {
    hide Words, WordChar;
    var tail := word[1..];
    assert word == [word[0]] + tail && word + rest == [word[0]] + (tail + rest);
    ReadPlainChar(word[0], tail + rest, w, env);
    if tail == "" {
      assert tail + rest == rest && word == [word[0]];
    } else {
      ReadBare(tail, rest, Some(SoFar(w) + [word[0]]), env);
      assert SoFar(w) + [word[0]] + tail == SoFar(w) + word;
    }
  }

  lemma {:induction false} NameRunEnds(name: string, rest: string)
    requires (forall i :: 0 <= i < |name| ==> NameChar(name[i])) && (rest == "" || !NameChar(rest[0]))
    ensures NameRun(name + rest) == |name|
  {
    if name == "" {
      assert name + rest == rest;
    } else {
      NameRunEnds(name[1..], rest);
      assert (name + rest)[1..] == name[1..] + rest;
    }
  }

  lemma NameEnds(name: string, rest: string)
    requires IsName(name) && (rest == "" || !NameChar(rest[0]))
    ensures NameLength(name + rest) == |name| > 0
  {
    NameRunEnds(name, rest);
  }

  lemma ReadVar(name: string, tail: string, rest: string, env: string -> string)
    requires WellFormed(Var(name, tail))
    ensures Words("\"$" + name + tail + "\"" + rest, Plain, None, env) == Words(rest, Plain, Some(env(name) + tail), env)
  {
    var s := "\"$" + name + tail + "\"" + rest;
    var t := s[1..];
    var n := |name|;
    var end := tail + "\"" + rest;
    assert t == "$" + (name + end);
    assert t[1..] == name + end;
    NameEnds(name, end);
    assert t[1..1 + n] == name;
    assert t[1 + n..] == end;
    assert "" + env(name) == env(name);
    assert Words(s, Plain, None, env) == Words(t, Double, Some(""), env);
    assert Words(t, Double, Some(""), env) == Words(end, Double, Some("" + env(name)), env);
    ReadDouble(tail, rest, env(name), env);
  }

  lemma {:induction false} ReadDouble(tail: string, rest: string, w: string, env: string -> string)
    requires TailChars(tail)
    ensures Words(tail + "\"" + rest, Double, Some(w), env) == Words(rest, Plain, Some(w + tail), env)
    decreases |tail|
  {
    var s := tail + "\"" + rest;
    if tail == "" {
      assert s == "\"" + rest && s[1..] == rest && w + tail == w;
    } else {
      assert s[1..] == tail[1..] + "\"" + rest;
      ReadDouble(tail[1..], rest, w + [tail[0]], env);
      assert w + [tail[0]] + tail[1..] == w + tail;
    }
  }

  // Inside single quotes, each quote character of the text closes, escapes
  // and reopens the quotes.
  lemma {:induction false} ReadSingle(text: string, rest: string, w: string, env: string -> string)
    ensures Words(ReplaceAll(text, "'", "'\\''") + "'" + rest, Single, Some(w), env)
         == Words(rest, Plain, Some(w + text), env)
    decreases |text|
  {
    hide Words;
    var inner := ReplaceAll(text, "'", "'\\''");
    if text == "" {
      assert inner + "'" + rest == "'" + rest && w + text == w;
      ReadClosingQuote(rest, w, env);
    } else {
      var inner' := ReplaceAll(text[1..], "'", "'\\''");
      var more := inner' + "'" + rest;
      ReadSingle(text[1..], rest, w + [text[0]], env);
      assert w + [text[0]] + text[1..] == w + text;
      if text[0] == '\'' {
        assert "'" <= text && inner == "'\\''" + inner';
        assert inner + "'" + rest == "'\\''" + more;
        ReadEscapedQuote(more, w, env);
      } else {
        assert !("'" <= text) && inner == [text[0]] + inner';
        assert inner + "'" + rest == [text[0]] + more;
        ReadQuotedChar(text[0], more, w, env);
      }
    }
  }

  lemma ReadClosingQuote(rest: string, w: string, env: string -> string)
    ensures Words("'" + rest, Single, Some(w), env) == Words(rest, Plain, Some(w), env)
  {
    assert ("'" + rest)[1..] == rest;
  }

  lemma ReadQuotedChar(c: char, more: string, w: string, env: string -> string)
    requires c != '\''
    ensures Words([c] + more, Single, Some(w), env) == Words(more, Single, Some(w + [c]), env)
  {
    assert ([c] + more)[1..] == more;
  }

  lemma ReadEscapedQuote(more: string, w: string, env: string -> string)
    ensures Words("'\\''" + more, Single, Some(w), env) == Words(more, Single, Some(w + "'"), env)
  {
    var s := "'\\''" + more;
    var plain := "\\''" + more;
    assert s[1..] == plain;
    assert Words(s, Single, Some(w), env) == Words(plain, Plain, Some(w), env);
    assert plain[2..] == "'" + more;
    assert Words(plain, Plain, Some(w), env) == Words("'" + more, Plain, Some(w + "'"), env);
    assert ("'" + more)[1..] == more;
  }

  // An argument is read as its value, whatever follows.
  lemma ReadArg(a: Arg, rest: string, env: string -> string)
    requires WellFormed(a)
    ensures Words(PrintArg(a) + rest, Plain, None, env) == Words(rest, Plain, Some(Value(a, env)), env)
  {
    match a
    case Bare(word) =>
      ReadBare(word, rest, None, env);
      assert "" + word == word;
    case Var(name, tail) => ReadVar(name, tail, rest, env);
    case Quoted(text) =>
      var s := PrintArg(a) + rest;
      assert s == "'" + (ReplaceAll(text, "'", "'\\''") + "'" + rest);
      assert s[1..] == ReplaceAll(text, "'", "'\\''") + "'" + rest;
      ReadSingle(text, rest, "", env);
      assert "" + text == text;
  }

  // A printed command is read back as its arguments' values.
  lemma {:induction false} ReadArgs(args: seq<Arg>, rest: string, more: seq<string>, env: string -> string)
    requires args != [] && forall i :: 0 <= i < |args| ==> WellFormed(args[i])
    requires rest == "" || rest[0] == ' '
    requires Words(rest, Plain, None, env) == Some(more)
    ensures Words(PrintArgs(args) + rest, Plain, None, env) == Some(Values(args, env) + more)
    decreases |args|
  {
    hide Words, PrintArg, Value;
    var n := |args| - 1;
    var last := args[n];
    ReadArg(last, rest, env);
    ReadWordEnds(rest, Value(last, env), env);
    if n == 0 {
      assert Values(args, env) == [Value(last, env)];
    } else {
      var tail := " " + PrintArg(last) + rest;
      ReadBlank(PrintArg(last) + rest, env);
      assert tail == " " + (PrintArg(last) + rest);
      ReadArgs(args[..n], tail, [Value(last, env)] + more, env);
      assert PrintArgs(args) + rest == PrintArgs(args[..n]) + tail;
      assert Values(args, env) == Values(args[..n], env) + [Value(last, env)];
      assert Values(args[..n], env) + ([Value(last, env)] + more) == Values(args, env) + more;
    }
  }

  lemma ReadBlank(s: string, env: string -> string)
    ensures Words(" " + s, Plain, None, env) == Words(s, Plain, None, env)
  {
    assert (" " + s)[1..] == s;
  }

  lemma ReadWordEnds(rest: string, w: string, env: string -> string)
    requires rest == "" || rest[0] == ' '
    requires Words(rest, Plain, None, env).Some?
    ensures Words(rest, Plain, Some(w), env) == Some([w] + Words(rest, Plain, None, env).value)
  {
    if rest == "" {
      assert [w] + [] == [w];
    }
  }

  // ------------------------------------------------------------ the script

  function FixedWords(env: string -> string): seq<string> {
    ["docker", "compose", "-f", env("CONFIG_FILE"), "-f", env("OVERRIDE_PATH"),
     "--project-directory", env("WORKING_DIR"), "up", "-d"]
  }

  // What running the script does: the file it writes and the command it ends
  // with.
  datatype Effect = Effect(path: string, content: string, args: seq<string>)

  function Line(text: string): string {
    text[..Index(text, '\n')]
  }

  function AfterLine(text: string): string {
    if Index(text, '\n') < |text| then text[Index(text, '\n') + 1..] else ""
  }

  function Set(env: string -> string, name: string, value: string): string -> string {
    (x: string) => if x == name then value else env(x)
  }

  // name=word
  function Assignment(line: string, env: string -> string): Option<(string, string)> {
    if '=' !in line || !IsName(line[..Index(line, '=')]) then None
    else
      match Words(line[Index(line, '=') + 1..], Plain, None, env)
      case None => None
      case Some(ws) => if |ws| == 1 then Some((line[..Index(line, '=')], ws[0])) else None
  }

  // cat > path <<'delimiter'
  function Redirection(line: string, env: string -> string): Option<(string, string)> {
    var i := Index(line, '<');
    if !("cat > " <= line) || i < 6 || |line| < i + 3 || line[i + 1] != '<' || line[i + 2] != '\'' then None
    else
      match (Words(line[6..i], Plain, None, env), Words(line[i + 2..], Plain, None, env))
      case (Some(ps), Some(ds)) => if |ps| == |ds| == 1 then Some((ps[0], ds[0])) else None
      case _ => None
  }

  // A script of the kind built here, read line by line.
  function RunScript(text: string, env: string -> string): Option<Effect> {
    if Words(Line(text), Plain, None, env) != Some(["set", "-e"]) then None
    else
      var second := AfterLine(text);
      match Assignment(Line(second), env)
      case None => None
      case Some(a) =>
        var env' := Set(env, a.0, a.1);
        var third := AfterLine(second);
        match Redirection(Line(third), env')
        case None => None
        case Some(r) =>
          var (content, after) := HereDoc(AfterLine(third), r.1);
          match Words(after, Plain, None, env')
          case None => None
          case Some(args) => Some(Effect(r.0, content, args))
  }

  // What the script must do: write the override text, with the newlines at its
  // end replaced by one, to the override file of the working directory, and run
  // compose on that file with the sorted names as its last arguments, one each.
  // A text that contains the delimiter is written with the longer one instead.
  predicate Delivers(r: Option<Effect>, yaml: string, changed: seq<string>, env: string -> string) {
    && r.Some?
    && r.value.path == env("WORKING_DIR") + "/docker-compose.override.yml"
    && (!Contains(yaml, EOF) ==> OneNewline(yaml, r.value.content))
    && OneNewline(ReplaceAll(yaml, EOF, SAFE), r.value.content)
    && r.value.args == ["docker", "compose", "-f", env("CONFIG_FILE"), "-f", r.value.path,
                        "--project-directory", env("WORKING_DIR"), "up", "-d"]
                       + (if changed == [] then [] else ["--force-recreate"] + Sorting.Sort(changed, ByName()))
  }

  // For any override text and any service names, the script read line by line
  // does that.
  lemma SnippetReads(yaml: string, changed: seq<string>, env: string -> string)
    ensures Delivers(RunScript(Snippet(yaml, changed), env), yaml, changed, env)
  {
    hide Words, HereDoc, PrintArgs, CommandArgs, Body, Assignment, Redirection, PrintArg, Contains, FixedWords, Sorting.Sort, OneNewline;
    var path := env("WORKING_DIR") + "/docker-compose.override.yml";
    var env' := Set(env, "OVERRIDE_PATH", path);
    var doc := Body(yaml) + "\n" + EOF + "\n" + PrintArgs(CommandArgs(changed));
    PrologueLines(doc);
    ReadsSet(env);
    ReadsAssign(env);
    ReadsWrite(env');
    BodyReads(yaml, PrintArgs(CommandArgs(changed)));
    CommandReads(changed, env');
    FixedWordsSet(env, path);
    BodyWritten(yaml);
  }

  lemma BodyWritten(yaml: string)
    ensures OneNewline(ReplaceAll(yaml, EOF, SAFE), Body(yaml) + "\n")
    ensures !Contains(yaml, EOF) ==> OneNewline(yaml, Body(yaml) + "\n")
  {
    TrimmedOnce(ReplaceAll(yaml, EOF, SAFE));
    if !Contains(yaml, EOF) {
      ReplaceNothing(yaml, EOF, SAFE);
    }
  }

  lemma BodyReads(yaml: string, cmd: string)
    ensures HereDoc(Body(yaml) + "\n" + EOF + "\n" + cmd, EOF) == (Body(yaml) + "\n", cmd)
  {
    BodyHasNoDelimiter(yaml);
    TrimKeepsNoLine(ReplaceAll(yaml, EOF, SAFE), EOF);
    HereDocEnds(Body(yaml), EOF, cmd);
  }

  lemma FixedWordsSet(env: string -> string, path: string)
    ensures FixedWords(Set(env, "OVERRIDE_PATH", path)) ==
            ["docker", "compose", "-f", env("CONFIG_FILE"), "-f", path, "--project-directory", env("WORKING_DIR"), "up", "-d"]
  {
  }

  lemma LineSplits(line: string, rest: string)
    requires '\n' !in line
    ensures Line(line + "\n" + rest) == line && AfterLine(line + "\n" + rest) == rest
  {
    IndexConcat(line, '\n', rest);
    assert (line + "\n" + rest)[..|line|] == line && (line + "\n" + rest)[|line| + 1..] == rest;
  }

  lemma PrologueLines(doc: string)
    ensures var text := PROLOGUE + doc;
            && Line(text) == SET && Line(AfterLine(text)) == ASSIGN && Line(AfterLine(AfterLine(text))) == WRITE
            && AfterLine(AfterLine(AfterLine(text))) == doc
  {
    hide PrintArg, Line, AfterLine;
    PrologueNoNewline();
    assert PROLOGUE + doc == SET + "\n" + (ASSIGN + "\n" + (WRITE + "\n" + doc));
    LineSplits(SET, ASSIGN + "\n" + (WRITE + "\n" + doc));
    LineSplits(ASSIGN, WRITE + "\n" + doc);
    LineSplits(WRITE, doc);
  }

  lemma PrologueNoNewline()
    ensures '\n' !in SET && '\n' !in ASSIGN && '\n' !in WRITE
  {
    AssignNoNewline();
    WriteNoNewline();
  }

  lemma VarNoNewline(front: string, name: string, tail: string)
    requires '\n' !in front && '\n' !in name && '\n' !in tail
    ensures '\n' !in front + PrintArg(Var(name, tail))
  {
  }

  lemma JoinNoNewline(a: string, b: string)
    requires '\n' !in a && '\n' !in b
    ensures '\n' !in a + b
  {
  }

  lemma PathNoNewline()
    ensures '\n' !in "WORKING_DIR" && '\n' !in "/docker-compose.override.yml"
  {
  }

  lemma AssignNoNewline()
    ensures '\n' !in ASSIGN
  {
    hide PrintArg;
    PathNoNewline();
    VarNoNewline("OVERRIDE_PATH=", "WORKING_DIR", "/docker-compose.override.yml");
  }

  lemma DelimiterNoNewline()
    ensures '\n' !in " <<" + "'" + EOF + "'"
  {
    assert '\n' !in EOF;
  }

  lemma WriteNoNewline()
    ensures '\n' !in WRITE
  {
    hide PrintArg;
    var front := "cat > " + PrintArg(Var("OVERRIDE_PATH", ""));
    VarNoNewline("cat > ", "OVERRIDE_PATH", "");
    DelimiterNoNewline();
    JoinNoNewline(front, " <<" + "'" + EOF + "'");
    assert WRITE == front + (" <<" + "'" + EOF + "'");
  }

  lemma ReadsSet(env: string -> string)
    ensures Words(SET, Plain, None, env) == Some(["set", "-e"])
  {
    hide Words;
    NothingToRead(env);
    var args := [Bare("set"), Bare("-e")];
    assert args[..1] == [Bare("set")];
    assert PrintArgs(args) + "" == SET;
    ReadArgs(args, "", [], env);
    assert Values(args, env) + [] == ["set", "-e"];
  }

  lemma ReadsAssignment(name: string, a: Arg, env: string -> string)
    requires IsName(name) && '=' !in name && WellFormed(a)
    ensures Assignment(name + "=" + PrintArg(a), env) == Some((name, Value(a, env)))
  {
    hide Words, PrintArg, WellFormed, Value, IsName;
    var line := name + "=" + PrintArg(a);
    IndexConcat(name, '=', PrintArg(a));
    assert line[|name|] == '=' && line[..|name|] == name && line[|name| + 1..] == PrintArg(a);
    ReadsOne(a, "", env);
    assert PrintArg(a) + "" == PrintArg(a);
  }

  lemma PathIsName()
    ensures IsName("OVERRIDE_PATH") && '=' !in "OVERRIDE_PATH"
  {
  }

  lemma ReadsAssign(env: string -> string)
    ensures Assignment(ASSIGN, env) == Some(("OVERRIDE_PATH", env("WORKING_DIR") + "/docker-compose.override.yml"))
  {
    hide Words, PrintArg, WellFormed, Value, IsName, Assignment;
    var a := Var("WORKING_DIR", "/docker-compose.override.yml");
    PathIsName();
    AssignWellFormed(env);
    ReadsAssignment("OVERRIDE_PATH", a, env);
    assert ASSIGN == "OVERRIDE_PATH" + "=" + PrintArg(a);
  }

  lemma AssignWellFormed(env: string -> string)
    ensures var a := Var("WORKING_DIR", "/docker-compose.override.yml");
            WellFormed(a) && Value(a, env) == env("WORKING_DIR") + "/docker-compose.override.yml"
  {
  }

  lemma ReadsWrite(env: string -> string)
    ensures Redirection(WRITE, env) == Some((env("OVERRIDE_PATH"), EOF))
  {
    hide Words, PrintArg;
    var a := Var("OVERRIDE_PATH", "");
    QuotedEof();
    var front := "cat > " + PrintArg(a) + " ";
    assert WRITE == front + "<" + ("<" + PrintArg(Quoted(EOF)));
    NoAngle();
    IndexConcat(front, '<', "<" + PrintArg(Quoted(EOF)));
    assert WRITE[6..|front|] == PrintArg(a) + " ";
    assert WRITE[|front| + 2..] == PrintArg(Quoted(EOF)) + "";
    ReadsOne(a, " ", env);
    ReadsOne(Quoted(EOF), "", env);
    assert env("OVERRIDE_PATH") + "" == env("OVERRIDE_PATH");
  }

  lemma QuotedEof()
    ensures PrintArg(Quoted(EOF)) == "'" + EOF + "'"
  {
    NoQuoteInEof(EOF);
    ReplaceNothing(EOF, "'", "'\\''");
  }

  lemma {:induction false} NoQuoteInEof(s: string)
    requires '\'' !in s
    ensures !Contains(s, "'")
  {
    if s != "" {
      assert s[0] in s;
      NoQuoteInEof(s[1..]);
    }
  }

  lemma NoAngle()
    ensures '<' !in "cat > " + PrintArg(Var("OVERRIDE_PATH", "")) + " "
  {
  }

  lemma ReadsOne(a: Arg, rest: string, env: string -> string)
    requires WellFormed(a) && (rest == "" || rest == " ")
    ensures Words(PrintArg(a) + rest, Plain, None, env) == Some([Value(a, env)])
  {
    hide Words;
    NothingToRead(env);
    ReadBlank("", env);
    assert " " + "" == " ";
    ReadArgs([a], rest, [], env);
    assert Values([a], env) + [] == [Value(a, env)];
  }

  lemma BareWords()
    ensures WellFormed(Bare("docker")) && WellFormed(Bare("compose")) && WellFormed(Bare("-f"))
    ensures WellFormed(Bare("up")) && WellFormed(Bare("-d"))
  {
  }

  lemma LongWords()
    ensures WellFormed(Bare("--project-directory")) && WellFormed(Bare("--force-recreate"))
  {
  }

  lemma VarWords()
    ensures WellFormed(Var("CONFIG_FILE", "")) && WellFormed(Var("OVERRIDE_PATH", "")) && WellFormed(Var("WORKING_DIR", ""))
  {
  }

  lemma ComposeWellFormed()
    ensures forall i :: 0 <= i < |Compose()| ==> WellFormed(Compose()[i])
    ensures Compose() != [] && WellFormed(Bare("--force-recreate"))
  {
    hide WellFormed;
    BareWords();
    LongWords();
    VarWords();
  }

  lemma ComposeValues(env: string -> string)
    ensures Values(Compose(), env) == FixedWords(env)
  {
    assert env("CONFIG_FILE") + "" == env("CONFIG_FILE") && env("OVERRIDE_PATH") + "" == env("OVERRIDE_PATH")
        && env("WORKING_DIR") + "" == env("WORKING_DIR");
  }

  lemma NothingToRead(env: string -> string)
    ensures Words("", Plain, None, env) == Some([])
  {
  }

  lemma CommandReads(changed: seq<string>, env: string -> string)
    ensures Words(PrintArgs(CommandArgs(changed)), Plain, None, env)
         == Some(FixedWords(env) + (if changed == [] then [] else ["--force-recreate"] + Sorting.Sort(changed, ByName())))
  {
    hide Words, PrintArgs, Compose, FixedWords;
    ComposeWellFormed();
    ComposeValues(env);
    NothingToRead(env);
    var args := CommandArgs(changed);
    ReadArgs(args, "", [], env);
    assert PrintArgs(args) + "" == PrintArgs(args) && Values(args, env) + [] == Values(args, env);
    if changed != [] {
      var names := Sorting.Sort(changed, ByName());
      assert Values(QuotedAll(names), env) == names;
      assert Values(args, env) == Values(Compose(), env) + ["--force-recreate"] + Values(QuotedAll(names), env);
      assert FixedWords(env) + ["--force-recreate"] + names == FixedWords(env) + (["--force-recreate"] + names);
    }
  }

  // -------------------------- when the replaced text still has the delimiter

  // Positions in the two texts where two underscores follow each other.
  lemma Underscores(o: nat)
    ensures 0 < o < 26 ==> !(EOF[o] == '_' && EOF[o + 1] == '_')
    ensures 0 < o < 31 ==> !(SAFE[o] == '_' && SAFE[o + 1] == '_')
    ensures EOF[..27] == SAFE[..27] && EOF[27] != SAFE[27]
  {
  }

  lemma {:induction false} ContainsAt(s: string, o: nat, sub: string)
    requires o <= |s| && sub <= s[o..]
    ensures Contains(s, sub)
  {
    if o > 0 {
      assert s[1..][o - 1..] == s[o..];
      ContainsAt(s[1..], o - 1, sub);
    }
  }

  lemma {:induction false} ContainsWhere(s: string, sub: string) returns (o: nat)
    requires Contains(s, sub)
    ensures o <= |s| && sub <= s[o..]
  {
    if sub <= s {
      o := 0;
    } else {
      o := ContainsWhere(s[1..], sub);
      assert s[1..][o..] == s[o + 1..];
      o := o + 1;
    }
  }

  // The replacement starts like what it replaces, so a text keeps its start.
  lemma {:induction false} StartKept(s: string)
    ensures |s| < |EOF| ==> ReplaceAll(s, EOF, SAFE) == s
    ensures |ReplaceAll(s, EOF, SAFE)| >= |s|
    ensures forall i :: 0 <= i < |s| && i < 27 ==> ReplaceAll(s, EOF, SAFE)[i] == s[i]
    ensures !(EOF <= s) ==> forall i :: 0 <= i < |s| && i < 28 ==> ReplaceAll(s, EOF, SAFE)[i] == s[i]
  {
    ReplaceGrows(s, EOF, SAFE);
    if EOF <= s {
      Underscores(0);
      forall i | 0 <= i < 27
        ensures ReplaceAll(s, EOF, SAFE)[i] == s[i]
      {
        assert EOF[..27][i] == SAFE[..27][i];
      }
    } else if s != "" {
      StartKept(s[1..]);
    }
  }

  lemma StartsAlike(s: string, p: string)
    requires |p| <= 27
    ensures p <= ReplaceAll(s, EOF, SAFE) <==> p <= s
  {
    StartKept(s);
  }

  lemma NeverStarts(s: string)
    ensures !(EOF <= ReplaceAll(s, EOF, SAFE))
  {
    StartKept(s);
    Underscores(0);
    var r := ReplaceAll(s, EOF, SAFE);
    if EOF <= s {
      assert r[27] == SAFE[27];
    } else if |s| >= 28 {
      assert r[..28] == s[..28];
    }
  }

  // The delimiter can only stick out of the replacement's last two characters.
  lemma AfterSafeAt(t: string, o: nat)
    requires o < |SAFE|
    ensures EOF <= (SAFE + t)[o..] <==> (o == 31 && EOF[2..] <= t) || (o == 32 && EOF[1..] <= t)
  {
    Underscores(o);
    SafeEnds();
    SticksOut(EOF, SAFE, t, o);
  }

  lemma SafeEnds()
    ensures SAFE[31..] == EOF[..2] && SAFE[32..] == EOF[..1]
  {
    assert SAFE[31] == SAFE[32] == '_' && EOF[0] == EOF[1] == '_';
  }

  lemma SticksOut(eof: string, safe: string, t: string, o: nat)
    requires |eof| == 28 && |safe| == 33 && o < 33 && eof[0] == eof[1] == '_' && eof[27] != safe[27]
    requires 0 < o < 31 ==> !(safe[o] == '_' && safe[o + 1] == '_')
    requires safe[31..] == eof[..2] && safe[32..] == eof[..1]
    ensures eof <= (safe + t)[o..] <==> (o == 31 && eof[2..] <= t) || (o == 32 && eof[1..] <= t)
  {
    var tail := (safe + t)[o..];
    if o == 0 {
      assert tail[27] == safe[27];
    } else if o < 31 {
      assert tail[0] == safe[o] && tail[1] == safe[o + 1];
    } else {
      assert tail == eof[..33 - o] + t;
      PrefixOfSum(eof, 33 - o, t);
    }
  }

  lemma PrefixOfSum(p: string, k: nat, t: string)
    requires k <= |p|
    ensures p <= p[..k] + t <==> p[k..] <= t
  {
    if p <= p[..k] + t {
      PrefixTail(p, p[..k] + t, k);
      assert (p[..k] + t)[k..] == t;
    }
    if p[k..] <= t {
      assert p == p[..k] + p[k..];
    }
  }

  lemma AfterSafe(t: string)
    ensures Contains(SAFE + t, EOF) <==> EOF[2..] <= t || EOF[1..] <= t || Contains(t, EOF)
  {
    hide Contains;
    if Contains(SAFE + t, EOF) {
      OutOfSafe(t);
    }
    AfterSafeAt(t, 31);
    AfterSafeAt(t, 32);
    if EOF[2..] <= t {
      ContainsAt(SAFE + t, 31, EOF);
    }
    if EOF[1..] <= t {
      ContainsAt(SAFE + t, 32, EOF);
    }
    if Contains(t, EOF) {
      BehindIt(SAFE, t, EOF);
    }
  }

  lemma OutOfSafe(t: string)
    requires Contains(SAFE + t, EOF)
    ensures EOF[2..] <= t || EOF[1..] <= t || Contains(t, EOF)
  {
    hide Contains;
    var s := SAFE + t;
    var o := ContainsWhere(s, EOF);
    if o < |SAFE| {
      AfterSafeAt(t, o);
    } else {
      assert s[o..] == t[o - |SAFE|..];
      ContainsAt(t, o - |SAFE|, EOF);
    }
  }

  lemma BehindIt(front: string, t: string, sub: string)
    requires Contains(t, sub)
    ensures Contains(front + t, sub)
  {
    hide Contains;
    var o := ContainsWhere(t, sub);
    assert (front + t)[|front| + o..] == t[o..];
    ContainsAt(front + t, |front| + o, sub);
  }

  // Two delimiters that share one or two underscores
  predicate Overlaps(s: string) {
    Contains(s, EOF + EOF[2..]) || Contains(s, EOF + EOF[1..])
  }

  lemma EofTwice(s: string, o: nat)
    requires EOF <= s && 0 < o < |EOF| && EOF <= s[o..]
    ensures EOF[2..] <= s[28..] || EOF[1..] <= s[28..]
  {
    Underscores(o);
    assert s[o] == EOF[o] == EOF[0] && (o < 27 ==> s[o + 1] == EOF[o + 1] == EOF[1]);
    assert EOF[0] == EOF[1] == '_';
    assert o == 26 || o == 27;
    PrefixTail(EOF, s[o..], 28 - o);
    assert s[28..] == s[o..][28 - o..];
  }

  lemma PrefixTail(p: string, s: string, k: nat)
    requires p <= s && k <= |p|
    ensures p[k..] <= s[k..]
  {
  }

  lemma SumPrefix(p: string, q: string, s: string)
    requires p <= s
    ensures p + q <= s <==> q <= s[|p|..]
  {
    assert s == p + s[|p|..];
    if p + q <= s {
      PrefixTail(p + q, s, |p|);
      assert (p + q)[|p|..] == q;
    }
  }

  lemma OverlapsAfter(s: string, pattern: string)
    requires EOF <= s && EOF <= pattern && Contains(s, pattern)
    ensures pattern <= s || EOF[2..] <= s[28..] || EOF[1..] <= s[28..] || Contains(s[28..], pattern)
  {
    var o := ContainsWhere(s, pattern);
    if 0 < o < 28 {
      EofTwice(s, o);
    } else if o >= 28 {
      assert s[28..][o - 28..] == s[o..];
      ContainsAt(s[28..], o - 28, pattern);
    }
  }

  lemma ContainsLater(s: string, n: nat, sub: string)
    requires n <= |s| && Contains(s[n..], sub)
    ensures Contains(s, sub)
  {
    var o := ContainsWhere(s[n..], sub);
    assert s[n..][o..] == s[n + o..];
    ContainsAt(s, n + o, sub);
  }

  lemma OverlapsSplit(s: string)
    requires EOF <= s
    ensures Overlaps(s) <==> EOF[2..] <= s[28..] || EOF[1..] <= s[28..] || Overlaps(s[28..])
  {
    hide Contains;
    SumPrefix(EOF, EOF[2..], s);
    SumPrefix(EOF, EOF[1..], s);
    if Contains(s, EOF + EOF[2..]) {
      OverlapsAfter(s, EOF + EOF[2..]);
    }
    if Contains(s, EOF + EOF[1..]) {
      OverlapsAfter(s, EOF + EOF[1..]);
    }
    if EOF[2..] <= s[28..] {
      ContainsAt(s, 0, EOF + EOF[2..]);
    }
    if EOF[1..] <= s[28..] {
      ContainsAt(s, 0, EOF + EOF[1..]);
    }
    if Contains(s[28..], EOF + EOF[2..]) {
      ContainsLater(s, 28, EOF + EOF[2..]);
    }
    if Contains(s[28..], EOF + EOF[1..]) {
      ContainsLater(s, 28, EOF + EOF[1..]);
    }
  }

  // The replaced text still contains the delimiter exactly when the text had
  // two of them sharing an underscore or two.
  lemma {:induction false} DelimiterRemainsExactly(yaml: string)
    ensures Contains(ReplaceAll(yaml, EOF, SAFE), EOF) <==> Overlaps(yaml)
    decreases |yaml|
  {
    NeverStarts(yaml);
    if EOF <= yaml {
      var rest := yaml[28..];
      DelimiterRemainsExactly(rest);
      AfterSafe(ReplaceAll(rest, EOF, SAFE));
      StartsAlike(rest, EOF[2..]);
      StartsAlike(rest, EOF[1..]);
      OverlapsSplit(yaml);
    } else if yaml != "" {
      DelimiterRemainsExactly(yaml[1..]);
      OverlapsLater(yaml);
    }
  }

  lemma OverlapsLater(s: string)
    requires s != "" && !(EOF <= s)
    ensures Overlaps(s) <==> Overlaps(s[1..])
  {
    assert EOF <= EOF + EOF[2..] && EOF <= EOF + EOF[1..];
  }

  // For instance two delimiters that share two underscores
  lemma DelimiterMayRemain()
    ensures Contains(ReplaceAll(EOF + EOF[2..], EOF, SAFE), EOF)
  {
    ContainsAt(EOF + EOF[2..], 0, EOF + EOF[2..]);
    DelimiterRemainsExactly(EOF + EOF[2..]);
  }
}
