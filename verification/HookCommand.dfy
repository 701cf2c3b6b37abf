/** The guarded command line of a hook, and what a POSIX shell reads in it. */
module HookCommand {
  import opened Common
  import opened Text

  datatype Shell = Posix | Windows

  /** Each single quote leaves the quotes, is written escaped, and enters them again. */
  function Escape(path: string): string {
    Replace(path, "'", "'\\''")
  }

  function Quote(path: string): string {
    "'" + Escape(path) + "'"
  }

  function BuildGuardedHookCommand(path: string, subcommand: string, shell: Shell): string {
    match shell
    case Posix =>
      var quoted := Quote(path);
      "if [ -x " + (quoted + (" ]; then " + (quoted + (" " + (subcommand + "; fi")))))
    case Windows =>
      "if exist \"" + (path + ("\" \"" + (path + ("\" " + subcommand))))
  }

  predicate IsGuardedHookCommand(command: string) {
    "if [ -x " <= TrimStart(command) || "if exist " <= TrimStart(command)
  }

  /** Every command built here is recognised as guarded. */
  lemma BuiltCommandIsGuarded(path: string, subcommand: string, shell: Shell)
    ensures IsGuardedHookCommand(BuildGuardedHookCommand(path, subcommand, shell))
  {
    var command := BuildGuardedHookCommand(path, subcommand, shell);
    assert command[0] == 'i';
    assert TrimStart(command) == command;
    assert "if [ -x " <= command || "if exist " <= command;
  }

  // ---------- A shell reader: sections 2.2.1, 2.2.2 and 2.3 of POSIX.1-2017 XCU ----------

  datatype Word = Word(value: string, rest: string)

  datatype Token = Text(value: string) | Semicolon

  predicate IsBlank(c: char) {
    c == ' ' || c == '\t'
  }

  predicate EndsWord(c: char) {
    IsBlank(c) || c == '\n' || c == ';' || c == '|' || c == '&' || c == '<' || c == '>' || c == '(' || c == ')'
  }

  /** Starts an expansion, a pattern, a comment or another kind of quoting. */
  predicate IsSpecial(c: char) {
    c == '"' || c == '$' || c == '`' || c == '*' || c == '?' || c == '#' || c == '~'
  }

  function Prepend(c: char, word: Option<Word>): Option<Word> {
    if word.Some? then Some(Word([c] + word.value.value, word.value.rest)) else None
  }

  function ReadQuoted(s: string): Option<Word> {
    if s == "" then None
    else if s[0] == '\'' then ReadWord(s[1..])
    else Prepend(s[0], ReadQuoted(s[1..]))
  }

  /** Reads a word up to its delimiter.  A word that would be expanded (or is unfinished) reads as `None`. */
  function ReadWord(s: string): Option<Word> {
    if s == "" || EndsWord(s[0]) then Some(Word("", s))
    else if s[0] == '\'' then ReadQuoted(s[1..])
    else if s[0] == '\\' then
      if |s| == 1 then None
      else if s[1] == '\n' then ReadWord(s[2..])
      else Prepend(s[1], ReadWord(s[2..]))
    else if IsSpecial(s[0]) then None
    else Prepend(s[0], ReadWord(s[1..]))
  }

  lemma {:induction false} ReadShrinks(s: string)
    ensures ReadWord(s).Some? ==> |ReadWord(s).value.rest| <= |s|
    ensures ReadQuoted(s).Some? ==> |ReadQuoted(s).value.rest| <= |s|
    decreases |s|
  {
    if s != "" {
      ReadShrinks(s[1..]);
      if |s| > 1 { ReadShrinks(s[2..]); }
    }
  }

  lemma {:induction false} ReadWordShrinks(s: string)
    requires s != "" && !EndsWord(s[0])
    ensures ReadWord(s).Some? ==> |ReadWord(s).value.rest| < |s|
    decreases |s|, 1
  {
    ReadShrinks(s);
    if s[0] == '\'' { ReadShrinks(s[1..]); }
    else if s[0] == '\\' { if |s| > 1 { ReadShrinks(s[2..]); } }
    else { ReadShrinks(s[1..]); }
  }

  function Then(token: Token, rest: Option<seq<Token>>): Option<seq<Token>> {
    if rest.Some? then Some([token] + rest.value) else None
  }

  function Tokens(s: string): Option<seq<Token>>
    decreases |s|
  {
    if s == "" then Some([])
    else if IsBlank(s[0]) then Tokens(s[1..])
    else if s[0] == ';' then Then(Semicolon, Tokens(s[1..]))
    else if EndsWord(s[0]) then None
    else
      ReadWordShrinks(s);
      var word := ReadWord(s);
      if word.None? then None else Then(Text(word.value.value), Tokens(word.value.rest))
  }

  // ---------- Quoting round-trips ----------

  predicate Delimited(rest: string) {
    rest == "" || EndsWord(rest[0])
  }

  function EscapeChar(c: char): string {
    if c == '\'' then "'\\''" else [c]
  }

  lemma EscapeStep(path: string)
    requires path != ""
    ensures Escape(path) == EscapeChar(path[0]) + Escape(path[1..])
  {
    assert path[0..1][0] == path[0];
  }

  /** Leave the quotes, read an escaped quote, enter them again. */
  lemma ReadsEscapedQuote(tail: string)
    ensures ReadQuoted("'\\''" + tail) == Prepend('\'', ReadQuoted(tail))
  {
    var s := "'\\''" + tail;
    var t, u := s[1..], s[3..];
    assert t[2..] == u && u[1..] == tail && u[0] == '\'';
    assert t[0] == '\\' && t[1] == '\'';
    assert ReadWord(u) == ReadQuoted(tail);
    assert ReadWord(t) == Prepend('\'', ReadWord(u));
  }

  lemma ReadsEscapedChar(c: char, tail: string)
    ensures ReadQuoted(EscapeChar(c) + tail) == Prepend(c, ReadQuoted(tail))
  {
    if c == '\'' {
      ReadsEscapedQuote(tail);
    } else {
      assert ([c] + tail)[1..] == tail;
    }
  }

  lemma PrependWord(s: string, rest: string)
    requires s != ""
    ensures Prepend(s[0], Some(Word(s[1..], rest))) == Some(Word(s, rest))
  {
    assert [s[0]] + s[1..] == s;
  }

  /** Inside the quotes, the rest of an escaped path reads as itself. */
  lemma {:induction false} ReadsEscaped(path: string, rest: string)
    requires Delimited(rest)
    ensures ReadQuoted(Escape(path) + ("'" + rest)) == Some(Word(path, rest))
  {
    if path == "" {
      assert "" + ("'" + rest) == "'" + rest;
      assert ("'" + rest)[1..] == rest;
    } else {
      var tail := Escape(path[1..]) + ("'" + rest);
      EscapeStep(path);
      ReadsEscapedChar(path[0], tail);
      hide *;
      ReadsEscaped(path[1..], rest);
      ConcatAssociates(EscapeChar(path[0]), Escape(path[1..]), "'" + rest);
      PrependWord(path, rest);
    }
  }

  lemma QuoteSpelled(path: string, rest: string)
    ensures Quote(path) + rest == "'" + (Escape(path) + ("'" + rest))
  {
  }

  /** For every path, the quoted word reads back as exactly that path, as one word. */
  lemma QuoteRoundTrips(path: string, rest: string)
    requires Delimited(rest)
    ensures ReadWord(Quote(path) + rest) == Some(Word(path, rest))
  {
    var inner := Escape(path) + ("'" + rest);
    ReadsEscaped(path, rest);
    QuoteSpelled(path, rest);
    assert ("'" + inner)[1..] == inner;
  }

  predicate Plain(s: string) {
    forall i | 0 <= i < |s| :: 'a' <= s[i] <= 'z' || s[i] == '-'
  }

  lemma ReadsPlainChar(c: char, tail: string)
    requires Plain([c])
    ensures ReadWord([c] + tail) == Prepend(c, ReadWord(tail))
  {
    assert [c][0] == c && ([c] + tail)[1..] == tail;
  }

  lemma PlainParts(s: string)
    requires Plain(s) && s != ""
    ensures Plain([s[0]]) && Plain(s[1..]) && [s[0]] + s[1..] == s
  {
  }

  lemma {:induction false} ReadsPlain(s: string, rest: string)
    requires Plain(s) && Delimited(rest)
    ensures ReadWord(s + rest) == Some(Word(s, rest))
  {
    if s == "" {
      assert s + rest == rest;
    } else {
      hide *;
      PlainParts(s);
      ConcatAssociates([s[0]], s[1..], rest);
      ReadsPlainChar(s[0], s[1..] + rest);
      ReadsPlain(s[1..], rest);
      PrependWord(s, rest);
    }
  }

  lemma TokenPlain(s: string, rest: string)
    requires Plain(s) && s != "" && Delimited(rest)
    ensures Tokens(s + rest) == Then(Text(s), Tokens(rest))
  {
    ReadsPlain(s, rest);
  }

  lemma TokenQuoted(path: string, rest: string)
    requires Delimited(rest)
    ensures Tokens(Quote(path) + rest) == Then(Text(path), Tokens(rest))
  {
    QuoteRoundTrips(path, rest);
    assert (Quote(path) + rest)[0] == '\'';
  }

  lemma TokenBlank(rest: string)
    ensures Tokens(" " + rest) == Tokens(rest)
  {
    assert (" " + rest)[1..] == rest;
  }

  lemma TokenSemicolon(rest: string)
    ensures Tokens(";" + rest) == Then(Semicolon, Tokens(rest))
  {
    assert (";" + rest)[1..] == rest;
  }

  lemma TokenBracket(s: string, rest: string)
    requires (s == "[" || s == "]") && Delimited(rest)
    ensures Tokens(s + rest) == Then(Text(s), Tokens(rest))
  {
    assert (s + rest)[1..] == rest;
    assert ReadWord(rest) == Some(Word("", rest));
    assert ReadWord(s + rest) == Prepend(s[0], ReadWord(rest));
    assert [s[0]] + "" == s;
  }

  /** The spelling of the guard, token by token. */
  lemma GuardSpelled(path: string, subcommand: string)
    ensures BuildGuardedHookCommand(path, subcommand, Posix)
         == "if" + (" " + ("[" + (" " + ("-x"
             + (" " + (Quote(path) + (" " + ("]" + (";" + (" " + ("then" + (" " + (Quote(path)
            + (" " + (subcommand + (";" + (" " + "fi")))))))))))))))))
  {
    hide Quote;
    var q := Quote(path);
    var t := " " + (subcommand + (";" + (" " + "fi")));
    assert " " + (subcommand + "; fi") == t;
    assert " ]; then " + (q + t) == " " + ("]" + (";" + (" " + ("then" + (" " + (q + t))))));
    var u := q + (" ]; then " + (q + t));
    assert "if [ -x " + u == "if" + (" " + ("[" + (" " + ("-x" + (" " + u)))));
  }

  lemma FoldTokens(path: string, subcommand: string)
    ensures Tokens("") == Some([])
    ensures Then(Text("if"), Then(Text("["), Then(Text("-x"), Then(Text(path), Then(Text("]"), Then(Semicolon,
            Then(Text("then"), Then(Text(path),
                Then(Text(subcommand), Then(Semicolon, Then(Text("fi"), Some([]))))))))))))
         == Some([Text("if"), Text("["), Text("-x"), Text(path), Text("]"), Semicolon,
                  Text("then"), Text(path), Text(subcommand), Semicolon, Text("fi")])
  {
    var r := Then(Text("if"), Then(Text("["), Then(Text("-x"), Then(Text(path), Then(Text("]"), Then(Semicolon,
             Then(Text("then"), Then(Text(path),
                 Then(Text(subcommand), Then(Semicolon, Then(Text("fi"), Some([]))))))))))));
    assert r.Some? && |r.value| == 11;
    assert r.value[0] == Text("if") && r.value[1] == Text("[") && r.value[2] == Text("-x") && r.value[3] == Text(path);
    assert r.value[4] == Text("]") && r.value[5] == Semicolon && r.value[6] == Text("then") && r.value[7] == Text(path);
    assert r.value[8] == Text(subcommand) && r.value[9] == Semicolon && r.value[10] == Text("fi");
    assert r.value == [Text("if"), Text("["), Text("-x"), Text(path), Text("]"), Semicolon,
                       Text("then"), Text(path), Text(subcommand), Semicolon, Text("fi")];
  }

  /** The whole guard, as the shell reads it: it tests and runs the same word, which is the path, and passes the
      subcommand as the only argument. */
  lemma GuardReadsBack(path: string, subcommand: string)
    requires Plain(subcommand) && subcommand != ""
    ensures Tokens(BuildGuardedHookCommand(path, subcommand, Posix)) == Some([
              Text("if"), Text("["), Text("-x"), Text(path), Text("]"), Semicolon,
              Text("then"), Text(path), Text(subcommand), Semicolon, Text("fi")])
  {
    hide Tokens, Quote, Then;
    var s9 := "fi";
    var s8 := ";" + (" " + s9);
    var s7 := " " + (subcommand + s8);
    var s6 := Quote(path) + s7;
    var s5 := "then" + (" " + s6);
    var s4 := "]" + (";" + (" " + s5));
    var s3 := " " + s4;
    var s2 := Quote(path) + s3;
    var s1 := "-x" + (" " + s2);
    var s0 := "[" + (" " + s1);
    GuardSpelled(path, subcommand);
    TokenPlain("if", " " + s0);
    TokenBlank(s0);
    TokenBracket("[", " " + s1);
    TokenBlank(s1);
    TokenPlain("-x", " " + s2);
    TokenBlank(s2);
    TokenQuoted(path, s3);
    TokenBlank(s4);
    TokenBracket("]", ";" + (" " + s5));
    TokenSemicolon(" " + s5);
    TokenBlank(s5);
    TokenPlain("then", " " + s6);
    TokenBlank(s6);
    TokenQuoted(path, s7);
    TokenBlank(subcommand + s8);
    TokenPlain(subcommand, s8);
    TokenSemicolon(" " + s9);
    TokenBlank(s9);
    assert s9 == "fi" + "";
    TokenPlain("fi", "");
    FoldTokens(path, subcommand);
  }

  /** The other guard, cut at its double quotes: it tests and runs the same quoted path. */
  lemma WindowsGuardReadsBack(path: string, subcommand: string)
    requires '"' !in path && '"' !in subcommand
    ensures Split(BuildGuardedHookCommand(path, subcommand, Windows), "\"")
         == ["if exist ", path, " ", path, " " + subcommand]
  {
    var parts := ["if exist ", path, " ", path, " " + subcommand];
    hide Split;
    forall part | part in parts ensures '"' !in part {
      if part == parts[4] { assert '"' !in " " && parts[4] == " " + subcommand; }
    }
    JoinSplits(parts, '"');
    JoinedFive(parts[0], parts[1], parts[2], parts[3], parts[4]);
    assert Join(parts, "\"") == BuildGuardedHookCommand(path, subcommand, Windows);
  }

  lemma JoinedFive(a: string, b: string, c: string, d: string, e: string)
    ensures Join([a, b, c, d, e], "\"") == a + "\"" + (b + "\"" + (c + "\"" + (d + "\"" + e)))
  {
    assert [a, b, c, d, e][1..] == [b, c, d, e] && [b, c, d, e][1..] == [c, d, e];
    assert [c, d, e][1..] == [d, e] && [d, e][1..] == [e];
    assert Join([d, e], "\"") == d + "\"" + e;
    assert Join([c, d, e], "\"") == c + "\"" + (d + "\"" + e);
    assert Join([b, c, d, e], "\"") == b + "\"" + (c + "\"" + (d + "\"" + e));
  }

  // ---------- Names survive quoting ----------

  predicate QuoteFree(s: string) {
    forall i | 0 <= i < |s| :: s[i] != '\''
  }

  lemma {:induction false} EscapeConcat(a: string, b: string)
    ensures Escape(a + b) == Escape(a) + Escape(b)
  {
    if a == "" {
      assert a + b == b;
    } else {
      hide Escape, EscapeChar;
      var s := a + b;
      EscapeConcat(a[1..], b);
      EscapeStep(a);
      EscapeStep(s);
      ConcatHead(a, b);
      ConcatAssociates(EscapeChar(a[0]), Escape(a[1..]), Escape(b));
    }
  }

  lemma {:induction false} EscapeKeeps(s: string)
    requires QuoteFree(s)
    ensures Escape(s) == s
  {
    if s != "" {
      EscapeKeeps(s[1..]);
      assert s[0..1][0] == s[0];
      assert s == [s[0]] + s[1..];
    }
  }

  lemma ContainsMiddle(a: string, s: string, b: string)
    ensures Contains(a + (s + b), s)
  {
    var whole := a + (s + b);
    assert whole[|a|..|a| + |s|] == s;
    assert OccursAt(whole, s, |a|);
  }

  /** The escaped path still has the quote-free part in one piece. */
  lemma EscapeAround(before: string, name: string, after: string)
    requires QuoteFree(name)
    ensures Escape(before + (name + after))
         == Escape(before) + (name + Escape(after))
  {
    EscapeConcat(before, name + after);
    EscapeConcat(name, after);
    EscapeKeeps(name);
  }

  lemma ConcatMiddle(a: string, b: string, c: string, d: string)
    ensures (a + (b + c)) + d == a + (b + (c + d))
  {
  }

  lemma SurvivesPosix(before: string, name: string, after: string, path: string, subcommand: string)
    requires Escape(path) == before + (name + after)
    ensures Contains(BuildGuardedHookCommand(path, subcommand, Posix), name)
  {
    hide Contains, Escape, Quote;
    var rest := " ]; then " + (Quote(path) + (" " + (subcommand + "; fi")));
    var head, tail := "if [ -x " + ("'" + before), after + ("'" + rest);
    ContainsMiddle(head, name, tail);
    QuoteSpelled(path, rest);
    ConcatMiddle(before, name, after, "'" + rest);
    ConcatAssociates("if [ -x ", "'" + before, name + tail);
    ConcatAssociates("'", before, name + tail);
  }

  lemma SurvivesWindows(before: string, name: string, after: string, subcommand: string)
    ensures Contains(BuildGuardedHookCommand(before + (name + after), subcommand, Windows), name)
  {
    hide Contains;
    var path := before + (name + after);
    var rest := "\" \"" + (path + ("\" " + subcommand));
    ContainsMiddle("if exist \"" + before, name, after + rest);
    assert "if exist \"" + (path + rest) == ("if exist \"" + before) + (name + (after + rest));
  }

  /** A quote-free part of the path, such as the name of the hook binary, can be found in the command. */
  lemma NameSurvives(path: string, name: string, subcommand: string, shell: Shell)
    requires QuoteFree(name) && Contains(path, name)
    ensures Contains(BuildGuardedHookCommand(path, subcommand, shell), name)
  {
    hide Contains;
    var i: nat :| OccursAt(path, name, i);
    var before, after := path[..i], path[i + |name|..];
    assert path == before + (name + after);
    match shell
    case Posix =>
      EscapeAround(before, name, after);
      SurvivesPosix(Escape(before), name, Escape(after), path, subcommand);
    case Windows =>
      SurvivesWindows(before, name, after, subcommand);
  }
}
