/**
 Shell quoting (internal/adapter/util/helpers.go) against a word splitter that
 follows sections 2.2.1 to 2.2.3 of the POSIX Shell Command Language.
 */
module ShellQuote {
  import opened Wrappers

  // ------------------------------------------------ quoting

  /** strings.ReplaceAll of each quote by quote, backslash, quote, quote. */
  function EscapeQuotes(s: string): string {
    if s == "" then ""
    else (if s[0] == '\'' then "'\\''" else [s[0]]) + EscapeQuotes(s[1..])
  }

  function Quote(s: string): string { "'" + EscapeQuotes(s) + "'" }

  /** strings.Join of the quoted arguments with single spaces. */
  function JoinQuoted(args: seq<string>): string {
    if |args| == 0 then ""
    else if |args| == 1 then Quote(args[0])
    else Quote(args[0]) + " " + JoinQuoted(args[1..])
  }

  /** The command line runCommandViaEnvd builds. */
  function CommandLine(command: string, args: seq<string>): string {
    if |args| > 0 then command + " " + JoinQuoted(args) else command
  }

  /** The text of a quoted argument: the argument between quotes, and each quote in it as four characters. */
  lemma QuoteText(a: string, b: string)
    requires '\'' !in a
    ensures Quote(a) == "'" + a + "'" && Quote(a + "'" + b) == "'" + a + "'\\'" + Quote(b)
  {
    EscapePlain(a, "");
    EscapePlain(a, "'" + b);
    assert a + "" == a && a + "'" + b == a + ("'" + b);
    assert ("'" + b)[1..] == b;
  }

  lemma {:induction false} EscapePlain(a: string, rest: string)
    requires '\'' !in a
    ensures EscapeQuotes(a + rest) == a + EscapeQuotes(rest)
    decreases |a|
  {
    if a == "" {
      assert a + rest == rest;
    } else {
      assert (a + rest)[1..] == a[1..] + rest;
      EscapePlain(a[1..], rest);
    }
  }

  // ------------------------------------------------ the shell's side

  /** Between words, inside a word outside quotes, or inside quotes. */
  datatype Mode = Between | Unquoted | Single | Double

  predicate IsBlank(c: char) { c == ' ' || c == '\t' }

  /** Characters that mean something else outside quotes, or that no shell word can hold. */
  predicate IsSpecial(c: char) {
    c in {'|', '&', ';', '<', '>', '(', ')', '$', '`', '*', '?', '[', '#', '~', '=', '%', '\n', '\0'}
  }

  /** What a backslash makes literal between double quotes. */
  predicate IsDoubleEscapable(c: char) { c in {'$', '`', '"', '\\'} }

  /** Split `s` into words, `words` and the part `cur` of the next one being read already.  None: an
      unterminated quote, a trailing backslash, or a construct that is not plain words. */
  function Lex(s: string, mode: Mode, cur: string, words: seq<string>): Option<seq<string>>
    decreases |s|
  {
    if s == "" then
      match mode
      case Between => Some(words)
      case Unquoted => Some(words + [cur])
      case _ => None
    else if s[0] == '\0' then None
    else match mode
      case Single =>
        if s[0] == '\'' then Lex(s[1..], Unquoted, cur, words) else Lex(s[1..], Single, cur + [s[0]], words)
      case Double =>
        if s[0] == '"' then Lex(s[1..], Unquoted, cur, words)
        else if s[0] == '$' || s[0] == '`' then None
        else if s[0] == '\\' && |s| >= 2 && s[1] == '\n' then Lex(s[2..], Double, cur, words)
        else if s[0] == '\\' && |s| >= 2 && IsDoubleEscapable(s[1]) then Lex(s[2..], Double, cur + [s[1]], words)
        else Lex(s[1..], Double, cur + [s[0]], words)
      case _ =>
        if IsBlank(s[0]) then
          Lex(s[1..], Between, "", if mode.Between? then words else words + [cur])
        else if s[0] == '\'' then Lex(s[1..], Single, cur, words)
        else if s[0] == '"' then Lex(s[1..], Double, cur, words)
        else if s[0] == '\\' then
          if |s| < 2 || s[1] == '\0' then None
          else if s[1] == '\n' then Lex(s[2..], mode, cur, words)
          else Lex(s[2..], Unquoted, cur + [s[1]], words)
        else if IsSpecial(s[0]) then None
        else Lex(s[1..], Unquoted, cur + [s[0]], words)
  }

  function Split(s: string): Option<seq<string>> { Lex(s, Between, "", []) }

  // ------------------------------------------------ the round trip

  predicate NulFree(s: string) { forall i :: 0 <= i < |s| ==> s[i] != '\0' }

  /** Inside single quotes the escaped text reads back as itself. */
  lemma {:induction false} LexEscaped(a: string, rest: string, cur: string, words: seq<string>)
    requires NulFree(a)
    ensures Lex(EscapeQuotes(a) + rest, Single, cur, words) == Lex(rest, Single, cur + a, words)
    decreases |a|
  {
    if a == "" {
      assert EscapeQuotes(a) + rest == rest;
      assert cur + a == cur;
    } else {
      var tail := EscapeQuotes(a[1..]) + rest;
      assert cur + [a[0]] + a[1..] == cur + a;
      LexEscaped(a[1..], rest, cur + [a[0]], words);
      if a[0] == '\'' {
        assert EscapeQuotes(a) + rest == "'\\''" + tail;
        LexQuoteInside(tail, cur, words);
      } else {
        assert EscapeQuotes(a) + rest == [a[0]] + tail;
        assert ([a[0]] + tail)[1..] == tail;
      }
    }
  }

  /** End quote, escaped quote, start quote: one literal quote. */
  lemma LexQuoteInside(tail: string, cur: string, words: seq<string>)
    ensures Lex("'\\''" + tail, Single, cur, words) == Lex(tail, Single, cur + ['\''], words)
  {
    var s0 := "'\\''" + tail;
    var s1 := "\\''" + tail;
    var s3 := "'" + tail;
    assert s0[0] == '\'' && s0[1..] == s1;
    assert s1[0] == '\\' && s1[1] == '\'' && s1[2..] == s3;
    assert s3[0] == '\'' && s3[1..] == tail;
    assert Lex(s0, Single, cur, words) == Lex(s1, Unquoted, cur, words);
    assert Lex(s1, Unquoted, cur, words) == Lex(s3, Unquoted, cur + ['\''], words);
  }

  /** A quoted argument reads as one word. */
  lemma LexQuoted(a: string, rest: string, words: seq<string>)
    requires NulFree(a)
    ensures Lex(Quote(a) + rest, Between, "", words) == Lex(rest, Unquoted, a, words)
  {
    var body := EscapeQuotes(a) + ("'" + rest);
    assert Quote(a) + rest == "'" + body;
    assert ("'" + body)[0] == '\'' && ("'" + body)[1..] == body;
    LexEscaped(a, "'" + rest, "", words);
    assert "" + a == a;
    assert ("'" + rest)[0] == '\'' && ("'" + rest)[1..] == rest;
  }

  lemma {:induction false} LexJoined(args: seq<string>, words: seq<string>)
    requires |args| > 0 && forall i :: 0 <= i < |args| ==> NulFree(args[i])
    ensures Lex(JoinQuoted(args), Between, "", words) == Some(words + args)
    decreases |args|
  {
    if |args| == 1 {
      LexQuoted(args[0], "", words);
      assert Quote(args[0]) + "" == Quote(args[0]);
      assert args == [args[0]];
    } else {
      var rest := " " + JoinQuoted(args[1..]);
      assert JoinQuoted(args) == Quote(args[0]) + rest;
      LexQuoted(args[0], rest, words);
      assert rest[0] == ' ' && rest[1..] == JoinQuoted(args[1..]);
      LexJoined(args[1..], words + [args[0]]);
      assert words + [args[0]] + args[1..] == words + args;
    }
  }

  /** Splitting the space-joined quoted arguments gives exactly the arguments, for every list of NUL-free
      strings. */
  lemma QuoteRoundTrip(args: seq<string>)
    requires forall i :: 0 <= i < |args| ==> NulFree(args[i])
    ensures Split(JoinQuoted(args)) == Some(args)
  {
    if |args| > 0 {
      LexJoined(args, []);
      assert [] + args == args;
    }
  }

  /** A text that splits into words, followed by a blank, leaves the splitter between words. */
  lemma {:induction false} LexPrefix(s: string, rest: string, mode: Mode, cur: string, words: seq<string>)
    requires Lex(s, mode, cur, words).Some?
    ensures Lex(s + " " + rest, mode, cur, words) == Lex(rest, Between, "", Lex(s, mode, cur, words).value)
    decreases |s|
  {
    var t := s + " " + rest;
    if s == "" {
      assert t == " " + rest;
      assert t[0] == ' ' && t[1..] == rest;
      return;
    }
    assert t[0] == s[0] && t[1..] == s[1..] + " " + rest;
    assert |s| >= 2 ==> t[1] == s[1] && t[2..] == s[2..] + " " + rest;
    match mode {
      case Single =>
        if s[0] == '\'' { LexPrefix(s[1..], rest, Unquoted, cur, words); }
        else { LexPrefix(s[1..], rest, Single, cur + [s[0]], words); }
      case Double =>
        if s[0] == '"' { LexPrefix(s[1..], rest, Unquoted, cur, words); }
        else if s[0] == '\\' && |s| >= 2 && s[1] == '\n' { LexPrefix(s[2..], rest, Double, cur, words); }
        else if s[0] == '\\' && |s| >= 2 && IsDoubleEscapable(s[1]) {
          LexPrefix(s[2..], rest, Double, cur + [s[1]], words);
        }
        else { LexPrefix(s[1..], rest, Double, cur + [s[0]], words); }
      case _ =>
        if IsBlank(s[0]) { LexPrefix(s[1..], rest, Between, "", if mode.Between? then words else words + [cur]); }
        else if s[0] == '\'' { LexPrefix(s[1..], rest, Single, cur, words); }
        else if s[0] == '"' { LexPrefix(s[1..], rest, Double, cur, words); }
        else if s[0] == '\\' {
          if s[1] == '\n' { LexPrefix(s[2..], rest, mode, cur, words); }
          else { LexPrefix(s[2..], rest, Unquoted, cur + [s[1]], words); }
        }
        else { LexPrefix(s[1..], rest, Unquoted, cur + [s[0]], words); }
    }
  }

  /** The command line keeps the words of the command and adds exactly the arguments. */
  lemma CommandLineRoundTrip(command: string, args: seq<string>)
    requires Split(command).Some? && forall i :: 0 <= i < |args| ==> NulFree(args[i])
    ensures Split(CommandLine(command, args)) == Some(Split(command).value + args)
  {
    var words := Split(command).value;
    if |args| > 0 {
      LexPrefix(command, JoinQuoted(args), Between, "", []);
      LexJoined(args, words);
    } else {
      assert words + args == words;
    }
  }

  // ------------------------------------------------ NUL

  lemma {:induction false} LexNul(a: string, rest: string, cur: string, words: seq<string>)
    requires !NulFree(a)
    ensures Lex(EscapeQuotes(a) + rest, Single, cur, words) == None
    decreases |a|
  {
    var tail := EscapeQuotes(a[1..]) + rest;
    if a[0] == '\0' {
      assert EscapeQuotes(a) + rest == [a[0]] + tail;
    } else {
      assert !NulFree(a[1..]);
      LexNul(a[1..], rest, cur + [a[0]], words);
      if a[0] == '\'' {
        assert EscapeQuotes(a) + rest == "'\\''" + tail;
        LexQuoteInside(tail, cur, words);
      } else {
        assert EscapeQuotes(a) + rest == [a[0]] + tail;
        assert ([a[0]] + tail)[1..] == tail;
      }
    }
  }

  /** Quoting works for exactly the strings a shell word can hold. */
  lemma QuoteExact(a: string)
    ensures Split(Quote(a)) == Some([a]) <==> NulFree(a)
  {
    if NulFree(a) {
      QuoteRoundTrip([a]);
    } else {
      var body := EscapeQuotes(a) + "'";
      assert Quote(a) == "'" + body;
      assert ("'" + body)[0] == '\'' && ("'" + body)[1..] == body;
      LexNul(a, "'", "", []);
    }
  }
}
