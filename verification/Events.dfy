/** The audit event and its reconstructed command line (internal/event/event.go), with the decoder that shows
    that the line loses nothing. */
module Events {
  import opened Text

  datatype Source = Source(ip: string, port: string)

  /** `timestamp` is in nanoseconds since the epoch. */
  datatype Event = Event(timestamp: int, db: int, source: Source, command: string, subcommand: string,
                         args: seq<string>)

  function FullCommand(e: Event): string {
    if e.subcommand == "" then e.command else e.command + " " + e.subcommand
  }

  // ---- conditional quoting ----

  predicate NeedsQuotes(a: string) {
    exists i | 0 <= i < |a| :: a[i] in " \t\r\n\""
  }

  function Escaped(a: string): string {
    if a == "" then ""
    else (if a[0] == '"' || a[0] == '\\' then ['\\', a[0]] else [a[0]]) + Escaped(a[1..])
  }

  function QuoteArg(a: string): string {
    if NeedsQuotes(a) then "\"" + Escaped(a) + "\"" else a
  }

  function ArgsText(args: seq<string>): string {
    if args == [] then "" else " " + QuoteArg(args[0]) + ArgsText(args[1..])
  }

  function CommandText(command: string, args: seq<string>): string {
    command + ArgsText(args)
  }

  // Escaping never shortens.
  lemma {:induction false} EscapedLength(a: string)
    ensures |Escaped(a)| >= |a|
    decreases |a|
  {
    if a != "" {
      EscapedLength(a[1..]);
    }
  }

  /** An argument stands as it is exactly when it holds no blank, tab, line terminator or quote. */
  lemma QuotedExactly(a: string)
    ensures QuoteArg(a) == a <==>
            forall c | c in a :: c != ' ' && c != '\t' && c != '\r' && c != '\n' && c != '"'
    ensures QuoteArg(a) != a ==> QuoteArg(a)[0] == '"' && QuoteArg(a)[|QuoteArg(a)| - 1] == '"'
  {
    EscapedLength(a);
    var special := " \t\r\n\"";
    assert special[0] == ' ' && special[1] == '\t' && special[2] == '\r' && special[3] == '\n' && special[4] == '"';
    if NeedsQuotes(a) {
      var i :| 0 <= i < |a| && a[i] in special;
      assert |QuoteArg(a)| == |Escaped(a)| + 2;
      assert a[i] in a;
    } else {
      forall c | c in a
        ensures c !in special
      {
        var i :| 0 <= i < |a| && a[i] == c;
      }
    }
  }

  lemma EscapedSnoc(a: string, c: char)
    ensures Escaped(a + [c]) == Escaped(a) + (if c == '"' || c == '\\' then ['\\', c] else [c])
  {
    if a != "" {
      assert (a + [c])[1..] == a[1..] + [c];
      EscapedSnoc(a[1..], c);
    }
  }

  lemma ArgsTextSnoc(args: seq<string>, a: string)
    ensures ArgsText(args + [a]) == ArgsText(args) + (" " + QuoteArg(a))
  {
    if args == [] {
      assert args + [a] == [a] && [a][1..] == [];
    } else {
      assert (args + [a])[1..] == args[1..] + [a];
      ArgsTextSnoc(args[1..], a);
    }
  }

  lemma NoText()
    ensures Escaped("") == "" && ArgsText([]) == ""
  {
  }

  lemma QuotedWord(before: string, text: string)
    ensures before + " " + "\"" + text + "\"" == before + (" " + ("\"" + text + "\""))
  {
  }

  method CommandLine(e: Event) returns (line: string)
    ensures line == CommandText(e.command, e.args)
  {
    hide NeedsQuotes, Escaped, ArgsText;
    NoText();
    var sb := e.command;
    for k := 0 to |e.args|
      invariant sb == e.command + ArgsText(e.args[..k])
    {
      var a := e.args[k];
      ghost var before := sb;
      ArgsTextSnoc(e.args[..k], a);
      assert e.args[..k + 1] == e.args[..k] + [a];
      sb := sb + " ";
      if NeedsQuotes(a) {
        sb := sb + "\"";
        ghost var start := sb;
        for i := 0 to |a|
          invariant sb == start + Escaped(a[..i])
        {
          var c := a[i];
          EscapedSnoc(a[..i], c);
          assert a[..i + 1] == a[..i] + [c];
          if c == '"' || c == '\\' {
            sb := sb + "\\";
          }
          sb := sb + [c];
        }
        assert a[..|a|] == a;
        sb := sb + "\"";
        QuotedWord(before, Escaped(a));
      } else {
        sb := sb + a;
        Assoc(before, " ", a);
      }
      Assoc(e.command, ArgsText(e.args[..k]), " " + QuoteArg(a));
    }
    assert e.args[..|e.args|] == e.args;
    return sb;
  }

  // ---- the decoder ----

  /** Reads up to the closing quote, dropping one backslash before the character it protects. */
  function Unquote(s: string): (r: Option<(string, string)>)
    ensures r.Some? ==> |r.value.1| < |s|
  {
    if s == "" then None
    else if s[0] == '"' then Some(("", s[1..]))
    else
      var escape := s[0] == '\\' && |s| > 1;
      match Unquote(s[if escape then 2 else 1..])
      case None => None
      case Some((value, rest)) => Some(([s[if escape then 1 else 0]] + value, rest))
  }

  function WordEnd(s: string): (i: nat)
    ensures i <= |s|
  {
    var i := IndexByte(s, ' ');
    if i == -1 then |s| else i
  }

  function DecodeArgs(s: string): Option<seq<string>>
    decreases |s|
  {
    if s == "" then Some([])
    else if s[0] != ' ' then None
    else if |s| > 1 && s[1] == '"' then
      match Unquote(s[2..])
      case None => None
      case Some((value, rest)) => PrependWord(value, DecodeArgs(rest))
    else
      var end := WordEnd(s[1..]);
      PrependWord(s[1..][..end], DecodeArgs(s[1..][end..]))
  }

  function PrependWord(word: string, r: Option<seq<string>>): Option<seq<string>> {
    match r
    case None => None
    case Some(words) => Some([word] + words)
  }

  function Decode(line: string): Option<(string, seq<string>)> {
    var end := WordEnd(line);
    match DecodeArgs(line[end..])
    case None => None
    case Some(args) => Some((line[..end], args))
  }

  lemma {:induction false} UnquoteEscaped(a: string, rest: string)
    ensures Unquote(Escaped(a) + "\"" + rest) == Some((a, rest))
    decreases |a|
  {
    var s := Escaped(a) + "\"" + rest;
    if a != "" {
      var width := if a[0] == '"' || a[0] == '\\' then 2 else 1;
      assert s[width..] == Escaped(a[1..]) + "\"" + rest;
      UnquoteEscaped(a[1..], rest);
      assert a == [a[0]] + a[1..];
    }
  }

  lemma WordEndIs(word: string, rest: string)
    requires ' ' !in word && (rest == "" || rest[0] == ' ')
    ensures WordEnd(word + rest) == |word|
    ensures (word + rest)[..|word|] == word && (word + rest)[|word|..] == rest
  {
    if rest == "" {
      assert word + rest == word;
    } else {
      assert (word + rest)[..|word|] == word;
      IndexByteIs(word + rest, ' ', |word|);
    }
  }

  lemma DecodeQuotedWord(a: string, rest: string)
    ensures DecodeArgs(" " + ("\"" + Escaped(a) + "\"") + rest) == PrependWord(a, DecodeArgs(rest))
  {
    var s := " " + ("\"" + Escaped(a) + "\"") + rest;
    assert s[2..] == Escaped(a) + "\"" + rest;
    UnquoteEscaped(a, rest);
  }

  lemma DecodePlainWord(a: string, rest: string)
    requires !NeedsQuotes(a) && (rest == "" || rest[0] == ' ')
    ensures DecodeArgs(" " + a + rest) == PrependWord(a, DecodeArgs(rest))
  {
    var s := " " + a + rest;
    assert s[1..] == a + rest;
    assert ' ' !in a && '"' !in a;
    assert |s| > 1 ==> s[1] == (a + rest)[0];
    WordEndIs(a, rest);
  }

  lemma NothingToDecode()
    ensures DecodeArgs("") == Some([])
  {
  }

  lemma {:induction false} DecodeArgsText(args: seq<string>)
    ensures DecodeArgs(ArgsText(args)) == Some(args)
    decreases |args|
  {
    hide DecodeArgs, NeedsQuotes, Escaped;
    if args == [] {
      NothingToDecode();
    } else {
      var rest := ArgsText(args[1..]);
      DecodeArgsText(args[1..]);
      assert args == [args[0]] + args[1..];
      if NeedsQuotes(args[0]) {
        DecodeQuotedWord(args[0], rest);
      } else {
        DecodePlainWord(args[0], rest);
      }
    }
  }

  /** This decoder recovers the command and the argument list exactly when the command holds no space. */
  lemma CommandLineDecodes(command: string, args: seq<string>)
    ensures Decode(CommandText(command, args)) == Some((command, args)) <==> ' ' !in command
  {
    var line := CommandText(command, args);
    if ' ' !in command {
      WordEndIs(command, ArgsText(args));
      DecodeArgsText(args);
    } else {
      var end := WordEnd(line);
      var i := IndexByte(command, ' ');
      assert line[i] == ' ' && line[i] in line;
      assert ' ' !in line[..end];
    }
  }

  lemma CommandLineInjective(c1: string, a1: seq<string>, c2: string, a2: seq<string>)
    requires ' ' !in c1 && ' ' !in c2
    requires CommandText(c1, a1) == CommandText(c2, a2)
    ensures c1 == c2 && a1 == a2
  {
    CommandLineDecodes(c1, a1);
    CommandLineDecodes(c2, a2);
  }

  lemma {:induction false} ArgsTextAppend(a: seq<string>, b: seq<string>)
    ensures ArgsText(a + b) == ArgsText(a) + ArgsText(b)
    decreases |a|
  {
    hide QuoteArg;
    if a == [] {
      assert a + b == b;
    } else {
      assert (a + b)[1..] == a[1..] + b;
      ArgsTextAppend(a[1..], b);
      Assoc(" " + QuoteArg(a[0]), ArgsText(a[1..]), ArgsText(b));
    }
  }

  /** Moving any number of arguments into the command gives another pair with the same line. */
  lemma LongerCommandSharesTheLine(command: string, args: seq<string>, k: nat)
    requires 1 <= k <= |args|
    ensures var longer := command + ArgsText(args[..k]);
            CommandText(longer, args[k..]) == CommandText(command, args) && ' ' in longer && longer != command
  {
    assert args == args[..k] + args[k..];
    ArgsTextAppend(args[..k], args[k..]);
    Assoc(command, ArgsText(args[..k]), ArgsText(args[k..]));
    var text := ArgsText(args[..k]);
    assert text[0] == ' ';
    assert (command + text)[|command|] == ' ';
    assert |command + text| > |command|;
  }

  /** The text is what some argument list looks like, which re-encoding what the decoder reads decides. */
  predicate IsArgsText(s: string) {
    DecodeArgs(s).Some? && ArgsText(DecodeArgs(s).value) == s
  }

  lemma SpaceBeforeArgs(command: string, args: seq<string>)
    requires args != []
    ensures var line := CommandText(command, args);
            |command| < |line| && line[|command|] == ' ' && IsArgsText(line[|command|..])
  {
    hide DecodeArgs;
    DecodeArgsText(args);
    assert CommandText(command, args)[|command|..] == ArgsText(args);
    assert CommandText(command, args)[|command|] == ArgsText(args)[0];
  }

  /** Among all commands, spaces or not, only one pair has this line exactly when there are no arguments and no part of
      the command from a space on looks like arguments. */
  lemma LineIsUniqueExactly(command: string, args: seq<string>)
    ensures (forall c, a :: CommandText(c, a) == CommandText(command, args) ==> c == command && a == args) <==>
            args == [] && forall i | 0 <= i < |command| && command[i] == ' ' :: !IsArgsText(command[i..])
  {
    hide DecodeArgs, ArgsText;
    if args != [] {
      LongerCommandSharesTheLine(command, args, 1);
    } else if i :| 0 <= i < |command| && command[i] == ' ' && IsArgsText(command[i..]) {
      var c, a := command[..i], DecodeArgs(command[i..]).value;
      assert c + command[i..] == command;
      NoText();
      assert CommandText(c, a) == CommandText(command, args) && c != command;
    } else {
      NoText();
      forall c, a | CommandText(c, a) == CommandText(command, args)
        ensures c == command && a == args
      {
        assert command + "" == command && c + "" == c;
        if a != [] {
          SpaceBeforeArgs(c, a);
        }
      }
    }
  }

  /** The full command is the line of the command with its subcommand as the only argument, if that needs no quotes. */
  lemma FullCommandIsALine(e: Event)
    requires forall c | c in e.subcommand :: c != ' ' && c != '\t' && c != '\r' && c != '\n' && c != '"'
    ensures FullCommand(e) == CommandText(e.command, if e.subcommand == "" then [] else [e.subcommand])
  {
    QuotedExactly(e.subcommand);
    NoText();
    assert e.command + "" == e.command;
    assert [e.subcommand][1..] == [];
    assert ArgsText([e.subcommand]) == " " + e.subcommand + "" == " " + e.subcommand;
    Assoc(e.command, " ", e.subcommand);
  }

  lemma FullCommandInjective(e1: Event, e2: Event)
    requires ' ' !in e1.command && ' ' !in e2.command && FullCommand(e1) == FullCommand(e2)
    ensures e1.command == e2.command && e1.subcommand == e2.subcommand
  {
    var rest1 := if e1.subcommand == "" then "" else " " + e1.subcommand;
    var rest2 := if e2.subcommand == "" then "" else " " + e2.subcommand;
    assert FullCommand(e1) == e1.command + rest1 && FullCommand(e2) == e2.command + rest2;
    WordEndIs(e1.command, rest1);
    WordEndIs(e2.command, rest2);
    assert rest1 == rest2;
    assert rest1 != "" ==> rest1[1..] == e1.subcommand && rest2[1..] == e2.subcommand;
  }
}
