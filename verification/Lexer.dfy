/** The argument lexer of a MONITOR line (internal/monitor/parser.go, parseQuotedArgs), the grammar of what it
    accepts, and sdscatrepr(), the Redis printer it inverts. */
module Lexer {
  import opened Text

  datatype LexError = UnexpectedCharacter | Unterminated

  type Lexed = Result<seq<string>, LexError>

  // ---- specification, by the text that is left ----

  predicate IsHex(c: char) {
    '0' <= c <= '9' || 'a' <= c <= 'f' || 'A' <= c <= 'F'
  }

  function HexValue(c: char): (v: nat)
    requires IsHex(c)
    ensures v < 16
  {
    if c <= '9' then (c as int) - ('0' as int)
    else if c <= 'F' then (c as int) - ('A' as int) + 10
    else (c as int) - ('a' as int) + 10
  }

  function Unescape(c: char): char {
    match c
    case 'n' => '\n'
    case 'r' => '\r'
    case 't' => '\t'
    case 'a' => '\U{07}'
    case 'b' => '\U{08}'
    case _ => c
  }

  /** One unit inside a quoted string: the character it stands for and how much text it takes.
      A backslash that is the last character, and "\x" without two hexadecimal digits, are not errors. */
  function Unit(s: string): (r: (char, nat))
    requires s != ""
    ensures 1 <= r.1 <= |s|
  {
    if s[0] != '\\' || |s| == 1 then (s[0], 1)
    else if s[1] == 'x' && |s| >= 4 && IsHex(s[2]) && IsHex(s[3]) then
      ((16 * HexValue(s[2]) + HexValue(s[3])) as char, 4)
    else (Unescape(s[1]), 2)
  }

  /** The value of a quoted string and the text after it; `s` starts after the opening quote. */
  function Quoted(s: string): (r: Option<(string, string)>)
    ensures r.Some? ==> |r.value.1| < |s|
  {
    if s == "" then None
    else if s[0] == '"' then Some(("", s[1..]))
    else
      var (c, width) := Unit(s);
      match Quoted(s[width..])
      case None => None
      case Some((value, rest)) => Some(([c] + value, rest))
  }

  function Prepend(args: seq<string>, r: Lexed): Lexed {
    match r
    case Ok(more) => Ok(args + more)
    case Err(e) => Err(e)
  }

  function Args(s: string): Lexed
    decreases |s|
  {
    if s == "" then Ok([])
    else if Blank(s[0]) then Args(s[1..])
    else if s[0] == '"' then Closing("", s[1..])
    else Err(UnexpectedCharacter)
  }

  // Lexing on from inside a quoted string of which `value` has been read.
  function Closing(value: string, s: string): Lexed
    decreases |s|
  {
    match Quoted(s)
    case None => Err(Unterminated)
    case Some((more, rest)) => Prepend([value + more], Args(rest))
  }

  // ---- the loop ----

  lemma PrependTwice(a: seq<string>, b: seq<string>, r: Lexed)
    ensures Prepend(a, Prepend(b, r)) == Prepend(a + b, r)
  {
    if r.Ok? {
      assert a + (b + r.value) == (a + b) + r.value;
    }
  }

  lemma ClosingUnit(value: string, s: string)
    requires s != "" && s[0] != '"'
    ensures Closing(value, s) == Closing(value + [Unit(s).0], s[Unit(s).1..])
  {
    var (c, width) := Unit(s);
    if Quoted(s[width..]).Some? {
      var more := Quoted(s[width..]).value.0;
      assert value + ([c] + more) == (value + [c]) + more;
    }
  }

  lemma ClosingQuote(value: string, s: string)
    requires s != "" && s[0] == '"'
    ensures Closing(value, s) == Prepend([value], Args(s[1..]))
  {
    assert value + "" == value;
  }

  lemma ClosingAtEnd(value: string)
    ensures Closing(value, "") == Err(Unterminated)
  {
  }

  method ParseQuotedArgs(s: string) returns (r: Lexed)
    ensures r == Args(s)
  {
    hide Quoted, Closing;
    var args: seq<string> := [];
    var sb := "";
    var inQuote := false;
    var i := 0;
    assert s[0..] == s && (Args(s).Ok? ==> [] + Args(s).value == Args(s).value);
    while i < |s|
      invariant i <= |s|
      invariant Args(s) == Prepend(args, if inQuote then Closing(sb, s[i..]) else Args(s[i..]))
    {
      var c := s[i];
      ghost var t := s[i..];
      assert t[1..] == s[i + 1..];
      if !inQuote {
        if c == ' ' || c == '\t' {
          i := i + 1;
        } else if c == '"' {
          inQuote := true;
          sb := "";
          i := i + 1;
        } else {
          return Err(UnexpectedCharacter);
        }
        continue;
      }
      if c == '\\' && i + 1 < |s| {
        ClosingUnit(sb, t);
        i := i + 1;
        var next := s[i];
        assert t[1] == next;
        if next == 'n' {
          sb := sb + "\n";
        } else if next == 'r' {
          sb := sb + "\r";
        } else if next == 't' {
          sb := sb + "\t";
        } else if next == 'a' {
          sb := sb + "\U{07}";
        } else if next == 'b' {
          sb := sb + "\U{08}";
        } else if next == 'x' {
          if i + 2 < |s| {
            assert t[2] == s[i + 1] && t[3] == s[i + 2];
            if IsHex(s[i + 1]) && IsHex(s[i + 2]) {
              sb := sb + [(16 * HexValue(s[i + 1]) + HexValue(s[i + 2])) as char];
              i := i + 3;
              assert t[4..] == s[i..];
              continue;
            }
          }
          sb := sb + [next];
        } else {
          sb := sb + [next];
        }
        i := i + 1;
        assert t[2..] == s[i..];
        continue;
      }
      if c == '"' {
        ClosingQuote(sb, t);
        PrependTwice(args, [sb], Args(s[i + 1..]));
        args := args + [sb];
        inQuote := false;
        i := i + 1;
        continue;
      }
      ClosingUnit(sb, t);
      sb := sb + [c];
      i := i + 1;
    }
    assert s[i..] == "";
    if inQuote {
      ClosingAtEnd(sb);
      return Err(Unterminated);
    }
    assert args + [] == args;
    return Ok(args);
  }

  // ---- the language: (blank* quoted-string)* blank* ----

  datatype Piece = Plain(c: char) | Escaped(c: char) | Hex(hi: char, lo: char)

  datatype Token = Token(blanks: string, pieces: seq<Piece>)

  function PieceText(p: Piece): string {
    match p
    case Plain(c) => [c]
    case Escaped(c) => ['\\', c]
    case Hex(hi, lo) => ['\\', 'x', hi, lo]
  }

  function Body(pieces: seq<Piece>): string {
    if pieces == [] then "" else PieceText(pieces[0]) + Body(pieces[1..])
  }

  function PieceValue(p: Piece): char
    requires p.Hex? ==> IsHex(p.hi) && IsHex(p.lo)
  {
    match p
    case Plain(c) => c
    case Escaped(c) => Unescape(c)
    case Hex(hi, lo) => (16 * HexValue(hi) + HexValue(lo)) as char
  }

  /** A piece read in one go: an escaped 'x' must not be followed by two hexadecimal digits. */
  predicate WellFormed(pieces: seq<Piece>) {
    pieces != [] ==>
      && WellFormed(pieces[1..])
      && match pieces[0]
         case Plain(c) => c != '"' && c != '\\'
         case Escaped(c) =>
           var after := Body(pieces[1..]);
           c == 'x' && |after| >= 2 ==> !(IsHex(after[0]) && IsHex(after[1]))
         case Hex(hi, lo) => IsHex(hi) && IsHex(lo)
  }

  function PiecesValue(pieces: seq<Piece>): string
    requires WellFormed(pieces)
  {
    if pieces == [] then "" else [PieceValue(pieces[0])] + PiecesValue(pieces[1..])
  }

  predicate AllBlank(s: string) {
    forall i | 0 <= i < |s| :: s[i] == ' ' || s[i] == '\t'
  }

  predicate WellFormedTokens(tokens: seq<Token>) {
    forall i | 0 <= i < |tokens| :: AllBlank(tokens[i].blanks) && WellFormed(tokens[i].pieces)
  }

  function QuotedText(pieces: seq<Piece>): string {
    "\"" + Body(pieces) + "\""
  }

  function Render(tokens: seq<Token>, tail: string): string {
    if tokens == [] then tail
    else tokens[0].blanks + (QuotedText(tokens[0].pieces) + Render(tokens[1..], tail))
  }

  function Values(tokens: seq<Token>): (r: seq<string>)
    requires WellFormedTokens(tokens)
    ensures |r| == |tokens|
    ensures forall i | 0 <= i < |tokens| :: r[i] == PiecesValue(tokens[i].pieces)
  {
    if tokens == [] then [] else [PiecesValue(tokens[0].pieces)] + Values(tokens[1..])
  }

  ghost predicate Derives(tokens: seq<Token>, tail: string, s: string, args: seq<string>) {
    WellFormedTokens(tokens) && AllBlank(tail) && s == Render(tokens, tail) && args == Values(tokens)
  }

  lemma DerivesCons(first: Token, tokens: seq<Token>, tail: string, s: string, args: seq<string>)
    requires Derives(tokens, tail, s, args)
    requires AllBlank(first.blanks) && WellFormed(first.pieces)
    ensures Derives([first] + tokens, tail,
                    first.blanks + (QuotedText(first.pieces) + s), [PiecesValue(first.pieces)] + args)
  {
    assert ([first] + tokens)[1..] == tokens;
  }

  lemma {:induction false} UnitOfPiece(pieces: seq<Piece>, rest: string)
    requires pieces != [] && WellFormed(pieces)
    ensures var s := Body(pieces) + "\"" + rest;
            && s[0] != '"'
            && Unit(s) == (PieceValue(pieces[0]), |PieceText(pieces[0])|)
            && s[|PieceText(pieces[0])|..] == Body(pieces[1..]) + "\"" + rest
  {
    var s := Body(pieces) + "\"" + rest;
    var after := Body(pieces[1..]) + "\"" + rest;
    assert s == PieceText(pieces[0]) + after;
    assert |after| >= 1 && (Body(pieces[1..]) == "" ==> after[0] == '"');
    assert |Body(pieces[1..])| == 1 ==> after[1] == '"';
    if pieces[0].Escaped? {
      assert s[1] == pieces[0].c;
      assert |s| >= 4 ==> s[2] == after[0] && s[3] == after[1];
    } else if pieces[0].Hex? {
      assert s[1] == 'x' && s[2] == pieces[0].hi && s[3] == pieces[0].lo;
    }
  }

  lemma {:induction false} QuotedOfPieces(pieces: seq<Piece>, rest: string)
    requires WellFormed(pieces)
    ensures Quoted(Body(pieces) + "\"" + rest) == Some((PiecesValue(pieces), rest))
    decreases |pieces|
  {
    var s := Body(pieces) + "\"" + rest;
    if pieces == [] {
      assert s == "\"" + rest;
    } else {
      UnitOfPiece(pieces, rest);
      QuotedOfPieces(pieces[1..], rest);
    }
  }

  lemma ArgsPastBlanks(blanks: string, s: string)
    requires AllBlank(blanks)
    ensures Args(blanks + s) == Args(s)
  {
    if blanks == "" {
      assert blanks + s == s;
    } else {
      assert (blanks + s)[1..] == blanks[1..] + s;
      ArgsPastBlanks(blanks[1..], s);
    }
  }

  lemma NoArgs()
    ensures Args("") == Ok([])
  {
  }

  lemma ArgsOfToken(pieces: seq<Piece>, rest: string)
    requires WellFormed(pieces)
    ensures Args(QuotedText(pieces) + rest) == Prepend([PiecesValue(pieces)], Args(rest))
  {
    hide WellFormed, Body, PiecesValue, Quoted;
    var quoted := QuotedText(pieces) + rest;
    assert quoted[1..] == Body(pieces) + "\"" + rest;
    QuotedOfPieces(pieces, rest);
    assert "" + PiecesValue(pieces) == PiecesValue(pieces);
  }

  lemma {:induction false} Completeness(tokens: seq<Token>, tail: string)
    requires WellFormedTokens(tokens) && AllBlank(tail)
    ensures Args(Render(tokens, tail)) == Ok(Values(tokens))
    decreases |tokens|
  {
    hide AllBlank, QuotedText, WellFormed, PiecesValue, Args;
    if tokens == [] {
      ArgsPastBlanks(tail, "");
      NoArgs();
      assert tail + "" == tail;
    } else {
      var rest := Render(tokens[1..], tail);
      ArgsPastBlanks(tokens[0].blanks, QuotedText(tokens[0].pieces) + rest);
      ArgsOfToken(tokens[0].pieces, rest);
      Completeness(tokens[1..], tail);
    }
  }

  function PieceOfUnit(s: string): (p: Piece)
    requires s != "" && s[0] != '"' && (s[0] == '\\' ==> |s| > 1)
    ensures p.Hex? ==> IsHex(p.hi) && IsHex(p.lo)
    ensures p.Plain? ==> p.c != '"' && p.c != '\\'
    ensures p == Escaped('x') && |s| >= 4 ==> !(IsHex(s[2]) && IsHex(s[3]))
    ensures Unit(s) == (PieceValue(p), |PieceText(p)|)
    ensures PieceText(p) == s[..Unit(s).1]
  {
    match Unit(s).1
    case 1 => Plain(s[0])
    case 2 => Escaped(s[1])
    case _ => Hex(s[2], s[3])
  }

  lemma WellFormedCons(piece: Piece, more: seq<Piece>, rest: string, s: string)
    requires s != "" && s[0] != '"' && (s[0] == '\\' ==> |s| > 1) && piece == PieceOfUnit(s)
    requires WellFormed(more) && s[Unit(s).1..] == Body(more) + "\"" + rest
    ensures WellFormed([piece] + more)
    ensures PiecesValue([piece] + more) == [Unit(s).0] + PiecesValue(more)
    ensures s == Body([piece] + more) + "\"" + rest
  {
    var after := Body(more);
    var text := PieceText(piece);
    assert text + (after + "\"" + rest) == (text + after) + "\"" + rest;
    assert s == s[..|text|] + s[|text|..];
    assert ([piece] + more)[1..] == more;
    if |after| >= 2 && Unit(s).1 == 2 {
      assert s[2] == s[2..][0] == after[0];
      assert s[3] == s[2..][1] == after[1];
    }
  }

  lemma {:induction false} PiecesOf(s: string) returns (pieces: seq<Piece>)
    requires Quoted(s).Some?
    ensures WellFormed(pieces)
    ensures s == Body(pieces) + "\"" + Quoted(s).value.1
    ensures Quoted(s).value.0 == PiecesValue(pieces)
    decreases |s|
  {
    if s[0] == '"' {
      return [];
    }
    var width := Unit(s).1;
    var more := PiecesOf(s[width..]);
    var rest := Quoted(s).value.1;
    WellFormedCons(PieceOfUnit(s), more, rest, s);
    pieces := [PieceOfUnit(s)] + more;
  }

  lemma BlankBefore(c: char, tokens: seq<Token>, tail: string, s: string, args: seq<string>)
    returns (tokens': seq<Token>, tail': string)
    requires Blank(c) && Derives(tokens, tail, s, args)
    ensures Derives(tokens', tail', [c] + s, args)
  {
    hide QuotedText, WellFormed, PiecesValue;
    if tokens == [] {
      tokens', tail' := [], [c] + tail;
    } else {
      var first := Token([c] + tokens[0].blanks, tokens[0].pieces);
      var rest := Render(tokens[1..], tail);
      tokens', tail' := [first] + tokens[1..], tail;
      DerivesCons(first, tokens[1..], tail, rest, Values(tokens[1..]));
      assert [c] + s == first.blanks + (QuotedText(first.pieces) + rest);
    }
  }

  lemma QuoteBefore(s: string, more: seq<Token>, tail: string, args: seq<string>) returns (tokens: seq<Token>)
    requires s != "" && s[0] == '"' && Quoted(s[1..]).Some?
    requires Derives(more, tail, Quoted(s[1..]).value.1, args)
    ensures Derives(tokens, tail, s, [Quoted(s[1..]).value.0] + args)
  {
    hide Derives, WellFormed, PiecesValue, Body, Quoted;
    var rest := Quoted(s[1..]).value.1;
    var pieces := PiecesOf(s[1..]);
    DerivesCons(Token("", pieces), more, tail, rest, args);
    tokens := [Token("", pieces)] + more;
    assert s == "\"" + s[1..];
    assert "" + (QuotedText(pieces) + rest) == "\"" + (Body(pieces) + "\"" + rest);
  }

  lemma {:induction false} Soundness(s: string) returns (tokens: seq<Token>, tail: string)
    requires Args(s).Ok?
    ensures Derives(tokens, tail, s, Args(s).value)
    decreases |s|
  {
    if s == "" {
      return [], "";
    }
    var more;
    if Blank(s[0]) {
      more, tail := Soundness(s[1..]);
      tokens, tail := BlankBefore(s[0], more, tail, s[1..], Args(s).value);
      assert [s[0]] + s[1..] == s;
    } else {
      var (value, rest) := Quoted(s[1..]).value;
      assert "" + value == value;
      more, tail := Soundness(rest);
      tokens := QuoteBefore(s, more, tail, Args(rest).value);
    }
  }

  /** The lexer accepts exactly (blank* quoted-string)* blank*, and what it returns is the unescaping. */
  lemma LexerLanguage(s: string, args: seq<string>)
    ensures Args(s) == Ok(args) <==> exists tokens, tail :: Derives(tokens, tail, s, args)
  {
    if Args(s) == Ok(args) {
      var tokens, tail := Soundness(s);
    }
    forall tokens, tail | Derives(tokens, tail, s, args)
      ensures Args(s) == Ok(args)
    {
      Completeness(tokens, tail);
    }
  }

  // ---- the two errors ----

  // A unit is not changed by later text unless that text completes it.
  lemma UnitStable(s: string, t: string)
    requires s != "" && s != "\\"
    requires s[0] == '\\' && |s| < 4 && |s + t| >= 4 ==> !(IsHex((s + t)[2]) && IsHex((s + t)[3]))
    ensures Unit(s + t) == Unit(s)
  {
    hide Unescape, HexValue, IsHex;
    assert |s| >= 4 ==> (s + t)[2] == s[2] && (s + t)[3] == s[3];
  }

  lemma HexNeedsTwo(s: string)
    requires Quoted(s).Some? && s[0] == '\\'
    ensures |s| >= 3 && (|s| == 3 ==> s[2] == '"')
  {
    var rest := s[Unit(s).1..];
    assert Quoted(rest).Some?;
    assert |s| == 3 ==> rest == [s[2]] && [s[2]][1..] == "";
  }

  // What has been read of a closed string stays read, whatever follows.
  lemma {:induction false} QuotedStable(s: string, t: string)
    requires Quoted(s).Some?
    ensures Quoted(s + t) == Some((Quoted(s).value.0, Quoted(s).value.1 + t))
    decreases |s|
  {
    if s[0] == '"' {
      assert (s + t)[1..] == s[1..] + t;
    } else {
      hide IsHex, Unit;
      var width := Unit(s).1;
      assert Quoted(s[width..]).Some?;
      UnitStays(s, t);
      assert (s + t)[width..] == s[width..] + t;
      QuotedStable(s[width..], t);
    }
  }

  lemma UnitStays(s: string, t: string)
    requires Quoted(s).Some? && s[0] != '"'
    ensures Unit(s + t) == Unit(s)
  {
    if s[0] == '\\' {
      HexNeedsTwo(s);
      UnitStable(s, t);
    }
  }

  lemma QuotedStep(s: string)
    requires s != "" && s[0] != '"'
    ensures var later := Quoted(s[Unit(s).1..]);
            && (Quoted(s).Some? <==> later.Some?)
            && (later.Some? ==> Quoted(s).value.1 == later.value.1)
  {
    hide Unit;
  }

  lemma NoHex()
    ensures !IsHex('"') && !IsHex('\\')
  {
  }

  lemma ClosedAtOnce()
    ensures Quoted("\"") == Some(("", "")) && Quoted("\\\\\"").Some? && Quoted("\\\\\"").value.1 == ""
  {
    assert "\"" == "" + "\"" && "\\\\\""[2..] == "\"";
  }

  // An open string can be closed: by a quote, after a second backslash if the text ends in a lone one.
  lemma {:induction false} Closable(s: string) returns (t: string)
    requires Quoted(s) == None
    ensures t != "" && !IsHex(t[0]) && Quoted(s + t).Some? && Quoted(s + t).value.1 == ""
    decreases |s|
  {
    hide Quoted, Unit, IsHex;
    ClosedAtOnce();
    NoHex();
    if s == "" {
      t := "\"";
      assert s + t == t;
    } else if s == "\\" {
      t := "\\\"";
      assert s + t == "\\\\\"";
    } else {
      NotClosed(s);
      t := Closable(s[Unit(s).1..]);
      ClosedLater(s, t);
    }
  }

  lemma ClosedLater(s: string, t: string)
    requires s != "" && s[0] != '"' && s != "\\" && t != "" && !IsHex(t[0])
    requires var later := Quoted(s[Unit(s).1..] + t); later.Some? && later.value.1 == ""
    ensures Quoted(s + t).Some? && Quoted(s + t).value.1 == ""
  {
    hide Quoted, Unit, IsHex;
    assert |s| < 4 ==> (s + t)[|s|] == t[0];
    UnitStable(s, t);
    assert (s + t)[Unit(s).1..] == s[Unit(s).1..] + t;
    QuotedStep(s + t);
  }

  lemma NotClosed(s: string)
    requires Quoted(s) == None
    ensures s != "" ==> s[0] != '"' && Quoted(s[Unit(s).1..]) == None
  {
  }

  lemma {:induction false} UnexpectedStays(s: string, t: string)
    requires Args(s) == Err(UnexpectedCharacter)
    ensures Args(s + t) == Err(UnexpectedCharacter)
    decreases |s|
  {
    assert (s + t)[1..] == s[1..] + t;
    if Blank(s[0]) {
      UnexpectedStays(s[1..], t);
    } else if s[0] == '"' {
      QuotedStable(s[1..], t);
      UnexpectedStays(Quoted(s[1..]).value.1, t);
    }
  }

  lemma {:induction false} UnterminatedCompletes(s: string) returns (t: string)
    requires Args(s) == Err(Unterminated)
    ensures Args(s + t).Ok?
    decreases |s|
  {
    hide Quoted;
    NoArgs();
    if Blank(s[0]) {
      t := UnterminatedCompletes(s[1..]);
      assert (s + t)[1..] == s[1..] + t;
    } else if Quoted(s[1..]) == None {
      t := Closable(s[1..]);
      assert (s + t)[1..] == s[1..] + t;
      assert Args(s + t) == Closing("", s[1..] + t);
    } else {
      var rest := Quoted(s[1..]).value.1;
      t := UnterminatedCompletes(rest);
      QuotedStable(s[1..], t);
      assert (s + t)[1..] == s[1..] + t;
      assert Args(s + t) == Closing("", s[1..] + t);
    }
  }

  /** A text that is not accepted is unterminated exactly when more text could still complete it; otherwise it holds an
      unexpected character, and nothing mends that. */
  lemma ErrorsExactly(s: string)
    requires Args(s).Err?
    ensures Args(s) == Err(Unterminated) <==> exists t :: Args(s + t).Ok?
    ensures Args(s) == Err(UnexpectedCharacter) <==> forall t :: Args(s + t) == Err(UnexpectedCharacter)
  {
    match Args(s).error
    case Unterminated =>
      var t := UnterminatedCompletes(s);
      assert Args(s + t) != Err(UnexpectedCharacter);
    case UnexpectedCharacter =>
      forall t
        ensures Args(s + t) == Err(UnexpectedCharacter)
      {
        UnexpectedStays(s, t);
      }
  }

  /** The escapes, one by one: a backslash and any character but these five stands for the character. */
  lemma LoneEscape(c: char)
    ensures Args("\"\\" + [c] + "\"") ==
            Ok([[if c == 'n' then '\n' else if c == 'r' then '\r' else if c == 't' then '\t'
                 else if c == 'a' then 7 as char else if c == 'b' then 8 as char else c]])
  {
    var s, u, value := "\"\\" + [c] + "\"", ['\\', c, '"'], Unescape(c);
    assert s[1..] == u && u[2..] == "\"" && "\""[1..] == "";
    assert Unit(u) == (value, 2);
    assert Quoted(u[2..]) == Some(("", ""));
    assert [value] + "" == [value] && Quoted(u) == Some(([value], ""));
    assert "" + [value] == [value];
    NoArgs();
    assert Args(s) == Closing("", u) == Prepend([[value]], Ok([])) && [[value]] + [] == [[value]];
  }

  /** Hexadecimal digits of both cases, and their values. */
  lemma HexTable(c: char)
    ensures IsHex(c) <==> c in "0123456789abcdefABCDEF"
    ensures IsHex(c) ==> "0123456789abcdef"[HexValue(c)] == c || "0123456789ABCDEF"[HexValue(c)] == c
  {
    var digits := "0123456789abcdefABCDEF";
    assert digits[0] == '0' && digits[1] == '1' && digits[2] == '2' && digits[3] == '3' && digits[4] == '4';
    assert digits[5] == '5' && digits[6] == '6' && digits[7] == '7' && digits[8] == '8' && digits[9] == '9';
    assert digits[10] == 'a' && digits[11] == 'b' && digits[12] == 'c' && digits[13] == 'd' && digits[14] == 'e';
    assert digits[15] == 'f' && digits[16] == 'A' && digits[17] == 'B' && digits[18] == 'C' && digits[19] == 'D';
    assert digits[20] == 'E' && digits[21] == 'F';
  }

  // ---- sdscatrepr() ----

  function HexDigit(n: nat): (c: char)
    requires n < 16
    ensures IsHex(c) && HexValue(c) == n
  {
    if n < 10 then (('0' as int) + n) as char else (('a' as int) + n - 10) as char
  }

  function ReprPiece(c: byte): (p: Piece)
    ensures p.Hex? ==> IsHex(p.hi) && IsHex(p.lo)
    ensures PieceValue(p) == c
    ensures p.Plain? ==> c != '"' && c != '\\'
    ensures p.Escaped? ==> p.c != 'x'
    ensures forall d | d in PieceText(p) :: ' ' <= d <= '~'
  {
    if c == '\\' || c == '"' then Escaped(c)
    else if c == '\n' then Escaped('n')
    else if c == '\r' then Escaped('r')
    else if c == '\t' then Escaped('t')
    else if c == '\U{07}' then Escaped('a')
    else if c == '\U{08}' then Escaped('b')
    else if ' ' <= c <= '~' then Plain(c)
    else Hex(HexDigit(c as int / 16), HexDigit(c as int % 16))
  }

  function ReprPieces(arg: seq<byte>): (pieces: seq<Piece>)
    ensures WellFormed(pieces) && PiecesValue(pieces) == arg
    ensures forall d | d in Body(pieces) :: ' ' <= d <= '~'
  {
    if arg == [] then [] else
      var more := ReprPieces(arg[1..]);
      assert ([ReprPiece(arg[0])] + more)[1..] == more;
      [ReprPiece(arg[0])] + more
  }

  function Repr(arg: seq<byte>): string {
    QuotedText(ReprPieces(arg))
  }

  /** The arguments of a MONITOR line as Redis prints them, one space between two. */
  function ReprArgs(args: seq<seq<byte>>): string {
    if args == [] then ""
    else if |args| == 1 then Repr(args[0])
    else Repr(args[0]) + " " + ReprArgs(args[1..])
  }

  lemma {:induction false} ReprArgsTokens(args: seq<seq<byte>>, blanks: string) returns (tokens: seq<Token>)
    requires args != [] && AllBlank(blanks)
    ensures Derives(tokens, "", blanks + ReprArgs(args), args)
    decreases |args|
  {
    var first := Token(blanks, ReprPieces(args[0]));
    assert args == [args[0]] + args[1..];
    if |args| == 1 {
      DerivesCons(first, [], "", "", []);
      tokens := [first] + [];
      assert QuotedText(first.pieces) + "" == ReprArgs(args);
    } else {
      var more := ReprArgsTokens(args[1..], " ");
      DerivesCons(first, more, "", " " + ReprArgs(args[1..]), args[1..]);
      tokens := [first] + more;
      assert QuotedText(first.pieces) + (" " + ReprArgs(args[1..])) == ReprArgs(args);
    }
  }

  /** Lexing inverts sdscatrepr() on every list of byte strings. */
  lemma ArgsOfRepr(args: seq<seq<byte>>)
    ensures Args(ReprArgs(args)) == Ok(args)
  {
    if args != [] {
      var tokens := ReprArgsTokens(args, "");
      assert "" + ReprArgs(args) == ReprArgs(args);
      Completeness(tokens, "");
    }
  }

  lemma ReprPrintable(arg: seq<byte>)
    ensures var s := Repr(arg); s != "" && s[0] == '"' && s[|s| - 1] == '"'
    ensures forall c | c in Repr(arg) :: ' ' <= c <= '~'
  {
    var body := Body(ReprPieces(arg));
    assert forall c | c in Repr(arg) :: c == '"' || c in body;
  }

  // A printed argument list holds no line terminator, and starts and ends with a quote.
  lemma {:induction false} ReprArgsPrintable(args: seq<seq<byte>>)
    requires args != []
    ensures var s := ReprArgs(args); s != "" && s[0] == '"' && s[|s| - 1] == '"'
    ensures forall c | c in ReprArgs(args) :: ' ' <= c <= '~'
    decreases |args|
  {
    hide Repr;
    var first := Repr(args[0]);
    ReprPrintable(args[0]);
    if |args| > 1 {
      ReprArgsPrintable(args[1..]);
      assert forall c | c in ReprArgs(args) :: c in first || c == ' ' || c in ReprArgs(args[1..]);
    }
  }
}
