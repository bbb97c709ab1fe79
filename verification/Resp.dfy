/** The wire codec (internal/resp/resp.go): RESP2 arrays of bulk strings out, bulk and simple strings in. */
module Resp {
  import opened Text

  datatype RespError = EndOfFile | UnexpectedEnd | EmptyReply | ServerError(text: string) | UnexpectedReply | BadLength

  // ---- writing ----

  function EncodeBulk(a: string): string {
    "$" + Decimal(|a|) + "\r\n" + (a + "\r\n")
  }

  function EncodeBulks(args: seq<string>): string {
    if args == [] then "" else EncodeBulk(args[0]) + EncodeBulks(args[1..])
  }

  function ArrayHeader(n: nat): string {
    "*" + Decimal(n) + "\r\n"
  }

  function EncodeCommand(args: seq<string>): string {
    ArrayHeader(|args|) + EncodeBulks(args)
  }

  lemma EncodeBulksSnoc(args: seq<string>, a: string)
    ensures EncodeBulks(args + [a]) == EncodeBulks(args) + EncodeBulk(a)
  {
    hide EncodeBulk;
    if args == [] {
      assert args + [a] == [a] && [a][1..] == [];
      assert EncodeBulk(a) + "" == EncodeBulk(a) && "" + EncodeBulk(a) == EncodeBulk(a);
    } else {
      assert (args + [a])[1..] == args[1..] + [a];
      EncodeBulksSnoc(args[1..], a);
    }
  }

  class Writer {
    var out: string

    constructor ()
      ensures out == ""
    {
      out := "";
    }

    method WriteCommand(args: seq<string>)
      modifies this
      ensures out == old(out) + EncodeCommand(args)
    {
      hide EncodeBulk, EncodeBulks;
      out := out + "*" + Decimal(|args|) + "\r\n";
      ghost var start := out;
      NoBulks();
      for i := 0 to |args|
        invariant out == start + EncodeBulks(args[..i])
      {
        var a := args[i];
        out := out + EncodeBulk(a);
        EncodeBulksSnoc(args[..i], a);
        assert args[..i + 1] == args[..i] + [a];
      }
      assert args[..|args|] == args;
      assert start == old(out) + ArrayHeader(|args|);
    }
  }

  lemma NoBulks()
    ensures EncodeBulks([]) == ""
  {
  }

  // ---- reading ----

  /** ReadString('\n'): the line with its terminator and the rest; None consumes everything. */
  function TakeLine(data: string): Option<(string, string)> {
    var i := IndexByte(data, '\n');
    if i == -1 then None else Some((data[..i + 1], data[i + 1..]))
  }

  /** The reply, or why there is none, and the data that is left. */
  function ReadBulk(data: string): (Result<string, RespError>, string) {
    match TakeLine(data)
    case None => (Err(EndOfFile), "")
    case Some((line, rest)) =>
      var head := TrimEol(line);
      if head == "" then (Err(EmptyReply), rest)
      else if head[0] == '-' then (Err(ServerError(head[1..])), rest)
      else if head[0] != '$' then (Err(UnexpectedReply), rest)
      else
        match ParseInt(head[1..])
        case None => (Err(BadLength), rest)
        case Some(n) => ReadBody(n, rest)
  }

  /** A negative length is the null bulk string, reported as end of file. */
  function ReadBody(n: int, rest: string): (Result<string, RespError>, string) {
    if n < 0 then (Err(EndOfFile), rest)
    else if |rest| < n + 2 then (Err(if rest == "" then EndOfFile else UnexpectedEnd), "")
    else (Ok(rest[..n]), rest[n + 2..])
  }

  function ReadSimple(data: string): (Result<(), RespError>, string) {
    match TakeLine(data)
    case None => (Err(EndOfFile), "")
    case Some((line, rest)) =>
      var head := TrimEol(line);
      if head == "" then (Err(EmptyReply), rest)
      else if head[0] == '+' then (Ok(()), rest)
      else if head[0] == '-' then (Err(ServerError(head[1..])), rest)
      else (Err(UnexpectedReply), rest)
  }

  class Reader {
    var data: string

    constructor (data: string)
      ensures this.data == data
    {
      this.data := data;
    }

    method ReadString() returns (line: Option<string>)
      modifies this
      ensures match TakeLine(old(data))
              case None => line == None && data == ""
              case Some((l, rest)) => line == Some(l) && data == rest
    {
      var i := IndexByte(data, '\n');
      if i == -1 {
        data := "";
        return None;
      }
      line := Some(data[..i + 1]);
      data := data[i + 1..];
    }

    method ReadBulkString() returns (r: Result<string, RespError>)
      modifies this
      ensures (r, data) == ReadBulk(old(data))
    {
      var line := ReadString();
      if line == None {
        return Err(EndOfFile);
      }
      var head := TrimEol(line.value);
      if |head| == 0 {
        return Err(EmptyReply);
      }
      if head[0] == '-' {
        return Err(ServerError(head[1..]));
      }
      if head[0] != '$' {
        return Err(UnexpectedReply);
      }
      var n := ParseInt(head[1..]);
      if n == None {
        return Err(BadLength);
      }
      if n.value < 0 {
        return Err(EndOfFile);
      }
      if |data| < n.value + 2 {
        r := Err(if data == "" then EndOfFile else UnexpectedEnd);
        data := "";
        return;
      }
      r := Ok(data[..n.value]);
      data := data[n.value + 2..];
    }

    method ReadSimpleString() returns (r: Result<(), RespError>)
      modifies this
      ensures (r, data) == ReadSimple(old(data))
    {
      var line := ReadString();
      if line == None {
        return Err(EndOfFile);
      }
      var head := TrimEol(line.value);
      if head == "" {
        return Err(EmptyReply);
      }
      if head[0] == '+' {
        return Ok(());
      }
      return Err(if head[0] == '-' then ServerError(head[1..]) else UnexpectedReply);
    }
  }

  // ---- framing ----

  lemma TakeLineOf(text: string, rest: string)
    requires '\n' !in text
    ensures TakeLine(text + "\r\n" + rest) == Some((text + "\r\n", rest))
  {
    var data := text + "\r\n" + rest;
    TakeDrop(text + "\r\n", rest);
    assert data[..|text| + 1] == text + "\r";
    IndexByteIs(data, '\n', |text| + 1);
  }

  /** A written bulk string is read back whatever bytes it holds, and nothing after it is touched. */
  lemma ReadBulkOfEncoded(a: string, rest: string)
    requires |a| <= MAX_INT64
    ensures ReadBulk(EncodeBulk(a) + rest) == (Ok(a), rest)
  {
    hide TrimEol, TakeLine, ParseInt, Decimal;
    var digits := Decimal(|a|);
    var head, body := "$" + digits, a + "\r\n" + rest;
    assert EncodeBulk(a) + rest == head + "\r\n" + body;
    TakeLineOf(head, body);
    TrimEolOf(head, "\r\n");
    assert head[1..] == digits;
    ParseIntOfDigits(digits);
    TakeDrop(a, "\r\n" + rest);
    assert body == a + ("\r\n" + rest) && body[|a| + 2..] == rest;
  }

  function ReadBulks(n: nat, data: string): (Result<seq<string>, RespError>, string) {
    if n == 0 then (Ok([]), data)
    else
      var (r, rest) := ReadBulk(data);
      match r
      case Err(e) => (Err(e), rest)
      case Ok(a) =>
        var (more, left) := ReadBulks(n - 1, rest);
        match more
        case Err(e) => (Err(e), left)
        case Ok(args) => (Ok([a] + args), left)
  }

  predicate Sizes(args: seq<string>) {
    forall i | 0 <= i < |args| :: |args[i]| <= MAX_INT64
  }

  lemma {:induction false} ReadBulksOfEncoded(args: seq<string>, rest: string)
    requires Sizes(args)
    ensures ReadBulks(|args|, EncodeBulks(args) + rest) == (Ok(args), rest)
    decreases |args|
  {
    hide EncodeBulk, ReadBulk;
    if args == [] {
      assert EncodeBulks(args) + rest == rest;
    } else {
      Assoc(EncodeBulk(args[0]), EncodeBulks(args[1..]), rest);
      ReadBulkOfEncoded(args[0], EncodeBulks(args[1..]) + rest);
      ReadBulksOfEncoded(args[1..], rest);
      assert args == [args[0]] + args[1..];
    }
  }

  lemma HeaderAnnounces(n: nat)
    ensures var head := TrimEol(ArrayHeader(n));
            head != "" && head[0] == '*' && (n <= MAX_INT64 ==> ParseInt(head[1..]) == Some(n))
  {
    hide TrimEol, ParseInt, Decimal;
    var digits := Decimal(n);
    assert "*" + digits + "\r\n" == ("*" + digits) + "\r\n" && ("*" + digits)[1..] == digits;
    TrimEolOf("*" + digits, "\r\n");
    ParseIntOfDigits(digits);
  }

  /** RESP2 framing: the header line, then as many bulk strings as it announces, give back the arguments of
      WriteCommand and leave exactly what follows. */
  lemma CommandFraming(args: seq<string>, rest: string)
    requires Sizes(args)
    ensures TakeLine(EncodeCommand(args) + rest) == Some((ArrayHeader(|args|), EncodeBulks(args) + rest))
    ensures var head := TrimEol(ArrayHeader(|args|));
            head != "" && head[0] == '*' && (|args| <= MAX_INT64 ==> ParseInt(head[1..]) == Some(|args|))
    ensures ReadBulks(|args|, EncodeBulks(args) + rest) == (Ok(args), rest)
  {
    hide TakeLine, EncodeBulks, ReadBulks, TrimEol, ParseInt;
    Assoc(ArrayHeader(|args|), EncodeBulks(args), rest);
    TakeLineOf("*" + Decimal(|args|), EncodeBulks(args) + rest);
    HeaderAnnounces(|args|);
    ReadBulksOfEncoded(args, rest);
  }

  /** No two commands, whatever follows them, start with the same bytes. */
  lemma CommandsArePrefixFree(a: seq<string>, b: seq<string>, after: string, after': string)
    requires Sizes(a) && Sizes(b) && EncodeCommand(a) + after == EncodeCommand(b) + after'
    ensures a == b && after == after'
  {
    hide TakeLine, EncodeBulks, ReadBulks, Decimal, Number;
    CommandFraming(a, after);
    CommandFraming(b, after');
    var da, db := Decimal(|a|), Decimal(|b|);
    assert ArrayHeader(|a|)[1..] == da + "\r\n" && ArrayHeader(|b|)[1..] == db + "\r\n";
    assert |da + "\r\n"| == |db + "\r\n"|;
    assert (da + "\r\n")[..|da|] == da && (db + "\r\n")[..|db|] == db;
    assert Number(da) == Number(db);
  }

  /** A simple reply is judged by its first character and consumes exactly its line. */
  lemma SimpleReply(text: string, rest: string)
    requires '\n' !in text && (text == "" || text[|text| - 1] != '\r')
    ensures ReadSimple(text + "\r\n" + rest) ==
            (if text == "" then Err(EmptyReply)
             else if text[0] == '+' then Ok(())
             else if text[0] == '-' then Err(ServerError(text[1..]))
             else Err(UnexpectedReply), rest)
  {
    hide TrimEol, TakeLine;
    TakeLineOf(text, rest);
    assert text != "" ==> text[|text| - 1] in text;
    TrimEolOf(text, "\r\n");
  }

  /** What is no bulk string is told apart by its first line: an empty one, an error reply, a frame of another kind, a
      length that is no number, and the null bulk string, which is the end of the data. Nothing after the line is
      touched. */
  lemma BulkRefusals(text: string, rest: string)
    requires '\n' !in text && (text == "" || text[|text| - 1] != '\r')
    ensures var (r, left) := ReadBulk(text + "\r\n" + rest);
            && (text == "" ==> r == Err(EmptyReply) && left == rest)
            && (text != "" && text[0] == '-' ==> r == Err(ServerError(text[1..])) && left == rest)
            && (text != "" && text[0] !in "-$" ==> r == Err(UnexpectedReply) && left == rest)
            && (text != "" && text[0] == '$' && ParseInt(text[1..]) == None ==> r == Err(BadLength) && left == rest)
            && (text == "$-1" ==> r == Err(EndOfFile) && left == rest)
  {
    hide TrimEol, TakeLine, ParseInt, Number;
    TakeLineOf(text, rest);
    assert text != "" ==> text[|text| - 1] in text;
    TrimEolOf(text, "\r\n");
    MinusOne();
    assert text == "$-1" ==> text[1..] == "-1";
  }

  lemma MinusOne()
    ensures ParseInt("-1") == Some(-1)
  {
    assert "-1"[1..] == "1" && "1"[..0] == "";
  }

  /** A body that is cut off consumes everything, and whether any of it had arrived tells the two errors apart. */
  lemma BulkCutOff(a: string, n: nat)
    requires |a| < n + 2 && n <= MAX_INT64
    ensures ReadBulk("$" + Decimal(n) + "\r\n" + a) == (Err(if a == "" then EndOfFile else UnexpectedEnd), "")
  {
    hide TrimEol, TakeLine, ParseInt, Decimal;
    var digits := Decimal(n);
    TakeLineOf("$" + digits, a);
    TrimEolOf("$" + digits, "\r\n");
    assert ("$" + digits)[1..] == digits;
    ParseIntOfDigits(digits);
  }
}
