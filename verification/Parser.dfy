/** One line of MONITOR output (internal/monitor/parser.go) and the Redis printer it inverts.
    strings.ToUpper is the parameter `up`: nothing is assumed of it. */
module Parser {
  import opened Text
  import opened Events
  import Lexer

  datatype ParseError =
    | EmptyLine
    | NoSpaceAfterTimestamp
    | InvalidTimestamp
    | NegativeTimestamp
    | InvalidFraction
    | MissingOpenBracket
    | MissingCloseBracket
    | MissingSpaceInBracket
    | InvalidDb
    | InvalidArgs(e: Lexer.LexError)
    | NoCommand

  const NANOS: int := 1_000_000_000

  const COMMANDS_WITH_SUBCOMMAND: set<string> := {
    "CLIENT", "CONFIG", "ACL", "SCRIPT", "DEBUG", "CLUSTER", "COMMAND", "FUNCTION",
    "LATENCY", "MEMORY", "MODULE", "OBJECT", "PUBSUB", "SLOWLOG", "XGROUP", "XINFO"
  }

  // ---- the timestamp ----

  function Timestamp(s: string): Result<int, ParseError> {
    var dot := IndexByte(s, '.');
    var secStr, fracStr := if dot == -1 then s else s[..dot], if dot == -1 then "" else s[dot + 1..];
    match ParseInt(secStr)
    case None => Err(InvalidTimestamp)
    case Some(sec) =>
      if sec < 0 then Err(NegativeTimestamp)
      else if fracStr == "" then Ok(sec * NANOS)
      else
        var digits := if |fracStr| > 9 then fracStr[..9] else fracStr;
        match ParseInt(digits)
        case None => Err(InvalidFraction)
        case Some(f) => Ok(sec * NANOS + f * Pow10(9 - |digits|))
  }

  method ParseTimestamp(s: string) returns (r: Result<int, ParseError>)
    ensures r == Timestamp(s)
  {
    hide IndexByte, ParseInt;
    var dot := IndexByte(s, '.');
    var secStr, fracStr := s, "";
    if dot != -1 {
      secStr, fracStr := s[..dot], s[dot + 1..];
    }
    var sec := ParseInt(secStr);
    if sec.None? {
      return Err(InvalidTimestamp);
    }
    if sec.value < 0 {
      return Err(NegativeTimestamp);
    }
    var nsec := 0;
    if fracStr != "" {
      if |fracStr| > 9 {
        fracStr := fracStr[..9];
      }
      var f := ParseInt(fracStr);
      if f.None? {
        return Err(InvalidFraction);
      }
      nsec := f.value;
      for i := |fracStr| to 9
        invariant nsec * Pow10(9 - i) == f.value * Pow10(9 - |fracStr|)
      {
        assert Pow10(9 - i) == 10 * Pow10(9 - (i + 1));
        nsec := nsec * 10;
      }
    }
    return Ok(sec.value * NANOS + nsec);
  }

  // ---- the bracketed segment ----

  /** Blanks, and then a quote or the end of the text. */
  predicate Ends(s: string) {
    var t := TrimBlanks(s);
    t == "" || t[0] == '"'
  }

  /** The first ']' after which the bracketed segment can end. */
  function CloseIndex(s: string): (k: Option<nat>)
    ensures k.Some? ==> k.value < |s| && s[k.value] == ']'
  {
    if s == "" then None
    else if s[0] == ']' && Ends(s[1..]) then Some(0)
    else Shift(CloseIndex(s[1..]), 1)
  }

  function Shift(k: Option<nat>, n: nat): Option<nat> {
    match k
    case None => None
    case Some(i) => Some(i + n)
  }

  /** "host:port", "[v6]:port", or an address without a port. */
  function SplitHostPort(addr: string): Source {
    var end := if addr != "" && addr[0] == '[' then IndexByte(addr, ']') else -1;
    if end != -1 then
      Source(addr[1..end], if end + 1 < |addr| && addr[end + 1] == ':' then addr[end + 2..] else "")
    else
      var last := LastIndexByte(addr, ':');
      if last == -1 then Source(addr, "") else Source(addr[..last], addr[last + 1..])
  }

  datatype Bracket = Bracket(db: int, source: Source, remainder: string)

  function BracketBody(body: string, remainder: string): Result<Bracket, ParseError> {
    var sp := IndexByte(body, ' ');
    if sp == -1 then Err(MissingSpaceInBracket) else
      match ParseInt(body[..sp])
      case None => Err(InvalidDb)
      case Some(db) => Ok(Bracket(db, SplitHostPort(body[sp + 1..]), remainder))
  }

  function BracketOf(rest: string): Result<Bracket, ParseError> {
    if rest == "" || rest[0] != '[' then Err(MissingOpenBracket) else
      match CloseIndex(rest[1..])
      case None => Err(MissingCloseBracket)
      case Some(k) => BracketBody(rest[1..][..k], TrimBlanks(rest[1..][k + 1..]))
  }

  // The lookahead of the scan stops where TrimBlanks does.
  lemma {:induction false} TrimBlanksStop(s: string, k: nat)
    requires k <= |s| && (forall j | 0 <= j < k :: Blank(s[j])) && (k == |s| || !Blank(s[k]))
    ensures TrimBlanks(s) == s[k..]
    decreases k
  {
    if k == 0 {
      assert s[0..] == s;
    } else {
      TrimBlanksStop(s[1..], k - 1);
      DropDrop(s, 1, k - 1);
    }
  }

  lemma EndsAt(rest: string, i: nat, j: nat)
    requires i < j <= |rest| && (forall k | i < k < j :: Blank(rest[k])) && (j == |rest| || !Blank(rest[j]))
    ensures Ends(rest[i + 1..]) <==> j == |rest| || rest[j] == '"'
  {
    hide TrimBlanks;
    TrimBlanksStop(rest[i + 1..], j - (i + 1));
    DropDrop(rest, i + 1, j - (i + 1));
  }

  lemma NoClose()
    ensures CloseIndex("") == None
  {
  }

  lemma CloseStep(rest: string, i: nat)
    requires i < |rest|
    ensures CloseIndex(rest[i..]) ==
            if rest[i] == ']' && Ends(rest[i + 1..]) then Some(0) else Shift(CloseIndex(rest[i + 1..]), 1)
  {
    hide Ends;
    DropDrop(rest, i, 1);
  }

  lemma BracketOfClose(rest: string, k: nat)
    requires 1 <= k < |rest| && rest[0] == '[' && CloseIndex(rest[1..]) == Some(k - 1)
    ensures BracketOf(rest) == BracketBody(rest[1..k], TrimBlanks(rest[k + 1..]))
  {
    hide TrimBlanks, BracketBody, CloseIndex;
    DropDrop(rest, 1, k);
    assert rest[1..][..k - 1] == rest[1..k];
  }

  method ParseBracket(rest: string) returns (r: Result<Bracket, ParseError>)
    ensures r == BracketOf(rest)
  {
    hide TrimBlanks, BracketBody, CloseIndex, Ends;
    if |rest| == 0 || rest[0] != '[' {
      return Err(MissingOpenBracket);
    }
    ghost var close := CloseIndex(rest[1..]);
    var closeIdx := -1;
    var i := 1;
    while i < |rest|
      invariant 1 <= i <= |rest| && closeIdx == -1
      invariant close == Shift(CloseIndex(rest[i..]), i - 1)
    {
      CloseStep(rest, i);
      if rest[i] == ']' {
        var j := i + 1;
        while j < |rest| && (rest[j] == ' ' || rest[j] == '\t')
          invariant i < j <= |rest|
          invariant forall k | i < k < j :: Blank(rest[k])
        {
          j := j + 1;
        }
        EndsAt(rest, i, j);
        if j == |rest| || rest[j] == '"' {
          closeIdx := i;
          break;
        }
      }
      i := i + 1;
    }
    if closeIdx == -1 {
      assert rest[i..] == "";
      NoClose();
      return Err(MissingCloseBracket);
    }
    BracketOfClose(rest, closeIdx);
    return BracketBody(rest[1..closeIdx], TrimBlanks(rest[closeIdx + 1..]));
  }

  // ---- the line ----

  function EventFrom(ts: int, db: int, source: Source, args: seq<string>, up: string -> string): Event
    requires args != []
  {
    var cmd := up(args[0]);
    Event(ts, db, source, cmd,
          if cmd in COMMANDS_WITH_SUBCOMMAND && |args| > 1 then up(args[1]) else "",
          args[1..])
  }

  function Parse(original: string, up: string -> string): Result<Event, ParseError> {
    var trimmed := TrimEol(original);
    if trimmed == "" then Err(EmptyLine)
    else ParseTrimmed(if trimmed[0] == '+' then trimmed[1..] else trimmed, up)
  }

  function ParseTrimmed(line: string, up: string -> string): Result<Event, ParseError> {
    var space := IndexByte(line, ' ');
    if space <= 0 then Err(NoSpaceAfterTimestamp) else
      match Timestamp(line[..space])
      case Err(e) => Err(e)
      case Ok(ts) =>
        match BracketOf(line[space + 1..])
        case Err(e) => Err(e)
        case Ok(b) =>
          match Lexer.Args(b.remainder)
          case Err(e) => Err(InvalidArgs(e))
          case Ok(args) => if args == [] then Err(NoCommand) else Ok(EventFrom(ts, b.db, b.source, args, up))
  }

  method ParseLine(original: string, up: string -> string) returns (r: Result<Event, ParseError>)
    ensures r == Parse(original, up)
  {
    hide EventFrom, Timestamp, BracketOf, Lexer.Args;
    var line := TrimEol(original);
    if line == "" {
      return Err(EmptyLine);
    }
    if line[0] == '+' {
      line := line[1..];
    }
    var spaceIdx := IndexByte(line, ' ');
    if spaceIdx <= 0 {
      return Err(NoSpaceAfterTimestamp);
    }
    var ts := ParseTimestamp(line[..spaceIdx]);
    if ts.Err? {
      return Err(ts.error);
    }
    var b := ParseBracket(line[spaceIdx + 1..]);
    if b.Err? {
      return Err(b.error);
    }
    var args := Lexer.ParseQuotedArgs(b.value.remainder);
    if args.Err? {
      return Err(InvalidArgs(args.error));
    }
    if args.value == [] {
      return Err(NoCommand);
    }
    return Ok(EventFrom(ts.value, b.value.db, b.value.source, args.value, up));
  }

  // ---- what Redis prints ----

  datatype Entry = Entry(sec: nat, usec: nat, db: nat, addr: string, args: seq<seq<byte>>)

  /** No ']' of the address is itself followed by blanks and a quote. IPv6 brackets and quotes elsewhere are fine. */
  predicate Unambiguous(addr: string) {
    addr != "" ==>
      && Unambiguous(addr[1..])
      && (addr[0] == ']' && TrimBlanks(addr[1..]) != "" ==> TrimBlanks(addr[1..])[0] != '"')
  }

  predicate Printable(e: Entry) {
    e.usec < 1_000_000 && Unambiguous(e.addr) && e.args != []
  }

  function Stamp(sec: nat, usec: nat): string
    requires usec < 1_000_000
  {
    assert Pow10(6) == 1_000_000;
    Decimal(sec) + "." + Padded(usec, 6)
  }

  /** The bracketed segment and what follows it. */
  function Bracketed(db: nat, addr: string, quoted: string): string {
    "[" + ((Decimal(db) + " " + addr) + ("] " + quoted))
  }

  /** The line without its terminator. */
  function Shown(e: Entry): string
    requires Printable(e)
  {
    "+" + (Stamp(e.sec, e.usec) + (" " + Bracketed(e.db, e.addr, Lexer.ReprArgs(e.args))))
  }

  function Print(e: Entry): string
    requires Printable(e)
  {
    Shown(e) + "\r\n"
  }

  /** What the entry is to become: the first argument is the command and leaves the argument list, of which a listed
      command's subcommand stays the head. */
  function EventOf(e: Entry, up: string -> string): Event
    requires Printable(e)
  {
    var command := up(e.args[0]);
    Event(e.sec * NANOS + e.usec * 1000, e.db, SplitHostPort(e.addr), command,
          if command in COMMANDS_WITH_SUBCOMMAND && |e.args| >= 2 then up(e.args[1]) else "",
          e.args[1..])
  }

  lemma TimestampOfStamp(sec: nat, usec: nat)
    requires usec < 1_000_000
    ensures Timestamp(Stamp(sec, usec)) ==
            if sec <= MAX_INT64 then Ok(sec * NANOS + usec * 1000) else Err(InvalidTimestamp)
  {
    hide IndexByte, ParseInt, Decimal, Padded, Number;
    var s := Stamp(sec, usec);
    var whole, frac := Decimal(sec), Padded(usec, 6);
    assert s[..|whole|] == whole && s[|whole| + 1..] == frac;
    IndexByteIs(s, '.', |whole|);
    ParseIntOfDigits(whole);
    ParseIntOfDigits(frac);
    assert Pow10(3) == 1000;
  }

  // The first digits of a numeral are its value without the last ones.
  lemma LeadingDigits(s: string, n: nat)
    requires AllDigits(s) && n <= |s|
    ensures AllDigits(s[..n]) && Number(s[..n]) == Number(s) / Pow10(|s| - n)
  {
    hide Number, IsDigit, Pow10;
    assert s == s[..n] + s[n..];
    NumberAppend(s[..n], s[n..]);
    NumberBound(s[n..]);
    QuotientIs(Number(s[..n]), Pow10(|s| - n), Number(s[n..]));
  }

  lemma QuotientIs(q: nat, d: nat, rest: nat)
    requires rest < d
    ensures (q * d + rest) / d == q
  {
    var n := q * d + rest;
    var x := n / d;
    assert n == x * d + n % d;
    Distance(q, x, d);
  }

  // Two multiples of d closer than d are one.
  lemma Distance(q: int, x: int, d: int)
    requires d > 0 && -d < q * d - x * d < d
    ensures q == x
  {
    if q > x {
      Apart(q, x, d);
    } else if q < x {
      Apart(x, q, d);
    }
  }

  lemma Apart(q: int, x: int, d: int)
    requires d > 0 && q > x
    ensures q * d - x * d >= d
  {
    var k: nat := q - x - 1;
    assert q * d == (x + 1 + k) * d == x * d + d + k * d;
    NotNegative(k, d);
  }

  lemma NotNegative(k: nat, d: int)
    requires d > 0
    ensures k * d >= 0
  {
  }

  lemma ScaleDown(n: nat, a: nat, b: nat)
    requires a > 0 && b > 0
    ensures (n * a) / (a * b) == n / b
  {
    var q, m := n / b, n % b;
    assert n == q * b + m;
    assert n * a == q * (a * b) + m * a && m * a < b * a;
    QuotientIs(q, a * b, m * a);
  }

  /** The nanoseconds that the fraction digits stand for, cut off after the ninth. */
  function Fraction(frac: string): int
    requires AllDigits(frac)
  {
    (Number(frac) * 1_000_000_000) / Pow10(|frac|)
  }

  /** Any number of fraction digits: the nanoseconds are the fraction of a second, cut off after nine digits. */
  lemma TimestampOfDecimal(whole: string, frac: string)
    requires IsNumeral(whole) && AllDigits(frac)
    ensures Timestamp(whole + "." + frac) ==
            if Number(whole) > MAX_INT64 then Err(InvalidTimestamp)
            else Ok(Number(whole) * NANOS + Fraction(frac))
  {
    hide IndexByte, ParseInt, Number, Pow10, Fraction;
    var s, digits := whole + "." + frac, if |frac| > 9 then frac[..9] else frac;
    assert s[..|whole|] == whole && s[|whole| + 1..] == frac;
    IndexByteIs(s, '.', |whole|);
    ParseIntOfDigits(whole);
    FractionValue(frac);
    if frac != "" {
      ParseIntOfDigits(digits);
    }
  }

  lemma FractionValue(frac: string)
    requires AllDigits(frac)
    ensures var digits := if |frac| > 9 then frac[..9] else frac;
            && AllDigits(digits) && Number(digits) <= MAX_INT64
            && Number(digits) * Pow10(9 - |digits|) == Fraction(frac)
    ensures frac == "" ==> Fraction(frac) == 0
  {
    hide Number, IsDigit, Pow10, Fraction;
    var digits := if |frac| > 9 then frac[..9] else frac;
    NoDigits();
    if |frac| > 9 {
      LongFraction(frac);
    } else {
      ShortFraction(frac);
    }
    NumberBound(digits);
    PowersGrow(|digits|);
  }

  lemma LongFraction(frac: string)
    requires AllDigits(frac) && |frac| > 9
    ensures AllDigits(frac[..9]) && Number(frac[..9]) * Pow10(0) == Fraction(frac)
  {
    NinthPower();
    hide Number, IsDigit, Pow10;
    NoDigits();
    LeadingDigits(frac, 9);
    PowersAdd(9, |frac| - 9);
    ScaleDown(Number(frac), Pow10(9), Pow10(|frac| - 9));
  }

  lemma ShortFraction(frac: string)
    requires AllDigits(frac) && |frac| <= 9
    ensures Number(frac) * Pow10(9 - |frac|) == Fraction(frac)
    ensures frac == "" ==> Fraction(frac) == 0
  {
    NinthPower();
    hide Number, IsDigit, Pow10;
    NoDigits();
    var n, a, b := Number(frac), Pow10(9 - |frac|), Pow10(|frac|);
    PowersAdd(9 - |frac|, |frac|);
    Regroup(n, a, b);
    QuotientIs(n * a, b, 0);
  }

  lemma Regroup(n: nat, a: nat, b: nat)
    ensures n * (a * b) == (n * a) * b + 0
    ensures n * a >= 0
  {
  }

  lemma NinthPower()
    ensures Pow10(9) == 1_000_000_000
  {
  }

  lemma PowersGrow(k: nat)
    requires k <= 9
    ensures Pow10(k) <= 1_000_000_000
  {
    PowersAdd(k, 9 - k);
    assert Pow10(9) == 1_000_000_000;
    assert Pow10(k) * Pow10(9 - k) >= Pow10(k);
  }

  /** A negative number of seconds is an error of its own. */
  lemma NegativeSeconds(digits: string)
    requires IsNumeral(digits) && 0 < Number(digits) <= 0x8000_0000_0000_0000
    ensures Timestamp("-" + digits) == Err(NegativeTimestamp)
  {
    var s := "-" + digits;
    assert s[1..] == digits;
    var n: int := Number(digits);
    ParseIntExactly(s, -n);
    assert '.' !in s;
  }

  lemma {:induction false} TrimBlanksAppend(x: string, y: string)
    requires y != "" && !Blank(y[0])
    ensures TrimBlanks(x + y) == TrimBlanks(x) + y
    decreases |x|
  {
    if x == "" {
      assert x + y == y;
    } else if Blank(x[0]) {
      assert (x + y)[1..] == x[1..] + y;
      TrimBlanksAppend(x[1..], y);
    }
  }

  lemma UnambiguousBehind(front: string, addr: string)
    requires ']' !in front && Unambiguous(addr)
    ensures Unambiguous(front + addr)
  {
    if front == "" {
      assert front + addr == addr;
    } else {
      assert (front + addr)[1..] == front[1..] + addr;
      UnambiguousBehind(front[1..], addr);
    }
  }

  lemma CloseHere(quoted: string)
    requires quoted != "" && quoted[0] == '"'
    ensures Ends(("] " + quoted)[1..]) && TrimBlanks(("] " + quoted)[1..]) == quoted
  {
    hide TrimBlanks;
    assert ("] " + quoted)[1..] == " " + quoted;
    TrimBlanksStop(" " + quoted, 1);
  }

  lemma EndsInside(x: string, tail: string)
    requires tail != "" && tail[0] == ']'
    ensures Ends(x + tail) <==> TrimBlanks(x) != "" && TrimBlanks(x)[0] == '"'
  {
    hide TrimBlanks;
    TrimBlanksAppend(x, tail);
  }

  // The scan stops at the bracket in front of `tail`, past all others, exactly when the body is unambiguous.
  lemma {:induction false} CloseBefore(body: string, tail: string)
    requires tail != "" && tail[0] == ']' && Ends(tail[1..])
    ensures CloseIndex(body + tail) == Some(|body|) <==> Unambiguous(body)
    decreases |body|
  {
    hide TrimBlanks, CloseIndex, Ends;
    assert (body + tail)[0..] == body + tail;
    CloseStep(body + tail, 0);
    if body == "" {
      assert body + tail == tail;
    } else {
      assert (body + tail)[1..] == body[1..] + tail;
      CloseBefore(body[1..], tail);
      EndsInside(body[1..], tail);
    }
  }

  /** The scan finds the outer bracket, past every ']' inside the address, exactly when the address is unambiguous. */
  lemma CloseOfPrinted(body: string, quoted: string)
    requires quoted != "" && quoted[0] == '"'
    ensures CloseIndex(body + ("] " + quoted)) == Some(|body|) <==> Unambiguous(body)
  {
    CloseHere(quoted);
    CloseBefore(body, "] " + quoted);
  }

  lemma BracketOfBody(body: string, quoted: string)
    requires Unambiguous(body) && quoted != "" && quoted[0] == '"'
    ensures BracketOf("[" + (body + ("] " + quoted))) == BracketBody(body, quoted)
  {
    hide TrimBlanks, CloseIndex, BracketBody, Unambiguous;
    var tail := "] " + quoted;
    TakeDrop("[", body + tail);
    TakeDrop(body, tail);
    DropDrop(body + tail, |body|, 1);
    CloseOfPrinted(body, quoted);
    CloseHere(quoted);
  }

  lemma BracketOfPrinted(db: nat, addr: string, quoted: string)
    requires Unambiguous(addr) && quoted != "" && quoted[0] == '"'
    ensures BracketOf(Bracketed(db, addr, quoted)) ==
            if db <= MAX_INT64 then Ok(Bracket(db, SplitHostPort(addr), quoted)) else Err(InvalidDb)
  {
    hide BracketOf, SplitHostPort, BracketBody, Unambiguous;
    var front := Decimal(db) + " ";
    assert ']' !in front;
    UnambiguousBehind(front, addr);
    BracketOfBody(front + addr, quoted);
    BracketBodyOf(db, addr, quoted);
  }

  lemma BracketBodyOf(db: nat, addr: string, remainder: string)
    ensures BracketBody(Decimal(db) + " " + addr, remainder) ==
            if db <= MAX_INT64 then Ok(Bracket(db, SplitHostPort(addr), remainder)) else Err(InvalidDb)
  {
    hide SplitHostPort, IndexByte, ParseInt, Number;
    var digits := Decimal(db);
    var body := digits + " " + addr;
    assert body[..|digits|] == digits && body[|digits| + 1..] == addr;
    IndexByteIs(body, ' ', |digits|);
    ParseIntOfDigits(digits);
  }

  lemma ShownEndsInQuote(e: Entry)
    requires Printable(e)
    ensures Shown(e) != "" && Shown(e)[0] == '+' && Shown(e)[|Shown(e)| - 1] == '"'
    ensures TrimEol(Print(e)) == Shown(e)
  {
    hide Stamp, TrimEol, Lexer.ReprArgs;
    var quoted := Lexer.ReprArgs(e.args);
    Lexer.ReprArgsPrintable(e.args);
    assert Shown(e)[|Shown(e)| - 1] == quoted[|quoted| - 1];
    TrimEolOf(Shown(e), "\r\n");
  }

  lemma StampHasNoSpace(e: Entry)
    requires Printable(e)
    ensures var line := Shown(e)[1..]; var ts := Stamp(e.sec, e.usec);
            && ts != ""
            && IndexByte(line, ' ') == |ts|
            && line[..|ts|] == ts
            && line[|ts| + 1..] == Bracketed(e.db, e.addr, Lexer.ReprArgs(e.args))
  {
    hide Bracketed, Lexer.ReprArgs, IndexByte;
    var ts, rest := Stamp(e.sec, e.usec), Bracketed(e.db, e.addr, Lexer.ReprArgs(e.args));
    var line := ts + (" " + rest);
    TakeDrop("+", line);
    TakeDrop(ts, " " + rest);
    TakeDrop(" ", rest);
    DropDrop(line, |ts|, 1);
    assert ' ' !in ts;
    IndexByteIs(line, ' ', |ts|);
  }

  lemma EventFromEntry(e: Entry, up: string -> string)
    requires Printable(e)
    ensures EventFrom(e.sec * NANOS + e.usec * 1000, e.db, SplitHostPort(e.addr), e.args, up) == EventOf(e, up)
  {
    hide SplitHostPort;
  }

  /** Parse inverts the Redis printer: it returns exactly the printed fields when the two numbers fit in 64 bits,
      and fails otherwise. */
  lemma ParseInvertsPrint(e: Entry, up: string -> string)
    requires Printable(e)
    ensures Parse(Print(e), up).Ok? <==> e.sec <= MAX_INT64 && e.db <= MAX_INT64
    ensures Parse(Print(e), up).Ok? ==> Parse(Print(e), up) == Ok(EventOf(e, up))
  {
    hide EventFrom, EventOf, Timestamp, BracketOf, Lexer.Args, Lexer.ReprArgs, TrimEol, IndexByte, Stamp, Bracketed,
      Shown, Print, Unambiguous, SplitHostPort;
    EventFromEntry(e, up);
    ShownEndsInQuote(e);
    StampHasNoSpace(e);
    TimestampOfStamp(e.sec, e.usec);
    Lexer.ReprArgsPrintable(e.args);
    BracketOfPrinted(e.db, e.addr, Lexer.ReprArgs(e.args));
    Lexer.ArgsOfRepr(e.args);
  }

  /** The fields of the event that a printed line is parsed to, one by one. */
  lemma ParsedFields(e: Entry, up: string -> string)
    requires Printable(e) && e.sec <= MAX_INT64 && e.db <= MAX_INT64
    ensures var r := Parse(Print(e), up);
            && r.Ok?
            && r.value.timestamp == e.sec * 1_000_000_000 + e.usec * 1000
            && r.value.db == e.db
            && r.value.source == SplitHostPort(e.addr)
            && r.value.command == up(e.args[0])
            && [r.value.command] + r.value.args == [up(e.args[0])] + e.args[1..]
            && (|e.args| >= 2 && up(e.args[0]) in
                  ["CLIENT", "CONFIG", "ACL", "SCRIPT", "DEBUG", "CLUSTER", "COMMAND", "FUNCTION", "LATENCY",
                   "MEMORY", "MODULE", "OBJECT", "PUBSUB", "SLOWLOG", "XGROUP", "XINFO"]
                ==> r.value.subcommand == up(e.args[1]))
            && (r.value.subcommand != "" ==>
                  && |e.args| >= 2 && r.value.subcommand == up(e.args[1])
                  && up(e.args[0]) in
                       ["CLIENT", "CONFIG", "ACL", "SCRIPT", "DEBUG", "CLUSTER", "COMMAND", "FUNCTION", "LATENCY",
                        "MEMORY", "MODULE", "OBJECT", "PUBSUB", "SLOWLOG", "XGROUP", "XINFO"])
  {
    hide Parse, Print, SplitHostPort, Unambiguous;
    ParseInvertsPrint(e, up);
    ListedCommands(up(e.args[0]));
  }

  lemma ListedCommands(command: string)
    ensures command in COMMANDS_WITH_SUBCOMMAND <==>
            command in ["CLIENT", "CONFIG", "ACL", "SCRIPT", "DEBUG", "CLUSTER", "COMMAND", "FUNCTION", "LATENCY",
                        "MEMORY", "MODULE", "OBJECT", "PUBSUB", "SLOWLOG", "XGROUP", "XINFO"]
  {
  }

  /** The '+' in front is optional. */
  lemma PlusIsOptional(line: string, up: string -> string)
    requires line != "" && line[0] != '+' && TrimEol(line) != ""
    ensures Parse("+" + line, up) == Parse(line, up)
  {
    hide ParseTrimmed;
    var t := TrimEol(line);
    TrimEolBehind(line);
    assert ("+" + t)[1..] == t && t[0] == line[0];
  }

  lemma TrimEolBehind(line: string)
    requires TrimEol(line) != ""
    ensures TrimEol("+" + line) == "+" + TrimEol(line)
  {
    hide TrimEol;
    var t := TrimEol(line);
    assert line == t + line[|t|..];
    assert "+" + line == ("+" + t) + line[|t|..];
    assert ("+" + t)[|t|] == t[|t| - 1];
    TrimEolOf("+" + t, line[|t|..]);
  }

  /** Only line terminators make an empty line. */
  lemma EmptyLineExactly(line: string, up: string -> string)
    ensures Parse(line, up) == Err(EmptyLine) <==> forall i | 0 <= i < |line| :: line[i] == '\r' || line[i] == '\n'
  {
    hide ParseTrimmed;
    var t := TrimEol(line);
    if t != "" {
      NotEmptyLine(if t[0] == '+' then t[1..] else t, up);
      assert line[|t| - 1] == t[|t| - 1];
    }
  }

  lemma NotEmptyLine(line: string, up: string -> string)
    ensures ParseTrimmed(line, up) != Err(EmptyLine)
  {
    hide IndexByte, ParseInt, CloseIndex, SplitHostPort, TrimBlanks, Lexer.Args, EventFrom;
  }

  // ---- lines that are not as Redis prints them ----

  /** The bracketed segment: the text up to the first space has to be a number, negative or signed ones included. */
  lemma BracketBodyParts(text: string, addr: string, remainder: string)
    requires ' ' !in text
    ensures BracketBody(text + " " + addr, remainder) ==
            match ParseInt(text)
            case None => Err(InvalidDb)
            case Some(db) => Ok(Bracket(db, SplitHostPort(addr), remainder))
    ensures BracketBody(text, remainder) == Err(MissingSpaceInBracket)
  {
    hide SplitHostPort, IndexByte, ParseInt;
    var body := text + " " + addr;
    assert body[..|text|] == text && body[|text| + 1..] == addr;
    IndexByteIs(body, ' ', |text|);
    assert IndexByte(text, ' ') == -1;
  }

  /** Without a space, or with nothing in front of it, there is no timestamp to speak of. */
  lemma NoTimestampExactly(line: string, up: string -> string)
    ensures ParseTrimmed(line, up) == Err(NoSpaceAfterTimestamp) <==> ' ' !in line || line[0] == ' '
  {
    hide ParseInt, CloseIndex, SplitHostPort, TrimBlanks, Lexer.Args, EventFrom;
    var space := IndexByte(line, ' ');
    if space >= 0 {
      assert line[space] == ' ' && line[space] in line;
      assert space > 0 ==> line[..space][0] == line[0];
    }
  }

  /** Of several faults in one line the first in this order is reported: timestamp, space in the bracket, database,
      arguments. */
  lemma FirstFault(ts: string, text: string, addr: string, spaced: bool, quoted: string, up: string -> string)
    requires ts != "" && ' ' !in ts && ' ' !in text && quoted != "" && quoted[0] == '"'
    requires Unambiguous(if spaced then text + " " + addr else text)
    ensures var body := if spaced then text + " " + addr else text;
            var r := ParseTrimmed(ts + (" " + ("[" + (body + ("] " + quoted)))), up);
            if Timestamp(ts).Err? then r == Err(Timestamp(ts).error)
            else if !spaced then r == Err(MissingSpaceInBracket)
            else if ParseInt(text) == None then r == Err(InvalidDb)
            else if Lexer.Args(quoted).Err? then r == Err(InvalidArgs(Lexer.Args(quoted).error))
            else Lexer.Args(quoted).value != [] ==>
              r == Ok(EventFrom(Timestamp(ts).value, ParseInt(text).value, SplitHostPort(addr),
                                Lexer.Args(quoted).value, up))
  {
    hide Timestamp, BracketOf, Lexer.Args, IndexByte, EventFrom, BracketBody, SplitHostPort, ParseInt, Unambiguous;
    var body := if spaced then text + " " + addr else text;
    var rest := "[" + (body + ("] " + quoted));
    SpaceAfter(ts, rest);
    BracketOfBody(body, quoted);
    BracketBodyParts(text, addr, quoted);
  }

  lemma SpaceAfter(ts: string, rest: string)
    requires ' ' !in ts
    ensures var line := ts + (" " + rest);
            IndexByte(line, ' ') == |ts| && line[..|ts|] == ts && line[|ts| + 1..] == rest
  {
    hide IndexByte;
    var line := ts + (" " + rest);
    TakeDrop(ts, " " + rest);
    TakeDrop(" ", rest);
    DropDrop(line, |ts|, 1);
    IndexByteIs(line, ' ', |ts|);
  }

  /** A line that ends with its bracketed segment has no command. */
  lemma NothingBehindTheBracket(ts: string, text: string, addr: string, up: string -> string)
    requires ts != "" && ' ' !in ts && ' ' !in text && Unambiguous(text + " " + addr)
    requires Timestamp(ts).Ok? && ParseInt(text).Some?
    ensures ParseTrimmed(ts + (" " + ("[" + (text + " " + addr + "]"))), up) == Err(NoCommand)
  {
    hide Timestamp, IndexByte, EventFrom, BracketBody, SplitHostPort, ParseInt, Unambiguous, BracketOf, Lexer.Args;
    var body := text + " " + addr;
    SpaceAfter(ts, "[" + (body + "]"));
    BareBracket(body);
    BracketBodyParts(text, addr, "");
    Lexer.NoArgs();
  }

  lemma BareBracket(body: string)
    requires Unambiguous(body)
    ensures BracketOf("[" + (body + "]")) == BracketBody(body, "")
  {
    hide CloseIndex, BracketBody, Unambiguous;
    TakeDrop("[", body + "]");
    TakeDrop(body, "]");
    DropDrop(body + "]", |body|, 1);
    assert "]"[1..] == "" && TrimBlanks("") == "" && Ends("");
    CloseBefore(body, "]");
  }

  /** A segment that is never closed, and one that is never opened, are told apart. */
  lemma NoBracketedSegment(ts: string, rest: string, up: string -> string)
    requires ts != "" && ' ' !in ts && Timestamp(ts).Ok?
    requires rest == "" || rest[0] != '[' || ']' !in rest
    ensures ParseTrimmed(ts + (" " + rest), up) ==
            Err(if rest != "" && rest[0] == '[' then MissingCloseBracket else MissingOpenBracket)
  {
    hide Timestamp, IndexByte, EventFrom, BracketOf, Lexer.Args;
    SpaceAfter(ts, rest);
    NotBracketed(rest);
  }

  lemma NotBracketed(rest: string)
    requires rest == "" || rest[0] != '[' || ']' !in rest
    ensures BracketOf(rest) == Err(if rest != "" && rest[0] == '[' then MissingCloseBracket else MissingOpenBracket)
  {
    hide BracketBody, CloseIndex, TrimBlanks;
    if rest != "" && rest[0] == '[' {
      NeverCloses(rest[1..]);
    }
  }

  lemma NeverCloses(s: string)
    requires ']' !in s
    ensures CloseIndex(s) == None
  {
  }

  // ---- addresses ----

  /** The shapes of an address: "ip:port", "[ip]:port", "[ip]" with other text or none behind it, or no port at all. */
  datatype Peer =
    | Inet(ip: string, port: string)
    | Inet6(ip: string, port: string)
    | Inet6Bare(ip: string, rest: string)
    | Bare(name: string)

  function PeerText(p: Peer): string {
    match p
    case Inet(ip, port) => ip + ":" + port
    case Inet6(ip, port) => "[" + ip + "]:" + port
    case Inet6Bare(ip, rest) => "[" + ip + "]" + rest
    case Bare(name) => name
  }

  /** An address with an opening bracket in front and a closing one behind it is not of the first or last shape. */
  predicate Bracketless(addr: string) {
    addr == "" || addr[0] != '[' || ']' !in addr
  }

  predicate ValidPeer(p: Peer) {
    match p
    case Inet(ip, port) => ':' !in port && Bracketless(ip + ":" + port)
    case Inet6(ip, _) => ']' !in ip
    case Inet6Bare(ip, rest) => ']' !in ip && (rest == "" || rest[0] != ':')
    case Bare(name) => ':' !in name && Bracketless(name)
  }

  lemma NoBracket(addr: string)
    ensures Bracketless(addr) <==> !(addr != "" && addr[0] == '[' && IndexByte(addr, ']') != -1)
  {
    if addr != "" && addr[0] == '[' && IndexByte(addr, ']') != -1 {
      assert addr[IndexByte(addr, ']')] == ']';
    }
  }

  lemma SplitBracketed(ip: string, rest: string)
    requires ']' !in ip
    ensures SplitHostPort("[" + ip + "]" + rest) ==
            Source(ip, if rest != "" && rest[0] == ':' then rest[1..] else "")
  {
    hide IndexByte;
    var addr, end := "[" + ip + "]" + rest, |ip| + 1;
    assert addr[..end] == "[" + ip && addr[1..end] == ip;
    assert addr[end + 1..] == rest;
    IndexByteIs(addr, ']', end);
  }

  lemma SplitPlain(addr: string)
    requires Bracketless(addr)
    ensures var last := LastIndexByte(addr, ':');
            SplitHostPort(addr) ==
            if last == -1 then Source(addr, "") else Source(addr[..last], addr[last + 1..])
  {
    hide IndexByte, LastIndexByte;
    NoBracket(addr);
  }

  /** Every address has one of the shapes, and SplitHostPort takes it apart accordingly. */
  lemma SplitHostPortOfPeer(p: Peer)
    requires ValidPeer(p)
    ensures SplitHostPort(PeerText(p)) ==
            match p
            case Inet(ip, port) => Source(ip, port)
            case Inet6(ip, port) => Source(ip, port)
            case Inet6Bare(ip, _) => Source(ip, "")
            case Bare(name) => Source(name, "")
  {
    hide SplitHostPort, Bracketless, LastIndexByte;
    var addr := PeerText(p);
    match p
    case Inet(ip, port) =>
      SplitPlain(addr);
      assert addr[..|ip|] == ip && addr[|ip| + 1..] == port;
      LastIndexByteIs(addr, ':', |ip|);
    case Inet6(ip, port) =>
      SplitBracketed(ip, ":" + port);
      assert addr == "[" + ip + "]" + (":" + port);
    case Inet6Bare(ip, rest) =>
      SplitBracketed(ip, rest);
    case Bare(_) =>
      SplitPlain(addr);
  }

  lemma EveryAddressIsAPeer(addr: string) returns (p: Peer)
    ensures ValidPeer(p) && PeerText(p) == addr
  {
    hide IndexByte, LastIndexByte;
    NoBracket(addr);
    if !Bracketless(addr) {
      var end := IndexByte(addr, ']');
      p := BracketedPeer(addr, end);
      return;
    }
    var last := LastIndexByte(addr, ':');
    if last == -1 {
      return Bare(addr);
    }
    assert addr == addr[..last] + ":" + addr[last + 1..];
    return Inet(addr[..last], addr[last + 1..]);
  }

  lemma BracketedPeer(addr: string, end: nat) returns (p: Peer)
    requires 0 < end < |addr| && addr[0] == '[' && addr[end] == ']' && ']' !in addr[..end]
    ensures ValidPeer(p) && PeerText(p) == addr
  {
    var ip, rest := addr[1..end], addr[end + 1..];
    assert addr == "[" + ip + "]" + rest;
    assert forall i | 0 <= i < |ip| :: ip[i] == addr[..end][i + 1];
    if rest == "" || rest[0] != ':' {
      return Inet6Bare(ip, rest);
    }
    assert rest == ":" + rest[1..] && addr == "[" + ip + "]:" + rest[1..];
    return Inet6(ip, rest[1..]);
  }
}
