/** The MONITOR stream (internal/monitor/client.go, readLoop): cutting it into lines and turning lines into events. */
module Framing {
  import opened Text
  import opened Events
  import opened Parser
  import Lexer

  /** The terminated lines of the input, terminators included; an unterminated tail is no line. */
  function Lines(input: string): (lines: seq<string>)
    ensures forall i | 0 <= i < |lines| :: lines[i] != ""
  {
    var i := IndexByte(input, '\n');
    if i == -1 then [] else [input[..i + 1]] + Lines(input[i + 1..])
  }

  type Outcome = Result<Event, ParseError>

  /** What a session makes of its lines: the outcomes of the '+' lines up to the first '-' line, and that line. */
  datatype Session = Session(outcomes: seq<Outcome>, refusal: Option<string>)

  function SessionOf(lines: seq<string>, up: string -> string): Session
    requires forall i | 0 <= i < |lines| :: lines[i] != ""
  {
    if lines == [] then Session([], None)
    else if lines[0][0] == '-' then Session([], Some(lines[0]))
    else
      var rest := SessionOf(lines[1..], up);
      if lines[0][0] == '+' then rest.(outcomes := [Parse(lines[0], up)] + rest.outcomes) else rest
  }

  function SessionFrom(input: string, up: string -> string): Session {
    SessionOf(Lines(input), up)
  }

  lemma SessionAtEnd(input: string, up: string -> string)
    requires '\n' !in input
    ensures SessionFrom(input, up) == Session([], None)
  {
    hide Parse;
  }

  lemma SessionStep(input: string, up: string -> string)
    requires '\n' in input
    ensures var i := IndexByte(input, '\n');
            && i >= 0
            && var line, later := input[..i + 1], SessionFrom(input[i + 1..], up);
            SessionFrom(input, up) ==
            if line[0] == '-' then Session([], Some(line))
            else if line[0] == '+' then later.(outcomes := [Parse(line, up)] + later.outcomes)
            else later
  {
    hide Parse, IndexByte;
    var i := IndexByte(input, '\n');
    assert Lines(input)[1..] == Lines(input[i + 1..]);
  }

  function Parsed(outcomes: seq<Outcome>): seq<Event> {
    if outcomes == [] then []
    else if outcomes[0].Ok? then [outcomes[0].value] + Parsed(outcomes[1..])
    else Parsed(outcomes[1..])
  }

  function Failures(outcomes: seq<Outcome>): nat {
    if outcomes == [] then 0 else (if outcomes[0].Ok? then 0 else 1) + Failures(outcomes[1..])
  }

  lemma OutcomesSnoc(outcomes: seq<Outcome>, o: Outcome)
    ensures Parsed(outcomes + [o]) == Parsed(outcomes) + (if o.Ok? then [o.value] else [])
    ensures Failures(outcomes + [o]) == Failures(outcomes) + (if o.Ok? then 0 else 1)
  {
    if outcomes == [] {
      assert (outcomes + [o])[1..] == [];
    } else {
      assert (outcomes + [o])[1..] == outcomes[1..] + [o];
      OutcomesSnoc(outcomes[1..], o);
    }
  }

  lemma OutcomesAppend(a: seq<Outcome>, b: seq<Outcome>)
    ensures Parsed(a + b) == Parsed(a) + Parsed(b) && Failures(a + b) == Failures(a) + Failures(b)
  {
    if a == [] {
      assert a + b == b;
    } else {
      assert (a + b)[1..] == a[1..] + b;
      OutcomesAppend(a[1..], b);
    }
  }

  lemma OutcomesAddUp(outcomes: seq<Outcome>)
    ensures |Parsed(outcomes)| + Failures(outcomes) == |outcomes|
  {
  }

  /** `all` is what has been done followed by what the rest of the input yields. */
  ghost predicate Midway(all: Session, done: seq<Outcome>, rest: string, up: string -> string) {
    var later := SessionFrom(rest, up);
    all == later.(outcomes := done + later.outcomes)
  }

  lemma MidwayAtStart(input: string, up: string -> string)
    ensures Midway(SessionFrom(input, up), [], input, up)
  {
    var later := SessionFrom(input, up);
    assert [] + later.outcomes == later.outcomes;
  }

  lemma MidwayAtEnd(all: Session, done: seq<Outcome>, rest: string, up: string -> string)
    requires Midway(all, done, rest, up) && '\n' !in rest
    ensures all == Session(done, None)
  {
    SessionAtEnd(rest, up);
    assert done + [] == done;
  }

  lemma MidwayStep(all: Session, done: seq<Outcome>, input: string, up: string -> string)
    requires Midway(all, done, input, up) && '\n' in input
    ensures var i := IndexByte(input, '\n');
            && i >= 0
            && var line, rest := input[..i + 1], input[i + 1..];
            if line[0] == '-' then all == Session(done, Some(line))
            else if line[0] != '+' then Midway(all, done, rest, up)
            else
              && Midway(all, done + [Parse(line, up)], rest, up)
              && Parsed(done + [Parse(line, up)]) <= Parsed(all.outcomes)
              && Failures(done) <= Failures(all.outcomes)
  {
    hide Parse, SessionFrom, IndexByte, Parsed, Failures;
    SessionStep(input, up);
    var i := IndexByte(input, '\n');
    var r, later := Parse(input[..i + 1], up), SessionFrom(input[i + 1..], up).outcomes;
    assert done + [] == done;
    assert done + ([r] + later) == (done + [r]) + later;
    OutcomesAppend(done + [r], later);
    OutcomesSnoc(done, r);
  }

  // ---- what the server sends ----

  /** A printed line, a '+' line that is none, or a line with neither '+' nor '-' in front. */
  datatype Item = Reply(e: Entry) | Garbage(text: string) | Stray(text: string)

  function Same(s: string): string {
    s
  }

  // Whether a line parses, and the error if not, has nothing to do with the case of letters.
  lemma ErrorsIgnoreCase(line: string, up: string -> string)
    ensures Parse(line, Same).Err? <==> Parse(line, up).Err?
    ensures Parse(line, up).Err? ==> Parse(line, up) == Parse(line, Same)
  {
    hide Timestamp, BracketOf, Lexer.Args, IndexByte, EventFrom, TrimEol;
  }

  predicate ValidItem(item: Item) {
    match item
    case Reply(e) => Printable(e) && '\n' !in e.addr && e.sec <= MAX_INT64 && e.db <= MAX_INT64
    case Garbage(text) => '\n' !in text && text != "" && text[0] == '+' && Parse(text + "\n", Same).Err?
    case Stray(text) => '\n' !in text && (text == "" || text[0] !in "+-")
  }

  predicate ValidItems(items: seq<Item>) {
    forall i | 0 <= i < |items| :: ValidItem(items[i])
  }

  function ItemText(item: Item): string
    requires ValidItem(item)
  {
    match item
    case Reply(e) => Print(e)
    case Garbage(text) => text + "\n"
    case Stray(text) => text + "\n"
  }

  function Wire(items: seq<Item>): string
    requires ValidItems(items)
  {
    if items == [] then "" else ItemText(items[0]) + Wire(items[1..])
  }

  function EventsOf(items: seq<Item>, up: string -> string): (events: seq<Event>)
    requires ValidItems(items)
  {
    if items == [] then []
    else if items[0].Reply? then [EventOf(items[0].e, up)] + EventsOf(items[1..], up)
    else EventsOf(items[1..], up)
  }

  function Garbled(items: seq<Item>): nat {
    if items == [] then 0 else (if items[0].Garbage? then 1 else 0) + Garbled(items[1..])
  }

  /** What the read loop is to make of the lines: the printed events, and an error for each '+' line that is none. */
  function OutcomesOf(items: seq<Item>, up: string -> string): seq<Outcome>
    requires ValidItems(items)
  {
    if items == [] then []
    else
      var later := OutcomesOf(items[1..], up);
      match items[0]
      case Reply(e) => [Ok(EventOf(e, up))] + later
      case Garbage(text) => [Parse(text + "\n", Same)] + later
      case Stray(_) => later
  }

  lemma {:induction false} OutcomesOfItems(items: seq<Item>, up: string -> string)
    requires ValidItems(items)
    ensures Parsed(OutcomesOf(items, up)) == EventsOf(items, up) && Failures(OutcomesOf(items, up)) == Garbled(items)
    decreases |items|
  {
    hide EventOf, Parse, Printable;
    if items != [] {
      OutcomesOfItems(items[1..], up);
      assert OutcomesOf(items, up) != OutcomesOf(items[1..], up) ==>
          OutcomesOf(items, up)[1..] == OutcomesOf(items[1..], up);
    }
  }

  lemma ShownIsOneLine(e: Entry)
    requires Printable(e) && '\n' !in e.addr
    ensures '\n' !in Shown(e)
  {
    hide Lexer.ReprArgs;
    Lexer.ReprArgsPrintable(e.args);
    assert '\n' !in Stamp(e.sec, e.usec);
    assert '\n' !in Bracketed(e.db, e.addr, Lexer.ReprArgs(e.args));
  }

  lemma CutLine(body: string, rest: string)
    requires '\n' !in body
    ensures Lines(body + "\n" + rest) == [body + "\n"] + Lines(rest)
  {
    var line := body + "\n";
    TakeDrop(line, rest);
    assert (line + rest)[..|body|] == body;
    IndexByteIs(line + rest, '\n', |body|);
  }

  lemma CutItem(item: Item, rest: string)
    requires ValidItem(item)
    ensures Lines(ItemText(item) + rest) == [ItemText(item)] + Lines(rest)
  {
    hide Shown, Lines;
    match item
    case Reply(e) =>
      ShownIsOneLine(e);
      assert Print(e) == (Shown(e) + "\r") + "\n";
      CutLine(Shown(e) + "\r", rest);
    case Garbage(text) =>
      CutLine(text, rest);
    case Stray(text) =>
      CutLine(text, rest);
  }

  lemma SessionOfItem(item: Item, lines: seq<string>, up: string -> string)
    requires ValidItem(item) && forall i | 0 <= i < |lines| :: lines[i] != ""
    ensures var s := SessionOf(lines, up);
            SessionOf([ItemText(item)] + lines, up) ==
            match item
            case Reply(e) => s.(outcomes := [Ok(EventOf(e, up))] + s.outcomes)
            case Garbage(text) => s.(outcomes := [Parse(text + "\n", Same)] + s.outcomes)
            case Stray(_) => s
  {
    hide Shown, EventOf, Parse;
    assert ([ItemText(item)] + lines)[1..] == lines;
    match item
    case Reply(e) =>
      ShownEndsInQuote(e);
      assert Print(e)[0] == Shown(e)[0];
      ParseInvertsPrint(e, up);
    case Garbage(text) =>
      ErrorsIgnoreCase(text + "\n", up);
    case Stray(_) =>
  }

  /** The session of `rest` behind some outcomes. */
  function Behind(outcomes: seq<Outcome>, s: Session): Session {
    s.(outcomes := outcomes + s.outcomes)
  }

  lemma BehindNothing(s: Session)
    ensures Behind([], s) == s
  {
    assert [] + s.outcomes == s.outcomes;
  }

  lemma BehindCons(o: Outcome, outcomes: seq<Outcome>, s: Session)
    ensures Behind([o] + outcomes, s) == Behind(outcomes, s).(outcomes := [o] + Behind(outcomes, s).outcomes)
  {
    assert [o] + outcomes + s.outcomes == [o] + (outcomes + s.outcomes);
  }

  lemma WireCons(items: seq<Item>, rest: string, up: string -> string)
    requires ValidItems(items) && items != []
    ensures ValidItem(items[0]) && ValidItems(items[1..])
    ensures items[0].Reply? ==> Printable(items[0].e)
    ensures Wire(items) + rest == ItemText(items[0]) + (Wire(items[1..]) + rest)
    ensures OutcomesOf(items, up) ==
            match items[0]
            case Reply(e) => [Ok(EventOf(e, up))] + OutcomesOf(items[1..], up)
            case Garbage(text) => [Parse(text + "\n", Same)] + OutcomesOf(items[1..], up)
            case Stray(_) => OutcomesOf(items[1..], up)
  {
    hide ItemText, Printable, EventOf, Parse;
    Assoc(ItemText(items[0]), Wire(items[1..]), rest);
  }

  lemma NoWire(rest: string, up: string -> string)
    ensures Wire([]) + rest == rest && OutcomesOf([], up) == []
  {
    assert "" + rest == rest;
  }

  lemma {:induction false} SessionOfWire(items: seq<Item>, rest: string, up: string -> string)
    requires ValidItems(items)
    ensures SessionOf(Lines(Wire(items) + rest), up) == Behind(OutcomesOf(items, up), SessionOf(Lines(rest), up))
    decreases |items|
  {
    hide ItemText, Printable, Parse, EventOf, Lines, SessionOf, Wire, OutcomesOf, Behind;
    var s := SessionOf(Lines(rest), up);
    if items == [] {
      NoWire(rest, up);
      BehindNothing(s);
    } else {
      var more := Wire(items[1..]) + rest;
      WireCons(items, rest, up);
      CutItem(items[0], more);
      SessionOfItem(items[0], Lines(more), up);
      SessionOfWire(items[1..], rest, up);
      match items[0]
      case Reply(e) => BehindCons(Ok(EventOf(e, up)), OutcomesOf(items[1..], up), s);
      case Garbage(text) => BehindCons(Parse(text + "\n", Same), OutcomesOf(items[1..], up), s);
      case Stray(_) =>
    }
  }

  /** A stream of printed lines, '+' lines that do not parse, stray lines and an unterminated tail yields exactly the
      printed events, in order, and one failure for each line that does not parse. */
  lemma StreamFraming(items: seq<Item>, tail: string, up: string -> string)
    requires ValidItems(items) && '\n' !in tail
    ensures SessionFrom(Wire(items) + tail, up) == Session(OutcomesOf(items, up), None)
    ensures Parsed(OutcomesOf(items, up)) == EventsOf(items, up) && Failures(OutcomesOf(items, up)) == Garbled(items)
  {
    hide EventsOf, OutcomesOf, Garbled, Wire, ValidItems, Parsed, Failures;
    SessionOfWire(items, tail, up);
    OutcomesOfItems(items, up);
    assert SessionOf(Lines(tail), up) == Session([], None);
    assert OutcomesOf(items, up) + [] == OutcomesOf(items, up);
  }

  /** A '-' line ends the session after exactly the earlier outcomes, whatever follows it. */
  lemma ErrorReplyEndsTheSession(items: seq<Item>, message: string, rest: string, up: string -> string)
    requires ValidItems(items) && '\n' !in message
    ensures SessionFrom(Wire(items) + ("-" + message + "\n" + rest), up) ==
            Session(OutcomesOf(items, up), Some("-" + message + "\n"))
    ensures Parsed(OutcomesOf(items, up)) == EventsOf(items, up) && Failures(OutcomesOf(items, up)) == Garbled(items)
  {
    hide EventsOf, OutcomesOf, Garbled, Wire, ValidItems, Parsed, Failures;
    SessionOfWire(items, "-" + message + "\n" + rest, up);
    OutcomesOfItems(items, up);
    CutLine("-" + message, rest);
    assert SessionOf(["-" + message + "\n"] + Lines(rest), up) == Session([], Some("-" + message + "\n"));
    assert OutcomesOf(items, up) + [] == OutcomesOf(items, up);
  }
}
