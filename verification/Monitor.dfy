/** The MONITOR client (internal/monitor/client.go): one session from the handshake to the end of the read loop with its
    drop policy, and the reconnect loop. */
module Monitor {
  import opened Text
  import opened Events
  import opened Parser
  import opened Framing
  import opened History
  import opened Durations
  import opened Metrics
  import Health
  import Resp

  /** A buffered Go channel. `sent` is everything it ever accepted; other goroutines receive from it at any time. */
  class Queue {
    const capacity: nat
    var buf: seq<Event>
    ghost var sent: seq<Event>
    ghost var received: seq<Event>

    ghost predicate Valid()
      reads this
    {
      |buf| <= capacity && sent == received + buf
    }

    constructor (capacity: nat)
      ensures Valid() && this.capacity == capacity && sent == [] && buf == []
    {
      this.capacity := capacity;
      buf, sent, received := [], [], [];
    }

    /** Any number of receives by the dispatcher. */
    method Receivers()
      requires Valid()
      modifies this
      ensures Valid() && sent == old(sent) && old(received) <= received
    {
      var k: nat :| k <= |buf|;
      assert received + buf == (received + buf[..k]) + buf[k..];
      received := received + buf[..k];
      buf := buf[k..];
    }

    /** select { case q <- ev: default: } */
    method TrySend(ev: Event) returns (ok: bool)
      requires Valid()
      modifies this
      ensures Valid() && received == old(received)
      ensures ok <==> |old(buf)| < capacity
      ensures buf == if ok then old(buf) + [ev] else old(buf)
      ensures sent == if ok then old(sent) + [ev] else old(sent)
    {
      ok := |buf| < capacity;
      if ok {
        assert received + (buf + [ev]) == (received + buf) + [ev];
        buf, sent := buf + [ev], sent + [ev];
      }
    }

    /** select { case q <- ev: case <-ctx.Done(): }; `ok` is false when the context won. */
    method Send(ev: Event) returns (ok: bool)
      requires Valid()
      modifies this
      ensures Valid() && received == old(received)
      ensures ok ==> |old(buf)| < capacity
      ensures buf == if ok then old(buf) + [ev] else old(buf)
      ensures sent == if ok then old(sent) + [ev] else old(sent)
    {
      ok := false;
      var ready: bool :| true;
      if ready {
        ok := TrySend(ev);
      }
    }
  }

  lemma QueueLength(q: Queue)
    requires q.Valid()
    ensures |q.sent| == |q.received| + |q.buf|
  {
  }

  /** How a read fails once no complete line is left, or how the loop ended before that. */
  datatype LoopError = ServerClosed | Cancelled | ReadFailed | ServerError(line: string)

  lemma NothingYet()
    ensures Parsed([]) == [] && Failures([]) == 0
    ensures Items<Event>([]) == [] && Kept<Event>([]) == []
    ensures forall b :: Count<Event>([], b) == 0
  {
  }

  /** An offer was refused exactly when the queue was full: it had `start` events in the beginning, has accepted those
      offered before, and has been relieved of `taken[i]` by the time of offer `i`. */
  predicate RefusedWhenFull(capacity: nat, start: nat, offered: seq<Mark<Event>>, taken: seq<nat>) {
    && |taken| == |offered|
    && (forall i | 0 <= i < |offered| ::
          && taken[i] <= start + Count(offered[..i], true)
          && (offered[i].ok <==> start + Count(offered[..i], true) - taken[i] < capacity))
    && (forall i, j | 0 <= i < j < |taken| :: taken[i] <= taken[j])
  }

  lemma RefusedSnoc(capacity: nat, start: nat, offered: seq<Mark<Event>>, taken: seq<nat>, m: Mark<Event>, k: nat)
    requires RefusedWhenFull(capacity, start, offered, taken)
    requires taken == [] || taken[|taken| - 1] <= k
    requires k <= start + Count(offered, true) && (m.ok <==> start + Count(offered, true) - k < capacity)
    ensures RefusedWhenFull(capacity, start, offered + [m], taken + [k])
  {
    hide Count;
    var more, later := offered + [m], taken + [k];
    forall i | 0 <= i < |more|
      ensures more[..i] == if i < |offered| then offered[..i] else offered
    {
    }
    assert forall i | 0 <= i < |taken| :: later[i] == taken[i] <= k;
  }

  // The bookkeeping of one more offer.
  lemma OneMoreOffer(sent: seq<Event>, capacity: nat, start: nat, offered: seq<Mark<Event>>, taken: seq<nat>,
                     m: Mark<Event>, k: nat)
    requires RefusedWhenFull(capacity, start, offered, taken)
    requires taken == [] || taken[|taken| - 1] <= k
    requires k <= start + |Kept(offered)| && (m.ok <==> start + |Kept(offered)| - k < capacity)
    ensures RefusedWhenFull(capacity, start, offered + [m], taken + [k])
    ensures Items(offered + [m]) == Items(offered) + [m.item]
    ensures sent + Kept(offered + [m]) == sent + Kept(offered) + (if m.ok then [m.item] else [])
    ensures Count(offered + [m], false) == Count(offered, false) + (if m.ok then 0 else 1)
  {
    hide RefusedWhenFull, Count, Kept;
    Snoc(offered, m);
    RefusedSnoc(capacity, start, offered, taken, m, k);
    AppendAssoc(sent, Kept(offered), if m.ok then [m.item] else []);
  }

  lemma NoneRefused(capacity: nat, start: nat)
    ensures RefusedWhenFull(capacity, start, [], [])
  {
  }

  lemma RoomForAllIf(capacity: nat, start: nat, offered: seq<Mark<Event>>, taken: seq<nat>)
    requires RefusedWhenFull(capacity, start, offered, taken)
    ensures start + |offered| <= capacity ==> Count(offered, false) == 0
  {
    if start + |offered| <= capacity {
      RoomForAll(capacity, start, offered, taken);
    }
  }

  /** While the queue could hold everything, nothing is refused. */
  lemma RoomForAll(capacity: nat, start: nat, offered: seq<Mark<Event>>, taken: seq<nat>)
    requires RefusedWhenFull(capacity, start, offered, taken) && start + |offered| <= capacity
    ensures Count(offered, false) == 0
  {
    hide Count;
    AllKept(offered);
  }

  lemma {:induction false} AllKept(offered: seq<Mark<Event>>)
    requires forall i | 0 <= i < |offered| :: offered[i].ok
    ensures Count(offered, false) == 0
    decreases |offered|
  {
    if offered != [] {
      AllKept(offered[..|offered| - 1]);
    }
  }

  // ---- the handshake ----

  function AuthArgs(username: string, password: string): seq<string> {
    if username != "" then ["AUTH", username, password] else ["AUTH", password]
  }

  /** Everything the client writes in one session. */
  function Greeting(username: string, password: string): string {
    (if password != "" then Resp.EncodeCommand(AuthArgs(username, password)) else "")
    + Resp.EncodeCommand(["MONITOR"])
  }

  /** With a password the server is sent one AUTH command, with the username in front of the password if there is one,
      and then MONITOR; RESP gives exactly these back. */
  lemma GreetingOnTheWire(username: string, password: string, rest: string)
    requires password != "" && |username| <= MAX_INT64 && |password| <= MAX_INT64
    ensures var auth := if username != "" then ["AUTH", username, password] else ["AUTH", password];
            && Greeting(username, password) == Resp.EncodeCommand(auth) + Resp.EncodeCommand(["MONITOR"])
            && Resp.TakeLine(Greeting(username, password)) ==
               Some((Resp.ArrayHeader(|auth|), Resp.EncodeBulks(auth) + Resp.EncodeCommand(["MONITOR"])))
            && Resp.ReadBulks(|auth|, Resp.EncodeBulks(auth) + Resp.EncodeCommand(["MONITOR"])) ==
               (Ok(auth), Resp.EncodeCommand(["MONITOR"]))
    ensures Greeting(username, "") == Resp.EncodeCommand(["MONITOR"])
  {
    hide Resp.EncodeCommand, Resp.EncodeBulks, Resp.TakeLine, Resp.ReadBulks, Resp.ArrayHeader;
    var auth := if username != "" then ["AUTH", username, password] else ["AUTH", password];
    Resp.CommandFraming(auth, Resp.EncodeCommand(["MONITOR"]));
    assert "" + Resp.EncodeCommand(["MONITOR"]) == Resp.EncodeCommand(["MONITOR"]);
  }

  datatype Refusal = AuthFailed(e: Resp.RespError) | MonitorRejected(e: Resp.RespError)

  /** What the server's replies to AUTH, if there is a password, and to MONITOR come to, and the data after them. */
  function Handshake(password: string, input: string): (Result<(), Refusal>, string) {
    var (auth, rest) := if password != "" then Resp.ReadSimple(input) else (Ok(()), input);
    if auth.Err? then (Err(AuthFailed(auth.error)), rest)
    else
      var (monitor, stream) := Resp.ReadSimple(rest);
      (if monitor.Err? then Err(MonitorRejected(monitor.error)) else Ok(()), stream)
  }

  predicate Accepts(reply: string) {
    reply != "" && reply[0] == '+' && '\n' !in reply && reply[|reply| - 1] != '\r'
  }

  /** Two accepting replies are all the handshake consumes: every line after them reaches the read loop, and a stream
      of printed lines comes out as exactly the printed events. */
  lemma SessionOverTheWire(password: string, ok1: string, ok2: string, items: seq<Item>, tail: string,
                           up: string -> string)
    requires Accepts(ok1) && Accepts(ok2) && ValidItems(items) && '\n' !in tail
    ensures var stream := Wire(items) + tail;
            var replies := (if password != "" then ok1 + "\r\n" else "") + (ok2 + "\r\n" + stream);
            && Handshake(password, replies) == (Ok(()), stream)
            && SessionFrom(stream, up) == Session(OutcomesOf(items, up), None)
            && Parsed(OutcomesOf(items, up)) == EventsOf(items, up)
            && Failures(OutcomesOf(items, up)) == Garbled(items)
  {
    hide Wire, EventsOf, OutcomesOf, Garbled, Parsed, Failures, SessionFrom, Resp.ReadSimple, ValidItems;
    var stream := Wire(items) + tail;
    StreamFraming(items, tail, up);
    Resp.SimpleReply(ok2, stream);
    Resp.SimpleReply(ok1, ok2 + "\r\n" + stream);
    assert "" + (ok2 + "\r\n" + stream) == ok2 + "\r\n" + stream;
  }

  /** An error reply to AUTH or to MONITOR ends the handshake with the server's words. */
  lemma RefusedOverTheWire(password: string, ok: string, text: string, rest: string)
    requires Accepts(ok) && '\n' !in text && (text == "" || text[|text| - 1] != '\r')
    ensures password != "" ==>
              Handshake(password, "-" + text + "\r\n" + rest) == (Err(AuthFailed(Resp.ServerError(text))), rest)
    ensures var replies := (if password != "" then ok + "\r\n" else "") + ("-" + text + "\r\n" + rest);
            Handshake(password, replies) == (Err(MonitorRejected(Resp.ServerError(text))), rest)
  {
    hide Resp.ReadSimple;
    Resp.SimpleReply("-" + text, rest);
    assert ("-" + text)[1..] == text;
    Resp.SimpleReply(ok, "-" + text + "\r\n" + rest);
    assert "" + ("-" + text + "\r\n" + rest) == "-" + text + "\r\n" + rest;
  }

  /** How one session went: the dial failed, a command could not be sent, the server refused, or the read loop ended. */
  datatype SessionEnd = NoConnection | SendFailed | Refused(why: Refusal) | Ended(error: LoopError)

  // ---- reconnecting ----

  /** One entry of the reconnect loop's log. */
  datatype Step = Resumed | Started | RoleClosed | Slept(delay: int)

  datatype Once = Finished | ContextDone | Failed

  /** What the world answers during one turn of the reconnect loop. */
  datatype Turn = Turn(cancelled: bool, active: bool, waitOk: bool, once: Once, activeAfter: bool, sleepOk: bool)

  datatype Backoff = Backoff(min: int, max: int)

  /** The normalisation in New. */
  function Normalised(min: int, max: int): (b: Backoff)
    ensures b.min > 0 && b.max > 0
    ensures b.min == if min > 0 then min else 1_000_000_000
    ensures b.max == if max >= b.min then max else 30_000_000_000
  {
    var min' := if min <= 0 then SECOND else min;
    Backoff(min', if max < min' then 30 * SECOND else max)
  }

  /** New repairs a maximum below the minimum, unless the minimum is above half a minute. */
  lemma NormalisedOrdered(min: int, max: int)
    ensures var b := Normalised(min, max);
            b.min <= b.max <==> !(min > 30 * SECOND && max < min)
  {
  }

  function SleepsSinceResume(log: seq<Step>): nat {
    if log == [] || log[|log| - 1].Resumed? then 0
    else SleepsSinceResume(log[..|log| - 1]) + (if log[|log| - 1].Slept? then 1 else 0)
  }

  function Sessions(log: seq<Step>): nat {
    if log == [] then 0
    else Sessions(log[..|log| - 1]) + (if log[|log| - 1].Started? then 1 else 0)
  }

  /** The delay after `n` slept failures. */
  function Delay(b: Backoff, n: nat): int {
    if n == 0 then b.min else Min(b.min * Pow2(n), b.max)
  }

  lemma DelayStep(b: Backoff, n: nat)
    requires 0 < b.min < 0x4000_0000_0000_0000 && 0 < b.max < 0x4000_0000_0000_0000
    ensures 0 < Delay(b, n) < 0x4000_0000_0000_0000
    ensures Min(Wrap64(2 * Delay(b, n)), b.max) == Delay(b, n + 1)
  {
    assert Pow2(1) == 2 * Pow2(0);
    CappedDoubling(b.min, n, b.max);
    assert b.min * Pow2(n) >= 1;
  }

  /** The closed form min(BackoffMin * 2^n, BackoffMax) holds for every n exactly when the bounds are ordered. */
  lemma DelayClosedForm(b: Backoff)
    ensures (forall n: nat :: Delay(b, n) == Min(b.min * Pow2(n), b.max)) <==> b.min <= b.max
  {
    assert b.min * Pow2(0) == b.min;
    if forall n: nat :: Delay(b, n) == Min(b.min * Pow2(n), b.max) {
      assert Delay(b, 0) == Min(b.min * Pow2(0), b.max);
    }
  }

  /** What one turn adds to the log, after `n` slept failures, and whether the loop goes on. */
  function TurnLog(hasGate: bool, b: Backoff, t: Turn, n: nat): (seq<Step>, bool) {
    var paused := hasGate && !t.active;
    if t.cancelled || (paused && !t.waitOk) then ([], false)
    else
      var begin := (if paused then [Resumed] else []) + [Started];
      if t.once != Failed then (begin, false)
      else if hasGate && !t.activeAfter then (begin + [RoleClosed], true)
      else (begin + [Slept(Delay(b, if paused then 0 else n))], t.sleepOk)
  }

  function LogOf(hasGate: bool, b: Backoff, turns: seq<Turn>, n: nat): seq<Step> {
    if turns == [] then []
    else
      var (steps, on) := TurnLog(hasGate, b, turns[0], n);
      steps + if on then LogOf(hasGate, b, turns[1..], SleepsAfter(n, steps)) else []
  }

  function SleepsAfter(n: nat, steps: seq<Step>): nat {
    (if Resumed in steps then 0 else n) + (if steps != [] && steps[|steps| - 1].Slept? then 1 else 0)
  }

  /** Every sleep of the log has the delay its own past prescribes. */
  predicate SleepsConform(b: Backoff, log: seq<Step>) {
    forall k | 0 <= k < |log| && log[k].Slept? :: log[k].delay == Delay(b, SleepsSinceResume(log[..k]))
  }

  lemma LogSnoc(b: Backoff, log: seq<Step>, s: Step)
    ensures Sessions(log + [s]) == Sessions(log) + (if s.Started? then 1 else 0)
    ensures SleepsSinceResume(log + [s]) ==
            if s.Resumed? then 0 else SleepsSinceResume(log) + (if s.Slept? then 1 else 0)
    ensures SleepsConform(b, log) && (s.Slept? ==> s.delay == Delay(b, SleepsSinceResume(log))) ==>
            SleepsConform(b, log + [s])
  {
    assert (log + [s])[..|log|] == log;
    assert forall k | 0 <= k < |log| :: (log + [s])[..k] == log[..k];
  }

  lemma EmptyLog(b: Backoff)
    ensures SleepsConform(b, []) && Sessions([]) == 0 && SleepsSinceResume([]) == 0 && Delay(b, 0) == b.min
  {
  }

  lemma LogAtEnd(hasGate: bool, b: Backoff, n: nat)
    ensures LogOf(hasGate, b, [], n) == []
  {
  }

  lemma LogStep(hasGate: bool, b: Backoff, turns: seq<Turn>, k: nat, before: seq<Step>, n: nat)
    requires k < |turns|
    ensures var (steps, on) := TurnLog(hasGate, b, turns[k], n);
            before + LogOf(hasGate, b, turns[k..], n) ==
            before + steps + if on then LogOf(hasGate, b, turns[k + 1..], SleepsAfter(n, steps)) else []
  {
    hide TurnLog, SleepsAfter;
    assert turns[k..][1..] == turns[k + 1..];
  }

  /** Whatever the turns, the sleeps of the log conform. */
  lemma {:induction false} LogConforms(hasGate: bool, b: Backoff, turns: seq<Turn>, log: seq<Step>)
    requires SleepsConform(b, log)
    ensures SleepsConform(b, log + LogOf(hasGate, b, turns, SleepsSinceResume(log)))
    decreases |turns|
  {
    hide SleepsConform, Delay, Sessions, SleepsSinceResume;
    var n := SleepsSinceResume(log);
    if turns == [] {
      assert log + [] == log;
    } else {
      var (steps, on) := TurnLog(hasGate, b, turns[0], n);
      TurnConforms(hasGate, b, turns[0], log);
      LogConforms(hasGate, b, turns[1..], log + steps);
      var rest := if on then LogOf(hasGate, b, turns[1..], SleepsAfter(n, steps)) else [];
      assert log + (steps + rest) == log + steps + rest;
      assert log + steps + [] == log + steps;
    }
  }

  lemma TurnConforms(hasGate: bool, b: Backoff, t: Turn, log: seq<Step>)
    ensures var steps := TurnLog(hasGate, b, t, SleepsSinceResume(log)).0;
            && (SleepsConform(b, log) ==> SleepsConform(b, log + steps))
            && Sessions(log + steps) == Sessions(log) + (if steps == [] then 0 else 1)
            && SleepsSinceResume(log + steps) == SleepsAfter(SleepsSinceResume(log), steps)
  {
    hide SleepsConform, Delay, Sessions, SleepsSinceResume;
    var n, steps := SleepsSinceResume(log), TurnLog(hasGate, b, t, SleepsSinceResume(log)).0;
    var l0 := if hasGate && !t.active then log + [Resumed] else log;
    var slept := Slept(Delay(b, if hasGate && !t.active then 0 else n));
    LogSnoc(b, log, Resumed);
    LogSnoc(b, l0, Started);
    LogSnoc(b, l0 + [Started], RoleClosed);
    LogSnoc(b, l0 + [Started], slept);
    if steps == [] {
      assert log + steps == log;
    } else if t.once != Failed {
      assert log + steps == l0 + [Started];
    } else if hasGate && !t.activeAfter {
      assert log + steps == l0 + [Started] + [RoleClosed];
    } else {
      assert log + steps == l0 + [Started] + [slept];
    }
  }

  /** What a turn does to log, sessions and sleeps, as the loop needs it. */
  lemma TurnFacts(hasGate: bool, b: Backoff, turns: seq<Turn>, k: nat, log: seq<Step>)
    requires k < |turns|
    ensures var t, n := turns[k], SleepsSinceResume(log);
            var (steps, on) := TurnLog(hasGate, b, t, n);
            && log + LogOf(hasGate, b, turns[k..], n) ==
               log + steps + (if on then LogOf(hasGate, b, turns[k + 1..], SleepsSinceResume(log + steps)) else [])
            && Sessions(log + steps) == Sessions(log) + (if steps == [] then 0 else 1)
            && (steps != [] && t.once == Failed ==>
                  SleepsSinceResume(log + steps) ==
                  (if hasGate && !t.active then 0 else n) + (if hasGate && !t.activeAfter then 0 else 1))
    ensures log + [] == log
  {
    hide SleepsConform, Delay, Sessions, SleepsSinceResume, LogOf;
    LogStep(hasGate, b, turns, k, log, SleepsSinceResume(log));
    TurnConforms(hasGate, b, turns[k], log);
  }

  /** Without a gate the loop never pauses and never blames a role transition. */
  lemma {:induction false} NoGateNoPause(b: Backoff, turns: seq<Turn>, n: nat)
    ensures forall s | s in LogOf(false, b, turns, n) :: s.Started? || s.Slept?
    decreases |turns|
  {
    hide Delay;
    if turns != [] {
      var (steps, on) := TurnLog(false, b, turns[0], n);
      NoGateNoPause(b, turns[1..], SleepsAfter(n, steps));
    }
  }

  // ---- what the log has to do with the gate ----

  /** A session may be started: the context has not ended, and the gate, if there is one, is active or has become so. */
  predicate MayStart(hasGate: bool, t: Turn) {
    !t.cancelled && (!hasGate || t.active || t.waitOk)
  }

  predicate EndsInSleep(steps: seq<Step>) {
    steps != [] && steps[|steps| - 1].Slept?
  }

  /** Nothing happens in a turn that may not start a session. One that may starts one, after a pause exactly when the
      gate was inactive. A failed session is followed by a role disconnect exactly when the gate is inactive then, and
      by a sleep otherwise. */
  predicate TurnObeys(hasGate: bool, t: Turn, steps: seq<Step>) {
    && Sessions(steps) == (if MayStart(hasGate, t) then 1 else 0)
    && (steps == [] <==> !MayStart(hasGate, t))
    && (Resumed in steps <==> MayStart(hasGate, t) && hasGate && !t.active)
    && (Resumed in steps ==> steps[0] == Resumed)
    && (RoleClosed in steps <==> MayStart(hasGate, t) && t.once == Failed && hasGate && !t.activeAfter)
    && (EndsInSleep(steps) <==> MayStart(hasGate, t) && t.once == Failed && (!hasGate || t.activeAfter))
  }

  /** The loop goes on after a role disconnect, and after a sleep that was not interrupted. */
  predicate GoesOn(t: Turn, steps: seq<Step>) {
    RoleClosed in steps || (EndsInSleep(steps) && t.sleepOk)
  }

  /** What was done in each turn; `over` tells that the loop ended with the last of them. */
  predicate Traced(hasGate: bool, turns: seq<Turn>, trace: seq<seq<Step>>, over: bool) {
    && |trace| <= |turns|
    && (forall k | 0 <= k < |trace| :: TurnObeys(hasGate, turns[k], trace[k]))
    && (forall k | 0 <= k < |trace| :: GoesOn(turns[k], trace[k]) <==> !(over && k == |trace| - 1))
    && (over ==> trace != [])
  }

  function Joined(trace: seq<seq<Step>>): seq<Step> {
    if trace == [] then [] else Joined(trace[..|trace| - 1]) + trace[|trace| - 1]
  }

  lemma NoTrace(hasGate: bool, turns: seq<Turn>)
    ensures Traced(hasGate, turns, [], false) && Joined([]) == []
  {
  }

  lemma JoinedSnoc(trace: seq<seq<Step>>, steps: seq<Step>)
    ensures Joined(trace + [steps]) == Joined(trace) + steps
  {
    assert (trace + [steps])[..|trace|] == trace;
  }

  lemma TraceSnoc(hasGate: bool, turns: seq<Turn>, trace: seq<seq<Step>>, steps: seq<Step>, on: bool)
    requires Traced(hasGate, turns, trace, false) && |trace| < |turns|
    requires TurnObeys(hasGate, turns[|trace|], steps) && (GoesOn(turns[|trace|], steps) <==> on)
    ensures Traced(hasGate, turns, trace + [steps], !on)
    ensures Joined(trace + [steps]) == Joined(trace) + steps
  {
    hide TurnObeys, GoesOn, Joined;
    var longer := trace + [steps];
    JoinedSnoc(trace, steps);
    assert forall k | 0 <= k < |trace| :: longer[k] == trace[k];
  }

  lemma SessionsSnoc(steps: seq<Step>, s: Step)
    ensures Sessions([]) == 0 && Sessions(steps + [s]) == Sessions(steps) + (if s.Started? then 1 else 0)
  {
    assert (steps + [s])[..|steps|] == steps;
  }

  lemma TurnLogObeys(hasGate: bool, b: Backoff, t: Turn, n: nat)
    ensures var (steps, on) := TurnLog(hasGate, b, t, n);
            TurnObeys(hasGate, t, steps) && (GoesOn(t, steps) <==> on)
  {
    hide Delay, Sessions;
    var begin := if hasGate && !t.active then [Resumed] else [];
    SessionsSnoc([], Resumed);
    SessionsSnoc(begin, Started);
    SessionsSnoc(begin + [Started], RoleClosed);
    SessionsSnoc(begin + [Started], Slept(Delay(b, if hasGate && !t.active then 0 else n)));
    assert [] + [Resumed] == [Resumed];
  }

  class Client {
    const drop: bool
    const out: Queue
    const backoff: Backoff
    const hasGate: bool
    const username: string
    const password: string
    const metrics: Registry
    var dropped: nat
    var parseEr: nat
    var recon: nat

    constructor (out: Queue, username: string, password: string, min: int, max: int, dropOnFull: bool, hasGate: bool,
                 metrics: Registry)
      ensures this.out == out && drop == dropOnFull && backoff == Normalised(min, max) && this.hasGate == hasGate
      ensures this.username == username && this.password == password && this.metrics == metrics
      ensures dropped == 0 && parseEr == 0 && recon == 0
    {
      this.out, this.drop, this.backoff, this.hasGate := out, dropOnFull, Normalised(min, max), hasGate;
      this.username, this.password, this.metrics := username, password, metrics;
      dropped, parseEr, recon := 0, 0, 0;
    }

    /** One parsed event goes to the queue: under the drop policy it is refused exactly when the queue is full, and
        without it only when the context ends while it waits. */
    method Offer(ev: Event) returns (ok: bool)
      requires out.Valid()
      modifies this`dropped, out
      ensures out.Valid() && old(out.received) <= out.received
      ensures out.sent == if ok then old(out.sent) + [ev] else old(out.sent)
      ensures ok ==> |old(out.sent)| - |out.received| < out.capacity
      ensures drop && !ok ==> |old(out.sent)| - |out.received| >= out.capacity
      ensures |out.received| <= |old(out.sent)|
      ensures dropped == old(dropped) + (if drop && !ok then 1 else 0)
    {
      out.Receivers();
      if drop {
        ok := out.TrySend(ev);
        if !ok {
          dropped := dropped + 1;
        }
      } else {
        ok := out.Send(ev);
      }
    }

    /** Reads `input`, after which a read fails with `failure`. `offered` lists the parsed events and whether the
        queue took them. `interrupted` tells that the context ended a blocking send, which loses that one event. */
    method ReadLoop(input: string, failure: LoopError, up: string -> string)
      returns (err: LoopError, interrupted: bool, ghost offered: seq<Mark<Event>>, ghost taken: seq<nat>)
      requires out.Valid()
      modifies this`dropped, this`parseEr, out
      ensures out.Valid() && out.sent == old(out.sent) + Kept(offered) && old(out.received) <= out.received
      ensures RefusedWhenFull(out.capacity, |old(out.buf)|, offered, taken)
      ensures taken != [] ==> taken[|taken| - 1] <= |out.received| - |old(out.received)|
      ensures dropped == old(dropped) + Count(offered, false)
      ensures !drop ==> Count(offered, false) == 0
      ensures interrupted ==> !drop && err == Cancelled
      ensures var s := SessionFrom(input, up);
              if interrupted then
                && Items(offered) < Parsed(s.outcomes)
                && old(parseEr) <= parseEr <= old(parseEr) + Failures(s.outcomes)
              else
                && Items(offered) == Parsed(s.outcomes)
                && parseEr == old(parseEr) + Failures(s.outcomes)
                && err == if s.refusal.Some? then ServerError(s.refusal.value) else failure
    {
      hide Parse, SessionFrom, Midway, Parsed, Failures, Kept, Items, Count, IndexByte, RefusedWhenFull,
        Queue.Valid;
      ghost var all := SessionFrom(input, up);
      ghost var done: seq<Outcome> := [];
      ghost var sent, received, start := out.sent, |out.received|, |out.buf|;
      var rest := input;
      offered, taken := [], [];
      interrupted := false;
      NothingYet();
      NoneRefused(out.capacity, |out.buf|);
      QueueLength(out);
      MidwayAtStart(input, up);
      assert out.sent + [] == out.sent;
      while true
        invariant out.Valid() && out.sent == sent + Kept(offered) && old(out.received) <= out.received
        invariant RefusedWhenFull(out.capacity, start, offered, taken)
        invariant taken != [] ==> taken[|taken| - 1] <= |out.received| - received
        invariant dropped == old(dropped) + Count(offered, false)
        invariant !drop ==> Count(offered, false) == 0
        invariant !interrupted
        invariant Items(offered) == Parsed(done) && parseEr == old(parseEr) + Failures(done)
        invariant Midway(all, done, rest, up)
        decreases |rest|
      {
        var i := IndexByte(rest, '\n');
        if i == -1 {
          MidwayAtEnd(all, done, rest, up);
          return failure, false, offered, taken;
        }
        MidwayStep(all, done, rest, up);
        var line := rest[..i + 1];
        rest := rest[i + 1..];
        if line[0] != '+' {
          if line[0] == '-' {
            return ServerError(line), false, offered, taken;
          }
          continue;
        }
        var r := ParseLine(line, up);
        OutcomesSnoc(done, r);
        if r.Err? {
          parseEr := parseEr + 1;
          done := done + [r];
          continue;
        }
        var ok := Offer(r.value);
        if !drop && !ok {
          return Cancelled, true, offered, taken;
        }
        ghost var k: nat := |out.received| - received;
        OneMoreOffer(sent, out.capacity, start, offered, taken, Mark(r.value, ok), k);
        offered, taken := offered + [Mark(r.value, ok)], taken + [k];
        done := done + [r];
      }
    }

    /** AUTH if there is a password, then MONITOR, each with its reply; None means accepted. */
    method Greet(r: Resp.Reader, w: Resp.Writer) returns (failed: Option<SessionEnd>)
      requires w.out == ""
      modifies r, w
      ensures failed == None ==>
                Handshake(password, old(r.data)) == (Ok(()), r.data) && w.out == Greeting(username, password)
      ensures failed.Some? ==>
                || failed.value == SendFailed
                || (failed.value.Refused? && Handshake(password, old(r.data)) == (Err(failed.value.why), r.data))
    {
      hide Resp.ReadSimple, Resp.EncodeCommand;
      var sent: bool;
      if password != "" {
        w.WriteCommand(AuthArgs(username, password));
        sent := *;
        if !sent {
          return Some(SendFailed);
        }
        var auth := r.ReadSimpleString();
        if auth.Err? {
          return Some(Refused(AuthFailed(auth.error)));
        }
      }
      w.WriteCommand(["MONITOR"]);
      sent := *;
      if !sent {
        return Some(SendFailed);
      }
      var monitor := r.ReadSimpleString();
      if monitor.Err? {
        return Some(Refused(MonitorRejected(monitor.error)));
      }
      var auth := Resp.EncodeCommand(AuthArgs(username, password));
      assert "" + auth == auth;
      return None;
    }

    /** One session: dial, handshake, read loop. The registry says connected exactly while the read loop runs; `during`
        is its snapshot then. */
    method RunOnce(dialled: bool, input: string, failure: LoopError, up: string -> string)
      returns (end: SessionEnd, interrupted: bool, ghost offered: seq<Mark<Event>>, ghost taken: seq<nat>,
               ghost during: Health.Readiness)
      requires out.Valid()
      modifies this`dropped, this`parseEr, out, metrics`monitorConnected
      ensures out.Valid() && out.sent == old(out.sent) + Kept(offered)
      ensures dropped == old(dropped) + Count(offered, false)
      ensures RefusedWhenFull(out.capacity, |old(out.buf)|, offered, taken)
      ensures |old(out.buf)| + |offered| <= out.capacity ==> Count(offered, false) == 0
      ensures end == NoConnection <==> !dialled
      ensures !end.Ended? ==>
                && offered == [] && dropped == old(dropped) && parseEr == old(parseEr)
                && metrics.Snapshot() == old(metrics.Snapshot())
      ensures end.Refused? ==> Handshake(password, input).0 == Err(end.why)
      ensures end.Ended? ==>
                && Handshake(password, input).0 == Ok(())
                && during == Health.OnSession(old(metrics.Snapshot()), true)
                && metrics.Snapshot() == Health.OnSession(old(metrics.Snapshot()), false)
                && var s := SessionFrom(Handshake(password, input).1, up);
                   if interrupted then !drop && Items(offered) < Parsed(s.outcomes)
                   else
                     && Items(offered) == Parsed(s.outcomes)
                     && parseEr == old(parseEr) + Failures(s.outcomes)
                     && end.error == if s.refusal.Some? then ServerError(s.refusal.value) else failure
    {
      hide Handshake, SessionFrom, Parsed, Failures, Kept, Items, Count, Greeting, RefusedWhenFull;
      interrupted, offered, taken, during := false, [], [], metrics.Snapshot();
      NothingYet();
      NoneRefused(out.capacity, |out.buf|);
      assert out.sent + [] == out.sent;
      if !dialled {
        return NoConnection, false, [], [], during;
      }
      var r := new Resp.Reader(input);
      var w := new Resp.Writer();
      var failed := Greet(r, w);
      if failed.Some? {
        return failed.value, false, [], [], during;
      }
      metrics.SetMonitorConnected(true);
      during := metrics.Snapshot();
      var err;
      err, interrupted, offered, taken := ReadLoop(r.data, failure, up);
      RoomForAllIf(out.capacity, |old(out.buf)|, offered, taken);
      metrics.SetMonitorConnected(false);
      end := Ended(err);
    }

    /** The reconnect loop against any finite script of answers; `log` is what it did, `trace` the same turn by turn,
        and `over` tells that it returned and did not just run out of answers. */
    method Run(turns: seq<Turn>) returns (ghost log: seq<Step>, ghost trace: seq<seq<Step>>, ghost over: bool)
      requires backoff.min < 0x4000_0000_0000_0000 && 0 < backoff.max < 0x4000_0000_0000_0000 && 0 < backoff.min
      modifies this`recon
      ensures log == LogOf(hasGate, backoff, turns, 0)
      ensures log == Joined(trace) && Traced(hasGate, turns, trace, over) && (!over ==> |trace| == |turns|)
      ensures SleepsConform(backoff, log)
      ensures recon == old(recon) + Max(0, Sessions(log) - 1)
    {
      hide SleepsSinceResume, Sessions, SleepsConform, Delay, Wrap64, LogOf, Traced, Joined,
        TurnObeys, GoesOn, SleepsAfter;
      var delay := backoff.min;
      var first := true;
      log, trace, over := [], [], false;
      EmptyLog(backoff);
      NoTrace(hasGate, turns);
      ghost var all := LogOf(hasGate, backoff, turns, 0);
      assert turns[0..] == turns && [] + all == all;
      LogConforms(hasGate, backoff, turns, []);
      for k := 0 to |turns|
        invariant all == log + LogOf(hasGate, backoff, turns[k..], SleepsSinceResume(log))
        invariant |trace| == k && log == Joined(trace) && Traced(hasGate, turns, trace, false) && !over
        invariant delay == Delay(backoff, SleepsSinceResume(log))
        invariant first <==> Sessions(log) == 0
        invariant recon == old(recon) + Max(0, Sessions(log) - 1)
      {
        var turn := turns[k];
        ghost var n := SleepsSinceResume(log);
        ghost var (steps, on) := TurnLog(hasGate, backoff, turn, n);
        ghost var did: seq<Step> := [];
        TurnFacts(hasGate, backoff, turns, k, log);
        TurnLogObeys(hasGate, backoff, turn, n);
        TraceSnoc(hasGate, turns, trace, steps, on);
        if turn.cancelled {
          return log + did, trace + [did], true;
        }
        if hasGate && !turn.active {
          if !turn.waitOk {
            return log + did, trace + [did], true;
          }
          delay := backoff.min;
          n := 0;
          did := did + [Resumed];
          EmptyLog(backoff);
        }
        if !first {
          recon := recon + 1;
        }
        first := false;
        did := did + [Started];
        if turn.once == Finished || turn.once == ContextDone {
          assert did == steps;
          return log + did, trace + [did], true;
        }
        if hasGate && !turn.activeAfter {
          did := did + [RoleClosed];
          assert did == steps;
          log, trace := log + did, trace + [did];
          continue;
        }
        did := did + [Slept(delay)];
        assert did == steps;
        log, trace := log + did, trace + [did];
        DelayStep(backoff, n);
        if !turn.sleepOk {
          return log, trace, true;
        }
        delay := Wrap64(delay * 2);
        if delay > backoff.max {
          delay := backoff.max;
        }
      }
      assert turns[|turns|..] == [];
      LogAtEnd(hasGate, backoff, SleepsSinceResume(log));
      assert log + [] == log;
    }
  }
}
