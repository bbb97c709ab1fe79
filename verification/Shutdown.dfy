/** What can go wrong at shutdown with blocking queues (internal/monitor/client.go, readLoop; internal/app/app.go,
    dispatcher.run and the final wait; internal/output/output.go): the event in the reader's hand can be lost, and the
    dispatcher can wait for ever. */
module Shutdown {
  import opened Text
  import opened Events
  import opened Framing
  import opened History
  import opened Pipeline
  import Parser

  /** With blocking queues the context can end while the reader waits for room: the event is parsed and then counted
      neither as queued nor as dropped. */
  lemma AbandonedEventIsUncounted(c: Config, s: State)
    requires Inv(c, s) && !c.drop && s.cancelled && s.reading.Some?
    ensures var t := Next(c, s, Abandon);
            && t.abandoned == s.abandoned + 1
            && |t.outcomes| == t.parseErrors + t.monitorDropped + |InHand(t.reading)| + |t.queue| + t.ignored
                               + |t.processed| + 1
  {
    hide StageInv, Items, Kept, Count, Parsed, Failures;
    OfferKeepsInv(c, s);
    var t := Next(c, s, Abandon);
    OutcomesAddUp(t.outcomes);
    CountsAddUp(t.offers);
    assert |Items(t.offers)| == Count(t.offers, true) + Count(t.offers, false);
    assert |Kept(t.offers)| == |t.taken| + |t.queue|;
  }

  /** Such a run, for every printed line: read it, end the context, give up the send. */
  lemma AbandonIsReachable(c: Config, e: Parser.Entry)
    requires !c.drop && ValidItem(Reply(e))
    ensures Exec(c, Init(c, Parser.Print(e)), [Read, Cancel, Abandon]).abandoned == 1
  {
    hide Parser.Parse, Parser.Shown, Parser.EventOf, IndexByte, AbandonStep, ReadStep;
    var s0 := Init(c, Parser.Print(e));
    var s1 := ReadStep(c, s0);
    assert Parser.Print(e) + "" == Parser.Print(e);
    ReadsPrinted(c, e, s0, "");
    var s2 := s1.(cancelled := true);
    var s3 := AbandonStep(c, s2);
    Abandons(c, s2);
    var acts := [Read, Cancel, Abandon];
    assert acts[1..] == [Cancel, Abandon] && [Cancel, Abandon][1..] == [Abandon] && [Abandon][1..] == [];
    assert Exec(c, s0, acts) == Exec(c, s1, [Cancel, Abandon]) == Exec(c, s2, [Abandon]) == Exec(c, s3, []);
  }

  lemma Abandons(c: Config, s: State)
    requires !c.drop && s.cancelled && s.reading.Some?
    ensures AbandonStep(c, s).abandoned == s.abandoned + 1
  {
  }

  lemma ReadsPrinted(c: Config, e: Parser.Entry, s: State, rest: string)
    requires ValidItem(Reply(e)) && s.wire == Parser.Print(e) + rest && s.reading == None && s.abandoned == 0
    ensures var ev := Parser.EventOf(e, c.up);
            ReadStep(c, s) == s.(wire := rest, outcomes := s.outcomes + [Ok(ev)], reading := Some(ev))
  {
    hide Parser.Parse, Parser.Shown, Parser.EventOf, IndexByte;
    var line := Parser.Print(e);
    ShownIsOneLine(e);
    Parser.ShownEndsInQuote(e);
    assert line == Parser.Shown(e) + "\r" + "\n" && line[0] == Parser.Shown(e)[0];
    TakeDrop(line, rest);
    assert s.wire[..|line| - 1] == Parser.Shown(e) + "\r";
    IndexByteIs(s.wire, '\n', |line| - 1);
    Parser.ParseInvertsPrint(e, c.up);
  }

  lemma SomeEntry() returns (e: Parser.Entry)
    ensures ValidItem(Reply(e))
  {
    e := Parser.Entry(0, 0, 0, "", [[]]);
  }

  /** No run loses an event that way exactly when the queues drop. */
  lemma NothingAbandonedExactly(c: Config)
    ensures (forall wire, acts :: Exec(c, Init(c, wire), acts).abandoned == 0) <==> c.drop
  {
    hide Exec, ValidItem;
    if c.drop {
      forall wire, acts
        ensures Exec(c, Init(c, wire), acts).abandoned == 0
      {
        Reachable(c, wire, acts);
      }
    } else {
      var e := SomeEntry();
      AbandonIsReachable(c, e);
    }
  }

  // ---- what the end of the context does ----

  /** Nothing shuts down before the context has ended. */
  ghost predicate UpUntilTheEnd(c: Config, s: State) {
    && |s.outputs| == |c.outputs|
    && (s.dispatcher == Gone ==> s.cancelled)
    && (s.abandoned > 0 ==> s.cancelled)
    && forall i | IsStage(c, i) :: StageAt(c, s, i).phase != Running ==> s.cancelled
  }

  lemma StageStaysUp(g: Stage, act: StageAct, cancelled: bool, drains: bool)
    ensures StageStep(g, act, cancelled, drains).phase != g.phase ==> cancelled || g.phase != Running
  {
  }

  lemma FanOutKeepsPhases(c: Config, s: State, i: nat)
    requires |s.outputs| == |c.outputs|
    ensures var t := FanOutStep(c, s); |t.outputs| == |c.outputs| && StageAt(c, t, i).phase == StageAt(c, s, i).phase
    ensures FanOutStep(c, s).dispatcher == Gone ==> s.dispatcher == Gone
  {
  }

  lemma StepKeepsPhase(c: Config, s: State, act: Action, i: nat)
    requires |s.outputs| == |c.outputs|
    ensures var t := Next(c, s, act);
            && |t.outputs| == |c.outputs|
            && (StageAt(c, t, i).phase != Running ==> StageAt(c, s, i).phase != Running || s.cancelled)
  {
    hide ReadStep, StageStep, FanOutStep;
    ReadFrame(c, s);
    FanOutKeepsPhases(c, s, i);
    match act
    case Output(k, a) =>
      if k < |s.outputs| {
        StageStaysUp(s.outputs[k], a, s.cancelled, true);
      }
    case Alerts(a) => StageStaysUp(s.alerts, a, s.cancelled, false);
    case _ =>
  }

  lemma StepKeepsEnd(c: Config, s: State, act: Action)
    ensures var t := Next(c, s, act);
            && (t.dispatcher == Gone ==> s.dispatcher == Gone || s.cancelled)
            && (t.abandoned > 0 ==> s.abandoned > 0 || s.cancelled)
            && (s.cancelled ==> t.cancelled && t.sessions == s.sessions)
            && (act != Cancel ==> t.cancelled == s.cancelled)
  {
    hide ReadStep, StageStep, Submit;
    ReadFrame(c, s);
  }

  lemma StepKeepsUp(c: Config, s: State, act: Action)
    requires UpUntilTheEnd(c, s)
    ensures UpUntilTheEnd(c, Next(c, s, act))
    ensures s.cancelled ==> Next(c, s, act).cancelled && Next(c, s, act).sessions == s.sessions
    ensures act != Cancel ==> Next(c, s, act).cancelled == s.cancelled
  {
    hide Next;
    StepKeepsEnd(c, s, act);
    StepKeepsPhase(c, s, act, 0);
    var t := Next(c, s, act);
    forall i | IsStage(c, i)
      ensures StageAt(c, t, i).phase != Running ==> t.cancelled
    {
      assert StageAt(c, s, i).phase != Running ==> s.cancelled;
      StepKeepsPhase(c, s, act, i);
    }
  }

  lemma {:induction false} RunKeepsUp(c: Config, s: State, acts: seq<Action>)
    requires UpUntilTheEnd(c, s)
    ensures UpUntilTheEnd(c, Exec(c, s, acts))
    ensures Cancel !in acts && !s.cancelled ==> !Exec(c, s, acts).cancelled
    ensures s.cancelled ==> Exec(c, s, acts).cancelled && Exec(c, s, acts).sessions == s.sessions
    decreases |acts|
  {
    hide Next, UpUntilTheEnd;
    if acts == [] {
      ExecNothing(c, s);
    } else {
      StepKeepsUp(c, s, acts[0]);
      RunKeepsUp(c, Next(c, s, acts[0]), acts[1..]);
    }
  }

  /** Over every run: as long as the context has not ended, every output and the alert engine are running, the
      dispatcher is there, and no event has been given up. */
  lemma NothingStopsBeforeTheEnd(c: Config, wire: string, acts: seq<Action>, i: nat)
    requires Cancel !in acts && IsStage(c, i)
    ensures var s := Exec(c, Init(c, wire), acts);
            && |s.outputs| == |c.outputs|
            && StageAt(c, s, i).phase == Running && s.dispatcher != Gone && s.abandoned == 0
  {
    hide Exec;
    var s0 := Init(c, wire);
    assert UpUntilTheEnd(c, s0);
    RunKeepsUp(c, s0, acts);
  }

  /** And once it has ended there are no further sessions. */
  lemma NoSessionAfterTheEnd(c: Config, wire: string, acts: seq<Action>, more: seq<Action>)
    requires Exec(c, Init(c, wire), acts).cancelled
    ensures Exec(c, Init(c, wire), acts + more).sessions == Exec(c, Init(c, wire), acts).sessions
  {
    hide Exec;
    assert UpUntilTheEnd(c, Init(c, wire));
    RunKeepsUp(c, Init(c, wire), acts);
    RunKeepsUp(c, Exec(c, Init(c, wire), acts), more);
    ExecAppend(c, Init(c, wire), acts, more);
  }

  /** The alert engine stops at once and handles nothing more. An output that is told goes on with its queue, event by
      event, until a write fails or it is told to stop. */
  lemma OnlyOutputsDrain(g: Stage, act: StageAct)
    requires g.hand == None && g.phase == Running
    ensures StageStep(g, Notice, true, false).phase == Stopped && StageStep(g, Notice, true, true).phase == Draining
    ensures StageStep(StageStep(g, Notice, true, false), act, true, false) == StageStep(g, Notice, true, false)
    ensures g.queue != [] ==>
              var h := StageStep(StageStep(g, Notice, true, true), Receive, true, true);
              && h.hand == Some(g.queue[0]) && h.queue == g.queue[1..]
              && StageStep(h, Finish(true), true, true).phase == Draining
              && StageStep(h, Finish(false), true, true).phase == Stopped
  {
  }

  // ---- a dispatcher that is never released ----

  /** Whatever anyone does, the dispatcher stays in the submit it is in, and the shutdown that waits for it hangs. */
  ghost predicate Stuck(c: Config, s: State) {
    s.dispatcher.Fanning? && forall acts :: Exec(c, s, acts).dispatcher == s.dispatcher
  }

  /** The dispatcher submits to stage `k`, which has stopped with a full queue. */
  predicate Wedged(c: Config, s: State, k: nat) {
    && |s.outputs| == |c.outputs| && IsStage(c, k)
    && s.dispatcher.Fanning? && s.dispatcher.next == k
    && StageAt(c, s, k).phase == Stopped && |StageAt(c, s, k).queue| >= CapacityAt(c, k)
  }

  lemma StepKeepsWedged(c: Config, s: State, k: nat, act: Action)
    requires !c.drop && Wedged(c, s, k)
    ensures Wedged(c, Next(c, s, act), k) && Next(c, s, act).dispatcher == s.dispatcher
  {
    hide ReadStep, Parser.Parse;
    if act == Read {
      ReadFrame(c, s);
    }
  }

  lemma {:induction false} WedgedForEver(c: Config, s: State, k: nat, acts: seq<Action>)
    requires !c.drop && Wedged(c, s, k)
    ensures Exec(c, s, acts).dispatcher == s.dispatcher
    decreases |acts|
  {
    hide Next, Wedged;
    if acts != [] {
      StepKeepsWedged(c, s, k, acts[0]);
      WedgedForEver(c, Next(c, s, acts[0]), k, acts[1..]);
    }
  }

  /** With blocking queues nothing ever frees a dispatcher that waits for a stopped stage. */
  lemma WedgedIsStuck(c: Config, s: State, k: nat)
    requires !c.drop && Wedged(c, s, k)
    ensures Stuck(c, s)
  {
    forall acts
      ensures Exec(c, s, acts).dispatcher == s.dispatcher
    {
      WedgedForEver(c, s, k, acts);
    }
  }

  /** A state in which only the dispatcher has work, and all sinks have shut down. */
  ghost predicate Shut(c: Config, s: State) {
    && s.cancelled && s.reading == None && s.queue == [] && s.abandoned == 0
    && |s.outputs| == |c.outputs|
    && forall k | IsStage(c, k) :: StageAt(c, s, k).phase == Stopped
  }

  function Room(c: Config, s: State): int
    requires |s.outputs| == |c.outputs|
  {
    CapacityAt(c, 0) - |StageAt(c, s, 0).queue|
  }

  lemma FanOutWhenShut(c: Config, s: State)
    requires !c.drop && Shut(c, s) && s.dispatcher.Fanning? && s.dispatcher.next <= |c.outputs|
    requires !Wedged(c, s, s.dispatcher.next)
    ensures var t, k := FanOutStep(c, s), s.dispatcher.next;
            && Shut(c, t)
            && t.dispatcher == (if k < |c.outputs| then Fanning(s.dispatcher.ev, k + 1) else Free)
            && (IsStage(c, 0) ==> Room(c, t) == Room(c, s) - if k == 0 then 1 else 0)
            && (IsStage(c, 0) && k == 0 ==> Room(c, s) > 0)
            && t.wire == s.wire
  {
    var t, k := FanOutStep(c, s), s.dispatcher.next;
    forall i | IsStage(c, i)
      ensures StageAt(c, t, i).phase == Stopped
    {
      assert StageAt(c, s, i).phase == Stopped;
    }
  }

  // One event is fanned out until a full queue stops it or the dispatcher is free again.
  lemma {:induction false} FanOutAll(c: Config, s: State) returns (acts: seq<Action>)
    requires !c.drop && Shut(c, s) && s.dispatcher.Fanning? && s.dispatcher.next <= |c.outputs| && IsStage(c, 0)
    ensures var t := Exec(c, s, acts);
            if t.dispatcher.Fanning? then Wedged(c, t, t.dispatcher.next)
            else
              && t.dispatcher == Free && Shut(c, t) && t.wire == s.wire
              && Room(c, t) == Room(c, s) - (if s.dispatcher.next == 0 then 1 else 0)
              && (s.dispatcher.next == 0 ==> Room(c, s) > 0)
    decreases |c.outputs| - s.dispatcher.next
  {
    hide FanOutStep, Wedged, Shut, Room;
    acts := [];
    if !Wedged(c, s, s.dispatcher.next) {
      FanOutWhenShut(c, s);
      var t := Next(c, s, FanOut);
      var more: seq<Action> := [];
      if t.dispatcher.Fanning? {
        more := FanOutAll(c, t);
      }
      acts := [FanOut] + more;
      assert acts[1..] == more;
    }
  }

  lemma ExecThree(c: Config, s: State, a1: Action, a2: Action, a3: Action)
    ensures Exec(c, s, [a1, a2, a3]) == Next(c, Next(c, Next(c, s, a1), a2), a3)
  {
    hide Next, Exec;
    ExecNothing(c, Next(c, Next(c, Next(c, s, a1), a2), a3));
    ExecCons(c, Next(c, Next(c, s, a1), a2), a3, []);
    ExecCons(c, Next(c, s, a1), a2, [a3]);
    ExecCons(c, s, a1, [a2, a3]);
    assert [a1] + [a2, a3] == [a1, a2, a3] && [a2] + [a3] == [a2, a3] && [a3] + [] == [a3];
  }

  /** The printed line, so many times. */
  function Copies(e: Parser.Entry, n: nat): string
    requires Parser.Printable(e)
  {
    if n == 0 then "" else Parser.Print(e) + Copies(e, n - 1)
  }

  // The next line goes through the reader and the queue and reaches the first stage.
  lemma Feed(c: Config, e: Parser.Entry, s: State, rest: string) returns (acts: seq<Action>)
    requires ValidItem(Reply(e)) && Parser.EventOf(e, c.up).command !in c.ignored && c.capacity > 0
    requires Shut(c, s) && s.dispatcher == Free && s.wire == Parser.Print(e) + rest
    ensures var t := Exec(c, s, acts);
            && Shut(c, t) && t.dispatcher == Fanning(Parser.EventOf(e, c.up), 0)
            && t.outputs == s.outputs && t.alerts == s.alerts && t.wire == rest
  {
    hide Parser.Parse, Parser.EventOf, Parser.Print, Parser.Printable, ReadStep, Exec;
    var ev := Parser.EventOf(e, c.up);
    var s1 := s.(wire := rest, outcomes := s.outcomes + [Ok(ev)], reading := Some(ev));
    var s2 := s1.(reading := None, queue := [ev], offers := s.offers + [Mark(ev, true)]);
    var s3 := s2.(queue := [], taken := s.taken + [ev], processed := s.processed + [ev], dispatcher := Fanning(ev, 0));
    ReadsPrinted(c, e, s, rest);
    assert Next(c, s, Read) == s1;
    assert s1.queue + [ev] == [ev] && Next(c, s1, Offer) == s2 && Next(c, s2, Take) == s3;
    acts := [Read, Offer, Take];
    ExecThree(c, s, Read, Offer, Take);
    assert forall k | IsStage(c, k) :: StageAt(c, s3, k) == StageAt(c, s, k);
  }

  // Line after line of the session fills the queue of some stopped stage.
  lemma {:induction false} Jam(c: Config, e: Parser.Entry, s: State, n: nat) returns (acts: seq<Action>)
    requires !c.drop && IsStage(c, 0) && c.capacity > 0
    requires ValidItem(Reply(e)) && Parser.EventOf(e, c.up).command !in c.ignored
    requires Shut(c, s) && s.dispatcher == Free
    requires n >= 1 && n > Room(c, s) && s.wire == Copies(e, n)
    ensures var t := Exec(c, s, acts); t.dispatcher.Fanning? && Wedged(c, t, t.dispatcher.next)
    decreases n
  {
    hide Exec, Wedged, Parser.Printable, Parser.Print, Parser.EventOf;
    var feed := Feed(c, e, s, Copies(e, n - 1));
    var t := Exec(c, s, feed);
    assert Room(c, t) == Room(c, s);
    var fan := FanOutAll(c, t);
    var u := Exec(c, t, fan);
    ExecAppend(c, s, feed, fan);
    acts := feed + fan;
    if u.dispatcher == Free {
      var more := Jam(c, e, u, n - 1);
      ExecAppend(c, s, feed + fan, more);
      acts := feed + fan + more;
    }
  }

  lemma {:induction false} StopOutputs(c: Config, s: State, i: nat) returns (acts: seq<Action>)
    requires s.cancelled && i <= |s.outputs|
    requires forall k | i <= k < |s.outputs| :: s.outputs[k] == NewStage
    ensures var t := Exec(c, s, acts);
            && t == s.(outputs := t.outputs) && |t.outputs| == |s.outputs|
            && (forall k | 0 <= k < i :: t.outputs[k] == s.outputs[k])
            && (forall k | i <= k < |s.outputs| :: t.outputs[k].phase == Stopped)
    decreases |s.outputs| - i
  {
    hide Exec, ByOutput, StageRun;
    if i == |s.outputs| {
      ExecNothing(c, s);
      return [];
    }
    StageRunIsExec(c, s, i, [Notice, Quit]);
    NoticeAndQuit();
    var t := s.(outputs := s.outputs[i := NewStage.(phase := Stopped)]);
    var more := StopOutputs(c, t, i + 1);
    ExecAppend(c, s, ByOutput(i, [Notice, Quit]), more);
    acts := ByOutput(i, [Notice, Quit]) + more;
  }

  lemma NoticeAndQuit()
    ensures StageRun(NewStage, [Notice, Quit]) == NewStage.(phase := Stopped)
  {
    assert [Notice, Quit][1..] == [Quit] && [Quit][1..] == [];
    assert StageStep(NewStage, Notice, true, true) == NewStage.(phase := Draining);
  }

  // The context ends before the first line is read, and every sink finds its queue empty and shuts down.
  lemma ShutDown(c: Config, wire: string) returns (acts: seq<Action>)
    ensures var s := Exec(c, Init(c, wire), acts);
            && Shut(c, s) && s.dispatcher == Free && s.wire == wire
            && (IsStage(c, 0) ==> Room(c, s) <= CapacityAt(c, 0))
  {
    hide Exec;
    var s0 := Init(c, wire);
    var s1 := s0.(cancelled := true);
    var s2 := s1.(alerts := NewStage.(phase := Stopped));
    var stop := StopOutputs(c, s2, 0);
    assert Next(c, s0, Cancel) == s1 && Next(c, s1, Alerts(Notice)) == s2;
    ExecCons(c, s1, Alerts(Notice), stop);
    ExecCons(c, s0, Cancel, [Alerts(Notice)] + stop);
    acts := [Cancel] + ([Alerts(Notice)] + stop);
  }

  /** A queue that drops lets the dispatcher go on. */
  lemma DropNeverSticks(c: Config, s: State)
    requires c.drop && s.dispatcher.Fanning?
    ensures !Stuck(c, s)
  {
    var acts := [FanOut];
    assert acts[1..] == [];
    ExecNothing(c, Next(c, s, FanOut));
    assert Exec(c, s, acts) == Next(c, s, FanOut);
  }

  /** The dispatcher can get stuck, so that the shutdown never ends, exactly when the queues block. It takes one sink,
      one session, and a line whose command is not ignored, once more than the first sink has room. */
  lemma StuckExactly(c: Config, e: Parser.Entry)
    requires IsStage(c, 0) && c.capacity > 0
    requires ValidItem(Reply(e)) && Parser.EventOf(e, c.up).command !in c.ignored
    ensures (exists wire, acts :: Stuck(c, Exec(c, Init(c, wire), acts))) <==> !c.drop
  {
    hide Exec, Shut, Wedged, Stuck, Parser.Printable, Copies;
    if c.drop {
      forall wire, acts
        ensures !Stuck(c, Exec(c, Init(c, wire), acts))
      {
        NotStuck(c, Exec(c, Init(c, wire), acts));
      }
    } else {
      var wire := Copies(e, CapacityAt(c, 0) + 1);
      var down := ShutDown(c, wire);
      var s := Exec(c, Init(c, wire), down);
      var jam := Jam(c, e, s, CapacityAt(c, 0) + 1);
      ExecAppend(c, Init(c, wire), down, jam);
      WedgedIsStuck(c, Exec(c, s, jam), Exec(c, s, jam).dispatcher.next);
    }
  }

  lemma NotStuck(c: Config, s: State)
    requires c.drop
    ensures !Stuck(c, s)
  {
    if s.dispatcher.Fanning? {
      DropNeverSticks(c, s);
    }
  }
}
