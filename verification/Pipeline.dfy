/** The whole pipeline as a state machine: read loop, dispatcher, outputs and alert engine, joined by bounded queues and
    interleaved at every receive, send and write (internal/monitor/client.go, readLoop; internal/app/app.go,
    dispatcher.run; internal/output/output.go, Consumer; internal/alert/alert.go, Submit and Run). */
module Pipeline {
  import opened Text
  import opened Events
  import opened Framing
  import opened History

  /** One drop policy serves every queue. `outputs` are the capacities of the output queues. */
  datatype Config = Config(drop: bool, capacity: nat, outputs: seq<nat>, hasAlerts: bool, alerts: nat,
                           ignored: set<string>, up: string -> string)

  datatype Phase = Running | Draining | Stopped

  /** A stage with a queue of its own. `offers` and `log` are its history. */
  datatype Stage = Stage(queue: seq<Event>, hand: Option<Event>, phase: Phase,
                         dropped: nat, succeeded: nat, failed: nat,
                         offers: seq<Mark<Event>>, log: seq<Mark<Event>>)

  datatype Dispatcher = Free | Fanning(ev: Event, next: nat) | Gone

  /** A MONITOR session: what the server sends in it, and how many outcomes there were when it began. */
  datatype Connection = Connection(stream: string, from: nat)

  /** `wire` is what the reader has not read of the stream of the current session, the last of `sessions`. */
  datatype State = State(
    cancelled: bool,
    sessions: seq<Connection>,
    wire: string,
    outcomes: seq<Outcome>,
    parseErrors: nat,
    reading: Option<Event>,
    monitorDropped: nat,
    abandoned: nat,
    offers: seq<Mark<Event>>,
    queue: seq<Event>,
    taken: seq<Event>,
    dispatcher: Dispatcher,
    ignored: nat,
    processed: seq<Event>,
    outputs: seq<Stage>,
    alerts: Stage)

  const NewStage := Stage([], None, Running, 0, 0, 0, [], [])

  function Init(c: Config, wire: string): State {
    State(false, [Connection(wire, 0)], wire, [], 0, None, 0, 0, [], [], [], Free, 0, [],
          seq(|c.outputs|, i => NewStage), NewStage)
  }

  datatype StageAct = Receive | Finish(ok: bool) | Notice | Quit

  datatype Action =
    | Cancel
    | Connect(stream: string)
    | Read
    | Offer
    | Abandon
    | Take
    | FanOut
    | LeaveDispatcher
    | Output(i: nat, act: StageAct)
    | Alerts(act: StageAct)

  // ---- the reader ----

  function ReadStep(c: Config, s: State): State {
    var end := IndexByte(s.wire, '\n');
    if s.reading.Some? || s.abandoned > 0 || end == -1 then s
    else
      var line, rest := s.wire[..end + 1], s.wire[end + 1..];
      if line[0] == '-' then s.(wire := "")
      else if line[0] != '+' then s.(wire := rest)
      else
        var r := Parser.Parse(line, c.up);
        var t := s.(wire := rest, outcomes := s.outcomes + [r]);
        match r
        case Ok(ev) => t.(reading := Some(ev))
        case Err(_) => t.(parseErrors := s.parseErrors + 1)
  }

  function OfferStep(c: Config, s: State): State {
    if s.reading == None then s
    else
      var ev := s.reading.value;
      if |s.queue| < c.capacity then
        s.(reading := None, queue := s.queue + [ev], offers := s.offers + [Mark(ev, true)])
      else if c.drop then
        s.(reading := None, monitorDropped := s.monitorDropped + 1, offers := s.offers + [Mark(ev, false)])
      else s
  }

  /** The blocking send gives up when the context ends, and the event is counted nowhere. */
  function AbandonStep(c: Config, s: State): State {
    if s.reading == None || !s.cancelled || c.drop then s
    else
      s.(reading := None, abandoned := s.abandoned + 1, offers := s.offers + [Mark(s.reading.value, false)])
  }

  // ---- the dispatcher ----

  function TakeStep(c: Config, s: State): State {
    if s.dispatcher != Free || s.queue == [] then s
    else
      var ev := s.queue[0];
      var t := s.(queue := s.queue[1..], taken := s.taken + [ev]);
      if ev.command in c.ignored then t.(ignored := s.ignored + 1)
      else t.(processed := s.processed + [ev], dispatcher := Fanning(ev, 0))
  }

  datatype Submission = Enqueued | Discarded | WouldBlock

  /** What becomes of a submission to a queue. */
  function Verdict(drop: bool, capacity: nat, queue: seq<Event>): Submission {
    if |queue| < capacity then Enqueued else if drop then Discarded else WouldBlock
  }

  /** Submit on one stage; None while a blocking send finds no room. */
  function Submit(drop: bool, capacity: nat, g: Stage, ev: Event): Option<Stage> {
    match Verdict(drop, capacity, g.queue)
    case Enqueued => Some(g.(queue := g.queue + [ev], offers := g.offers + [Mark(ev, true)]))
    case Discarded => Some(g.(dropped := g.dropped + 1, offers := g.offers + [Mark(ev, false)]))
    case WouldBlock => None
  }

  function FanOutStep(c: Config, s: State): State {
    match s.dispatcher
    case Fanning(ev, k) =>
      if k < |s.outputs| && k < |c.outputs| then
        match Submit(c.drop, c.outputs[k], s.outputs[k], ev)
        case None => s
        case Some(g) => s.(outputs := s.outputs[k := g], dispatcher := Fanning(ev, k + 1))
      else if c.hasAlerts then
        match Submit(c.drop, c.alerts, s.alerts, ev)
        case None => s
        case Some(g) => s.(alerts := g, dispatcher := Free)
      else s.(dispatcher := Free)
    case _ => s
  }

  // ---- outputs and alerts ----

  /** `drains` tells an output, which writes on after the context has ended, from the alert engine. */
  function StageStep(g: Stage, act: StageAct, cancelled: bool, drains: bool): Stage {
    match act
    case Receive =>
      if g.hand.Some? || g.queue == [] || g.phase == Stopped then g
      else g.(hand := Some(g.queue[0]), queue := g.queue[1..])
    case Finish(ok) =>
      if g.hand == None then g
      else
        var t := g.(hand := None, log := g.log + [Mark(g.hand.value, ok)]);
        if ok then t.(succeeded := g.succeeded + 1)
        else t.(failed := g.failed + 1, phase := if g.phase == Draining then Stopped else g.phase)
    case Notice =>
      if g.hand.Some? || g.phase != Running || !cancelled then g
      else g.(phase := if drains then Draining else Stopped)
    case Quit => if g.hand.Some? || g.phase != Draining then g else g.(phase := Stopped)
  }

  /** Run connects again once a read has failed, which can be at any time, and not after the context has ended. */
  function ConnectStep(s: State, stream: string): State {
    if s.reading.Some? || s.cancelled then s
    else s.(wire := stream, sessions := s.sessions + [Connection(stream, |s.outcomes|)])
  }

  function Next(c: Config, s: State, act: Action): State {
    match act
    case Cancel => s.(cancelled := true)
    case Connect(stream) => ConnectStep(s, stream)
    case Read => ReadStep(c, s)
    case Offer => OfferStep(c, s)
    case Abandon => AbandonStep(c, s)
    case Take => TakeStep(c, s)
    case FanOut => FanOutStep(c, s)
    case LeaveDispatcher => if s.dispatcher == Free && s.cancelled then s.(dispatcher := Gone) else s
    case Output(i, a) =>
      if i >= |s.outputs| then s
      else s.(outputs := s.outputs[i := StageStep(s.outputs[i], a, s.cancelled, true)])
    case Alerts(a) => s.(alerts := StageStep(s.alerts, a, s.cancelled, false))
  }

  function Exec(c: Config, s: State, acts: seq<Action>): State
    decreases |acts|
  {
    if acts == [] then s else Exec(c, Next(c, s, acts[0]), acts[1..])
  }

  lemma {:induction false} ExecAppend(c: Config, s: State, xs: seq<Action>, ys: seq<Action>)
    ensures Exec(c, s, xs + ys) == Exec(c, Exec(c, s, xs), ys)
    decreases |xs|
  {
    hide Next;
    if xs == [] {
      assert xs + ys == ys;
    } else {
      assert (xs + ys)[1..] == xs[1..] + ys;
      ExecAppend(c, Next(c, s, xs[0]), xs[1..], ys);
    }
  }

  lemma ExecCons(c: Config, s: State, act: Action, acts: seq<Action>)
    ensures Exec(c, s, [act] + acts) == Exec(c, Next(c, s, act), acts)
  {
    hide Next;
    assert ([act] + acts)[1..] == acts;
  }

  lemma ExecNothing(c: Config, s: State)
    ensures Exec(c, s, []) == s
  {
  }

  /** What an output does by itself once the context has ended. */
  function StageRun(g: Stage, acts: seq<StageAct>): Stage
    decreases |acts|
  {
    if acts == [] then g else StageRun(StageStep(g, acts[0], true, true), acts[1..])
  }

  lemma {:induction false} StageRunSnoc(g: Stage, acts: seq<StageAct>, act: StageAct)
    ensures StageRun(g, acts + [act]) == StageStep(StageRun(g, acts), act, true, true)
    decreases |acts|
  {
    hide StageStep;
    if acts == [] {
      assert [act][1..] == [] && [] + [act] == [act];
    } else {
      assert (acts + [act])[1..] == acts[1..] + [act];
      StageRunSnoc(StageStep(g, acts[0], true, true), acts[1..], act);
    }
  }

  lemma NoticeStarts(g: Stage)
    requires g.hand == None && g.phase == Running
    ensures StageRun(g, [Notice]) == g.(phase := Draining)
  {
    assert [Notice][1..] == [];
  }

  lemma QuitStops(g: Stage)
    requires g.hand == None && g.phase == Draining
    ensures StageStep(g, Quit, true, true) == g.(phase := Stopped)
  {
  }

  function ByOutput(i: nat, acts: seq<StageAct>): seq<Action> {
    if acts == [] then [] else [Output(i, acts[0])] + ByOutput(i, acts[1..])
  }

  /** Such a run of one output is a run of the whole machine that touches nothing else. */
  lemma {:induction false} StageRunIsExec(c: Config, s: State, i: nat, acts: seq<StageAct>)
    requires s.cancelled && i < |s.outputs|
    ensures Exec(c, s, ByOutput(i, acts)) == s.(outputs := s.outputs[i := StageRun(s.outputs[i], acts)])
    decreases |acts|
  {
    hide StageStep;
    if acts == [] {
      assert s.outputs[i := s.outputs[i]] == s.outputs;
    } else {
      var t := Next(c, s, Output(i, acts[0]));
      StageRunIsExec(c, t, i, acts[1..]);
      assert t.outputs[i := StageRun(t.outputs[i], acts[1..])] == s.outputs[i := StageRun(s.outputs[i], acts)];
      assert ByOutput(i, acts)[1..] == ByOutput(i, acts[1..]);
    }
  }

  // ---- the invariant ----

  function InHand(o: Option<Event>): seq<Event> {
    if o.Some? then [o.value] else []
  }

  /** What a stage was given and not refused, in order: attempted, in hand, queued. */
  function Passed(g: Stage): seq<Event> {
    Items(g.log) + InHand(g.hand) + g.queue
  }

  predicate StageInv(drop: bool, capacity: nat, g: Stage, offered: seq<Event>) {
    && Items(g.offers) == offered
    && Kept(g.offers) == Passed(g)
    && g.dropped == Count(g.offers, false)
    && g.succeeded == Count(g.log, true)
    && g.failed == Count(g.log, false)
    && |g.queue| <= capacity
    && (!drop ==> g.dropped == 0)
    && (g.dropped > 0 ==> |g.offers| > capacity)
  }

  predicate ReaderInv(c: Config, s: State) {
    && Items(s.offers) + InHand(s.reading) == Parsed(s.outcomes)
    && s.parseErrors == Failures(s.outcomes)
    && Kept(s.offers) == s.taken + s.queue
    && s.monitorDropped + s.abandoned == Count(s.offers, false)
    && |s.queue| <= c.capacity
    && (if c.drop then s.abandoned == 0 else s.monitorDropped == 0)
    && (s.monitorDropped > 0 ==> |s.offers| > c.capacity)
    && s.abandoned <= 1
    && (s.abandoned > 0 ==> s.cancelled && s.reading == None)
  }

  function Relevant(c: Config, events: seq<Event>): (r: seq<Event>)
    ensures |r| <= |events|
  {
    if events == [] then []
    else if events[|events| - 1].command in c.ignored then Relevant(c, events[..|events| - 1])
    else Relevant(c, events[..|events| - 1]) + [events[|events| - 1]]
  }

  predicate DispatcherInv(c: Config, s: State) {
    && s.processed == Relevant(c, s.taken)
    && s.ignored + |s.processed| == |s.taken|
    && |s.outputs| == |c.outputs|
    && (s.dispatcher.Fanning? ==>
          && s.dispatcher.next <= |c.outputs|
          && s.processed != [] && s.processed[|s.processed| - 1] == s.dispatcher.ev)
  }

  /** The events the dispatcher has already submitted to stage `i`; the alert engine comes after the last output. */
  function Submitted(s: State, i: nat): (r: seq<Event>)
    ensures r <= s.processed
  {
    if s.dispatcher.Fanning? && s.dispatcher.next <= i && s.processed != []
    then s.processed[..|s.processed| - 1] else s.processed
  }

  predicate AlertInv(c: Config, s: State) {
    if c.hasAlerts then StageInv(c.drop, c.alerts, s.alerts, Submitted(s, |c.outputs|))
    else s.alerts.offers == []
  }

  ghost predicate Inv(c: Config, s: State) {
    && ReaderInv(c, s) && DispatcherInv(c, s) && AlertInv(c, s)
    && forall i | 0 <= i < |c.outputs| :: StageInv(c.drop, c.outputs[i], s.outputs[i], Submitted(s, i))
  }

  lemma SubmitKeepsStage(drop: bool, capacity: nat, g: Stage, ev: Event, offered: seq<Event>)
    requires StageInv(drop, capacity, g, offered)
    ensures var r := Submit(drop, capacity, g, ev);
            r.Some? ==> StageInv(drop, capacity, r.value, offered + [ev])
  {
    Snoc(g.offers, Mark(ev, |g.queue| < capacity));
    AppendAssoc(Items(g.log) + InHand(g.hand), g.queue, [ev]);
  }

  lemma ReceiveKeepsStage(drop: bool, capacity: nat, g: Stage, offered: seq<Event>)
    requires StageInv(drop, capacity, g, offered) && g.hand == None && g.queue != []
    ensures StageInv(drop, capacity, g.(hand := Some(g.queue[0]), queue := g.queue[1..]), offered)
  {
    hide Items, Kept, Count;
    assert g.queue == [g.queue[0]] + g.queue[1..];
    assert Items(g.log) + [] + g.queue == Items(g.log) + [g.queue[0]] + g.queue[1..];
  }

  lemma FinishKeepsStage(drop: bool, capacity: nat, g: Stage, ok: bool, offered: seq<Event>)
    requires StageInv(drop, capacity, g, offered) && g.hand.Some?
    ensures StageInv(drop, capacity, StageStep(g, Finish(ok), true, true), offered)
  {
    hide Items, Kept, Count;
    Snoc(g.log, Mark(g.hand.value, ok));
    assert Items(g.log) + [g.hand.value] + [] == Items(g.log) + [g.hand.value];
  }

  lemma StageKeepsInv(drop: bool, capacity: nat, g: Stage, act: StageAct, cancelled: bool, drains: bool,
                      offered: seq<Event>)
    requires StageInv(drop, capacity, g, offered)
    ensures StageInv(drop, capacity, StageStep(g, act, cancelled, drains), offered)
  {
    hide Items, Kept, Count;
    if act == Receive && g.hand == None && g.queue != [] {
      ReceiveKeepsStage(drop, capacity, g, offered);
    } else if act.Finish? && g.hand.Some? {
      FinishKeepsStage(drop, capacity, g, act.ok, offered);
    }
  }

  lemma ReadFrame(c: Config, s: State)
    ensures var t := ReadStep(c, s);
            t == s.(wire := t.wire, outcomes := t.outcomes, reading := t.reading, parseErrors := t.parseErrors)
    ensures ReadStep(c, s).outcomes == s.outcomes ==>
              ReadStep(c, s).reading == s.reading && ReadStep(c, s).parseErrors == s.parseErrors
    ensures ReadStep(c, s).outcomes != s.outcomes ==>
              && s.reading == None && s.abandoned == 0
              && exists r ::
                   && ReadStep(c, s).outcomes == s.outcomes + [r]
                   && ReadStep(c, s).reading == (if r.Ok? then Some(r.value) else None)
                   && ReadStep(c, s).parseErrors == s.parseErrors + (if r.Ok? then 0 else 1)
  {
    hide Parser.Parse, IndexByte;
    var t := ReadStep(c, s);
    if t.outcomes != s.outcomes {
      var r := Parser.Parse(s.wire[..IndexByte(s.wire, '\n') + 1], c.up);
      assert t.outcomes == s.outcomes + [r];
    }
  }

  lemma ReadKeepsReader(c: Config, s: State)
    requires ReaderInv(c, s)
    ensures ReaderInv(c, ReadStep(c, s))
  {
    hide ReadStep, Items, Kept, Count, Parsed, Failures;
    ReadFrame(c, s);
    var t := ReadStep(c, s);
    if t.outcomes != s.outcomes {
      var r :| t.outcomes == s.outcomes + [r] && t.reading == (if r.Ok? then Some(r.value) else None)
               && t.parseErrors == s.parseErrors + (if r.Ok? then 0 else 1);
      OutcomesSnoc(s.outcomes, r);
      assert Items(s.offers) + [] == Items(s.offers);
    }
  }

  lemma ReadKeepsInv(c: Config, s: State)
    requires Inv(c, s)
    ensures Inv(c, ReadStep(c, s))
  {
    hide StageInv, Relevant, ReadStep, ReaderInv;
    ReadFrame(c, s);
    ReadKeepsReader(c, s);
  }

  lemma OfferKeepsInv(c: Config, s: State)
    requires Inv(c, s)
    ensures Inv(c, OfferStep(c, s)) && Inv(c, AbandonStep(c, s))
  {
    hide StageInv, Relevant, Items, Kept, Count, Parsed, Failures;
    if s.reading.Some? {
      var ev := s.reading.value;
      Snoc(s.offers, Mark(ev, true));
      Snoc(s.offers, Mark(ev, false));
      AppendAssoc(s.taken, s.queue, [ev]);
      assert Items(s.offers) + [ev] + [] == Items(s.offers) + [ev];
    }
  }

  lemma RelevantSnoc(c: Config, events: seq<Event>, ev: Event)
    ensures Relevant(c, events + [ev]) == Relevant(c, events) + (if ev.command in c.ignored then [] else [ev])
  {
    assert (events + [ev])[..|events|] == events;
  }

  lemma TakeKeepsReader(c: Config, s: State)
    requires ReaderInv(c, s)
    ensures ReaderInv(c, TakeStep(c, s))
  {
    hide Items, Kept, Count, Parsed, Failures;
    if s.dispatcher == Free && s.queue != [] {
      assert s.taken + [s.queue[0]] + s.queue[1..] == s.taken + s.queue;
    }
  }

  lemma TakeKeepsDispatcher(c: Config, s: State)
    requires DispatcherInv(c, s)
    ensures DispatcherInv(c, TakeStep(c, s))
    ensures forall i :: Submitted(TakeStep(c, s), i) == Submitted(s, i)
  {
    hide Relevant;
    if s.dispatcher == Free && s.queue != [] {
      RelevantSnoc(c, s.taken, s.queue[0]);
      var t := TakeStep(c, s);
      assert t.processed == s.processed || t.processed[..|t.processed| - 1] == s.processed;
    }
  }

  lemma TakeKeepsInv(c: Config, s: State)
    requires Inv(c, s)
    ensures Inv(c, TakeStep(c, s))
  {
    hide StageInv, ReaderInv, Submitted, Relevant;
    TakeKeepsReader(c, s);
    TakeKeepsDispatcher(c, s);
  }

  lemma FanOutKeepsInv(c: Config, s: State)
    requires Inv(c, s)
    ensures Inv(c, FanOutStep(c, s))
  {
    hide StageInv, Relevant, Submit, Items, Kept, Count, Parsed, Failures;
    if s.dispatcher.Fanning? {
      var ev, k := s.dispatcher.ev, s.dispatcher.next;
      assert Submitted(s, k) + [ev] == s.processed;
      if k < |c.outputs| {
        SubmitKeepsStage(c.drop, c.outputs[k], s.outputs[k], ev, Submitted(s, k));
      } else if c.hasAlerts {
        SubmitKeepsStage(c.drop, c.alerts, s.alerts, ev, Submitted(s, k));
      }
    }
  }

  lemma StageActKeepsInv(c: Config, s: State, act: Action)
    requires Inv(c, s) && (act.Output? || act.Alerts?)
    ensures Inv(c, Next(c, s, act))
  {
    hide StageInv, Relevant, StageStep, Items, Kept, Count, Parsed, Failures;
    match act
    case Output(i, a) =>
      if i < |s.outputs| {
        StageKeepsInv(c.drop, c.outputs[i], s.outputs[i], a, s.cancelled, true, Submitted(s, i));
      }
    case Alerts(a) =>
      if c.hasAlerts {
        StageKeepsInv(c.drop, c.alerts, s.alerts, a, s.cancelled, false, Submitted(s, |c.outputs|));
      } else {
        StageKeepsOffers(s.alerts, a, s.cancelled, false);
      }
  }

  lemma StageKeepsOffers(g: Stage, act: StageAct, cancelled: bool, drains: bool)
    ensures StageStep(g, act, cancelled, drains).offers == g.offers
  {
  }

  lemma CancelKeepsInv(c: Config, s: State)
    requires Inv(c, s)
    ensures Inv(c, s.(cancelled := true))
  {
    hide StageInv, Relevant, Items, Kept, Count, Parsed, Failures;
  }

  lemma ConnectKeepsInv(c: Config, s: State, stream: string)
    requires Inv(c, s)
    ensures Inv(c, ConnectStep(s, stream))
  {
    hide StageInv, Relevant, Items, Kept, Count, Parsed, Failures;
  }

  lemma LeaveKeepsInv(c: Config, s: State)
    requires Inv(c, s) && s.dispatcher == Free
    ensures Inv(c, s.(dispatcher := Gone))
  {
    hide StageInv, Relevant, Items, Kept, Count, Parsed, Failures;
  }

  lemma StepKeepsInv(c: Config, s: State, act: Action)
    requires Inv(c, s)
    ensures Inv(c, Next(c, s, act))
  {
    hide Inv, ReadStep, OfferStep, AbandonStep, TakeStep, FanOutStep, StageStep;
    match act
    case Read => ReadKeepsInv(c, s);
    case Offer => OfferKeepsInv(c, s);
    case Abandon => OfferKeepsInv(c, s);
    case Take => TakeKeepsInv(c, s);
    case FanOut => FanOutKeepsInv(c, s);
    case Output(_, _) => StageActKeepsInv(c, s, act);
    case Alerts(_) => StageActKeepsInv(c, s, act);
    case Cancel => CancelKeepsInv(c, s);
    case Connect(stream) => ConnectKeepsInv(c, s, stream);
    case LeaveDispatcher =>
      if s.dispatcher == Free {
        LeaveKeepsInv(c, s);
      }
  }

  lemma {:induction false} RunKeepsInv(c: Config, s: State, acts: seq<Action>)
    requires Inv(c, s)
    ensures Inv(c, Exec(c, s, acts))
    decreases |acts|
  {
    hide Inv, Next;
    if acts != [] {
      StepKeepsInv(c, s, acts[0]);
      RunKeepsInv(c, Next(c, s, acts[0]), acts[1..]);
    }
  }

  lemma Reachable(c: Config, wire: string, acts: seq<Action>)
    ensures Inv(c, Exec(c, Init(c, wire), acts))
  {
    RunKeepsInv(c, Init(c, wire), acts);
  }

  // ---- conservation ----

  /** An event the dispatcher has recorded and not yet submitted to stage `i`. */
  function Pending(s: State, i: nat): nat {
    if s.dispatcher.Fanning? && s.dispatcher.next <= i then 1 else 0
  }

  lemma StageAccounts(drop: bool, capacity: nat, g: Stage, offered: seq<Event>)
    requires StageInv(drop, capacity, g, offered)
    ensures |offered| == g.succeeded + g.failed + g.dropped + |g.queue| + |InHand(g.hand)|
  {
    CountsAddUp(g.offers);
    CountsAddUp(g.log);
  }

  /** At every reachable state every '+' line read is accounted for once, and so is every recorded event at every
      output and at the alert engine. */
  lemma Conservation(c: Config, wire: string, acts: seq<Action>)
    ensures var s := Exec(c, Init(c, wire), acts);
            && |s.outputs| == |c.outputs|
            && |s.outcomes| == s.parseErrors + s.monitorDropped + s.abandoned + |InHand(s.reading)| + |s.queue|
                               + s.ignored + |s.processed|
            && (forall i | 0 <= i < |c.outputs| ::
                  var g := s.outputs[i];
                  |s.processed| == g.succeeded + g.failed + g.dropped + |g.queue| + |InHand(g.hand)| + Pending(s, i))
            && (c.hasAlerts ==>
                  var g := s.alerts;
                  |s.processed| == g.succeeded + g.failed + g.dropped + |g.queue| + |InHand(g.hand)|
                                   + Pending(s, |c.outputs|))
            && (if c.drop then s.abandoned == 0 else s.monitorDropped == 0 && s.abandoned <= 1)
  {
    hide Exec, StageInv, Items, Kept, Count, Parsed, Failures;
    var s := Exec(c, Init(c, wire), acts);
    Reachable(c, wire, acts);
    OutcomesAddUp(s.outcomes);
    CountsAddUp(s.offers);
    assert |Items(s.offers)| == Count(s.offers, true) + Count(s.offers, false);
    assert |Kept(s.offers)| == |s.taken| + |s.queue|;
    forall i | 0 <= i < |c.outputs|
      ensures var g := s.outputs[i];
              |s.processed| == g.succeeded + g.failed + g.dropped + |g.queue| + |InHand(g.hand)| + Pending(s, i)
    {
      StageAccounts(c.drop, c.outputs[i], s.outputs[i], Submitted(s, i));
    }
    if c.hasAlerts {
      StageAccounts(c.drop, c.alerts, s.alerts, Submitted(s, |c.outputs|));
    }
  }

  // ---- drops ----

  /** A stage with number `i`: an output, or the alert engine after the last output. */
  function StageAt(c: Config, s: State, i: nat): Stage
    requires |s.outputs| == |c.outputs|
  {
    if i < |c.outputs| then s.outputs[i] else s.alerts
  }

  predicate IsStage(c: Config, i: nat) {
    i < |c.outputs| || (c.hasAlerts && i == |c.outputs|)
  }

  function CapacityAt(c: Config, i: nat): nat {
    if i < |c.outputs| then c.outputs[i] else c.alerts
  }

  lemma StageHolds(c: Config, s: State, i: nat)
    requires Inv(c, s) && IsStage(c, i)
    ensures |s.outputs| == |c.outputs|
    ensures StageInv(c.drop, CapacityAt(c, i), StageAt(c, s, i), Submitted(s, i))
  {
    hide StageInv;
  }

  /** The monitor queue, step by step: an event is dropped only when the queue is full and the policy says so, and one
      that finds room is taken. */
  lemma ReaderDropsOnlyWhenFull(c: Config, s: State, act: Action)
    ensures Next(c, s, act).monitorDropped != s.monitorDropped ==> act == Offer && c.drop && |s.queue| >= c.capacity
    ensures s.reading.Some? && |s.queue| < c.capacity ==>
              Next(c, s, Offer).queue == s.queue + [s.reading.value] && Next(c, s, Offer).reading == None
  {
    hide ReadStep, StageStep, FanOutStep;
    ReadFrame(c, s);
    FanOutFrame(c, s);
  }

  lemma FanOutFrame(c: Config, s: State)
    ensures var t := FanOutStep(c, s);
            t == s.(outputs := t.outputs, alerts := t.alerts, dispatcher := t.dispatcher)
  {
    hide Submit;
  }

  lemma StageKeepsDropped(g: Stage, act: StageAct, cancelled: bool, drains: bool)
    ensures StageStep(g, act, cancelled, drains).dropped == g.dropped
  {
  }

  lemma FanOutDrops(c: Config, s: State, i: nat)
    requires |s.outputs| == |c.outputs| && IsStage(c, i)
    ensures var t, full := FanOutStep(c, s), |StageAt(c, s, i).queue| >= CapacityAt(c, i);
            && |t.outputs| == |c.outputs|
            && (StageAt(c, t, i).dropped != StageAt(c, s, i).dropped ==> c.drop && full)
            && (s.dispatcher.Fanning? && s.dispatcher.next == i && !full ==>
                  t.dispatcher != s.dispatcher && StageAt(c, t, i).queue == StageAt(c, s, i).queue + [s.dispatcher.ev])
  {
  }

  /** The same for the queue of every stage. */
  lemma StageDropsOnlyWhenFull(c: Config, s: State, act: Action, i: nat)
    requires |s.outputs| == |c.outputs| && IsStage(c, i)
    ensures var t := Next(c, s, act);
            && |t.outputs| == |c.outputs|
            && (StageAt(c, t, i).dropped != StageAt(c, s, i).dropped ==>
                  act == FanOut && c.drop && |StageAt(c, s, i).queue| >= CapacityAt(c, i))
    ensures s.dispatcher.Fanning? && s.dispatcher.next == i && |StageAt(c, s, i).queue| < CapacityAt(c, i) ==>
              var t := Next(c, s, FanOut);
              && t.dispatcher != s.dispatcher && |t.outputs| == |c.outputs|
              && StageAt(c, t, i).queue == StageAt(c, s, i).queue + [s.dispatcher.ev]
  {
    hide ReadStep, StageStep, FanOutStep;
    ReadFrame(c, s);
    FanOutDrops(c, s, i);
    match act
    case Output(k, a) =>
      if k < |s.outputs| {
        StageKeepsDropped(s.outputs[k], a, s.cancelled, true);
      }
    case Alerts(a) => StageKeepsDropped(s.alerts, a, s.cancelled, false);
    case _ =>
  }

  /** Over every run nothing is dropped before more events have come than the queue can hold. */
  lemma DropsNeedAFullQueue(c: Config, wire: string, acts: seq<Action>, i: nat)
    requires IsStage(c, i)
    ensures var s := Exec(c, Init(c, wire), acts);
            && |s.outputs| == |c.outputs|
            && (s.monitorDropped > 0 ==> c.drop && |Parsed(s.outcomes)| > c.capacity)
            && (StageAt(c, s, i).dropped > 0 ==> c.drop && |s.processed| > CapacityAt(c, i))
  {
    hide Exec, Kept, Items, Count, Parsed, Failures;
    Reachable(c, wire, acts);
    StageHolds(c, Exec(c, Init(c, wire), acts), i);
  }

  /** What is relevant are exactly the events of the other commands, each as often as it came. */
  lemma {:induction false} RelevantExactly(c: Config, events: seq<Event>, ev: Event)
    ensures multiset(Relevant(c, events))[ev] == if ev.command in c.ignored then 0 else multiset(events)[ev]
    decreases |events|
  {
    if events != [] {
      var last := |events| - 1;
      RelevantExactly(c, events[..last], ev);
      assert events == events[..last] + [events[last]];
    }
  }

  // ---- order ----

  /** What a stage has attempted, holds and has queued is what it was submitted with exactly the dropped events deleted:
      all of it when nothing was dropped. */
  lemma StageOrder(drop: bool, capacity: nat, g: Stage, offered: seq<Event>)
    requires StageInv(drop, capacity, g, offered)
    ensures Items(g.offers) == offered && Kept(g.offers) == Passed(g)
    ensures Subsequence(Passed(g), offered)
    ensures g.dropped == 0 ==> Passed(g) == offered
  {
    KeptIsSubsequence(g.offers);
    if g.dropped == 0 {
      NothingLost(g.offers);
    }
  }

  lemma {:induction false} RelevantAt(c: Config, events: seq<Event>) returns (f: seq<nat>)
    ensures Embeds(f, Relevant(c, events), events)
    decreases |events|
  {
    f := [];
    if events != [] {
      var last := |events| - 1;
      f := RelevantAt(c, events[..last]);
      if events[last].command !in c.ignored {
        f := f + [last];
      }
    }
  }

  lemma RelevantPrefix(c: Config, a: seq<Event>, b: seq<Event>)
    requires a <= b
    ensures Relevant(c, a) <= Relevant(c, b)
    decreases |b|
  {
    if a != b {
      RelevantPrefix(c, a, b[..|b| - 1]);
    }
  }

  lemma ProcessedIsSubsequence(c: Config, s: State)
    requires Inv(c, s)
    ensures Subsequence(s.processed, Parsed(s.outcomes))
    ensures s.monitorDropped == 0 && s.abandoned == 0 ==> s.processed <= Relevant(c, Parsed(s.outcomes))
  {
    hide StageInv, Embeds, Relevant, Kept, Items, Count;
    var f := RelevantAt(c, s.taken);
    assert s.taken <= Kept(s.offers);
    PrefixIsSubsequence(s.taken, Kept(s.offers));
    KeptIsSubsequence(s.offers);
    assert Items(s.offers) <= Parsed(s.outcomes);
    PrefixIsSubsequence(Items(s.offers), Parsed(s.outcomes));
    SubsequenceTransitive(s.processed, s.taken, Kept(s.offers));
    SubsequenceTransitive(s.processed, Kept(s.offers), Items(s.offers));
    SubsequenceTransitive(s.processed, Items(s.offers), Parsed(s.outcomes));
    if s.monitorDropped == 0 && s.abandoned == 0 {
      NothingLost(s.offers);
      RelevantPrefix(c, s.taken, Parsed(s.outcomes));
    }
  }

  /** Every sink, at every reachable state, sees the parsed events in MONITOR order with some left out: none but the
      ignored ones when nothing was dropped on the way. */
  lemma Order(c: Config, wire: string, acts: seq<Action>, i: nat)
    requires IsStage(c, i)
    ensures var s := Exec(c, Init(c, wire), acts);
            && |s.outputs| == |c.outputs|
            && var g := StageAt(c, s, i);
               && Items(g.offers) == Submitted(s, i) <= s.processed
               && Kept(g.offers) == Passed(g)
               && Subsequence(Passed(g), Parsed(s.outcomes))
               && (g.dropped == 0 ==> Passed(g) == Submitted(s, i))
               && (g.dropped == 0 && s.monitorDropped == 0 && s.abandoned == 0 ==>
                     Passed(g) <= Relevant(c, Parsed(s.outcomes)))
  {
    hide Exec, StageInv, Inv, Passed, Relevant, Items, Kept;
    var s := Exec(c, Init(c, wire), acts);
    Reachable(c, wire, acts);
    StageHolds(c, s, i);
    var g := StageAt(c, s, i);
    StageOrder(c.drop, CapacityAt(c, i), g, Submitted(s, i));
    ProcessedIsSubsequence(c, s);
    PrefixIsSubsequence(Submitted(s, i), s.processed);
    SubsequenceTransitive(Passed(g), Submitted(s, i), s.processed);
    SubsequenceTransitive(Passed(g), s.processed, Parsed(s.outcomes));
  }

  // ---- from the bytes on the wire ----

  /** Every session has contributed the outcomes of its first lines, and the outcomes are these, one session after the
      other. */
  predicate Heard(up: string -> string, sessions: seq<Connection>, outcomes: seq<Outcome>) {
    if sessions == [] then outcomes == []
    else
      var last := sessions[|sessions| - 1];
      && last.from <= |outcomes|
      && outcomes[last.from..] <= SessionFrom(last.stream, up).outcomes
      && Heard(up, sessions[..|sessions| - 1], outcomes[..last.from])
  }

  /** The outcomes of the current session so far and those still on the wire are those of its whole stream. */
  predicate WireInv(c: Config, s: State) {
    && s.sessions != []
    && var last := s.sessions[|s.sessions| - 1];
       && last.from <= |s.outcomes|
       && SessionFrom(last.stream, c.up).outcomes == s.outcomes[last.from..] + SessionFrom(s.wire, c.up).outcomes
       && Heard(c.up, s.sessions[..|s.sessions| - 1], s.outcomes[..last.from])
  }

  lemma AllHeard(c: Config, s: State)
    requires WireInv(c, s)
    ensures Heard(c.up, s.sessions, s.outcomes)
  {
    hide SessionFrom;
  }

  lemma ReadKeepsWire(c: Config, s: State)
    requires WireInv(c, s)
    ensures WireInv(c, ReadStep(c, s))
  {
    hide Parser.Parse, SessionFrom, IndexByte, Heard;
    if '\n' in s.wire {
      SessionStep(s.wire, c.up);
      SessionAtEnd("", c.up);
      var from, end := s.sessions[|s.sessions| - 1].from, IndexByte(s.wire, '\n');
      var r, later := Parser.Parse(s.wire[..end + 1], c.up), SessionFrom(s.wire[end + 1..], c.up).outcomes;
      assert s.outcomes[from..] + ([r] + later) == (s.outcomes + [r])[from..] + later;
      assert (s.outcomes + [r])[..from] == s.outcomes[..from];
    } else {
      NoLine(s.wire);
    }
  }

  lemma NoLine(wire: string)
    requires '\n' !in wire
    ensures IndexByte(wire, '\n') == -1
  {
  }

  lemma ConnectKeepsWire(c: Config, s: State, stream: string)
    requires WireInv(c, s)
    ensures WireInv(c, ConnectStep(s, stream))
  {
    hide SessionFrom, Heard;
    AllHeard(c, s);
    var sessions, n := s.sessions + [Connection(stream, |s.outcomes|)], |s.outcomes|;
    assert sessions[..|s.sessions|] == s.sessions && s.outcomes[..n] == s.outcomes;
    assert s.outcomes[n..] + SessionFrom(stream, c.up).outcomes == SessionFrom(stream, c.up).outcomes;
  }

  lemma OthersKeepWire(c: Config, s: State, act: Action)
    requires act != Read && !act.Connect?
    ensures var t := Next(c, s, act); t.wire == s.wire && t.outcomes == s.outcomes && t.sessions == s.sessions
  {
  }

  lemma {:induction false} RunKeepsWire(c: Config, s: State, acts: seq<Action>)
    requires WireInv(c, s)
    ensures WireInv(c, Exec(c, s, acts))
    decreases |acts|
  {
    hide Next, ReadStep, SessionFrom, Heard;
    if acts != [] {
      ReadOrConnect(c, s);
      if acts[0] == Read {
        ReadKeepsWire(c, s);
      } else if acts[0].Connect? {
        ConnectKeepsWire(c, s, acts[0].stream);
      } else {
        OthersKeepWire(c, s, acts[0]);
      }
      RunKeepsWire(c, Next(c, s, acts[0]), acts[1..]);
    }
  }

  lemma ReadOrConnect(c: Config, s: State)
    ensures Next(c, s, Read) == ReadStep(c, s)
    ensures forall stream :: Next(c, s, Connect(stream)) == ConnectStep(s, stream)
  {
    hide ReadStep;
  }

  lemma WireAtStart(c: Config, wire: string)
    ensures WireInv(c, Init(c, wire))
  {
    hide SessionFrom;
    var none: seq<Outcome> := [];
    assert none[0..] + SessionFrom(wire, c.up).outcomes == SessionFrom(wire, c.up).outcomes;
  }

  /** What a server sends in one session: printed and stray lines, and perhaps part of another one. */
  datatype Stream = Stream(items: seq<Item>, tail: string)

  predicate ValidStream(m: Stream) {
    ValidItems(m.items) && '\n' !in m.tail
  }

  /** The sessions carried these streams. */
  predicate Carried(sessions: seq<Connection>, streams: seq<Stream>) {
    && |streams| == |sessions|
    && forall i | 0 <= i < |streams| ::
         ValidStream(streams[i]) && sessions[i].stream == Wire(streams[i].items) + streams[i].tail
  }

  /** The printed events of all streams, one stream after the other. */
  function Printed(streams: seq<Stream>, up: string -> string): seq<Event>
    requires forall i | 0 <= i < |streams| :: ValidStream(streams[i])
  {
    if streams == [] then []
    else
      var last := streams[|streams| - 1];
      assert ValidStream(last);
      Printed(streams[..|streams| - 1], up) + EventsOf(last.items, up)
  }

  /** The '+' lines of all streams that are no printed lines. */
  function Garbage(streams: seq<Stream>): nat {
    if streams == [] then 0 else Garbage(streams[..|streams| - 1]) + Garbled(streams[|streams| - 1].items)
  }

  // The first lines of one more session.
  lemma OneMoreSession(early: seq<Outcome>, before: seq<Event>, late: seq<Outcome>, all: seq<Outcome>)
    requires Subsequence(Parsed(early), before) && late <= all
    ensures Subsequence(Parsed(early + late), before + Parsed(all))
    ensures Failures(early + late) <= Failures(early) + Failures(all)
    ensures |late| <= |all|
    ensures |late| == |all| ==> late == all
  {
    hide Subsequence, Parsed, Failures;
    var rest := all[|late|..];
    assert all == late + rest;
    OutcomesAppend(early, late);
    OutcomesAppend(late, rest);
    PrefixIsSubsequence(Parsed(late), Parsed(all));
    SubsequenceAppend(Parsed(early), before, Parsed(late), Parsed(all));
  }

  predicate AllRead(streams: seq<Stream>, outcomes: seq<Outcome>, up: string -> string)
    requires forall i | 0 <= i < |streams| :: ValidStream(streams[i])
  {
    |outcomes| == |Printed(streams, up)| + Garbage(streams)
  }

  lemma {:induction false} HeardPrinted(up: string -> string, sessions: seq<Connection>, streams: seq<Stream>,
                                        outcomes: seq<Outcome>)
    requires Heard(up, sessions, outcomes) && Carried(sessions, streams)
    ensures Subsequence(Parsed(outcomes), Printed(streams, up)) && Failures(outcomes) <= Garbage(streams)
    ensures |outcomes| <= |Printed(streams, up)| + Garbage(streams)
    ensures AllRead(streams, outcomes, up) ==>
              Parsed(outcomes) == Printed(streams, up) && Failures(outcomes) == Garbage(streams)
    decreases |sessions|
  {
    hide SessionFrom, Parsed, Failures, Subsequence, Wire, EventsOf, OutcomesOf, Garbled, ValidItems;
    if sessions == [] {
      NothingHeard();
    } else {
      var n := |sessions| - 1;
      var from, m := sessions[n].from, streams[n];
      var all := OutcomesOf(m.items, up);
      HeardPrinted(up, sessions[..n], streams[..n], outcomes[..from]);
      StreamFraming(m.items, m.tail, up);
      OutcomesAddUp(all);
      OneMoreSession(outcomes[..from], Printed(streams[..n], up), outcomes[from..], all);
      OutcomesAppend(outcomes[..from], outcomes[from..]);
      assert outcomes[..from] + outcomes[from..] == outcomes;
    }
  }

  lemma NothingHeard()
    ensures Failures([]) == 0 && Parsed([]) == [] && Subsequence<Event>([], [])
  {
    PrefixIsSubsequence<Event>([], []);
  }

  lemma ReadSoFar(c: Config, wire: string, acts: seq<Action>, streams: seq<Stream>)
    requires Carried(Exec(c, Init(c, wire), acts).sessions, streams)
    ensures var s := Exec(c, Init(c, wire), acts);
            && Subsequence(Parsed(s.outcomes), Printed(streams, c.up))
            && Failures(s.outcomes) <= Garbage(streams)
            && (AllRead(streams, s.outcomes, c.up) ==>
                  Parsed(s.outcomes) == Printed(streams, c.up) && Failures(s.outcomes) == Garbage(streams))
  {
    hide Exec, WireInv, Heard, Printed, Garbage, Parsed, Failures, Subsequence;
    var s := Exec(c, Init(c, wire), acts);
    WireAtStart(c, wire);
    RunKeepsWire(c, Init(c, wire), acts);
    AllHeard(c, s);
    HeardPrinted(c.up, s.sessions, streams, s.outcomes);
  }

  /** End to end: over any number of sessions that carry printed MONITOR lines and others, every sink sees a subsequence
      of exactly the printed events, in order, and a parse error is a '+' line that is no printed one. */
  lemma EndToEnd(c: Config, wire: string, acts: seq<Action>, streams: seq<Stream>, i: nat)
    requires Carried(Exec(c, Init(c, wire), acts).sessions, streams) && IsStage(c, i)
    ensures var s := Exec(c, Init(c, wire), acts);
            && |s.outputs| == |c.outputs|
            && s.parseErrors <= Garbage(streams)
            && Subsequence(Passed(StageAt(c, s, i)), Printed(streams, c.up))
  {
    hide Exec, Printed, Garbage, Passed, Parsed, Failures, StageInv, Items, Kept, Relevant, Subsequence;
    var s := Exec(c, Init(c, wire), acts);
    Order(c, wire, acts, i);
    ReadSoFar(c, wire, acts, streams);
    Reachable(c, wire, acts);
    SubsequenceTransitive(Passed(StageAt(c, s, i)), Parsed(s.outcomes), Printed(streams, c.up));
  }

  /** Nothing is left on the way from the reader to stage `i`. */
  predicate Drained(c: Config, s: State, i: nat)
    requires |s.outputs| == |c.outputs|
  {
    var g := StageAt(c, s, i);
    && s.reading == None && s.queue == [] && !s.dispatcher.Fanning?
    && g.queue == [] && g.hand == None
  }

  /** And when as many '+' lines have been read as were sent, all has gone through and nothing was dropped, it has been
      handed exactly the printed events of all sessions whose commands are not ignored. */
  lemma {:induction false} EverythingDelivered(c: Config, wire: string, acts: seq<Action>, streams: seq<Stream>, i: nat)
    requires Carried(Exec(c, Init(c, wire), acts).sessions, streams) && IsStage(c, i)
    ensures var s := Exec(c, Init(c, wire), acts);
            && |s.outputs| == |c.outputs|
            && var g := StageAt(c, s, i);
               && AllRead(streams, s.outcomes, c.up) && Drained(c, s, i)
               && g.dropped == 0 && s.monitorDropped == 0 && s.abandoned == 0
               ==> Items(g.log) == Relevant(c, Printed(streams, c.up)) && s.parseErrors == Garbage(streams)
  {
    hide Exec, Printed, Garbage, AllRead, Parsed, Failures, StageInv, Items, Kept, Count, Relevant, Subsequence;
    var s := Exec(c, Init(c, wire), acts);
    Order(c, wire, acts, i);
    ReadSoFar(c, wire, acts, streams);
    Reachable(c, wire, acts);
    var g := StageAt(c, s, i);
    if Drained(c, s, i) && g.dropped == 0 && s.monitorDropped == 0 && s.abandoned == 0 {
      NothingLost(s.offers);
      assert Items(g.log) + [] + [] == Items(g.log);
      assert s.taken + [] == s.taken && Items(s.offers) + [] == Items(s.offers);
    }
  }

  /** In a run of one session all has been read as soon as no terminated line is left. */
  lemma OneSessionIsRead(c: Config, wire: string, acts: seq<Action>, m: Stream)
    requires Carried(Exec(c, Init(c, wire), acts).sessions, [m])
    ensures var s := Exec(c, Init(c, wire), acts); '\n' !in s.wire ==> AllRead([m], s.outcomes, c.up)
  {
    hide Exec, SessionFrom, Wire, EventsOf, OutcomesOf, Garbled, ValidItems, Parsed, Failures;
    var s := Exec(c, Init(c, wire), acts);
    WireAtStart(c, wire);
    RunKeepsWire(c, Init(c, wire), acts);
    StreamFraming(m.items, m.tail, c.up);
    OutcomesAddUp(OutcomesOf(m.items, c.up));
    if '\n' !in s.wire {
      SessionAtEnd(s.wire, c.up);
      assert Printed([m], c.up) == [] + EventsOf(m.items, c.up) && Garbage([m]) == Garbled(m.items);
      assert |SessionFrom(s.sessions[0].stream, c.up).outcomes| == |OutcomesOf(m.items, c.up)|;
    }
  }
}
