/** The role gate as a protocol (internal/role/role.go with its client in internal/monitor/client.go): one prober, any
    number of Wait callers and any number of MONITOR sessions, interleaved at every atomic store and load, critical
    section, channel send and channel receive. */
module RoleGate {
  import opened Text

  const MASTER := "master"
  const UNKNOWN := "unknown"

  /** The prober, between two of its atomic actions. `prev` is the role probeOnce read before its stores. */
  datatype Probe =
    | Idle
    | Answered(role: string)
    | Loaded(role: string, prev: string)
    | StoredMaster(role: string, prev: string)
    | StoredCurrent(role: string, prev: string)
    | Announcing
    | Notifying(left: seq<nat>)

  /** A goroutine that uses the gate. W... is a caller of Wait, S... a MONITOR session with its watcher.
      `armed` remembers whether the gate was active, or a flip still unannounced, when the session subscribed. */
  datatype Agent =
    | WStart
    | WSubscribing
    | WRechecking(ch: nat)
    | WParked(ch: nat)
    | WCancelling(ch: nat, after: Agent)
    | WWoken
    | WReturned(ok: bool)
    | SDialled
    | SParked(ch: nat, armed: bool)
    | SWoken(ch: nat, armed: bool)
    | SLeaving(ch: nat)
    | SGone

  datatype State = State(
    allowReplica: bool,
    isMaster: bool,
    current: string,
    probeErr: bool,
    probe: Probe,
    waiters: seq<nat>,
    full: set<nat>,
    nextCh: nat,
    agents: map<nat, Agent>,
    transitions: seq<(string, string)>,
    notified: nat)

  function Init(allowReplica: bool): State {
    State(allowReplica, false, UNKNOWN, false, Idle, [], {}, 0, map[], [], 0)
  }

  /** IsMaster() and IsActive() */
  predicate Active(s: State) {
    s.allowReplica || s.isMaster
  }

  // notify holds the mutex while it walks the waiter list.
  predicate Locked(s: State) {
    s.probe.Notifying?
  }

  datatype Action =
    | ProbeFails
    | ProbeAnswers(role: string)
    | ProbeSteps
    | CallWait(a: nat)
    | Dial(a: nat)
    | Acts(a: nat, how: How)

  /** What an agent does when scheduled: its next statement, or one arm of the select it is parked at. */
  datatype How = Proceed | Receive | ContextDone

  /** The list without the first occurrence of `ch`. */
  function Remove<T(==)>(waiters: seq<T>, ch: T): (r: seq<T>)
    ensures forall c | c in waiters && c != ch :: c in r
    ensures forall c | c in r :: c in waiters
  {
    if waiters == [] then []
    else if waiters[0] == ch then waiters[1..]
    else [waiters[0]] + Remove(waiters[1..], ch)
  }

  /** It takes out the first occurrence and nothing else. */
  lemma {:induction false} RemoveExactly<T>(front: seq<T>, ch: T, back: seq<T>)
    requires ch !in front
    ensures Remove(front + [ch] + back, ch) == front + back
    decreases |front|
  {
    var all := front + [ch] + back;
    if front == [] {
      assert all[1..] == back == front + back;
    } else {
      assert all[0] == front[0] && all[1..] == front[1..] + [ch] + back;
      RemoveExactly(front[1..], ch, back);
      assert [front[0]] + (front[1..] + back) == front + back;
    }
  }

  function ProbeStep(s: State): State {
    match s.probe
    case Idle => s
    case Answered(role) => s.(probeErr := false, probe := Loaded(role, s.current))
    case Loaded(role, prev) => s.(isMaster := role == MASTER, probe := StoredMaster(role, prev))
    case StoredMaster(role, prev) => s.(current := role, probe := StoredCurrent(role, prev))
    case StoredCurrent(role, prev) =>
      if prev == role then s.(probe := Idle)
      else s.(transitions := s.transitions + [(prev, role)], probe := Announcing)
    case Announcing => s.(notified := s.notified + 1, probe := Notifying(s.waiters))
    case Notifying(left) =>
      if left == [] then s.(probe := Idle)
      else s.(full := s.full + {left[0]}, probe := Notifying(left[1..]))
  }

  /** A flip whose stores may be visible but whose notify has not taken the mutex yet. */
  predicate FlipDue(s: State) {
    match s.probe
    case StoredMaster(role, prev) => role != prev
    case StoredCurrent(role, prev) => role != prev
    case Announcing => true
    case _ => false
  }

  /** The prober is bound to send on `ch` unless its owner unsubscribes first. */
  predicate Due(s: State, ch: nat) {
    FlipDue(s) || (s.probe.Notifying? && ch in s.probe.left)
  }

  function Subscribed(s: State): State {
    s.(waiters := s.waiters + [s.nextCh], nextCh := s.nextCh + 1)
  }

  function Unsubscribed(s: State, ch: nat): State {
    s.(waiters := Remove(s.waiters, ch))
  }

  /** The shared state and the agent after one move; critical sections wait while notify holds the mutex. */
  function Move(s: State, g: Agent, how: How): (State, Agent) {
    match (how, g)
    case (Proceed, WStart) => (s, if Active(s) then WReturned(true) else WSubscribing)
    case (Proceed, WSubscribing) => if Locked(s) then (s, g) else (Subscribed(s), WRechecking(s.nextCh))
    case (Proceed, WRechecking(ch)) => (s, if Active(s) then WCancelling(ch, WReturned(true)) else WParked(ch))
    case (Proceed, WCancelling(ch, after)) => if Locked(s) then (s, g) else (Unsubscribed(s, ch), after)
    case (Proceed, WWoken) => (s, if Active(s) then WReturned(true) else WSubscribing)
    case (Proceed, SDialled) =>
      if Locked(s) then (s, g) else (Subscribed(s), SParked(s.nextCh, Active(s) || FlipDue(s)))
    case (Proceed, SWoken(ch, armed)) => (s, if Active(s) then SParked(ch, armed) else SLeaving(ch))
    case (Proceed, SLeaving(ch)) => if Locked(s) then (s, g) else (Unsubscribed(s, ch), SGone)
    case (Receive, WParked(ch)) =>
      if ch in s.full then (s.(full := s.full - {ch}), WCancelling(ch, WWoken)) else (s, g)
    case (Receive, SParked(ch, armed)) =>
      if ch in s.full then (s.(full := s.full - {ch}), SWoken(ch, armed)) else (s, g)
    case (ContextDone, WParked(ch)) => (s, WCancelling(ch, WReturned(false)))
    case (ContextDone, SParked(ch, _)) => (s, SLeaving(ch))
    case _ => (s, g)
  }

  /** One step; an action that is not enabled changes nothing. */
  function Next(s: State, act: Action): State {
    match act
    case ProbeFails => if s.probe == Idle then s.(probeErr := true) else s
    case ProbeAnswers(role) => if s.probe == Idle then s.(probe := Answered(role)) else s
    case ProbeSteps => ProbeStep(s)
    case CallWait(a) => if a in s.agents then s else s.(agents := s.agents[a := WStart])
    // Run dials after its last look at the gate, IsActive or Wait, found it active.
    case Dial(a) => if a in s.agents || !Active(s) then s else s.(agents := s.agents[a := SDialled])
    case Acts(a, how) =>
      if a !in s.agents then s
      else
        var (t, g) := Move(s, s.agents[a], how);
        t.(agents := s.agents[a := g])
  }

  function Exec(s: State, acts: seq<Action>): State
    decreases |acts|
  {
    if acts == [] then s else Exec(Next(s, acts[0]), acts[1..])
  }

  // ---- the invariant ----

  function Channel(g: Agent): Option<nat> {
    match g
    case WRechecking(ch) => Some(ch)
    case WParked(ch) => Some(ch)
    case WCancelling(ch, _) => Some(ch)
    case SParked(ch, _) => Some(ch)
    case SWoken(ch, _) => Some(ch)
    case SLeaving(ch) => Some(ch)
    case _ => None
  }

  /** The flag agrees with the role except between the two stores, and the prober's `prev` is the last role. */
  predicate FlagInv(s: State) {
    match s.probe
    case Loaded(_, prev) => prev == s.current && (s.isMaster <==> s.current == MASTER)
    case StoredMaster(role, prev) => prev == s.current && (s.isMaster <==> role == MASTER)
    case StoredCurrent(role, _) => role == s.current && (s.isMaster <==> s.current == MASTER)
    case _ => s.isMaster <==> s.current == MASTER
  }

  /** A wake-up is under way for `ch`: the token is there, or a send on it is still due. */
  predicate WakeUp(s: State, ch: nat) {
    ch in s.full || Due(s, ch)
  }

  /** What holds of one agent: its channel is subscribed, and the wake-up it waits for is under way. */
  predicate AgentInv(s: State, g: Agent) {
    && (Channel(g).Some? ==> Channel(g).value < s.nextCh && Channel(g).value in s.waiters)
    && match g
       case WParked(ch) => Active(s) ==> !s.allowReplica && WakeUp(s, ch)
       case WCancelling(_, after) => after.WReturned? || after.WWoken?
       case SParked(ch, armed) => armed && !Active(s) ==> WakeUp(s, ch)
       case _ => true
  }

  ghost predicate OwnChannels(agents: map<nat, Agent>) {
    forall a, b | a in agents && b in agents && a != b && Channel(agents[a]).Some? ::
      Channel(agents[a]) != Channel(agents[b])
  }

  /** Channels are numbered as they are made. */
  ghost predicate Numbered(s: State) {
    && (forall c | c in s.waiters :: c < s.nextCh)
    && (forall c | c in s.full :: c < s.nextCh)
    && (s.probe.Notifying? ==> forall c | c in s.probe.left :: c < s.nextCh)
  }

  /** From `unknown` to `last`, link by link, never from a role to itself. */
  predicate Chain(transitions: seq<(string, string)>, last: string) {
    if transitions == [] then last == UNKNOWN
    else
      var t := transitions[|transitions| - 1];
      t.0 != t.1 && t.1 == last && Chain(transitions[..|transitions| - 1], t.0)
  }

  lemma ChainSnoc(transitions: seq<(string, string)>, last: string, next: string)
    requires Chain(transitions, last) && next != last
    ensures Chain(transitions + [(last, next)], next)
  {
    assert (transitions + [(last, next)])[..|transitions|] == transitions;
  }

  /** Transitions are recorded as they happen, and announced one by one. */
  predicate HistoryInv(s: State) {
    match s.probe
    case StoredCurrent(_, prev) => Chain(s.transitions, prev) && s.notified == |s.transitions|
    case Announcing => Chain(s.transitions, s.current) && s.notified + 1 == |s.transitions|
    case _ => Chain(s.transitions, s.current) && s.notified == |s.transitions|
  }

  ghost predicate Inv(s: State) {
    && FlagInv(s) && HistoryInv(s) && Numbered(s) && OwnChannels(s.agents)
    && forall a | a in s.agents :: AgentInv(s, s.agents[a])
  }

  /** What a move can change: its own channel, and nothing of the prober. */
  lemma MoveFrame(s: State, g: Agent, how: How)
    ensures var (t, g') := Move(s, g, how);
            && t == s.(waiters := t.waiters, full := t.full, nextCh := t.nextCh)
            && t.nextCh >= s.nextCh
            && (forall c | c in s.waiters && Channel(g) != Some(c) :: c in t.waiters)
            && (forall c | c in t.waiters :: c in s.waiters || (c == s.nextCh && t.nextCh == s.nextCh + 1))
            && (forall c | c in s.full && Channel(g) != Some(c) :: c in t.full)
            && t.full <= s.full
            && (AgentInv(s, g) && Channel(g') != Channel(g) && Channel(g').Some? ==> Channel(g') == Some(s.nextCh))
  {
  }

  lemma MoveKeepsProber(s: State, g: Agent, how: How)
    ensures var t := Move(s, g, how).0;
            && t.probe == s.probe && t.current == s.current && t.isMaster == s.isMaster
            && t.transitions == s.transitions && t.notified == s.notified
  {
  }

  lemma ProbeKeepsFlag(s: State)
    requires FlagInv(s)
    ensures FlagInv(ProbeStep(s))
  {
  }

  lemma ProbeKeepsHistory(s: State)
    requires FlagInv(s) && HistoryInv(s)
    ensures HistoryInv(ProbeStep(s))
  {
    hide Chain;
    if s.probe.StoredCurrent? && s.probe.prev != s.probe.role {
      ChainSnoc(s.transitions, s.probe.prev, s.probe.role);
    }
  }

  lemma FlagKept(s: State, act: Action)
    requires FlagInv(s)
    ensures FlagInv(Next(s, act))
  {
    hide Move, ProbeStep, Active;
    if act.Acts? && act.a in s.agents {
      MoveKeepsProber(s, s.agents[act.a], act.how);
    } else if act.ProbeSteps? {
      ProbeKeepsFlag(s);
    }
  }

  lemma HistoryKept(s: State, act: Action)
    requires FlagInv(s) && HistoryInv(s)
    ensures HistoryInv(Next(s, act))
  {
    hide Move, ProbeStep, Active, FlagInv, Chain;
    if act.Acts? && act.a in s.agents {
      MoveKeepsProber(s, s.agents[act.a], act.how);
    } else if act.ProbeSteps? {
      ProbeKeepsHistory(s);
    }
  }

  lemma ProbeKeepsNumbered(s: State)
    requires Numbered(s)
    ensures Numbered(ProbeStep(s))
  {
    if s.probe.Notifying? && s.probe.left != [] {
      var left := s.probe.left;
      assert left[0] in left;
      assert forall c | c in left[1..] :: c in left;
    }
  }

  lemma NumberedKept(s: State, act: Action)
    requires Numbered(s)
    ensures Numbered(Next(s, act))
  {
    hide Move, ProbeStep, Active, AgentInv, Channel;
    if act.Acts? && act.a in s.agents {
      MoveFrame(s, s.agents[act.a], act.how);
    } else if act.ProbeSteps? {
      ProbeKeepsNumbered(s);
    }
  }

  lemma ProbeKeepsAgent(s: State, g: Agent)
    requires FlagInv(s) && AgentInv(s, g)
    ensures AgentInv(ProbeStep(s), g)
  {
  }

  lemma MoveKeepsSelf(s: State, g: Agent, how: How, agents: map<nat, Agent>)
    requires FlagInv(s) && AgentInv(s, g)
    ensures var (t, g') := Move(s, g, how); AgentInv(t.(agents := agents), g')
  {
  }

  /** The move of one agent leaves an agent with another channel alone. */
  lemma MoveKeepsOther(s: State, g: Agent, how: How, other: Agent, agents: map<nat, Agent>)
    requires AgentInv(s, g) && AgentInv(s, other)
    requires Channel(other).Some? ==> Channel(other) != Channel(g)
    ensures var (t, g') := Move(s, g, how);
            AgentInv(t.(agents := agents), other) && (Channel(other).Some? ==> Channel(other) != Channel(g'))
  {
    hide Move;
    MoveFrame(s, g, how);
  }

  lemma StartKeepsAgent(s: State, act: Action, g: Agent)
    requires AgentInv(s, g) && !act.Acts? && !act.ProbeSteps?
    ensures AgentInv(Next(s, act), g)
  {
  }

  lemma Newcomer(s: State)
    ensures AgentInv(s, WStart) && Channel(WStart) == None
    ensures AgentInv(s, SDialled) && Channel(SDialled) == None
  {
  }

  lemma StepKeepsInv(s: State, act: Action)
    requires Inv(s)
    ensures Inv(Next(s, act))
  {
    hide AgentInv, FlagInv, HistoryInv, Numbered, Move, ProbeStep, Channel, Active;
    var t := Next(s, act);
    FlagKept(s, act);
    HistoryKept(s, act);
    NumberedKept(s, act);
    if act.Acts? {
      var a := act.a;
      if a in s.agents {
        var g := s.agents[a];
        MoveKeepsSelf(s, g, act.how, t.agents);
        forall b | b in s.agents && b != a
          ensures AgentInv(t, s.agents[b])
          ensures Channel(s.agents[b]).Some? ==> Channel(s.agents[b]) != Channel(t.agents[a])
        {
          MoveKeepsOther(s, g, act.how, s.agents[b], t.agents);
        }
      }
    } else {
      forall b | b in s.agents
        ensures AgentInv(t, s.agents[b])
      {
        if act.ProbeSteps? {
          ProbeKeepsAgent(s, s.agents[b]);
        } else {
          StartKeepsAgent(s, act, s.agents[b]);
        }
      }
      Newcomer(t);
      assert act.ProbeSteps? ==> t.agents == s.agents by {
        ProbeKeepsAgents(s);
      }
    }
  }

  lemma ProbeKeepsAgents(s: State)
    ensures ProbeStep(s).agents == s.agents
  {
  }

  lemma {:induction false} RunKeepsInv(s: State, acts: seq<Action>)
    requires Inv(s)
    ensures Inv(Exec(s, acts))
    decreases |acts|
  {
    if acts != [] {
      StepKeepsInv(s, acts[0]);
      RunKeepsInv(Next(s, acts[0]), acts[1..]);
    }
  }

  lemma Reachable(allowReplica: bool, acts: seq<Action>)
    ensures Inv(Exec(Init(allowReplica), acts))
  {
    RunKeepsInv(Init(allowReplica), acts);
  }

  // ---- Wait ----

  /** No lost wake-up: whenever a caller of Wait is parked while the gate is active, its token is there or the prober
      is bound to send it. */
  lemma NoLostWakeup(allowReplica: bool, acts: seq<Action>, a: nat)
    ensures var s := Exec(Init(allowReplica), acts);
            a in s.agents && s.agents[a].WParked? && Active(s) ==> WakeUp(s, s.agents[a].ch)
  {
    Reachable(allowReplica, acts);
    var s := Exec(Init(allowReplica), acts);
    assert a in s.agents ==> AgentInv(s, s.agents[a]);
  }

  lemma {:induction false} ExecAppend(s: State, xs: seq<Action>, ys: seq<Action>)
    ensures Exec(s, xs + ys) == Exec(Exec(s, xs), ys)
    decreases |xs|
  {
    if xs == [] {
      assert xs + ys == ys;
    } else {
      assert (xs + ys)[1..] == xs[1..] + ys;
      ExecAppend(Next(s, xs[0]), xs[1..], ys);
    }
  }

  function ProbeTimes(n: nat): (acts: seq<Action>)
    ensures |acts| == n
    ensures n > 0 ==> acts[0] == ProbeSteps && acts[1..] == ProbeTimes(n - 1)
  {
    if n == 0 then [] else [ProbeSteps] + ProbeTimes(n - 1)
  }

  /** A probe past its stores finishes in so many steps. */
  function Remaining(s: State): nat {
    match s.probe
    case StoredMaster(_, _) => 4 + |s.waiters|
    case StoredCurrent(_, _) => 3 + |s.waiters|
    case Announcing => 2 + |s.waiters|
    case Notifying(left) => 1 + |left|
    case _ => 0
  }

  lemma ProbeOnceMore(s: State, n: nat)
    ensures Exec(s, ProbeTimes(n + 1)) == Exec(ProbeStep(s), ProbeTimes(n))
    ensures Exec(s, ProbeTimes(0)) == s
  {
    hide ProbeStep;
  }

  lemma ExecCons(s: State, act: Action, acts: seq<Action>)
    ensures Exec(s, [act] + acts) == Exec(Next(s, act), acts)
  {
    hide Next;
    assert ([act] + acts)[1..] == acts;
  }

  lemma ProbeProgress(s: State)
    requires FlipDue(s) || Locked(s)
    ensures var t := ProbeStep(s);
            && t == s.(current := t.current, probe := t.probe, full := t.full, transitions := t.transitions,
                       notified := t.notified)
            && (if t.probe == Idle then Remaining(s) == 1
                else (FlipDue(t) || Locked(t)) && Remaining(t) == Remaining(s) - 1)
            && (forall c | c in s.waiters && WakeUp(s, c) :: WakeUp(t, c))
  {
  }

  /** The rest of a probe, run without interruption, delivers every send that is due and leaves the gate as it is. */
  lemma {:induction false} DueIsDelivered(s: State, n: nat)
    requires FlipDue(s) || Locked(s)
    requires n == Remaining(s)
    ensures var t := Exec(s, ProbeTimes(n));
            && t.probe == Idle && t.isMaster == s.isMaster && t.allowReplica == s.allowReplica
            && t.agents == s.agents && t.waiters == s.waiters
            && (forall c | c in s.waiters && WakeUp(s, c) :: c in t.full)
    decreases n
  {
    hide ProbeStep, Remaining, FlipDue, Exec, ProbeTimes;
    ProbeProgress(s);
    var t := ProbeStep(s);
    RemainingPositive(s);
    ProbeOnceMore(s, n - 1);
    if t.probe == Idle {
      ProbeOnceMore(t, 0);
      NothingDue(t);
    } else {
      DueIsDelivered(t, n - 1);
    }
  }

  lemma RemainingPositive(s: State)
    requires FlipDue(s) || Locked(s)
    ensures Remaining(s) > 0
  {
  }

  lemma NothingDue(s: State)
    requires s.probe == Idle
    ensures forall c :: WakeUp(s, c) <==> c in s.full
  {
  }

  /** A caller parked while the gate is active can always go on: once the probe in progress has finished, receiving,
      unsubscribing and looking again make Wait return. */
  lemma ParkedCallerReturns(allowReplica: bool, acts: seq<Action>, a: nat)
    requires var s := Exec(Init(allowReplica), acts); a in s.agents && s.agents[a].WParked? && Active(s)
    ensures var s := Exec(Init(allowReplica), acts);
            exists n: nat ::
              var t := Exec(s, ProbeTimes(n) + [Acts(a, Receive), Acts(a, Proceed), Acts(a, Proceed)]);
              a in t.agents && t.agents[a] == WReturned(true)
  {
    var s := Exec(Init(allowReplica), acts);
    Reachable(allowReplica, acts);
    assert AgentInv(s, s.agents[a]);
    var n := if FlipDue(s) || Locked(s) then Remaining(s) else 0;
    var t := Exec(s, ProbeTimes(n));
    if FlipDue(s) || Locked(s) {
      DueIsDelivered(s, n);
    }
    var more := [Acts(a, Receive), Acts(a, Proceed), Acts(a, Proceed)];
    WakesUp(t, a);
    ExecAppend(s, ProbeTimes(n), more);
    assert Exec(s, ProbeTimes(n) + more).agents[a] == WReturned(true);
  }

  lemma WakesUp(t: State, a: nat)
    requires a in t.agents && t.agents[a].WParked? && t.agents[a].ch in t.full && Active(t) && !Locked(t)
    ensures var u := Exec(t, [Acts(a, Receive), Acts(a, Proceed), Acts(a, Proceed)]);
            a in u.agents && u.agents[a] == WReturned(true)
  {
    var x, y, z := Acts(a, Receive), Acts(a, Proceed), Acts(a, Proceed);
    assert [x, y, z][1..] == [y, z] && [y, z][1..] == [z] && [z][1..] == [];
    var u := Next(t, x);
    assert u.agents[a] == WCancelling(t.agents[a].ch, WWoken);
    var v := Next(u, y);
    assert v.agents[a] == WWoken;
    assert Exec(t, [x, y, z]) == Exec(u, [y, z]) == Exec(v, [z]) == Exec(Next(v, z), []);
  }

  // ---- no subscription is left behind ----

  /** A caller that unsubscribes has either its answer or a token in hand. */
  predicate Sane(g: Agent) {
    g.WCancelling? ==> g.after.WReturned? || g.after.WWoken?
  }

  predicate NoDuplicates(waiters: seq<nat>) {
    forall i, j | 0 <= i < j < |waiters| :: waiters[i] != waiters[j]
  }

  /** Every subscribed channel has an owner who is not done with it. */
  ghost predicate Owned(s: State) {
    && NoDuplicates(s.waiters)
    && (forall c | c in s.waiters :: exists a :: a in s.agents && Channel(s.agents[a]) == Some(c))
    && (forall a | a in s.agents :: Sane(s.agents[a]))
  }

  lemma {:induction false} RemoveDistinct(waiters: seq<nat>, ch: nat)
    requires NoDuplicates(waiters)
    ensures NoDuplicates(Remove(waiters, ch)) && ch !in Remove(waiters, ch)
    decreases |waiters|
  {
    if waiters != [] {
      var rest := waiters[1..];
      assert forall i | 0 <= i < |rest| :: rest[i] == waiters[i + 1];
      assert waiters[0] !in rest;
      RemoveDistinct(rest, ch);
    }
  }

  lemma MoveKeepsOwned(s: State, g: Agent, how: How)
    requires Sane(g) && NoDuplicates(s.waiters) && Numbered(s)
    ensures var (t, g') := Move(s, g, how);
            && Sane(g') && NoDuplicates(t.waiters)
            && forall c | c in t.waiters :: Channel(g') == Some(c) || (c in s.waiters && Channel(g) != Some(c))
  {
    if Channel(g).Some? {
      RemoveDistinct(s.waiters, Channel(g).value);
    }
    assert s.nextCh !in s.waiters;
  }

  lemma StepKeepsOwned(s: State, act: Action)
    requires Owned(s) && Numbered(s)
    ensures Owned(Next(s, act))
  {
    hide Move, ProbeStep, Channel, Sane, Numbered, NoDuplicates;
    var t := Next(s, act);
    if act.Acts? && act.a in s.agents {
      var g := s.agents[act.a];
      MoveKeepsOwned(s, g, act.how);
      forall c | c in t.waiters
        ensures exists a :: a in t.agents && Channel(t.agents[a]) == Some(c)
      {
        if Channel(t.agents[act.a]) != Some(c) {
          var a :| a in s.agents && Channel(s.agents[a]) == Some(c);
          assert a in t.agents && t.agents[a] == s.agents[a];
        }
      }
    } else {
      NewcomerSane();
      ProbeKeepsWaiters(s);
      forall c | c in t.waiters
        ensures exists a :: a in t.agents && Channel(t.agents[a]) == Some(c)
      {
        var a :| a in s.agents && Channel(s.agents[a]) == Some(c);
        assert a in t.agents && t.agents[a] == s.agents[a];
      }
    }
  }

  lemma NewcomerSane()
    ensures Sane(WStart) && Sane(SDialled)
  {
  }

  lemma ProbeKeepsWaiters(s: State)
    ensures ProbeStep(s).agents == s.agents && ProbeStep(s).waiters == s.waiters
  {
  }

  lemma {:induction false} RunKeepsOwned(s: State, acts: seq<Action>)
    requires Owned(s) && Numbered(s)
    ensures Owned(Exec(s, acts))
    decreases |acts|
  {
    hide Next, Owned, Numbered;
    if acts == [] {
      ExecNothing(s);
    } else {
      StepKeepsOwned(s, acts[0]);
      NumberedKept(s, acts[0]);
      RunKeepsOwned(Next(s, acts[0]), acts[1..]);
    }
  }

  /** At every reachable state each subscribed channel is listed once and belongs to a caller or session that still uses
      it: whoever has returned or gone has unsubscribed. */
  lemma NoSubscriptionLeaks(allowReplica: bool, acts: seq<Action>)
    ensures var s := Exec(Init(allowReplica), acts);
            && NoDuplicates(s.waiters)
            && forall c | c in s.waiters ::
                 exists a :: a in s.agents && Channel(s.agents[a]) == Some(c)
                             && !s.agents[a].WReturned? && !s.agents[a].SGone?
  {
    RunKeepsOwned(Init(allowReplica), acts);
    var s := Exec(Init(allowReplica), acts);
    forall c | c in s.waiters
      ensures exists a :: a in s.agents && Channel(s.agents[a]) == Some(c)
                          && !s.agents[a].WReturned? && !s.agents[a].SGone?
    {
      var a :| a in s.agents && Channel(s.agents[a]) == Some(c);
    }
  }

  /** A token is received once. */
  lemma TokenIsTaken(s: State, a: nat)
    requires a in s.agents && (s.agents[a].WParked? || s.agents[a].SParked?) && s.agents[a].ch in s.full
    ensures var t := Next(s, Acts(a, Receive)); s.agents[a].ch !in t.full && t.full + {s.agents[a].ch} == s.full
    ensures Next(s, Acts(a, Receive)).agents[a] != s.agents[a]
  {
  }

  // ---- what Wait answers ----

  /** The answer of a caller of Wait, from the moment it is settled. */
  function Answer(g: Agent): Option<bool> {
    match g
    case WReturned(ok) => Some(ok)
    case WCancelling(_, WReturned(ok)) => Some(ok)
    case _ => None
  }

  predicate IsSession(g: Agent) {
    g.SDialled? || g.SParked? || g.SWoken? || g.SLeaving? || g.SGone?
  }

  predicate Leaves(g: Agent) {
    g.SLeaving? || g.SGone?
  }

  /** The gate is active, or inactive, at some state of the run. */
  predicate EverActive(s: State, acts: seq<Action>)
    decreases |acts|
  {
    Active(s) || (acts != [] && EverActive(Next(s, acts[0]), acts[1..]))
  }

  predicate EverInactive(s: State, acts: seq<Action>)
    decreases |acts|
  {
    !Active(s) || (acts != [] && EverInactive(Next(s, acts[0]), acts[1..]))
  }

  lemma MoveAnswers(s: State, g: Agent, how: How)
    requires Sane(g)
    ensures var g' := Move(s, g, how).1;
            && Sane(g')
            && (Answer(g).Some? ==> Answer(g') == Answer(g))
            && (Answer(g) == None && Answer(g') == Some(true) ==> Active(s))
            && (Answer(g) == None && Answer(g') == Some(false) ==> how == ContextDone && g.WParked?)
            && (IsSession(g') <==> IsSession(g))
            && (Leaves(g') && !Leaves(g) ==> how == ContextDone || !Active(s))
  {
  }

  /** Step by step: Wait answers nil only while the gate is active, and an error only when its context ends; nobody
      dials unless the gate is active; a session leaves only for an inactive gate or the end of its context. */
  lemma StepAnswers(s: State, act: Action, a: nat)
    requires a in Next(s, act).agents && (a in s.agents ==> Sane(s.agents[a]))
    ensures var g' := Next(s, act).agents[a];
            && Sane(g')
            && (a !in s.agents ==> Answer(g') == None && !Leaves(g') && (IsSession(g') ==> Active(s)))
            && (a in s.agents ==>
                  var g := s.agents[a];
                  && (Answer(g).Some? ==> Answer(g') == Answer(g))
                  && (Answer(g) == None && Answer(g') == Some(true) ==> Active(s))
                  && (Answer(g) == None && Answer(g') == Some(false) ==> act == Acts(a, ContextDone))
                  && (IsSession(g') <==> IsSession(g))
                  && (Leaves(g') && !Leaves(g) ==> act == Acts(a, ContextDone) || !Active(s)))
  {
    hide Move, ProbeStep, Answer;
    NothingSettled();
    if act.Acts? && act.a == a && a in s.agents {
      MoveAnswers(s, s.agents[a], act.how);
    } else if act.ProbeSteps? {
      ProbeKeepsAgents(s);
    }
  }

  lemma NothingSettled()
    ensures Answer(WStart) == None && Answer(SDialled) == None
  {
  }

  lemma {:induction false} RunAnswers(s: State, acts: seq<Action>, a: nat)
    requires a in s.agents ==> Sane(s.agents[a]) && Answer(s.agents[a]) == None && !IsSession(s.agents[a])
    ensures var t := Exec(s, acts);
            a in t.agents ==>
              && (Answer(t.agents[a]) == Some(true) || IsSession(t.agents[a]) ==> EverActive(s, acts))
              && (Answer(t.agents[a]) == Some(false) ==> Acts(a, ContextDone) in acts)
    decreases |acts|
  {
    hide Next, Answer, IsSession, Active, Leaves, Sane;
    if acts == [] {
      ExecNothing(s);
    } else {
      var t := Next(s, acts[0]);
      if a in t.agents {
        StepAnswers(s, acts[0], a);
        SettledStays(t, acts[1..], a);
        if Answer(t.agents[a]) == None && !IsSession(t.agents[a]) {
          RunAnswers(t, acts[1..], a);
        }
      } else {
        RunAnswers(t, acts[1..], a);
      }
    }
  }

  lemma {:induction false} SettledStays(s: State, acts: seq<Action>, a: nat)
    requires a in s.agents && Sane(s.agents[a])
    ensures var t := Exec(s, acts);
            && a in t.agents
            && (Answer(s.agents[a]).Some? ==> Answer(t.agents[a]) == Answer(s.agents[a]))
            && (IsSession(t.agents[a]) <==> IsSession(s.agents[a]))
            && (IsSession(s.agents[a]) ==> Answer(t.agents[a]) == None)
    decreases |acts|
  {
    hide Next, IsSession, Answer, Active, Sane;
    SessionsAnswerNothing(s.agents[a]);
    if acts == [] {
      ExecNothing(s);
    } else {
      AgentsStay(s, acts[0], a);
      StepAnswers(s, acts[0], a);
      SettledStays(Next(s, acts[0]), acts[1..], a);
    }
  }

  lemma SessionsAnswerNothing(g: Agent)
    ensures IsSession(g) ==> Answer(g) == None && Sane(g)
  {
  }

  lemma AgentsStay(s: State, act: Action, a: nat)
    requires a in s.agents
    ensures a in Next(s, act).agents
  {
    hide Move, ProbeStep;
    ProbeKeepsAgents(s);
  }

  /** Over every run: as long as the gate has not been active, no caller of Wait has been answered nil and no session
      has been dialled; and no caller has been answered an error unless its context ended. */
  lemma NothingWithoutTheGate(allowReplica: bool, acts: seq<Action>, a: nat)
    ensures var s := Exec(Init(allowReplica), acts);
            a in s.agents ==>
              && (s.agents[a] == WReturned(true) || IsSession(s.agents[a]) ==> EverActive(Init(allowReplica), acts))
              && (s.agents[a] == WReturned(false) ==> Acts(a, ContextDone) in acts)
  {
    RunAnswers(Init(allowReplica), acts, a);
  }

  /** A session that is up leaves over no run in which the gate stays active and its context does not end. */
  lemma {:induction false} SessionStaysUp(s: State, acts: seq<Action>, a: nat)
    requires a in s.agents && IsSession(s.agents[a]) && !Leaves(s.agents[a])
    requires !EverInactive(s, acts) && Acts(a, ContextDone) !in acts
    ensures var t := Exec(s, acts); a in t.agents && IsSession(t.agents[a]) && !Leaves(t.agents[a])
    decreases |acts|
  {
    hide Next, IsSession, Leaves, Active, Answer, Sane;
    SessionsAnswerNothing(s.agents[a]);
    if acts == [] {
      ExecNothing(s);
    } else {
      AgentsStay(s, acts[0], a);
      StepAnswers(s, acts[0], a);
      SessionStaysUp(Next(s, acts[0]), acts[1..], a);
    }
  }

  function ByAgent(a: nat, hows: seq<How>): seq<Action> {
    if hows == [] then [] else [Acts(a, hows[0])] + ByAgent(a, hows[1..])
  }

  /** How many steps of its own a caller is away from returning. */
  function Away(g: Agent): nat {
    match g
    case WSubscribing => 3
    case WParked(_) => 3
    case WRechecking(_) => 2
    case WCancelling(_, after) => if after.WReturned? then 1 else 2
    case WReturned(_) => 0
    case _ => 1
  }

  predicate CanReturn(s: State, a: nat) {
    && Active(s) && !Locked(s) && a in s.agents && !IsSession(s.agents[a]) && Answer(s.agents[a]) != Some(false)
    && match s.agents[a]
       case WParked(ch) => ch in s.full
       case g => Sane(g)
  }

  lemma OneStepHome(s: State, a: nat)
    requires CanReturn(s, a) && !s.agents[a].WReturned?
    ensures var t := Next(s, Acts(a, if s.agents[a].WParked? then Receive else Proceed));
            CanReturn(t, a) && Away(t.agents[a]) == Away(s.agents[a]) - 1
  {
  }

  lemma {:induction false} StepsHome(s: State, a: nat) returns (hows: seq<How>)
    requires CanReturn(s, a)
    ensures |hows| == Away(s.agents[a])
    ensures var t := Exec(s, ByAgent(a, hows)); a in t.agents && t.agents[a] == WReturned(true)
    decreases Away(s.agents[a])
  {
    hows := [];
    if s.agents[a].WReturned? {
      ExecNothing(s);
    } else {
      OneStepHome(s, a);
      hide Next, Away, CanReturn;
      var how := if s.agents[a].WParked? then Receive else Proceed;
      var more := StepsHome(Next(s, Acts(a, how)), a);
      hows := [how] + more;
      assert hows[1..] == more;
      ExecCons(s, Acts(a, how), ByAgent(a, more));
    }
  }

  /** From every reachable state with an active gate, every caller that its context has not made give up can return nil:
      the probe in progress finishes its announcement, and at most three steps of the caller follow. */
  lemma CallerReturns(allowReplica: bool, acts: seq<Action>, a: nat)
    requires var s := Exec(Init(allowReplica), acts);
             Active(s) && a in s.agents && !IsSession(s.agents[a]) && Answer(s.agents[a]) != Some(false)
    ensures var s := Exec(Init(allowReplica), acts);
            exists n: nat, hows: seq<How> ::
              && |hows| <= 3
              && var t := Exec(s, ProbeTimes(n) + ByAgent(a, hows));
                 a in t.agents && t.agents[a] == WReturned(true)
  {
    hide FlipDue, Remaining, ProbeTimes, Exec, ByAgent;
    var s := Exec(Init(allowReplica), acts);
    Reachable(allowReplica, acts);
    assert AgentInv(s, s.agents[a]);
    var n := if FlipDue(s) || Locked(s) then Remaining(s) else 0;
    var t := Exec(s, ProbeTimes(n));
    if FlipDue(s) || Locked(s) {
      DueIsDelivered(s, n);
    } else {
      ProbeOnceMore(s, 0);
    }
    var hows := StepsHome(t, a);
    ExecAppend(s, ProbeTimes(n), ByAgent(a, hows));
    assert Exec(s, ProbeTimes(n) + ByAgent(a, hows)).agents[a] == WReturned(true);
  }

  /** And a parked caller whose context ends returns its error. */
  lemma CancelledCallerReturns(s: State, a: nat)
    requires a in s.agents && s.agents[a].WParked? && !Locked(s)
    ensures var t := Exec(s, [Acts(a, ContextDone), Acts(a, Proceed)]);
            a in t.agents && t.agents[a] == WReturned(false)
  {
    var x, y := Acts(a, ContextDone), Acts(a, Proceed);
    assert [x, y][1..] == [y] && [y][1..] == [];
    var u := Next(s, x);
    assert u.agents[a] == WCancelling(s.agents[a].ch, WReturned(false));
    assert Exec(s, [x, y]) == Exec(u, [y]) == Exec(Next(u, y), []);
  }

  /** After every completed probe the flag agrees with the role, the recorded transitions lead from `unknown` to it,
      and each was announced once. */
  lemma RoleHistory(allowReplica: bool, acts: seq<Action>)
    ensures var s := Exec(Init(allowReplica), acts);
            s.probe == Idle ==>
              && (s.isMaster <==> s.current == MASTER)
              && Chain(s.transitions, s.current)
              && s.notified == |s.transitions|
  {
    Reachable(allowReplica, acts);
  }

  function Members(left: seq<nat>): set<nat> {
    set c | c in left
  }

  lemma MembersCons(left: seq<nat>)
    requires left != []
    ensures Members(left) == {left[0]} + Members(left[1..])
  {
    assert left == [left[0]] + left[1..];
  }

  lemma {:induction false} NotifyAll(s: State, left: seq<nat>)
    requires s.probe == Notifying(left)
    ensures Exec(s, ProbeTimes(|left| + 1)) == s.(probe := Idle, full := s.full + Members(left))
    decreases |left|
  {
    hide Exec, ProbeTimes, Members;
    ProbeOnceMore(s, |left|);
    if left == [] {
      ProbeOnceMore(ProbeStep(s), 0);
      assert Members([]) == {} by {
        NoMembers();
      }
      assert s.full + {} == s.full;
    } else {
      var t := s.(full := s.full + {left[0]}, probe := Notifying(left[1..]));
      assert ProbeStep(s) == t;
      NotifyAll(t, left[1..]);
      MembersCons(left);
      assert s.full + {left[0]} + Members(left[1..]) == s.full + Members(left);
    }
  }

  lemma NoMembers()
    ensures Members([]) == {}
  {
  }

  /** The prober up to and including its stores. */
  lemma ProbeStores(s: State, role: string, n: nat)
    requires s.probe == Idle
    ensures Exec(s, [ProbeAnswers(role)] + ProbeTimes(n + 3)) ==
            Exec(s.(probeErr := false, isMaster := role == MASTER, current := role,
                    probe := StoredCurrent(role, s.current)), ProbeTimes(n))
  {
    hide Exec, ProbeTimes;
    var s1 := s.(probe := Answered(role));
    var s2 := s.(probeErr := false, probe := Loaded(role, s.current));
    var s3 := s2.(isMaster := role == MASTER, probe := StoredMaster(role, s.current));
    var s4 := s3.(current := role, probe := StoredCurrent(role, s.current));
    assert Next(s, ProbeAnswers(role)) == s1;
    assert ProbeStep(s1) == s2 && ProbeStep(s2) == s3 && ProbeStep(s3) == s4;
    ThreeProbeSteps(s1, n);
    ExecCons(s, ProbeAnswers(role), ProbeTimes(n + 3));
  }

  lemma ThreeProbeSteps(s: State, n: nat)
    ensures Exec(s, ProbeTimes(n + 3)) == Exec(ProbeStep(ProbeStep(ProbeStep(s))), ProbeTimes(n))
  {
    hide Exec, ProbeTimes, ProbeStep;
    ProbeOnceMore(s, n + 2);
    ProbeOnceMore(ProbeStep(s), n + 1);
    ProbeOnceMore(ProbeStep(ProbeStep(s)), n);
  }

  /** All the steps of one probe; None is a failed query. */
  function ProbeRun(s: State, answer: Option<string>): seq<Action> {
    match answer
    case None => [ProbeFails]
    case Some(role) => [ProbeAnswers(role)] + ProbeTimes(if s.current == role then 4 else 6 + |s.waiters|)
  }

  /** What a probe amounts to: an error that changes nothing else, or flag and role together and, if the role is
      another one, the transition and a token in every subscribed channel. */
  function ProbeResult(s: State, answer: Option<string>): State {
    match answer
    case None => s.(probeErr := true)
    case Some(role) =>
      if s.current == role then s.(probeErr := false, isMaster := role == MASTER)
      else s.(probeErr := false, isMaster := role == MASTER, current := role,
              transitions := s.transitions + [(s.current, role)], notified := s.notified + 1,
              full := s.full + Members(s.waiters))
  }

  // After the stores: nothing more if the role is the one it was, and the announcement otherwise.
  lemma NoFlip(s: State)
    requires s.probe == StoredCurrent(s.current, s.current)
    ensures Exec(s, ProbeTimes(1)) == s.(probe := Idle)
  {
    hide Exec, ProbeTimes;
    ProbeOnceMore(s, 0);
    ProbeOnceMore(s.(probe := Idle), 0);
  }

  lemma Flip(s: State, prev: string)
    requires s.probe == StoredCurrent(s.current, prev) && prev != s.current
    ensures Exec(s, ProbeTimes(3 + |s.waiters|)) ==
            s.(probe := Idle, transitions := s.transitions + [(prev, s.current)], notified := s.notified + 1,
               full := s.full + Members(s.waiters))
  {
    hide Exec, ProbeTimes, Members;
    var n := |s.waiters|;
    var t := s.(transitions := s.transitions + [(prev, s.current)], probe := Announcing);
    ProbeOnceMore(s, n + 2);
    ProbeOnceMore(t, n + 1);
    NotifyAll(t.(notified := s.notified + 1, probe := Notifying(s.waiters)), s.waiters);
  }

  /** A whole probe, run without interruption. Role.Checker.ProbeOnce does this in one call. */
  lemma WholeProbe(s: State, answer: Option<string>)
    requires s.probe == Idle
    ensures Exec(s, ProbeRun(s, answer)) == ProbeResult(s, answer)
  {
    hide Exec, ProbeTimes, Members;
    match answer
    case None =>
      ExecCons(s, ProbeFails, []);
      ExecNothing(Next(s, ProbeFails));
      assert [ProbeFails] + [] == [ProbeFails];
    case Some(role) =>
      var t := s.(probeErr := false, isMaster := role == MASTER, current := role,
                  probe := StoredCurrent(role, s.current));
      if s.current == role {
        ProbeStores(s, role, 1);
        NoFlip(t);
      } else {
        ProbeStores(s, role, 3 + |s.waiters|);
        Flip(t, s.current);
      }
  }

  lemma ExecNothing(s: State)
    ensures Exec(s, []) == s
  {
  }

  // ---- MONITOR sessions ----

  /** The session keeps its connection although the upstream is not the primary, and nothing is on its way that would
      make its watcher look. */
  predicate Stale(s: State, a: nat) {
    && a in s.agents && s.agents[a].SParked?
    && !Active(s) && !WakeUp(s, s.agents[a].ch)
  }

  predicate StaysArmed(g: Agent) {
    match g
    case SParked(_, armed) => armed
    case SWoken(_, armed) => armed
    case SLeaving(_) => true
    case SGone => true
    case _ => false
  }

  lemma {:induction false} ArmedIsNeverStale(s: State, acts: seq<Action>, a: nat)
    requires Inv(s) && a in s.agents && StaysArmed(s.agents[a])
    ensures !Stale(Exec(s, acts), a)
    decreases |acts|
  {
    hide FlagInv, HistoryInv, Numbered, WakeUp;
    if acts == [] {
      assert AgentInv(s, s.agents[a]);
    } else {
      StepKeepsInv(s, acts[0]);
      StepKeepsArmed(s, acts[0], a);
      ArmedIsNeverStale(Next(s, acts[0]), acts[1..], a);
    }
  }

  lemma StepKeepsArmed(s: State, act: Action, a: nat)
    requires a in s.agents && StaysArmed(s.agents[a])
    ensures a in Next(s, act).agents && StaysArmed(Next(s, act).agents[a])
  {
    if act.ProbeSteps? {
      ProbeKeepsAgents(s);
    } else if act.Acts? && act.a == a {
      MoveKeepsArmed(s, s.agents[a], act.how);
    }
  }

  lemma MoveKeepsArmed(s: State, g: Agent, how: How)
    requires StaysArmed(g)
    ensures StaysArmed(Move(s, g, how).1)
  {
  }

  /** A session that subscribes at a reachable state is torn down in time, on every continuation, exactly when the gate
      was active at that moment or a flip was still to be announced: runOnce does not look again after Subscribe. */
  lemma TeardownExactly(allowReplica: bool, acts: seq<Action>, a: nat)
    requires var s := Exec(Init(allowReplica), acts); a in s.agents && s.agents[a] == SDialled && !Locked(s)
    ensures var s := Exec(Init(allowReplica), acts);
            (forall more :: !Stale(Exec(Next(s, Acts(a, Proceed)), more), a)) <==> Active(s) || FlipDue(s)
  {
    var s := Exec(Init(allowReplica), acts);
    var t := Next(s, Acts(a, Proceed));
    Reachable(allowReplica, acts);
    StepKeepsInv(s, Acts(a, Proceed));
    assert t.agents[a] == SParked(s.nextCh, Active(s) || FlipDue(s));
    if Active(s) || FlipDue(s) {
      forall more
        ensures !Stale(Exec(t, more), a)
      {
        ArmedIsNeverStale(t, more, a);
      }
    } else {
      assert !WakeUp(t, s.nextCh);
      var more: seq<Action> := [];
      assert Exec(t, more) == t && Stale(Exec(t, more), a);
    }
  }

  /** A run that ends there: Run finds the gate active and dials, the role flips and is announced to nobody, and only
      then does the session subscribe. */
  lemma FlipDuringDialIsMissed()
    ensures exists acts :: Stale(Exec(Init(false), acts), 0)
  {
    hide Exec, ProbeTimes, ProbeRun, Members;
    var s0 := Init(false);
    NoMembers();
    var rise := ProbeRun(s0, Some(MASTER));
    WholeProbe(s0, Some(MASTER));
    var s1 := Exec(s0, rise);
    var s2 := Next(s1, Dial(0));
    var fall := ProbeRun(s2, Some("replica"));
    WholeProbe(s2, Some("replica"));
    var s3 := Exec(s2, fall);
    var s4 := Next(s3, Acts(0, Proceed));
    assert Stale(s4, 0);
    var rest := fall + ([Acts(0, Proceed)] + []);
    ExecAppend(s0, rise, [Dial(0)] + rest);
    ExecCons(s1, Dial(0), rest);
    ExecAppend(s2, fall, [Acts(0, Proceed)] + []);
    ExecCons(s3, Acts(0, Proceed), []);
    ExecNothing(s4);
  }

  /** Every probe, finished or not, has answered `role`. */
  predicate Calm(s: State, role: string) {
    s.current == role &&
    match s.probe
    case Idle => true
    case Answered(r) => r == role
    case Loaded(r, prev) => r == role == prev
    case StoredMaster(r, prev) => r == role == prev
    case StoredCurrent(r, prev) => r == role == prev
    case _ => false
  }

  lemma StepKeepsStale(s: State, act: Action, a: nat, role: string)
    requires FlagInv(s) && Stale(s, a) && Calm(s, role)
    requires act.ProbeAnswers? ==> act.role == role
    requires act != Acts(a, ContextDone)
    ensures Stale(Next(s, act), a) && Calm(Next(s, act), role)
  {
    if act.Acts? && act.a in s.agents && act.a != a {
      hide Move, AgentInv;
      MoveFrame(s, s.agents[act.a], act.how);
    }
  }

  /** A stale session stays on the replica until a probe answers another role or its context ends. */
  lemma {:induction false} StaleUntilTheNextFlip(s: State, acts: seq<Action>, a: nat)
    requires FlagInv(s) && Stale(s, a) && Calm(s, s.current)
    requires forall i | 0 <= i < |acts| ::
               acts[i] != Acts(a, ContextDone) && (acts[i].ProbeAnswers? ==> acts[i].role == s.current)
    ensures Stale(Exec(s, acts), a)
    decreases |acts|
  {
    hide FlagInv, Stale, Next;
    if acts == [] {
      ExecNothing(s);
    } else {
      FlagKept(s, acts[0]);
      StepKeepsStale(s, acts[0], a, s.current);
      StaleUntilTheNextFlip(Next(s, acts[0]), acts[1..], a);
    }
  }
}
