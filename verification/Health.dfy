/** The health bookkeeping between the components and the registry (internal/output/output.go, writeOne;
    internal/metrics/metrics.go, healthMu): what is reported at the edges of a failure, and when the registry's
    readiness snapshot can be trusted. */
module Health {

  /** One output's flag, the SetOutputFailing calls it has made, and its Sentry write reports. */
  datatype Health = Health(failing: bool, calls: seq<bool>, reports: nat)

  /** The effect of one write attempt. */
  function Observe(h: Health, ok: bool): Health {
    if !ok && !h.failing then Health(true, h.calls + [true], h.reports + 1)
    else if ok && h.failing then h.(failing := false, calls := h.calls + [false])
    else h
  }

  function HealthOf(oks: seq<bool>): Health {
    if oks == [] then Health(false, [], 0)
    else Observe(HealthOf(oks[..|oks| - 1]), oks[|oks| - 1])
  }

  lemma HealthSnoc(oks: seq<bool>, ok: bool)
    ensures HealthOf(oks + [ok]) == Observe(HealthOf(oks), ok)
  {
    assert (oks + [ok])[..|oks|] == oks;
  }

  predicate StartsBlock(oks: seq<bool>, i: nat)
    requires i < |oks|
  {
    !oks[i] && (i == 0 || oks[i - 1])
  }

  /** The number of maximal runs of consecutive failures: each has exactly one first failure. */
  function Blocks(oks: seq<bool>): nat {
    if oks == [] then 0
    else Blocks(oks[..|oks| - 1]) + (if StartsBlock(oks, |oks| - 1) then 1 else 0)
  }

  /** The flag says whether the last attempt failed; the calls alternate, starting with true; there is one report per
      block of failures. */
  lemma {:induction false} FailureEdges(oks: seq<bool>)
    ensures var h := HealthOf(oks);
            && (h.failing <==> oks != [] && !oks[|oks| - 1])
            && (forall i | 0 <= i < |h.calls| :: h.calls[i] <==> i % 2 == 0)
            && (h.failing <==> |h.calls| % 2 == 1)
            && h.reports == Blocks(oks) == (|h.calls| + 1) / 2
    decreases |oks|
  {
    if oks != [] {
      FailureEdges(oks[..|oks| - 1]);
    }
  }

  // ---- the registry ----

  /** What the readiness endpoint is told. */
  datatype Readiness = Readiness(monitorConnected: bool, roleKnown: bool, failingOutputs: set<string>,
                                 failingAlertChannels: set<string>)

  const Unready := Readiness(false, false, {}, {})

  predicate Known(role: string) {
    role != "" && role != "unknown"
  }

  function Marked(names: set<string>, name: string, failing: bool): set<string> {
    if failing then names + {name} else names - {name}
  }

  // What each component tells the registry. An output reports at an edge only, a channel after every dispatch.

  function OnSession(r: Readiness, up: bool): Readiness {
    r.(monitorConnected := up)
  }

  function OnProbe(r: Readiness, role: string): Readiness {
    r.(roleKnown := Known(role))
  }

  function OnWrite(r: Readiness, name: string, wasFailing: bool, ok: bool): Readiness {
    if wasFailing == !ok then r else r.(failingOutputs := Marked(r.failingOutputs, name, !ok))
  }

  function OnDispatch(r: Readiness, name: string, ok: bool): Readiness {
    r.(failingAlertChannels := Marked(r.failingAlertChannels, name, !ok))
  }

  /** One thing that happens in the program: a session opens or ends, a probe succeeds, output `i` makes a write
      attempt, channel `i` finishes a dispatch. */
  datatype Signal = Session(up: bool) | Probed(role: string) | Wrote(i: nat, ok: bool) | Alerted(i: nat, ok: bool)

  /** Each output's flag, and the registry that all components share. */
  datatype Board = Board(failing: seq<bool>, registry: Readiness)

  function BoardStep(outputs: seq<string>, channels: seq<string>, b: Board, e: Signal): Board
    requires |b.failing| == |outputs|
  {
    match e
    case Session(up) => b.(registry := OnSession(b.registry, up))
    case Probed(role) => b.(registry := OnProbe(b.registry, role))
    case Wrote(i, ok) =>
      if i >= |outputs| then b
      else Board(b.failing[i := !ok], OnWrite(b.registry, outputs[i], b.failing[i], ok))
    case Alerted(i, ok) =>
      if i >= |channels| then b else b.(registry := OnDispatch(b.registry, channels[i], ok))
  }

  function Quiet(n: nat): seq<bool> {
    seq(n, i => false)
  }

  function BoardAfter(outputs: seq<string>, channels: seq<string>, run: seq<Signal>): (b: Board)
    ensures |b.failing| == |outputs|
  {
    if run == [] then Board(Quiet(|outputs|), Unready)
    else BoardStep(outputs, channels, BoardAfter(outputs, channels, run[..|run| - 1]), run[|run| - 1])
  }

  // ---- what is really so, read off the run ----

  predicate InSession(run: seq<Signal>) {
    run != [] && (if run[|run| - 1].Session? then run[|run| - 1].up else InSession(run[..|run| - 1]))
  }

  predicate RoleIsKnown(run: seq<Signal>) {
    run != [] && (if run[|run| - 1].Probed? then Known(run[|run| - 1].role) else RoleIsKnown(run[..|run| - 1]))
  }

  predicate LastWriteFailed(run: seq<Signal>, i: nat) {
    run != [] && (match run[|run| - 1]
                  case Wrote(j, ok) => if j == i then !ok else LastWriteFailed(run[..|run| - 1], i)
                  case _ => LastWriteFailed(run[..|run| - 1], i))
  }

  predicate LastDispatchFailed(run: seq<Signal>, i: nat) {
    run != [] && (match run[|run| - 1]
                  case Alerted(j, ok) => if j == i then !ok else LastDispatchFailed(run[..|run| - 1], i)
                  case _ => LastDispatchFailed(run[..|run| - 1], i))
  }

  function FailingOutputs(outputs: seq<string>, run: seq<Signal>): set<string> {
    set i | 0 <= i < |outputs| && LastWriteFailed(run, i) :: outputs[i]
  }

  function FailingChannels(channels: seq<string>, run: seq<Signal>): set<string> {
    set i | 0 <= i < |channels| && LastDispatchFailed(run, i) :: channels[i]
  }

  function Truth(outputs: seq<string>, channels: seq<string>, run: seq<Signal>): Readiness {
    Readiness(InSession(run), RoleIsKnown(run), FailingOutputs(outputs, run), FailingChannels(channels, run))
  }

  predicate Distinct(names: seq<string>) {
    forall i, j | 0 <= i < j < |names| :: names[i] != names[j]
  }

  // ---- the snapshot against the truth ----

  /** Session and role are right after every run. */
  lemma {:induction false} SessionAndRoleTold(outputs: seq<string>, channels: seq<string>, run: seq<Signal>)
    ensures var r := BoardAfter(outputs, channels, run).registry;
            r.monitorConnected == InSession(run) && r.roleKnown == RoleIsKnown(run)
    decreases |run|
  {
    if run != [] {
      SessionAndRoleTold(outputs, channels, run[..|run| - 1]);
    }
  }

  /** An output's flag says how its last attempt ended, whatever the names. */
  lemma {:induction false} FlagsTold(outputs: seq<string>, channels: seq<string>, run: seq<Signal>, i: nat)
    requires i < |outputs|
    ensures BoardAfter(outputs, channels, run).failing[i] == LastWriteFailed(run, i)
    decreases |run|
  {
    if run != [] {
      FlagsTold(outputs, channels, run[..|run| - 1], i);
    }
  }

  lemma {:induction false} OutputsTold(outputs: seq<string>, channels: seq<string>, run: seq<Signal>)
    requires Distinct(outputs)
    ensures BoardAfter(outputs, channels, run).registry.failingOutputs == FailingOutputs(outputs, run)
    decreases |run|
  {
    if run != [] {
      var early, e := run[..|run| - 1], run[|run| - 1];
      OutputsTold(outputs, channels, early);
      if e.Wrote? && e.i < |outputs| {
        FlagsTold(outputs, channels, early, e.i);
        var before, after := FailingOutputs(outputs, early), FailingOutputs(outputs, run);
        assert forall k | 0 <= k < |outputs| && k != e.i :: LastWriteFailed(run, k) == LastWriteFailed(early, k);
        assert after == Marked(before, outputs[e.i], !e.ok);
      }
    }
  }

  lemma {:induction false} ChannelsTold(outputs: seq<string>, channels: seq<string>, run: seq<Signal>)
    requires Distinct(channels)
    ensures BoardAfter(outputs, channels, run).registry.failingAlertChannels == FailingChannels(channels, run)
    decreases |run|
  {
    if run != [] {
      var early, e := run[..|run| - 1], run[|run| - 1];
      ChannelsTold(outputs, channels, early);
      if e.Alerted? && e.i < |channels| {
        var before, after := FailingChannels(channels, early), FailingChannels(channels, run);
        assert forall k | 0 <= k < |channels| && k != e.i ::
            LastDispatchFailed(run, k) == LastDispatchFailed(early, k);
        assert after == Marked(before, channels[e.i], !e.ok);
      }
    }
  }

  lemma BoardSnoc(outputs: seq<string>, channels: seq<string>, early: seq<Signal>, e: Signal)
    ensures BoardAfter(outputs, channels, early + [e]) ==
            BoardStep(outputs, channels, BoardAfter(outputs, channels, early), e)
  {
    assert (early + [e])[..|early|] == early;
  }

  /** Two outputs of one name: both fail, one recovers, and the registry forgets the other. */
  lemma {:induction false} SharedNameForgets(outputs: seq<string>, channels: seq<string>, i: nat, j: nat)
    requires i < j < |outputs| && outputs[i] == outputs[j]
    ensures var run := [Wrote(i, false), Wrote(j, false), Wrote(i, true)];
            && LastWriteFailed(run, j)
            && outputs[j] !in BoardAfter(outputs, channels, run).registry.failingOutputs
  {
    var a, b, c := Wrote(i, false), Wrote(j, false), Wrote(i, true);
    BoardSnoc(outputs, channels, [], a);
    BoardSnoc(outputs, channels, [a], b);
    BoardSnoc(outputs, channels, [a, b], c);
    assert [a, b, c][..2] == [a, b] && [a] + [b] == [a, b] && [a, b] + [c] == [a, b, c] && [] + [a] == [a];
    assert [a, b, c][2] == c && [a, b][1] == b;
  }

  /** Two channels of one name: the second succeeds, and the failure of the first is forgotten. */
  lemma {:induction false} SharedChannelForgets(outputs: seq<string>, channels: seq<string>, i: nat, j: nat)
    requires i < j < |channels| && channels[i] == channels[j]
    ensures var run := [Alerted(i, false), Alerted(j, true)];
            && LastDispatchFailed(run, i)
            && channels[i] !in BoardAfter(outputs, channels, run).registry.failingAlertChannels
  {
    var a, b := Alerted(i, false), Alerted(j, true);
    BoardSnoc(outputs, channels, [], a);
    BoardSnoc(outputs, channels, [a], b);
    assert [a] + [b] == [a, b] && [a, b][..1] == [a] && [] + [a] == [a];
  }

  /** The snapshot tells the truth after every run exactly when no two outputs and no two channels share a name. */
  lemma ReadinessIsRightExactly(outputs: seq<string>, channels: seq<string>)
    ensures (forall run :: BoardAfter(outputs, channels, run).registry == Truth(outputs, channels, run)) <==>
            Distinct(outputs) && Distinct(channels)
  {
    hide BoardAfter, InSession, RoleIsKnown, LastWriteFailed, LastDispatchFailed;
    if Distinct(outputs) && Distinct(channels) {
      forall run
        ensures BoardAfter(outputs, channels, run).registry == Truth(outputs, channels, run)
      {
        SessionAndRoleTold(outputs, channels, run);
        OutputsTold(outputs, channels, run);
        ChannelsTold(outputs, channels, run);
      }
    } else if !Distinct(outputs) {
      var i, j :| 0 <= i < j < |outputs| && outputs[i] == outputs[j];
      SharedNameForgets(outputs, channels, i, j);
      var run := [Wrote(i, false), Wrote(j, false), Wrote(i, true)];
      assert outputs[j] in FailingOutputs(outputs, run);
      assert BoardAfter(outputs, channels, run).registry != Truth(outputs, channels, run);
    } else {
      var i, j :| 0 <= i < j < |channels| && channels[i] == channels[j];
      SharedChannelForgets(outputs, channels, i, j);
      var run := [Alerted(i, false), Alerted(j, true)];
      assert channels[i] in FailingChannels(channels, run);
      assert BoardAfter(outputs, channels, run).registry != Truth(outputs, channels, run);
    }
  }
}
