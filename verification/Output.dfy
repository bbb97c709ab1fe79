/** The output stage (internal/output/output.go): one bounded queue, one sink and the counters of each output, and the
    fan-out over all of them. */
module Output {
  import opened Text
  import opened Events
  import opened History
  import opened Health
  import opened Metrics
  import Pipeline

  datatype DrainEnd = Emptied | WriteFailed | DeadlineHit

  /** The outcomes of the attempts so far. */
  function Outcomes(log: seq<Mark<Event>>): (oks: seq<bool>)
    ensures |oks| == |log|
  {
    seq(|log|, i requires 0 <= i < |log| => log[i].ok)
  }

  lemma OutcomesSnoc(log: seq<Mark<Event>>, m: Mark<Event>)
    ensures Outcomes(log + [m]) == Outcomes(log) + [m.ok]
  {
  }

  /** Two failing sets that differ at most in one name. */
  predicate OthersKept(before: set<string>, after: set<string>, name: string) {
    before - {name} == after - {name}
  }

  lemma OthersKeptAtFirst(names: set<string>, name: string)
    ensures OthersKept(names, names, name)
  {
  }

  class Consumer {
    const name: string
    const capacity: nat
    const drop: bool
    const metrics: Registry
    var queue: seq<Event>
    var dropped: nat
    var written: nat
    var errors: nat
    var failing: bool
    // What this output has told the registry, and how many reports it has sent to Sentry.
    var calls: seq<bool>
    var reports: nat
    ghost var phase: Pipeline.Phase
    ghost var offers: seq<Mark<Event>>
    ghost var log: seq<Mark<Event>>

    /** This output as a stage of the pipeline. */
    ghost function View(hand: Option<Event>): Pipeline.Stage
      reads this
    {
      Pipeline.Stage(queue, hand, phase, dropped, written, errors, offers, log)
    }

    /** The accounting of the pipeline, and flag, calls and reports as the history of attempts prescribes. */
    ghost predicate Holds(hand: Option<Event>)
      reads this
    {
      && Pipeline.StageInv(drop, capacity, View(hand), Items(offers))
      && Health(failing, calls, reports) == HealthOf(Outcomes(log))
    }

    ghost predicate Valid()
      reads this
    {
      Holds(None)
    }

    constructor (name: string, buffer: nat, dropOnFull: bool, metrics: Registry)
      ensures Valid() && this.name == name && capacity == buffer && drop == dropOnFull && this.metrics == metrics
      ensures View(None) == Pipeline.NewStage && !failing && calls == [] && reports == 0
    {
      this.name, this.capacity, this.drop, this.metrics := name, buffer, dropOnFull, metrics;
      queue, dropped, written, errors, failing, calls, reports := [], 0, 0, 0, false, [], 0;
      offers, log, phase := [], [], Pipeline.Running;
    }

    /** `WouldBlock` is the blocking send that has found no room yet. */
    method Submit(ev: Event) returns (r: Pipeline.Submission)
      requires Valid()
      modifies this`queue, this`dropped, this`offers
      ensures Valid()
      ensures r == if |old(queue)| < capacity then Pipeline.Enqueued
                   else if drop then Pipeline.Discarded else Pipeline.WouldBlock
      ensures offers == if r == Pipeline.WouldBlock then old(offers)
                        else old(offers) + [Mark(ev, r == Pipeline.Enqueued)]
      ensures Pipeline.Submit(drop, capacity, old(View(None)), ev) ==
              if r == Pipeline.WouldBlock then None else Some(View(None))
      ensures r == Pipeline.WouldBlock ==> View(None) == old(View(None))
    {
      hide Pipeline.StageInv, Items, Kept, Count, HealthOf, Outcomes;
      Pipeline.SubmitKeepsStage(drop, capacity, View(None), ev, Items(offers));
      Snoc(offers, Mark(ev, |queue| < capacity));
      if |queue| < capacity {
        queue := queue + [ev];
        offers := offers + [Mark(ev, true)];
        return Pipeline.Enqueued;
      }
      if drop {
        dropped := dropped + 1;
        offers := offers + [Mark(ev, false)];
        return Pipeline.Discarded;
      }
      return Pipeline.WouldBlock;
    }

    /** case ev := <-c.in */
    method Receive() returns (ev: Event)
      requires Valid() && queue != [] && phase != Pipeline.Stopped
      modifies this`queue
      ensures Holds(Some(ev)) && old(queue) == [ev] + queue
      ensures forall cancelled ::
                View(Some(ev)) == Pipeline.StageStep(old(View(None)), Pipeline.Receive, cancelled, true)
    {
      hide Pipeline.StageInv, Items, Kept, Count, HealthOf, Outcomes;
      Pipeline.ReceiveKeepsStage(drop, capacity, View(None), Items(offers));
      ev := queue[0];
      queue := queue[1..];
    }

    // SetOutputFailing at an edge touches this output's name only.
    lemma EdgeReport(start: set<string>, before: Readiness, was: bool, ok: bool)
      requires OthersKept(start, before.failingOutputs, name)
      ensures var after := OnWrite(before, name, was, ok);
              && OthersKept(start, after.failingOutputs, name)
              && ((was <==> name in before.failingOutputs) ==> (!ok <==> name in after.failingOutputs))
    {
    }

    // The history after the attempt to write the event in hand.
    lemma Attempted(ev: Event, ok: bool)
      requires Holds(Some(ev))
      ensures Pipeline.StageInv(drop, capacity, Pipeline.StageStep(View(Some(ev)), Pipeline.Finish(ok), true, true),
                                Items(offers))
      ensures HealthOf(Outcomes(log + [Mark(ev, ok)])) == Observe(Health(failing, calls, reports), ok)
      ensures Items(log + [Mark(ev, ok)]) + queue == Items(log) + ([ev] + queue)
    {
      hide Pipeline.StageInv, HealthOf;
      Pipeline.FinishKeepsStage(drop, capacity, View(Some(ev)), ok, Items(offers));
      OutcomesSnoc(log, Mark(ev, ok));
      HealthSnoc(Outcomes(log), ok);
      Snoc(log, Mark(ev, ok));
      AppendAssoc(Items(log), [ev], queue);
    }

    /** The bookkeeping after an attempt, the same statements in writeOne and in the drain. */
    method Account(ev: Event, ok: bool)
      requires Holds(Some(ev))
      modifies this`written, this`errors, this`failing, this`calls, this`reports, this`phase, this`log,
               metrics`failingOutputs
      ensures Valid() && log == old(log) + [Mark(ev, ok)] && failing == !ok
      ensures phase == if !ok && old(phase) == Pipeline.Draining then Pipeline.Stopped else old(phase)
      ensures Items(log) + queue == Items(old(log)) + ([ev] + queue)
      ensures forall cancelled ::
                View(None) == Pipeline.StageStep(old(View(Some(ev))), Pipeline.Finish(ok), cancelled, true)
      ensures metrics.Snapshot() == OnWrite(old(metrics.Snapshot()), name, old(failing), ok)
    {
      hide Pipeline.StageInv, Items, HealthOf, Outcomes;
      Attempted(ev, ok);
      log := log + [Mark(ev, ok)];
      phase := if !ok && phase == Pipeline.Draining then Pipeline.Stopped else phase;
      if !ok {
        errors := errors + 1;
        var was := failing;
        failing := true;
        if !was {
          metrics.SetOutputFailing(name, true);
          calls := calls + [true];
          reports := reports + 1;
        }
        return;
      }
      written := written + 1;
      var was := failing;
      failing := false;
      if was {
        metrics.SetOutputFailing(name, false);
        calls := calls + [false];
      }
    }

    method WriteOne(ev: Event) returns (ok: bool)
      requires Holds(Some(ev)) && phase == Pipeline.Running
      modifies this`written, this`errors, this`failing, this`calls, this`reports, this`phase, this`log,
               metrics`failingOutputs
      ensures Valid() && log == old(log) + [Mark(ev, ok)] && phase == Pipeline.Running
      ensures forall cancelled ::
                View(None) == Pipeline.StageStep(old(View(Some(ev))), Pipeline.Finish(ok), cancelled, true)
      ensures metrics.Snapshot() == OnWrite(old(metrics.Snapshot()), name, old(failing), ok)
    {
      ok := *;
      Account(ev, ok);
    }

    // The phase is no part of the accounting.
    ghost method Enter(p: Pipeline.Phase)
      requires Valid()
      modifies this`phase
      ensures Valid() && View(None) == old(View(None)).(phase := p)
    {
      hide Items, Kept, Count, HealthOf, Outcomes;
      phase := p;
    }

    /** Writes what is queued until the queue is empty, a write fails or the deadline passes. `acts` are the steps of
        the pipeline this amounts to. */
    method DrainAfterShutdown() returns (end: DrainEnd, ghost tail: seq<Mark<Event>>,
                                         ghost acts: seq<Pipeline.StageAct>)
      requires Valid() && phase == Pipeline.Running
      modifies this`queue, this`written, this`errors, this`failing, this`calls, this`reports, this`phase, this`log,
               metrics`failingOutputs
      ensures Valid() && log == old(log) + tail
      ensures Items(log) + queue == old(Items(log) + queue)
      ensures forall i | 0 <= i < |tail| - 1 :: tail[i].ok
      ensures tail != [] ==> (tail[|tail| - 1].ok <==> end != WriteFailed)
      ensures end == Emptied ==> queue == []
      ensures end == WriteFailed ==> tail != []
      ensures View(None) == Pipeline.StageRun(old(View(None)), acts) && phase == Pipeline.Stopped
      ensures OthersKept(old(metrics.failingOutputs), metrics.failingOutputs, name)
      ensures (old(failing) <==> name in old(metrics.failingOutputs)) ==> (failing <==> name in metrics.failingOutputs)
    {
      hide Items, OnWrite, OthersKept, Holds, Pipeline.StageRun, Pipeline.StageStep;
      tail := [];
      OthersKeptAtFirst(metrics.failingOutputs, name);
      ghost var start := View(None);
      Pipeline.NoticeStarts(start);
      acts := [Pipeline.Notice];
      Enter(Pipeline.Draining);
      while true
        invariant Valid() && log == old(log) + tail && Items(log) + queue == old(Items(log) + queue)
        invariant phase == Pipeline.Draining && View(None) == Pipeline.StageRun(start, acts)
        invariant forall i | 0 <= i < |tail| :: tail[i].ok
        invariant OthersKept(old(metrics.failingOutputs), metrics.failingOutputs, name)
        invariant (old(failing) <==> name in old(metrics.failingOutputs)) ==>
                    (failing <==> name in metrics.failingOutputs)
        decreases |queue|
      {
        var late: bool := *;
        if late || queue == [] {
          end := if queue == [] && !late then Emptied else DeadlineHit;
          break;
        }
        ghost var was := failing;
        EdgeReport(old(metrics.failingOutputs), metrics.Snapshot(), was, true);
        EdgeReport(old(metrics.failingOutputs), metrics.Snapshot(), was, false);
        Pipeline.StageRunSnoc(start, acts, Pipeline.Receive);
        var ev := Receive();
        acts := acts + [Pipeline.Receive];
        var ok: bool := *;
        AppendAssoc(old(log), tail, [Mark(ev, ok)]);
        Pipeline.StageRunSnoc(start, acts, Pipeline.Finish(ok));
        Account(ev, ok);
        acts := acts + [Pipeline.Finish(ok)];
        tail := tail + [Mark(ev, ok)];
        if !ok {
          return WriteFailed, tail, acts;
        }
      }
      Pipeline.StageRunSnoc(start, acts, Pipeline.Quit);
      Pipeline.QuitStops(View(None));
      acts := acts + [Pipeline.Quit];
      Enter(Pipeline.Stopped);
    }
  }

  lemma ConsumerBounded(c: Consumer)
    requires c.Valid()
    ensures |c.queue| <= c.capacity
  {
  }

  class Manager {
    const consumers: seq<Consumer>

    ghost predicate Valid()
      reads this, consumers
    {
      && (forall i, j | 0 <= i < j < |consumers| :: consumers[i] != consumers[j])
      && (forall i | 0 <= i < |consumers| :: consumers[i].Valid())
    }

    constructor (consumers: seq<Consumer>)
      requires forall i, j | 0 <= i < j < |consumers| :: consumers[i] != consumers[j]
      requires forall i | 0 <= i < |consumers| :: consumers[i].Valid()
      ensures Valid() && this.consumers == consumers
    {
      this.consumers := consumers;
    }

    /** Offers the event to every output in order; `reached` is the output whose full queue it waits for, if any. */
    method Dispatch(ev: Event) returns (reached: nat)
      requires Valid()
      modifies consumers`queue, consumers`dropped, consumers`offers
      ensures Valid() && reached <= |consumers|
      ensures reached < |consumers| ==>
                !consumers[reached].drop && |consumers[reached].queue| == consumers[reached].capacity
      ensures forall i | 0 <= i < |consumers| ::
                var c := consumers[i];
                && c.offers == (if i < reached then old(c.offers) + [Mark(ev, |old(c.queue)| < c.capacity)]
                                else old(c.offers))
                && (if i < reached then
                      Pipeline.Submit(c.drop, c.capacity, old(c.View(None)), ev) == Some(c.View(None))
                    else c.View(None) == old(c.View(None)))
    {
      hide Consumer.Holds, Pipeline.Submit;
      for k := 0 to |consumers|
        invariant forall i | 0 <= i < |consumers| :: consumers[i].Valid()
        invariant forall i | 0 <= i < |consumers| ::
                    var c := consumers[i];
                    if i < k then
                      && c.offers == old(c.offers) + [Mark(ev, |old(c.queue)| < c.capacity)]
                      && Pipeline.Submit(c.drop, c.capacity, old(c.View(None)), ev) == Some(c.View(None))
                    else c.offers == old(c.offers) && c.queue == old(c.queue) && c.View(None) == old(c.View(None))
      {
        var r := consumers[k].Submit(ev);
        if r == Pipeline.WouldBlock {
          ConsumerBounded(consumers[k]);
          return k;
        }
      }
      return |consumers|;
    }
  }

  method QuoteText(s: string) returns (r: string)
    ensures r == QuoteArg(s)
  {
    if !NeedsQuotes(s) {
      return s;
    }
    hide NeedsQuotes;
    r := "\"";
    for i := 0 to |s|
      invariant r == "\"" + Escaped(s[..i])
    {
      var c := s[i];
      EscapedSnoc(s[..i], c);
      assert s[..i + 1] == s[..i] + [c];
      if c == '"' || c == '\\' {
        r := r + "\\";
      }
      r := r + [c];
    }
    assert s[..|s|] == s;
    r := r + "\"";
  }
}
