/** The alert engine (internal/alert/alert.go): queueing, matching, rate limiting and dispatch with retries. */
module Alert {
  import opened Text
  import opened Events
  import opened History
  import opened Health
  import opened Metrics
  import opened RateLimit
  import Pipeline
  import Retry

  /** A notification channel with the counters the reporter keeps for it. Send is an oracle. */
  class Channel {
    const name: string
    const reg: Registry
    var sends: nat
    var sent: nat
    var errors: nat
    var retries: nat
    ghost var history: seq<Retry.Dispatch>

    constructor (name: string, reg: Registry)
      ensures this.name == name && this.reg == reg && history == [] && forall p :: Valid(p)
    {
      this.name, this.reg := name, reg;
      sends, sent, errors, retries, history := 0, 0, 0, 0, [];
    }

    /** The counters agree with the history. */
    ghost predicate Valid(p: Retry.Policy)
      reads this
    {
      && Retry.ValidHistory(p, history)
      && sends == Retry.Sends(history)
      && sent == Retry.Sent(history)
      && sends == sent + errors
      && sends == |history| + retries
    }

    method Send() returns (ok: bool)
      modifies this`sends
      ensures sends == old(sends) + 1
    {
      sends := sends + 1;
      ok := *;
    }

    /** sendOne: bounded retries with capped exponential backoff. */
    method SendOne(p: Retry.Policy) returns (ok: bool, ghost d: Retry.Dispatch)
      requires Valid(p) && p.attempts >= 1
      modifies this, reg`failingAlertChannels
      ensures Valid(p) && Retry.ValidDispatch(p, d) && history == old(history) + [d]
      ensures ok == Retry.Succeeded(d) == !Retry.LastFailed(history)
      ensures reg.Snapshot() == OnDispatch(old(reg.Snapshot()), name, ok)
    {
      hide Retry.BackoffAt, Retry.Sends, Retry.Sent, Retry.ValidHistory, Retry.NextBackoff;
      var backoff := p.initial;
      FirstBackoff(p);
      d := Retry.Dispatch([], [], false);
      var attempt := 1;
      while attempt <= p.attempts
        invariant 1 <= attempt <= p.attempts
        invariant |d.sends| == |d.sleeps| == attempt - 1 && !d.aborted
        invariant forall i | 0 <= i < |d.sends| :: !d.sends[i]
        invariant forall i | 0 <= i < |d.sleeps| :: d.sleeps[i] == Retry.BackoffAt(p, i)
        invariant backoff == Retry.BackoffAt(p, attempt - 1)
        invariant history == old(history) && sent == old(sent) && reg.Snapshot() == old(reg.Snapshot())
        invariant sends == old(sends) + (attempt - 1) && errors == old(errors) + (attempt - 1)
        invariant retries == old(retries) + (attempt - 1)
      {
        var sendOk := Send();
        d := d.(sends := d.sends + [sendOk]);
        if sendOk {
          sent := sent + 1;
          reg.SetAlertChannelFailing(name, false);
          Retry.HistorySnoc(p, history, d);
          history := history + [d];
          return true, d;
        }
        errors := errors + 1;
        if attempt == p.attempts {
          break;
        }
        var slept: bool := *;
        d := d.(sleeps := d.sleeps + [backoff]);
        if !slept {
          d := d.(aborted := true);
          break;
        }
        retries := retries + 1;
        NextBackoffAt(p, attempt - 1);
        backoff := Retry.NextBackoff(backoff, p.max);
        attempt := attempt + 1;
      }
      reg.SetAlertChannelFailing(name, true);
      Retry.HistorySnoc(p, history, d);
      history := history + [d];
      return false, d;
    }
  }

  lemma FirstBackoff(p: Retry.Policy)
    ensures Retry.BackoffAt(p, 0) == p.initial
  {
  }

  lemma NextBackoffAt(p: Retry.Policy, i: nat)
    ensures Retry.BackoffAt(p, i + 1) == Retry.NextBackoff(Retry.BackoffAt(p, i), p.max)
  {
  }

  /** The set holds exactly those of the first names that are said to fail. */
  predicate MarksAgree(names: seq<string>, failed: seq<bool>, marked: set<string>) {
    |failed| <= |names| && forall i | 0 <= i < |failed| :: names[i] in marked <==> failed[i]
  }

  lemma NoMarks(names: seq<string>, marked: set<string>)
    ensures MarksAgree(names, [], marked)
  {
  }

  lemma OneMoreMark(names: seq<string>, failed: seq<bool>, r: Readiness, ok: bool)
    requires |failed| < |names|
    ensures Distinct(names) && MarksAgree(names, failed, r.failingAlertChannels) ==>
              MarksAgree(names, failed + [!ok], OnDispatch(r, names[|failed|], ok).failingAlertChannels)
  {
  }

  lemma MarksAgreeAt(names: seq<string>, failed: seq<bool>, marked: set<string>)
    ensures MarksAgree(names, failed, marked) ==>
              |failed| <= |names| && forall i | 0 <= i < |failed| :: names[i] in marked <==> failed[i]
  {
  }

  datatype Handling = NoMatch | IgnoredSource | RateLimited | Dispatched

  class Engine {
    const channels: seq<Channel>
    const reg: Registry
    const commands: set<string>
    const pattern: string -> bool
    const ignoredIPs: set<string>
    const limit: Limit
    const retry: Retry.Policy
    const capacity: nat
    const drop: bool
    var queue: seq<Event>
    var dropped: nat
    var rates: map<string, Bucket>
    var observed: nat
    var rateLimited: nat
    var dispatched: nat
    ghost var offers: seq<Mark<Event>>
    ghost var log: seq<Mark<Event>>

    /** The engine as the last stage of the pipeline. An event that led to an alert is logged as a success. */
    ghost function View(hand: Option<Event>): Pipeline.Stage
      reads this
    {
      Pipeline.Stage(queue, hand, Pipeline.Running, dropped, dispatched, Count(log, false), offers, log)
    }

    /** Every channel is another object, reports to the engine's registry, and has done `n` dispatches. */
    ghost predicate Channels(n: nat)
      reads channels
    {
      && (forall i, j | 0 <= i < j < |channels| :: channels[i] != channels[j])
      && (forall i | 0 <= i < |channels| ::
            channels[i].reg == reg && channels[i].Valid(retry) && |channels[i].history| == n)
    }

    /** One dispatch per channel for every alert let through, every suspicious event accounted for, and the accounting
        of the pipeline. */
    ghost predicate Holds(hand: Option<Event>)
      reads this, channels
    {
      && retry.attempts >= 1
      && Channels(dispatched)
      && observed == rateLimited + dispatched
      && Pipeline.StageInv(drop, capacity, View(hand), Items(offers))
    }

    ghost predicate Valid()
      reads this, channels
    {
      Holds(None)
    }

    function Names(): seq<string> {
      seq(|channels|, i requires 0 <= i < |channels| => channels[i].name)
    }

    /** The registry names exactly the channels whose last dispatch failed. */
    ghost predicate MarksRight()
      reads reg, channels
    {
      forall i | 0 <= i < |channels| ::
        channels[i].name in reg.failingAlertChannels <==> Retry.LastFailed(channels[i].history)
    }

    constructor (channels: seq<Channel>, reg: Registry, commands: set<string>, pattern: string -> bool,
                 ignoredIPs: set<string>, limit: Limit, options: Retry.Policy, buffer: int, dropOnFull: bool)
      requires forall i, j | 0 <= i < j < |channels| :: channels[i] != channels[j]
      requires forall i | 0 <= i < |channels| ::
                 channels[i].reg == reg && channels[i].history == [] && channels[i].Valid(options)
      ensures Valid() && (reg.failingAlertChannels == {} ==> MarksRight())
      ensures this.channels == channels && this.reg == reg && this.commands == commands && this.pattern == pattern
      ensures this.ignoredIPs == ignoredIPs && this.limit == limit && retry == Retry.Normalised(options)
      ensures capacity == (if buffer <= 0 then 1024 else buffer) && drop == dropOnFull
      ensures View(None) == Pipeline.NewStage && rates == map[] && observed == 0 && rateLimited == 0
    {
      this.channels, this.reg, this.commands, this.pattern := channels, reg, commands, pattern;
      this.ignoredIPs, this.limit, this.retry := ignoredIPs, limit, Retry.Normalised(options);
      this.capacity, this.drop := if buffer <= 0 then 1024 else buffer, dropOnFull;
      queue, rates, dropped, observed, rateLimited, dispatched := [], map[], 0, 0, 0, 0;
      offers, log := [], [];
    }

    method Submit(ev: Event) returns (r: Pipeline.Submission)
      requires Valid()
      modifies this`queue, this`dropped, this`offers
      ensures Valid()
      ensures r == if |old(queue)| < capacity then Pipeline.Enqueued
                   else if drop then Pipeline.Discarded else Pipeline.WouldBlock
      ensures Pipeline.Submit(drop, capacity, old(View(None)), ev) ==
              if r == Pipeline.WouldBlock then None else Some(View(None))
      ensures r == Pipeline.WouldBlock ==> View(None) == old(View(None))
    {
      hide Pipeline.StageInv, Items, Kept, Count, Channels;
      Pipeline.SubmitKeepsStage(drop, capacity, View(None), ev, Items(offers));
      Snoc(offers, Mark(ev, |queue| < capacity));
      if |queue| < capacity {
        queue := queue + [ev];
        offers := offers + [Mark(ev, true)];
        return Pipeline.Enqueued;
      }
      if drop {
        dropped := dropped + 1;
        offers := offers + [Mark(ev, false)];
        return Pipeline.Discarded;
      }
      return Pipeline.WouldBlock;
    }

    /** case ev := <-e.in */
    method Receive() returns (ev: Event)
      requires Valid() && queue != []
      modifies this`queue
      ensures Holds(Some(ev)) && old(queue) == [ev] + queue
      ensures forall cancelled ::
                View(Some(ev)) == Pipeline.StageStep(old(View(None)), Pipeline.Receive, cancelled, false)
    {
      hide Pipeline.StageInv, Items, Kept, Count, Channels;
      Pipeline.ReceiveKeepsStage(drop, capacity, View(None), Items(offers));
      ev := queue[0];
      queue := queue[1..];
    }

    function Matches(ev: Event): bool {
      ev.command in commands || pattern(CommandText(ev.command, ev.args))
    }

    /** What is to become of an event, given the answer of the limiter. */
    function Fate(ev: Event, allowed: bool): (r: Handling)
      ensures var hit := ev.command in commands || pattern(CommandText(ev.command, ev.args));
              && (r == NoMatch <==> !hit)
              && (r == IgnoredSource <==> hit && ev.source.ip in ignoredIPs)
              && (r == RateLimited <==> hit && ev.source.ip !in ignoredIPs && !allowed)
              && (r == Dispatched <==> hit && ev.source.ip !in ignoredIPs && allowed)
    {
      if !Matches(ev) then NoMatch
      else if ev.source.ip in ignoredIPs then IgnoredSource
      else if !allowed then RateLimited
      else Dispatched
    }

    method RateLimitAllow(ev: Event, now: int) returns (ok: bool)
      modifies this`rates
      ensures (rates, ok) == Allow(limit, old(rates), Request(Key(ev.command, ev.source.ip), now))
    {
      if !limit.enabled || limit.max <= 0 || limit.window <= 0 {
        assert forall b :: Judge(limit, b, now) == (b, true);
        assert var key := Key(ev.command, ev.source.ip); key in rates ==> rates[key := rates[key]] == rates;
        return true;
      }
      var key := ev.command + "|" + ev.source.ip;
      if key !in rates || now - rates[key].windowStart > limit.window {
        rates := rates[key := Bucket(now, 1)];
        return true;
      }
      if rates[key].count >= limit.max {
        assert rates[key := rates[key]] == rates;
        return false;
      }
      rates := rates[key := rates[key].(count := rates[key].count + 1)];
      return true;
    }

    /** The loop over the channels: whatever one of them does, each gets one dispatch. */
    method DispatchAll()
      requires retry.attempts >= 1 && Channels(dispatched)
      modifies channels, reg`failingAlertChannels
      ensures Channels(dispatched + 1)
      ensures forall i | 0 <= i < |channels| :: old(channels[i].history) <= channels[i].history
      ensures Distinct(Names()) ==> MarksRight()
    {
      hide Channel.Valid, Retry.LastFailed, MarksAgree, Distinct;
      ghost var failed: seq<bool> := [];
      NoMarks(Names(), reg.failingAlertChannels);
      for k := 0 to |channels|
        invariant forall i | 0 <= i < |channels| ::
                    && channels[i].Valid(retry)
                    && |channels[i].history| == dispatched + (if i < k then 1 else 0)
                    && old(channels[i].history) <= channels[i].history
        invariant |failed| == k && forall i | 0 <= i < k :: failed[i] == Retry.LastFailed(channels[i].history)
        invariant Distinct(Names()) ==> MarksAgree(Names(), failed, reg.failingAlertChannels)
        modifies channels, reg`failingAlertChannels
      {
        ghost var before := reg.Snapshot();
        var ok, _ := channels[k].SendOne(retry);
        OneMoreMark(Names(), failed, before, ok);
        failed := failed + [!ok];
      }
      MarksAgreeAt(Names(), failed, reg.failingAlertChannels);
    }

    /** Match, ignored source and limiter. */
    method Judged(ev: Event, now: int) returns (r: Handling)
      modifies this`rates, this`observed, this`rateLimited
      ensures var (rates', allowed) := Allow(limit, old(rates), Request(Key(ev.command, ev.source.ip), now));
              && r == Fate(ev, allowed)
              && rates == if r == NoMatch || r == IgnoredSource then old(rates) else rates'
      ensures observed == old(observed) + (if r == RateLimited || r == Dispatched then 1 else 0)
      ensures rateLimited == old(rateLimited) + (if r == RateLimited then 1 else 0)
    {
      hide Allow, Key, Matches;
      if !Matches(ev) {
        return NoMatch;
      }
      if ev.source.ip in ignoredIPs {
        return IgnoredSource;
      }
      observed := observed + 1;
      var allowed := RateLimitAllow(ev, now);
      if !allowed {
        rateLimited := rateLimited + 1;
        return RateLimited;
      }
      return Dispatched;
    }

    method Handle(ev: Event, now: int) returns (r: Handling)
      requires Holds(Some(ev))
      modifies this`rates, this`observed, this`rateLimited, this`dispatched, this`log, channels,
               reg`failingAlertChannels
      ensures Valid()
      ensures var allowed := Allow(limit, old(rates), Request(Key(ev.command, ev.source.ip), now)).1;
              var hit := ev.command in commands || pattern(CommandText(ev.command, ev.args));
              && (r == NoMatch <==> !hit)
              && (r == IgnoredSource <==> hit && ev.source.ip in ignoredIPs)
              && (r == RateLimited <==> hit && ev.source.ip !in ignoredIPs && !allowed)
              && (r == Dispatched <==> hit && ev.source.ip !in ignoredIPs && allowed)
      ensures var rates' := Allow(limit, old(rates), Request(Key(ev.command, ev.source.ip), now)).0;
              rates == if r == NoMatch || r == IgnoredSource then old(rates) else rates'
      ensures observed == old(observed) + (if r == RateLimited || r == Dispatched then 1 else 0)
      ensures dispatched == old(dispatched) + (if r == Dispatched then 1 else 0)
      ensures forall i | 0 <= i < |channels| :: old(channels[i].history) <= channels[i].history
      ensures var fired := r == Dispatched; forall cancelled ::
                View(None) == Pipeline.StageStep(old(View(Some(ev))), Pipeline.Finish(fired), cancelled, false)
      ensures Distinct(Names()) && (r == Dispatched || old(MarksRight())) ==> MarksRight()
    {
      hide Allow, Key, Fate, Channels, Pipeline.StageInv, Items, Kept, Count, MarksRight;
      r := Judged(ev, now);
      Snoc(log, Mark(ev, r == Dispatched));
      Pipeline.FinishKeepsStage(drop, capacity, View(Some(ev)), r == Dispatched, Items(offers));
      log := log + [Mark(ev, r == Dispatched)];
      if r == Dispatched {
        DispatchAll();
        dispatched := dispatched + 1;
      }
    }
  }
}
