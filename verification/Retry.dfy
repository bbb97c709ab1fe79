/** The retry arithmetic of the alert engine (internal/alert/alert.go, New and nextBackoff) and the shape of one
    dispatch to one channel. */
module Retry {
  import opened Durations
  import Text

  const MINUTE: int := 60 * SECOND
  const HALF_RANGE: int := 0x4000_0000_0000_0000

  /** `max` zero means one minute. */
  datatype Policy = Policy(attempts: int, initial: int, max: int)

  /** The normalisation in New. */
  function Normalised(o: Policy): (p: Policy)
    ensures p.attempts >= 1 && p.initial >= 0 && p.max == o.max
    ensures o.attempts >= 1 ==> p.attempts == o.attempts
    ensures o.attempts <= 0 ==> p.attempts == 1
    ensures o.initial >= 0 && (o.max <= 0 || o.initial <= o.max) ==> p.initial == o.initial
    ensures o.max > 0 && o.initial > o.max ==> p.initial == o.max
  {
    var initial := if o.initial < 0 then 0 else o.initial;
    Policy(if o.attempts <= 0 then 1 else o.attempts,
           if o.max > 0 && initial > o.max then o.max else initial,
           o.max)
  }

  function NextBackoff(cur: int, max: int): int {
    var next := Wrap64(cur * 2);
    if max > 0 && next > max then max
    else if max == 0 && next > MINUTE then MINUTE
    else next
  }

  /** The i-th sleep of a dispatch. */
  function BackoffAt(p: Policy, i: nat): int {
    if i == 0 then p.initial else NextBackoff(BackoffAt(p, i - 1), p.max)
  }

  function Cap(p: Policy): int {
    if p.max > 0 then p.max else MINUTE
  }

  predicate InRange(p: Policy) {
    0 <= p.initial < HALF_RANGE && Text.MIN_INT64 <= p.max < HALF_RANGE
  }

  /** After New the first sleep respects the cap unless no maximum is set and more than a minute is asked for. */
  lemma NormalisedInitial(o: Policy)
    ensures var p := Normalised(o);
            p.initial <= Cap(p) <==> !(o.max <= 0 && o.initial > MINUTE)
  {
  }

  lemma {:induction false} CappedBackoff(p: Policy, i: nat)
    requires InRange(p) && p.max >= 0 && p.initial <= Cap(p)
    ensures BackoffAt(p, i) == Min(p.initial * Pow2(i), Cap(p))
    ensures 0 <= BackoffAt(p, i) <= Cap(p)
    decreases i
  {
    if i > 0 {
      CappedBackoff(p, i - 1);
      CappedDoubling(p.initial, i - 1, Cap(p));
    }
  }

  // Without a cap the sleeps double freely while they fit.
  lemma {:induction false} UncappedBackoff(p: Policy, i: nat)
    requires InRange(p) && p.max < 0 && p.initial * Pow2(i) < 2 * HALF_RANGE
    ensures BackoffAt(p, i) == p.initial * Pow2(i)
    decreases i
  {
    assert Pow2(0) == 1;
    if i > 0 {
      assert p.initial * Pow2(i) == 2 * (p.initial * Pow2(i - 1)) && p.initial * Pow2(i - 1) >= 0;
      UncappedBackoff(p, i - 1);
    }
  }

  /** The i-th sleep is min(initial * 2^i, cap), for every i, exactly when the first sleep respects the cap and the
      configured maximum is not negative (or there is nothing to double). */
  lemma BackoffClosedForm(p: Policy)
    requires InRange(p)
    ensures (forall i: nat :: BackoffAt(p, i) == Min(p.initial * Pow2(i), Cap(p))) <==>
            p.initial <= Cap(p) && (p.max >= 0 || p.initial == 0)
  {
    assert p.initial * Pow2(0) == p.initial;
    if p.initial <= Cap(p) && p.max >= 0 {
      forall i: nat
        ensures BackoffAt(p, i) == Min(p.initial * Pow2(i), Cap(p))
      {
        CappedBackoff(p, i);
      }
    } else if p.initial == 0 {
      forall i: nat
        ensures BackoffAt(p, i) == Min(p.initial * Pow2(i), Cap(p))
      {
        assert p.initial * Pow2(i) == 0;
        UncappedBackoff(p, i);
      }
    } else if p.initial <= Cap(p) {
      var n := DoublingPasses(p.initial, MINUTE);
      UncappedBackoff(p, n + 1);
      assert BackoffAt(p, n + 1) != Min(p.initial * Pow2(n + 1), Cap(p));
    } else {
      assert BackoffAt(p, 0) != Min(p.initial * Pow2(0), Cap(p));
    }
  }

  // ---- one dispatch ----

  /** The results of the sends, the sleeps begun between them, and whether the context ended the last sleep. */
  datatype Dispatch = Dispatch(sends: seq<bool>, sleeps: seq<int>, aborted: bool)

  predicate Succeeded(d: Dispatch) {
    d.sends != [] && d.sends[|d.sends| - 1]
  }

  /** Between one and `attempts` sends, only the last of which may succeed, and a sleep of the prescribed length after
      each failure but the last. */
  predicate ValidDispatch(p: Policy, d: Dispatch) {
    && 1 <= |d.sends| <= p.attempts
    && (forall i | 0 <= i < |d.sends| - 1 :: !d.sends[i])
    && |d.sleeps| == |d.sends| - (if d.aborted then 0 else 1)
    && (forall i | 0 <= i < |d.sleeps| :: d.sleeps[i] == BackoffAt(p, i))
    && (d.aborted ==> !Succeeded(d) && |d.sends| < p.attempts)
    && (!d.aborted && !Succeeded(d) ==> |d.sends| == p.attempts)
  }

  function Sum(s: seq<int>): int {
    if s == [] then 0 else Sum(s[..|s| - 1]) + s[|s| - 1]
  }

  lemma SumBound(s: seq<int>, cap: int)
    requires cap >= 0 && forall i | 0 <= i < |s| :: s[i] <= cap
    ensures Sum(s) <= |s| * cap
  {
    if s != [] {
      SumBound(s[..|s| - 1], cap);
      assert |s| * cap == (|s| - 1) * cap + cap;
    }
  }

  lemma TimesAtMost(a: int, b: int, c: int)
    requires a <= b && c >= 0
    ensures a * c <= b * c
  {
  }

  /** One dispatch sleeps at most (attempts - 1) * cap in all. */
  lemma TotalSleep(p: Policy, d: Dispatch)
    requires InRange(p) && p.max >= 0 && p.initial <= Cap(p) && ValidDispatch(p, d)
    ensures Sum(d.sleeps) <= (p.attempts - 1) * Cap(p)
  {
    hide Sum, BackoffAt;
    forall i | 0 <= i < |d.sleeps|
      ensures d.sleeps[i] <= Cap(p)
    {
      CappedBackoff(p, i);
    }
    SumBound(d.sleeps, Cap(p));
    TimesAtMost(|d.sleeps|, p.attempts - 1, Cap(p));
  }

  // ---- a channel's whole history ----

  function Sends(h: seq<Dispatch>): nat {
    if h == [] then 0 else Sends(h[..|h| - 1]) + |h[|h| - 1].sends|
  }

  function Sent(h: seq<Dispatch>): nat {
    if h == [] then 0 else Sent(h[..|h| - 1]) + (if Succeeded(h[|h| - 1]) then 1 else 0)
  }

  predicate ValidHistory(p: Policy, h: seq<Dispatch>) {
    forall i | 0 <= i < |h| :: ValidDispatch(p, h[i])
  }

  predicate LastFailed(h: seq<Dispatch>) {
    h != [] && !Succeeded(h[|h| - 1])
  }

  lemma HistorySnoc(p: Policy, h: seq<Dispatch>, d: Dispatch)
    ensures Sends(h + [d]) == Sends(h) + |d.sends|
    ensures Sent(h + [d]) == Sent(h) + (if Succeeded(d) then 1 else 0)
    ensures ValidHistory(p, h) && ValidDispatch(p, d) ==> ValidHistory(p, h + [d])
    ensures LastFailed(h + [d]) <==> !Succeeded(d)
  {
    assert (h + [d])[..|h|] == h;
  }

  /** Every dispatch sends between once and `attempts` times. */
  lemma {:induction false} SendsPerDispatch(p: Policy, h: seq<Dispatch>)
    requires p.attempts >= 1 && ValidHistory(p, h)
    ensures |h| <= Sends(h) <= |h| * p.attempts
  {
    if h != [] {
      assert ValidDispatch(p, h[|h| - 1]);
      SendsPerDispatch(p, h[..|h| - 1]);
      assert |h| * p.attempts == (|h| - 1) * p.attempts + p.attempts;
    }
  }
}
