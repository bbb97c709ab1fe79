/** The alert rate limiter (internal/alert/alert.go, rateLimitAllow): a fixed window per (command, ip), what it
    guarantees over sliding intervals, and that keys do not interfere. */
module RateLimit {
  import opened Text

  datatype Bucket = Bucket(windowStart: int, count: int)

  /** `window` and `max` as configured; the limiter is off unless both are positive. */
  datatype Limit = Limit(enabled: bool, window: int, max: int)

  predicate On(l: Limit) {
    l.enabled && l.max > 0 && l.window > 0
  }

  /** One request against one bucket: the bucket afterwards and the verdict. */
  function Judge(l: Limit, b: Option<Bucket>, now: int): (Option<Bucket>, bool) {
    if !On(l) then (b, true)
    else if b == None || now - b.value.windowStart > l.window then (Some(Bucket(now, 1)), true)
    else if b.value.count >= l.max then (b, false)
    else (Some(b.value.(count := b.value.count + 1)), true)
  }

  // ---- one key ----

  function Verdicts(l: Limit, b: Option<Bucket>, times: seq<int>): (v: seq<bool>)
    ensures |v| == |times|
    decreases |times|
  {
    if times == [] then []
    else
      var (b', ok) := Judge(l, b, times[0]);
      [ok] + Verdicts(l, b', times[1..])
  }

  function After(l: Limit, b: Option<Bucket>, times: seq<int>): Option<Bucket>
    decreases |times|
  {
    if times == [] then b else After(l, Judge(l, b, times[0]).0, times[1..])
  }

  /** How many of the requests between `lo` and `hi`, both included, are allowed. */
  function AllowedIn(times: seq<int>, v: seq<bool>, lo: int, hi: int): nat
    requires |v| == |times|
  {
    if times == [] then 0
    else (if v[0] && lo <= times[0] <= hi then 1 else 0) + AllowedIn(times[1..], v[1..], lo, hi)
  }

  predicate Nondecreasing(times: seq<int>) {
    forall i, j | 0 <= i < j < |times| :: times[i] <= times[j]
  }

  predicate BucketInv(l: Limit, b: Option<Bucket>, times: seq<int>) {
    b.Some? ==> 1 <= b.value.count <= l.max && (times != [] ==> b.value.windowStart <= times[0])
  }

  lemma VerdictsStep(l: Limit, b: Option<Bucket>, times: seq<int>)
    requires times != []
    ensures Verdicts(l, b, times)[0] == Judge(l, b, times[0]).1
    ensures Verdicts(l, b, times)[1..] == Verdicts(l, Judge(l, b, times[0]).0, times[1..])
  {
  }

  lemma JudgeKeepsBucket(l: Limit, b: Option<Bucket>, times: seq<int>)
    requires On(l) && times != [] && Nondecreasing(times) && BucketInv(l, b, times)
    ensures Nondecreasing(times[1..]) && BucketInv(l, Judge(l, b, times[0]).0, times[1..])
  {
  }

  /** A limiter that is switched off, or has no positive window or maximum, allows everything and remembers nothing. */
  lemma {:induction false} OffAllowsAll(l: Limit, b: Option<Bucket>, times: seq<int>)
    requires !l.enabled || l.window <= 0 || l.max <= 0
    ensures forall i | 0 <= i < |times| :: Verdicts(l, b, times)[i]
    ensures After(l, b, times) == b
    decreases |times|
  {
    if times != [] {
      VerdictsStep(l, b, times);
      OffAllowsAll(l, b, times[1..]);
      assert forall i | 0 < i < |times| :: Verdicts(l, b, times)[i] == Verdicts(l, b, times)[1..][i - 1];
    }
  }

  lemma NoneAfter(times: seq<int>, v: seq<bool>, lo: int, hi: int)
    requires |v| == |times| && Nondecreasing(times) && (times != [] ==> times[0] > hi)
    ensures AllowedIn(times, v, lo, hi) == 0
  {
    if times != [] {
      NoneAfter(times[1..], v[1..], lo, hi);
    }
  }

  lemma Distribute(n: int, x: int)
    ensures (n + 1) * x == n * x + x
  {
  }

  // With room for at most `n` more windows up to `hi`, at most the rest of this one and n * max are allowed.
  lemma {:induction false} BoundFromWindow(l: Limit, b: Bucket, times: seq<int>, lo: int, hi: int, n: nat)
    requires On(l) && Nondecreasing(times) && BucketInv(l, Some(b), times)
    requires hi - b.windowStart < n * (l.window + 1) + (l.window + 1)
    ensures AllowedIn(times, Verdicts(l, Some(b), times), lo, hi) <= l.max - b.count + n * l.max
    decreases |times|
  {
    hide AllowedIn, Verdicts, Nondecreasing;
    NonNegative(n, l.max);
    if times == [] {
      NoneAfter(times, [], lo, hi);
    } else if times[0] > hi {
      NoneAfter(times, Verdicts(l, Some(b), times), lo, hi);
    } else {
      var b', now := Judge(l, Some(b), times[0]).0.value, times[0];
      AllowedStep(l, Some(b), times, lo, hi);
      JudgeKeepsBucket(l, Some(b), times);
      if now - b.windowStart > l.window {
        assert n >= 1;
        Distribute(n - 1, l.window + 1);
        Distribute(n - 1, l.max);
        BoundFromWindow(l, b', times[1..], lo, hi, n - 1);
      } else {
        BoundFromWindow(l, b', times[1..], lo, hi, n);
      }
    }
  }

  lemma NonNegative(n: nat, m: int)
    requires m >= 0
    ensures n * m >= 0
  {
  }

  lemma AllowedStep(l: Limit, b: Option<Bucket>, times: seq<int>, lo: int, hi: int)
    requires times != []
    ensures var (b', ok) := Judge(l, b, times[0]);
            AllowedIn(times, Verdicts(l, b, times), lo, hi) ==
            (if ok && lo <= times[0] <= hi then 1 else 0) + AllowedIn(times[1..], Verdicts(l, b', times[1..]), lo, hi)
  {
    hide Judge;
    VerdictsStep(l, b, times);
  }

  // Entering the interval with a bucket that started before it.
  lemma BoundOnEntry(l: Limit, b: Option<Bucket>, times: seq<int>, lo: int, k: nat)
    requires On(l) && k >= 1 && Nondecreasing(times) && BucketInv(l, b, times)
    requires times != [] && times[0] >= lo && (b.Some? ==> b.value.windowStart < lo)
    ensures AllowedIn(times, Verdicts(l, b, times), lo, lo + k * l.window) <= k * l.max + l.max - 1
  {
    hide AllowedIn, Verdicts, Nondecreasing;
    var w, hi, now := l.window + 1, lo + k * l.window, times[0];
    KTimes(k, l.window);
    NonNegative(k, l.max);
    if b.Some? && now - b.value.windowStart <= l.window {
      BoundFromWindow(l, b.value, times, lo, hi, k);
    } else if now > hi {
      NoneAfter(times, Verdicts(l, b, times), lo, hi);
    } else {
      AllowedStep(l, b, times, lo, hi);
      JudgeKeepsBucket(l, b, times);
      Distribute(k - 1, w);
      Distribute(k - 1, l.max);
      BoundFromWindow(l, Bucket(now, 1), times[1..], lo, hi, k - 1);
    }
  }

  lemma KTimes(k: int, window: int)
    ensures k * (window + 1) == k * window + k
  {
  }

  /** Any closed interval of k windows holds at most (k + 1) * max - 1 allowed alerts of one key. */
  lemma {:induction false} SlidingBound(l: Limit, b: Option<Bucket>, times: seq<int>, lo: int, k: nat)
    requires On(l) && k >= 1 && Nondecreasing(times) && BucketInv(l, b, times)
    requires b.Some? ==> b.value.windowStart < lo
    ensures AllowedIn(times, Verdicts(l, b, times), lo, lo + k * l.window) <= (k + 1) * l.max - 1
    decreases |times|
  {
    hide AllowedIn, Verdicts, Nondecreasing;
    Distribute(k, l.max);
    if times == [] {
      NonNegative(k, l.max);
      NoneAfter(times, [], lo, lo + k * l.window);
    } else if times[0] >= lo {
      BoundOnEntry(l, b, times, lo, k);
    } else {
      AllowedStep(l, b, times, lo, lo + k * l.window);
      JudgeKeepsBucket(l, b, times);
      SlidingBound(l, Judge(l, b, times[0]).0, times[1..], lo, k);
    }
  }

  // ---- denials ----

  /** Whoever is denied finds max alerts of the key allowed within the window that ends now. */
  lemma {:induction false} DenialIsEarned(l: Limit, b: Option<Bucket>, times: seq<int>)
    requires On(l) && times != [] && Nondecreasing(times) && BucketInv(l, b, times)
    requires !Verdicts(l, b, times)[|times| - 1]
    ensures var now := times[|times| - 1];
            var allowed := AllowedIn(times, Verdicts(l, b, times), now - l.window, now);
            || allowed >= l.max
            || (b.Some? && b.value.windowStart >= now - l.window && b.value.count + allowed >= l.max)
    decreases |times|
  {
    VerdictsStep(l, b, times);
    if |times| > 1 {
      JudgeKeepsBucket(l, b, times);
      DenialIsEarned(l, Judge(l, b, times[0]).0, times[1..]);
      assert times[0] <= times[|times| - 1];
    }
  }

  lemma {:induction false} DenialFromTheStart(l: Limit, times: seq<int>)
    requires On(l) && times != [] && Nondecreasing(times)
    requires !Verdicts(l, None, times)[|times| - 1]
    ensures var now := times[|times| - 1];
            AllowedIn(times, Verdicts(l, None, times), now - l.window, now) >= l.max
  {
    DenialIsEarned(l, None, times);
  }

  // ---- the bound is reached ----

  function Repeat(t: int, n: nat): (times: seq<int>)
    ensures |times| == n && forall i | 0 <= i < n :: times[i] == t
  {
    if n == 0 then [] else [t] + Repeat(t, n - 1)
  }

  /** `n` bursts of `max` requests from `t` on, one every window + 1. */
  function Bursts(l: Limit, t: int, n: nat): seq<int>
    requires l.max >= 0
    decreases n
  {
    if n == 0 then [] else Repeat(t, l.max) + Bursts(l, t + l.window + 1, n - 1)
  }

  lemma {:induction false} Append(l: Limit, b: Option<Bucket>, xs: seq<int>, ys: seq<int>, lo: int, hi: int)
    ensures var b' := After(l, b, xs);
            && After(l, b, xs + ys) == After(l, b', ys)
            && AllowedIn(xs + ys, Verdicts(l, b, xs + ys), lo, hi) ==
               AllowedIn(xs, Verdicts(l, b, xs), lo, hi) + AllowedIn(ys, Verdicts(l, b', ys), lo, hi)
    decreases |xs|
  {
    if xs == [] {
      assert xs + ys == ys;
    } else {
      assert (xs + ys)[1..] == xs[1..] + ys;
      VerdictsStep(l, b, xs + ys);
      VerdictsStep(l, b, xs);
      Append(l, Judge(l, b, xs[0]).0, xs[1..], ys, lo, hi);
    }
  }

  lemma {:induction false} FillsWindow(l: Limit, b: Bucket, t: int, n: nat, lo: int, hi: int)
    requires On(l) && t - b.windowStart <= l.window && b.count + n <= l.max && lo <= t <= hi
    ensures AllowedIn(Repeat(t, n), Verdicts(l, Some(b), Repeat(t, n)), lo, hi) == n
    ensures After(l, Some(b), Repeat(t, n)) == Some(b.(count := b.count + n))
    decreases n
  {
    if n > 0 {
      assert Repeat(t, n)[1..] == Repeat(t, n - 1);
      VerdictsStep(l, Some(b), Repeat(t, n));
      FillsWindow(l, b.(count := b.count + 1), t, n - 1, lo, hi);
    }
  }

  lemma OpensWindow(l: Limit, b: Option<Bucket>, t: int, lo: int, hi: int)
    requires On(l) && (b.Some? ==> t - b.value.windowStart > l.window) && lo <= t <= hi
    ensures AllowedIn(Repeat(t, l.max), Verdicts(l, b, Repeat(t, l.max)), lo, hi) == l.max
    ensures After(l, b, Repeat(t, l.max)) == Some(Bucket(t, l.max))
  {
    assert Repeat(t, l.max)[1..] == Repeat(t, l.max - 1);
    VerdictsStep(l, b, Repeat(t, l.max));
    FillsWindow(l, Bucket(t, 1), t, l.max - 1, lo, hi);
  }

  lemma {:induction false} BurstsAllowed(l: Limit, b: Bucket, t: int, n: nat, lo: int, hi: int)
    requires On(l) && t == b.windowStart + l.window + 1 && lo <= t
    requires t + n * (l.window + 1) <= hi + l.window + 1
    ensures AllowedIn(Bursts(l, t, n), Verdicts(l, Some(b), Bursts(l, t, n)), lo, hi) == n * l.max
    decreases n
  {
    hide AllowedIn, Verdicts, After, Repeat;
    if n == 0 {
      NoneAfter([], [], lo, hi);
    } else {
      Distribute(n - 1, l.window + 1);
      Distribute(n - 1, l.max);
      NonNegative(n - 1, l.window + 1);
      var rest := Bursts(l, t + l.window + 1, n - 1);
      OpensWindow(l, Some(b), t, lo, hi);
      Append(l, Some(b), Repeat(t, l.max), rest, lo, hi);
      BurstsAllowed(l, Bucket(t, l.max), t + l.window + 1, n - 1, lo, hi);
    }
  }

  /** One request, a full rest of its window at the very end, then a burst as soon as each window is over. */
  function Worst(l: Limit, k: nat): seq<int>
    requires On(l)
  {
    [0] + (Repeat(l.window, l.max - 1) + Bursts(l, l.window + 1, k))
  }

  lemma {:induction false} BurstsNondecreasing(l: Limit, t: int, n: nat)
    requires On(l)
    ensures Nondecreasing(Bursts(l, t, n)) && forall i | 0 <= i < |Bursts(l, t, n)| :: t <= Bursts(l, t, n)[i]
    decreases n
  {
    if n > 0 {
      BurstsNondecreasing(l, t + l.window + 1, n - 1);
    }
  }

  lemma WorstNondecreasing(l: Limit, k: nat)
    requires On(l)
    ensures Nondecreasing(Worst(l, k))
  {
    hide Bursts;
    BurstsNondecreasing(l, l.window + 1, k);
  }

  /** The bound of SlidingBound is reached whenever the window has at least k time units. */
  lemma SlidingBoundIsTight(l: Limit, k: nat)
    requires On(l) && 1 <= k <= l.window
    ensures Nondecreasing(Worst(l, k))
    ensures AllowedIn(Worst(l, k), Verdicts(l, None, Worst(l, k)), k, k + k * l.window) == (k + 1) * l.max - 1
  {
    WorstNondecreasing(l, k);
    hide AllowedIn, Verdicts, After, Repeat, Bursts;
    var lo, hi := k, k + k * l.window;
    var b := Bucket(0, 1);
    var fill, rest := Repeat(l.window, l.max - 1), Bursts(l, l.window + 1, k);
    KTimes(k, l.window);
    Distribute(k, l.max);
    Distribute(k - 1, l.window);
    NonNegative(k - 1, l.window);
    assert Worst(l, k)[1..] == fill + rest;
    AllowedStep(l, None, Worst(l, k), lo, hi);
    Append(l, Some(b), fill, rest, lo, hi);
    FillsWindow(l, b, l.window, l.max - 1, lo, hi);
    BurstsAllowed(l, Bucket(0, l.max), l.window + 1, k, lo, hi);
  }

  // ---- many keys ----

  datatype Request = Request(key: string, now: int)

  function Key(command: string, ip: string): string {
    command + "|" + ip
  }

  function Lookup(rates: map<string, Bucket>, key: string): Option<Bucket> {
    if key in rates then Some(rates[key]) else None
  }

  /** One request against the shared map. */
  function Allow(l: Limit, rates: map<string, Bucket>, r: Request): (map<string, Bucket>, bool) {
    var (b, ok) := Judge(l, Lookup(rates, r.key), r.now);
    (if b.Some? then rates[r.key := b.value] else rates, ok)
  }

  function SharedVerdicts(l: Limit, rates: map<string, Bucket>, reqs: seq<Request>): (v: seq<bool>)
    ensures |v| == |reqs|
    decreases |reqs|
  {
    if reqs == [] then []
    else
      var (rates', ok) := Allow(l, rates, reqs[0]);
      [ok] + SharedVerdicts(l, rates', reqs[1..])
  }

  function TimesOf(reqs: seq<Request>, key: string): seq<int> {
    if reqs == [] then []
    else if reqs[0].key == key then [reqs[0].now] + TimesOf(reqs[1..], key)
    else TimesOf(reqs[1..], key)
  }

  function VerdictsOf(reqs: seq<Request>, v: seq<bool>, key: string): seq<bool>
    requires |v| == |reqs|
  {
    if reqs == [] then []
    else if reqs[0].key == key then [v[0]] + VerdictsOf(reqs[1..], v[1..], key)
    else VerdictsOf(reqs[1..], v[1..], key)
  }

  /** The verdicts for one key in a run over many are those of its own bucket on its own requests. */
  lemma {:induction false} KeysDoNotInterfere(l: Limit, rates: map<string, Bucket>, reqs: seq<Request>, key: string)
    ensures VerdictsOf(reqs, SharedVerdicts(l, rates, reqs), key) ==
            Verdicts(l, Lookup(rates, key), TimesOf(reqs, key))
    decreases |reqs|
  {
    if reqs != [] {
      var (rates', ok) := Allow(l, rates, reqs[0]);
      KeysDoNotInterfere(l, rates', reqs[1..], key);
      assert SharedVerdicts(l, rates, reqs)[1..] == SharedVerdicts(l, rates', reqs[1..]);
      if reqs[0].key == key {
        var times := TimesOf(reqs, key);
        assert times[1..] == TimesOf(reqs[1..], key);
        VerdictsStep(l, Lookup(rates, key), times);
      }
    }
  }

  predicate InOrder(reqs: seq<Request>) {
    forall i, j | 0 <= i < j < |reqs| :: reqs[i].now <= reqs[j].now
  }

  lemma {:induction false} TimesInOrder(reqs: seq<Request>, key: string)
    requires InOrder(reqs)
    ensures Nondecreasing(TimesOf(reqs, key))
    ensures forall i | 0 <= i < |TimesOf(reqs, key)| :: reqs != [] && reqs[0].now <= TimesOf(reqs, key)[i]
    decreases |reqs|
  {
    if reqs != [] {
      TimesInOrder(reqs[1..], key);
      assert |reqs| > 1 ==> reqs[0].now <= reqs[1].now;
    }
  }

  /** Over any run of interleaved keys, from the empty map. */
  lemma RateLimitBound(l: Limit, reqs: seq<Request>, key: string, lo: int, k: nat)
    requires On(l) && k >= 1 && InOrder(reqs)
    ensures var times, v := TimesOf(reqs, key), VerdictsOf(reqs, SharedVerdicts(l, map[], reqs), key);
            |v| == |times| && AllowedIn(times, v, lo, lo + k * l.window) <= (k + 1) * l.max - 1
  {
    TimesInOrder(reqs, key);
    KeysDoNotInterfere(l, map[], reqs, key);
    SlidingBound(l, None, TimesOf(reqs, key), lo, k);
  }

  // A bar inside the joined key can be read as the one that joins.
  lemma SplitsAtAnyBar(key: string, i: nat)
    requires i < |key| && key[i] == '|'
    ensures Key(key[..i], key[i + 1..]) == key
  {
  }

  lemma BarsOfKey(command: string, ip: string, i: nat)
    requires i < |Key(command, ip)| && Key(command, ip)[i] == '|'
    ensures i == |command| || '|' in command || '|' in ip
  {
    var key := Key(command, ip);
    if i < |command| {
      assert key[i] == command[i];
    } else if i > |command| {
      assert key[i] == ip[i - |command| - 1];
    }
  }

  /** A (command, ip) pair has its bucket to itself exactly when neither part holds a '|'. */
  lemma OwnBucketExactly(command: string, ip: string)
    ensures (forall c, a :: Key(c, a) == Key(command, ip) ==> c == command && a == ip) <==>
            '|' !in command && '|' !in ip
  {
    var key := Key(command, ip);
    if i :| 0 <= i < |command| && command[i] == '|' {
      SplitsAtAnyBar(key, i);
      assert |key[..i]| < |command|;
    } else if j :| 0 <= j < |ip| && ip[j] == '|' {
      var i := |command| + 1 + j;
      assert key[i] == '|';
      SplitsAtAnyBar(key, i);
      assert |key[..i]| > |command|;
    } else {
      forall c, a | Key(c, a) == key
        ensures c == command && a == ip
      {
        assert key[|c|] == '|';
        BarsOfKey(command, ip, |c|);
        assert key[..|c|] == c && key[|c| + 1..] == a;
        assert key[..|command|] == command && key[|command| + 1..] == ip;
      }
    }
  }

  /** Two pairs that share a bucket are one pair when neither address holds a '|', whatever the commands are. */
  lemma KeyInjective(c1: string, ip1: string, c2: string, ip2: string)
    requires '|' !in ip1 && '|' !in ip2 && Key(c1, ip1) == Key(c2, ip2)
    ensures c1 == c2 && ip1 == ip2
  {
    var key := Key(c1, ip1);
    assert key[|c1| + 1..] == ip1 && key[|c2| + 1..] == ip2;
    LastIndexByteIs(key, '|', |c1|);
    LastIndexByteIs(key, '|', |c2|);
    assert key[..|c1|] == c1 && key[..|c2|] == c2;
  }

  /** For an address with a bar there is always another pair in the bucket: split at that bar. */
  lemma BarInAddressSharesABucket(command: string, ip: string, j: nat)
    requires j < |ip| && ip[j] == '|'
    ensures var c, a := command + "|" + ip[..j], ip[j + 1..];
            Key(c, a) == Key(command, ip) && c != command && a != ip
  {
    var key, i := Key(command, ip), |command| + 1 + j;
    SplitsAtAnyBar(key, i);
    assert key[..i] == command + "|" + ip[..j];
    assert key[i + 1..] == ip[j + 1..];
    assert |ip[j + 1..]| < |ip|;
  }
}
