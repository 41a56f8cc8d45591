/** The keyed token-bucket limiter, over real arithmetic. */
module Limiter {

  datatype Bucket = Bucket(tokens: real, last: real)

  /** What is refilled between two instants. */
  function Gain(rate: real, from: real, to: real): real {
    (to - from) * rate
  }

  lemma {:induction false} GainSplits(rate: real, a: real, b: real, c: real)
    ensures Gain(rate, a, c) == Gain(rate, a, b) + Gain(rate, b, c) && Gain(rate, a, a) == 0.0
  {
  }

  lemma {:induction false} GainIsEnough(rate: real, from: real, to: real)
    requires rate > 0.0 && from <= to
    ensures Gain(rate, from, to) >= 0.0
    ensures to >= from + 1.0 / rate ==> Gain(rate, from, to) >= 1.0 && from < to
  {
    assert (1.0 / rate) * rate == 1.0 && 1.0 / rate > 0.0;
    if to >= from + 1.0 / rate {
      assert (to - from - 1.0 / rate) * rate >= 0.0;
    }
  }

  /** One request against a bucket: refill for the time passed, then take a token. */
  function Step(rate: real, burst: real, b: Bucket, now: real): (Bucket, bool) {
    var filled :=
      if now > b.last then
        var t := b.tokens + Gain(rate, b.last, now);
        Bucket(if t > burst then burst else t, now)
      else b;
    if filled.tokens < 1.0 then (filled, false) else (Bucket(filled.tokens - 1.0, filled.last), true)
  }

  class Limiter {
    const rate: real
    const burst: real
    var buckets: map<string, Bucket>

    ghost predicate Valid()
      reads this
    {
      rate > 0.0 && burst >= 1.0 && forall k :: k in buckets ==> 0.0 <= buckets[k].tokens <= burst
    }

    /** Non-positive parameters are replaced by one token a minute and a burst of one. */
    constructor (r: real, b: int)
      ensures Valid() && buckets == map[]
      ensures rate == (if r <= 0.0 then 1.0 / 60.0 else r) && burst == (if b < 1 then 1.0 else b as real)
    {
      rate := if r <= 0.0 then 1.0 / 60.0 else r;
      burst := if b < 1 then 1.0 else b as real;
      buckets := map[];
    }

    /** A fresh key starts full; tokens stay within [0, burst]; no other key is touched. */
    method Allow(key: string, now: real) returns (ok: bool)
      requires Valid()
      modifies this
      ensures Valid()
      ensures var b := if key in old(buckets) then old(buckets)[key] else Bucket(burst, now);
              && buckets == old(buckets)[key := Step(rate, burst, b, now).0]
              && ok == Step(rate, burst, b, now).1
      ensures key in old(buckets) && now >= old(buckets)[key].last + 1.0 / rate ==> ok
    {
      var tokens, last := burst, now;
      if key in buckets {
        tokens, last := buckets[key].tokens, buckets[key].last;
      }
      if now >= last {
        GainIsEnough(rate, last, now);
      }
      if now > last {
        tokens := tokens + Gain(rate, last, now);
        if tokens > burst {
          tokens := burst;
        }
        last := now;
      }
      ok := tokens >= 1.0;
      if ok {
        tokens := tokens - 1.0;
      }
      buckets := buckets[key := Bucket(tokens, last)];
    }
  }

  /** The bucket of one key after its first `n` requests, and how many of the requests
      from `i` on were allowed. */
  ghost function After(rate: real, burst: real, times: seq<real>, n: nat): Bucket
    requires 0 < n <= |times|
  {
    if n == 1 then Step(rate, burst, Bucket(burst, times[0]), times[0]).0
    else Step(rate, burst, After(rate, burst, times, n - 1), times[n - 1]).0
  }

  ghost predicate AllowedAt(rate: real, burst: real, times: seq<real>, n: nat)
    requires n < |times|
  {
    if n == 0 then Step(rate, burst, Bucket(burst, times[0]), times[0]).1
    else Step(rate, burst, After(rate, burst, times, n), times[n]).1
  }

  ghost function Allowed(rate: real, burst: real, times: seq<real>, i: nat, n: nat): nat
    requires i <= n <= |times|
    decreases n
  {
    if n == i then 0
    else Allowed(rate, burst, times, i, n - 1) + (if AllowedAt(rate, burst, times, n - 1) then 1 else 0)
  }

  ghost predicate Monotone(times: seq<real>) {
    forall i, j :: 0 <= i < j < |times| ==> times[i] <= times[j]
  }

  lemma {:induction false} StepBounds(rate: real, burst: real, b: Bucket, now: real)
    requires rate > 0.0 && burst >= 1.0 && 0.0 <= b.tokens <= burst && b.last <= now
    ensures var r := Step(rate, burst, b, now);
            && 0.0 <= r.0.tokens <= burst && r.0.last == now
            && r.0.tokens + (if r.1 then 1.0 else 0.0) <= b.tokens + Gain(rate, b.last, now)
            && r.0.tokens + (if r.1 then 1.0 else 0.0) <= burst
  {
    GainIsEnough(rate, b.last, now);
    GainSplits(rate, now, now, now);
  }

  lemma {:induction false} AfterBounds(rate: real, burst: real, times: seq<real>, n: nat)
    requires rate > 0.0 && burst >= 1.0 && Monotone(times) && 0 < n <= |times|
    ensures 0.0 <= After(rate, burst, times, n).tokens <= burst && After(rate, burst, times, n).last == times[n - 1]
    decreases n
  {
    if n > 1 {
      AfterBounds(rate, burst, times, n - 1);
      StepBounds(rate, burst, After(rate, burst, times, n - 1), times[n - 1]);
    }
  }

  lemma {:induction false} WindowStep(rate: real, burst: real, times: seq<real>, i: nat, n: nat)
    requires rate > 0.0 && burst >= 1.0 && Monotone(times) && i < n <= |times|
    ensures Allowed(rate, burst, times, i, n) as real + After(rate, burst, times, n).tokens <= burst +
        Gain(rate, times[i], times[n - 1])
    decreases n
  {
    if n == 1 {
      GainSplits(rate, times[0], times[0], times[0]);
      assert Allowed(rate, burst, times, 0, 0) == 0;
    } else {
      AfterBounds(rate, burst, times, n - 1);
      StepBounds(rate, burst, After(rate, burst, times, n - 1), times[n - 1]);
      if n == i + 1 {
        GainSplits(rate, times[i], times[i], times[i]);
        assert Allowed(rate, burst, times, i, i) == 0;
      } else {
        WindowStep(rate, burst, times, i, n - 1);
        GainSplits(rate, times[i], times[n - 2], times[n - 1]);
      }
    }
  }

  /** In every run with a monotone clock, the requests allowed in any window are at most
      the burst plus what the rate refills in its length. */
  lemma {:induction false} WindowBound(rate: real, burst: real, times: seq<real>, i: nat, j: nat)
    requires rate > 0.0 && burst >= 1.0 && Monotone(times) && i <= j < |times|
    ensures Allowed(rate, burst, times, i, j + 1) as real <= burst + (times[j] - times[i]) * rate
  {
    WindowStep(rate, burst, times, i, j + 1);
    AfterBounds(rate, burst, times, j + 1);
  }

  /** A fresh key has its whole burst: after `n` requests at least `burst - n` tokens are
      left, so its first `burst` requests are all allowed. */
  lemma {:induction false} BurstIsAllowed(rate: real, burst: real, times: seq<real>, n: nat)
    requires rate > 0.0 && burst >= 1.0 && Monotone(times) && n < |times| && (n + 1) as real <= burst
    ensures AllowedAt(rate, burst, times, n)
    ensures After(rate, burst, times, n + 1).tokens >= burst - (n + 1) as real
    decreases n
  {
    if n > 0 {
      BurstIsAllowed(rate, burst, times, n - 1);
      AfterBounds(rate, burst, times, n);
      GainIsEnough(rate, times[n - 1], times[n]);
    }
  }

  /** What a request finds in the bucket. */
  ghost function Filled(rate: real, burst: real, times: seq<real>, n: nat): real
    requires n < |times|
  {
    if n == 0 then burst else
    var b := After(rate, burst, times, n);
    var t := b.tokens + Gain(rate, b.last, times[n]);
    if t > burst then burst else t
  }

  lemma {:induction false} FilledIs(rate: real, burst: real, times: seq<real>, n: nat)
    requires rate > 0.0 && burst >= 1.0 && Monotone(times) && n < |times|
    ensures var f := Filled(rate, burst, times, n);
            && (AllowedAt(rate, burst, times, n) <==> f >= 1.0)
            && After(rate, burst, times, n + 1) == Bucket(if f >= 1.0 then f - 1.0 else f, times[n])
  {
    if n > 0 {
      AfterBounds(rate, burst, times, n);
      GainSplits(rate, times[n], times[n], times[n]);
    }
  }

  /** Nothing is lost: what a request finds is the burst plus all that was refilled, less
      what was allowed, since the bucket was last full. */
  lemma {:induction false} FilledSinceFull(rate: real, burst: real, times: seq<real>, n: nat) returns (i: nat)
    requires rate > 0.0 && burst >= 1.0 && Monotone(times) && n < |times|
    ensures i <= n
    ensures Filled(rate, burst, times, n) ==
            burst + Gain(rate, times[i], times[n]) - Allowed(rate, burst, times, i, n) as real
    decreases n
  {
    if n == 0 || Filled(rate, burst, times, n) == burst {
      i := n;
      GainSplits(rate, times[n], times[n], times[n]);
      assert Allowed(rate, burst, times, n, n) == 0;
    } else {
      i := FilledSinceFull(rate, burst, times, n - 1);
      FilledIs(rate, burst, times, n - 1);
      GainSplits(rate, times[i], times[n - 1], times[n]);
      assert Allowed(rate, burst, times, i, n) ==
             Allowed(rate, burst, times, i, n - 1) + if AllowedAt(rate, burst, times, n - 1) then 1 else 0;
    }
  }

  /** A refusal means that, since some earlier request, less than one token is left of
      the burst and the refill. */
  lemma {:induction false} RefusalMeansSpent(rate: real, burst: real, times: seq<real>, n: nat) returns (i: nat)
    requires rate > 0.0 && burst >= 1.0 && Monotone(times) && n < |times| && !AllowedAt(rate, burst, times, n)
    ensures i <= n
    ensures burst + (times[n] - times[i]) * rate - Allowed(rate, burst, times, i, n) as real < 1.0
  {
    i := FilledSinceFull(rate, burst, times, n);
    FilledIs(rate, burst, times, n);
  }

  /** A caller that waits a full refill between requests is never refused. */
  lemma {:induction false} PatientIsAllowed(rate: real, burst: real, times: seq<real>, n: nat)
    requires rate > 0.0 && burst >= 1.0 && Monotone(times) && 0 < n < |times| && times[n] >= times[n - 1] + 1.0 / rate
    ensures AllowedAt(rate, burst, times, n)
  {
    AfterBounds(rate, burst, times, n);
    GainIsEnough(rate, times[n - 1], times[n]);
  }

  /** The times at which a key asks, and the answers it gets. */
  ghost function TimesOf(requests: seq<(string, real)>, key: string): seq<real> {
    if requests == [] then []
    else if requests[|requests| - 1].0 == key then
      TimesOf(requests[..|requests| - 1], key) + [requests[|requests| - 1].1]
    else TimesOf(requests[..|requests| - 1], key)
  }

  ghost function AnswersTo(requests: seq<(string, real)>, answers: seq<bool>, key: string): seq<bool>
    requires |answers| == |requests|
  {
    if requests == [] then []
    else
      var n := |requests| - 1;
      var front := AnswersTo(requests[..n], answers[..n], key);
      if requests[n].0 == key then front + [answers[n]] else front
  }

  ghost function Verdicts(rate: real, burst: real, times: seq<real>): (v: seq<bool>)
    ensures |v| == |times|
  {
    seq(|times|, n requires 0 <= n < |times| => AllowedAt(rate, burst, times, n))
  }

  lemma {:induction false} AfterPrefix(rate: real, burst: real, times: seq<real>, t: real, n: nat)
    requires 0 < n <= |times|
    ensures After(rate, burst, times + [t], n) == After(rate, burst, times, n)
    decreases n
  {
    if n > 1 {
      AfterPrefix(rate, burst, times, t, n - 1);
    }
  }

  lemma {:induction false} VerdictsGrow(rate: real, burst: real, times: seq<real>, t: real)
    ensures Verdicts(rate, burst, times + [t]) ==
            Verdicts(rate, burst, times) + [AllowedAt(rate, burst, times + [t], |times|)]
  {
    var more := times + [t];
    forall n | 0 <= n < |times| ensures AllowedAt(rate, burst, more, n) == AllowedAt(rate, burst, times, n) {
      if n > 0 {
        AfterPrefix(rate, burst, times, t, n);
      }
    }
  }

  type Buckets = map<string, Bucket>

  /** A key's bucket and answers are those of its own requests alone. */
  ghost predicate Alone(
    rate: real, burst: real, buckets: Buckets, requests: seq<(string, real)>, answers: seq<bool>, key: string)
    requires |answers| == |requests|
  {
    var times := TimesOf(requests, key);
    && (if times == [] then key !in buckets else key in buckets && buckets[key] == After(rate, burst, times, |times|))
    && AnswersTo(requests, answers, key) == Verdicts(rate, burst, times)
  }

  ghost function Found(burst: real, buckets: Buckets, key: string, t: real): Bucket {
    if key in buckets then buckets[key] else Bucket(burst, t)
  }

  lemma {:induction false} AloneStill(
    rate: real, burst: real, buckets: Buckets, requests: seq<(string, real)>, answers: seq<bool>, key: string,
    t: real, k: string)
    requires |answers| == |requests| && Alone(rate, burst, buckets, requests, answers, k)
    ensures var r := Step(rate, burst, Found(burst, buckets, key, t), t);
            Alone(rate, burst, buckets[key := r.0], requests + [(key, t)], answers + [r.1], k)
  {
    var r := Step(rate, burst, Found(burst, buckets, key, t), t);
    var all, given := requests + [(key, t)], answers + [r.1];
    assert all[..|requests|] == requests && given[..|answers|] == answers;
    if k == key {
      var times := TimesOf(requests, key);
      NextVerdict(rate, burst, times, t, Found(burst, buckets, key, t));
      VerdictsGrow(rate, burst, times, t);
    }
  }

  lemma {:induction false} NextVerdict(rate: real, burst: real, times: seq<real>, t: real, b: Bucket)
    requires b == if times == [] then Bucket(burst, t) else After(rate, burst, times, |times|)
    ensures Step(rate, burst, b, t).1 == AllowedAt(rate, burst, times + [t], |times|)
    ensures Step(rate, burst, b, t).0 == After(rate, burst, times + [t], |times| + 1)
  {
    if times != [] {
      AfterPrefix(rate, burst, times, t, |times|);
    }
  }

  /** Requests for any keys in any interleaving: without eviction, each key is answered as
      if it were alone. */
  method AllowAll(l: Limiter, requests: seq<(string, real)>) returns (answers: seq<bool>)
    requires l.Valid() && l.buckets == map[]
    modifies l
    ensures l.Valid() && |answers| == |requests|
    ensures forall key :: AnswersTo(requests, answers, key) == Verdicts(l.rate, l.burst, TimesOf(requests, key))
  {
    answers := [];
    for i := 0 to |requests|
      invariant l.Valid() && |answers| == i
      invariant forall k {:trigger Alone(l.rate, l.burst, l.buckets, requests[..i], answers, k)} ::
                  Alone(l.rate, l.burst, l.buckets, requests[..i], answers, k)
    {
      var key, t := requests[i].0, requests[i].1;
      ghost var before, given := l.buckets, answers;
      ghost var r := Step(l.rate, l.burst, Found(l.burst, before, key, t), t);
      ghost var buckets, seen, replies := before[key := r.0], requests[..i] + [(key, t)], given + [r.1];
      forall k ensures Alone(l.rate, l.burst, buckets, seen, replies, k) {
        assert Alone(l.rate, l.burst, before, requests[..i], given, k);
        AloneStill(l.rate, l.burst, before, requests[..i], given, key, t, k);
      }
      assert requests[..i + 1] == seen;
      var ok := l.Allow(key, t);
      answers := answers + [ok];
      assert l.buckets == buckets && answers == replies;
    }
    assert requests[..|requests|] == requests;
    forall key ensures AnswersTo(requests, answers, key) == Verdicts(l.rate, l.burst, TimesOf(requests, key)) {
      assert Alone(l.rate, l.burst, l.buckets, requests, answers, key);
    }
  }
}
