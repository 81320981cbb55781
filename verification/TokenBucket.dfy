/** Token bucket rate limiter.  Times are microseconds of one time base. */
module TokenBucket {
  import opened Common

  /** The five members of the bucket. */
  datatype State = State(interval: nat, maxTokens: nat, rate: nat, tokens: nat, time: int)

  /** Whole intervals between the bucket's time and t. */
  function Intervals(s: State, t: int): nat
    requires s.interval > 0 && s.time <= t
  {
    (t - s.time) / s.interval
  }

  /** What replenishing up to time t amounts to, in closed form. */
  function Replenished(s: State, t: int): State {
    if s.rate == 0 || t < s.time then s
    else if s.tokens >= s.maxTokens || s.interval == 0 then s.(tokens := Max(s.tokens, s.maxTokens), time := t)
    else
      var k := Intervals(s, t);
      if s.tokens + s.rate * k >= s.maxTokens then s.(tokens := s.maxTokens, time := t)
      else s.(tokens := s.tokens + s.rate * k, time := s.time + k * s.interval)
  }

  predicate Granted(s: State, t: int) {
    Replenished(s, t).tokens > 0
  }

  /** The bucket after a call of trigger at time t. */
  function Triggered(s: State, t: int): State {
    var r := Replenished(s, t);
    if r.tokens > 0 then r.(tokens := r.tokens - 1) else r
  }

  class TokenBucket {
    var interval: nat
    var maxTokens: nat
    var rate: nat
    var tokens: nat
    var time: int

    ghost function Abs(): State
      reads this
    {
      State(interval, maxTokens, rate, tokens, time)
    }

    constructor Full(interval: nat, maxTokens: nat, rate: nat, startTokens: nat, startTime: int)
      ensures Abs() == State(interval, maxTokens, rate, startTokens, startTime)
    {
      this.interval, this.maxTokens, this.rate := interval, maxTokens, rate;
      this.tokens, this.time := startTokens, startTime;
    }

    /** The replenish loop equals the closed form; it stops because each round either fills the bucket
        or adds rate tokens, also at interval 0. */
    method Replenish(t: int)
      requires rate > 0
      modifies this`tokens, this`time
      ensures Abs() == Replenished(old(Abs()), t)
    {
      ghost var s := Abs();
      ghost var n := 0;
      var next := time + interval;
      while tokens < maxTokens && next <= t
        invariant next == time + interval
        invariant n > 0 ==> s.tokens < maxTokens && s.time <= time <= t
        invariant time == s.time + n * interval
        invariant tokens == if n == 0 then s.tokens else Min(maxTokens, s.tokens + rate * n)
        decreases maxTokens - tokens
      {
        tokens := tokens + Min(rate, maxTokens - tokens);
        time := next;
        next := time + interval;
        n := n + 1;
      }
      LoopResult(s, t, n, Abs());
      if tokens >= maxTokens && time < t {
        time := t;
      }
    }

    method Trigger(t: int) returns (granted: bool)
      modifies this`tokens, this`time
      ensures Abs() == Triggered(old(Abs()), t)
      ensures granted == Granted(old(Abs()), t)
    {
      if rate > 0 {
        Replenish(t);
      }
      if tokens > 0 {
        tokens := tokens - 1;
        granted := true;
      } else {
        granted := false;
      }
    }
  }

  /** n rounds of the loop that ended for either of its two reasons give the closed form. */
  lemma LoopResult(s: State, t: int, n: nat, r: State)
    requires s.rate > 0
    requires r == s.(tokens := if n == 0 then s.tokens else Min(s.maxTokens, s.tokens + s.rate * n),
                     time := s.time + n * s.interval)
    requires n > 0 ==> s.tokens < s.maxTokens && s.time <= r.time <= t
    requires r.tokens >= s.maxTokens || t < r.time + s.interval
    ensures Replenished(s, t) == if r.tokens >= s.maxTokens && r.time < t then r.(time := t) else r
  {
    if n == 0 && s.interval > 0 && s.time <= t && s.tokens < s.maxTokens {
      assert Intervals(s, t) == 0;
    } else if n > 0 && s.interval > 0 {
      var k := Intervals(s, t);
      FloorBounds(t - s.time, s.interval);
      assert n <= k by { if n > k { MulMono(k + 1, n, s.interval); } }
      MulMono(n, k, s.rate);
      if r.tokens < s.maxTokens {
        assert n == k by { if n < k { MulMono(n + 1, k, s.interval); } }
      }
    }
  }

  // ------------------------------------------------------------------ runs

  /** The bucket before call n of a run with fixed settings and no manual replenish. */
  function Bucket(s: State, times: seq<int>, n: nat): (r: State)
    requires n <= |times|
    ensures r.interval == s.interval && r.maxTokens == s.maxTokens && r.rate == s.rate
  {
    if n == 0 then s else Triggered(Bucket(s, times, n - 1), times[n - 1])
  }

  /** Grants among calls i .. n - 1. */
  function Grants(s: State, times: seq<int>, i: nat, n: nat): nat
    requires i <= n <= |times|
  {
    if i == n then 0
    else Grants(s, times, i, n - 1) + if Granted(Bucket(s, times, n - 1), times[n - 1]) then 1 else 0
  }

  /** The latest time among the given one and those of calls i .. n - 1. */
  function Latest(t: int, times: seq<int>, i: nat, n: nat): int
    requires i <= n <= |times|
  {
    if i == n then t else Max(Latest(t, times, i, n - 1), times[n - 1])
  }

  /** One replenishment adds at most rate tokens per whole interval its time advances. */
  lemma ReplenishPaysInTime(s: State, t: int) returns (k: nat)
    requires s.interval > 0
    ensures Replenished(s, t).tokens <= s.tokens + s.rate * k
    ensures s.time + k * s.interval <= Replenished(s, t).time <= Max(s.time, t)
  {
    if s.rate == 0 || t < s.time || s.tokens >= s.maxTokens {
      k := 0;
    } else {
      k := Intervals(s, t);
      FloorBounds(t - s.time, s.interval);
    }
  }

  lemma FloorAdds(a: int, k: nat, b: int, c: int)
    requires c > 0 && a + k * c <= b
    ensures a / c + k <= b / c
  {
    FloorBounds(a, c);
    FloorBounds(b, c);
    if b / c + 1 <= a / c + k {
      MulMono(b / c + 1, a / c + k, c);
    }
  }

  /** Tokens and grants together are paid for by whole intervals of bucket time, from call i on. */
  lemma {:induction false} TokensPaidByTime(s: State, times: seq<int>, i: nat, n: nat)
    requires i <= n <= |times| && s.interval > 0
    ensures var b, e := Bucket(s, times, i), Bucket(s, times, n);
      && b.time <= e.time <= Latest(b.time, times, i, n)
      && Grants(s, times, i, n) + e.tokens <= b.tokens + s.rate * ((e.time - b.time) / s.interval)
  {
    hide Replenished;
    if i < n {
      TokensPaidByTime(s, times, i, n - 1);
      var b, e := Bucket(s, times, i), Bucket(s, times, n - 1);
      var r := Replenished(e, times[n - 1]);
      var k := ReplenishPaysInTime(e, times[n - 1]);
      var q, q' := (e.time - b.time) / s.interval, (r.time - b.time) / s.interval;
      FloorAdds(e.time - b.time, k, r.time - b.time, s.interval);
      PayStep(Grants(s, times, i, n - 1) + e.tokens, b.tokens, r.tokens - e.tokens, s.rate, q, k, q');
    }
  }

  lemma PayStep(spent: int, start: int, added: int, rate: nat, q: int, k: int, q': int)
    requires spent <= start + rate * q && added <= rate * k && q + k <= q'
    ensures spent + added <= start + rate * q'
  {
    MulMono(q + k, q', rate);
    assert rate * (q + k) == rate * q + rate * k;
  }

  /** Whole runs, in any order of times: grants so far and tokens left never exceed the start tokens
      and rate per whole interval up to the latest time seen. */
  lemma {:induction false} WholeRunBound(s: State, times: seq<int>, n: nat)
    requires n <= |times| && s.interval > 0
    ensures Grants(s, times, 0, n) + Bucket(s, times, n).tokens
         <= s.tokens + s.rate * ((Latest(s.time, times, 0, n) - s.time) / s.interval)
  {
    TokensPaidByTime(s, times, 0, n);
    var e, latest := Bucket(s, times, n), Latest(s.time, times, 0, n);
    assert Bucket(s, times, 0) == s;
    hide Bucket, Grants, Latest;
    FloorMono(e.time - s.time, latest - s.time, s.interval);
    PayStep(Grants(s, times, 0, n) + e.tokens, s.tokens, 0, s.rate,
            (e.time - s.time) / s.interval, 0, (latest - s.time) / s.interval);
  }

  /** The same at the time of the last call, when times do not go back and have reached the start time. */
  lemma {:induction false} OrderedRunBound(s: State, times: seq<int>, n: nat)
    requires 0 < n <= |times| && s.interval > 0 && s.time <= times[n - 1]
    requires forall i, j :: 0 <= i <= j < n ==> times[i] <= times[j]
    ensures Grants(s, times, 0, n) + Bucket(s, times, n).tokens
         <= s.tokens + s.rate * ((times[n - 1] - s.time) / s.interval)
  {
    WholeRunBound(s, times, n);
    LatestIsLast(s.time, times, 0, n);
  }

  lemma {:induction false} LatestIsLast(t: int, times: seq<int>, i: nat, n: nat)
    requires i < n <= |times|
    requires forall j, k :: i <= j <= k < n ==> times[j] <= times[k]
    ensures Latest(t, times, i, n) == Max(t, times[n - 1])
  {
    if i + 1 < n {
      LatestIsLast(t, times, i, n - 1);
      assert times[n - 2] <= times[n - 1];
    } else {
      assert Latest(t, times, i, i) == t;
    }
  }

  /** After replenishing at t the bucket is full with its time at t or later, or its time is less than
      one interval behind t. */
  lemma ReplenishedIsRecent(s: State, t: int)
    requires s.interval > 0 && s.rate > 0
    ensures var r := Replenished(s, t);
      && r.tokens <= Max(s.tokens, s.maxTokens)
      && (t <= r.time || (t < r.time + s.interval && r.tokens < s.maxTokens))
  {
    if s.time <= t && s.tokens < s.maxTokens {
      FloorBounds(t - s.time, s.interval);
    }
  }

  /** Replenishing twice at the same time is replenishing once. */
  lemma ReplenishTwice(s: State, t: int)
    ensures Replenished(Replenished(s, t), t) == Replenished(s, t)
  {
    var r := Replenished(s, t);
    if s.rate > 0 && s.interval > 0 && s.time <= t && r.tokens < s.maxTokens {
      FloorBounds(t - s.time, s.interval);
      assert Intervals(r, t) == 0;
    }
  }

  /** Shift the window so that it starts with an already replenished bucket. */
  lemma {:induction false} StartReplenished(s: State, times: seq<int>, n: nat)
    requires 0 < n <= |times|
    ensures var r := Replenished(s, times[0]);
      Bucket(r, times, n) == Bucket(s, times, n) && Grants(r, times, 0, n) == Grants(s, times, 0, n)
  {
    ReplenishTwice(s, times[0]);
    if n > 1 {
      StartReplenished(s, times, n - 1);
    } else {
      var r := Replenished(s, times[0]);
      assert Bucket(s, times, 0) == s && Bucket(r, times, 0) == r;
      assert Grants(s, times, 0, 0) == 0 && Grants(r, times, 0, 0) == 0;
    }
  }

  lemma {:induction false} DropCalls(s: State, times: seq<int>, i: nat, n: nat)
    requires i <= n <= |times|
    ensures Bucket(s, times, n) == Bucket(Bucket(s, times, i), times[i..], n - i)
    ensures Grants(s, times, i, n) == Grants(Bucket(s, times, i), times[i..], 0, n - i)
  {
    if i < n {
      DropCalls(s, times, i, n - 1);
    }
  }

  /** A window that starts with its first call: at most one bucketful and the intervals it touches. */
  lemma {:induction false} FirstWindowBound(s: State, times: seq<int>, n: nat)
    requires 0 < n <= |times| && s.interval > 0 && s.rate > 0
    requires forall i, j :: 0 <= i <= j < n ==> times[i] <= times[j]
    ensures Grants(s, times, 0, n)
         <= Max(s.tokens, s.maxTokens) + s.rate * CeilDiv(times[n - 1] - times[0], s.interval)
  {
    var r, w := Replenished(s, times[0]), times[n - 1] - times[0];
    assert w >= 0 by { assert times[0] <= times[n - 1]; }
    ReplenishedIsRecent(s, times[0]);
    StartReplenished(s, times, n);
    WholeRunBound(r, times, n);
    LatestIsLast(r.time, times, 0, n);
    var x := Max(r.time, times[n - 1]) - r.time;
    assert x <= w + s.interval - 1;
    FloorMono(x, w + s.interval - 1, s.interval);
    MulMono(x / s.interval, CeilDiv(w, s.interval), s.rate);
  }

  /** Any window of calls i .. j of any run whose times do not go back inside the window: no more grants
      than one bucketful (or what was left over from a larger start) and rate per interval touched. */
  lemma {:induction false} WindowBound(s: State, times: seq<int>, i: nat, j: nat)
    requires i <= j < |times| && s.interval > 0 && s.rate > 0
    requires forall k, l :: i <= k <= l <= j ==> times[k] <= times[l]
    ensures times[i] <= times[j]
    ensures Grants(s, times, i, j + 1)
         <= Max(s.tokens, s.maxTokens) + s.rate * CeilDiv(times[j] - times[i], s.interval)
  {
    hide Bucket, Grants, CeilDiv;
    var b := Bucket(s, times, i);
    TokensNeverGrowPast(s, times, i);
    DropCalls(s, times, i, j + 1);
    FirstWindowBound(b, times[i..], j + 1 - i);
  }

  lemma {:induction false} TokensNeverGrowPast(s: State, times: seq<int>, n: nat)
    requires n <= |times|
    ensures Bucket(s, times, n).tokens <= Max(s.tokens, s.maxTokens)
  {
    if n > 0 {
      TokensNeverGrowPast(s, times, n - 1);
    }
  }

  // ------------------------------------------------------------------ nothing is withheld

  lemma ReplenishTakesNothing(s: State, t: int)
    ensures Replenished(s, t).tokens >= s.tokens
    ensures s.rate == 0 ==> Replenished(s, t) == s
  {
    if s.rate > 0 && s.interval > 0 && s.time <= t {
      MulMono(0, s.rate, Intervals(s, t));
    }
  }

  /** Tokens leave the bucket only by grants, at any settings and for times in any order. */
  lemma {:induction false} TokensLeaveByGrants(s: State, times: seq<int>, i: nat, n: nat)
    requires i <= n <= |times|
    ensures Grants(s, times, i, n) + Bucket(s, times, n).tokens >= Bucket(s, times, i).tokens
    ensures s.rate == 0 ==> Grants(s, times, i, n) + Bucket(s, times, n).tokens == Bucket(s, times, i).tokens
  {
    hide Replenished;
    if i < n {
      TokensLeaveByGrants(s, times, i, n - 1);
      ReplenishTakesNothing(Bucket(s, times, n - 1), times[n - 1]);
    }
  }

  /** Calls i .. i + m - 1 all come at time t. */
  predicate Burst(times: seq<int>, i: nat, m: nat, t: int)
    requires i + m <= |times|
  {
    forall k :: i <= k < i + m ==> times[k] == t
  }

  /** Of the calls of a burst exactly the first are granted, as many as there are tokens once the bucket is
      replenished up to its time. */
  lemma {:induction false} BurstGrantsFirst(s: State, times: seq<int>, i: nat, m: nat, t: int)
    requires i + m <= |times| && Burst(times, i, m, t) && (s.interval > 0 || s.rate == 0)
    ensures var b := Replenished(Bucket(s, times, i), t);
      && (m > 0 ==> Bucket(s, times, i + m) == b.(tokens := Max(0, b.tokens - m)))
      && Grants(s, times, i, i + m) == Min(m, b.tokens)
      && forall k :: i <= k < i + m ==> (Granted(Bucket(s, times, k), t) <==> k - i < b.tokens)
  {
    if m > 0 {
      BurstGrantsFirst(s, times, i, m - 1, t);
      var b := Replenished(Bucket(s, times, i), t);
      SettledAt(Bucket(s, times, i), t, m - 1);
    }
  }

  /** After tokens were taken at time t there is nothing to replenish at t. */
  lemma SettledAt(s: State, t: int, m: nat)
    requires s.interval > 0 || s.rate == 0
    ensures var b := Replenished(s, t);
      Replenished(if m > 0 then b.(tokens := Max(0, b.tokens - m)) else s, t)
      == if m > 0 then b.(tokens := Max(0, b.tokens - m)) else b
  {
    var b := Replenished(s, t);
    var c := b.(tokens := Max(0, b.tokens - m));
    if m > 0 && s.rate > 0 && s.time <= t && s.interval > 0 {
      FloorBounds(t - s.time, s.interval);
      if c.tokens < c.maxTokens {
        assert Intervals(c, t) == 0;
      }
    }
  }

  /** With interval 0 nothing is limited: from the bucket's time on every call is granted, if a token can be
      held at all. */
  lemma {:induction false} ZeroIntervalGrantsAll(s: State, times: seq<int>, i: nat, n: nat)
    requires i <= n <= |times| && s.interval == 0 && s.rate > 0 && s.maxTokens > 0
    requires forall k :: i <= k < n ==> Bucket(s, times, i).time <= times[k]
    requires forall k, l :: i <= k <= l < n ==> times[k] <= times[l]
    ensures Grants(s, times, i, n) == n - i
    ensures n > i ==> Bucket(s, times, n).time == times[n - 1]
  {
    if i < n {
      ZeroIntervalGrantsAll(s, times, i, n - 1);
      if n - 1 > i {
        assert times[n - 2] <= times[n - 1];
      }
    }
  }

  /** The bucket is full again exactly when the intervals since its time bring all that is missing. */
  lemma FullExactly(s: State, t: int)
    requires s.rate > 0 && s.tokens < s.maxTokens
    ensures Replenished(s, t).tokens <= s.maxTokens
    ensures Replenished(s, t).tokens == s.maxTokens <==>
      t >= s.time + s.interval * CeilDiv(s.maxTokens - s.tokens, s.rate)
  {
    var missing := s.maxTokens - s.tokens;
    var need := CeilDiv(missing, s.rate);
    FloorBounds(missing + s.rate - 1, s.rate);
    if s.interval > 0 && s.time <= t {
      var k := Intervals(s, t);
      FloorBounds(t - s.time, s.interval);
      if k >= need {
        MulMono(need, k, s.rate);
        MulMono(need, k, s.interval);
      } else {
        MulMono(k + 1, need, s.rate);
        MulMono(k + 1, need, s.interval);
        assert (k + 1) * s.rate == k * s.rate + s.rate;
      }
    } else if s.time > t {
      MulMono(0, need, s.interval);
    }
  }

  /** No call among i .. n - 1 finds the bucket full or comes before its time. */
  ghost predicate BelowFull(s: State, times: seq<int>, i: nat, n: nat)
    requires i <= n <= |times|
  {
    forall k :: i <= k < n ==>
      Bucket(s, times, k).time <= times[k] && Replenished(Bucket(s, times, k), times[k]).tokens < s.maxTokens
  }

  /** As long as the bucket does not fill up, the bound of TokensPaidByTime is met exactly: every whole interval
      up to the last call has brought its tokens. */
  lemma {:induction false} NothingWithheld(s: State, times: seq<int>, i: nat, n: nat)
    requires i < n <= |times| && s.interval > 0 && s.rate > 0 && BelowFull(s, times, i, n)
    ensures var b, e := Bucket(s, times, i), Bucket(s, times, n);
      && b.time <= times[n - 1]
      && Grants(s, times, i, n) + e.tokens == b.tokens + s.rate * ((times[n - 1] - b.time) / s.interval)
  {
    hide Replenished, Bucket, Grants;
    var b, e := Bucket(s, times, i), Bucket(s, times, n);
    var q := TokensPaidExactly(s, times, i, n);
    OneMoreTime(q, s.interval);
    QuotientUnique(times[n - 1] - b.time, s.interval, q);
  }

  lemma {:induction false} TokensPaidExactly(s: State, times: seq<int>, i: nat, n: nat) returns (q: nat)
    requires i < n <= |times| && s.interval > 0 && s.rate > 0 && BelowFull(s, times, i, n)
    ensures var b, e := Bucket(s, times, i), Bucket(s, times, n);
      && e.time == b.time + q * s.interval && e.time <= times[n - 1] < e.time + s.interval
      && Grants(s, times, i, n) + e.tokens == b.tokens + q * s.rate
  {
    var k := OneCallExactly(s, times, i, n);
    if n - 1 > i {
      assert BelowFull(s, times, i, n - 1);
      var q0 := TokensPaidExactly(s, times, i, n - 1);
      q := q0 + k;
      hide *;
      Distribute(q0, k, s.interval);
      Distribute(q0, k, s.rate);
    } else {
      assert Grants(s, times, i, i) == 0;
      q := k;
    }
  }

  lemma Distribute(q: nat, k: nat, c: nat)
    ensures (q + k) * c == q * c + k * c
  {
  }

  lemma OneCallExactly(s: State, times: seq<int>, i: nat, n: nat) returns (k: nat)
    requires i < n <= |times| && s.interval > 0 && s.rate > 0 && BelowFull(s, times, i, n)
    ensures var c, e := Bucket(s, times, n - 1), Bucket(s, times, n);
      && e.time == c.time + k * s.interval && e.time <= times[n - 1] < e.time + s.interval
      && Grants(s, times, i, n) + e.tokens == Grants(s, times, i, n - 1) + c.tokens + k * s.rate
  {
    k := ReplenishExactly(Bucket(s, times, n - 1), times[n - 1]);
    hide Replenished;
  }

  lemma ReplenishExactly(s: State, t: int) returns (k: nat)
    requires s.interval > 0 && s.rate > 0 && s.time <= t && Replenished(s, t).tokens < s.maxTokens
    ensures Replenished(s, t) == s.(tokens := s.tokens + k * s.rate, time := s.time + k * s.interval)
    ensures Replenished(s, t).time <= t < Replenished(s, t).time + s.interval
  {
    k := Intervals(s, t);
    FloorBounds(t - s.time, s.interval);
    OneMoreTime(k, s.interval);
  }

  // ------------------------------------------------------------------ times that go back

  /** Nothing is left to replenish before time t. */
  predicate Settled(s: State, t: int) {
    || s.rate == 0
    || t <= s.time
    || (t < s.time + s.interval && s.tokens < s.maxTokens)
  }

  /** A call settles the bucket up to its time. */
  lemma TriggerSettles(s: State, t: int)
    ensures Settled(Triggered(s, t), t)
  {
    if s.rate > 0 && s.interval > 0 {
      ReplenishedIsRecent(s, t);
    }
  }

  /** And no call unsettles it. */
  lemma StaysSettled(s: State, t: int, u: int)
    requires Settled(s, t)
    ensures Settled(Triggered(s, u), t)
  {
    if s.rate > 0 && s.interval > 0 && s.time <= u && s.tokens < s.maxTokens {
      var k := Intervals(s, u);
      FloorBounds(u - s.time, s.interval);
      if k > 0 {
        MulMono(1, k, s.interval);
      }
    }
  }

  lemma NothingToReplenish(s: State, t: int, u: int)
    requires Settled(s, t) && u < t
    ensures Replenished(s, u) == s
  {
    if s.rate > 0 && s.time <= u {
      FloorBounds(u - s.time, s.interval);
      if Intervals(s, u) > 0 {
        MulMono(1, Intervals(s, u), s.interval);
      }
    }
  }

  lemma {:induction false} SettledSince(s: State, times: seq<int>, m: nat, n: nat)
    requires m < n <= |times|
    ensures Settled(Bucket(s, times, n), times[m])
  {
    hide Triggered, Settled;
    if n == m + 1 {
      TriggerSettles(Bucket(s, times, m), times[m]);
    } else {
      SettledSince(s, times, m, n - 1);
      StaysSettled(Bucket(s, times, n - 1), times[m], times[n - 1]);
    }
  }

  /** The header promises false whenever time went back.  In every run, a call at a time before that of any
      earlier call is granted exactly when a token is left; it adds none and does not move the bucket's time. */
  lemma {:induction false} BackwardTimeGrantsExactlyWithTokens(s: State, times: seq<int>, m: nat, n: nat)
    requires m < n < |times| && times[n] < times[m]
    ensures Granted(Bucket(s, times, n), times[n]) <==> Bucket(s, times, n).tokens > 0
    ensures var b := Bucket(s, times, n);
      Bucket(s, times, n + 1) == if b.tokens > 0 then b.(tokens := b.tokens - 1) else b
  {
    hide Replenished, Settled;
    SettledSince(s, times, m, n);
    NothingToReplenish(Bucket(s, times, n), times[m], times[n]);
  }

  /** A bucket of three tokens grants a call at time 900 and then one at time 500. */
  lemma BackwardTimeGranted()
    ensures exists s: State, t: int, u: int :: u < t && Granted(s, t) && Granted(Triggered(s, t), u)
  {
    var s := State(1000, 5, 1, 3, 0);
    assert Intervals(s, 900) == 0;
    assert Granted(s, 900) && Triggered(s, 900) == s.(tokens := 2);
    assert Intervals(s.(tokens := 2), 500) == 0;
    assert Granted(Triggered(s, 900), 500);
  }
}
