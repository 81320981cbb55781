/** Rate limiter that grants every so many calls, or when enough time has passed, or on either.
    Times are microseconds of one time base; the time cycle is given in seconds. */
module RateLimiter {
  import opened Common

  const MICROS: nat := 1_000_000

  datatype State = State(counterCycle: nat, timeCycle: nat, counter: nat, time: int, neverTriggered: bool)

  class RateLimiter {
    var counterCycle: nat
    var timeCycle: nat
    var counter: nat
    var time: int
    var neverTriggered: bool   // the time is at negative infinity

    ghost function Abs(): State
      reads this
    {
      State(counterCycle, timeCycle, counter, time, neverTriggered)
    }

    constructor (counterCycle: nat, timeCycle: nat)
      ensures Abs() == Reset(counterCycle, timeCycle)
    {
      this.counterCycle, this.timeCycle := counterCycle, timeCycle;
      counter, time, neverTriggered := 0, 0, true;
    }

    method UpdateCounter(triggered: bool)
      requires counterCycle > 0
      modifies this`counter
      ensures counter == if triggered then 1 else if old(counter) + 1 >= counterCycle then 0 else old(counter) + 1
    {
      if triggered {
        counter := 1;
      } else {
        counter := counter + 1;
        if counter >= counterCycle {
          counter := 0;
        }
      }
    }

    method UpdateTime(triggered: bool, t: int)
      requires timeCycle > 0
      modifies this`time, this`neverTriggered
      ensures !neverTriggered && time == if triggered then t else old(time)
    {
      if triggered {
        time := t;
      }
      neverTriggered := false;
    }

    method Trigger(t: int) returns (granted: bool)
      modifies this`counter, this`time, this`neverTriggered
      ensures granted == Grants(old(Abs()), t)
      ensures Abs() == After(old(Abs()), t)
    {
      if counterCycle == 0 && timeCycle == 0 {
        return true;
      }
      granted := false;
      if counterCycle > 0 {
        granted := granted || counter == 0;
      }
      if timeCycle > 0 {
        var next := time + timeCycle * MICROS;
        granted := granted || t >= next || neverTriggered;
      }
      if counterCycle > 0 {
        UpdateCounter(granted);
      }
      if timeCycle > 0 {
        UpdateTime(granted, t);
      }
    }
  }

  function Reset(counterCycle: nat, timeCycle: nat): State {
    State(counterCycle, timeCycle, 0, 0, true)
  }

  /** Either criterion that is switched on, or none switched on at all. */
  predicate Grants(s: State, t: int) {
    || (s.counterCycle == 0 && s.timeCycle == 0)
    || (s.counterCycle > 0 && s.counter == 0)
    || (s.timeCycle > 0 && (s.neverTriggered || t >= s.time + s.timeCycle * MICROS))
  }

  function After(s: State, t: int): State {
    var g := Grants(s, t);
    var counter :=
      if s.counterCycle == 0 then s.counter
      else if g then 1 else if s.counter + 1 >= s.counterCycle then 0 else s.counter + 1;
    if s.timeCycle == 0 then s.(counter := counter)
    else s.(counter := counter, time := if g then t else s.time, neverTriggered := false)
  }

  // ------------------------------------------------------------------ runs from reset

  /** The limiter before call n. */
  function Limiter(s: State, times: seq<int>, n: nat): (r: State)
    requires n <= |times|
    ensures r.counterCycle == s.counterCycle && r.timeCycle == s.timeCycle
  {
    if n == 0 then s else After(Limiter(s, times, n - 1), times[n - 1])
  }

  predicate GrantedAt(s: State, times: seq<int>, n: nat)
    requires n < |times|
  {
    Grants(Limiter(s, times, n), times[n])
  }

  /** The longest possible distance of two grants; a cycle of 1 behaves as a cycle of 2. */
  function Period(s: State): nat {
    if s.counterCycle < 2 then 2 else s.counterCycle
  }

  /** p is the last granted call before call n. */
  ghost predicate LastGrant(s: State, times: seq<int>, p: nat, n: nat)
    requires p < n <= |times|
  {
    GrantedAt(s, times, p) && forall k :: p < k < n ==> !GrantedAt(s, times, k)
  }

  /** The members say how long ago, and at what time, the last grant was. */
  lemma {:induction false} MembersRememberLastGrant(s: State, times: seq<int>, n: nat) returns (p: nat)
    requires s == Reset(s.counterCycle, s.timeCycle) && 0 < n <= |times|
    ensures p < n && LastGrant(s, times, p, n)
    ensures s.counterCycle > 0 ==>
      && n - p <= Period(s)
      && Limiter(s, times, n).counter == if n - p == Period(s) then 0 else n - p
    ensures s.timeCycle > 0 ==> !Limiter(s, times, n).neverTriggered && Limiter(s, times, n).time == times[p]
  {
    if n == 1 {
      p := 0;
      assert Limiter(s, times, 0) == s;
    } else {
      p := MembersRememberLastGrant(s, times, n - 1);
      if GrantedAt(s, times, n - 1) {
        p := n - 1;
      }
    }
  }

  /** The exact rule: after the first call, which is granted, a call is granted when a full period of
      calls has gone by since the last grant, or when the time cycle has. */
  lemma {:induction false} GrantRule(s: State, times: seq<int>, n: nat) returns (p: nat)
    requires s == Reset(s.counterCycle, s.timeCycle) && 0 < n < |times|
    requires s.counterCycle > 0 || s.timeCycle > 0
    ensures GrantedAt(s, times, 0)
    ensures p < n && LastGrant(s, times, p, n)
    ensures s.counterCycle > 0 ==> n - p <= Period(s)
    ensures GrantedAt(s, times, n) <==>
      || (s.counterCycle > 0 && n - p == Period(s))
      || (s.timeCycle > 0 && times[n] >= times[p] + s.timeCycle * 1_000_000)
  {
    assert Limiter(s, times, 0) == s;
    p := MembersRememberLastGrant(s, times, n);
  }

  /** With neither cycle set nothing is limited, and nothing is remembered. */
  lemma {:induction false} NoCycleGrantsAll(s: State, times: seq<int>, n: nat)
    requires s.counterCycle == 0 && s.timeCycle == 0 && n < |times|
    ensures GrantedAt(s, times, n) && Limiter(s, times, n) == s
  {
    if n > 0 {
      NoCycleGrantsAll(s, times, n - 1);
    }
  }

  /** Counter alone: call k is granted exactly when the period divides k. */
  lemma {:induction false} CounterAlone(s: State, times: seq<int>, k: nat)
    requires s == Reset(s.counterCycle, 0) && s.counterCycle > 0 && k < |times|
    ensures GrantedAt(s, times, k) <==> k % Period(s) == 0
  {
    hide GrantedAt, Limiter, Period;
    GrantedAtMultiples(s, times, k);
  }

  predicate Multiple(k: nat, m: nat)
    requires m > 0
  {
    k % m == 0
  }

  lemma {:induction false} GrantedAtMultiples(s: State, times: seq<int>, k: nat)
    requires s == Reset(s.counterCycle, 0) && s.counterCycle > 0 && k < |times|
    ensures Period(s) > 0 && (GrantedAt(s, times, k) <==> Multiple(k, Period(s)))
  {
    if k == 0 {
    } else {
      hide GrantedAt, Limiter, Multiple;
      var p := GrantRule(s, times, k);
      GrantedAtMultiples(s, times, p);
      NextMultiple(p, k - p, Period(s));
    }
  }

  lemma NextMultiple(p: nat, d: nat, m: nat)
    requires m > 0 && Multiple(p, m) && 0 < d <= m
    ensures Multiple(p + d, m) <==> d == m
  {
    var q := p / m;
    Division(p, m);
    if d == m {
      OneMoreTime(q, m);
      RemainderUnique(p + d, q + 1, 0, m);
    } else {
      RemainderUnique(p + d, q, d, m);
    }
  }

  /** Two neighbouring grants are at most a period of calls apart, and a shorter gap spans the time cycle. */
  lemma {:induction false} GapBetweenGrants(s: State, times: seq<int>, p: nat, q: nat)
    requires s == Reset(s.counterCycle, s.timeCycle) && s.counterCycle > 0
    requires p < q < |times| && LastGrant(s, times, p, q) && GrantedAt(s, times, q)
    ensures q - p <= Period(s)
    ensures q - p < Period(s) ==> s.timeCycle > 0 && times[q] >= times[p] + s.timeCycle * 1_000_000
  {
    hide GrantedAt;
    var r := GrantRule(s, times, q);
    assert r == p;
  }
}
