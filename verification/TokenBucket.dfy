/** The token bucket of cdc_batch.py over reals and an explicit clock. */
module TokenBucket {
  datatype Bucket = Bucket(rate: real, burst: real, level: real, last: real)

  function Min(a: real, b: real): real { if a <= b then a else b }

  function Earned(rate: real, from: real, to: real): real { (to - from) * rate }

  function Refill(b: Bucket, now: real): Bucket {
    b.(level := Min(b.burst, b.level + Earned(b.rate, b.last, now)), last := now)
  }

  function Acquire(b: Bucket, now: real, tokens: nat): (Bucket, bool) {
    var full := Refill(b, now);
    if full.level >= tokens as real then (full.(level := full.level - tokens as real), true) else (full, false)
  }

  datatype Call = Call(now: real, tokens: nat)

  function AcquireAll(b: Bucket, calls: seq<Call>): (Bucket, nat)
    decreases |calls|
  {
    if calls == [] then (b, 0)
    else
      var (b1, ok) := Acquire(b, calls[0].now, calls[0].tokens);
      var (b2, more) := AcquireAll(b1, calls[1..]);
      (b2, (if ok then calls[0].tokens else 0) + more)
  }

  predicate Sound(b: Bucket) {
    0.0 <= b.level <= b.burst && b.rate >= 0.0
  }

  /** A clock that never runs backwards. */
  predicate Forward(from: real, calls: seq<Call>)
    decreases |calls|
  {
    calls != [] ==> from <= calls[0].now && Forward(calls[0].now, calls[1..])
  }

  function LastTime(from: real, calls: seq<Call>): real
    decreases |calls|
  {
    if calls == [] then from else LastTime(calls[0].now, calls[1..])
  }

  lemma RefillBounds(b: Bucket, now: real)
    requires Sound(b) && b.last <= now
    ensures Sound(Refill(b, now))
    ensures Refill(b, now).level <= b.level + Earned(b.rate, b.last, now)
  {
    assert (now - b.last) * b.rate >= 0.0;
  }

  lemma NothingEarned(rate: real, a: real)
    ensures Earned(rate, a, a) == 0.0
  {
  }

  lemma EarnedAdds(rate: real, a: real, b: real, c: real)
    ensures Earned(rate, a, b) + Earned(rate, b, c) == Earned(rate, a, c)
  {
  }

  /** The level stays within the bucket, and what is granted is paid for by the level and the time that passes. */
  lemma {:induction false} GrantedIsPaidFor(b: Bucket, calls: seq<Call>)
    requires Sound(b) && Forward(b.last, calls)
    ensures var (b', granted) := AcquireAll(b, calls);
            && Sound(b') && b'.rate == b.rate && b'.burst == b.burst && b'.last == LastTime(b.last, calls)
            && b'.level + granted as real <= b.level + Earned(b.rate, b.last, LastTime(b.last, calls))
    decreases |calls|
  {
    hide Refill, Earned;
    if calls == [] {
      NothingEarned(b.rate, b.last);
    } else {
      var now := calls[0].now;
      RefillBounds(b, now);
      RefillKeeps(b, now);
      var (b1, ok) := Acquire(b, now, calls[0].tokens);
      var got, more := if ok then calls[0].tokens else 0, AcquireAll(b1, calls[1..]).1;
      assert b1.level + got as real <= b.level + Earned(b.rate, b.last, now);
      GrantedIsPaidFor(b1, calls[1..]);
      assert AcquireAll(b, calls).1 == got + more && (got + more) as real == got as real + more as real;
      EarnedAdds(b.rate, b.last, now, LastTime(now, calls[1..]));
    }
  }

  lemma RefillKeeps(b: Bucket, now: real)
    ensures Refill(b, now).rate == b.rate && Refill(b, now).burst == b.burst && Refill(b, now).last == now
  {
  }

  /** Between the first call of any stretch and its last, at most the burst plus the rate times the elapsed time
      is granted, whatever came before. */
  lemma RateBound(b: Bucket, calls: seq<Call>)
    requires Sound(b) && Forward(b.last, calls) && calls != []
    ensures AcquireAll(b, calls).1 as real <= b.burst + Earned(b.rate, calls[0].now, LastTime(b.last, calls))
  {
    hide Refill, Earned;
    var now := calls[0].now;
    RefillBounds(b, now);
    RefillKeeps(b, now);
    var b1 := Acquire(b, now, calls[0].tokens).0;
    GrantedIsPaidFor(b1, calls[1..]);
    var got := if Acquire(b, now, calls[0].tokens).1 then calls[0].tokens else 0;
    var more := AcquireAll(b1, calls[1..]).1;
    assert AcquireAll(b, calls).1 == got + more && b1.level + got as real <= b.burst;
    assert (got + more) as real == got as real + more as real;
  }

  lemma {:induction false} AcquireSplits(b: Bucket, before: seq<Call>, calls: seq<Call>)
    ensures var (b1, first) := AcquireAll(b, before);
            AcquireAll(b, before + calls) == (AcquireAll(b1, calls).0, first + AcquireAll(b1, calls).1)
    decreases |before|
  {
    hide Acquire;
    if before == [] {
      assert before + calls == calls;
    } else {
      assert (before + calls)[1..] == before[1..] + calls;
      AcquireSplits(Acquire(b, before[0].now, before[0].tokens).0, before[1..], calls);
    }
  }

  lemma {:induction false} ForwardSplits(from: real, before: seq<Call>, calls: seq<Call>)
    requires Forward(from, before + calls)
    ensures Forward(from, before) && Forward(LastTime(from, before), calls)
    ensures LastTime(from, before + calls) == LastTime(LastTime(from, before), calls)
    decreases |before|
  {
    if before == [] {
      assert before + calls == calls;
    } else {
      assert (before + calls)[1..] == before[1..] + calls;
      ForwardSplits(before[0].now, before[1..], calls);
    }
  }

  /** The bound for every stretch of every run. */
  lemma StretchBound(b: Bucket, before: seq<Call>, calls: seq<Call>)
    requires Sound(b) && Forward(b.last, before + calls) && calls != []
    ensures var all, first := AcquireAll(b, before + calls).1, AcquireAll(b, before).1;
            (all - first) as real <= b.burst + Earned(b.rate, calls[0].now, LastTime(b.last, before + calls))
  {
    hide AcquireAll;
    ForwardSplits(b.last, before, calls);
    GrantedIsPaidFor(b, before);
    AcquireSplits(b, before, calls);
    RateBound(AcquireAll(b, before).0, calls);
  }

  // ---- No request is refused without need ----

  function Granted(b: Bucket, calls: seq<Call>): nat {
    AcquireAll(b, calls).1
  }

  /** When the stretch that begins with call k, or with the call being decided, begins. */
  function StretchStart(calls: seq<Call>, now: real, k: nat): real {
    if k < |calls| then calls[k].now else now
  }

  /** From a full bucket the level is what some stretch up to now leaves of the burst and what was earned in it. */
  lemma {:induction false} LevelIsStretch(b: Bucket, calls: seq<Call>, now: real) returns (k: nat)
    requires Sound(b) && b.level == b.burst && Forward(b.last, calls) && LastTime(b.last, calls) <= now
    ensures k <= |calls|
    ensures Refill(AcquireAll(b, calls).0, now).level
            == b.burst + Earned(b.rate, StretchStart(calls, now, k), now)
               - (Granted(b, calls) - Granted(b, calls[..k])) as real
    decreases |calls|
  {
    hide Earned;
    GrantedIsPaidFor(b, calls);
    var b1 := AcquireAll(b, calls).0;
    k := |calls|;
    assert calls[..k] == calls;
    NothingEarned(b.rate, now);
    if calls == [] {
      EarnedNeverLost(b.rate, b.last, now);
    } else if b1.level + Earned(b.rate, b1.last, now) < b.burst {
      var n := |calls| - 1;
      var before, last := calls[..n], calls[n];
      assert calls == before + [last];
      ForwardSplits(b.last, before, [last]);
      AcquireSplits(b, before, [last]);
      k := LevelIsStretch(b, before, last.now);
      AcquireLast(b, before, last);
      assert before[..k] == calls[..k] && StretchStart(before, last.now, k) == StretchStart(calls, now, k);
      EarnedAdds(b.rate, StretchStart(calls, now, k), last.now, now);
    }
  }

  lemma EarnedNeverLost(rate: real, from: real, to: real)
    requires rate >= 0.0 && from <= to
    ensures Earned(rate, from, to) >= 0.0
  {
  }

  lemma AcquireLast(b: Bucket, before: seq<Call>, last: Call)
    requires Sound(b) && Forward(b.last, before + [last])
    ensures var b1, b2 := AcquireAll(b, before).0, AcquireAll(b, before + [last]).0;
            var got := Granted(b, before + [last]) - Granted(b, before);
            && b2.level == Refill(b1, last.now).level - got as real && b2.last == last.now
            && b2.rate == b.rate && b2.burst == b.burst
  {
    hide Earned;
    AcquireSplits(b, before, [last]);
    ForwardSplits(b.last, before, [last]);
    GrantedIsPaidFor(b, before);
    var b1 := AcquireAll(b, before).0;
    assert AcquireAll(Acquire(b1, last.now, last.tokens).0, [last][1..]).1 == 0;
    assert [last][1..] == [];
  }

  /** From a full bucket, after any calls, a request is refused if and only if granting it would exceed the burst
      plus the rate times the elapsed time in some stretch up to it. */
  lemma RefusedIff(b: Bucket, calls: seq<Call>, now: real, tokens: nat)
    requires Sound(b) && b.level == b.burst && Forward(b.last, calls) && LastTime(b.last, calls) <= now
    ensures !Acquire(AcquireAll(b, calls).0, now, tokens).1 <==>
            exists k :: 0 <= k <= |calls|
                        && (Granted(b, calls) - Granted(b, calls[..k]) + tokens) as real
                           > b.burst + Earned(b.rate, StretchStart(calls, now, k), now)
  {
    hide Earned, Refill, Granted;
    var b1 := AcquireAll(b, calls).0;
    if Acquire(b1, now, tokens).1 {
      forall k | 0 <= k <= |calls|
        ensures (Granted(b, calls) - Granted(b, calls[..k]) + tokens) as real
                <= b.burst + Earned(b.rate, StretchStart(calls, now, k), now)
      {
        GrantFits(b, calls, now, tokens, k);
      }
    } else {
      var k := LevelIsStretch(b, calls, now);
      assert (Granted(b, calls) - Granted(b, calls[..k]) + tokens) as real
             == (Granted(b, calls) - Granted(b, calls[..k])) as real + tokens as real;
    }
  }

  lemma GrantFits(b: Bucket, calls: seq<Call>, now: real, tokens: nat, k: nat)
    requires Sound(b) && Forward(b.last, calls) && LastTime(b.last, calls) <= now && k <= |calls|
    requires Acquire(AcquireAll(b, calls).0, now, tokens).1
    ensures (Granted(b, calls) - Granted(b, calls[..k]) + tokens) as real
            <= b.burst + Earned(b.rate, StretchStart(calls, now, k), now)
  {
    hide Earned, Refill;
    var last := Call(now, tokens);
    var before, rest := calls[..k], calls[k..] + [last];
    assert before + rest == calls + [last];
    ForwardMore(b.last, calls, last);
    StretchBound(b, before, rest);
    AcquireSplits(b, calls, [last]);
    assert [last][1..] == [] && AcquireAll(Acquire(AcquireAll(b, calls).0, now, tokens).0, []).1 == 0;
    assert rest[0].now == StretchStart(calls, now, k);
  }

  lemma {:induction false} ForwardMore(from: real, calls: seq<Call>, last: Call)
    requires Forward(from, calls) && LastTime(from, calls) <= last.now
    ensures Forward(from, calls + [last]) && LastTime(from, calls + [last]) == last.now
    decreases |calls|
  {
    if calls == [] {
      assert calls + [last] == [last] && [last][1..] == [];
    } else {
      assert (calls + [last])[1..] == calls[1..] + [last];
      ForwardMore(calls[0].now, calls[1..], last);
    }
  }

  class RateLimiter {
    const maxEventsPerSecond: real
    const burstSize: real
    var tokens: real
    var lastUpdate: real

    ghost function State(): Bucket
      reads this
    {
      Bucket(maxEventsPerSecond, burstSize, tokens, lastUpdate)
    }

    constructor (maxEventsPerSecond: real, burstSize: nat, now: real)
      ensures State() == Bucket(maxEventsPerSecond, burstSize as real, burstSize as real, now)
    {
      this.maxEventsPerSecond, this.burstSize := maxEventsPerSecond, burstSize as real;
      tokens, lastUpdate := burstSize as real, now;
    }

    method AcquireTokens(now: real, count: nat) returns (ok: bool)
      modifies this
      ensures (State(), ok) == Acquire(old(State()), now, count)
    {
      tokens := Min(burstSize, tokens + Earned(maxEventsPerSecond, lastUpdate, now));
      lastUpdate := now;
      if tokens >= count as real {
        tokens := tokens - count as real;
        return true;
      }
      return false;
    }
  }
}
