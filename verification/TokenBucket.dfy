/**
 The process-local rate limiter (internal/ratelimit/limiter.go).

 Time and tokens are real numbers (seconds, and fractions of a token). The clock may jump
 in either direction between calls; every law below is about arbitrary clock sequences.
 */
module TokenBucket {

  /** The limiter's fields as a value. */
  datatype Bucket = Bucket(rate: real, burst: real, tokens: real, last: real)

  ghost predicate Valid(b: Bucket) {
    b.rate > 0.0 && b.burst >= 1.0 && 0.0 <= b.tokens <= b.burst
  }

  function MinReal(a: real, b: real): real {
    if a < b then a else b
  }

  /** Tokens after the clock has advanced by `elapsed`, capped at the burst. */
  function Refill(burst: real, rate: real, tokens: real, elapsed: real): real {
    MinReal(burst, tokens + elapsed * rate)
  }

  function Refilled(b: Bucket, now: real): Bucket {
    if now > b.last then b.(tokens := Refill(b.burst, b.rate, b.tokens, now - b.last), last := now) else b
  }

  predicate Allows(b: Bucket, now: real) {
    Refilled(b, now).tokens >= 1.0
  }

  function After(b: Bucket, now: real): Bucket {
    var r := Refilled(b, now);
    if r.tokens < 1.0 then r else r.(tokens := r.tokens - 1.0)
  }

  class Limiter {
    var ratePerSec: real
    var burst: real
    var tokens: real
    var last: real

    function State(): Bucket
      reads this
    {
      Bucket(ratePerSec, burst, tokens, last)
    }

    /** current is the clock reading taken at construction. */
    constructor (requestsPerMinute: int, burst: int, current: real)
      ensures Valid(State())
      ensures tokens == this.burst && last == current
      ensures ratePerSec == (if requestsPerMinute <= 0 then 1 else requestsPerMinute) as real / 60.0
      ensures this.burst == (if burst <= 0 then 1 else burst) as real
    {
      var r := if requestsPerMinute <= 0 then 1 else requestsPerMinute;
      var c := if burst <= 0 then 1 else burst;
      this.ratePerSec := r as real / 60.0;
      this.burst := c as real;
      this.tokens := c as real;
      this.last := current;
    }

    /** One request; current is the clock reading it takes. */
    method Allow(current: real) returns (ok: bool)
      requires Valid(State())
      modifies this
      ensures ok == old(Allows(State(), current))
      ensures State() == old(After(State(), current))
      ensures Valid(State())
    {
      var before := State();
      var elapsed := current - last;
      AfterIsValid(before, current);
      if elapsed > 0.0 {
        tokens := MinReal(burst, tokens + elapsed * ratePerSec);
        last := current;
      }
      if tokens < 1.0 {
        return false;
      }
      tokens := tokens - 1.0;
      return true;
    }
  }

  lemma RefillIsBounded(burst: real, rate: real, tokens: real, elapsed: real)
    requires rate > 0.0 && 0.0 <= tokens <= burst && elapsed >= 0.0
    ensures tokens <= Refill(burst, rate, tokens, elapsed) <= burst
  {
    assert elapsed * rate >= 0.0;
  }

  lemma AfterIsValid(b: Bucket, now: real)
    requires Valid(b)
    ensures Valid(Refilled(b, now)) && Valid(After(b, now))
    ensures After(b, now).rate == b.rate && After(b, now).burst == b.burst
    ensures After(b, now).last == if now > b.last then now else b.last
  {
    if now > b.last {
      RefillIsBounded(b.burst, b.rate, b.tokens, now - b.last);
    }
  }

  // ---------- runs ----------

  /** The bucket after the calls made at the given clock readings. */
  function Run(b: Bucket, clock: seq<real>): Bucket {
    if clock == [] then b else After(Run(b, clock[..|clock| - 1]), clock[|clock| - 1])
  }

  /** Whether each call is allowed. */
  function Decisions(b: Bucket, clock: seq<real>): seq<bool> {
    if clock == [] then []
    else
      var n := |clock| - 1;
      Decisions(b, clock[..n]) + [Allows(Run(b, clock[..n]), clock[n])]
  }

  function Count(decisions: seq<bool>): nat {
    if decisions == [] then 0 else Count(decisions[..|decisions| - 1]) + if decisions[|decisions| - 1] then 1 else 0
  }

  /** The largest clock reading so far: the moment the bucket counts from. */
  function RunningMaximum(start: real, clock: seq<real>): real {
    if clock == [] then start
    else
      var rest := RunningMaximum(start, clock[..|clock| - 1]);
      if clock[|clock| - 1] > rest then clock[|clock| - 1] else rest
  }

  /** In every run the tokens stay within the burst and `last` is the running maximum of the clock. */
  lemma {:induction false} RunIsValid(b: Bucket, clock: seq<real>)
    requires Valid(b)
    ensures Valid(Run(b, clock)) && Run(b, clock).rate == b.rate && Run(b, clock).burst == b.burst
    ensures Run(b, clock).last == RunningMaximum(b.last, clock) >= b.last
    ensures |Decisions(b, clock)| == |clock|
  {
    if clock != [] {
      var n := |clock| - 1;
      RunIsValid(b, clock[..n]);
      AfterIsValid(Run(b, clock[..n]), clock[n]);
    }
  }

  /** The tokens the clock earns between two moments, before any cap. */
  function Earned(rate: real, from: real, to: real): real {
    rate * (to - from)
  }

  lemma EarnedAdds(rate: real, a: real, b: real, c: real)
    ensures Earned(rate, a, c) == Earned(rate, a, b) + Earned(rate, b, c)
  {
  }

  /** One call spends what it takes out of the tokens and of the refill. */
  lemma CallBudget(b: Bucket, now: real)
    requires Valid(b)
    ensures (if Allows(b, now) then 1.0 else 0.0) + After(b, now).tokens <= b.tokens + Earned(b.rate, b.last, After(b, now).last)
  {
    if now > b.last {
      assert (now - b.last) * b.rate == b.rate * (now - b.last);
    } else {
      assert b.rate * (b.last - b.last) == 0.0;
    }
  }

  lemma CountOne(decisions: seq<bool>, d: bool)
    ensures Count(decisions + [d]) as real == Count(decisions) as real + if d then 1.0 else 0.0
  {
    assert (decisions + [d])[..|decisions|] == decisions;
  }

  lemma {:induction false} Budget(b: Bucket, clock: seq<real>)
    requires Valid(b)
    ensures Count(Decisions(b, clock)) as real + Run(b, clock).tokens <= b.tokens + Earned(b.rate, b.last, Run(b, clock).last)
  {
    if clock != [] {
      var n := |clock| - 1;
      var r := Run(b, clock[..n]);
      Budget(b, clock[..n]);
      RunIsValid(b, clock[..n]);
      CallBudget(r, clock[n]);
      CountOne(Decisions(b, clock[..n]), Allows(r, clock[n]));
      EarnedAdds(b.rate, b.last, r.last, After(r, clock[n]).last);
      hide Allows, After, Earned;
    }
  }

  /** A run cut in two: the second part starts from the bucket the first part left. */
  lemma {:induction false} RunSplits(b: Bucket, first: seq<real>, second: seq<real>)
    ensures Run(b, first + second) == Run(Run(b, first), second)
    ensures Decisions(b, first + second) == Decisions(b, first) + Decisions(Run(b, first), second)
    ensures RunningMaximum(b.last, first + second) == RunningMaximum(RunningMaximum(b.last, first), second)
  {
    if second == [] {
      assert first + second == first;
    } else {
      var n := |second| - 1;
      RunSplits(b, first, second[..n]);
      assert (first + second)[..|first + second| - 1] == first + second[..n];
    }
  }

  /**
   Between any two points of any run, at most burst + rate * (advance of the running
   maximum of the clock) requests are allowed, whatever the clock does.
   */
  lemma AllowedIsBounded(b: Bucket, earlier: seq<real>, between: seq<real>)
    requires Valid(b)
    ensures |Decisions(b, earlier + between)| == |earlier| + |between|
    ensures Count(Decisions(b, earlier + between)[|earlier|..]) as real
         <= b.burst + Earned(b.rate, RunningMaximum(b.last, earlier), RunningMaximum(b.last, earlier + between))
  {
    hide Count, RunningMaximum, Earned;
    RunSplits(b, earlier, between);
    RunIsValid(b, earlier);
    RunIsValid(b, earlier + between);
    var middle := Run(b, earlier);
    RunIsValid(middle, between);
    Budget(middle, between);
    assert Decisions(b, earlier + between)[|earlier|..] == Decisions(middle, between);
  }

  /** After any run, a call made 1 / rate or more past the running maximum succeeds. */
  lemma WaitingIsEnough(b: Bucket, clock: seq<real>, now: real)
    requires Valid(b) && now >= RunningMaximum(b.last, clock) + 1.0 / b.rate
    ensures Allows(Run(b, clock), now)
  {
    RunIsValid(b, clock);
    hide Run, RunningMaximum;
    OneTokenLater(Run(b, clock), now);
  }

  lemma OneTokenLater(b: Bucket, now: real)
    requires Valid(b) && now >= b.last + 1.0 / b.rate
    ensures Allows(b, now)
  {
    var wait := 1.0 / b.rate;
    assert wait > 0.0 && wait * b.rate == 1.0;
    Scale(wait, now - b.last, b.rate);
    var elapsed := now - b.last;
    assert elapsed * b.rate >= 1.0 && elapsed > 0.0;
    assert Refilled(b, now).tokens == Refill(b.burst, b.rate, b.tokens, elapsed);
  }

  lemma Scale(a: real, b: real, rate: real)
    requires a <= b && rate > 0.0
    ensures a * rate <= b * rate
  {
  }

  /** After any run, once the running maximum is k / rate behind, the next k calls (k at most the burst) are all allowed. */
  lemma BurstReturns(b: Bucket, clock: seq<real>, calls: seq<real>)
    requires Valid(b) && |calls| as real <= b.burst
    requires calls != [] ==> calls[0] >= RunningMaximum(b.last, clock) + |calls| as real / b.rate
    ensures Decisions(b, clock + calls) == Decisions(b, clock) + seq(|calls|, _ => true)
  {
    RunSplits(b, clock, calls);
    RunIsValid(b, clock);
    var full := Run(b, clock);
    if calls != [] {
      hide Run, Decisions, RunningMaximum, After;
      TokensLater(full, calls[0], |calls|);
      AllAllowed(full, calls);
    }
  }

  lemma TokensLater(b: Bucket, now: real, k: nat)
    requires Valid(b) && k as real <= b.burst && now >= b.last + k as real / b.rate
    ensures Refilled(b, now).tokens >= k as real
  {
    var wait, elapsed := k as real / b.rate, now - b.last;
    assert wait >= 0.0 && wait * b.rate == k as real;
    Scale(wait, elapsed, b.rate);
    assert elapsed * b.rate >= k as real;
    if elapsed > 0.0 {
      assert Refilled(b, now).tokens == Refill(b.burst, b.rate, b.tokens, elapsed);
    } else {
      assert k == 0;
    }
  }

  lemma {:induction false} AllAllowed(b: Bucket, calls: seq<real>)
    requires Valid(b) && calls != [] && Refilled(b, calls[0]).tokens >= |calls| as real
    ensures Decisions(b, calls) == seq(|calls|, _ => true)
    ensures Run(b, calls).tokens >= Refilled(b, calls[0]).tokens - |calls| as real
  {
    var n := |calls| - 1;
    AfterIsValid(b, calls[0]);
    if n > 0 {
      AllAllowed(b, calls[..n]);
      RunIsValid(b, calls[..n]);
      AfterIsValid(Run(b, calls[..n]), calls[n]);
      var r := Run(b, calls[..n]);
      if calls[n] > r.last { RefillIsBounded(r.burst, r.rate, r.tokens, calls[n] - r.last); }
    } else {
      assert calls == [calls[0]] && calls[..0] == [];
      assert Run(b, []) == b;
    }
  }

  // ---------- exactly which calls are allowed ----------

  /** x more tokens at now would break no bound: not the burst, not the start's, not that of any window of the run. */
  ghost predicate RoomFor(b: Bucket, clock: seq<real>, now: real, x: real)
    requires |Decisions(b, clock)| == |clock|
  {
    var to := RunningMaximum(b.last, clock + [now]);
    && x <= b.burst
    && Count(Decisions(b, clock)) as real + x <= b.tokens + Earned(b.rate, b.last, to)
    && forall i | 0 <= i < |clock| :: WindowHasRoom(b, clock, i, to, x)
  }

  /** The calls allowed from call i on, and x more, stay within the burst and what the clock earned since call i. */
  ghost predicate WindowHasRoom(b: Bucket, clock: seq<real>, i: nat, to: real, x: real)
    requires |Decisions(b, clock)| == |clock| && i < |clock|
  {
    Count(Decisions(b, clock)[i..]) as real + x <= b.burst + Earned(b.rate, RunningMaximum(b.last, clock[..i + 1]), to)
  }

  lemma {:induction false} RoomIsTokens(b: Bucket, clock: seq<real>, now: real, x: real)
    requires Valid(b)
    ensures |Decisions(b, clock)| == |clock|
    ensures Refilled(Run(b, clock), now).tokens >= x <==> RoomFor(b, clock, now, x)
  {
    RunIsValid(b, clock);
    if clock == [] {
      assert clock + [now] == [now] && [now][..0] == [];
      hide Refilled, Earned;
      TokensAt(b, now, x);
    } else {
      var n := |clock| - 1;
      var spent := if Decisions(b, clock)[n] then 1.0 else 0.0;
      var here, to := RunningMaximum(b.last, clock), RunningMaximum(b.last, clock + [now]);
      var before := x + spent - Earned(b.rate, here, to);
      RoomIsTokens(b, clock[..n], clock[n], before);
      LastCall(b, clock, now, x);
      RoomSteps(b, clock, now, x, spent);
    }
  }

  lemma TokensAt(b: Bucket, now: real, x: real)
    requires Valid(b)
    ensures Refilled(b, now).tokens >= x
       <==> x <= b.burst && x <= b.tokens + Earned(b.rate, b.last, if now > b.last then now else b.last)
  {
    if now > b.last {
      assert (now - b.last) * b.rate == Earned(b.rate, b.last, now);
    } else {
      assert Earned(b.rate, b.last, b.last) == 0.0;
    }
  }

  lemma LastCall(b: Bucket, clock: seq<real>, now: real, x: real)
    requires Valid(b) && clock != [] && |Decisions(b, clock)| == |clock|
    ensures var n := |clock| - 1;
            var spent := if Decisions(b, clock)[n] then 1.0 else 0.0;
            var here, to := RunningMaximum(b.last, clock), RunningMaximum(b.last, clock + [now]);
            Refilled(Run(b, clock), now).tokens >= x
            <==> x <= b.burst && Refilled(Run(b, clock[..n]), clock[n]).tokens >= x + spent - Earned(b.rate, here, to)
  {
    hide Refilled, Allows, After, Earned;
    var n := |clock| - 1;
    RunIsValid(b, clock);
    RunIsValid(b, clock[..n]);
    assert (clock + [now])[..|clock|] == clock;
    assert Decisions(b, clock)[n] == Allows(Run(b, clock[..n]), clock[n]);
    TwoReadings(Run(b, clock[..n]), clock[n], now, x);
  }

  lemma TwoReadings(r: Bucket, first: real, now: real, x: real)
    requires Valid(r)
    ensures var spent := if Allows(r, first) then 1.0 else 0.0;
            var here := After(r, first).last;
            Refilled(After(r, first), now).tokens >= x
            <==> x <= r.burst && Refilled(r, first).tokens >= x + spent - Earned(r.rate, here, if now > here then now else here)
  {
    AfterIsValid(r, first);
    TokensAt(After(r, first), now, x);
    hide Earned;
  }

  lemma RoomSteps(b: Bucket, clock: seq<real>, now: real, x: real, spent: real)
    requires Valid(b) && clock != [] && |Decisions(b, clock)| == |clock| && |Decisions(b, clock[..|clock| - 1])| == |clock| - 1
    requires spent == if Decisions(b, clock)[|clock| - 1] then 1.0 else 0.0
    ensures RoomFor(b, clock, now, x)
       <==> x <= b.burst && RoomFor(b, clock[..|clock| - 1], clock[|clock| - 1],
                                    x + spent - Earned(b.rate, RunningMaximum(b.last, clock), RunningMaximum(b.last, clock + [now])))
  {
    hide Earned, Decisions, Count, RunningMaximum, WindowHasRoom;
    var n := |clock| - 1;
    var here, to := RunningMaximum(b.last, clock), RunningMaximum(b.last, clock + [now]);
    var before := x + spent - Earned(b.rate, here, to);
    DecisionsGrow(b, clock);
    assert clock[..n] + [clock[n]] == clock;
    EarnedAdds(b.rate, b.last, here, to);
    forall i | 0 <= i < n
      ensures WindowHasRoom(b, clock, i, to, x) <==> WindowHasRoom(b, clock[..n], i, here, before)
    {
      WindowSteps(b, clock, i, to, x);
    }
    LastWindow(b, clock, to, x);
  }

  lemma DecisionsGrow(b: Bucket, clock: seq<real>)
    requires clock != [] && |Decisions(b, clock)| == |clock| && |Decisions(b, clock[..|clock| - 1])| == |clock| - 1
    ensures var front, all := Decisions(b, clock[..|clock| - 1]), Decisions(b, clock);
            && all == front + [all[|clock| - 1]]
            && Count(all) as real == Count(front) as real + if all[|clock| - 1] then 1.0 else 0.0
  {
    CountOne(Decisions(b, clock[..|clock| - 1]), Decisions(b, clock)[|clock| - 1]);
  }

  lemma LastWindow(b: Bucket, clock: seq<real>, to: real, x: real)
    requires clock != [] && |Decisions(b, clock)| == |clock|
    ensures WindowHasRoom(b, clock, |clock| - 1, to, x)
       <==> (if Decisions(b, clock)[|clock| - 1] then 1.0 else 0.0) + x <= b.burst + Earned(b.rate, RunningMaximum(b.last, clock), to)
  {
    hide Earned, Decisions, RunningMaximum;
    var n := |clock| - 1;
    assert clock[..n + 1] == clock;
    assert Decisions(b, clock)[n..] == [] + [Decisions(b, clock)[n]];
    CountOne([], Decisions(b, clock)[n]);
  }

  lemma WindowSteps(b: Bucket, clock: seq<real>, i: nat, to: real, x: real)
    requires i < |clock| - 1
    requires |Decisions(b, clock)| == |clock| && |Decisions(b, clock[..|clock| - 1])| == |clock| - 1
    ensures var n := |clock| - 1;
            var here := RunningMaximum(b.last, clock);
            var spent := if Decisions(b, clock)[n] then 1.0 else 0.0;
            WindowHasRoom(b, clock, i, to, x) <==> WindowHasRoom(b, clock[..n], i, here, x + spent - Earned(b.rate, here, to))
  {
    hide Earned, Decisions, Count, RunningMaximum;
    var n := |clock| - 1;
    DecisionsGrow(b, clock);
    TailCount(Decisions(b, clock[..n]), Decisions(b, clock)[n], i);
    assert clock[..n][..i + 1] == clock[..i + 1];
    EarnedAdds(b.rate, RunningMaximum(b.last, clock[..i + 1]), RunningMaximum(b.last, clock), to);
  }

  lemma TailCount(front: seq<bool>, d: bool, i: nat)
    requires i <= |front|
    ensures Count((front + [d])[i..]) as real == Count(front[i..]) as real + if d then 1.0 else 0.0
  {
    hide Count;
    assert (front + [d])[i..] == front[i..] + [d];
    CountOne(front[i..], d);
  }

  /**
   Exactly which calls of a run are allowed, whatever the clock does: those that would break
   no bound, neither that of the start nor that of the window since any earlier call.
   */
  lemma AllowedIff(b: Bucket, clock: seq<real>, now: real)
    requires Valid(b)
    ensures |Decisions(b, clock)| == |clock|
    ensures Allows(Run(b, clock), now) <==> RoomFor(b, clock, now, 1.0)
  {
    RoomIsTokens(b, clock, now, 1.0);
  }

  // ---------- denied requests leave no trace ----------

  /** Refilling in two steps is refilling once: the cap loses nothing. */
  lemma RefillComposes(burst: real, rate: real, tokens: real, first: real, second: real)
    requires rate > 0.0 && tokens <= burst && first >= 0.0 && second >= 0.0
    ensures Refill(burst, rate, Refill(burst, rate, tokens, first), second) == Refill(burst, rate, tokens, first + second)
  {
    assert (first + second) * rate == first * rate + second * rate;
    assert first * rate >= 0.0 && second * rate >= 0.0;
  }

  /** How the bucket of the full run relates to the bucket of the run with denied calls removed. */
  ghost predicate Ahead(full: Bucket, thin: Bucket) {
    && Valid(full) && Valid(thin) && full.rate == thin.rate && full.burst == thin.burst
    && thin.last <= full.last
    && full.tokens == Refill(full.burst, full.rate, thin.tokens, full.last - thin.last)
    && (thin.last < full.last ==> full.tokens < 1.0)
  }

  lemma DropDenied(full: Bucket, thin: Bucket, now: real)
    requires Ahead(full, thin) && !Allows(full, now)
    ensures Ahead(After(full, now), thin)
  {
    AfterIsValid(full, now);
    if now > full.last {
      RefillComposes(full.burst, full.rate, thin.tokens, full.last - thin.last, now - full.last);
    }
  }

  lemma KeepCall(full: Bucket, thin: Bucket, now: real)
    requires Ahead(full, thin)
    ensures Allows(full, now) == Allows(thin, now)
    ensures Ahead(After(full, now), After(thin, now))
  {
    AfterIsValid(full, now);
    AfterIsValid(thin, now);
    if now > full.last {
      RefillComposes(full.burst, full.rate, thin.tokens, full.last - thin.last, now - full.last);
      assert (full.last - thin.last) + (now - full.last) == now - thin.last;
      assert Refilled(full, now) == Refilled(thin, now);
      assert Refill(full.burst, full.rate, After(thin, now).tokens, 0.0) == After(thin, now).tokens;
    } else if now > thin.last {
      RefillComposes(full.burst, full.rate, thin.tokens, now - thin.last, full.last - now);
      RefillIsBounded(full.burst, full.rate, Refilled(thin, now).tokens, full.last - now);
      assert (now - thin.last) + (full.last - now) == full.last - thin.last;
    } else if thin.last == full.last {
      assert full.tokens == thin.tokens;
    } else {
      RefillIsBounded(full.burst, full.rate, thin.tokens, full.last - thin.last);
    }
  }

  /** The calls (or decisions) that are kept. */
  function Select<T>(s: seq<T>, keep: seq<bool>): seq<T>
    requires |s| == |keep|
  {
    if s == [] then []
    else
      var n := |s| - 1;
      Select(s[..n], keep[..n]) + if keep[n] then [s[n]] else []
  }

  lemma {:induction false} Simulation(b: Bucket, clock: seq<real>, keep: seq<bool>)
    requires Valid(b) && |keep| == |clock| && |Decisions(b, clock)| == |clock|
    requires forall i | 0 <= i < |clock| && !keep[i] :: !Decisions(b, clock)[i]
    ensures Ahead(Run(b, clock), Run(b, Select(clock, keep)))
    ensures Decisions(b, Select(clock, keep)) == Select(Decisions(b, clock), keep)
  {
    if clock == [] {
      assert Refill(b.burst, b.rate, b.tokens, 0.0) == b.tokens;
    } else {
      var n := |clock| - 1;
      RunIsValid(b, clock[..n]);
      assert Decisions(b, clock)[..n] == Decisions(b, clock[..n]);
      Simulation(b, clock[..n], keep[..n]);
      var full, thin := Run(b, clock[..n]), Run(b, Select(clock[..n], keep[..n]));
      if keep[n] {
        KeepCall(full, thin, clock[n]);
        var kept := Select(clock, keep);
        assert kept[..|kept| - 1] == Select(clock[..n], keep[..n]);
      } else {
        assert !Decisions(b, clock)[n];
        DropDenied(full, thin, clock[n]);
        assert Select(clock, keep) == Select(clock[..n], keep[..n]);
      }
    }
  }

  /**
   Denied requests leave no trace: deleting any set of denied calls from any run leaves
   every other call's decision as it was, for every clock sequence.
   */
  lemma DeniedLeaveNoTrace(b: Bucket, clock: seq<real>, keep: seq<bool>)
    requires Valid(b) && |keep| == |clock|
    ensures |Decisions(b, clock)| == |clock|
    ensures (forall i | 0 <= i < |clock| && !keep[i] :: !Decisions(b, clock)[i])
            ==> Decisions(b, Select(clock, keep)) == Select(Decisions(b, clock), keep)
  {
    RunIsValid(b, clock);
    if forall i | 0 <= i < |clock| && !keep[i] :: !Decisions(b, clock)[i] {
      Simulation(b, clock, keep);
    }
  }
}
