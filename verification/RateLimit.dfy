// Token-bucket flood control of the gateway. Times are seconds and tokens are reals.
module RateLimit {
  import opened Wrappers

  // tokens and the time of the last request; a bucket that has never been asked is full.
  datatype Level = Level(tokens: real, last: Option<real>)

  const FRESH := Level(0.0, None)

  // Tokens that trickle in between two times.
  function Refill(rate: real, from: real, to: real): real {
    (to - from) * rate
  }

  // Tokens available at `now`, before spending.
  function Available(b: Level, rate: real, burst: real, now: real): real {
    if b.last.None? then burst
    else
      var t := b.tokens + Refill(rate, b.last.value, now);
      if t > burst then burst else t
  }

  predicate Allows(b: Level, rate: real, burst: real, now: real) {
    Available(b, rate, burst, now) >= 1.0
  }

  function Spend(b: Level, rate: real, burst: real, now: real): Level {
    var t := Available(b, rate, burst, now);
    Level(if t >= 1.0 then t - 1.0 else t, Some(now))
  }

  class Bucket {
    var tokens: real
    var last: Option<real>
    const rate: real
    const burst: real

    ghost function Value(): Level
      reads this
    {
      Level(tokens, last)
    }

    constructor (rate: real, burst: real)
      ensures this.rate == rate && this.burst == burst && Value() == FRESH
    {
      this.rate, this.burst := rate, burst;
      tokens, last := 0.0, None;
    }

    method Allow(now: real) returns (ok: bool)
      modifies this
      ensures ok == Allows(old(Value()), rate, burst, now)
      ensures Value() == Spend(old(Value()), rate, burst, now)
    {
      if last.None? {
        tokens := burst;
      } else {
        tokens := tokens + Refill(rate, last.value, now);
        if tokens > burst {
          tokens := burst;
        }
      }
      last := Some(now);
      if tokens >= 1.0 {
        tokens := tokens - 1.0;
        return true;
      }
      return false;
    }
  }

  // ---- Traces of one bucket ------------------------------------------------------------------------

  ghost predicate NonDecreasing(times: seq<real>) {
    forall i, j :: 0 <= i < j < |times| ==> times[i] <= times[j]
  }

  ghost predicate Sound(b: Level, burst: real) {
    b.last.Some? ==> 0.0 <= b.tokens <= burst
  }

  ghost function After(b: Level, rate: real, burst: real, times: seq<real>): Level {
    if |times| == 0 then b
    else Spend(After(b, rate, burst, times[..|times| - 1]), rate, burst, times[|times| - 1])
  }

  // How many of the requests are allowed.
  ghost function Allowed(b: Level, rate: real, burst: real, times: seq<real>): nat {
    if |times| == 0 then 0
    else
      var init := times[..|times| - 1];
      Allowed(b, rate, burst, init)
      + if Allows(After(b, rate, burst, init), rate, burst, times[|times| - 1]) then 1 else 0
  }

  lemma {:induction false} AfterSound(b: Level, rate: real, burst: real, times: seq<real>)
    requires rate >= 0.0 && burst >= 0.0 && Sound(b, burst) && NonDecreasing(times)
    requires |times| > 0 && b.last.Some? ==> b.last.value <= times[0]
    ensures Sound(After(b, rate, burst, times), burst)
    ensures |times| > 0 ==> After(b, rate, burst, times).last == Some(times[|times| - 1])
  {
    if |times| > 0 {
      var init, now := times[..|times| - 1], times[|times| - 1];
      AfterSound(b, rate, burst, init);
      RefillSound(After(b, rate, burst, init), rate, burst, now);
    }
  }

  lemma RefillLaws(rate: real, a: real, b: real, c: real)
    ensures rate >= 0.0 && a <= b ==> Refill(rate, a, b) >= 0.0
    ensures Refill(rate, a, a) == 0.0
    ensures Refill(rate, a, c) == Refill(rate, a, b) + Refill(rate, b, c)
  {
    Distribute(rate, a, b, c);
    if rate >= 0.0 && a <= b {
      NonNegative(b - a, rate);
    }
  }

  lemma Distribute(rate: real, a: real, b: real, c: real)
    ensures (c - a) * rate == (b - a) * rate + (c - b) * rate
  {
  }

  lemma NonNegative(d: real, rate: real)
    requires d >= 0.0 && rate >= 0.0
    ensures d * rate >= 0.0
  {
  }

  lemma AtLeast(rate: real, d: real, gap: real)
    requires rate >= 0.0 && d >= gap
    ensures d * rate >= gap * rate
  {
    NonNegative(d - gap, rate);
    assert (d - gap) * rate == d * rate - gap * rate;
  }

  lemma RefillAtLeast(rate: real, from: real, to: real, gap: real)
    requires rate >= 0.0 && to - from >= gap
    ensures Refill(rate, from, to) >= gap * rate
  {
    AtLeast(rate, to - from, gap);
  }

  lemma RefillSound(b: Level, rate: real, burst: real, now: real)
    requires rate >= 0.0 && burst >= 0.0 && Sound(b, burst) && (b.last.Some? ==> b.last.value <= now)
    ensures 0.0 <= Available(b, rate, burst, now) <= burst
    ensures b.last.Some? ==> Available(b, rate, burst, now) <= b.tokens + Refill(rate, b.last.value, now)
  {
    hide Refill;
    if b.last.Some? {
      RefillLaws(rate, b.last.value, now, now);
    }
  }

  // What has been allowed plus what is left never exceeds one burst plus the refill of the window.
  lemma {:induction false} Potential(b: Level, rate: real, burst: real, times: seq<real>)
    requires rate >= 0.0 && burst >= 0.0 && Sound(b, burst) && NonDecreasing(times) && |times| > 0
    requires b.last.Some? ==> b.last.value <= times[0]
    ensures Allowed(b, rate, burst, times) as real + After(b, rate, burst, times).tokens
         <= burst + Refill(rate, times[0], times[|times| - 1])
  {
    hide Refill;
    var init, now := times[..|times| - 1], times[|times| - 1];
    AfterSound(b, rate, burst, init);
    var mid := After(b, rate, burst, init);
    RefillSound(mid, rate, burst, now);
    if |init| == 0 {
      RefillLaws(rate, now, now, now);
    } else {
      var before := init[|init| - 1];
      assert before == times[|times| - 2] && init[0] == times[0];
      Potential(b, rate, burst, init);
      RefillLaws(rate, times[0], before, now);
    }
  }

  // The throughput bound: whatever came before, the requests i .. j of a trace get at most
  // burst + rate * (elapsed time) permissions.
  lemma WindowBound(rate: real, burst: real, times: seq<real>, i: nat, j: nat)
    requires rate >= 0.0 && burst >= 0.0 && NonDecreasing(times) && i <= j < |times|
    ensures var start := After(FRESH, rate, burst, times[..i]);
      Allowed(start, rate, burst, times[i..j + 1]) as real <= burst + Refill(rate, times[i], times[j])
  {
    var window := times[i..j + 1];
    AfterSound(FRESH, rate, burst, times[..i]);
    var start := After(FRESH, rate, burst, times[..i]);
    hide After, Allowed, Refill;
    Potential(start, rate, burst, window);
    AfterSound(start, rate, burst, window);
    assert window[0] == times[i] && window[|window| - 1] == times[j];
    assert After(start, rate, burst, window).tokens >= 0.0;
  }

  // `start` above is where the trace really is: splitting a trace changes no decision.
  lemma {:induction false} AllowedSplit(b: Level, rate: real, burst: real, times: seq<real>, i: nat)
    requires i <= |times|
    ensures After(b, rate, burst, times) == After(After(b, rate, burst, times[..i]), rate, burst, times[i..])
    ensures Allowed(b, rate, burst, times)
         == Allowed(b, rate, burst, times[..i]) + Allowed(After(b, rate, burst, times[..i]), rate, burst, times[i..])
    decreases |times|
  {
    if i < |times| {
      var n := |times| - 1;
      AllowedSplit(b, rate, burst, times[..n], i);
      assert times[..n][..i] == times[..i] && times[..n][i..] == times[i..][..n - i];
    } else {
      assert times[..i] == times;
    }
  }

  // The requests i .. j are no more than a burst and the refill between them.
  predicate WindowFits(rate: real, burst: real, times: seq<real>, i: nat, j: nat)
    requires i <= j < |times|
  {
    (j - i + 1) as real <= burst + Refill(rate, times[i], times[j])
  }

  // If every window fits, nothing is denied, and the bucket stands where the tightest window leaves it.
  lemma {:induction false} WindowsSuffice(rate: real, burst: real, times: seq<real>) returns (i: nat)
    requires rate >= 0.0 && burst >= 0.0 && NonDecreasing(times)
    requires forall i: nat, j: nat :: i <= j < |times| ==> WindowFits(rate, burst, times, i, j)
    ensures Allowed(FRESH, rate, burst, times) == |times|
    ensures |times| > 0 ==>
      var n := |times|;
      && i < n && After(FRESH, rate, burst, times).last == Some(times[n - 1])
      && After(FRESH, rate, burst, times).tokens == burst + Refill(rate, times[i], times[n - 1]) - (n - i) as real
    decreases |times|
  {
    hide Refill;
    i := 0;
    if |times| > 0 {
      var n := |times|;
      var init, now := times[..n - 1], times[n - 1];
      assert WindowFits(rate, burst, times, n - 1, n - 1);
      RefillLaws(rate, now, now, now);
      forall a: nat, b: nat | a <= b < |init|
        ensures WindowFits(rate, burst, init, a, b)
      {
        assert WindowFits(rate, burst, times, a, b);
      }
      i := WindowsSuffice(rate, burst, init);
      if |init| == 0 {
        i := 0;
      } else {
        var mid := After(FRESH, rate, burst, init);
        RefillLaws(rate, times[i], times[n - 2], now);
        assert WindowFits(rate, burst, times, i, n - 1);
        if Available(mid, rate, burst, now) == burst {
          i := n - 1;
        }
      }
    }
  }

  lemma {:induction false} AllowedAtMost(b: Level, rate: real, burst: real, times: seq<real>)
    ensures Allowed(b, rate, burst, times) <= |times|
    decreases |times|
  {
    hide After, Allows;
    if |times| > 0 {
      AllowedAtMost(b, rate, burst, times[..|times| - 1]);
    }
  }

  // The bucket exactly: a fresh one denies nothing of a trace if and only if every window of it fits.
  lemma NothingDeniedIff(rate: real, burst: real, times: seq<real>)
    requires rate >= 0.0 && burst >= 0.0 && NonDecreasing(times)
    ensures Allowed(FRESH, rate, burst, times) == |times|
       <==> forall i: nat, j: nat :: i <= j < |times| ==> WindowFits(rate, burst, times, i, j)
  {
    hide Allowed, After, Refill;
    if Allowed(FRESH, rate, burst, times) == |times| {
      forall i: nat, j: nat | i <= j < |times|
        ensures WindowFits(rate, burst, times, i, j)
      {
        var head := times[..j + 1];
        AllowedSplit(FRESH, rate, burst, times, j + 1);
        AllowedSplit(FRESH, rate, burst, head, i);
        AllowedAtMost(After(FRESH, rate, burst, head), rate, burst, times[j + 1..]);
        assert head[..i] == times[..i] && head[i..] == times[i..j + 1];
        AllowedAtMost(FRESH, rate, burst, times[..i]);
        AllowedAtMost(After(FRESH, rate, burst, times[..i]), rate, burst, times[i..j + 1]);
        WindowBound(rate, burst, times, i, j);
      }
    }
    if forall i: nat, j: nat :: i <= j < |times| ==> WindowFits(rate, burst, times, i, j) {
      var i := WindowsSuffice(rate, burst, times);
    }
  }

  // A sender that leaves `gap` between requests is never denied once the bucket holds one token and refills
  // at least one per gap.
  lemma {:induction false} SpacedNeverDenied(rate: real, burst: real, gap: real, times: seq<real>)
    requires rate >= 0.0 && burst >= 1.0 && gap * rate >= 1.0
    requires forall i :: 0 <= i < |times| - 1 ==> times[i + 1] - times[i] >= gap
    ensures Allowed(FRESH, rate, burst, times) == |times|
    ensures |times| > 0 ==> After(FRESH, rate, burst, times).last == Some(times[|times| - 1])
                            && After(FRESH, rate, burst, times).tokens >= 0.0
  {
    if |times| > 0 {
      var init, now := times[..|times| - 1], times[|times| - 1];
      SpacedNeverDenied(rate, burst, gap, init);
      if |init| > 0 {
        assert init[|init| - 1] == times[|times| - 2];
        SpacedStep(After(FRESH, rate, burst, init), rate, burst, gap, now);
      }
    }
  }

  lemma SpacedStep(b: Level, rate: real, burst: real, gap: real, now: real)
    requires rate >= 0.0 && burst >= 1.0 && gap * rate >= 1.0
    requires b.last.Some? && b.tokens >= 0.0 && now - b.last.value >= gap
    ensures Allows(b, rate, burst, now) && Spend(b, rate, burst, now).tokens >= 0.0
  {
    hide Refill;
    RefillAtLeast(rate, b.last.value, now, gap);
  }

  ghost function Even(n: nat, gap: real): (times: seq<real>)
    ensures |times| == n
  {
    seq(n, i requires 0 <= i < n => i as real * gap)
  }

  // And the pace is exact: any tighter even spacing runs dry once it has gone on for long enough.
  lemma TooFastIsDenied(rate: real, burst: real, gap: real, n: nat)
    requires rate >= 0.0 && burst >= 0.0 && gap >= 0.0 && gap * rate < 1.0
    requires n > 0 && n as real * (1.0 - gap * rate) > burst
    ensures Allowed(FRESH, rate, burst, Even(n, gap)) < n
  {
    hide After, Allowed, Refill;
    var times := Even(n, gap);
    forall i, j | 0 <= i < j < n
      ensures times[i] <= times[j]
    {
      NonNegative((j - i) as real, gap);
      Distribute(gap, 0.0, i as real, j as real);
    }
    Potential(FRESH, rate, burst, times);
    AfterSound(FRESH, rate, burst, times);
    EvenRefill(rate, gap, n);
    assert times[0] == 0 as real * gap && times[n - 1] == (n - 1) as real * gap;
    assert After(FRESH, rate, burst, times).tokens >= 0.0;
    var count := Allowed(FRESH, rate, burst, times);
    assert count as real < n as real;
  }

  lemma EvenRefill(rate: real, gap: real, n: nat)
    requires n > 0 && rate >= 0.0 && gap >= 0.0
    ensures Refill(rate, 0 as real * gap, (n - 1) as real * gap) <= n as real * (gap * rate)
    ensures n as real * (1.0 - gap * rate) == n as real - n as real * (gap * rate)
  {
    NonNegative(gap, rate);
    var k, g := (n - 1) as real, gap * rate;
    Regroup(k, gap, rate);
    assert n as real == k + 1.0;
    Expand(k, g);
    OneMinus(n as real, g);
  }

  lemma Regroup(k: real, gap: real, rate: real)
    ensures (k * gap) * rate == k * (gap * rate)
  {
  }

  lemma Expand(k: real, g: real)
    ensures (k + 1.0) * g == k * g + g
  {
  }

  lemma OneMinus(n: real, g: real)
    ensures n * (1.0 - g) == n - n * g
  {
  }

  // A burst is honoured: the first requests of a fresh bucket pass as long as the burst covers them.
  lemma {:induction false} BurstHonoured(rate: real, burst: real, times: seq<real>)
    requires rate >= 0.0 && NonDecreasing(times) && |times| as real <= burst
    ensures Allowed(FRESH, rate, burst, times) == |times|
    ensures |times| > 0 ==> After(FRESH, rate, burst, times).last == Some(times[|times| - 1])
                            && After(FRESH, rate, burst, times).tokens >= burst - |times| as real
  {
    if |times| > 0 {
      var init, now := times[..|times| - 1], times[|times| - 1];
      BurstHonoured(rate, burst, init);
      if |init| > 0 {
        assert init[|init| - 1] == times[|times| - 2];
        BurstStep(After(FRESH, rate, burst, init), rate, burst, now, burst - |init| as real);
      }
    }
  }

  lemma BurstStep(b: Level, rate: real, burst: real, now: real, left: real)
    requires rate >= 0.0 && 1.0 <= left <= burst && b.last.Some? && b.tokens >= left && now >= b.last.value
    ensures Allows(b, rate, burst, now) && Spend(b, rate, burst, now).tokens >= left - 1.0
  {
    hide Refill;
    RefillLaws(rate, b.last.value, now, now);
  }

  // ---- The per-recipient limiter and its sweep ------------------------------------------------------

  const IDLE_TTL := 300.0
  const SWEEP_AT := 65536

  type Levels = map<string, Level>

  function LevelOf(buckets: Levels, subject: string): Level {
    if subject in buckets then buckets[subject] else FRESH
  }

  // Entries idle longer than the TTL go, but only when a new subject arrives at a full map.
  function SweepIdle(buckets: Levels, subject: string, now: real, sweepAt: nat): Levels {
    if subject !in buckets && |buckets| >= sweepAt
    then map k | k in buckets && !(buckets[k].last.Some? && now - buckets[k].last.value > IDLE_TTL) :: buckets[k]
    else buckets
  }

  function Ask(buckets: Levels, rate: real, subject: string, now: real, sweepAt: nat): Levels {
    SweepIdle(buckets, subject, now, sweepAt)[subject := Spend(LevelOf(buckets, subject), rate, rate * 2.0, now)]
  }

  predicate Grants(buckets: Levels, rate: real, subject: string, now: real) {
    Allows(LevelOf(buckets, subject), rate, rate * 2.0, now)
  }

  class SubjectLimiter {
    var buckets: Levels
    const rate: real
    const burst: real
    const sweepAt: nat := SWEEP_AT

    constructor (rate: real)
      ensures this.rate == rate && burst == rate * 2.0 && buckets == map[]
    {
      this.rate, burst := rate, rate * 2.0;
      buckets := map[];
    }

    // A rate of zero or less disables the limiter.
    method Allow(subject: string, now: real) returns (ok: bool)
      requires burst == rate * 2.0
      modifies this
      ensures rate <= 0.0 ==> ok && buckets == old(buckets)
      ensures rate > 0.0 ==> ok == Grants(old(buckets), rate, subject, now)
      ensures rate > 0.0 ==> buckets == Ask(old(buckets), rate, subject, now, sweepAt)
    {
      if rate <= 0.0 {
        return true;
      }
      if subject !in buckets {
        if |buckets| >= sweepAt {
          var rest := buckets.Keys;
          while rest != {}
            invariant rest <= old(buckets).Keys
            invariant forall k :: k in buckets <==>
              k in old(buckets) && (k in rest
                || !(old(buckets)[k].last.Some? && now - old(buckets)[k].last.value > IDLE_TTL))
            invariant forall k :: k in buckets ==> buckets[k] == old(buckets)[k]
            decreases rest
          {
            var k :| k in rest;
            if buckets[k].last.Some? && now - buckets[k].last.value > IDLE_TTL {
              buckets := buckets - {k};
            }
            rest := rest - {k};
          }
        }
        buckets := buckets[subject := FRESH];
      }
      var b := buckets[subject];
      ok := Allows(b, rate, burst, now);
      buckets := buckets[subject := Spend(b, rate, burst, now)];
    }
  }

  datatype Request = Request(subject: string, now: real)

  // The limiter's map after a trace.
  ghost function MapAfter(rate: real, trace: seq<Request>, sweepAt: nat): Levels {
    if |trace| == 0 then map[]
    else
      var r := trace[|trace| - 1];
      Ask(MapAfter(rate, trace[..|trace| - 1], sweepAt), rate, r.subject, r.now, sweepAt)
  }

  // The reference: one bucket per subject, kept for ever.
  ghost function KeptAfter(rate: real, trace: seq<Request>): Levels {
    if |trace| == 0 then map[]
    else
      var r := trace[|trace| - 1];
      var kept := KeptAfter(rate, trace[..|trace| - 1]);
      kept[r.subject := Spend(LevelOf(kept, r.subject), rate, rate * 2.0, r.now)]
  }

  ghost predicate InOrder(trace: seq<Request>) {
    forall i, j :: 0 <= i < j < |trace| ==> trace[i].now <= trace[j].now
  }

  // The swept map agrees where it has an entry; where it has none, the kept bucket has refilled completely.
  ghost predicate Agree(m: Levels, kept: Levels, rate: real, now: real) {
    && (forall k :: k in m ==> k in kept && m[k] == kept[k])
    && (forall k :: k in kept ==>
          kept[k].last.Some? && kept[k].last.value <= now && 0.0 <= kept[k].tokens <= rate * 2.0)
    && (forall k :: k in kept && k !in m ==> now - kept[k].last.value >= IDLE_TTL)
  }

  lemma IdleIsFull(b: Level, rate: real, now: real)
    requires rate > 0.0 && b.last.Some? && b.tokens >= 0.0 && now - b.last.value >= IDLE_TTL
    ensures Available(b, rate, rate * 2.0, now) == rate * 2.0
  {
    hide Refill;
    RefillAtLeast(rate, b.last.value, now, 300.0);
  }

  lemma AgreeStep(m: Levels, kept: Levels, rate: real, then_: real, r: Request, sweepAt: nat)
    requires rate > 0.0 && Agree(m, kept, rate, then_) && then_ <= r.now
    ensures Grants(m, rate, r.subject, r.now) == Grants(kept, rate, r.subject, r.now)
    ensures Agree(Ask(m, rate, r.subject, r.now, sweepAt),
                  kept[r.subject := Spend(LevelOf(kept, r.subject), rate, rate * 2.0, r.now)], rate, r.now)
  {
    if r.subject in kept {
      if r.subject !in m {
        IdleIsFull(kept[r.subject], rate, r.now);
      }
      RefillSound(kept[r.subject], rate, rate * 2.0, r.now);
    }
  }

  lemma {:induction false} SweepAgrees(rate: real, trace: seq<Request>, sweepAt: nat, now: real)
    requires rate > 0.0 && InOrder(trace) && (|trace| > 0 ==> trace[|trace| - 1].now <= now)
    ensures Agree(MapAfter(rate, trace, sweepAt), KeptAfter(rate, trace), rate, now)
  {
    if |trace| > 0 {
      var n := |trace| - 1;
      var r := trace[n];
      SweepAgrees(rate, trace[..n], sweepAt, r.now);
      AgreeStep(MapAfter(rate, trace[..n], sweepAt), KeptAfter(rate, trace[..n]), rate, r.now, r, sweepAt);
    }
  }

  // Sweeping is unobservable: at every point of every trace, the next request is answered exactly as by a
  // limiter that never deletes a bucket, whatever the sweep threshold.
  lemma SweepUnobservable(rate: real, trace: seq<Request>, next: Request, sweepAt: nat)
    requires rate > 0.0 && InOrder(trace + [next])
    ensures Grants(MapAfter(rate, trace, sweepAt), rate, next.subject, next.now)
         == Grants(KeptAfter(rate, trace), rate, next.subject, next.now)
  {
    assert forall i :: 0 <= i < |trace| ==> (trace + [next])[i] == trace[i];
    assert (trace + [next])[|trace|] == next;
    SweepAgrees(rate, trace, sweepAt, next.now);
    AgreeStep(MapAfter(rate, trace, sweepAt), KeptAfter(rate, trace), rate, next.now, next, sweepAt);
  }
}
