// What the per-recipient limiter comes to: each recipient has a bucket of its own, which sees that recipient's
// requests and no others, however many recipients there are and whatever is swept.
module RecipientLimit {
  import opened Wrappers
  import opened RateLimit

  // The times of the requests for one recipient, in order.
  ghost function TimesOf(trace: seq<Request>, subject: string): seq<real> {
    if trace == [] then []
    else
      var n := |trace| - 1;
      if trace[n].subject == subject then TimesOf(trace[..n], subject) + [trace[n].now]
      else TimesOf(trace[..n], subject)
  }

  lemma {:induction false} TimesInOrder(trace: seq<Request>, subject: string)
    requires InOrder(trace)
    ensures NonDecreasing(TimesOf(trace, subject))
    ensures forall i :: 0 <= i < |TimesOf(trace, subject)| ==>
      trace != [] && TimesOf(trace, subject)[i] <= trace[|trace| - 1].now
    decreases |trace|
  {
    if trace != [] {
      TimesInOrder(trace[..|trace| - 1], subject);
    }
  }

  lemma OneMoreRequest(b: Level, rate: real, burst: real, times: seq<real>, now: real)
    ensures After(b, rate, burst, times + [now]) == Spend(After(b, rate, burst, times), rate, burst, now)
    ensures Allowed(b, rate, burst, times + [now])
         == Allowed(b, rate, burst, times) + if Allows(After(b, rate, burst, times), rate, burst, now) then 1 else 0
  {
    hide Spend, Allows;
    assert (times + [now])[..|times|] == times;
  }

  // A bucket kept for ever is the recipient's own.
  lemma {:induction false} KeptIsOwn(rate: real, trace: seq<Request>, subject: string)
    ensures var times := TimesOf(trace, subject);
      LevelOf(KeptAfter(rate, trace), subject) == After(FRESH, rate, rate * 2.0, times)
    decreases |trace|
  {
    hide Spend;
    if trace != [] {
      var n := |trace| - 1;
      var r := trace[n];
      KeptIsOwn(rate, trace[..n], subject);
      OneMoreRequest(FRESH, rate, rate * 2.0, TimesOf(trace[..n], subject), r.now);
    }
  }

  // The answer to a request is the one that a single fresh bucket of the given rate, and a burst of twice that,
  // gives after this recipient's earlier requests.
  lemma OwnBucket(rate: real, trace: seq<Request>, next: Request, sweepAt: nat)
    requires rate > 0.0 && InOrder(trace + [next])
    ensures Grants(MapAfter(rate, trace, sweepAt), rate, next.subject, next.now)
       <==> Allows(After(FRESH, rate, rate * 2.0, TimesOf(trace, next.subject)), rate, rate * 2.0, next.now)
  {
    SweepUnobservable(rate, trace, next, sweepAt);
    KeptIsOwn(rate, trace, next.subject);
  }

  // How many of the requests for one recipient, from place `a` on, are granted.
  ghost function Granted(rate: real, trace: seq<Request>, subject: string, sweepAt: nat, a: nat): nat
    decreases |trace|
  {
    if |trace| <= a then 0
    else
      var n := |trace| - 1;
      Granted(rate, trace[..n], subject, sweepAt, a)
      + if trace[n].subject == subject && Grants(MapAfter(rate, trace[..n], sweepAt), rate, subject, trace[n].now)
        then 1 else 0
  }

  lemma {:induction false} TimesPrefix(trace: seq<Request>, subject: string, a: nat)
    requires a <= |trace|
    ensures TimesOf(trace[..a], subject) <= TimesOf(trace, subject)
    decreases |trace|
  {
    if a < |trace| {
      var n := |trace| - 1;
      TimesPrefix(trace[..n], subject, a);
      assert trace[..n][..a] == trace[..a];
    } else {
      assert trace[..a] == trace;
    }
  }

  // They are as many as that bucket allows.
  lemma {:induction false} GrantedIsAllowed(rate: real, trace: seq<Request>, subject: string, sweepAt: nat, a: nat)
    requires rate > 0.0 && InOrder(trace) && a <= |trace|
    ensures var before, times := TimesOf(trace[..a], subject), TimesOf(trace, subject);
      && before <= times
      && Granted(rate, trace, subject, sweepAt, a)
         == Allowed(After(FRESH, rate, rate * 2.0, before), rate, rate * 2.0, times[|before|..])
    decreases |trace|
  {
    hide Grants, MapAfter, After, Allows, Allowed;
    TimesPrefix(trace, subject, a);
    var before, times := TimesOf(trace[..a], subject), TimesOf(trace, subject);
    if a == |trace| {
      assert trace[..a] == trace && times[|before|..] == [];
      NoneAllowed(After(FRESH, rate, rate * 2.0, before), rate);
    } else {
      var n := |trace| - 1;
      var init, r := trace[..n], trace[n];
      assert init[..a] == trace[..a];
      GrantedIsAllowed(rate, init, subject, sweepAt, a);
      assert init + [r] == trace;
      if r.subject == subject {
        OwnBucket(rate, init, r, sweepAt);
        var old_ := TimesOf(init, subject);
        TimesPrefix(init, subject, a);
        assert times == old_ + [r.now] && times[|before|..] == old_[|before|..] + [r.now];
        AllowedSplit(FRESH, rate, rate * 2.0, old_, |before|);
        assert old_[..|before|] == before;
        OneMoreRequest(After(FRESH, rate, rate * 2.0, before), rate, rate * 2.0, old_[|before|..], r.now);
      }
    }
  }

  // At most burst + rate * length of one recipient's requests pass in any window, whoever else is being sent to.
  lemma RecipientBound(rate: real, trace: seq<Request>, subject: string, sweepAt: nat, a: nat, from: real)
    requires rate > 0.0 && InOrder(trace) && a < |trace| && from <= trace[a].now
    ensures Granted(rate, trace, subject, sweepAt, a) as real
         <= rate * 2.0 + rate * (trace[|trace| - 1].now - from)
  {
    hide Granted, After, Allowed, TimesOf;
    GrantedIsAllowed(rate, trace, subject, sweepAt, a);
    TimesInOrder(trace, subject);
    TimesPrefix(trace, subject, a);
    var before, times := TimesOf(trace[..a], subject), TimesOf(trace, subject);
    var to := trace[|trace| - 1].now;
    NonNegative(to - from, rate);
    if |before| == |times| {
      assert times[|before|..] == [];
      NoneAllowed(After(FRESH, rate, rate * 2.0, before), rate);
    } else {
      var i, j := |before|, |times| - 1;
      WindowBound(rate, rate * 2.0, times, i, j);
      assert times[i..j + 1] == times[i..] && times[..i] == before;
      LaterThan(trace, subject, a, i);
      Longer(rate, times[i], times[j], from, to);
    }
  }

  lemma NoneAllowed(b: Level, rate: real)
    ensures Allowed(b, rate, rate * 2.0, []) == 0
  {
  }

  lemma Longer(rate: real, a: real, b: real, from: real, to: real)
    requires rate > 0.0 && from <= a && b <= to
    ensures Refill(rate, a, b) <= rate * (to - from)
  {
    NonNegative((to - from) - (b - a), rate);
  }

  // The requests from place `a` on are no earlier than the one there.
  lemma {:induction false} LaterThan(trace: seq<Request>, subject: string, a: nat, i: nat)
    requires InOrder(trace) && a < |trace| && |TimesOf(trace[..a], subject)| <= i < |TimesOf(trace, subject)|
    ensures TimesOf(trace, subject)[i] >= trace[a].now
    decreases |trace|
  {
    var n := |trace| - 1;
    if a < n && i < |TimesOf(trace[..n], subject)| {
      assert trace[..n][..a] == trace[..a];
      LaterThan(trace[..n], subject, a, i);
    }
  }

  // And all of them are granted, exactly, when every window of them fits.
  lemma RecipientUnhindered(rate: real, trace: seq<Request>, subject: string, sweepAt: nat)
    requires rate > 0.0 && InOrder(trace)
    ensures var times, burst := TimesOf(trace, subject), rate * 2.0;
      Granted(rate, trace, subject, sweepAt, 0) == |times|
      <==> forall i: nat, j: nat :: i <= j < |times| ==> WindowFits(rate, burst, times, i, j)
  {
    hide Granted, Allowed, After;
    var times := TimesOf(trace, subject);
    TimesInOrder(trace, subject);
    GrantedIsAllowed(rate, trace, subject, sweepAt, 0);
    assert trace[..0] == [] && TimesOf([], subject) == [] && times[0..] == times;
    NothingYet(rate);
    NothingDeniedIff(rate, rate * 2.0, times);
  }

  lemma NothingYet(rate: real)
    ensures After(FRESH, rate, rate * 2.0, []) == FRESH
  {
  }

  // The map does not grow without end: when a new recipient comes to a map of that size, whoever has not been sent to
  // for five minutes is forgotten, and nobody else.
  lemma SweepForgets(buckets: Levels, rate: real, subject: string, now: real, sweepAt: nat, k: string)
    requires k != subject && k in buckets && buckets[k].last.Some?
    ensures var after := Ask(buckets, rate, subject, now, sweepAt);
      && (k in after <==> subject in buckets || |buckets| < sweepAt || now - buckets[k].last.value <= 300.0)
      && (k in after ==> after[k] == buckets[k]) && subject in after
  {
  }
}
