// Whole runs of the transport: nothing published is lost track of or reordered, transmissions are spaced,
// and a transmission so spaced never meets a rate limit of the shipped gateway configuration.
module TransportRuns {
  import opened FiniteSets
  import opened Wrappers
  import opened TransportModel
  import RL = RateLimit

  datatype Op =
    | PublishOp(e: Envelope, now: int, sendOk: bool)
    | PublishTimerOp(now: int, sendOk: bool)
    | RateLimitOp(now: int)
    | RetryTimerOp(now: int, sendOk: bool)
    | ReceiptOp(id: string)
    | TakePendingOp
    | CloseOp

  // Timers fire when they are armed and not before they are due, and every publish brings a new id.
  predicate Enabled(s: State, clock: int, op: Op) {
    match op
    case PublishOp(e, now, _) => clock <= now && !HasId(s.published, e.messageId)
    case PublishTimerOp(now, _) => clock <= now && s.publishDue.Some? && s.publishDue.value <= now
    case RateLimitOp(now) => clock <= now
    case RetryTimerOp(now, _) => clock <= now && s.retryDue.Some? && s.retryDue.value <= now
    case ReceiptOp(_) => true
    case TakePendingOp => true
    case CloseOp => true
  }

  function Apply(s: State, op: Op): State {
    match op
    case PublishOp(e, now, sendOk) => Publish(s, e, now, sendOk)
    case PublishTimerOp(now, sendOk) => PublishTimer(s, now, sendOk)
    case RateLimitOp(now) => RateLimited(s, now)
    case RetryTimerOp(now, sendOk) => RetryTimer(s, now, sendOk)
    case ReceiptOp(id) => Delivered(s, id)
    case TakePendingOp => TakePending(s)
    case CloseOp => Close(s)
  }

  function Clock(clock: int, op: Op): int {
    match op
    case PublishOp(_, now, _) => now
    case PublishTimerOp(now, _) => now
    case RateLimitOp(now) => now
    case RetryTimerOp(now, _) => now
    case ReceiptOp(_) => clock
    case TakePendingOp => clock
    case CloseOp => clock
  }

  // states[k], clocks[k] --ops[k]--> states[k + 1], clocks[k + 1]
  ghost predicate Run(states: seq<State>, clocks: seq<int>, ops: seq<Op>) {
    && |states| == |clocks| == |ops| + 1
    && states[0] == START
    && forall k :: 0 <= k < |ops| ==>
         Enabled(states[k], clocks[k], ops[k]) && states[k + 1] == Apply(states[k], ops[k])
         && clocks[k + 1] == Clock(clocks[k], ops[k])
  }

  // ---- Order and conservation --------------------------------------------------------------------------

  // a appears in b in order.
  predicate Subsequence(a: seq<Envelope>, b: seq<Envelope>) {
    if |a| == 0 then true
    else if |b| == 0 then false
    else if a[|a| - 1] == b[|b| - 1] then Subsequence(a[..|a| - 1], b[..|b| - 1])
    else Subsequence(a, b[..|b| - 1])
  }

  ghost predicate DistinctIds(s: seq<Envelope>) {
    forall i, j :: 0 <= i < j < |s| ==> s[i].messageId != s[j].messageId
  }

  lemma SubsequenceAppend(a: seq<Envelope>, b: seq<Envelope>, e: Envelope)
    requires Subsequence(a, b)
    ensures Subsequence(a + [e], b + [e])
  {
    assert (a + [e])[..|a|] == a && (b + [e])[..|b|] == b;
  }

  lemma {:induction false} SubsequenceLonger(a: seq<Envelope>, b: seq<Envelope>)
    requires |b| > 0 && Subsequence(a, b[..|b| - 1])
    ensures Subsequence(a, b)
    decreases |b|, 0
  {
    if |a| > 0 && a[|a| - 1] == b[|b| - 1] {
      SubsequenceShorter(a, b[..|b| - 1]);
    }
  }

  lemma {:induction false} SubsequenceShorter(a: seq<Envelope>, b: seq<Envelope>)
    requires |a| > 0 && Subsequence(a, b)
    ensures Subsequence(a[..|a| - 1], b)
    decreases |b|, 1
  {
    var b' := b[..|b| - 1];
    if a[|a| - 1] == b[|b| - 1] {
      SubsequenceLonger(a[..|a| - 1], b);
    } else {
      SubsequenceShorter(a, b');
      SubsequenceLonger(a[..|a| - 1], b);
    }
  }

  // Leaving out one element keeps the order.
  lemma {:induction false} SubsequenceWithout(a: seq<Envelope>, i: nat, b: seq<Envelope>)
    requires i < |a| && Subsequence(a, b)
    ensures Subsequence(a[..i] + a[i + 1..], b)
    decreases |b|
  {
    var n := |a| - 1;
    var r := a[..i] + a[i + 1..];
    if i == n {
      SubsequenceShorter(a, b);
      assert r == a[..n];
    } else if a[n] == b[|b| - 1] {
      SubsequenceWithout(a[..n], i, b[..|b| - 1]);
      assert r[..|r| - 1] == a[..n][..i] + a[..n][i + 1..];
      assert r[|r| - 1] == a[n];
    } else {
      SubsequenceWithout(a, i, b[..|b| - 1]);
      SubsequenceLonger(r, b);
    }
  }

  lemma {:induction false} SubsequenceMember(a: seq<Envelope>, b: seq<Envelope>, i: nat)
    requires Subsequence(a, b) && i < |a|
    ensures a[i] in b
    decreases |b|
  {
    if a[|a| - 1] == b[|b| - 1] {
      if i < |a| - 1 {
        SubsequenceMember(a[..|a| - 1], b[..|b| - 1], i);
      }
    } else {
      SubsequenceMember(a, b[..|b| - 1], i);
    }
  }

  lemma {:induction false} SubsequenceDistinct(a: seq<Envelope>, b: seq<Envelope>)
    requires Subsequence(a, b) && DistinctIds(b)
    ensures DistinctIds(a)
    decreases |b|
  {
    if |a| > 0 {
      var a', b' := a[..|a| - 1], b[..|b| - 1];
      if a[|a| - 1] == b[|b| - 1] {
        SubsequenceDistinct(a', b');
        forall i | 0 <= i < |a| - 1
          ensures a[i].messageId != a[|a| - 1].messageId
        {
          SubsequenceMember(a', b', i);
          var k :| 0 <= k < |b'| && b'[k] == a[i];
          assert b[k] == a[i];
        }
      } else {
        SubsequenceDistinct(a, b');
      }
    }
  }

  // Where every published frame is: still pending, or in exactly one of the four fates.
  ghost predicate Accounted(s: State) {
    multiset(s.published) == multiset(Pending(s)) + multiset(s.receipted) + multiset(s.dropped)
                             + multiset(s.handedOff) + multiset(s.cleared)
  }

  ghost predicate Inv(s: State) {
    && DistinctIds(s.published)
    && Subsequence(Pending(s), s.published)
    && Accounted(s)
    && |s.unconfirmed| <= MAX_UNCONFIRMED
    && GAP_FLOOR <= s.gap <= GAP_CAP
    && s.clean < CLEAN_STREAK
  }

  lemma {:induction false} FreshSet(s: seq<Envelope>, e: Envelope)
    requires !HasId(s, e.messageId)
    ensures SetFrame(s, e) == s + [e]
  {
    if |s| > 0 {
      assert forall i :: 0 <= i < |s| - 1 ==> s[1..][i] == s[i + 1];
      FreshSet(s[1..], e);
      assert s + [e] == [s[0]] + (s[1..] + [e]);
    }
  }

  lemma {:induction false} DropPrefix(a: seq<Envelope>, k: nat, b: seq<Envelope>)
    requires k <= |a| && Subsequence(a, b)
    ensures Subsequence(a[k..], b)
    decreases k
  {
    if k > 0 {
      SubsequenceWithout(a, 0, b);
      assert a[..0] + a[1..] == a[1..];
      DropPrefix(a[1..], k - 1, b);
      assert a[1..][k - 1..] == a[k..];
    } else {
      assert a[0..] == a;
    }
  }

  // The pacer moves the head of the queue to the end of the unconfirmed frames, and pushes out the oldest.
  lemma DrainPending(s: State, now: int, sendOk: bool) returns (gone: seq<Envelope>)
    requires DistinctIds(Pending(s)) && |s.unconfirmed| <= MAX_UNCONFIRMED
    ensures var t := Drain(s, now, sendOk);
      && t.dropped == s.dropped + gone
      && Pending(s) == gone + Pending(t)
      && |t.unconfirmed| <= MAX_UNCONFIRMED
  {
    gone := [];
    if !(s.publishDue.Some? || s.publishQueue == [] || !sendOk) {
      gone := MoveHead(s.unconfirmed, s.publishQueue);
    }
  }

  lemma MoveHead(unconfirmed: seq<Envelope>, queue: seq<Envelope>) returns (gone: seq<Envelope>)
    requires queue != [] && DistinctIds(unconfirmed + queue) && |unconfirmed| <= MAX_UNCONFIRMED
    ensures var all := SetFrame(unconfirmed, queue[0]);
      && gone == all[..Excess(all)] && |all[Excess(all)..]| <= MAX_UNCONFIRMED
      && unconfirmed + queue == gone + (all[Excess(all)..] + queue[1..])
  {
    hide SetFrame;
    var next, pending := queue[0], unconfirmed + queue;
    assert pending[|unconfirmed|] == next;
    forall i | 0 <= i < |unconfirmed|
      ensures unconfirmed[i].messageId != next.messageId
    {
      assert pending[i] == unconfirmed[i];
    }
    FreshSet(unconfirmed, next);
    var all := unconfirmed + [next];
    gone := all[..Excess(all)];
    assert all == gone + all[Excess(all)..];
    assert pending == all + queue[1..];
  }

  lemma DrainInv(s: State, now: int, sendOk: bool)
    requires Inv(s)
    ensures Inv(Drain(s, now, sendOk))
  {
    hide Drain, DistinctIds, Subsequence, Pending;
    var t := Drain(s, now, sendOk);
    SubsequenceDistinct(Pending(s), s.published);
    var gone := DrainPending(s, now, sendOk);
    DrainFrame(s, now, sendOk);
    assert Pending(s)[|gone|..] == Pending(t);
    DropPrefix(Pending(s), |gone|, s.published);
    MoveMultiset(Pending(s), gone, Pending(t), s.dropped);
  }

  lemma MoveMultiset(all: seq<Envelope>, gone: seq<Envelope>, rest: seq<Envelope>, dropped: seq<Envelope>)
    requires all == gone + rest
    ensures multiset(all) + multiset(dropped) == multiset(rest) + multiset(dropped + gone)
  {
  }

  lemma DrainFrame(s: State, now: int, sendOk: bool)
    ensures var t := Drain(s, now, sendOk);
      t.published == s.published && t.receipted == s.receipted && t.handedOff == s.handedOff && t.cleared == s.cleared
      && t.gap == s.gap && t.clean == s.clean && t.era == s.era && t.retryDue == s.retryDue
  {
  }

  lemma PublishInv(s: State, e: Envelope, now: int, sendOk: bool)
    requires Inv(s) && !HasId(s.published, e.messageId)
    ensures Inv(Publish(s, e, now, sendOk))
  {
    hide Drain;
    var t := s.(publishQueue := s.publishQueue + [e], published := s.published + [e]);
    SubsequenceAppend(Pending(s), s.published, e);
    assert Pending(t) == Pending(s) + [e];
    assert multiset(t.published) == multiset(s.published) + multiset{e};
    DrainInv(t, now, sendOk);
  }

  lemma {:induction false} DeleteIdParts(s: seq<Envelope>, id: string) returns (i: nat)
    ensures i <= |s|
    ensures i == |s| ==> DeleteId(s, id) == s && FindId(s, id) == [] && !HasId(s, id)
    ensures i < |s| ==> DeleteId(s, id) == s[..i] + s[i + 1..] && FindId(s, id) == [s[i]] && s[i].messageId == id
  {
    if |s| == 0 {
      i := 0;
    } else if s[0].messageId == id {
      i := 0;
    } else {
      var j := DeleteIdParts(s[1..], id);
      i := j + 1;
      assert s == [s[0]] + s[1..];
      assert forall k :: 0 < k < |s| ==> s[k] == s[1..][k - 1];
    }
  }

  lemma DeliveredInv(s: State, id: string)
    requires Inv(s)
    ensures Inv(Delivered(s, id))
  {
    hide DeleteId, FindId, Subsequence, DistinctIds, Pending, Accounted;
    DeliveredPace(s, id);
    DeliveredPending(s, id);
  }

  lemma DeliveredPace(s: State, id: string)
    requires GAP_FLOOR <= s.gap <= GAP_CAP && s.clean < CLEAN_STREAK
    ensures var t := Delivered(s, id);
      GAP_FLOOR <= t.gap <= GAP_CAP && t.clean < CLEAN_STREAK && t.published == s.published
      && t.unconfirmed == DeleteId(s.unconfirmed, id) && t.publishQueue == s.publishQueue
      && t.receipted == s.receipted + FindId(s.unconfirmed, id)
      && t.dropped == s.dropped && t.handedOff == s.handedOff && t.cleared == s.cleared
  {
  }

  lemma DeliveredPending(s: State, id: string)
    requires Inv(s)
    ensures var t := Delivered(s, id);
      Subsequence(Pending(t), s.published) && Accounted(t) && |t.unconfirmed| <= |s.unconfirmed|
  {
    hide DeleteId, FindId, Subsequence, DistinctIds;
    var i := DeleteIdParts(s.unconfirmed, id);
    DeliveredPace(s, id);
    hide Delivered;
    var t := Delivered(s, id);
    if i < |s.unconfirmed| {
      SubsequenceWithout(Pending(s), i, s.published);
      assert Pending(t) == Pending(s)[..i] + Pending(s)[i + 1..];
      RemoveMultiset(Pending(s), i, s.receipted);
      assert t.receipted == s.receipted + [Pending(s)[i]];
    } else {
      assert t.receipted == s.receipted;
    }
  }

  lemma RemoveMultiset(all: seq<Envelope>, i: nat, receipted: seq<Envelope>)
    requires i < |all|
    ensures multiset(all) + multiset(receipted) == multiset(all[..i] + all[i + 1..]) + multiset(receipted + [all[i]])
  {
    assert all == all[..i] + [all[i]] + all[i + 1..];
  }

  lemma ApplyInv(s: State, clock: int, op: Op)
    requires Inv(s) && Enabled(s, clock, op)
    ensures Inv(Apply(s, op))
  {
    hide Drain, Subsequence, Delivered, DistinctIds;
    match op
    case PublishOp(e, now, sendOk) => PublishInv(s, e, now, sendOk);
    case PublishTimerOp(now, sendOk) => DrainInv(s.(publishDue := None), now, sendOk);
    case RateLimitOp(now) =>
    case RetryTimerOp(now, sendOk) =>
      var t := s.(retryDue := None, unconfirmed := [], publishQueue := s.unconfirmed + s.publishQueue);
      assert Pending(t) == Pending(s);
      DrainInv(t, now, sendOk);
    case ReceiptOp(id) => DeliveredInv(s, id);
    case TakePendingOp =>
      EmptyInv(s, TakePending(s));
    case CloseOp =>
      EmptyInv(s, Close(s));
  }

  lemma EmptyInv(s: State, t: State)
    requires t == TakePending(s) || t == Close(s)
    ensures Subsequence(Pending(t), t.published)
    ensures Accounted(s) ==> Accounted(t)
  {
    assert Pending(t) == [];
  }

  lemma {:induction false} RunInv(states: seq<State>, clocks: seq<int>, ops: seq<Op>, k: nat)
    requires Run(states, clocks, ops) && k < |states|
    ensures Inv(states[k])
  {
    if k > 0 {
      RunInv(states, clocks, ops, k - 1);
      ApplyInv(states[k - 1], clocks[k - 1], ops[k - 1]);
    }
  }

  // In every reachable state: what would be replayed is duplicate-free and in publish order, and every
  // published frame is either there or has met exactly one fate.
  lemma OrderAndConservation(states: seq<State>, clocks: seq<int>, ops: seq<Op>, k: nat)
    requires Run(states, clocks, ops) && k < |states|
    ensures var s := states[k];
      && Subsequence(s.unconfirmed + s.publishQueue, s.published)
      && DistinctIds(s.unconfirmed + s.publishQueue)
      && multiset(s.published) == multiset(s.unconfirmed + s.publishQueue) + multiset(s.receipted)
                                  + multiset(s.dropped) + multiset(s.handedOff) + multiset(s.cleared)
      && |s.unconfirmed| <= 256 && 55 <= s.gap <= 1000
  {
    RunInv(states, clocks, ops, k);
    SubsequenceDistinct(Pending(states[k]), states[k].published);
  }

  // Replaying a hand-off on a fresh transport, in order and with a willing socket, keeps it all and in order:
  // one frame goes out, the rest wait for the pacer.
  lemma {:induction false} Replay(target: State, pending: seq<Envelope>, now: int)
    requires Pending(target) == [] && target.publishDue.None?
    ensures var t := ReplayAll(target, pending, now);
      && t.published == target.published + pending
      && Pending(t) == pending
      && (pending != [] ==> t.publishDue.Some? && t.sends == target.sends + [Sent(pending[0], now, target.era)])
      && (pending == [] ==> t == target)
    decreases |pending|
  {
    hide Drain, Publish, Pending;
    if |pending| > 0 {
      var n := |pending| - 1;
      Replay(target, pending[..n], now);
      assert pending == pending[..n] + [pending[n]];
      ReplayOne(ReplayAll(target, pending[..n], now), pending[n], now);
    }
  }

  // Publishing to a willing socket: an idle transport with nothing pending sends at once, a waiting one queues.
  lemma ReplayOne(t: State, e: Envelope, now: int)
    requires t.publishDue.Some? || Pending(t) == []
    ensures var u := Publish(t, e, now, true);
      && u.published == t.published + [e] && Pending(u) == Pending(t) + [e] && u.publishDue.Some? && u.era == t.era
      && u.sends == if t.publishDue.Some? then t.sends else t.sends + [Sent(e, now, t.era)]
  {
    if t.publishDue.Some? {
      assert t.unconfirmed + (t.publishQueue + [e]) == Pending(t) + [e];
    } else {
      assert |Pending(t)| == 0;
      assert t.unconfirmed == [] && t.publishQueue == [];
      assert SetFrame([], e) == [e];
    }
  }

  function ReplayAll(target: State, pending: seq<Envelope>, now: int): State {
    if |pending| == 0 then target
    else Publish(ReplayAll(target, pending[..|pending| - 1], now), pending[|pending| - 1], now, true)
  }

  // ---- Progress ------------------------------------------------------------------------------------------

  function Frames(sends: seq<Sent>): seq<Envelope> {
    if sends == [] then [] else Frames(sends[..|sends| - 1]) + [sends[|sends| - 1].frame]
  }

  // The pacer's timer fires at each of these times, with a willing socket.
  function FireAll(s: State, times: seq<int>): State {
    if times == [] then s else PublishTimer(FireAll(s, times[..|times| - 1]), times[|times| - 1], true)
  }

  // Each of those times the timer was pending and due.
  ghost predicate Due(s: State, times: seq<int>)
    decreases |times|
  {
    times == []
    || (var before := FireAll(s, times[..|times| - 1]);
        Due(s, times[..|times| - 1]) && before.publishDue.Some? && before.publishDue.value <= times[|times| - 1])
  }

  // Each firing puts the next queued frame on the wire, so as many firings as frames empty the queue in order.
  lemma {:induction false} QueueDrains(s: State, times: seq<int>)
    requires |times| <= |s.publishQueue| && Due(s, times)
    ensures var t := FireAll(s, times);
      && t.publishQueue == s.publishQueue[|times|..]
      && Frames(t.sends) == Frames(s.sends) + s.publishQueue[..|times|]
      && (s.publishDue.Some? ==> t.publishDue.Some?)
    decreases |times|
  {
    hide SetFrame, Excess;
    if times != [] {
      var n := |times| - 1;
      QueueDrains(s, times[..n]);
      var mid := FireAll(s, times[..n]);
      var t := FireAll(s, times);
      assert t.sends[..|t.sends| - 1] == mid.sends;
      assert s.publishQueue[..n + 1] == s.publishQueue[..n] + [s.publishQueue[n]];
    }
  }

  // And the firings are there to be had: while frames are queued behind a pending timer, each firing leaves
  // the next one pending.
  lemma {:induction false} TimersKeepComing(s: State, n: nat) returns (times: seq<int>)
    requires s.publishDue.Some? && n <= |s.publishQueue|
    ensures |times| == n && Due(s, times)
    decreases n
  {
    if n == 0 {
      times := [];
    } else {
      var before := TimersKeepComing(s, n - 1);
      QueueDrains(s, before);
      times := before + [FireAll(s, before).publishDue.value];
      assert times[..n - 1] == before;
    }
  }

  // Whether the retry itself puts the first frame on the wire: the pacer is idle and the socket willing.
  predicate SendsAtOnce(s: State, sendOk: bool) {
    s.publishDue.None? && sendOk && Pending(s) != []
  }

  // After a rate-limit error the retry puts every unconfirmed frame on the wire again, then what was queued:
  // the first at once if the pacer is idle, the others one per firing of the pacer.
  lemma RetryResends(s: State, now: int, sendOk: bool, times: seq<int>)
    requires Due(RetryTimer(s, now, sendOk), times)
    requires |times| == |Pending(s)| - if SendsAtOnce(s, sendOk) then 1 else 0
    ensures var t := FireAll(RetryTimer(s, now, sendOk), times);
      t.publishQueue == [] && Frames(t.sends) == Frames(s.sends) + Pending(s)
  {
    hide Due, RetryTimer, Frames, FireAll;
    var all := Pending(s);
    RetryState(s, now, sendOk);
    QueueDrains(RetryTimer(s, now, sendOk), times);
    assert SendsAtOnce(s, sendOk) ==> all == [all[0]] + all[1..];
  }

  lemma RetryState(s: State, now: int, sendOk: bool)
    ensures var t := RetryTimer(s, now, sendOk);
      var sent := if SendsAtOnce(s, sendOk) then 1 else 0;
      t.publishQueue == Pending(s)[sent..] && Frames(t.sends) == Frames(s.sends) + Pending(s)[..sent]
  {
    hide Excess;
    var all, t := Pending(s), RetryTimer(s, now, sendOk);
    if SendsAtOnce(s, sendOk) {
      assert t.sends[..|t.sends| - 1] == s.sends;
    } else {
      assert all[0..] == all;
    }
  }

  // Those firings come if and only if the pacer was already waiting or the socket takes the first frame;
  // otherwise nothing goes out and everything stays pending in order, for the hand-off on reconnect.
  lemma RetryGoesOn(s: State, now: int, sendOk: bool)
    requires Pending(s) != []
    ensures var t := RetryTimer(s, now, sendOk);
      && (t.publishDue.Some? <==> s.publishDue.Some? || sendOk)
      && (t.publishDue.None? ==>
        t.sends == s.sends && t.publishQueue == Pending(s) && TakePending(t).handedOff == s.handedOff + Pending(s))
  {
    hide SetFrame, Excess;
    if s.publishDue.None? && !sendOk {
      assert [] + Pending(s) == Pending(s);
    }
  }

  // ---- Spacing -----------------------------------------------------------------------------------------

  // Transmissions of one era are at least 55 ms apart; the next one waits for the timer.
  ghost predicate Spaced(s: State, clock: int) {
    && (forall i :: 0 <= i < |s.sends| ==> s.sends[i].era <= s.era && s.sends[i].at <= clock)
    && (forall i :: 0 <= i < |s.sends| - 1 ==>
          s.sends[i].era <= s.sends[i + 1].era
          && (s.sends[i].era == s.sends[i + 1].era ==> s.sends[i + 1].at - s.sends[i].at >= GAP_FLOOR))
    && (|s.sends| > 0 && s.sends[|s.sends| - 1].era == s.era ==>
          var last := s.sends[|s.sends| - 1].at;
          if s.publishDue.Some? then s.publishDue.value - last >= GAP_FLOOR else clock - last >= GAP_FLOOR)
  }

  lemma DrainSpaced(s: State, clock: int, now: int, sendOk: bool)
    requires Spaced(s, clock) && clock <= now && s.gap >= GAP_FLOOR
    ensures Spaced(Drain(s, now, sendOk), now)
  {
    hide SetFrame;
  }

  lemma ApplySpaced(s: State, clock: int, op: Op)
    requires Spaced(s, clock) && Inv(s) && Enabled(s, clock, op)
    ensures Spaced(Apply(s, op), Clock(clock, op))
  {
    hide Drain, Inv, DeleteId, FindId, Pending, Slower, Faster, Spaced;
    InvGap(s);
    match op
    case PublishOp(e, now, sendOk) =>
      var t := s.(publishQueue := s.publishQueue + [e], published := s.published + [e]);
      SameSends(s, t, clock, now);
      DrainSpaced(t, now, now, sendOk);
    case PublishTimerOp(now, sendOk) =>
      TimerSpaced(s, clock, now);
      DrainSpaced(s.(publishDue := None), now, now, sendOk);
    case RateLimitOp(now) => SameSends(s, RateLimited(s, now), clock, now);
    case RetryTimerOp(now, sendOk) =>
      var t := s.(retryDue := None, unconfirmed := [], publishQueue := s.unconfirmed + s.publishQueue);
      SameSends(s, t, clock, now);
      DrainSpaced(t, now, now, sendOk);
    case ReceiptOp(id) => SameSends(s, Delivered(s, id), clock, clock);
    case TakePendingOp => NewEra(s, TakePending(s), clock);
    case CloseOp => NewEra(s, Close(s), clock);
  }

  // A timer that fires when due leaves at least the gap behind it.
  lemma TimerSpaced(s: State, clock: int, now: int)
    requires Spaced(s, clock) && clock <= now && s.publishDue.Some? && s.publishDue.value <= now
    ensures Spaced(s.(publishDue := None), now)
  {
  }

  lemma SameSends(s: State, t: State, clock: int, now: int)
    requires Spaced(s, clock) && clock <= now
    requires t.sends == s.sends && t.era == s.era && t.publishDue == s.publishDue
    ensures Spaced(t, now)
  {
  }

  lemma NewEra(s: State, t: State, clock: int)
    requires Spaced(s, clock) && t.sends == s.sends && t.era > s.era
    ensures Spaced(t, clock)
  {
  }

  lemma InvGap(s: State)
    requires Inv(s)
    ensures s.gap >= GAP_FLOOR
  {
  }

  // The pacing theorem: in every run, consecutive transmissions with no hand-off or close between them are
  // at least 55 ms apart.
  lemma {:induction false} Paced(states: seq<State>, clocks: seq<int>, ops: seq<Op>, k: nat)
    requires Run(states, clocks, ops) && k < |states|
    ensures Spaced(states[k], clocks[k])
  {
    hide Spaced, Inv;
    if k > 0 {
      Paced(states, clocks, ops, k - 1);
      RunInv(states, clocks, ops, k - 1);
      ApplySpaced(states[k - 1], clocks[k - 1], ops[k - 1]);
    } else {
      StartSpaced(clocks[0]);
    }
  }

  lemma StartSpaced(clock: int)
    ensures Spaced(START, clock)
  {
  }

  // ---- Meeting the gateway's bucket ----------------------------------------------------------------------

  // The times, in seconds, of consecutive transmissions i .. j of one era.
  function Times(sends: seq<Sent>, i: nat, j: nat): (times: seq<real>)
    requires i <= j <= |sends|
    ensures |times| == j - i
  {
    seq(j - i, k requires 0 <= k < j - i => sends[i + k].at as real / 1000.0)
  }

  // What arrives at the bucket, in order: the transmissions, the k-th at place at[k] and held up on the way by its
  // own time of at most `jitter` seconds, and at most `relays` handshake frames at any times.
  ghost predicate Arrivals(sent: seq<real>, at: seq<nat>, arrived: seq<real>, jitter: real, relays: nat) {
    && |at| == |sent| && |arrived| <= |sent| + relays && RL.NonDecreasing(arrived)
    && (forall k :: 0 <= k < |at| ==> at[k] < |arrived| && sent[k] <= arrived[at[k]] <= sent[k] + jitter)
    && (forall k, l :: 0 <= k < l < |at| ==> at[k] < at[l])
  }

  // The delay that the burst covers, with that many relays.
  function MaxJitter(relays: nat): real {
    2.15 - 0.055 * relays as real
  }

  lemma {:induction false} Spread(times: seq<real>, a: nat, b: nat)
    requires a <= b < |times| && forall i :: 0 <= i < |times| - 1 ==> times[i + 1] - times[i] >= 0.055
    ensures times[b] - times[a] >= 0.055 * (b - a) as real
    decreases b - a
  {
    if a < b {
      Spread(times, a, b - 1);
    }
  }

  ghost function Places(at: seq<nat>, p: nat, q: nat): set<nat>
    requires p <= q <= |at|
  {
    set k | p <= k < q :: at[k]
  }

  lemma {:induction false} PlacesCount(at: seq<nat>, p: nat, q: nat)
    requires p <= q <= |at| && forall k, l :: 0 <= k < l < |at| ==> at[k] < at[l]
    ensures |Places(at, p, q)| == q - p
    decreases q - p
  {
    if p < q {
      PlacesCount(at, p, q - 1);
      assert Places(at, p, q) == Places(at, p, q - 1) + {at[q - 1]};
      assert at[q - 1] !in Places(at, p, q - 1);
    } else {
      assert Places(at, p, q) == {};
    }
  }

  ghost function From(a: nat, n: nat): (r: set<nat>)
    ensures |r| == n && forall i: nat :: i in r <==> a <= i < a + n
  {
    if n == 0 then {} else From(a, n - 1) + {a + n - 1}
  }

  // The transmissions whose places lie from `a` on.
  lemma {:induction false} FirstFrom(at: seq<nat>, a: nat, p: nat) returns (r: nat)
    requires p <= |at| && forall k, l :: 0 <= k < l < |at| ==> at[k] < at[l]
    requires forall k :: 0 <= k < p ==> at[k] < a
    ensures p <= r <= |at| && (forall k :: 0 <= k < r ==> at[k] < a) && (forall k :: r <= k < |at| ==> at[k] >= a)
    decreases |at| - p
  {
    if p < |at| && at[p] < a {
      r := FirstFrom(at, a, p + 1);
    } else {
      r := p;
    }
  }

  // A window holds no more relays than there are, so all but that many of it are consecutive transmissions.
  lemma OwnInWindow(at: seq<nat>, count: nat, relays: nat, a: nat, b: nat) returns (p: nat, q: nat)
    requires forall k, l :: 0 <= k < l < |at| ==> at[k] < at[l]
    requires (forall k :: 0 <= k < |at| ==> at[k] < count) && count <= |at| + relays && a <= b < count
    ensures p <= q <= |at| && q - p >= b - a + 1 - relays
    ensures forall k :: p <= k < q ==> a <= at[k] <= b
  {
    p := FirstFrom(at, a, 0);
    q := FirstFrom(at, b + 1, p);
    PlacesCount(at, p, q);
    PlacesCount(at, 0, |at|);
    var window, all, own := From(a, b - a + 1), From(0, count), Places(at, 0, |at|);
    assert own <= all;
    assert |all - own| == |all| - |own|;
    assert window <= Places(at, p, q) + (all - own) by {
      forall i | i in window && i in own
        ensures i in Places(at, p, q)
      {
        var k :| 0 <= k < |at| && at[k] == i;
        assert p <= k < q;
      }
    }
    UnionSize(window, Places(at, p, q), all - own);
  }

  // Up to 40 arrivals fit the burst whenever they come; from 41 on the pace makes up for the delay.
  lemma Fits(sent: seq<real>, at: seq<nat>, arrived: seq<real>, jitter: real, relays: nat, a: nat, b: nat)
    requires 0.0 <= jitter <= MaxJitter(relays) && Arrivals(sent, at, arrived, jitter, relays) && a <= b < |arrived|
    requires forall i :: 0 <= i < |sent| - 1 ==> sent[i + 1] - sent[i] >= 0.055
    ensures RL.WindowFits(20.0, 40.0, arrived, a, b)
  {
    assert a < b ==> arrived[a] <= arrived[b];
    if b - a >= 40 {
      var p, q := OwnInWindow(at, |arrived|, relays, a, b);
      assert relays < 40;
      Spread(sent, p, q - 1);
      assert a < at[p] ==> arrived[a] <= arrived[at[p]];
      assert at[q - 1] < b ==> arrived[at[q - 1]] <= arrived[b];
      assert arrived[b] - arrived[a] >= 0.055 * (q - 1 - p) as real - jitter;
      assert (q - 1 - p) as real >= (b - a) as real - relays as real;
    }
  }

  // A stretch of transmissions of one era of some run, and what arrives.
  ghost predicate Stretch(states: seq<State>, clocks: seq<int>, ops: seq<Op>, k: nat, i: nat, j: nat,
                          at: seq<nat>, arrived: seq<real>, jitter: real, relays: nat) {
    && Run(states, clocks, ops) && k < |states| && i <= j <= |states[k].sends|
    && (forall a, b :: i <= a < j && i <= b < j ==> states[k].sends[a].era == states[k].sends[b].era)
    && Arrivals(Times(states[k].sends, i, j), at, arrived, jitter, relays)
  }

  // With the shipped limit of 20 per second and burst 40, a connection's bucket denies none of the transmissions
  // of one era, nor any relay in between, though the network bunches them up by as much as MaxJitter.
  lemma NeverRateLimited(states: seq<State>, clocks: seq<int>, ops: seq<Op>, k: nat, i: nat, j: nat,
                         at: seq<nat>, arrived: seq<real>, jitter: real, relays: nat)
    requires Stretch(states, clocks, ops, k, i, j, at, arrived, jitter, relays)
    requires 0.0 <= jitter <= MaxJitter(relays)
    ensures RL.Allowed(RL.FRESH, 20.0, 40.0, arrived) == |arrived|
  {
    hide RL.Allowed, Inv;
    Paced(states, clocks, ops, k);
    var sends, times := states[k].sends, Times(states[k].sends, i, j);
    forall a | 0 <= a < |times| - 1
      ensures times[a + 1] - times[a] >= 0.055
    {
      assert sends[i + a].era == sends[i + a + 1].era;
      assert sends[i + a + 1].at - sends[i + a].at >= 55;
    }
    hide Run, Times, Spaced;
    forall a: nat, b: nat | a <= b < |arrived|
      ensures RL.WindowFits(20.0, 40.0, arrived, a, b)
    {
      Fits(times, at, arrived, jitter, relays, a, b);
    }
    RL.NothingDeniedIff(20.0, 40.0, arrived);
  }

  // ---- Any longer delay can be denied ----------------------------------------------------------------------

  function Nth(i: nat): Envelope {
    Envelope(seq(i, _ => 'x'), "")
  }

  function FirstFrames(n: nat): (s: seq<Envelope>)
    ensures |s| == n
  {
    seq(n, i requires 0 <= i < n => Nth(i))
  }

  function FirstSends(n: nat): (s: seq<Sent>)
    ensures |s| == n
  {
    seq(n, i requires 0 <= i < n => Sent(Nth(i), 55 * i, 0))
  }

  // After n frames, one published whenever the pacer was ready.
  function Steady(n: nat): State {
    State([], FirstFrames(n), Some(55 * n), None, GAP_FLOOR, 0, FirstFrames(n), [], [], [], [], FirstSends(n), 0)
  }

  lemma NewId(n: nat)
    ensures !HasId(FirstFrames(n), Nth(n).messageId)
  {
    forall i | 0 <= i < n
      ensures FirstFrames(n)[i].messageId != Nth(n).messageId
    {
      assert |Nth(i).messageId| == i;
    }
  }

  // The pacer's timer finds nothing queued; then the next frame goes out at once.
  lemma SteadyStep(n: nat)
    requires 0 < n < MAX_UNCONFIRMED
    ensures var s := PublishTimer(Steady(n), 55 * n, true);
      s == Steady(n).(publishDue := None) && Publish(s, Nth(n), 55 * n, true) == Steady(n + 1)
  {
    hide SetFrame;
    NewId(n);
    FreshSet(FirstFrames(n), Nth(n));
    assert FirstFrames(n) + [Nth(n)] == FirstFrames(n + 1);
    assert FirstSends(n) + [Sent(Nth(n), 55 * n, 0)] == FirstSends(n + 1);
    assert [] + [Nth(n)] == [Nth(n)] && [Nth(n)][1..] == [];
    assert FirstFrames(n + 1)[0..] == FirstFrames(n + 1) && FirstFrames(n + 1)[..0] == [];
  }

  lemma {:induction false} SteadyRun(n: nat) returns (states: seq<State>, clocks: seq<int>, ops: seq<Op>)
    requires 0 < n <= MAX_UNCONFIRMED
    ensures Run(states, clocks, ops) && states[|ops|] == Steady(n) && clocks[|ops|] == 55 * (n - 1)
    decreases n
  {
    hide PublishTimer, Publish;
    if n == 1 {
      ops := [PublishOp(Nth(0), 0, true)];
      states, clocks := [START, Steady(1)], [0, 0];
      FirstStep();
    } else {
      var m := n - 1;
      states, clocks, ops := SteadyRun(m);
      SteadyStep(m);
      NewId(m);
      var mid, last := |ops|, |ops| + 1;
      var t, u := Steady(m).(publishDue := None), Steady(m + 1);
      states, clocks := states + [t, u], clocks + [55 * m, 55 * m];
      ops := ops + [PublishTimerOp(55 * m, true), PublishOp(Nth(m), 55 * m, true)];
      assert states[mid] == Steady(m) && states[last] == t && states[last + 1] == u;
    }
  }

  lemma FirstStep()
    ensures Publish(START, Nth(0), 0, true) == Steady(1)
  {
    assert SetFrame([], Nth(0)) == [Nth(0)];
    assert [] + [Nth(0)] == [Nth(0)] && FirstFrames(1) == [Nth(0)] && FirstSends(1) == [Sent(Nth(0), 0, 0)];
  }

  // Relays and transmissions, 41 in all: the relays and the first transmissions held up together, the others sent
  // at the pacer's floor and arriving at once.
  function Bunched(hold: real, relays: nat): (arrived: seq<real>)
    requires relays <= 40
    ensures |arrived| == 41
  {
    seq(41, k requires 0 <= k < 41 =>
      if k < relays || 0.055 * (k - relays) as real < hold then hold else 0.055 * (k - relays) as real)
  }

  function After(relays: nat, n: nat): (at: seq<nat>)
    ensures |at| == n
  {
    seq(n, k requires 0 <= k < n => relays + k)
  }

  lemma BunchedDenied(hold: real, jitter: real, extra: nat, relays: nat)
    requires extra <= 40 && extra <= relays && 0.0 <= hold <= jitter
    requires hold <= 0.055 * (40 - extra) as real && 0.055 * (40 - extra) as real - hold < 0.05
    ensures Arrivals(Times(FirstSends(41 - extra), 0, 41 - extra), After(extra, 41 - extra), Bunched(hold, extra),
      jitter, relays)
    ensures RL.Allowed(RL.FRESH, 20.0, 40.0, Bunched(hold, extra)) != 41
  {
    hide RL.Allowed;
    var n := 41 - extra;
    var sent, at, arrived := Times(FirstSends(n), 0, n), After(extra, n), Bunched(hold, extra);
    forall k | 0 <= k < n
      ensures sent[k] == 0.055 * k as real && sent[k] <= arrived[at[k]] <= sent[k] + jitter
    {
      assert sent[k] == (55 * k) as real / 1000.0;
    }
    assert arrived[0] == hold && arrived[40] == 0.055 * (40 - extra) as real;
    assert !RL.WindowFits(20.0, 40.0, arrived, 0, 40);
    RL.NothingDeniedIff(20.0, 40.0, arrived);
  }

  ghost predicate NoneDenied(states: seq<State>, clocks: seq<int>, ops: seq<Op>, k: nat, i: nat, j: nat,
                             at: seq<nat>, arrived: seq<real>, jitter: real, relays: nat) {
    Stretch(states, clocks, ops, k, i, j, at, arrived, jitter, relays) ==>
      RL.Allowed(RL.FRESH, 20.0, 40.0, arrived) == |arrived|
  }

  // The delay the shipped gateway and the shipped pacer allow between them, exactly, for every number of relays.
  lemma JitterIff(jitter: real, relays: nat)
    requires jitter >= 0.0
    ensures (forall states, clocks, ops, k, i, j, at, arrived ::
        NoneDenied(states, clocks, ops, k, i, j, at, arrived, jitter, relays)) <==> jitter <= MaxJitter(relays)
  {
    hide Stretch, RL.Allowed;
    if jitter <= MaxJitter(relays) {
      forall states, clocks, ops, k, i, j, at, arrived
        ensures NoneDenied(states, clocks, ops, k, i, j, at, arrived, jitter, relays)
      {
        if Stretch(states, clocks, ops, k, i, j, at, arrived, jitter, relays) {
          NeverRateLimited(states, clocks, ops, k, i, j, at, arrived, jitter, relays);
        }
      }
    } else {
      var extra := if relays < 40 then relays else 40;
      var n := 41 - extra;
      var states, clocks, ops := SteadyRun(n);
      var last := 0.055 * (40 - extra) as real;
      var hold := if jitter < last then jitter else last;
      BunchedDenied(hold, jitter, extra, relays);
      StretchOf(states, clocks, ops, n, After(extra, n), Bunched(hold, extra), jitter, relays);
      assert !NoneDenied(states, clocks, ops, |ops|, 0, n, After(extra, n), Bunched(hold, extra), jitter, relays);
    }
  }

  lemma StretchOf(states: seq<State>, clocks: seq<int>, ops: seq<Op>, n: nat, at: seq<nat>, arrived: seq<real>,
                  jitter: real, relays: nat)
    requires Run(states, clocks, ops) && states[|ops|] == Steady(n)
    requires Arrivals(Times(FirstSends(n), 0, n), at, arrived, jitter, relays)
    ensures Stretch(states, clocks, ops, |ops|, 0, n, at, arrived, jitter, relays)
  {
    hide Arrivals, Enabled, Apply;
  }
}
