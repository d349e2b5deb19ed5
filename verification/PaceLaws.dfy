// What each step does to the transport's buffers and timers, in numbers; and how its pace slows down and recovers
// over whole runs.
module PaceLaws {
  import opened Wrappers
  import opened TransportModel
  import opened TransportRuns

  // ---- Sending and forgetting -------------------------------------------------------------------------------

  ghost predicate SameButSending(s: State, t: State) {
    && t.gap == s.gap && t.clean == s.clean && t.era == s.era && t.retryDue == s.retryDue
    && t.published == s.published && t.receipted == s.receipted && t.handedOff == s.handedOff && t.cleared == s.cleared
  }

  // An idle pacer puts the head of the queue on a willing socket, waits one gap, and remembers the frame as the newest
  // of at most 256 unconfirmed; otherwise nothing happens.
  lemma DrainSays(s: State, now: int, sendOk: bool)
    requires Inv(s)
    ensures var t := Drain(s, now, sendOk);
      if s.publishDue == None && s.publishQueue != [] && sendOk
      then && t.publishQueue == s.publishQueue[1..] && t.publishDue == Some(now + s.gap) && SameButSending(s, t)
           && t.sends == s.sends + [Sent(s.publishQueue[0], now, s.era)]
           && if |s.unconfirmed| < 256
              then t.unconfirmed == s.unconfirmed + [s.publishQueue[0]] && t.dropped == s.dropped
              else && t.unconfirmed == s.unconfirmed[1..] + [s.publishQueue[0]]
                   && t.dropped == s.dropped + [s.unconfirmed[0]]
      else t == s
  {
    if s.publishDue == None && s.publishQueue != [] && sendOk {
      var head := s.publishQueue[0];
      SubsequenceDistinct(Pending(s), s.published);
      forall i | 0 <= i < |s.unconfirmed|
        ensures s.unconfirmed[i].messageId != head.messageId
      {
        assert Pending(s)[i] == s.unconfirmed[i] && Pending(s)[|s.unconfirmed|] == head;
      }
      FreshSet(s.unconfirmed, head);
      hide SetFrame, Subsequence, Accounted;
    }
  }

  lemma UnconfirmedDistinct(s: State)
    requires Inv(s)
    ensures DistinctIds(s.unconfirmed)
  {
    SubsequenceDistinct(Pending(s), s.published);
    hide Subsequence, Accounted;
    forall a, b | 0 <= a < b < |s.unconfirmed|
      ensures s.unconfirmed[a].messageId != s.unconfirmed[b].messageId
    {
      assert Pending(s)[a] == s.unconfirmed[a] && Pending(s)[b] == s.unconfirmed[b];
    }
  }

  // A receipt forgets the frame of its id and no other.
  lemma ReceiptSays(s: State, id: string)
    requires Inv(s)
    ensures var t := Apply(s, ReceiptOp(id));
      && (forall i :: 0 <= i < |s.unconfirmed| && s.unconfirmed[i].messageId == id ==>
            && t.unconfirmed == s.unconfirmed[..i] + s.unconfirmed[i + 1..]
            && t.receipted == s.receipted + [s.unconfirmed[i]])
      && (!HasId(s.unconfirmed, id) ==> t.unconfirmed == s.unconfirmed && t.receipted == s.receipted)
      && t.publishQueue == s.publishQueue && t.publishDue == s.publishDue && t.retryDue == s.retryDue
      && t.sends == s.sends
  {
    UnconfirmedDistinct(s);
    DeletedAndFound(s.unconfirmed, id);
    hide Inv, DistinctIds, DeleteId, FindId, HasId;
    assert s.receipted + [] == s.receipted;
  }

  lemma DeletedAndFound(s: seq<Envelope>, id: string)
    requires DistinctIds(s)
    ensures forall i :: 0 <= i < |s| && s[i].messageId == id ==>
              DeleteId(s, id) == s[..i] + s[i + 1..] && FindId(s, id) == [s[i]]
    ensures !HasId(s, id) ==> DeleteId(s, id) == s && FindId(s, id) == []
  {
    var j := DeleteIdParts(s, id);
    hide DeleteId, FindId;
    if j < |s| {
      assert forall i :: 0 <= i < |s| && s[i].messageId == id ==> i == j;
    }
  }

  // A hand-off and a close leave no frame and no timer.
  lemma StopSays(s: State, op: Op)
    requires op.TakePendingOp? || op.CloseOp?
    ensures var t := Apply(s, op);
      && t.publishQueue == [] && t.unconfirmed == [] && t.publishDue == None && t.retryDue == None
      && t.sends == s.sends && t.gap == s.gap
      && (op.TakePendingOp? ==> t.handedOff == s.handedOff + (s.unconfirmed + s.publishQueue) && t.cleared == s.cleared)
      && (op.CloseOp? ==> t.cleared == s.cleared + (s.unconfirmed + s.publishQueue) && t.handedOff == s.handedOff)
  {
  }

  // ---- The pace ---------------------------------------------------------------------------------------------

  // Half as slow again, rounded up, and at most a second; two thirds of it, rounded down, and at least 55 ms.
  ghost predicate Slowed(g: nat, h: nat) {
    h <= 1000 && if h == 1000 then 3 * g > 1998 else 3 * g <= 2 * h <= 3 * g + 1
  }

  ghost predicate Eased(g: nat, h: nat) {
    h >= 55 && if h == 55 then 2 * g < 168 else 3 * h <= 2 * g < 3 * h + 3
  }

  // A rate limit slows the pace and has everything unconfirmed sent again one such gap later, unless that is
  // already to come.
  lemma LimitSays(s: State, now: int)
    ensures var t := Apply(s, RateLimitOp(now));
      && Slowed(s.gap, t.gap) && t.clean == 0
      && t.retryDue == (if s.retryDue.Some? then s.retryDue else Some(now + t.gap))
      && t == s.(gap := t.gap, clean := 0, retryDue := t.retryDue)
  {
  }

  lemma PaceStep(s: State, op: Op)
    requires Inv(s) && !op.RateLimitOp?
    ensures var t := Apply(s, op);
      if op.ReceiptOp? && s.gap > 55
      then if s.clean < 7 then t.gap == s.gap && t.clean == s.clean + 1 else Eased(s.gap, t.gap) && t.clean == 0
      else t.gap == s.gap && t.clean == s.clean
  {
    hide SetFrame, Excess, DeleteId, FindId, Subsequence, DistinctIds, Accounted;
  }

  ghost function Receipts(ops: seq<Op>, i: nat, k: nat): nat
    requires i <= k <= |ops|
    decreases k
  {
    if k == i then 0 else Receipts(ops, i, k - 1) + if ops[k - 1].ReceiptOp? then 1 else 0
  }

  ghost function Limits(ops: seq<Op>, i: nat, k: nat): nat
    requires i <= k <= |ops|
    decreases k
  {
    if k == i then 0 else Limits(ops, i, k - 1) + if ops[k - 1].RateLimitOp? then 1 else 0
  }

  lemma StepOf(states: seq<State>, clocks: seq<int>, ops: seq<Op>, k: nat)
    requires Run(states, clocks, ops) && k + 1 < |states|
    ensures k < |ops| && Inv(states[k]) && states[k + 1] == Apply(states[k], ops[k])
  {
    hide Inv, Enabled, Apply;
    RunInv(states, clocks, ops, k);
  }

  // In any stretch of any run without a rate limit the pace stays what it is until the eighth receipt since it last
  // changed, which eases it; whatever is sent, queued or handed off meanwhile.
  lemma {:induction false} EasesOnEighth(states: seq<State>, clocks: seq<int>, ops: seq<Op>, i: nat, k: nat)
    requires Run(states, clocks, ops) && i <= k < |states| && Limits(ops, i, k) == 0
    requires states[i].gap > 55 && states[i].clean + Receipts(ops, i, k) <= 8
    requires k > i ==> states[i].clean + Receipts(ops, i, k - 1) < 8
    ensures if states[i].clean + Receipts(ops, i, k) < 8
            then states[k].gap == states[i].gap && states[k].clean == states[i].clean + Receipts(ops, i, k)
            else Eased(states[i].gap, states[k].gap) && states[k].clean == 0
    decreases k
  {
    hide Run, Inv, Apply, Eased;
    StateInv(states, clocks, ops, i);
    if k > i {
      StepOf(states, clocks, ops, k - 1);
      EasesOnEighth(states, clocks, ops, i, k - 1);
      PaceStep(states[k - 1], ops[k - 1]);
    }
  }

  lemma StateInv(states: seq<State>, clocks: seq<int>, ops: seq<Op>, k: nat)
    requires Run(states, clocks, ops) && k < |states|
    ensures 55 <= states[k].gap <= 1000 && states[k].clean < 8
  {
    RunInv(states, clocks, ops, k);
  }

  // How often a pace has to ease before it is at the floor.
  ghost function EasesLeft(g: nat): nat {
    if g <= 55 then 0 else if g <= 83 then 1 else if g <= 125 then 2 else if g <= 188 then 3 else if g <= 283 then 4
    else if g <= 425 then 5 else if g <= 638 then 6 else if g <= 958 then 7 else 8
  }

  lemma EasingHelps(g: nat, h: nat)
    requires 55 < g <= 1000 && Eased(g, h)
    ensures EasesLeft(h) < EasesLeft(g) <= 8
  {
  }

  // So 64 receipts without a rate limit between bring any pace back to 55 ms, where it stays until the next one.
  lemma {:induction false} Recovers(states: seq<State>, clocks: seq<int>, ops: seq<Op>, i: nat, k: nat)
    requires Run(states, clocks, ops) && i <= k < |states| && Limits(ops, i, k) == 0 && Receipts(ops, i, k) >= 64
    ensures states[k].gap == 55
  {
    StateInv(states, clocks, ops, k);
    Recovering(states, clocks, ops, i, k);
  }

  lemma {:induction false} Recovering(states: seq<State>, clocks: seq<int>, ops: seq<Op>, i: nat, k: nat)
    requires Run(states, clocks, ops) && i <= k < |states| && Limits(ops, i, k) == 0
    ensures 8 * EasesLeft(states[k].gap) <= 64 && (states[k].gap > 55 ==>
              8 * EasesLeft(states[k].gap) - states[k].clean
              <= 8 * EasesLeft(states[i].gap) - states[i].clean - Receipts(ops, i, k))
    decreases k
  {
    hide Run, Inv, Apply, Eased;
    StateInv(states, clocks, ops, k);
    if k > i {
      StepOf(states, clocks, ops, k - 1);
      Recovering(states, clocks, ops, i, k - 1);
      StateInv(states, clocks, ops, k - 1);
      PaceStep(states[k - 1], ops[k - 1]);
      if states[k - 1].gap > 55 && Eased(states[k - 1].gap, states[k].gap) {
        EasingHelps(states[k - 1].gap, states[k].gap);
      }
    }
  }

  // And eight rate limits without a receipt between slow any pace down to a second.
  lemma {:induction false} SlowsDown(states: seq<State>, clocks: seq<int>, ops: seq<Op>, i: nat, k: nat)
    requires Run(states, clocks, ops) && i <= k < |states| && Receipts(ops, i, k) == 0 && Limits(ops, i, k) >= 8
    ensures states[k].gap == 1000
  {
    StateInv(states, clocks, ops, i);
    StateInv(states, clocks, ops, k);
    Slowing(states, clocks, ops, i, k);
  }

  ghost function PaceAfter(n: nat): nat {
    if n >= 8 then 1000 else [55, 83, 125, 188, 282, 423, 635, 953][n]
  }

  lemma {:induction false} Slowing(states: seq<State>, clocks: seq<int>, ops: seq<Op>, i: nat, k: nat)
    requires Run(states, clocks, ops) && i <= k < |states| && Receipts(ops, i, k) == 0
    ensures states[k].gap >= PaceAfter(Limits(ops, i, k))
    decreases k
  {
    hide Run, Inv, Apply, Eased;
    StateInv(states, clocks, ops, k);
    if k > i {
      StepOf(states, clocks, ops, k - 1);
      Slowing(states, clocks, ops, i, k - 1);
      if ops[k - 1].RateLimitOp? {
        LimitSays(states[k - 1], ops[k - 1].now);
      } else {
        PaceStep(states[k - 1], ops[k - 1]);
      }
    }
  }
}
