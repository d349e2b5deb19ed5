// The transport object: its fields, its timers and its callbacks, each proved to compute the value function
// of the same name in TransportModel.
module Transport {
  import opened Wrappers
  import opened TransportModel
  import TM = TransportModel

  class Transport {
    var publishQueue: seq<Envelope>
    var publishDue: Option<int>
    var currentGapMs: nat
    var cleanSinceBackoff: nat
    var retryDue: Option<int>
    var unconfirmed: seq<Envelope>
    ghost var published: seq<Envelope>
    ghost var receipted: seq<Envelope>
    ghost var dropped: seq<Envelope>
    ghost var handedOff: seq<Envelope>
    ghost var cleared: seq<Envelope>
    ghost var sends: seq<Sent>
    ghost var era: nat

    ghost function Value(): State
      reads this
    {
      State(publishQueue, unconfirmed, publishDue, retryDue, currentGapMs, cleanSinceBackoff,
            published, receipted, dropped, handedOff, cleared, sends, era)
    }

    constructor ()
      ensures Value() == START
    {
      publishQueue, unconfirmed, publishDue, retryDue := [], [], None, None;
      currentGapMs, cleanSinceBackoff := GAP_FLOOR, 0;
      published, receipted, dropped, handedOff, cleared, sends, era := [], [], [], [], [], [], 0;
    }

    method Publish(e: Envelope, now: int, sendOk: bool) returns (sent: Option<Envelope>)
      modifies this
      ensures Value() == TM.Publish(old(Value()), e, now, sendOk)
    {
      publishQueue := publishQueue + [e];
      published := published + [e];
      sent := DrainPublishQueue(now, sendOk);
    }

    // Returns the frame handed to the socket, if any.
    method DrainPublishQueue(now: int, sendOk: bool) returns (sent: Option<Envelope>)
      modifies this
      ensures Value() == Drain(old(Value()), now, sendOk)
      ensures sent == if |sends| > |old(sends)| then Some(old(publishQueue)[0]) else None
    {
      sent := None;
      if publishDue.Some? || publishQueue == [] || !sendOk {
        return;
      }
      var next := publishQueue[0];
      publishQueue := publishQueue[1..];
      unconfirmed := MapSet(unconfirmed, next);
      DropOldest();
      publishDue := Some(now + currentGapMs);
      sends := sends + [Sent(next, now, era)];
      sent := Some(next);
    }

    // The retry buffer stays bounded: the oldest frames go first.
    method DropOldest()
      modifies this`unconfirmed, this`dropped
      ensures unconfirmed == old(unconfirmed)[Excess(old(unconfirmed))..]
      ensures dropped == old(dropped) + old(unconfirmed)[..Excess(old(unconfirmed))]
    {
      ghost var all := unconfirmed;
      ghost var gone := 0;
      while |unconfirmed| > MAX_UNCONFIRMED
        invariant 0 <= gone <= Excess(all) && unconfirmed == all[gone..] && dropped == old(dropped)
      {
        unconfirmed := unconfirmed[1..];
        gone := gone + 1;
      }
      assert |unconfirmed| == |all| - gone && gone == Excess(all);
      dropped := dropped + all[..gone];
    }

    method FirePublishTimer(now: int, sendOk: bool) returns (sent: Option<Envelope>)
      requires publishDue.Some? && publishDue.value <= now
      modifies this
      ensures Value() == PublishTimer(old(Value()), now, sendOk)
    {
      publishDue := None;
      sent := DrainPublishQueue(now, sendOk);
    }

    method OnRateLimited(now: int)
      modifies this
      ensures Value() == RateLimited(old(Value()), now)
    {
      var grown := (currentGapMs * 3 + 1) / 2;
      currentGapMs := if grown < GAP_CAP then grown else GAP_CAP;
      cleanSinceBackoff := 0;
      if retryDue.Some? {
        return;
      }
      retryDue := Some(now + currentGapMs);
    }

    method FireRetryTimer(now: int, sendOk: bool) returns (sent: Option<Envelope>)
      requires retryDue.Some? && retryDue.value <= now
      modifies this
      ensures Value() == RetryTimer(old(Value()), now, sendOk)
    {
      retryDue := None;
      if |unconfirmed| > 0 {
        var retry := unconfirmed;
        unconfirmed := [];
        publishQueue := retry + publishQueue;
      } else {
        assert unconfirmed + publishQueue == publishQueue;
      }
      sent := DrainPublishQueue(now, sendOk);
    }

    method OnDelivered(messageId: string)
      modifies this
      ensures Value() == Delivered(old(Value()), messageId)
    {
      receipted := receipted + FindId(unconfirmed, messageId);
      unconfirmed := MapDelete(unconfirmed, messageId);
      if currentGapMs > GAP_FLOOR {
        cleanSinceBackoff := cleanSinceBackoff + 1;
        if cleanSinceBackoff >= CLEAN_STREAK {
          var eased := currentGapMs * 2 / 3;
          currentGapMs := if eased > GAP_FLOOR then eased else GAP_FLOOR;
          cleanSinceBackoff := 0;
        }
      }
    }

    method TakePending() returns (pending: seq<Envelope>)
      modifies this
      ensures pending == Pending(old(Value()))
      ensures Value() == TM.TakePending(old(Value()))
    {
      publishDue, retryDue := None, None;
      pending := unconfirmed + publishQueue;
      handedOff := handedOff + pending;
      publishQueue := [];
      unconfirmed := [];
      era := era + 1;
    }

    method Close()
      modifies this
      ensures Value() == TM.Close(old(Value()))
    {
      publishDue, retryDue := None, None;
      cleared := cleared + (unconfirmed + publishQueue);
      publishQueue := [];
      unconfirmed := [];
      era := era + 1;
    }

    static method MapSet(s: seq<Envelope>, e: Envelope) returns (r: seq<Envelope>)
      ensures r == SetFrame(s, e)
    {
      var i := 0;
      while i < |s| && s[i].messageId != e.messageId
        invariant 0 <= i <= |s|
        invariant forall k :: 0 <= k < i ==> s[k].messageId != e.messageId
      {
        i := i + 1;
      }
      SetFrameAt(s, e, i);
      r := if i < |s| then s[i := e] else s + [e];
    }

    static lemma {:induction false} SetFrameAt(s: seq<Envelope>, e: Envelope, i: nat)
      requires i <= |s| && (forall k :: 0 <= k < i ==> s[k].messageId != e.messageId)
      requires i < |s| ==> s[i].messageId == e.messageId
      ensures SetFrame(s, e) == if i < |s| then s[i := e] else s + [e]
    {
      if i > 0 {
        SetFrameAt(s[1..], e, i - 1);
        assert s == [s[0]] + s[1..];
      }
    }

    static method MapDelete(s: seq<Envelope>, id: string) returns (r: seq<Envelope>)
      ensures r == DeleteId(s, id)
    {
      var i := 0;
      while i < |s| && s[i].messageId != id
        invariant 0 <= i <= |s|
        invariant forall k :: 0 <= k < i ==> s[k].messageId != id
      {
        i := i + 1;
      }
      DeleteIdAt(s, id, i);
      r := if i < |s| then s[..i] + s[i + 1..] else s;
    }

    static lemma {:induction false} DeleteIdAt(s: seq<Envelope>, id: string, i: nat)
      requires i <= |s| && (forall k :: 0 <= k < i ==> s[k].messageId != id)
      requires i < |s| ==> s[i].messageId == id
      ensures DeleteId(s, id) == if i < |s| then s[..i] + s[i + 1..] else s
    {
      if i > 0 {
        DeleteIdAt(s[1..], id, i - 1);
        assert s == [s[0]] + s[1..];
      }
    }
  }
}
