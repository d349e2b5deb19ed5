// The in-process bus as the mutable object it is: every exported method is one lock section that updates
// the three maps in place, and computes exactly the state function of BusModel.
module Bus {
  import opened BusModel
  import opened BusRuns
  import opened BusDelivery

  class InProcess {
    var subscribers: map<string, seq<nat>>
    var pending: map<string, seq<Held>>
    var consumers: map<string, map<string, int>>
    var closed: bool
    // The runtime's channels, and what has been published: observers of the run, never read by a decision.
    var chans: map<nat, Chan>
    var history: seq<Publication>
    var clock: int

    ghost function Value(): State
      reads this
    {
      State(subscribers, pending, consumers, closed, chans, history, clock)
    }

    ghost predicate Valid()
      reads this
    {
      Inv(Value())
    }

    constructor ()
      ensures Valid() && Value() == EMPTY
    {
      subscribers, pending, consumers := map[], map[], map[];
      closed, chans, history, clock := false, map[], [], 0;
    }

    method Publish(subject: string, msg: Message) returns (ok: bool)
      requires Valid()
      modifies this
      ensures Valid() && Value() == BusModel.Publish(old(Value()), subject, msg)
      ensures ok == !old(closed)
    {
      hide Inv, Deliver, Received, Hold;
      PublishInv(Value(), subject, msg);
      if closed {
        return false;
      }
      var m := msg.(stamp := |history|);
      SubsFacts(Value(), subject);
      var delivered := DeliverLive(subject, m);
      if (subject in consumers && consumers[subject] != map[]) || !delivered {
        HoldBlob(subject, m);
      }
      history := history + [Publication(subject, m)];
      ok := true;
    }

    // A non-blocking send to every attached channel; a full one is skipped.
    method DeliverLive(subject: string, m: Message) returns (delivered: bool)
      requires LiveChannels(Value(), subject)
      modifies this`chans
      ensures chans == Deliver(old(chans), Subs(old(Value()), subject), m)
      ensures delivered == Received(old(chans), Subs(old(Value()), subject))
    {
      var subs := if subject in subscribers then subscribers[subject] else [];
      ghost var before := chans;
      assert subs == Subs(Value(), subject);
      delivered := false;
      var i := 0;
      while i < |subs|
        invariant 0 <= i <= |subs|
        invariant chans == Deliver(before, subs[..i], m)
        invariant delivered == Received(before, subs[..i])
      {
        var c := subs[i];
        DeliverOne(before, subs, i, m);
        if chans[c].HasRoom() {
          chans := chans[c := chans[c].(log := chans[c].log + [m])];
          delivered := true;
        }
        i := i + 1;
      }
      assert subs[..|subs|] == subs;
    }

    method HoldBlob(subject: string, m: Message)
      modifies this`pending
      ensures pending == old(pending)[subject := Hold(Queue(old(pending), subject), m)]
    {
      var q := if subject in pending then pending[subject] else [];
      if |q| >= MAX_PENDING {
        q := q[1..];
      }
      pending := pending[subject := q + [Held(m, {})]];
    }

    // The victim is whichever of the stalest registrations the map iteration met first.
    method RegisterConsumer(subject: string, consumer: string, now: int) returns (ghost victim: string)
      modifies this`consumers
      ensures ChoosesStalest(old(consumers), subject, consumer, victim)
      ensures consumers == Register(old(consumers), subject, consumer, now, victim)
    {
      victim := "";
      var reg: map<string, int> := map[];
      if subject in consumers {
        reg := consumers[subject];
      } else if |consumers| >= MAX_SUBJECTS {
        return;
      }
      if consumer !in reg && |reg| >= MAX_CONSUMERS {
        var found, stalest, when := false, "", 0;
        var rest := reg.Keys;
        while rest != {}
          invariant rest <= reg.Keys
          invariant !found ==> rest == reg.Keys
          invariant found ==> stalest in reg && when == reg[stalest] && forall c :: c in reg && c !in rest ==>
            when <= reg[c]
          decreases rest
        {
          var id :| id in rest;
          if !found || reg[id] < when {
            found, stalest, when := true, id, reg[id];
          }
          rest := rest - {id};
        }
        victim := stalest;
        if now - when < EVICTION_FLOOR {
          return;
        }
        reg := reg - {stalest};
      }
      consumers := consumers[subject := reg[consumer := now]];
    }

    method PruneConsumerRegistry(subject: string)
      modifies this`consumers
      ensures consumers == Prune(subscribers, pending, old(consumers), subject)
    {
      if subject !in subscribers && subject !in pending {
        consumers := consumers - {subject};
      }
    }

    // `ch` names the channel the runtime allocates.
    method Subscribe(subject: string, consumer: string, ch: nat, now: int) returns (ok: bool, ghost victim: string)
      requires Valid() && clock <= now && ch !in chans
      modifies this
      ensures ChoosesStalest(old(consumers), subject, consumer, victim)
      ensures Valid() && Value() == BusModel.Subscribe(old(Value()), subject, consumer, ch, victim, now)
      ensures ok == !old(closed)
    {
      hide Inv, Register, Unacked, Messages, ChoosesStalest, SubscribersOk, ChansOk, Registered, Stalest, Full;
      ghost var s := Value();
      victim := StalestVictim(consumers, subject);
      SubscribeKeeps(s, subject, consumer, ch, now);
      if closed {
        return false, victim;
      }
      var flush: seq<Message>;
      if consumer != "" {
        victim := RegisterConsumer(subject, consumer, now);
        flush := UnackedBacklog(subject, consumer);
      } else {
        flush := WholeBacklog(subject);
        if !(subject in consumers && consumers[subject] != map[]) {
          pending := pending - {subject};
        }
      }
      chans := chans[ch := Chan(subject, |flush| + HEADROOM, flush, 0, false)];
      subscribers := subscribers[subject := (if subject in subscribers then subscribers[subject] else []) + [ch]];
      clock := now;
      ok := true;
    }

    method UnackedBacklog(subject: string, consumer: string) returns (flush: seq<Message>)
      ensures flush == Unacked(Queue(pending, subject), consumer)
    {
      var q := if subject in pending then pending[subject] else [];
      flush := [];
      var i := 0;
      while i < |q|
        invariant 0 <= i <= |q|
        invariant flush == Unacked(q[..i], consumer)
      {
        assert q[..i + 1][..i] == q[..i];
        if consumer !in q[i].ackedBy {
          flush := flush + [q[i].msg];
        }
        i := i + 1;
      }
      assert q[..|q|] == q;
    }

    method WholeBacklog(subject: string) returns (flush: seq<Message>)
      ensures flush == Messages(Queue(pending, subject))
    {
      var q := if subject in pending then pending[subject] else [];
      flush := [];
      var i := 0;
      while i < |q|
        invariant 0 <= i <= |q|
        invariant flush == Messages(q)[..i]
      {
        flush := flush + [q[i].msg];
        i := i + 1;
      }
    }

    method Detach(subject: string, ch: nat)
      requires Valid() && (ch in chans ==> chans[ch].subject == subject)
      modifies this
      ensures Valid() && Value() == BusModel.Detach(old(Value()), subject, ch)
    {
      hide Inv;
      ghost var s := Value();
      DetachInv(s, subject, ch);
      SubsFacts(s, subject);
      var subs := if subject in subscribers then subscribers[subject] else [];
      var i := 0;
      while i < |subs| && subs[i] != ch
        invariant 0 <= i <= |subs|
        invariant ch !in subs[..i]
      {
        i := i + 1;
      }
      FirstIndex(subs, ch, i);
      if i < |subs| {
        subs := subs[..i] + subs[i + 1..];
        subscribers := subscribers[subject := subs];
        chans := chans[ch := chans[ch].(closed := true)];
      }
      if subs == [] {
        subscribers := subscribers - {subject};
      }
      PruneConsumerRegistry(subject);
      assert subscribers == DetachLists(s, subject, ch);
    }

    method Ack(subject: string, id: string, consumer: string, now: int) returns (ghost victim: string)
      requires Valid() && clock <= now
      modifies this
      ensures ChoosesStalest(old(consumers), subject, consumer, victim)
      ensures Valid() && Value() == BusModel.Ack(old(Value()), subject, id, consumer, victim, now)
      ensures clock <= now
    {
      hide Inv;
      victim := StalestVictim(consumers, subject);
      if closed {
        return;
      }
      victim := AckLocked(subject, id, consumer, now);
    }

    method AckAcross(pairs: seq<SubjectConsumer>, id: string, now: int) returns (ghost victims: seq<string>)
      requires Valid() && clock <= now
      modifies this
      ensures |victims| == |pairs| && AllowedAcks(old(Value()), pairs, id, victims, now)
      ensures Valid() && Value() == AckAll(old(Value()), pairs, id, victims, now)
    {
      hide Inv, BusModel.Ack, Allowed;
      ghost var s := Value();
      victims := [];
      var i := 0;
      while i < |pairs|
        invariant 0 <= i <= |pairs| && |victims| == i
        invariant Valid() && clock <= now
        invariant AllowedAcks(s, pairs[..i], id, victims, now) && Value() == AckAll(s, pairs[..i], id, victims, now)
      {
        ghost var before := victims;
        ghost var victim := Ack(pairs[i].subject, id, pairs[i].consumer, now);
        victims := victims + [victim];
        AckAllStep(s, pairs, i, id, before, victim, now);
        i := i + 1;
      }
      assert pairs[..|pairs|] == pairs;
    }

    method AckLocked(subject: string, id: string, consumer: string, now: int) returns (ghost victim: string)
      requires Valid() && clock <= now && !closed
      modifies this
      ensures ChoosesStalest(old(consumers), subject, consumer, victim)
      ensures Valid() && Value() == BusModel.Ack(old(Value()), subject, id, consumer, victim, now)
      ensures clock <= now
    {
      hide Inv, Register, Mark, WithoutId, BusModel.DropFullyAcked, Prune;
      ghost var s := Value();
      victim := StalestVictim(consumers, subject);
      if consumer == "" {
        if !(subject in consumers && consumers[subject] != map[]) {
          DropMessage(subject, id);
        }
        AckInv(s, subject, id, consumer, victim, now);
        return;
      }
      QueueNotEmpty(s, subject);
      victim := RegisterConsumer(subject, consumer, now);
      MarkAcked(subject, id, consumer);
      DropFullyAcked(subject);
      PruneConsumerRegistry(subject);
      clock := now;
      AckInv(s, subject, id, consumer, victim, now);
    }

    // Every held entry with this id is marked, with no early exit.
    method MarkAcked(subject: string, id: string, consumer: string)
      requires subject in pending ==> pending[subject] != []
      modifies this`pending
      ensures pending == SetQueue(old(pending), subject, Mark(Queue(old(pending), subject), id, consumer))
    {
      if subject in pending {
        ghost var q0 := pending[subject];
        var q := pending[subject];
        var i := 0;
        while i < |q|
          invariant 0 <= i <= |q| == |q0|
          invariant forall k :: 0 <= k < i ==> q[k] == Mark(q0, id, consumer)[k]
          invariant forall k :: i <= k < |q| ==> q[k] == q0[k]
        {
          if q[i].msg.id == id {
            q := q[i := q[i].(ackedBy := q[i].ackedBy + {consumer})];
          }
          i := i + 1;
        }
        assert q == Mark(q0, id, consumer);
        pending := pending[subject := q];
      } else {
        assert pending - {subject} == pending;
      }
    }

    method DropMessage(subject: string, id: string)
      modifies this`pending
      ensures pending == BusModel.DropMessage(old(pending), subject, id)
    {
      var q := if subject in pending then pending[subject] else [];
      var rest: seq<Held> := [];
      var i := 0;
      while i < |q|
        invariant 0 <= i <= |q|
        invariant rest == WithoutId(q[..i], id)
      {
        assert q[..i + 1][..i] == q[..i];
        if q[i].msg.id != id {
          rest := rest + [q[i]];
        }
        i := i + 1;
      }
      assert q[..|q|] == q;
      if rest == [] {
        pending := pending - {subject};
      } else {
        pending := pending[subject := rest];
      }
    }

    // With an empty registry nothing is dropped.
    method DropFullyAcked(subject: string)
      modifies this`pending
      ensures pending == BusModel.DropFullyAcked(old(pending), subject, Registry(consumers, subject))
    {
      if subject !in consumers || consumers[subject] == map[] {
        return;
      }
      var reg := consumers[subject].Keys;
      var q := if subject in pending then pending[subject] else [];
      var rest: seq<Held> := [];
      var i := 0;
      while i < |q|
        invariant 0 <= i <= |q|
        invariant rest == Outstanding(q[..i], reg)
      {
        assert q[..i + 1][..i] == q[..i];
        var all := true;
        var ids := reg;
        while all && ids != {}
          invariant ids <= reg && (all ==> forall c :: c in reg && c !in ids ==> c in q[i].ackedBy)
          invariant !all ==> !(reg <= q[i].ackedBy)
          decreases ids
        {
          var id :| id in ids;
          if id !in q[i].ackedBy {
            all := false;
          }
          ids := ids - {id};
        }
        if !all {
          rest := rest + [q[i]];
        }
        i := i + 1;
      }
      assert q[..|q|] == q;
      if rest == [] {
        pending := pending - {subject};
      } else {
        pending := pending[subject := rest];
      }
    }

    // Drop expired blobs everywhere, then silent registrations, then whatever that leaves fully acked.
    method Sweep(now: int)
      requires Valid() && clock <= now
      modifies this
      ensures Valid() && Value() == BusModel.Sweep(old(Value()), now)
    {
      hide Inv, Unexpired, Outstanding;
      ghost var s := Value();
      SweepInv(s, now);
      SweepExpired(now);
      UnexpiredNone(now);
      forall x
        ensures Unswept(s, x, now, pending, consumers)
      {
      }
      SweepRegistries(s, now);
      clock := now;
      assert SweepKeeps(s, now) by {
        forall x
          ensures SweptQueue(s, x, now) != [] ==> x in s.pending
        {
          EmptySwept(s, x, now);
        }
      }
      SweptAll(s, now, pending, consumers);
    }

    method SweepExpired(now: int)
      modifies this`pending
      ensures pending == map x | x in old(pending) && Unexpired(old(pending)[x], now) != [] ::
        Unexpired(old(pending)[x], now)
    {
      var rest := pending.Keys;
      while rest != {}
        invariant rest <= old(pending).Keys
        invariant forall x :: x in rest ==> x in pending && pending[x] == old(pending)[x]
        invariant forall x :: x in pending ==> x in old(pending)
        invariant forall x :: x in old(pending) && x !in rest ==>
          if Unexpired(old(pending)[x], now) == [] then x !in pending
          else x in pending && pending[x] == Unexpired(old(pending)[x], now)
        decreases rest
      {
        var x :| x in rest;
        var kept := KeepUnexpired(pending[x], now);
        if kept == [] {
          pending := pending - {x};
        } else {
          pending := pending[x := kept];
        }
        rest := rest - {x};
      }
    }

    method KeepUnexpired(q: seq<Held>, now: int) returns (kept: seq<Held>)
      ensures kept == Unexpired(q, now)
    {
      kept := [];
      var i := 0;
      while i < |q|
        invariant 0 <= i <= |q|
        invariant kept == Unexpired(q[..i], now)
      {
        assert q[..i + 1][..i] == q[..i];
        if q[i].msg.expiresAt > now {
          kept := kept + [q[i]];
        }
        i := i + 1;
      }
      assert q[..|q|] == q;
    }

    // The registry half of the sweep, one subject at a time; s is the state before the sweep.
    method SweepRegistries(ghost s: State, now: int)
      requires Inv(s) && subscribers == s.subscribers && consumers == s.consumers
      requires forall x :: Unswept(s, x, now, pending, consumers)
      modifies this`pending, this`consumers
      ensures forall x :: Swept(s, x, now, pending, consumers)
    {
      hide Inv, Unswept, Swept;
      var rest := consumers.Keys;
      forall x | x !in rest
        ensures Swept(s, x, now, pending, consumers)
      {
        NoRegistry(s, x, now, pending, consumers);
      }
      while rest != {}
        invariant rest <= s.consumers.Keys && subscribers == s.subscribers
        invariant forall x :: x in rest ==> Unswept(s, x, now, pending, consumers)
        invariant forall x :: x !in rest ==> Swept(s, x, now, pending, consumers)
        decreases rest
      {
        var x :| x in rest;
        ghost var pending0, consumers0 := pending, consumers;
        SweepOne(s, x, now);
        forall y | y != x
          ensures Unswept(s, y, now, pending0, consumers0) ==> Unswept(s, y, now, pending, consumers)
          ensures Swept(s, y, now, pending0, consumers0) ==> Swept(s, y, now, pending, consumers)
        {
          Elsewhere(s, x, y, now, pending0, consumers0, pending, consumers);
        }
        rest := rest - {x};
      }
    }

    method SweepOne(ghost s: State, x: string, now: int)
      requires Inv(s) && subscribers == s.subscribers && x in s.consumers
      requires Unswept(s, x, now, pending, consumers)
      modifies this`pending, this`consumers
      ensures Swept(s, x, now, pending, consumers)
      ensures pending - {x} == old(pending) - {x} && consumers - {x} == old(consumers) - {x}
    {
      hide Inv, Unexpired, Outstanding;
      SubscribersNotEmpty(s, x);
      OutstandingNone(Recent(consumers[x], now).Keys);
      var reg := KeepRecent(consumers[x], now);
      if reg == map[] {
        consumers := consumers - {x};
      } else {
        consumers := consumers[x := reg];
        DropFullyAcked(x);
        PruneConsumerRegistry(x);
      }
    }

    method KeepRecent(reg: map<string, int>, now: int) returns (kept: map<string, int>)
      ensures kept == Recent(reg, now)
    {
      kept := reg;
      var rest := reg.Keys;
      while rest != {}
        invariant rest <= reg.Keys
        invariant forall c :: c in kept <==> c in reg && (c in rest || now - reg[c] <= RETENTION)
        invariant forall c :: c in kept ==> kept[c] == reg[c]
        decreases rest
      {
        var id :| id in rest;
        if now - reg[id] > RETENTION {
          kept := kept - {id};
        }
        rest := rest - {id};
      }
    }

    // Every subscribed channel is closed, once, and all three maps are emptied.
    method Close() returns (ok: bool)
      requires Valid()
      modifies this
      ensures Valid() && Value() == BusModel.Close(old(Value()))
      ensures ok == !old(closed)
    {
      hide Inv, LiveChannels, Subscribed;
      ghost var s := Value();
      CloseInv(s);
      if closed {
        return false;
      }
      CloseSubscribers(s);
      closed := true;
      subscribers := map[];
      pending := map[];
      consumers := map[];
      ok := true;
    }

    method CloseSubscribers(ghost s: State)
      requires Inv(s) && s == Value()
      modifies this`chans
      ensures chans == map c | c in s.chans :: if Subscribed(s, c) then s.chans[c].(closed := true) else s.chans[c]
    {
      hide Inv;
      var rest := subscribers.Keys;
      while rest != {}
        invariant rest <= subscribers.Keys && subscribers == s.subscribers
        invariant chans.Keys == s.chans.Keys
        invariant forall c :: c in chans ==>
          chans[c] == if Subscribed(s, c) && s.chans[c].subject !in rest then s.chans[c].(closed := true)
            else s.chans[c]
        decreases rest
      {
        var x :| x in rest;
        var subs := subscribers[x];
        SubsFacts(s, x);
        assert subs == Subs(s, x);
        CloseAll(subs);
        rest := rest - {x};
      }
    }

    method CloseAll(subs: seq<nat>)
      requires forall i :: 0 <= i < |subs| ==> subs[i] in chans && !chans[subs[i]].closed
      requires forall i, j :: 0 <= i < j < |subs| ==> subs[i] != subs[j]
      modifies this`chans
      ensures chans.Keys == old(chans).Keys
      ensures forall c :: c in chans ==> chans[c] == if c in subs then old(chans)[c].(closed := true) else old(chans)[c]
    {
      var i := 0;
      while i < |subs|
        invariant 0 <= i <= |subs| && chans.Keys == old(chans).Keys
        invariant forall c :: c in chans ==>
          chans[c] == if c in subs[..i] then old(chans)[c].(closed := true) else old(chans)[c]
      {
        assert subs[..i + 1] == subs[..i] + [subs[i]];
        assert !chans[subs[i]].closed;
        chans := chans[subs[i] := chans[subs[i]].(closed := true)];
        i := i + 1;
      }
      assert subs[..|subs|] == subs;
    }

    // The receiving side.
    method Drain(ch: nat)
      requires Valid()
      modifies this`chans
      ensures Valid() && Value() == BusModel.Drain(old(Value()), ch)
    {
      hide Inv;
      DrainInv(Value(), ch);
      if ch in chans && chans[ch].taken < |chans[ch].log| {
        chans := chans[ch := chans[ch].(taken := chans[ch].taken + 1)];
      }
    }
  }

  // Subject x after the expiry pass, and after the registry pass, of a sweep of s.
  ghost predicate Unswept(s: State, x: string, now: int, pending: map<string, seq<Held>>,
                          consumers: map<string, map<string, int>>) {
    && Queue(pending, x) == Unexpired(Queue(s.pending, x), now)
    && (x in pending <==> Queue(pending, x) != [])
    && (x in consumers <==> x in s.consumers)
    && (x in consumers ==> consumers[x] == s.consumers[x])
  }

  ghost predicate Swept(s: State, x: string, now: int, pending: map<string, seq<Held>>,
                        consumers: map<string, map<string, int>>) {
    && Queue(pending, x) == SweptQueue(s, x, now)
    && (x in pending <==> Queue(pending, x) != [])
    && (x in consumers <==> x in s.consumers && KeepsRegistry(s, x, now))
    && (x in consumers ==> consumers[x] == Recent(s.consumers[x], now))
  }

  lemma NoRegistry(s: State, x: string, now: int, pending: map<string, seq<Held>>,
                   consumers: map<string, map<string, int>>)
    requires Unswept(s, x, now, pending, consumers) && x !in s.consumers
    ensures Swept(s, x, now, pending, consumers)
  {
    hide Unexpired, Outstanding;
  }

  lemma Elsewhere(s: State, x: string, y: string, now: int,
                  pending0: map<string, seq<Held>>, consumers0: map<string, map<string, int>>,
                  pending: map<string, seq<Held>>, consumers: map<string, map<string, int>>)
    requires y != x && pending - {x} == pending0 - {x} && consumers - {x} == consumers0 - {x}
    ensures Unswept(s, y, now, pending0, consumers0) ==> Unswept(s, y, now, pending, consumers)
    ensures Swept(s, y, now, pending0, consumers0) ==> Swept(s, y, now, pending, consumers)
  {
    hide SweptQueue, KeepsRegistry, Unexpired;
    assert y in pending <==> y in pending - {x};
    assert y in pending0 <==> y in pending0 - {x};
    assert y in consumers <==> y in consumers - {x};
    assert y in consumers0 <==> y in consumers0 - {x};
    assert y in pending ==> pending[y] == (pending - {x})[y];
    assert y in pending0 ==> pending0[y] == (pending0 - {x})[y];
    assert y in consumers ==> consumers[y] == (consumers - {x})[y];
    assert y in consumers0 ==> consumers0[y] == (consumers0 - {x})[y];
  }

  lemma SweptAll(s: State, now: int, pending: map<string, seq<Held>>, consumers: map<string, map<string, int>>)
    requires forall x :: Swept(s, x, now, pending, consumers)
    requires SweepKeeps(s, now)
    ensures pending == BusModel.Sweep(s, now).pending && consumers == BusModel.Sweep(s, now).consumers
  {
    hide SweptQueue, KeepsRegistry, Recent;
    var t := BusModel.Sweep(s, now);
    forall x
      ensures x in pending <==> x in t.pending
      ensures x in pending ==> pending[x] == t.pending[x]
      ensures x in consumers <==> x in t.consumers
      ensures x in consumers ==> consumers[x] == t.consumers[x]
    {
      assert Swept(s, x, now, pending, consumers);
      assert SweptQueue(s, x, now) != [] ==> x in s.pending;
    }
  }

  lemma SubscribeKeeps(s: State, subject: string, consumer: string, ch: nat, now: int)
    requires Inv(s) && s.clock <= now && ch !in s.chans
    ensures forall victim :: ChoosesStalest(s.consumers, subject, consumer, victim) ==>
      Inv(BusModel.Subscribe(s, subject, consumer, ch, victim, now))
  {
    hide Inv, ChoosesStalest, BusModel.Subscribe;
    forall victim | ChoosesStalest(s.consumers, subject, consumer, victim)
      ensures Inv(BusModel.Subscribe(s, subject, consumer, ch, victim, now))
    {
      SubscribeInv(s, subject, consumer, ch, victim, now);
    }
  }

  // A queue that does not exist sweeps to nothing.
  ghost predicate SweepKeeps(s: State, now: int) {
    forall x :: SweptQueue(s, x, now) != [] ==> x in s.pending
  }

  lemma SubscribersNotEmpty(s: State, x: string)
    requires Inv(s)
    ensures x in s.subscribers <==> Subs(s, x) != []
  {
  }

  lemma OutstandingNone(reg: set<string>)
    ensures Outstanding([], reg) == []
  {
  }

  lemma UnexpiredNone(now: int)
    ensures Unexpired([], now) == []
  {
  }

  ghost function StalestVictim(consumers: map<string, map<string, int>>, subject: string): (victim: string)
    ensures forall consumer :: ChoosesStalest(consumers, subject, consumer, victim)
  {
    var reg := Registry(consumers, subject);
    if reg == map[] then "" else
      StalestExists(reg);
      var victim :| Stalest(reg, victim);
      victim
  }

  lemma {:induction false} StalestExists(reg: map<string, int>)
    requires reg != map[]
    ensures exists victim :: Stalest(reg, victim)
    decreases reg.Keys
  {
    var c :| c in reg;
    var rest := reg - {c};
    if rest == map[] {
      assert forall d :: d in reg ==> d == c by {
        assert forall d :: d in reg && d != c ==> d in rest;
      }
      assert Stalest(reg, c);
    } else {
      StalestExists(rest);
      var v :| Stalest(rest, v);
      assert forall d :: d in reg && d != c ==> d in rest && rest[d] == reg[d];
      assert Stalest(reg, if reg[c] < reg[v] then c else v);
    }
  }

  lemma QueueNotEmpty(s: State, subject: string)
    requires Inv(s)
    ensures subject in s.pending ==> s.pending[subject] != []
  {
  }

  lemma SubsFacts(s: State, subject: string)
    requires Inv(s)
    ensures LiveChannels(s, subject)
  {
  }

  // The subject's channels: distinct, open, its own.
  ghost predicate LiveChannels(s: State, subject: string) {
    var subs := Subs(s, subject);
    && (forall i :: 0 <= i < |subs| ==>
          subs[i] in s.chans && !s.chans[subs[i]].closed && s.chans[subs[i]].subject == subject)
    && (forall i, j :: 0 <= i < j < |subs| ==> subs[i] != subs[j])
  }

  lemma DeliverOne(chans: map<nat, Chan>, subs: seq<nat>, i: nat, m: Message)
    requires i < |subs| && subs[i] in chans
    requires forall j, k :: 0 <= j < k < |subs| ==> subs[j] != subs[k]
    ensures var c := subs[i]; var done := Deliver(chans, subs[..i], m);
      && c in done && done[c] == chans[c]
      && Deliver(chans, subs[..i + 1], m)
        == (if chans[c].HasRoom() then done[c := chans[c].(log := chans[c].log + [m])] else done)
      && Received(chans, subs[..i + 1]) == (Received(chans, subs[..i]) || chans[c].HasRoom())
  {
    var c := subs[i];
    assert subs[..i + 1] == subs[..i] + [c];
    assert c !in subs[..i];
    var done := Deliver(chans, subs[..i], m);
    var next := if chans[c].HasRoom() then done[c := chans[c].(log := chans[c].log + [m])] else done;
    assert Deliver(chans, subs[..i + 1], m).Keys == next.Keys;
    if Received(chans, subs[..i]) {
      var d :| d in subs[..i] && d in chans && chans[d].HasRoom();
      assert d in subs[..i + 1];
    }
  }

  lemma {:induction false} FirstIndex(subs: seq<nat>, ch: nat, i: nat)
    requires i <= |subs| && ch !in subs[..i] && (i < |subs| ==> subs[i] == ch)
    ensures RemoveFirst(subs, ch) == if i < |subs| then subs[..i] + subs[i + 1..] else subs
    ensures ch in subs <==> i < |subs|
    decreases |subs|
  {
    if i > 0 {
      assert subs[0] in subs[..i];
      assert subs[1..][..i - 1] == subs[..i][1..];
      FirstIndex(subs[1..], ch, i - 1);
      assert subs == [subs[0]] + subs[1..];
    }
  }

  lemma AckAllStep(s: State, pairs: seq<SubjectConsumer>, i: nat, id: string, victims: seq<string>, victim: string,
                   now: int)
    requires i < |pairs| && |victims| == i && AllowedAcks(s, pairs[..i], id, victims, now)
    requires var t := AckAll(s, pairs[..i], id, victims, now);
      t.clock <= now && ChoosesStalest(t.consumers, pairs[i].subject, pairs[i].consumer, victim)
    ensures AllowedAcks(s, pairs[..i + 1], id, victims + [victim], now)
    ensures AckAll(s, pairs[..i + 1], id, victims + [victim], now)
         == BusModel.Ack(AckAll(s, pairs[..i], id, victims, now), pairs[i].subject, id, pairs[i].consumer, victim, now)
  {
    hide BusModel.Ack, ChoosesStalest;
    var p, v := pairs[..i + 1], victims + [victim];
    assert p[..i] == pairs[..i] && v[..i] == victims;
    forall k | 0 <= k < i + 1
      ensures Allowed(AckAll(s, p[..k], id, v[..k], now), AckOp(p[k].subject, id, p[k].consumer, v[k], now))
    {
      if k < i {
        assert p[..k] == pairs[..i][..k] && v[..k] == victims[..k];
        assert Allowed(AckAll(s, pairs[..i][..k], id, victims[..k], now),
                       AckOp(pairs[..i][k].subject, id, pairs[..i][k].consumer, victims[k], now));
      }
    }
  }
}
