// What each bus operation does to the tables, said of the tables themselves: who is registered afterwards, what is
// still held, and what becomes of the channels.
module BusLaws {
  import opened BusModel
  import opened BusRuns
  import opened BusDelivery

  // ---- Who is registered ---------------------------------------------------------------------------------------

  ghost predicate SeenAt(s: State, subject: string, consumer: string, time: int) {
    subject in s.consumers && consumer in s.consumers[subject] && s.consumers[subject][consumer] == time
  }

  // A registration that nobody is staler than, 90 seconds old or more.
  ghost predicate Evictable(reg: map<string, int>, c: string, now: int) {
    c in reg && now - reg[c] >= 90 && forall e :: e in reg ==> reg[c] <= reg[e]
  }

  // The consumer has a place already, or there is one for it.
  ghost predicate Admits(s: State, subject: string, consumer: string, now: int) {
    if subject in s.consumers
    then || consumer in s.consumers[subject]
         || |s.consumers[subject]| < 128
         || exists c :: Evictable(s.consumers[subject], c, now)
    else |s.consumers| < 100000
  }

  // A registration other than this one's is as it was, unless it is the one that has made room.
  ghost predicate OthersStay(s: State, t: State, subject: string, consumer: string, victim: string, now: int) {
    && (forall x, c :: x in t.consumers && c in t.consumers[x] && (x != subject || c != consumer) ==>
          x in s.consumers && c in s.consumers[x] && t.consumers[x][c] == s.consumers[x][c])
    && (forall x, c :: x in s.consumers && c in s.consumers[x] && (x != subject || c != consumer) ==>
          || (x in t.consumers && c in t.consumers[x])
          || (x == subject && c == victim && |s.consumers[x]| >= 128 && consumer !in s.consumers[x]
              && Evictable(s.consumers[x], c, now)))
  }

  lemma RegisterSays(consumers: map<string, map<string, int>>, subject: string, consumer: string, now: int,
                     victim: string, s: State, t: State)
    requires s.consumers == consumers && ChoosesStalest(consumers, subject, consumer, victim)
    requires t.consumers == Register(consumers, subject, consumer, now, victim)
    ensures SeenAt(t, subject, consumer, now) <==> Admits(s, subject, consumer, now)
    ensures OthersStay(s, t, subject, consumer, victim, now)
  {
    var reg := Registry(consumers, subject);
    if Full(reg, consumer) {
      forall c | Evictable(reg, c, now)
        ensures now - reg[victim] >= 90
      {
        assert reg[victim] <= reg[c];
      }
      if now - reg[victim] >= 90 {
        assert Evictable(reg, victim, now);
      }
    }
  }

  // After a subscribe under a name the name is registered as seen now, if and only if there was a place for it.
  lemma SubscribeRegisters(s: State, subject: string, consumer: string, ch: nat, victim: string, now: int)
    requires !s.closed && consumer != "" && Allowed(s, SubscribeOp(subject, consumer, ch, victim, now))
    ensures var t := Apply(s, SubscribeOp(subject, consumer, ch, victim, now));
      && (SeenAt(t, subject, consumer, now) <==> Admits(s, subject, consumer, now))
      && OthersStay(s, t, subject, consumer, victim, now)
  {
    RegisterSays(s.consumers, subject, consumer, now, victim, s, Subscribe(s, subject, consumer, ch, victim, now));
  }

  // And after an ack, unless it leaves the subject idle: then nobody is registered there any more.
  lemma AckRegisters(s: State, subject: string, id: string, consumer: string, victim: string, now: int)
    requires !s.closed && consumer != "" && Allowed(s, AckOp(subject, id, consumer, victim, now))
    ensures var t := Apply(s, AckOp(subject, id, consumer, victim, now));
      if subject in t.subscribers || subject in t.pending
      then (SeenAt(t, subject, consumer, now) <==> Admits(s, subject, consumer, now))
           && OthersStay(s, t, subject, consumer, victim, now)
      else subject !in t.consumers
  {
    hide AckQueues, SeenAt, Admits, OthersStay, Register;
    var t := Ack(s, subject, id, consumer, victim, now);
    var u := s.(consumers := Register(s.consumers, subject, consumer, now, victim));
    RegisterSays(s.consumers, subject, consumer, now, victim, s, u);
    if subject in t.subscribers || subject in t.pending {
      assert t.consumers == u.consumers;
      SameConsumers(s, t, u, subject, consumer, victim, now);
    }
  }

  lemma SameConsumers(s: State, t: State, u: State, subject: string, consumer: string, victim: string, now: int)
    requires t.consumers == u.consumers
    ensures SeenAt(t, subject, consumer, now) == SeenAt(u, subject, consumer, now)
    ensures OthersStay(s, t, subject, consumer, victim, now) == OthersStay(s, u, subject, consumer, victim, now)
  {
  }

  // So a consumer that subscribes where there is a place for it is owed whatever is published next.
  lemma SubscribeThenPublish(s: State, subject: string, consumer: string, ch: nat, victim: string, now: int,
                             msg: Message)
    requires Inv(s) && !s.closed && consumer != "" && Allowed(s, SubscribeOp(subject, consumer, ch, victim, now))
    requires Admits(s, subject, consumer, now)
    ensures var t := Apply(s, SubscribeOp(subject, consumer, ch, victim, now));
      var u := Apply(t, PublishOp(subject, msg));
      SeenAt(u, subject, consumer, now) && Owed(u, subject, consumer, msg.(stamp := |s.history|))
  {
    hide Inv, Owed, Register, Deliver, Hold;
    SubscribeRegisters(s, subject, consumer, ch, victim, now);
    ApplyInv(s, SubscribeOp(subject, consumer, ch, victim, now));
    PublishOwes(Subscribe(s, subject, consumer, ch, victim, now), subject, msg, consumer);
  }

  // On a new bus there is a place, so the debt is there and stays until it is excused.
  lemma FirstDelivery(states: seq<State>, ops: seq<Op>, j: nat, subject: string, consumer: string, ch: nat,
                      victim: string, now: int, msg: Message)
    requires Run(states, ops) && states[0] == EMPTY && consumer != "" && 2 <= j < |states|
    requires ops[0] == SubscribeOp(subject, consumer, ch, victim, now) && ops[1] == PublishOp(subject, msg)
    requires forall k :: 2 <= k <= j ==> Registered(states[k], subject, consumer)
    requires forall k :: 2 <= k < j ==> !Excuse(states[k], ops[k], subject, consumer, msg.(stamp := 0))
    ensures SeenAt(states[2], subject, consumer, now) && Owed(states[j], subject, consumer, msg.(stamp := 0))
  {
    hide Inv, Owed, Excuse, Registered, Apply, Allowed;
    EmptyInv();
    StepOf(states, ops, 0);
    StepOf(states, ops, 1);
    assert Admits(EMPTY, subject, consumer, now);
    SubscribeThenPublish(EMPTY, subject, consumer, ch, victim, now, msg);
    NoLoss(states, ops, 2, j, subject, consumer, msg.(stamp := 0));
  }

  // ---- What is held --------------------------------------------------------------------------------------------

  // The entry with the consumer's mark on it.
  function Marked(h: Held, id: string, consumer: string): Held {
    if h.msg.id == id then Held(h.msg, h.ackedBy + {consumer}) else h
  }

  ghost predicate IsMarked(s: State, subject: string, id: string, consumer: string, h: Held) {
    exists g :: g in Queue(s.pending, subject) && h == Marked(g, id, consumer)
  }

  // After a registered ack the subject holds, marked, what someone registered there has yet to ack; everything, if
  // the ack found no place to register and nobody is; and nothing, if it has left the subject idle.
  lemma AckHolds(s: State, subject: string, id: string, consumer: string, victim: string, now: int, h: Held)
    requires Inv(s) && !s.closed && consumer != "" && Allowed(s, AckOp(subject, id, consumer, victim, now))
    ensures var t := Apply(s, AckOp(subject, id, consumer, victim, now));
      && (subject in t.consumers ==>
            (h in Queue(t.pending, subject) <==>
              IsMarked(s, subject, id, consumer, h) && exists c :: c in t.consumers[subject] && c !in h.ackedBy))
      && (subject !in t.consumers && subject !in s.consumers && |s.consumers| >= 100000 ==>
            (h in Queue(t.pending, subject) <==> IsMarked(s, subject, id, consumer, h)))
      && (subject !in t.consumers && (subject in s.consumers || |s.consumers| < 100000) ==>
            subject !in t.pending && subject !in t.subscribers)
  {
    hide Inv, Outstanding, Mark, IsMarked, AckQueues, Stalest, Register;
    var cons := Register(s.consumers, subject, consumer, now, victim);
    var reg := Registry(cons, subject);
    var marked := Mark(Queue(s.pending, subject), id, consumer);
    MarkedMember(s, subject, id, consumer, h);
    OutstandingMember(marked, reg.Keys, h);
    NotEmptyRegistry(s, subject);
    RegisterTracks(s.consumers, subject, consumer, now, victim);
    AckQueueIs(s.pending, subject, id, consumer, reg);
    assert !(reg.Keys <= h.ackedBy) <==> exists c :: c in reg && c !in h.ackedBy;
  }

  // Registering tracks the subject unless there is no room for another one.
  lemma RegisterTracks(consumers: map<string, map<string, int>>, subject: string, consumer: string, now: int,
                       victim: string)
    requires subject in consumers ==> consumers[subject] != map[]
    ensures var cons := Register(consumers, subject, consumer, now, victim);
      && (subject in cons <==> subject in consumers || |consumers| < 100000)
      && (subject in cons ==> cons[subject] != map[])
  {
    var reg := Registry(consumers, subject);
    assert consumer in reg[consumer := now] && consumer in (reg - {victim})[consumer := now];
  }

  lemma AckQueueIs(pending: map<string, seq<Held>>, subject: string, id: string, consumer: string,
                   reg: map<string, int>)
    ensures var q := AckQueues(pending, subject, id, consumer, reg);
      var marked := Mark(Queue(pending, subject), id, consumer);
      && Queue(q, subject) == (if reg == map[] then marked else Outstanding(marked, reg.Keys))
      && (subject in q <==> Queue(q, subject) != [])
  {
    hide Mark, Outstanding;
    NoneOutstanding(reg.Keys);
  }

  lemma NotEmptyRegistry(s: State, subject: string)
    requires Inv(s)
    ensures subject in s.consumers ==> s.consumers[subject] != map[]
  {
  }

  lemma MarkedMember(s: State, subject: string, id: string, consumer: string, h: Held)
    ensures var q := Queue(s.pending, subject);
      h in Mark(q, id, consumer) <==> IsMarked(s, subject, id, consumer, h)
  {
    var q := Queue(s.pending, subject);
    var r := Mark(q, id, consumer);
    if h in r {
      var i :| 0 <= i < |r| && r[i] == h;
      assert q[i] in q && h == Marked(q[i], id, consumer);
    }
    if g :| g in q && h == Marked(g, id, consumer) {
      var i :| 0 <= i < |q| && q[i] == g;
      assert r[i] == h;
    }
  }

  // An ack without a name drops every copy of the blob where nobody is registered, and does nothing elsewhere.
  lemma LegacyAck(s: State, subject: string, id: string, victim: string, now: int, h: Held)
    requires Inv(s) && !s.closed
    ensures var t := Apply(s, AckOp(subject, id, "", victim, now));
      && (subject in s.consumers ==> t == s)
      && (subject !in s.consumers ==>
            && (h in Queue(t.pending, subject) <==> h in Queue(s.pending, subject) && h.msg.id != id)
            && (forall x :: x != subject ==> Queue(t.pending, x) == Queue(s.pending, x))
            && t == s.(pending := t.pending))
  {
    hide Inv, WithoutId;
    NotEmptyRegistry(s, subject);
    WithoutMember(Queue(s.pending, subject), id, h);
  }

  lemma {:induction false} WithoutMember(q: seq<Held>, id: string, h: Held)
    ensures h in WithoutId(q, id) <==> h in q && h.msg.id != id
    decreases |q|
  {
    if q != [] {
      WithoutMember(q[..|q| - 1], id, h);
      assert q == q[..|q| - 1] + [q[|q| - 1]];
    }
  }

  // A subscribe without a name is handed everything held, in order, and takes it away only where nobody is
  // registered.
  lemma LegacySubscribe(s: State, subject: string, ch: nat, victim: string, now: int)
    requires Inv(s) && !s.closed && Allowed(s, SubscribeOp(subject, "", ch, victim, now))
    ensures var t := Apply(s, SubscribeOp(subject, "", ch, victim, now));
      && ch in t.chans && !t.chans[ch].closed && t.chans[ch].subject == subject && t.chans[ch].taken == 0
      && |t.chans[ch].log| == |Queue(s.pending, subject)|
      && (forall i :: 0 <= i < |t.chans[ch].log| ==> t.chans[ch].log[i] == Queue(s.pending, subject)[i].msg)
      && t.consumers == s.consumers
      && (forall x :: Queue(t.pending, x) == if x == subject && x !in s.consumers then [] else Queue(s.pending, x))
      && (forall c :: c in s.chans ==> c in t.chans && t.chans[c] == s.chans[c])
  {
    NotEmptyRegistry(s, subject);
    hide Inv;
  }

  // A sweep keeps what has not expired and, where someone registered has been seen within two hours, what one of
  // those has yet to ack; it keeps the registrations of those two hours of subjects that are not idle.
  lemma SweepHolds(s: State, now: int, subject: string, h: Held)
    requires Inv(s)
    ensures var t := Apply(s, SweepOp(now));
      h in Queue(t.pending, subject) <==>
        && h in Queue(s.pending, subject) && h.msg.expiresAt > now
        && ((exists c :: RecentThere(s, subject, c, now)) ==>
              exists c :: RecentThere(s, subject, c, now) && c !in h.ackedBy)
  {
    hide Inv, Outstanding, Unexpired;
    var q := Unexpired(Queue(s.pending, subject), now);
    var reg := Recent(Registry(s.consumers, subject), now);
    UnexpiredMember(Queue(s.pending, subject), now, h);
    OutstandingMember(q, reg.Keys, h);
    assert forall c :: c in reg <==> RecentThere(s, subject, c, now);
    assert reg.Keys <= h.ackedBy || exists c :: c in reg && c !in h.ackedBy;
    NothingHeld(now, reg.Keys);
  }

  lemma NothingHeld(now: int, reg: set<string>)
    ensures Unexpired([], now) == [] && Outstanding([], reg) == []
  {
  }

  ghost predicate RecentThere(s: State, subject: string, c: string, now: int) {
    subject in s.consumers && c in s.consumers[subject] && now - s.consumers[subject][c] <= 7200
  }

  lemma SweepRegisters(s: State, now: int, subject: string, c: string)
    requires Inv(s)
    ensures var t := Apply(s, SweepOp(now));
      (subject in t.consumers && c in t.consumers[subject]) <==>
        RecentThere(s, subject, c, now) && (subject in s.subscribers || subject in t.pending)
    ensures var t := Apply(s, SweepOp(now));
      && t.subscribers == s.subscribers && t.chans == s.chans
      && (subject in t.consumers && c in t.consumers[subject] ==>
            t.consumers[subject][c] == s.consumers[subject][c])
  {
    hide SweptQueue, ChansOk, ConsumersOk;
    var reg := Recent(Registry(s.consumers, subject), now);
    assert c in reg <==> RecentThere(s, subject, c, now);
    SweptPending(s, now, subject);
    SubscribedThere(s, subject);
  }

  lemma SweptPending(s: State, now: int, subject: string)
    ensures subject in Sweep(s, now).pending <==> SweptQueue(s, subject, now) != []
  {
    hide Unexpired, Outstanding;
    var reg := Recent(Registry(s.consumers, subject), now);
    NothingHeld(now, reg.Keys);
  }

  lemma SubscribedThere(s: State, subject: string)
    requires Inv(s)
    ensures Subs(s, subject) == [] <==> subject !in s.subscribers
  {
  }

  // A publish is placed on every channel of the subject with room, and is held behind what is held already, the
  // oldest of 1024 making way, if somebody is registered or no channel has room; and it changes nothing else.
  lemma PublishSays(s: State, subject: string, msg: Message)
    requires Inv(s) && !s.closed
    ensures var m, t := msg.(stamp := |s.history|), Apply(s, PublishOp(subject, msg));
      var q := Queue(s.pending, subject);
      && t == s.(chans := t.chans, pending := t.pending, history := s.history + [Publication(subject, m)])
      && (forall c :: c in t.chans <==> c in s.chans)
      && (forall c :: c in s.chans ==> t.chans[c] == if Listens(s, subject, c)
                                                     then s.chans[c].(log := s.chans[c].log + [m]) else s.chans[c])
      && (forall x :: x != subject ==> Queue(t.pending, x) == Queue(s.pending, x))
      && Queue(t.pending, subject) == if subject in s.consumers || !exists c :: Listens(s, subject, c)
                                      then (if |q| >= 1024 then q[1..] else q) + [Held(m, {})] else q
  {
    NotEmptyRegistry(s, subject);
    ReceivedIff(s, subject);
    hide Inv, Received, Hold;
    HoldIs(Queue(s.pending, subject), msg.(stamp := |s.history|));
  }

  lemma HoldIs(q: seq<Held>, m: Message)
    ensures Hold(q, m) == (if |q| >= 1024 then q[1..] else q) + [Held(m, {})]
  {
  }

  lemma ReceivedIff(s: State, subject: string)
    ensures Received(s.chans, Subs(s, subject)) <==> exists c :: Listens(s, subject, c)
  {
    if c :| c in Subs(s, subject) && c in s.chans && s.chans[c].HasRoom() {
      assert Listens(s, subject, c);
    }
    if c :| Listens(s, subject, c) {
      assert c in Subs(s, subject) && s.chans[c].HasRoom();
    }
  }

  // A subscribed channel with room for one more.
  ghost predicate Listens(s: State, subject: string, c: nat) {
    subject in s.subscribers && c in s.subscribers[subject] && c in s.chans
    && |s.chans[c].log| - s.chans[c].taken < s.chans[c].capacity
  }

  // ---- What becomes of channels ----------------------------------------------------------------------------------

  // A detach closes the channel it names and takes it off its subject's list, and nothing else; the subject loses
  // its registry if that leaves it idle.
  lemma DetachSays(s: State, subject: string, ch: nat)
    requires Inv(s) && Allowed(s, DetachOp(subject, ch))
    ensures var t := Apply(s, DetachOp(subject, ch));
      && (forall c :: c in Subs(t, subject) <==> c in Subs(s, subject) && c != ch)
      && (forall x :: x != subject ==> Subs(t, x) == Subs(s, x))
      && t.pending == s.pending && t.chans.Keys == s.chans.Keys
      && (forall c :: c in s.chans ==>
            t.chans[c] == s.chans[c].(closed := s.chans[c].closed || (c == ch && ch in Subs(s, subject))))
      && (forall x :: x in t.consumers <==>
            x in s.consumers && (x != subject || subject in t.subscribers || subject in s.pending))
      && (forall x :: x in t.consumers ==> t.consumers[x] == s.consumers[x])
  {
    hide ChansOk, PendingOk, ConsumersOk;
    var subs := Subs(s, subject);
    assert forall i, j :: 0 <= i < j < |subs| ==> subs[i] != subs[j];
    RemovedMember(subs, ch);
    hide RemoveFirst, Inv;
  }

  lemma {:induction false} RemovedMember(subs: seq<nat>, ch: nat)
    requires forall i, j :: 0 <= i < j < |subs| ==> subs[i] != subs[j]
    ensures forall c :: c in RemoveFirst(subs, ch) <==> c in subs && c != ch
    decreases |subs|
  {
    if subs != [] {
      assert subs == [subs[0]] + subs[1..];
      assert forall c :: c in subs[1..] ==> c != subs[0];
      if subs[0] != ch {
        RemovedMember(subs[1..], ch);
      }
    }
  }

  // Closing closes every channel, keeps what they hold, and forgets the rest.
  lemma CloseSays(s: State)
    requires Inv(s) && !s.closed
    ensures var t := Apply(s, CloseOp);
      && t.closed && t.subscribers == map[] && t.pending == map[] && t.consumers == map[]
      && t.chans.Keys == s.chans.Keys
      && (forall c :: c in t.chans ==> t.chans[c] == s.chans[c].(closed := true))
  {
  }

  // A closed bus does nothing more, but what was delivered can be taken: one message at a time, from the front.
  lemma ClosedSays(s: State, op: Op)
    requires Inv(s) && s.closed && (op.PublishOp? || op.SubscribeOp? || op.AckOp? || op.CloseOp?)
    ensures Apply(s, op) == s
  {
  }

  lemma DrainSays(s: State, ch: nat)
    requires Inv(s) && ch in s.chans
    ensures var t := Apply(s, DrainOp(ch));
      && t.chans.Keys == s.chans.Keys && t == s.(chans := t.chans)
      && (forall c :: c in s.chans && c != ch ==> t.chans[c] == s.chans[c])
      && t.chans[ch].log == s.chans[ch].log && t.chans[ch].closed == s.chans[ch].closed
      && t.chans[ch].taken == if s.chans[ch].taken < |s.chans[ch].log| then s.chans[ch].taken + 1
                              else |s.chans[ch].log|
  {
  }
}
