// Runs of the message bus: which operations there are, the invariant every one of them keeps, and the
// delivery guarantees over whole runs.
module BusRuns {
  import opened FiniteSets
  import opened BusModel

  // One lock section, or one receive on a channel. A connection's ack over several mailboxes is one
  // lock section made of several `AckOp`s.
  datatype Op =
    | PublishOp(subject: string, msg: Message)
    | SubscribeOp(subject: string, consumer: string, ch: nat, victim: string, now: int)
    | DetachOp(subject: string, ch: nat)
    | AckOp(subject: string, id: string, consumer: string, victim: string, now: int)
    | SweepOp(now: int)
    | CloseOp
    | DrainOp(ch: nat)

  // What the environment guarantees: the clock does not run backwards, a new channel is new, a detach names
  // the subject the channel was opened for, and an eviction picks a stalest registration.
  predicate Allowed(s: State, op: Op) {
    match op
    case PublishOp(_, _) => true
    case SubscribeOp(subject, consumer, ch, victim, now) =>
      s.clock <= now && ch !in s.chans && ChoosesStalest(s.consumers, subject, consumer, victim)
    case DetachOp(subject, ch) => ch in s.chans ==> s.chans[ch].subject == subject
    case AckOp(subject, _, consumer, victim, now) => s.clock <= now
      && ChoosesStalest(s.consumers, subject, consumer, victim)
    case SweepOp(now) => s.clock <= now
    case CloseOp => true
    case DrainOp(_) => true
  }

  function Apply(s: State, op: Op): State {
    match op
    case PublishOp(subject, msg) => Publish(s, subject, msg)
    case SubscribeOp(subject, consumer, ch, victim, now) => Subscribe(s, subject, consumer, ch, victim, now)
    case DetachOp(subject, ch) => Detach(s, subject, ch)
    case AckOp(subject, id, consumer, victim, now) => Ack(s, subject, id, consumer, victim, now)
    case SweepOp(now) => Sweep(s, now)
    case CloseOp => Close(s)
    case DrainOp(ch) => Drain(s, ch)
  }

  const EMPTY := State(map[], map[], map[], false, map[], [], 0)

  // ---- The invariant -------------------------------------------------------------------------------

  // A run of messages of one subject, in publish order.
  ghost predicate Ordered(ms: seq<Message>, subject: string, history: seq<Publication>) {
    && (forall i :: 0 <= i < |ms| ==> ms[i].stamp < |history| && history[ms[i].stamp] == Publication(subject, ms[i]))
    && (forall i, j :: 0 <= i < j < |ms| ==> ms[i].stamp < ms[j].stamp)
  }

  // Subscriber lists: never empty, no channel twice, every channel open and subscribed where it says.
  ghost predicate SubscribersOk(s: State) {
    && (forall x :: x in s.subscribers ==> s.subscribers[x] != [])
    && (forall x, i :: x in s.subscribers && 0 <= i < |s.subscribers[x]| ==>
          var c := s.subscribers[x][i];
          c in s.chans && s.chans[c].subject == x && !s.chans[c].closed)
    && (forall x, i, j :: x in s.subscribers && 0 <= i < j < |s.subscribers[x]| ==>
          s.subscribers[x][i] != s.subscribers[x][j])
  }

  // Channels: never over capacity, in publish order, and open only while subscribed.
  ghost predicate ChansOk(s: State) {
    forall c :: c in s.chans ==>
      var ch := s.chans[c];
      && ch.taken <= |ch.log| <= ch.taken + ch.capacity
      && Ordered(ch.log, ch.subject, s.history)
      && (!ch.closed ==> Subscribed(s, c))
  }

  ghost predicate QueuesOk(pending: map<string, seq<Held>>, history: seq<Publication>) {
    forall x :: x in pending ==>
      0 < |pending[x]| <= MAX_PENDING && Ordered(Messages(pending[x]), x, history)
  }

  ghost predicate PendingOk(s: State) {
    QueuesOk(s.pending, s.history)
  }

  // Registries: bounded, none empty, and, except perhaps for one subject, none for an idle subject.
  ghost predicate RegistriesExcept(subscribers: map<string, seq<nat>>, pending: map<string, seq<Held>>,
                                   consumers: map<string, map<string, int>>, clock: int, subject: string) {
    && |consumers| <= MAX_SUBJECTS
    && forall x :: x in consumers ==>
         && 0 < |consumers[x]| <= MAX_CONSUMERS
         && "" !in consumers[x]
         && (forall c :: c in consumers[x] ==> consumers[x][c] <= clock)
         && (x != subject ==> x in subscribers || x in pending)
  }

  ghost predicate RegistriesOk(subscribers: map<string, seq<nat>>, pending: map<string, seq<Held>>,
                               consumers: map<string, map<string, int>>, clock: int) {
    && |consumers| <= MAX_SUBJECTS
    && forall x :: x in consumers ==>
         && 0 < |consumers[x]| <= MAX_CONSUMERS
         && "" !in consumers[x]
         && (forall c :: c in consumers[x] ==> consumers[x][c] <= clock)
         && (x in subscribers || x in pending)
  }

  ghost predicate ConsumersOk(s: State) {
    RegistriesOk(s.subscribers, s.pending, s.consumers, s.clock)
  }

  ghost predicate Inv(s: State) {
    && SubscribersOk(s) && ChansOk(s) && PendingOk(s) && ConsumersOk(s)
    && (s.closed ==> s.subscribers == map[] && s.pending == map[] && s.consumers == map[])
  }

  lemma EmptyInv()
    ensures Inv(EMPTY)
  {
  }

  // ---- Facts about the list functions --------------------------------------------------------------

  lemma OrderedGrows(ms: seq<Message>, subject: string, history: seq<Publication>, p: Publication)
    requires Ordered(ms, subject, history)
    ensures Ordered(ms, subject, history + [p])
  {
  }

  lemma OrderedAppend(ms: seq<Message>, subject: string, history: seq<Publication>, m: Message)
    requires Ordered(ms, subject, history) && m.stamp == |history|
    ensures Ordered(ms + [m], subject, history + [Publication(subject, m)])
  {
  }

  lemma {:induction false} UnackedOrdered(q: seq<Held>, consumer: string, subject: string, history: seq<Publication>)
    requires Ordered(Messages(q), subject, history)
    ensures Ordered(Unacked(q, consumer), subject, history)
    ensures |q| > 0 && |Unacked(q, consumer)| > 0 ==>
      Unacked(q, consumer)[|Unacked(q, consumer)| - 1].stamp <= q[|q| - 1].msg.stamp
  {
    if |q| > 0 {
      var init := q[..|q| - 1];
      assert Messages(init) == Messages(q)[..|q| - 1];
      UnackedOrdered(init, consumer, subject, history);
      if |init| > 0 {
        assert Messages(q)[|q| - 2].stamp < Messages(q)[|q| - 1].stamp;
      }
      OrderedMore(Unacked(init, consumer), Messages(q), subject, history);
      hide Ordered;
    }
  }

  // The last of an ordered list may follow any ordered list of earlier ones.
  lemma OrderedMore(some: seq<Message>, all: seq<Message>, subject: string, history: seq<Publication>)
    requires Ordered(some, subject, history) && Ordered(all, subject, history) && all != []
    requires some != [] && |all| > 1 ==> some[|some| - 1].stamp <= all[|all| - 2].stamp
    requires |all| == 1 ==> some == []
    ensures Ordered(some + [all[|all| - 1]], subject, history)
  {
    var last := all[|all| - 1];
    if some != [] {
      assert all[|all| - 2].stamp < last.stamp;
    }
    assert forall i :: 0 <= i < |some| ==> some[i].stamp <= some[|some| - 1].stamp;
  }

  lemma {:induction false} UnackedMember(q: seq<Held>, consumer: string, m: Message)
    ensures m in Unacked(q, consumer) <==> exists i :: 0 <= i < |q| && q[i].msg == m && consumer !in q[i].ackedBy
  {
    if |q| > 0 {
      var init := q[..|q| - 1];
      UnackedMember(init, consumer, m);
      if m in Unacked(q, consumer) {
        if m in Unacked(init, consumer) {
          var i :| 0 <= i < |init| && init[i].msg == m && consumer !in init[i].ackedBy;
          assert q[i] == init[i];
        }
      }
      if i :| 0 <= i < |q| && q[i].msg == m && consumer !in q[i].ackedBy {
        if i < |q| - 1 {
          assert init[i] == q[i];
        }
      }
    }
  }

  // A filtered queue: same order, no new entries.
  ghost predicate Filtered(r: seq<Held>, q: seq<Held>) {
    && |r| <= |q|
    && (forall i :: 0 <= i < |r| ==> r[i] in q)
    && (|r| > 0 ==> |q| > 0 && r[|r| - 1].msg.stamp <= q[|q| - 1].msg.stamp)
  }

  lemma {:induction false} OutstandingOrdered(q: seq<Held>, reg: set<string>, subject: string,
                                              history: seq<Publication>)
    requires Ordered(Messages(q), subject, history)
    ensures Ordered(Messages(Outstanding(q, reg)), subject, history) && Filtered(Outstanding(q, reg), q)
  {
    hide Ordered;
    if |q| > 0 {
      var init := q[..|q| - 1];
      InitOrdered(q, subject, history);
      OutstandingOrdered(init, reg, subject, history);
      assert Outstanding(init, reg) + [] == Outstanding(init, reg);
      LastStamp(q, subject, history);
      JoinLast(Outstanding(init, reg), q, subject, history);
    } else {
      assert Outstanding(q, reg) == q;
    }
  }

  lemma InitOrdered(q: seq<Held>, subject: string, history: seq<Publication>)
    requires |q| > 0 && Ordered(Messages(q), subject, history)
    ensures Ordered(Messages(q[..|q| - 1]), subject, history)
  {
    assert Messages(q[..|q| - 1]) == Messages(q)[..|q| - 1];
  }

  lemma {:induction false} OutstandingMember(q: seq<Held>, reg: set<string>, h: Held)
    ensures h in Outstanding(q, reg) <==> h in q && !(reg <= h.ackedBy)
  {
    if |q| > 0 {
      OutstandingMember(q[..|q| - 1], reg, h);
      assert q == q[..|q| - 1] + [q[|q| - 1]];
    }
  }

  lemma {:induction false} UnexpiredMember(q: seq<Held>, now: int, h: Held)
    ensures h in Unexpired(q, now) <==> h in q && h.msg.expiresAt > now
  {
    if |q| > 0 {
      UnexpiredMember(q[..|q| - 1], now, h);
      assert q == q[..|q| - 1] + [q[|q| - 1]];
    }
  }

  lemma LastStamp(q: seq<Held>, subject: string, history: seq<Publication>)
    requires |q| > 0 && Ordered(Messages(q), subject, history)
    ensures |q| > 1 ==> q[|q| - 2].msg.stamp < q[|q| - 1].msg.stamp
    ensures q[|q| - 1].msg.stamp < |history| && history[q[|q| - 1].msg.stamp] == Publication(subject, q[|q| - 1].msg)
  {
    assert Messages(q)[|q| - 1] == q[|q| - 1].msg;
    assert |q| > 1 ==> Messages(q)[|q| - 2].stamp < Messages(q)[|q| - 1].stamp;
  }

  // Adding q's last entry to a filtered prefix keeps the order.
  lemma JoinLast(r: seq<Held>, q: seq<Held>, subject: string, history: seq<Publication>)
    requires |q| > 0 && Ordered(Messages(q), subject, history)
    requires Filtered(r, q[..|q| - 1]) && Ordered(Messages(r), subject, history)
    ensures Ordered(Messages(r + [q[|q| - 1]]), subject, history)
  {
    LastStamp(q, subject, history);
    var ms := Messages(r + [q[|q| - 1]]);
    assert ms == Messages(r) + [q[|q| - 1].msg];
    forall i | 0 <= i < |r|
      ensures ms[i].stamp < q[|q| - 1].msg.stamp
    {
      assert Messages(r)[i].stamp <= Messages(r)[|r| - 1].stamp;
    }
  }

  lemma {:induction false} UnexpiredOrdered(q: seq<Held>, now: int, subject: string, history: seq<Publication>)
    requires Ordered(Messages(q), subject, history)
    ensures Ordered(Messages(Unexpired(q, now)), subject, history) && Filtered(Unexpired(q, now), q)
  {
    hide Ordered;
    if |q| > 0 {
      var init := q[..|q| - 1];
      InitOrdered(q, subject, history);
      UnexpiredOrdered(init, now, subject, history);
      assert Unexpired(init, now) + [] == Unexpired(init, now);
      LastStamp(q, subject, history);
      JoinLast(Unexpired(init, now), q, subject, history);
    } else {
      assert Unexpired(q, now) == q;
    }
  }

  lemma {:induction false} WithoutIdOrdered(q: seq<Held>, id: string, subject: string, history: seq<Publication>)
    requires Ordered(Messages(q), subject, history)
    ensures Ordered(Messages(WithoutId(q, id)), subject, history) && Filtered(WithoutId(q, id), q)
  {
    hide Ordered;
    if |q| > 0 {
      var init := q[..|q| - 1];
      InitOrdered(q, subject, history);
      WithoutIdOrdered(init, id, subject, history);
      assert WithoutId(init, id) + [] == WithoutId(init, id);
      LastStamp(q, subject, history);
      JoinLast(WithoutId(init, id), q, subject, history);
    } else {
      assert WithoutId(q, id) == q;
    }
  }

  lemma MarkOrdered(q: seq<Held>, id: string, consumer: string)
    ensures Messages(Mark(q, id, consumer)) == Messages(q)
  {
  }

  lemma {:induction false} RemoveFirstFacts(subs: seq<nat>, ch: nat)
    requires forall i, j :: 0 <= i < j < |subs| ==> subs[i] != subs[j]
    ensures var r := RemoveFirst(subs, ch);
      && (forall c :: c in r <==> c in subs && c != ch)
      && (forall i, j :: 0 <= i < j < |r| ==> r[i] != r[j])
      && (ch !in subs ==> r == subs)
  {
    if |subs| > 0 {
      RemoveFirstFacts(subs[1..], ch);
      assert subs == [subs[0]] + subs[1..];
      var rest := RemoveFirst(subs[1..], ch);
      forall j | 0 <= j < |rest|
        ensures rest[j] != subs[0]
      {
        assert rest[j] in subs[1..];
      }
    }
  }

  // ---- Every operation keeps the invariant ---------------------------------------------------------

  lemma PublishInv(s: State, subject: string, msg: Message)
    requires Inv(s)
    ensures Inv(Publish(s, subject, msg))
  {
    if !s.closed {
      var t := Publish(s, subject, msg);
      var m := msg.(stamp := |s.history|);
      var p := Publication(subject, m);
      forall c | c in t.chans
        ensures var ch := t.chans[c];
          ch.taken <= |ch.log| <= ch.taken + ch.capacity && Ordered(ch.log, ch.subject, t.history)
          && (!ch.closed ==> Subscribed(t, c))
      {
        OrderedGrows(s.chans[c].log, s.chans[c].subject, s.history, p);
        if t.chans[c] != s.chans[c] {
          OrderedAppend(s.chans[c].log, subject, s.history, m);
        }
        assert !s.chans[c].closed ==> Subscribed(s, c);
      }
      forall x | x in t.pending
        ensures 0 < |t.pending[x]| <= MAX_PENDING && Ordered(Messages(t.pending[x]), x, t.history)
      {
        var q := Queue(s.pending, x);
        assert Ordered(Messages(q), x, s.history);
        OrderedGrows(Messages(q), x, s.history, p);
        if x == subject && t.pending[x] != q {
          HoldOrdered(q, subject, s.history, m);
        }
      }
    }
  }

  lemma HoldOrdered(q: seq<Held>, subject: string, history: seq<Publication>, m: Message)
    requires |q| <= MAX_PENDING && Ordered(Messages(q), subject, history) && m.stamp == |history|
    ensures 0 < |Hold(q, m)| <= MAX_PENDING
    ensures Ordered(Messages(Hold(q, m)), subject, history + [Publication(subject, m)])
  {
    var kept := if |q| >= MAX_PENDING then q[1..] else q;
    assert Ordered(Messages(kept), subject, history) by {
      if |q| >= MAX_PENDING {
        assert Messages(kept) == Messages(q)[1..];
      }
    }
    OrderedAppend(Messages(kept), subject, history, m);
    assert Messages(Hold(q, m)) == Messages(kept) + [m];
  }

  lemma RegisterFacts(consumers: map<string, map<string, int>>, subject: string, consumer: string, now: int,
                      victim: string)
    requires |consumers| <= MAX_SUBJECTS
    requires forall x :: x in consumers ==> 0 < |consumers[x]| <= MAX_CONSUMERS && "" !in consumers[x]
    requires consumer != ""
    ensures var r := Register(consumers, subject, consumer, now, victim);
      && |r| <= MAX_SUBJECTS
      && (forall x :: x in r ==> 0 < |r[x]| <= MAX_CONSUMERS && "" !in r[x])
      && (forall x :: x != subject ==> (x in r <==> x in consumers) && (x in r ==> r[x] == consumers[x]))
      && (subject in consumers ==> subject in r)
      && (forall c :: c in Registry(r, subject) ==>
            if c == consumer && r[subject][c] == now then true
            else c in Registry(consumers, subject) && r[subject][c] == consumers[subject][c])
  {
    var reg := Registry(consumers, subject);
    if Full(reg, consumer) && victim in reg {
      assert |reg - {victim}| == |reg| - 1 by {
        assert (reg - {victim}).Keys == reg.Keys - {victim};
      }
    }
  }

  lemma SubscribeInv(s: State, subject: string, consumer: string, ch: nat, victim: string, now: int)
    requires Inv(s) && Allowed(s, SubscribeOp(subject, consumer, ch, victim, now))
    ensures Inv(Subscribe(s, subject, consumer, ch, victim, now))
  {
    hide Ordered, Register, Unacked, Messages;
    if !s.closed {
      var t := Subscribe(s, subject, consumer, ch, victim, now);
      SubscribeLists(s, subject, consumer, ch, victim, now);
      SubscribeChans(s, subject, consumer, ch, victim, now);
      SubscribeConsumers(s, subject, consumer, ch, victim, now);
      assert PendingOk(t);
    }
  }

  lemma SubscribeLists(s: State, subject: string, consumer: string, ch: nat, victim: string, now: int)
    requires SubscribersOk(s) && ch !in s.chans && !s.closed
    ensures SubscribersOk(Subscribe(s, subject, consumer, ch, victim, now))
  {
    hide Ordered, Register, Unacked, Messages;
    assert ch !in Subs(s, subject);
  }

  lemma SubscribeChans(s: State, subject: string, consumer: string, ch: nat, victim: string, now: int)
    requires ChansOk(s) && PendingOk(s) && ch !in s.chans && !s.closed
    ensures ChansOk(Subscribe(s, subject, consumer, ch, victim, now))
  {
    hide Ordered, Register, Unacked, Messages;
    var t := Subscribe(s, subject, consumer, ch, victim, now);
    var q := Queue(s.pending, subject);
    QueueOrdered(s, subject);
    UnackedOrdered(q, consumer, subject, s.history);
    forall c | c in t.chans && c != ch
      ensures !t.chans[c].closed ==> Subscribed(t, c)
    {
      assert !s.chans[c].closed ==> Subscribed(s, c);
    }
  }

  lemma QueueOrdered(s: State, subject: string)
    requires PendingOk(s)
    ensures Ordered(Messages(Queue(s.pending, subject)), subject, s.history)
  {
  }

  lemma SubscribeConsumers(s: State, subject: string, consumer: string, ch: nat, victim: string, now: int)
    requires ConsumersOk(s) && s.clock <= now && !s.closed
    ensures ConsumersOk(Subscribe(s, subject, consumer, ch, victim, now))
  {
    hide Register, Unacked, Messages;
    if consumer != "" {
      RegisterFacts(s.consumers, subject, consumer, now, victim);
    }
  }

  lemma DetachInv(s: State, subject: string, ch: nat)
    requires Inv(s) && Allowed(s, DetachOp(subject, ch))
    ensures Inv(Detach(s, subject, ch))
  {
    hide QueuesOk, RegistriesOk, Subscribed;
    DetachSubscribers(s, subject, ch);
    DetachChans(s, subject, ch);
    DetachConsumers(s, subject, ch);
    hide SubscribersOk, ChansOk;
    if s.closed {
      assert DetachLists(s, subject, ch) == map[];
      assert Detach(s, subject, ch).consumers == map[];
    }
  }

  lemma DetachSubscribers(s: State, subject: string, ch: nat)
    requires SubscribersOk(s)
    ensures SubscribersOk(Detach(s, subject, ch))
  {
    hide Ordered, RemoveFirst, Prune;
    var rest := RemoveFirst(Subs(s, subject), ch);
    RemoveFirstFacts(Subs(s, subject), ch);
    forall i | 0 <= i < |rest|
      ensures rest[i] in Subs(s, subject) && rest[i] != ch
    {
      assert rest[i] in rest;
    }
  }

  lemma DetachChans(s: State, subject: string, ch: nat)
    requires SubscribersOk(s) && ChansOk(s) && Allowed(s, DetachOp(subject, ch))
    ensures ChansOk(Detach(s, subject, ch))
  {
    hide Ordered, RemoveFirst, Prune;
    var t := Detach(s, subject, ch);
    RemoveFirstFacts(Subs(s, subject), ch);
    assert Subs(t, subject) == RemoveFirst(Subs(s, subject), ch);
    forall c | c in t.chans && !t.chans[c].closed
      ensures Subscribed(t, c)
    {
      assert Subscribed(s, c);
    }
  }

  lemma DetachConsumers(s: State, subject: string, ch: nat)
    requires ConsumersOk(s)
    ensures ConsumersOk(Detach(s, subject, ch))
  {
    hide RemoveFirst;
    var subscribers := DetachLists(s, subject, ch);
    assert forall x :: x != subject ==> (x in subscribers <==> x in s.subscribers);
    assert RegistriesExcept(subscribers, s.pending, s.consumers, s.clock, subject);
    hide DetachLists;
    PruneConsumers(subscribers, s.pending, s.consumers, s.clock, subject);
  }

  // Pruning settles the one subject whose registry may be idle.
  lemma PruneConsumers(subscribers: map<string, seq<nat>>, pending: map<string, seq<Held>>,
                       consumers: map<string, map<string, int>>, clock: int, subject: string)
    requires RegistriesExcept(subscribers, pending, consumers, clock, subject)
    ensures RegistriesOk(subscribers, pending, Prune(subscribers, pending, consumers, subject), clock)
  {
    FewerKeys(consumers, {subject});
  }

  lemma FewerKeys<V>(m: map<string, V>, gone: set<string>)
    ensures |m - gone| <= |m|
  {
    assert (m - gone).Keys == m.Keys - gone;
    assert |m.Keys - gone| <= |m.Keys|;
  }

  lemma AckInv(s: State, subject: string, id: string, consumer: string, victim: string, now: int)
    requires Inv(s) && Allowed(s, AckOp(subject, id, consumer, victim, now))
    ensures Inv(Ack(s, subject, id, consumer, victim, now))
  {
    hide Ordered, Register, Messages, Mark, Outstanding, WithoutId, Prune, DropFullyAcked, SubscribersOk, ChansOk,
      ConsumersOk, PendingOk;
    if !s.closed {
      if consumer == "" {
        LegacyAckOk(s, subject, id);
      } else {
        var cons := Register(s.consumers, subject, consumer, now, victim);
        RegisteredAckPending(s, subject, id, consumer, cons, now);
        RegisteredAckConsumers(s, subject, id, consumer, victim, now);
        SameSubscribers(s, RegisteredAck(s, subject, id, consumer, cons, now));
      }
    }
  }

  lemma LegacyAckOk(s: State, subject: string, id: string)
    requires Inv(s) && !s.closed
    ensures Inv(Ack(s, subject, id, "", "", 0))
    ensures forall victim, now :: Ack(s, subject, id, "", victim, now) == Ack(s, subject, id, "", "", 0)
  {
    hide SubscribersOk, ChansOk, QueuesOk, RegistriesOk, DropMessage;
    SameSubscribers(s, Ack(s, subject, id, "", "", 0));
    if Registry(s.consumers, subject) == map[] {
      DropMessageQueues(s, subject, id);
      DropMessageRegistries(s, subject, id);
    }
  }

  lemma DropMessageQueues(s: State, subject: string, id: string)
    requires PendingOk(s)
    ensures QueuesOk(DropMessage(s.pending, subject, id), s.history)
  {
    hide Ordered, Messages, WithoutId;
    QueueOrdered(s, subject);
    WithoutIdOrdered(Queue(s.pending, subject), id, subject, s.history);
  }

  lemma DropMessageRegistries(s: State, subject: string, id: string)
    requires ConsumersOk(s) && Registry(s.consumers, subject) == map[]
    ensures RegistriesOk(s.subscribers, DropMessage(s.pending, subject, id), s.consumers, s.clock)
  {
    hide WithoutId;
    assert subject !in s.consumers;
    assert forall x :: x != subject && x in s.pending ==> x in DropMessage(s.pending, subject, id);
  }

  lemma RegisteredAckPending(s: State, subject: string, id: string, consumer: string,
                             cons: map<string, map<string, int>>, now: int)
    requires PendingOk(s)
    ensures PendingOk(RegisteredAck(s, subject, id, consumer, cons, now))
  {
    hide Ordered, Messages, Mark, Outstanding, Prune;
    var q := Queue(s.pending, subject);
    QueueOrdered(s, subject);
    MarkOrdered(q, id, consumer);
    OutstandingOrdered(Mark(q, id, consumer), Registry(cons, subject).Keys, subject, s.history);
  }

  lemma RegisteredAckConsumers(s: State, subject: string, id: string, consumer: string, victim: string, now: int)
    requires ConsumersOk(s) && consumer != "" && s.clock <= now
    ensures ConsumersOk(RegisteredAck(s, subject, id, consumer, Register(s.consumers, subject, consumer, now, victim),
      now))
  {
    hide Register, AckQueues;
    var cons := Register(s.consumers, subject, consumer, now, victim);
    RegisterFacts(s.consumers, subject, consumer, now, victim);
    AckOtherQueues(s.pending, subject, id, consumer, Registry(cons, subject));
    var pending := AckQueues(s.pending, subject, id, consumer, Registry(cons, subject));
    assert RegistriesExcept(s.subscribers, pending, cons, now, subject);
    PruneConsumers(s.subscribers, pending, cons, now, subject);
  }

  lemma AckOtherQueues(pending: map<string, seq<Held>>, subject: string, id: string, consumer: string,
                       reg: map<string, int>)
    ensures var r := AckQueues(pending, subject, id, consumer, reg);
      forall x :: x != subject ==> (x in r <==> x in pending) && (x in r ==> r[x] == pending[x])
  {
    hide Mark, Outstanding;
  }

  // Channels and subscriber lists look only at each other and the history.
  lemma SameSubscribers(s: State, t: State)
    requires SubscribersOk(s) && ChansOk(s)
    requires t.subscribers == s.subscribers && t.chans == s.chans && t.history == s.history
    ensures SubscribersOk(t) && ChansOk(t)
  {
    hide Ordered;
    forall c | c in t.chans && !t.chans[c].closed
      ensures Subscribed(t, c)
    {
      assert Subscribed(s, c);
    }
  }

  lemma SweepInv(s: State, now: int)
    requires Inv(s) && s.clock <= now
    ensures Inv(Sweep(s, now))
  {
    hide Ordered;
    var t := Sweep(s, now);
    forall x | x in t.pending
      ensures |t.pending[x]| <= MAX_PENDING && Ordered(Messages(t.pending[x]), x, s.history)
    {
      SweptOrdered(s, x, now);
    }
    SameSubscribers(s, t);
    SweepConsumers(s, now);
  }

  lemma SweepConsumers(s: State, now: int)
    requires ConsumersOk(s) && s.clock <= now
    ensures ConsumersOk(Sweep(s, now))
  {
    hide Ordered, Unexpired, Outstanding;
    var t := Sweep(s, now);
    assert t.consumers.Keys <= s.consumers.Keys;
    SubsetSize(t.consumers.Keys, s.consumers.Keys);
    forall x | x in t.consumers
      ensures 0 < |t.consumers[x]| <= MAX_CONSUMERS
      ensures x in t.subscribers || x in t.pending
    {
      assert t.consumers[x].Keys <= s.consumers[x].Keys;
      SubsetSize(t.consumers[x].Keys, s.consumers[x].Keys);
      EmptySwept(s, x, now);
    }
  }

  lemma EmptySwept(s: State, x: string, now: int)
    ensures Queue(s.pending, x) == [] ==> SweptQueue(s, x, now) == []
  {
  }

  lemma SweptOrdered(s: State, x: string, now: int)
    requires PendingOk(s)
    ensures |SweptQueue(s, x, now)| <= |Queue(s.pending, x)|
    ensures Ordered(Messages(SweptQueue(s, x, now)), x, s.history)
  {
    var q := Queue(s.pending, x);
    assert Ordered(Messages(q), x, s.history);
    hide Ordered;
    UnexpiredOrdered(q, now, x, s.history);
    OutstandingOrdered(Unexpired(q, now), Recent(Registry(s.consumers, x), now).Keys, x, s.history);
  }

  lemma CloseInv(s: State)
    requires Inv(s)
    ensures Inv(Close(s))
  {
  }

  lemma DrainInv(s: State, ch: nat)
    requires Inv(s)
    ensures Inv(Drain(s, ch))
  {
    hide Ordered;
    var t := Drain(s, ch);
    forall c | c in t.chans && !t.chans[c].closed
      ensures Subscribed(t, c)
    {
      assert Subscribed(s, c);
    }
  }

  lemma ApplyInv(s: State, op: Op)
    requires Inv(s) && Allowed(s, op)
    ensures Inv(Apply(s, op))
  {
    hide Inv, Publish, Subscribe, Detach, Ack, Sweep, Close, Drain;
    match op
    case PublishOp(subject, msg) => PublishInv(s, subject, msg);
    case SubscribeOp(subject, consumer, ch, victim, now) => SubscribeInv(s, subject, consumer, ch, victim, now);
    case DetachOp(subject, ch) => DetachInv(s, subject, ch);
    case AckOp(subject, id, consumer, victim, now) => AckInv(s, subject, id, consumer, victim, now);
    case SweepOp(now) => SweepInv(s, now);
    case CloseOp => CloseInv(s);
    case DrainOp(ch) => DrainInv(s, ch);
  }
}
