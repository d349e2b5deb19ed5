// Delivery guarantees of the bus over whole runs: nothing a registered consumer has yet to ack is lost,
// a re-subscribe replays exactly the backlog, and every channel is in publish order.
module BusDelivery {
  import opened BusModel
  import opened BusRuns

  // ---- Runs ----------------------------------------------------------------------------------------

  // states[k] --ops[k]--> states[k + 1]
  ghost predicate Run(states: seq<State>, ops: seq<Op>) {
    && |states| == |ops| + 1
    && forall k :: 0 <= k < |ops| ==> Allowed(states[k], ops[k]) && states[k + 1] == Apply(states[k], ops[k])
  }

  lemma StepOf(states: seq<State>, ops: seq<Op>, k: nat)
    requires Run(states, ops) && k < |ops|
    ensures Allowed(states[k], ops[k]) && states[k + 1] == Apply(states[k], ops[k])
  {
  }

  lemma {:induction false} RunInv(states: seq<State>, ops: seq<Op>, k: nat)
    requires Run(states, ops) && Inv(states[0]) && k < |states|
    ensures Inv(states[k])
  {
    if k > 0 {
      RunInv(states, ops, k - 1);
      ApplyInv(states[k - 1], ops[k - 1]);
    }
  }

  // ---- What is owed to a consumer ------------------------------------------------------------------

  ghost predicate Registered(s: State, subject: string, consumer: string) {
    consumer in Registry(s.consumers, subject)
  }

  ghost predicate OwedIn(q: seq<Held>, consumer: string, m: Message) {
    exists h :: h in q && h.msg == m && consumer !in h.ackedBy
  }

  // The blob is held and this consumer has not acked it.
  ghost predicate Owed(s: State, subject: string, consumer: string, m: Message) {
    OwedIn(Queue(s.pending, subject), consumer, m)
  }

  // The only three ways a held blob can leave a registered consumer's backlog.
  ghost predicate Excuse(s: State, op: Op, subject: string, consumer: string, m: Message) {
    || (op.AckOp? && op.subject == subject && op.id == m.id && op.consumer == consumer)
    || (op.SweepOp? && op.now >= m.expiresAt)
    || (op.PublishOp? && op.subject == subject && |Queue(s.pending, subject)| >= MAX_PENDING
        && Queue(s.pending, subject)[0].msg == m)
  }

  lemma {:induction false} OutstandingKeeps(q: seq<Held>, reg: set<string>, consumer: string, m: Message)
    requires OwedIn(q, consumer, m) && consumer in reg
    ensures OwedIn(Outstanding(q, reg), consumer, m)
  {
    var h :| h in q && h.msg == m && consumer !in h.ackedBy;
    OutstandingMember(q, reg, h);
  }

  lemma UnexpiredKeeps(q: seq<Held>, now: int, consumer: string, m: Message)
    requires OwedIn(q, consumer, m) && m.expiresAt > now
    ensures OwedIn(Unexpired(q, now), consumer, m)
  {
    var h :| h in q && h.msg == m && consumer !in h.ackedBy;
    UnexpiredMember(q, now, h);
  }

  lemma MarkKeeps(q: seq<Held>, id: string, other: string, consumer: string, m: Message)
    requires OwedIn(q, consumer, m) && !(id == m.id && other == consumer)
    ensures OwedIn(Mark(q, id, other), consumer, m)
  {
    var h :| h in q && h.msg == m && consumer !in h.ackedBy;
    var i :| 0 <= i < |q| && q[i] == h;
    assert Mark(q, id, other)[i] in Mark(q, id, other);
  }

  lemma HoldKeeps(q: seq<Held>, new_: Message, consumer: string, m: Message)
    requires OwedIn(q, consumer, m) && !(|q| >= MAX_PENDING && q[0].msg == m)
    ensures OwedIn(Hold(q, new_), consumer, m)
  {
    var h :| h in q && h.msg == m && consumer !in h.ackedBy;
    var i :| 0 <= i < |q| && q[i] == h;
    var r := Hold(q, new_);
    assert h in r by {
      if |q| >= MAX_PENDING {
        assert q[i] == r[i - 1];
      } else {
        assert q[i] == r[i];
      }
    }
  }

  // One operation: unless excused, the debt to a consumer that is registered before and after survives.
  lemma OwedStep(s: State, op: Op, subject: string, consumer: string, m: Message)
    requires Inv(s) && Allowed(s, op)
    requires Registered(s, subject, consumer) && Registered(Apply(s, op), subject, consumer)
    requires Owed(s, subject, consumer, m) && !Excuse(s, op, subject, consumer, m)
    ensures Owed(Apply(s, op), subject, consumer, m)
  {
    hide OwedIn, Inv, Register, Mark, Outstanding, Unexpired, WithoutId, Hold;
    var q := Queue(s.pending, subject);
    OwedNonEmpty(q, consumer, m);
    match op
    case PublishOp(x, msg) =>
      if x == subject && !s.closed {
        HoldKeeps(q, msg.(stamp := |s.history|), consumer, m);
      }
    case SubscribeOp(x, c, ch, victim, now) =>
    case DetachOp(x, ch) =>
    case AckOp(x, id, c, victim, now) =>
      OwedAck(s, x, id, c, victim, now, subject, consumer, m);
    case SweepOp(now) =>
      OwedSweep(s, now, subject, consumer, m);
    case CloseOp =>
    case DrainOp(ch) =>
  }

  lemma OwedNonEmpty(q: seq<Held>, consumer: string, m: Message)
    requires OwedIn(q, consumer, m)
    ensures q != []
  {
  }

  lemma OwedAck(s: State, x: string, id: string, c: string, victim: string, now: int, subject: string,
                consumer: string, m: Message)
    requires Registered(s, subject, consumer) && Registered(Ack(s, x, id, c, victim, now), subject, consumer)
    requires Owed(s, subject, consumer, m) && !(x == subject && id == m.id && c == consumer)
    ensures Owed(Ack(s, x, id, c, victim, now), subject, consumer, m)
  {
    hide OwedIn, Register, Mark, Outstanding, WithoutId;
    var q := Queue(s.pending, subject);
    OwedNonEmpty(q, consumer, m);
    if !s.closed && c != "" {
      var cons := Register(s.consumers, x, c, now, victim);
      if x == subject {
        var marked := Mark(q, id, c);
        MarkKeeps(q, id, c, consumer, m);
        assert consumer in Registry(cons, subject);
        OutstandingKeeps(marked, Registry(cons, subject).Keys, consumer, m);
        OwedNonEmpty(Outstanding(marked, Registry(cons, subject).Keys), consumer, m);
      } else {
        AckOtherQueues(s.pending, x, id, c, Registry(cons, x));
      }
    }
  }

  lemma OwedSweep(s: State, now: int, subject: string, consumer: string, m: Message)
    requires Registered(s, subject, consumer) && Registered(Sweep(s, now), subject, consumer)
    requires Owed(s, subject, consumer, m) && m.expiresAt > now
    ensures Owed(Sweep(s, now), subject, consumer, m)
  {
    hide OwedIn, Outstanding, Unexpired;
    var q := Queue(s.pending, subject);
    OwedNonEmpty(q, consumer, m);
    UnexpiredKeeps(q, now, consumer, m);
    var reg := Recent(s.consumers[subject], now);
    OutstandingKeeps(Unexpired(q, now), reg.Keys, consumer, m);
    OwedNonEmpty(Outstanding(Unexpired(q, now), reg.Keys), consumer, m);
  }

  // No loss: over any stretch of a run in which the consumer stays registered, a debt is still there at the
  // end, or one of the three excuses happened on the way.
  lemma {:induction false} NoLoss(states: seq<State>, ops: seq<Op>, i: nat, j: nat, subject: string, consumer: string,
                                  m: Message)
    requires Run(states, ops) && Inv(states[0]) && i <= j < |states|
    requires forall k :: i <= k <= j ==> Registered(states[k], subject, consumer)
    requires Owed(states[i], subject, consumer, m)
    ensures Owed(states[j], subject, consumer, m)
         || exists k :: i <= k < j && Excuse(states[k], ops[k], subject, consumer, m)
    decreases j
  {
    hide Inv, Owed, Excuse, Registered, Apply, Allowed;
    if i < j {
      NoLoss(states, ops, i, j - 1, subject, consumer, m);
      if Owed(states[j - 1], subject, consumer, m) && !Excuse(states[j - 1], ops[j - 1], subject, consumer, m) {
        RunInv(states, ops, j - 1);
        StepOf(states, ops, j - 1);
        OwedStep(states[j - 1], ops[j - 1], subject, consumer, m);
      }
    }
  }

  // A publish to a subject with a registered consumer creates the debt, whoever is listening live.
  lemma PublishOwes(s: State, subject: string, msg: Message, consumer: string)
    requires Inv(s) && !s.closed && Registered(s, subject, consumer)
    ensures var m := msg.(stamp := |s.history|);
      var t := Publish(s, subject, msg);
      Owed(t, subject, consumer, m) && t.history == s.history + [Publication(subject, m)]
  {
    var m := msg.(stamp := |s.history|);
    var r := Hold(Queue(s.pending, subject), m);
    assert r[|r| - 1] == Held(m, {});
    assert Held(m, {}) in r;
  }

  // A publish reaches every live subscriber with room, and a blob that reached nobody is held.
  lemma PublishReaches(s: State, subject: string, msg: Message, ch: nat)
    requires Inv(s) && !s.closed
    ensures var m := msg.(stamp := |s.history|);
      var t := Publish(s, subject, msg);
      && (ch in Subs(s, subject) && s.chans[ch].HasRoom() ==> t.chans[ch].log == s.chans[ch].log + [m])
      && ((exists c :: c in Subs(s, subject) && c in t.chans && m in t.chans[c].log) || Owed(t, subject, "", m))
  {
    hide Inv, Hold;
    SubscribersKnown(s, subject);
    var m := msg.(stamp := |s.history|);
    var t := Publish(s, subject, msg);
    if c :| c in Subs(s, subject) && c in s.chans && s.chans[c].HasRoom() {
      assert m in t.chans[c].log;
    } else {
      HoldAdds(Queue(s.pending, subject), m);
    }
  }

  lemma SubscribersKnown(s: State, subject: string)
    requires Inv(s)
    ensures forall c :: c in Subs(s, subject) ==> c in s.chans
  {
  }

  lemma HoldAdds(q: seq<Held>, m: Message)
    ensures Held(m, {}) in Hold(q, m) && OwedIn(Hold(q, m), "", m)
  {
    var r := Hold(q, m);
    assert r[|r| - 1] == Held(m, {});
  }

  // ---- What an ack and a sweep achieve ---------------------------------------------------------------

  lemma MarkDischarges(q: seq<Held>, id: string, consumer: string, m: Message)
    requires m.id == id
    ensures !OwedIn(Mark(q, id, consumer), consumer, m)
  {
    var r := Mark(q, id, consumer);
    forall h | h in r && h.msg == m
      ensures consumer in h.ackedBy
    {
      var i :| 0 <= i < |r| && r[i] == h;
    }
  }

  lemma OutstandingAddsNone(q: seq<Held>, reg: set<string>, consumer: string, m: Message)
    ensures OwedIn(Outstanding(q, reg), consumer, m) ==> OwedIn(q, consumer, m)
  {
    hide Outstanding;
    if h :| h in Outstanding(q, reg) && h.msg == m && consumer !in h.ackedBy {
      OutstandingMember(q, reg, h);
    }
  }

  // An ack settles the debt: the consumer is owed nothing under that id any more.
  lemma AckDischarges(s: State, subject: string, id: string, consumer: string, victim: string, now: int, m: Message)
    requires Inv(s) && !s.closed && consumer != "" && m.id == id
    ensures !Owed(Ack(s, subject, id, consumer, victim, now), subject, consumer, m)
  {
    hide Inv, Register, Mark, Outstanding, OwedIn, Prune;
    var q := Queue(s.pending, subject);
    var reg := Registry(Register(s.consumers, subject, consumer, now, victim), subject);
    MarkDischarges(q, id, consumer, m);
    OutstandingAddsNone(Mark(q, id, consumer), reg.Keys, consumer, m);
    OwedNothing(consumer, m);
  }

  lemma OwedNothing(consumer: string, m: Message)
    ensures !OwedIn([], consumer, m)
  {
  }

  // Every blob a subject still holds has a registered consumer that has not acked it.
  ghost predicate SomeoneWaits(s: State, subject: string) {
    Registry(s.consumers, subject) != map[] ==>
      forall h :: h in Queue(s.pending, subject) ==> exists c :: c in Registry(s.consumers, subject) && c !in h.ackedBy
  }

  lemma OutstandingWaits(q: seq<Held>, reg: map<string, int>, h: Held)
    requires h in Outstanding(q, reg.Keys)
    ensures exists c :: c in reg && c !in h.ackedBy
  {
    OutstandingMember(q, reg.Keys, h);
    var c :| c in reg.Keys && c !in h.ackedBy;
    assert c in reg;
  }

  // So a registered ack lets go of every blob that everyone has now acked.
  lemma AckReleases(s: State, subject: string, id: string, consumer: string, victim: string, now: int)
    requires Inv(s) && !s.closed && consumer != ""
    ensures SomeoneWaits(Ack(s, subject, id, consumer, victim, now), subject)
  {
    hide Inv, Register, Mark, Outstanding;
    var t := Ack(s, subject, id, consumer, victim, now);
    var reg := Registry(Register(s.consumers, subject, consumer, now, victim), subject);
    var marked := Mark(Queue(s.pending, subject), id, consumer);
    if Registry(t.consumers, subject) != map[] {
      assert Registry(t.consumers, subject) == reg;
      NoneOutstanding(reg.Keys);
      assert Queue(t.pending, subject) == Outstanding(marked, reg.Keys);
      forall h | h in Queue(t.pending, subject)
        ensures exists c :: c in reg && c !in h.ackedBy
      {
        OutstandingWaits(marked, reg, h);
      }
    }
  }

  lemma NoneOutstanding(reg: set<string>)
    ensures Outstanding([], reg) == []
  {
  }

  // After a sweep nothing held has expired, and again someone waits for everything held.
  lemma SweepReaps(s: State, now: int, subject: string, h: Held)
    requires Inv(s) && h in Queue(Sweep(s, now).pending, subject)
    ensures h.msg.expiresAt > now && SomeoneWaits(Sweep(s, now), subject)
  {
    hide Inv, Outstanding, Unexpired;
    var q := Queue(s.pending, subject);
    var reg := Recent(Registry(s.consumers, subject), now);
    assert h in SweptQueue(s, subject, now);
    if reg != map[] {
      OutstandingMember(Unexpired(q, now), reg.Keys, h);
    }
    UnexpiredMember(q, now, h);
    var t := Sweep(s, now);
    if Registry(t.consumers, subject) != map[] {
      assert Registry(t.consumers, subject) == reg;
      forall g | g in Queue(t.pending, subject)
        ensures exists c :: c in reg && c !in g.ackedBy
      {
        OutstandingWaits(Unexpired(q, now), reg, g);
      }
    }
  }

  // Nothing but a publish of the blob itself makes it owed.
  lemma OnlyPublishOwes(s: State, op: Op, subject: string, consumer: string, m: Message)
    requires Inv(s) && Allowed(s, op)
    requires Owed(Apply(s, op), subject, consumer, m) && !Owed(s, subject, consumer, m)
    ensures op.PublishOp? && op.subject == subject && m == op.msg.(stamp := |s.history|)
  {
    hide Inv, Register, Mark, Outstanding, Unexpired, WithoutId, Hold, OwedIn, Prune;
    var q := Queue(s.pending, subject);
    OwedNothing(consumer, m);
    match op
    case PublishOp(x, msg) =>
      HoldOnlyAdds(q, msg.(stamp := |s.history|), consumer, m);
    case AckOp(x, id, c, victim, now) =>
      MarkAddsNone(q, id, c, consumer, m);
      WithoutAddsNone(q, id, consumer, m);
      OutstandingAddsNone(Mark(q, id, c), Registry(Register(s.consumers, x, c, now, victim), x).Keys, consumer, m);
    case SweepOp(now) =>
      UnexpiredAddsNone(q, now, consumer, m);
      OutstandingAddsNone(Unexpired(q, now), Recent(Registry(s.consumers, subject), now).Keys, consumer, m);
    case _ =>
  }

  lemma HoldOnlyAdds(q: seq<Held>, new_: Message, consumer: string, m: Message)
    ensures OwedIn(Hold(q, new_), consumer, m) ==> OwedIn(q, consumer, m) || m == new_
  {
  }

  lemma MarkAddsNone(q: seq<Held>, id: string, other: string, consumer: string, m: Message)
    ensures OwedIn(Mark(q, id, other), consumer, m) ==> OwedIn(q, consumer, m)
  {
    if h :| h in Mark(q, id, other) && h.msg == m && consumer !in h.ackedBy {
      var i :| 0 <= i < |q| && Mark(q, id, other)[i] == h;
      assert q[i] in q;
    }
  }

  lemma {:induction false} WithoutAddsNone(q: seq<Held>, id: string, consumer: string, m: Message)
    ensures OwedIn(WithoutId(q, id), consumer, m) ==> OwedIn(q, consumer, m)
    decreases |q|
  {
    if q != [] {
      WithoutAddsNone(q[..|q| - 1], id, consumer, m);
    }
  }

  lemma UnexpiredAddsNone(q: seq<Held>, now: int, consumer: string, m: Message)
    ensures OwedIn(Unexpired(q, now), consumer, m) ==> OwedIn(q, consumer, m)
  {
    hide Unexpired;
    if h :| h in Unexpired(q, now) && h.msg == m && consumer !in h.ackedBy {
      UnexpiredMember(q, now, h);
    }
  }

  // ---- Redelivery ----------------------------------------------------------------------------------

  // A registered subscribe opens with exactly the unacked backlog, nothing taken, channel not overfull.
  lemma SubscribeReplays(s: State, subject: string, consumer: string, ch: nat, victim: string, now: int, m: Message)
    requires Inv(s) && !s.closed && consumer != "" && Allowed(s, SubscribeOp(subject, consumer, ch, victim, now))
    ensures var c := Subscribe(s, subject, consumer, ch, victim, now).chans[ch];
      && (m in c.log <==> Owed(s, subject, consumer, m))
      && c.taken == 0 && |c.log| <= MAX_PENDING && c.capacity == |c.log| + HEADROOM
  {
    hide Inv, Register;
    var q := Queue(s.pending, subject);
    UnackedMember(q, consumer, m);
    UnackedSize(q, consumer);
    if i :| 0 <= i < |q| && q[i].msg == m && consumer !in q[i].ackedBy {
      assert q[i] in q;
    }
    if h :| h in q && h.msg == m && consumer !in h.ackedBy {
      var i :| 0 <= i < |q| && q[i] == h;
    }
    QueueSize(s, subject);
  }

  lemma QueueSize(s: State, subject: string)
    requires Inv(s)
    ensures |Queue(s.pending, subject)| <= MAX_PENDING
  {
  }

  lemma {:induction false} UnackedSize(q: seq<Held>, consumer: string)
    ensures |Unacked(q, consumer)| <= |q|
  {
    if |q| > 0 {
      UnackedSize(q[..|q| - 1], consumer);
    }
  }

  // Channels only grow, so the backlog stays in front of everything published later.
  lemma LogGrows(s: State, op: Op, ch: nat)
    requires Inv(s) && Allowed(s, op) && ch in s.chans
    ensures ch in Apply(s, op).chans && s.chans[ch].log <= Apply(s, op).chans[ch].log
    ensures s.chans[ch].closed ==> Apply(s, op).chans[ch].closed && Apply(s, op).chans[ch].log == s.chans[ch].log
    ensures s.chans[ch].subject == Apply(s, op).chans[ch].subject
  {
    hide Inv, Register, Outstanding, Unexpired, WithoutId, Hold, Mark, Unacked;
    if s.chans[ch].closed {
      ClosedNotSubscribed(s, ch);
    }
  }

  lemma ClosedNotSubscribed(s: State, ch: nat)
    requires Inv(s) && ch in s.chans && s.chans[ch].closed
    ensures forall x :: ch !in Subs(s, x)
  {
  }

  lemma {:induction false} LogGrowsRun(states: seq<State>, ops: seq<Op>, i: nat, j: nat, ch: nat)
    requires Run(states, ops) && Inv(states[0]) && i <= j < |states| && ch in states[i].chans
    ensures ch in states[j].chans && states[i].chans[ch].log <= states[j].chans[ch].log
    decreases j
  {
    hide Inv, Apply, Allowed;
    if i < j {
      LogGrowsRun(states, ops, i, j - 1, ch);
      RunInv(states, ops, j - 1);
      StepOf(states, ops, j - 1);
      LogGrows(states[j - 1], ops[j - 1], ch);
    }
  }

  // Crash and come back: published at step i while registered, subscribed again at step j while nothing
  // excused the debt: the blob is in the backlog that the new channel delivers first.
  lemma Redelivered(states: seq<State>, ops: seq<Op>, i: nat, j: nat, last: nat, subject: string, consumer: string,
                    msg: Message)
    requires Run(states, ops) && Inv(states[0]) && i < j < |ops| && j < last < |states| && consumer != ""
    requires ops[i] == PublishOp(subject, msg) && !states[i].closed
    requires ops[j].SubscribeOp? && ops[j].subject == subject && ops[j].consumer == consumer && !states[j].closed
    requires forall k :: i <= k <= j ==> Registered(states[k], subject, consumer)
    requires forall k :: i < k < j ==>
      !Excuse(states[k], ops[k], subject, consumer, msg.(stamp := |states[i].history|))
    ensures var ch := ops[j].ch; var backlog := states[j + 1].chans[ch].log;
      && msg.(stamp := |states[i].history|) in backlog
      && ch in states[last].chans && backlog <= states[last].chans[ch].log
  {
    hide Inv, Subscribe, Owed, Excuse;
    var m := msg.(stamp := |states[i].history|);
    RunInv(states, ops, i);
    RunInv(states, ops, j);
    PublishOwes(states[i], subject, msg, consumer);
    NoLoss(states, ops, i + 1, j, subject, consumer, m);
    SubscribeReplays(states[j], subject, consumer, ops[j].ch, ops[j].victim, ops[j].now, m);
    SubscribeOpens(states[j], subject, consumer, ops[j].ch, ops[j].victim, ops[j].now);
    LogGrowsRun(states, ops, j + 1, last, ops[j].ch);
  }

  lemma SubscribeOpens(s: State, subject: string, consumer: string, ch: nat, victim: string, now: int)
    requires !s.closed
    ensures ch in Subscribe(s, subject, consumer, ch, victim, now).chans
  {
  }

  // ---- Order ---------------------------------------------------------------------------------------

  // In every reachable state every channel holds messages of its own subject, strictly in publish order,
  // never more than its capacity, and only open channels are ever delivered to.
  lemma ChannelsInOrder(states: seq<State>, ops: seq<Op>, k: nat, ch: nat)
    requires Run(states, ops) && states[0] == EMPTY && k < |states| && ch in states[k].chans
    ensures var c := states[k].chans[ch];
      && (forall i, j :: 0 <= i < j < |c.log| ==> c.log[i].stamp < c.log[j].stamp)
      && (forall i :: 0 <= i < |c.log| ==>
            c.log[i].stamp < |states[k].history|
              && states[k].history[c.log[i].stamp] == Publication(c.subject, c.log[i]))
      && |c.log| - c.taken <= c.capacity
      && (c.closed ==> forall x :: ch !in Subs(states[k], x))
  {
    EmptyInv();
    RunInv(states, ops, k);
    if states[k].chans[ch].closed {
      ClosedNotSubscribed(states[k], ch);
    }
  }

  // ---- Bounds and eviction --------------------------------------------------------------------------

  // In every reachable state the queues and registries are bounded, and a registry serves someone.
  lemma Bounded(states: seq<State>, ops: seq<Op>, k: nat)
    requires Run(states, ops) && states[0] == EMPTY && k < |states|
    ensures var s := states[k];
      && |s.consumers| <= 100000
      && (forall x :: x in s.pending ==> 0 < |s.pending[x]| <= 1024)
      && (forall x :: x in s.consumers ==> 0 < |s.consumers[x]| <= 128 && (x in s.subscribers || x in s.pending))
  {
    EmptyInv();
    RunInv(states, ops, k);
  }

  // A registration never costs a consumer seen in the last 90 seconds its place: a consumer leaves a
  // registry by being the stalest past the floor, by 2 hours of silence, by its subject going idle, or by Close.
  lemma EvictionFloor(s: State, op: Op, subject: string, consumer: string)
    requires Inv(s) && Allowed(s, op)
    requires Registered(s, subject, consumer) && !Registered(Apply(s, op), subject, consumer)
    ensures var seen := s.consumers[subject][consumer]; var t := Apply(s, op);
      || ((op.SubscribeOp? || op.AckOp?) && op.subject == subject && op.now - seen >= EVICTION_FLOOR
          && forall c :: c in s.consumers[subject] ==> seen <= s.consumers[subject][c])
      || (op.SweepOp? && op.now - seen > RETENTION)
      || ((op.DetachOp? || op.AckOp? || op.SweepOp?) && subject !in t.subscribers && subject !in t.pending)
      || op.CloseOp?
  {
    hide Inv, Register, Outstanding, Unexpired, WithoutId, Hold, Mark, Unacked, SweptQueue, DropFullyAcked;
    match op
    case PublishOp(x, msg) =>
    case SubscribeOp(x, c, ch, victim, now) =>
      LostByRegister(s.consumers, x, c, now, victim, subject, consumer);
    case DetachOp(x, ch) =>
    case AckOp(x, id, c, victim, now) =>
      LostByRegister(s.consumers, x, c, now, victim, subject, consumer);
    case SweepOp(now) =>
      LostBySweep(s, now, subject, consumer);
    case CloseOp =>
    case DrainOp(ch) =>
  }

  lemma LostByRegister(consumers: map<string, map<string, int>>, x: string, c: string, now: int, victim: string,
                       subject: string, consumer: string)
    requires ChoosesStalest(consumers, x, c, victim)
    requires consumer in Registry(consumers, subject)
    ensures consumer in Registry(Register(consumers, x, c, now, victim), subject)
         || (x == subject && now - consumers[subject][consumer] >= EVICTION_FLOOR
             && forall d :: d in consumers[subject] ==> consumers[subject][consumer] <= consumers[subject][d])
  {
  }

  lemma LostBySweep(s: State, now: int, subject: string, consumer: string)
    requires Inv(s) && Registered(s, subject, consumer) && !Registered(Sweep(s, now), subject, consumer)
    ensures now - s.consumers[subject][consumer] > RETENTION
         || (subject !in s.subscribers && subject !in Sweep(s, now).pending)
  {
    hide SweptQueue, ChansOk, QueuesOk, RegistriesOk;
    assert now - s.consumers[subject][consumer] <= RETENTION ==> consumer in Recent(s.consumers[subject], now);
    assert subject in s.subscribers ==> Subs(s, subject) != [];
  }

  // ---- One ack over several mailboxes ---------------------------------------------------------------

  datatype SubjectConsumer = SubjectConsumer(subject: string, consumer: string)

  // The lock section of AckAcross, with the eviction victims the registry picked on the way.
  function AckAll(s: State, pairs: seq<SubjectConsumer>, id: string, victims: seq<string>, now: int): State
    requires |victims| == |pairs|
  {
    if |pairs| == 0 then s
    else
      var n := |pairs| - 1;
      Ack(AckAll(s, pairs[..n], id, victims[..n], now), pairs[n].subject, id, pairs[n].consumer, victims[n], now)
  }

  ghost predicate AllowedAcks(s: State, pairs: seq<SubjectConsumer>, id: string, victims: seq<string>, now: int)
    requires |victims| == |pairs|
  {
    forall k :: 0 <= k < |pairs| ==>
      Allowed(AckAll(s, pairs[..k], id, victims[..k], now),
        AckOp(pairs[k].subject, id, pairs[k].consumer, victims[k], now))
  }

  // A connection acks each of its mailboxes once, and then the whole section loses nothing either: the debt
  // survives for a consumer registered before and after, unless this very ack discharges it.
  lemma {:induction false} AckAcrossKeeps(s: State, pairs: seq<SubjectConsumer>, id: string, victims: seq<string>,
                                          now: int, subject: string, consumer: string, m: Message)
    requires |victims| == |pairs| && Inv(s) && AllowedAcks(s, pairs, id, victims, now)
    requires forall i, j :: 0 <= i < j < |pairs| ==> pairs[i].subject != pairs[j].subject
    requires Registered(s, subject, consumer) && Registered(AckAll(s, pairs, id, victims, now), subject, consumer)
    requires Owed(s, subject, consumer, m) && (SubjectConsumer(subject, consumer) in pairs ==> id != m.id)
    ensures Owed(AckAll(s, pairs, id, victims, now), subject, consumer, m)
    decreases |pairs|
  {
    hide Inv, Owed, Ack, Registered, Allowed, AllowedAcks;
    if |pairs| > 0 {
      var n := |pairs| - 1;
      AllowedPrefix(s, pairs, id, victims, now);
      var t := AckAll(s, pairs[..n], id, victims[..n], now);
      var last := pairs[n];
      AckAllInv(s, pairs[..n], id, victims[..n], now);
      if last.subject == subject {
        OtherSubjects(s, pairs[..n], id, victims[..n], now, subject);
        SameRegistry(s, t, subject, consumer);
      } else {
        AckElsewhere(t, last.subject, id, last.consumer, victims[n], now, subject);
        SameRegistry(t, Ack(t, last.subject, id, last.consumer, victims[n], now), subject, consumer);
      }
      assert last in pairs;
      AckAcrossKeeps(s, pairs[..n], id, victims[..n], now, subject, consumer, m);
      OneAckKeeps(t, last.subject, id, last.consumer, victims[n], now, subject, consumer, m);
    }
  }

  lemma OneAckKeeps(s: State, x: string, id: string, c: string, victim: string, now: int, subject: string,
                    consumer: string, m: Message)
    requires Inv(s) && Allowed(s, AckOp(x, id, c, victim, now))
    requires Registered(s, subject, consumer) && Registered(Ack(s, x, id, c, victim, now), subject, consumer)
    requires Owed(s, subject, consumer, m) && !(x == subject && c == consumer && id == m.id)
    ensures Owed(Ack(s, x, id, c, victim, now), subject, consumer, m)
  {
    hide Inv, Owed, Ack, Registered;
    OwedStep(s, AckOp(x, id, c, victim, now), subject, consumer, m);
  }

  lemma SameRegistry(s: State, t: State, subject: string, consumer: string)
    ensures Registry(s.consumers, subject) == Registry(t.consumers, subject) ==>
      Registered(s, subject, consumer) == Registered(t, subject, consumer)
  {
  }

  lemma AllowedPrefix(s: State, pairs: seq<SubjectConsumer>, id: string, victims: seq<string>, now: int)
    requires |victims| == |pairs| > 0 && AllowedAcks(s, pairs, id, victims, now)
    ensures var n := |pairs| - 1;
      && AllowedAcks(s, pairs[..n], id, victims[..n], now)
      && Allowed(AckAll(s, pairs[..n], id, victims[..n], now),
        AckOp(pairs[n].subject, id, pairs[n].consumer, victims[n], now))
  {
    hide Allowed, AckAll;
    var n := |pairs| - 1;
    forall k | 0 <= k < n
      ensures pairs[..n][..k] == pairs[..k] && victims[..n][..k] == victims[..k]
    {
    }
  }

  lemma {:induction false} AckAllInv(s: State, pairs: seq<SubjectConsumer>, id: string, victims: seq<string>, now: int)
    requires |victims| == |pairs| && Inv(s) && AllowedAcks(s, pairs, id, victims, now)
    ensures Inv(AckAll(s, pairs, id, victims, now))
    decreases |pairs|
  {
    hide Inv, Ack, Allowed, AllowedAcks;
    if |pairs| > 0 {
      var n := |pairs| - 1;
      AllowedPrefix(s, pairs, id, victims, now);
      AckAllInv(s, pairs[..n], id, victims[..n], now);
      AckInv(AckAll(s, pairs[..n], id, victims[..n], now), pairs[n].subject, id, pairs[n].consumer, victims[n], now);
    }
  }

  lemma {:induction false} OtherSubjects(s: State, pairs: seq<SubjectConsumer>, id: string, victims: seq<string>,
                                         now: int, subject: string)
    requires |victims| == |pairs| && forall k :: 0 <= k < |pairs| ==> pairs[k].subject != subject
    ensures Registry(AckAll(s, pairs, id, victims, now).consumers, subject) == Registry(s.consumers, subject)
    decreases |pairs|
  {
    hide Ack, Registry;
    if |pairs| > 0 {
      var n := |pairs| - 1;
      OtherSubjects(s, pairs[..n], id, victims[..n], now, subject);
      AckElsewhere(AckAll(s, pairs[..n], id, victims[..n], now), pairs[n].subject, id, pairs[n].consumer, victims[n],
        now, subject);
    }
  }

  lemma AckElsewhere(s: State, x: string, id: string, c: string, victim: string, now: int, subject: string)
    requires x != subject
    ensures Registry(Ack(s, x, id, c, victim, now).consumers, subject) == Registry(s.consumers, subject)
  {
    hide AckQueues, DropMessage;
  }
}
