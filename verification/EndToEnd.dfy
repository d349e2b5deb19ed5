// From the bus to the record store: one device receiving on its mailbox through crashes and re-subscribes.
// A message is acked only after its apply, chained behind every earlier apply of its conversation, has
// settled; so it is always either stored at least once or still owed by the bus.
module EndToEnd {
  import opened Wrappers
  import opened Vault
  import BM = BusModel
  import BR = BusRuns
  import BD = BusDelivery
  import LM = LifetimeModel

  type Message = BM.Message

  // What decrypting a blob yields: something to keep, or a recall of an earlier message. Decryption is a pure
  // function of the blob; None stands for everything the message and recall branches do not handle.
  datatype Content = Keep(conversation: string, meta: Meta, plaintext: string)
    | Recall(conversation: string, target: string, own: bool)

  // Which mailbox, under which consumer name, with which store key, and what its blobs decrypt to.
  datatype Device = Device(subject: string, consumer: string, key: nat, decode: Message -> Option<Content>) {
    ghost predicate Sane() {
      && consumer != ""
      && forall m :: decode(m).Some? && decode(m).value.Keep? ==> decode(m).value.meta.messageId == m.id
    }

    predicate IsKeep(m: Message) {
      decode(m).Some? && decode(m).value.Keep?
    }
  }

  // `chains` holds the applies of each conversation that have yet to settle; `toAck` what may be acked, acks
  // in flight included; `ever`, `failed`, `arrived` and `settled` are observers, the last two since the last crash.
  datatype World = World(bus: BM.State, life: LM.State, chains: map<string, seq<Message>>, toAck: set<Message>,
                         ever: set<string>, failed: set<Message>, arrived: seq<Message>, settled: seq<Message>)

  function Chain(chains: map<string, seq<Message>>, c: string): seq<Message> {
    if c in chains then chains[c] else []
  }

  // A recall erases only a recallable record of its own conversation, and an outgoing one only on its
  // account's own word.
  function ApplyRecall(s: LM.State, r: Content): LM.State
    requires r.Recall?
  {
    if r.target !in s.store then s
    else
      var rec := s.store[r.target];
      if rec.conversationId != r.conversation || rec.kind != UntilRevoked || (rec.outgoing && !r.own) then s
      else LM.Expire(s, r.target, LM.Revoked)
  }

  // The effect of one apply on the store; incoming messages are stored unarmed.
  function ApplyContent(s: LM.State, key: nat, r: Content, now: int): LM.State {
    match r
    case Keep(_, meta, plaintext) => LM.StoreIncoming(s, key, meta, plaintext, false, now).1
    case Recall(_, _, _) => ApplyRecall(s, r)
  }

  datatype Step =
    | Bus(op: BR.Op)
    | Receive(m: Message)
    | Settle(conversation: string, ok: bool, now: int)
    | Dismiss(m: Message)
    | SendAck(m: Message, victim: string, now: int)
    | Life(use: LM.Op, now: int)
    | Crash

  // A message with an id that is already in use is a retransmission, so it is kept or not like the first.
  ghost predicate KindAgrees(d: Device, bus: BM.State, n: Message) {
    forall m :: BM.Publication(d.subject, m) in bus.history && m.id == n.id ==> d.IsKeep(m) == d.IsKeep(n)
  }

  // Publishes use new message ids or repeat a message; nobody else acks under this device's consumer name on its
  // mailbox; and what arrives was published there.
  ghost predicate Allowed(d: Device, w: World, a: Step) {
    match a
    case Bus(op) =>
      && BR.Allowed(w.bus, op)
      && !(op.AckOp? && op.subject == d.subject && op.consumer == d.consumer)
      && (op.PublishOp? && op.subject == d.subject ==> KindAgrees(d, w.bus, op.msg.(stamp := |w.bus.history|)))
    case Receive(m) => BM.Publication(d.subject, m) in w.bus.history && d.decode(m).Some?
    case Settle(c, _, _) => Chain(w.chains, c) != [] && d.decode(Chain(w.chains, c)[0]).Some?
    case Dismiss(m) => BM.Publication(d.subject, m) in w.bus.history && d.decode(m).None?
    case SendAck(m, victim, now) => m in w.toAck
      && BR.Allowed(w.bus, BR.AckOp(d.subject, m.id, d.consumer, victim, now))
    case Life(use, now) => LM.Allowed(w.life, use, now)
    case Crash => true
  }

  // The head of a chain settles: applied and ready to be acked, or failed and dropped without an ack.
  function SettleHead(d: Device, w: World, c: string, ok: bool, now: int): World
    requires Chain(w.chains, c) != [] && d.decode(Chain(w.chains, c)[0]).Some?
  {
    var m := Chain(w.chains, c)[0];
    var t := w.(chains := w.chains[c := Chain(w.chains, c)[1..]], settled := w.settled + [m]);
    if !ok then t.(failed := w.failed + {m})
    else
      t.(life := ApplyContent(w.life, d.key, d.decode(m).value, now), toAck := w.toAck + {m},
         ever := if d.IsKeep(m) then w.ever + {m.id} else w.ever)
  }

  ghost function Next(d: Device, w: World, a: Step): World
    requires Allowed(d, w, a)
  {
    match a
    case Bus(op) => w.(bus := BR.Apply(w.bus, op))
    case Receive(m) =>
      var c := d.decode(m).value.conversation;
      w.(chains := w.chains[c := Chain(w.chains, c) + [m]], arrived := w.arrived + [m])
    case Settle(c, ok, now) => SettleHead(d, w, c, ok, now)
    case Dismiss(m) => w.(toAck := w.toAck + {m})
    case SendAck(m, victim, now) => w.(bus := BM.Ack(w.bus, d.subject, m.id, d.consumer, victim, now))
    case Life(use, now) => w.(life := LM.Apply(w.life, use, now))
    case Crash => w.(chains := map[], life := w.life.(timers := map[]), arrived := [], settled := [])
  }

  // ---- The invariant --------------------------------------------------------------------------------------

  ghost predicate KindsAgree(d: Device, bus: BM.State) {
    forall m, n ::
      BM.Publication(d.subject, m) in bus.history && BM.Publication(d.subject, n) in bus.history && m.id == n.id ==>
        d.IsKeep(m) == d.IsKeep(n)
  }

  ghost predicate ChainsKnown(d: Device, w: World) {
    forall c, i :: 0 <= i < |Chain(w.chains, c)| ==> BM.Publication(d.subject, Chain(w.chains, c)[i]) in w.bus.history
  }

  // Only what has been stored, or was never to be stored, can be acked.
  ghost predicate AcksSafe(d: Device, w: World) {
    forall m :: m in w.toAck ==> BM.Publication(d.subject, m) in w.bus.history && (d.IsKeep(m) ==> m.id in w.ever)
  }

  ghost predicate Inv(d: Device, w: World) {
    && d.Sane() && BR.Inv(w.bus) && KindsAgree(d, w.bus) && ChainsKnown(d, w) && AcksSafe(d, w)
  }

  lemma HistoryGrows(s: BM.State, op: BR.Op, p: BM.Publication)
    ensures p in s.history ==> p in BR.Apply(s, op).history
    ensures p in BR.Apply(s, op).history && p !in s.history ==>
      op.PublishOp? && p == BM.Publication(op.subject, op.msg.(stamp := |s.history|))
  {
    hide BM.Register, BM.AckQueues, BM.SweptQueue, BM.Deliver, BM.Hold, BM.Prune, BM.Unacked, BM.RemoveFirst;
  }

  lemma BusKeeps(d: Device, w: World, op: BR.Op)
    requires Inv(d, w) && BR.Allowed(w.bus, op)
    requires op.PublishOp? && op.subject == d.subject ==> KindAgrees(d, w.bus, op.msg.(stamp := |w.bus.history|))
    ensures Inv(d, w.(bus := BR.Apply(w.bus, op)))
  {
    hide BR.Inv, BR.Apply, BR.Allowed;
    var t := w.(bus := BR.Apply(w.bus, op));
    BR.ApplyInv(w.bus, op);
    forall p: BM.Publication
      ensures p in w.bus.history ==> p in t.bus.history
      ensures p in t.bus.history && p !in w.bus.history ==>
        op.PublishOp? && p == BM.Publication(op.subject, op.msg.(stamp := |w.bus.history|))
    {
      HistoryGrows(w.bus, op, p);
    }
    assert ChainsKnown(d, t);
    assert KindsAgree(d, t.bus);
  }

  lemma StepInv(d: Device, w: World, a: Step)
    requires Inv(d, w) && Allowed(d, w, a)
    ensures Inv(d, Next(d, w, a))
  {
    hide BR.Inv, BR.Apply, BR.Allowed, LM.Apply, ApplyContent, KindAgrees;
    match a
    case Bus(op) => BusKeeps(d, w, op);
    case SendAck(m, victim, now) =>
      var op := BR.AckOp(d.subject, m.id, d.consumer, victim, now);
      AckIs(w.bus, d.subject, m.id, d.consumer, victim, now);
      BusKeeps(d, w, op);
    case Settle(c, ok, now) =>
      var m := Chain(w.chains, c)[0];
      assert BM.Publication(d.subject, m) in w.bus.history;
      forall e, i | 0 <= i < |Chain(Next(d, w, a).chains, e)|
        ensures BM.Publication(d.subject, Chain(Next(d, w, a).chains, e)[i]) in w.bus.history
      {
        if e == c {
          assert Chain(Next(d, w, a).chains, e)[i] == Chain(w.chains, c)[i + 1];
        } else {
          assert Chain(Next(d, w, a).chains, e)[i] == Chain(w.chains, e)[i];
        }
      }
    case Receive(m) =>
      forall e, i | 0 <= i < |Chain(Next(d, w, a).chains, e)|
        ensures BM.Publication(d.subject, Chain(Next(d, w, a).chains, e)[i]) in w.bus.history
      {
        if i < |Chain(w.chains, e)| {
          assert Chain(Next(d, w, a).chains, e)[i] == Chain(w.chains, e)[i];
        }
      }
    case _ =>
  }

  lemma AckIs(s: BM.State, subject: string, id: string, consumer: string, victim: string, now: int)
    ensures BR.Apply(s, BR.AckOp(subject, id, consumer, victim, now)) == BM.Ack(s, subject, id, consumer, victim, now)
  {
  }

  // ---- Stored or owed --------------------------------------------------------------------------------------

  // The bus's side of a step, if it has one.
  function BusOp(d: Device, a: Step): Option<BR.Op> {
    match a
    case Bus(op) => Some(op)
    case SendAck(m, victim, now) => Some(BR.AckOp(d.subject, m.id, d.consumer, victim, now))
    case _ => None
  }

  // What may still take a message out of the bus unstored: a sweep at or after its expiry, or displacement by
  // overflow. (A close unregisters everyone.)
  ghost predicate Excused(d: Device, w: World, a: Step, m: Message) {
    BusOp(d, a).Some? && !BusOp(d, a).value.AckOp? && BD.Excuse(w.bus, BusOp(d, a).value, d.subject, d.consumer, m)
  }

  ghost predicate StoredOrOwed(d: Device, w: World, m: Message) {
    m.id in w.ever || BD.Owed(w.bus, d.subject, d.consumer, m)
  }

  lemma StoredOrOwedStep(d: Device, w: World, a: Step, m: Message)
    requires Inv(d, w) && Allowed(d, w, a) && d.IsKeep(m) && BM.Publication(d.subject, m) in w.bus.history
    requires BD.Registered(w.bus, d.subject, d.consumer) && BD.Registered(Next(d, w, a).bus, d.subject, d.consumer)
    requires StoredOrOwed(d, w, m) && !Excused(d, w, a, m)
    ensures StoredOrOwed(d, Next(d, w, a), m)
  {
    hide BR.Inv, BR.Apply, BR.Allowed, BD.Registered, BD.Owed, LM.Apply, ApplyContent, KindAgrees, ChainsKnown;
    if a.SendAck? {
      AckIs(w.bus, d.subject, a.m.id, d.consumer, a.victim, a.now);
      assert a.m.id == m.id ==> d.IsKeep(a.m);
      if m.id !in w.ever {
        BD.OwedStep(w.bus, BusOp(d, a).value, d.subject, d.consumer, m);
      }
    } else if a.Bus? && m.id !in w.ever {
      BD.OwedStep(w.bus, a.op, d.subject, d.consumer, m);
    }
  }

  ghost predicate Run(d: Device, states: seq<World>, steps: seq<Step>) {
    && |states| == |steps| + 1
    && forall k :: 0 <= k < |steps| ==> Allowed(d, states[k], steps[k]) && states[k + 1] == Next(d, states[k], steps[k])
  }

  lemma StepOf(d: Device, states: seq<World>, steps: seq<Step>, k: nat)
    requires Run(d, states, steps) && k < |steps|
    ensures Allowed(d, states[k], steps[k]) && states[k + 1] == Next(d, states[k], steps[k])
  {
  }

  lemma {:induction false} RunInv(d: Device, states: seq<World>, steps: seq<Step>, k: nat)
    requires Run(d, states, steps) && Inv(d, states[0]) && k < |states|
    ensures Inv(d, states[k])
  {
    hide Inv, Next, Allowed;
    if k > 0 {
      RunInv(d, states, steps, k - 1);
      StepOf(d, states, steps, k - 1);
      StepInv(d, states[k - 1], steps[k - 1]);
    }
  }

  lemma {:induction false} StaysInHistory(d: Device, states: seq<World>, steps: seq<Step>, i: nat, j: nat,
                                          p: BM.Publication)
    requires Run(d, states, steps) && i <= j < |states| && p in states[i].bus.history
    ensures p in states[j].bus.history
    decreases j
  {
    hide Next, Allowed;
    if i < j {
      StaysInHistory(d, states, steps, i, j - 1, p);
      StepOf(d, states, steps, j - 1);
      HistoryStep(d, states[j - 1], steps[j - 1], p);
    }
  }

  lemma HistoryStep(d: Device, w: World, a: Step, p: BM.Publication)
    requires Allowed(d, w, a) && p in w.bus.history
    ensures p in Next(d, w, a).bus.history
  {
    hide BR.Apply, BR.Allowed, LM.Apply, ApplyContent;
    if a.SendAck? {
      AckIs(w.bus, d.subject, a.m.id, d.consumer, a.victim, a.now);
    }
    if BusOp(d, a).Some? {
      HistoryGrows(w.bus, BusOp(d, a).value, p);
    }
  }

  // While the device's consumer stays registered, through any crashes, re-subscribes and failed applies, a
  // message the bus owes it is at every later point stored or still owed, unless excused.
  lemma {:induction false} NothingLost(d: Device, states: seq<World>, steps: seq<Step>, i: nat, j: nat, m: Message)
    requires Run(d, states, steps) && Inv(d, states[0]) && i <= j < |states| && d.IsKeep(m)
    requires BM.Publication(d.subject, m) in states[i].bus.history && StoredOrOwed(d, states[i], m)
    requires forall k :: i <= k <= j ==> BD.Registered(states[k].bus, d.subject, d.consumer)
    ensures StoredOrOwed(d, states[j], m) || exists k :: i <= k < j && Excused(d, states[k], steps[k], m)
    decreases j
  {
    hide Inv, Next, Allowed, StoredOrOwed, Excused, BD.Registered;
    if i < j {
      NothingLost(d, states, steps, i, j - 1, m);
      StaysInHistory(d, states, steps, i, j - 1, BM.Publication(d.subject, m));
      RunInv(d, states, steps, j - 1);
      StepOf(d, states, steps, j - 1);
      if StoredOrOwed(d, states[j - 1], m) && !Excused(d, states[j - 1], steps[j - 1], m) {
        StoredOrOwedStep(d, states[j - 1], steps[j - 1], m);
      }
    }
  }

  // Publishing starts it: right after the publish the message is owed.
  lemma PublishedIsOwed(d: Device, w: World, msg: Message)
    requires Inv(d, w) && !w.bus.closed && BD.Registered(w.bus, d.subject, d.consumer)
    ensures var m := msg.(stamp := |w.bus.history|);
      var t := w.(bus := BR.Apply(w.bus, BR.PublishOp(d.subject, msg)));
      StoredOrOwed(d, t, m) && BM.Publication(d.subject, m) in t.bus.history
  {
    hide BR.Inv, BM.Publish, BD.Registered;
    BD.PublishOwes(w.bus, d.subject, msg, d.consumer);
    var t := BM.Publish(w.bus, d.subject, msg);
    assert t.history[|w.bus.history|] == BM.Publication(d.subject, msg.(stamp := |w.bus.history|));
  }

  // A recall erases its target, announcing it once, if and only if the target is stored in the conversation it came
  // from, was sent as recallable, and is not this device's own unless the recall is its account's.
  lemma RecallSays(w: World, r: Content)
    requires r.Recall?
    ensures var s, t := w.life, ApplyRecall(w.life, r);
      var goes := && r.target in s.store && s.store[r.target].conversationId == r.conversation
                  && s.store[r.target].kind == UntilRevoked && (s.store[r.target].outgoing ==> r.own);
      if goes then && t.store == s.store - {r.target} && t.timers == s.timers - {r.target}
                   && t.announced == s.announced + multiset{(r.target, LM.Revoked)}
      else t == s
  {
  }

  // What may be acked: a message whose apply has succeeded, and one that has none; not one whose apply has failed.
  lemma AckSays(d: Device, w: World, a: Step)
    requires Allowed(d, w, a)
    ensures forall m :: m in Next(d, w, a).toAck <==>
              || m in w.toAck || a == Dismiss(m)
              || (a.Settle? && a.ok && m == Chain(w.chains, a.conversation)[0])
  {
    hide BR.Allowed, BR.Apply, BM.Ack, LM.Apply, ApplyContent;
  }

  // A crash loses the queued applies and the timers, and nothing that is stored or owed.
  lemma CrashSays(d: Device, w: World, c: string)
    ensures var t := Next(d, w, Crash);
      && Chain(t.chains, c) == [] && t.life.timers == map[] && t.life.store == w.life.store
      && t.life.announced == w.life.announced && t.bus == w.bus && t.ever == w.ever
  {
  }

  // A message that settles for the first time is stored, readable under the device's key and with no countdown
  // running.
  lemma KeepSays(d: Device, w: World, c: string, now: int)
    requires Allowed(d, w, Settle(c, true, now)) && d.Sane() && d.IsKeep(Chain(w.chains, c)[0])
    ensures var m := Chain(w.chains, c)[0]; var meta, text := d.decode(m).value.meta, d.decode(m).value.plaintext;
      var t := Next(d, w, Settle(c, true, now));
      && m.id in t.life.store && t.life.timers == w.life.timers && t.life.announced == w.life.announced
      && (m.id !in w.life.store ==>
            && t.life.store[m.id].kind == meta.kind && t.life.store[m.id].conversationId == meta.conversationId
            && t.life.store[m.id].expiresAt == None && !t.life.store[m.id].read
            && Open(d.key, t.life.store[m.id]) == Some(text))
      && (forall id :: id in w.life.store ==> id in t.life.store && t.life.store[id] == w.life.store[id])
  {
  }

  // A redelivery while the record exists changes nothing in the store, whatever has become of the record.
  lemma RedeliveryHarmless(d: Device, w: World, c: string, now: int)
    requires d.Sane() && Allowed(d, w, Settle(c, true, now)) && d.IsKeep(Chain(w.chains, c)[0])
    ensures Chain(w.chains, c)[0].id in w.life.store ==> Next(d, w, Settle(c, true, now)).life == w.life
    ensures Chain(w.chains, c)[0].id in Next(d, w, Settle(c, true, now)).life.store
  {
  }

  // ---- Applies settle in arrival order -----------------------------------------------------------------------

  function OfConversation(d: Device, ms: seq<Message>, c: string): seq<Message> {
    if ms == [] then []
    else
      var m := ms[|ms| - 1];
      OfConversation(d, ms[..|ms| - 1], c) + if d.decode(m).Some? && d.decode(m).value.conversation == c then [m]
        else []
  }

  // A chain holds messages of its own conversation, and what has settled is what arrived before them.
  ghost predicate InOrderAt(d: Device, w: World, c: string) {
    && (forall i :: 0 <= i < |Chain(w.chains, c)| ==>
          d.decode(Chain(w.chains, c)[i]).Some? && d.decode(Chain(w.chains, c)[i]).value.conversation == c)
    && OfConversation(d, w.settled, c) + Chain(w.chains, c) == OfConversation(d, w.arrived, c)
  }

  ghost predicate InOrder(d: Device, w: World) {
    && (forall c :: InOrderAt(d, w, c))
    && (forall m :: m in w.settled && d.IsKeep(m) ==> m.id in w.ever || m in w.failed)
  }

  lemma OneMore(d: Device, ms: seq<Message>, m: Message, c: string)
    ensures OfConversation(d, ms + [m], c)
         == OfConversation(d, ms, c) + if d.decode(m).Some? && d.decode(m).value.conversation == c then [m] else []
  {
    assert (ms + [m])[..|ms|] == ms;
  }

  lemma ReceiveAt(d: Device, w: World, m: Message, c: string)
    requires InOrderAt(d, w, c) && d.decode(m).Some?
    ensures var e := d.decode(m).value.conversation;
      InOrderAt(d, w.(chains := w.chains[e := Chain(w.chains, e) + [m]], arrived := w.arrived + [m]), c)
  {
    hide OfConversation;
    OneMore(d, w.arrived, m, c);
    assert OfConversation(d, w.settled, c) + Chain(w.chains, c) + [m] == OfConversation(d, w.settled, c)
      + (Chain(w.chains, c) + [m]);
  }

  lemma ChainSet(chains: map<string, seq<Message>>, e: string, ms: seq<Message>, c: string)
    ensures Chain(chains[e := ms], c) == if c == e then ms else Chain(chains, c)
  {
  }

  lemma SettleAt(d: Device, w: World, e: string, ok: bool, now: int, c: string)
    requires InOrderAt(d, w, c) && InOrderAt(d, w, e) && Chain(w.chains, e) != []
      && d.decode(Chain(w.chains, e)[0]).Some?
    ensures InOrderAt(d, SettleHead(d, w, e, ok, now), c)
  {
    hide OfConversation, ApplyContent, Chain;
    var m := Chain(w.chains, e)[0];
    var t := SettleHead(d, w, e, ok, now);
    ChainSet(w.chains, e, Chain(w.chains, e)[1..], c);
    OneMore(d, w.settled, m, c);
    if c == e {
      assert Chain(w.chains, e) == [m] + Chain(w.chains, e)[1..];
      assert OfConversation(d, t.settled, c) + Chain(t.chains, c) == OfConversation(d, w.settled, c)
        + Chain(w.chains, c);
    }
  }

  lemma OrderKeptAt(d: Device, w: World, a: Step, c: string)
    requires InOrder(d, w) && Allowed(d, w, a)
    ensures InOrderAt(d, Next(d, w, a), c)
  {
    hide BR.Apply, BR.Allowed, BM.Ack, LM.Apply, SettleHead, OfConversation, KindAgrees;
    assert InOrderAt(d, w, c);
    match a
    case Receive(m) => ReceiveAt(d, w, m, c);
    case Settle(e, ok, now) =>
      assert InOrderAt(d, w, e);
      SettleAt(d, w, e, ok, now, c);
    case Crash => EmptyConversation(d);
    case _ =>
  }

  lemma OrderKept(d: Device, w: World, a: Step)
    requires InOrder(d, w) && Allowed(d, w, a)
    ensures InOrder(d, Next(d, w, a))
  {
    forall c
      ensures InOrderAt(d, Next(d, w, a), c)
    {
      OrderKeptAt(d, w, a, c);
    }
    hide BR.Apply, BR.Allowed, BM.Ack, LM.Apply, ApplyContent, OfConversation, KindAgrees, InOrderAt;
  }

  // A device that has just been set up, on a bus that has just been started.
  ghost function NewWorld(): World {
    World(BR.EMPTY, LM.State(map[], map[], multiset{}), map[], {}, {}, {}, [], [])
  }

  lemma Fresh(d: Device)
    requires d.Sane()
    ensures Inv(d, NewWorld()) && InOrder(d, NewWorld())
  {
    BR.EmptyInv();
  }

  lemma EmptyConversation(d: Device)
    ensures forall c :: OfConversation(d, [], c) == []
  {
  }

  lemma {:induction false} ConversationMember(d: Device, ms: seq<Message>, c: string)
    ensures forall i :: 0 <= i < |OfConversation(d, ms, c)| ==> OfConversation(d, ms, c)[i] in ms
    decreases |ms|
  {
    if ms != [] {
      ConversationMember(d, ms[..|ms| - 1], c);
    }
  }

  lemma {:induction false} OrderAlong(d: Device, states: seq<World>, steps: seq<Step>, k: nat)
    requires Run(d, states, steps) && InOrder(d, states[0]) && k < |states|
    ensures InOrder(d, states[k])
  {
    hide InOrder, Next, Allowed;
    if k > 0 {
      OrderAlong(d, states, steps, k - 1);
      StepOf(d, states, steps, k - 1);
      OrderKept(d, states[k - 1], steps[k - 1]);
    }
  }

  // In every run from a freshly set up device: when a recall comes up, every message that arrived before it
  // in its conversation has settled: it has been stored, or its store failed.
  lemma RecallFindsItsMessage(d: Device, states: seq<World>, steps: seq<Step>, k: nat, c: string, i: nat)
    requires d.Sane() && Run(d, states, steps) && states[0] == NewWorld() && k < |states|
    requires Chain(states[k].chains, c) != []
    requires i < |OfConversation(d, states[k].arrived, c)| - |Chain(states[k].chains, c)|
    ensures var w := states[k]; var all := OfConversation(d, w.arrived, c);
      && all[|all| - |Chain(w.chains, c)|] == Chain(w.chains, c)[0]
      && all[i] in w.settled && (d.IsKeep(all[i]) ==> all[i].id in w.ever || all[i] in w.failed)
  {
    hide OfConversation, Run, InOrder;
    Fresh(d);
    OrderAlong(d, states, steps, k);
    SettledBefore(d, states[k], c, i);
  }

  lemma SettledBefore(d: Device, w: World, c: string, i: nat)
    requires InOrder(d, w) && Chain(w.chains, c) != []
    requires i < |OfConversation(d, w.arrived, c)| - |Chain(w.chains, c)|
    ensures var all := OfConversation(d, w.arrived, c);
      && all[|all| - |Chain(w.chains, c)|] == Chain(w.chains, c)[0]
      && all[i] in w.settled && (d.IsKeep(all[i]) ==> all[i].id in w.ever || all[i] in w.failed)
  {
    hide OfConversation;
    assert InOrderAt(d, w, c);
    var s, ch := OfConversation(d, w.settled, c), Chain(w.chains, c);
    assert OfConversation(d, w.arrived, c) == s + ch;
    ConversationMember(d, w.settled, c);
    assert (s + ch)[i] == s[i] && (s + ch)[|s|] == ch[0];
  }
}
