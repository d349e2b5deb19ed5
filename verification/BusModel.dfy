// The message bus as values: one state record and one function per lock section of the in-process bus.
// The class in Bus.dfy is proved to compute these functions; the runs in BusRuns.dfy are runs of them.
module BusModel {

  // `stamp` is the position of the publish among all publishes the lock has admitted. No operation reads it.
  datatype Message = Message(id: string, payload: string, expiresAt: int, stamp: nat)

  datatype Held = Held(msg: Message, ackedBy: set<string>)

  // A delivery channel: everything ever placed on it, and how much the receiver has taken.
  datatype Chan = Chan(subject: string, capacity: nat, log: seq<Message>, taken: nat, closed: bool) {
    predicate HasRoom() {
      |log| - taken < capacity
    }
  }

  datatype Publication = Publication(subject: string, msg: Message)

  datatype State = State(
    subscribers: map<string, seq<nat>>,
    pending: map<string, seq<Held>>,
    consumers: map<string, map<string, int>>,
    closed: bool,
    chans: map<nat, Chan>,
    history: seq<Publication>,
    clock: int)

  // Times are in seconds.
  const DEFAULT_TTL := 10 * 60
  const MAX_TTL := 24 * 60 * 60
  const MAX_PENDING := 1024
  const MAX_CONSUMERS := 128
  const EVICTION_FLOOR := 90
  const RETENTION := 2 * 60 * 60
  const MAX_SUBJECTS := 100000
  const HEADROOM := 16

  function Subs(s: State, subject: string): seq<nat> {
    if subject in s.subscribers then s.subscribers[subject] else []
  }

  function Queue(pending: map<string, seq<Held>>, subject: string): seq<Held> {
    if subject in pending then pending[subject] else []
  }

  function Registry(consumers: map<string, map<string, int>>, subject: string): map<string, int> {
    if subject in consumers then consumers[subject] else map[]
  }

  // A map entry that exists only while its list is not empty.
  function SetQueue(pending: map<string, seq<Held>>, subject: string, q: seq<Held>): map<string, seq<Held>> {
    if q == [] then pending - {subject} else pending[subject := q]
  }

  // ---- NewMessage ----------------------------------------------------------------------------------

  function NewMessage(id: string, payload: string, ttl: int, now: int): (m: Message)
    ensures m.expiresAt == now + if ttl <= 0 then 600 else if ttl <= 86400 then ttl else 86400
    ensures m.id == id && m.payload == payload
  {
    var t := if ttl <= 0 then DEFAULT_TTL else if ttl > MAX_TTL then MAX_TTL else ttl;
    Message(id, payload, now + t, 0)
  }

  // ---- Publish -------------------------------------------------------------------------------------

  function Deliver(chans: map<nat, Chan>, subs: seq<nat>, m: Message): map<nat, Chan> {
    map c | c in chans :: if c in subs && chans[c].HasRoom() then chans[c].(log := chans[c].log + [m]) else chans[c]
  }

  predicate Received(chans: map<nat, Chan>, subs: seq<nat>) {
    exists c :: c in subs && c in chans && chans[c].HasRoom()
  }

  function Hold(q: seq<Held>, m: Message): seq<Held> {
    (if |q| >= MAX_PENDING then q[1..] else q) + [Held(m, {})]
  }

  function Publish(s: State, subject: string, msg: Message): State {
    if s.closed then s
    else
      var m := msg.(stamp := |s.history|);
      var subs := Subs(s, subject);
      var keep := Registry(s.consumers, subject) != map[] || !Received(s.chans, subs);
      s.(chans := Deliver(s.chans, subs, m),
         pending := if keep then s.pending[subject := Hold(Queue(s.pending, subject), m)] else s.pending,
         history := s.history + [Publication(subject, m)])
  }

  // ---- The consumer registry -----------------------------------------------------------------------

  // Map iteration order is arbitrary, so among equally stale registrations any one may be the victim.
  predicate Stalest(reg: map<string, int>, victim: string) {
    victim in reg && forall c :: c in reg ==> reg[victim] <= reg[c]
  }

  predicate Full(reg: map<string, int>, consumer: string) {
    consumer !in reg && |reg| >= MAX_CONSUMERS
  }

  function Register(consumers: map<string, map<string, int>>, subject: string, consumer: string, now: int,
                    victim: string)
    : map<string, map<string, int>>
  {
    if subject !in consumers && |consumers| >= MAX_SUBJECTS then consumers
    else
      var reg := Registry(consumers, subject);
      if !Full(reg, consumer) then consumers[subject := reg[consumer := now]]
      else if victim !in reg || now - reg[victim] < EVICTION_FLOOR then consumers
      else consumers[subject := (reg - {victim})[consumer := now]]
  }

  predicate ChoosesStalest(consumers: map<string, map<string, int>>, subject: string, consumer: string,
                           victim: string) {
    Full(Registry(consumers, subject), consumer) ==> Stalest(Registry(consumers, subject), victim)
  }

  // An idle subject, with no subscriber and nothing held, loses its registry.
  function Prune(subscribers: map<string, seq<nat>>, pending: map<string, seq<Held>>,
                 consumers: map<string, map<string, int>>,
                 subject: string): map<string, map<string, int>>
  {
    if subject !in subscribers && subject !in pending then consumers - {subject} else consumers
  }

  // ---- Subscribe, detach, drain --------------------------------------------------------------------

  function Messages(q: seq<Held>): (r: seq<Message>)
    ensures |r| == |q|
    ensures forall i :: 0 <= i < |q| ==> r[i] == q[i].msg
  {
    seq(|q|, i requires 0 <= i < |q| => q[i].msg)
  }

  // The held blobs a consumer has not acked, in order.
  function Unacked(q: seq<Held>, consumer: string): seq<Message> {
    if |q| == 0 then []
    else Unacked(q[..|q| - 1], consumer) + if consumer in q[|q| - 1].ackedBy then [] else [q[|q| - 1].msg]
  }

  function Subscribe(s: State, subject: string, consumer: string, ch: nat, victim: string, now: int): State {
    if s.closed then s
    else
      var q := Queue(s.pending, subject);
      var registered := Registry(s.consumers, subject) != map[];
      var flush := if consumer != "" then Unacked(q, consumer) else Messages(q);
      s.(consumers := if consumer != "" then Register(s.consumers, subject, consumer, now, victim) else s.consumers,
         pending := if consumer == "" && !registered then s.pending - {subject} else s.pending,
         chans := s.chans[ch := Chan(subject, |flush| + HEADROOM, flush, 0, false)],
         subscribers := s.subscribers[subject := Subs(s, subject) + [ch]],
         clock := now)
  }

  function RemoveFirst(subs: seq<nat>, ch: nat): seq<nat> {
    if |subs| == 0 then [] else if subs[0] == ch then subs[1..] else [subs[0]] + RemoveFirst(subs[1..], ch)
  }

  function DetachLists(s: State, subject: string, ch: nat): map<string, seq<nat>> {
    var rest := RemoveFirst(Subs(s, subject), ch);
    if rest == [] then s.subscribers - {subject} else s.subscribers[subject := rest]
  }

  function Detach(s: State, subject: string, ch: nat): State {
    s.(subscribers := DetachLists(s, subject, ch),
       chans := if ch in Subs(s, subject) && ch in s.chans then s.chans[ch := s.chans[ch].(closed := true)]
         else s.chans,
       consumers := Prune(DetachLists(s, subject, ch), s.pending, s.consumers, subject))
  }

  // The receiver takes one message.
  function Drain(s: State, ch: nat): State {
    if ch in s.chans && s.chans[ch].taken < |s.chans[ch].log|
    then s.(chans := s.chans[ch := s.chans[ch].(taken := s.chans[ch].taken + 1)]) else s
  }

  // ---- Ack -----------------------------------------------------------------------------------------

  // Entries with this id, all of them, note the consumer.
  function Mark(q: seq<Held>, id: string, consumer: string): (r: seq<Held>)
    ensures |r| == |q|
    ensures forall i :: 0 <= i < |q| ==>
      r[i] == if q[i].msg.id == id then q[i].(ackedBy := q[i].ackedBy + {consumer}) else q[i]
  {
    seq(|q|, i requires 0 <= i < |q| => if q[i].msg.id == id then q[i].(ackedBy := q[i].ackedBy + {consumer}) else q[i])
  }

  // What a queue keeps: entries some registered consumer has not acked.
  function Outstanding(q: seq<Held>, reg: set<string>): seq<Held> {
    if |q| == 0 then []
    else Outstanding(q[..|q| - 1], reg) + if reg <= q[|q| - 1].ackedBy then [] else [q[|q| - 1]]
  }

  function WithoutId(q: seq<Held>, id: string): seq<Held> {
    if |q| == 0 then []
    else WithoutId(q[..|q| - 1], id) + if q[|q| - 1].msg.id == id then [] else [q[|q| - 1]]
  }

  function DropMessage(pending: map<string, seq<Held>>, subject: string, id: string): map<string, seq<Held>> {
    SetQueue(pending, subject, WithoutId(Queue(pending, subject), id))
  }

  // An empty registry drops nothing.
  function DropFullyAcked(pending: map<string, seq<Held>>, subject: string, reg: map<string, int>)
    : map<string, seq<Held>>
  {
    if reg == map[] then pending
    else SetQueue(pending, subject, Outstanding(Queue(pending, subject), reg.Keys))
  }

  // The held queues after a registered consumer's ack, given the registry after it.
  function AckQueues(pending: map<string, seq<Held>>, subject: string, id: string, consumer: string,
                     reg: map<string, int>)
    : map<string, seq<Held>>
  {
    DropFullyAcked(SetQueue(pending, subject, Mark(Queue(pending, subject), id, consumer)), subject, reg)
  }

  function RegisteredAck(s: State, subject: string, id: string, consumer: string, cons: map<string, map<string, int>>,
                         now: int): State {
    var pending := AckQueues(s.pending, subject, id, consumer, Registry(cons, subject));
    s.(pending := pending, consumers := Prune(s.subscribers, pending, cons, subject), clock := now)
  }

  function Ack(s: State, subject: string, id: string, consumer: string, victim: string, now: int): State {
    if s.closed then s
    else if consumer == "" then
      if Registry(s.consumers, subject) == map[] then s.(pending := DropMessage(s.pending, subject, id)) else s
    else RegisteredAck(s, subject, id, consumer, Register(s.consumers, subject, consumer, now, victim), now)
  }

  // ---- Sweep and close -----------------------------------------------------------------------------

  function Unexpired(q: seq<Held>, now: int): seq<Held> {
    if |q| == 0 then []
    else Unexpired(q[..|q| - 1], now) + if q[|q| - 1].msg.expiresAt > now then [q[|q| - 1]] else []
  }

  function Recent(reg: map<string, int>, now: int): map<string, int> {
    map c | c in reg && now - reg[c] <= RETENTION :: reg[c]
  }

  // What the sweep leaves of one subject's queue.
  function SweptQueue(s: State, subject: string, now: int): seq<Held> {
    var q := Unexpired(Queue(s.pending, subject), now);
    var reg := Recent(Registry(s.consumers, subject), now);
    if reg == map[] then q else Outstanding(q, reg.Keys)
  }

  predicate KeepsRegistry(s: State, subject: string, now: int) {
    Recent(Registry(s.consumers, subject), now) != map[]
    && !(Subs(s, subject) == [] && SweptQueue(s, subject, now) == [])
  }

  function Sweep(s: State, now: int): State {
    s.(pending := map x | x in s.pending && SweptQueue(s, x, now) != [] :: SweptQueue(s, x, now),
       consumers := map x | x in s.consumers && KeepsRegistry(s, x, now) :: Recent(s.consumers[x], now),
       clock := now)
  }

  predicate Subscribed(s: State, ch: nat) {
    ch in s.chans && ch in Subs(s, s.chans[ch].subject)
  }

  function Close(s: State): State {
    if s.closed then s
    else
      s.(closed := true, subscribers := map[], pending := map[], consumers := map[],
         chans := map c | c in s.chans :: if Subscribed(s, c) then s.chans[c].(closed := true) else s.chans[c])
  }
}
