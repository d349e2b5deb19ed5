// Message lifetimes in one tab, as values: the record store, the timers this session holds, and the
// erasures it has announced. One function per operation.
module LifetimeModel {
  import opened Wrappers
  import opened Vault

  datatype Reason = Expired | Burned | Revoked

  // timers holds when each scheduled callback is due.
  datatype State = State(store: map<string, Record>, timers: map<string, int>, announced: multiset<(string, Reason)>)

  function Expire(s: State, id: string, why: Reason): State {
    var t := s.(timers := s.timers - {id});
    if id !in s.store then t
    else t.(store := s.store - {id}, announced := s.announced + multiset{(id, why)})
  }

  function Arm(s: State, r: Record, now: int): State {
    if !Armed(r) then s
    else if r.expiresAt.value - now <= 0 then Expire(s, r.messageId, Expired)
    else s.(timers := s.timers[r.messageId := now + (r.expiresAt.value - now)])
  }

  function StoreIncoming(s: State, key: nat, meta: Meta, plaintext: string, armNow: bool, now: int): (Record, State) {
    if meta.messageId in s.store then (s.store[meta.messageId], s)
    else
      var r := Seal(key, meta, plaintext, now, armNow);
      var t := s.(store := s.store[r.messageId := r]);
      (r, if armNow then Arm(t, r, now) else t)
  }

  // A copy the caller already holds can only spare the look-up.
  function ArmOnView(s: State, id: string, known: Option<Record>, now: int): State {
    if known.Some? && (known.value.expiresAt.Some? || known.value.kind != Duration) then s
    else if id !in s.store || s.store[id].expiresAt.Some? || s.store[id].kind != Duration then s
    else
      var r := ArmRecord(s.store[id], now);
      Arm(s.(store := s.store[r.messageId := r]), r, now)
  }

  predicate Due(s: State, id: string, now: int) {
    id in s.store && Overdue(s.store[id], now)
  }

  predicate Pending(s: State, id: string, now: int) {
    id in s.store && Armed(s.store[id]) && s.store[id].expiresAt.value > now
  }

  function SweepTimers(s: State, now: int): map<string, int> {
    map id | id in s.store.Keys + s.timers.Keys && !Due(s, id, now) && (id in s.timers || Pending(s, id, now))
      :: if id in s.timers then s.timers[id] else s.store[id].expiresAt.value
  }

  // Everything overdue goes; every other armed record without a timer gets one.
  function Sweep(s: State, now: int): State {
    var due := set id | id in s.store && Due(s, id, now);
    var gone := set id | id in due :: (id, Expired);
    State(s.store - due, SweepTimers(s, now), s.announced + multiset(gone))
  }

  // The tombstone is written before the plaintext is returned; None for nothing to show.
  function OpenBurn(s: State, key: nat, id: string): (Option<string>, State) {
    if id !in s.store || s.store[id].read || s.store[id].kind != BurnOnRead then (None, s)
    else
      var framed := Open(key, s.store[id]);
      if framed.None? then (None, s)
      else
        (framed, s.(store := s.store[id := Tombstone(s.store[id])],
                    announced := s.announced + multiset{(id, Burned)}))
  }

  // ---- What a session keeps ---------------------------------------------------------------------------

  ghost predicate Keyed(s: State) {
    forall id :: id in s.store ==> s.store[id].messageId == id
  }

  // Every timer stands for a stored armed record and is due exactly at its expiry.
  ghost predicate Timely(s: State) {
    Keyed(s) && forall id :: id in s.timers ==>
      id in s.store && Armed(s.store[id]) && s.timers[id] == s.store[id].expiresAt.value
  }

  // And every stored armed record has its timer.
  ghost predicate Complete(s: State) {
    Timely(s) && forall id :: id in s.store && Armed(s.store[id]) ==> id in s.timers
  }

  datatype Op =
    | Receive(key: nat, meta: Meta, plaintext: string, armNow: bool)
    | View(id: string, known: Option<Record>)
    | Resume
    | Read(key: nat, id: string)
    | Revoke(id: string)
    | Fire(id: string)

  // A timer's callback runs no earlier than it is due.
  predicate Allowed(s: State, op: Op, now: int) {
    op.Fire? ==> op.id in s.timers && s.timers[op.id] <= now
  }

  function Apply(s: State, op: Op, now: int): State {
    match op
    case Receive(key, meta, plaintext, armNow) => StoreIncoming(s, key, meta, plaintext, armNow, now).1
    case View(id, known) => ArmOnView(s, id, known, now)
    case Resume => Sweep(s, now)
    case Read(key, id) => OpenBurn(s, key, id).1
    case Revoke(id) => Expire(s, id, Revoked)
    case Fire(id) => Expire(s, id, Expired)
  }

  lemma ExpireTimely(s: State, id: string, why: Reason)
    requires Timely(s)
    ensures Timely(Expire(s, id, why))
  {
  }

  lemma ArmTimely(s: State, r: Record, now: int)
    requires Timely(s) && r.messageId in s.store && s.store[r.messageId] == r
    ensures Timely(Arm(s, r, now))
  {
    ExpireTimely(s, r.messageId, Expired);
    hide Expire;
  }

  lemma PutTimely(s: State, r: Record)
    requires Timely(s) && r.messageId !in s.timers
    ensures Timely(s.(store := s.store[r.messageId := r]))
  {
  }

  lemma TimelyKept(s: State, op: Op, now: int)
    requires Timely(s)
    ensures Timely(Apply(s, op, now))
  {
    match op
    case Receive(key, meta, plaintext, armNow) =>
      if meta.messageId !in s.store {
        var r := Seal(key, meta, plaintext, now, armNow);
        PutTimely(s, r);
        ArmTimely(s.(store := s.store[r.messageId := r]), r, now);
        hide Timely, Seal, Arm;
      }
    case View(id, known) =>
      if id in s.store && s.store[id].expiresAt.None? && s.store[id].kind == Duration {
        var r := ArmRecord(s.store[id], now);
        PutTimely(s, r);
        ArmTimely(s.(store := s.store[r.messageId := r]), r, now);
        hide Timely, Arm;
      }
    case Resume => SweepCompletes(s, now);
    case Read(key, id) =>
      if id in s.store && s.store[id].kind == BurnOnRead {
        PutTimely(s, Tombstone(s.store[id]));
      }
    case Revoke(id) => ExpireTimely(s, id, Revoked);
    case Fire(id) => ExpireTimely(s, id, Expired);
  }

  lemma SweepCompletes(s: State, now: int)
    requires Timely(s)
    ensures Complete(Sweep(s, now))
    ensures forall id :: id in Sweep(s, now).store ==> !Overdue(Sweep(s, now).store[id], now)
  {
  }

  lemma CompleteKept(s: State, op: Op, now: int)
    requires Complete(s)
    ensures Complete(Apply(s, op, now))
  {
    TimelyKept(s, op, now);
    if op.Resume? {
      SweepCompletes(s, now);
    }
  }

  // With every timer in place, a record is overdue exactly when its own timer is due and has not run.
  lemma OverdueIffTimerDue(s: State, now: int, id: string)
    requires Complete(s)
    ensures Due(s, id, now) <==> id in s.timers && s.timers[id] <= now
  {
  }

  datatype Event = Event(op: Op, now: int)

  function After(s: State, run: seq<Event>): State {
    if run == [] then s else Apply(After(s, run[..|run| - 1]), run[|run| - 1].op, run[|run| - 1].now)
  }

  // A session starts with no timers over whatever the last one left behind. From its first sweep on, every
  // armed record has a timer due exactly at its expiry, whatever happens next.
  lemma {:induction false} SessionKeepsTimers(store: map<string, Record>, announced: multiset<(string, Reason)>,
                                             start: int, run: seq<Event>)
    requires Keyed(State(store, map[], announced))
    ensures Complete(After(Sweep(State(store, map[], announced), start), run))
    decreases |run|
  {
    hide Apply, Sweep;
    var s := State(store, map[], announced);
    if run == [] {
      SweepCompletes(s, start);
    } else {
      var n := |run| - 1;
      SessionKeepsTimers(store, announced, start, run[..n]);
      CompleteKept(After(Sweep(s, start), run[..n]), run[n].op, run[n].now);
    }
  }

  // ---- Burn once ----------------------------------------------------------------------------------------

  // A burn message that was not there reads back exactly what was sealed, once: the second read and a read
  // after a redelivery show nothing.
  lemma BurnReadsOnce(s: State, key: nat, meta: Meta, plaintext: string, again: string, now: int, later: int)
    requires meta.messageId !in s.store && meta.kind == BurnOnRead
    ensures var t := StoreIncoming(s, key, meta, plaintext, false, now).1;
      var (first, u) := OpenBurn(t, key, meta.messageId);
      var v := StoreIncoming(u, key, meta, again, false, later).1;
      && first == Some(plaintext)
      && OpenBurn(u, key, meta.messageId) == (None, u)
      && v == u && OpenBurn(v, key, meta.messageId).0 == None
  {
    var t := StoreIncoming(s, key, meta, plaintext, false, now).1;
    var r := t.store[meta.messageId];
    assert r == Seal(key, meta, plaintext, now, false);
    var u := OpenBurn(t, key, meta.messageId).1;
    assert u.store[meta.messageId] == Tombstone(r);
  }

  // ---- Expiries never move ------------------------------------------------------------------------------

  lemma ExpiryFixed(s: State, op: Op, now: int, id: string)
    requires Keyed(s) && id in s.store && id in Apply(s, op, now).store && s.store[id].expiresAt.Some?
    ensures Apply(s, op, now).store[id].expiresAt == s.store[id].expiresAt
  {
  }

  ghost predicate StaysStored(s: State, run: seq<Event>, id: string)
    decreases |run|
  {
    id in After(s, run).store && (run != [] ==> StaysStored(s, run[..|run| - 1], id))
  }

  // A record that is never absent keeps the expiry it has.
  lemma {:induction false} ExpiryNeverMoves(s: State, run: seq<Event>, id: string)
    requires Timely(s) && id in s.store && s.store[id].expiresAt.Some? && StaysStored(s, run, id)
    ensures Timely(After(s, run)) && After(s, run).store[id].expiresAt == s.store[id].expiresAt
    decreases |run|
  {
    hide Apply;
    if run != [] {
      var n := |run| - 1;
      ExpiryNeverMoves(s, run[..n], id);
      TimelyKept(After(s, run[..n]), run[n].op, run[n].now);
      ExpiryFixed(After(s, run[..n]), run[n].op, run[n].now, id);
    }
  }
}
