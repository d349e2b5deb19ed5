// What happens to one message over its life, said of the record, its timer and the erasures announced.
module LifetimeLaws {
  import opened Wrappers
  import opened Vault
  import opened LifetimeModel

  // A duration message of d seconds whose countdown has not started.
  ghost predicate Waiting(s: State, id: string, d: int) {
    && id in s.store && s.store[id].kind == Duration
    && s.store[id].expiresAt == None && s.store[id].durationSeconds == Some(d)
  }

  // A copy the caller holds that does not already rule the countdown out.
  ghost predicate Unruled(known: Option<Record>) {
    known == None || (known.value.kind == Duration && known.value.expiresAt == None)
  }

  ghost predicate SameElsewhere(s: State, t: State, id: string) {
    forall i :: i != id ==>
      && (i in t.store <==> i in s.store) && (i in s.store ==> t.store[i] == s.store[i])
      && (i in t.timers <==> i in s.timers) && (i in s.timers ==> t.timers[i] == s.timers[i])
  }

  // The message is there with its countdown running out at due, or has run out and been announced.
  ghost predicate Counting(s: State, t: State, id: string, due: int, now: int) {
    if now < due
    then && id in t.store && t.store[id].expiresAt == Some(due) && id in t.timers && t.timers[id] == due
         && t.announced == s.announced
    else id !in t.store && id !in t.timers && t.announced == s.announced + multiset{(id, Expired)}
  }

  // A first view starts the countdown, which runs out now when there is nothing to count.
  lemma ViewStarts(s: State, id: string, known: Option<Record>, now: int, d: int)
    requires Keyed(s) && Waiting(s, id, d) && Unruled(known)
    ensures var t := Apply(s, View(id, known), now);
      && Counting(s, t, id, now + 1000 * d, now) && SameElsewhere(s, t, id)
      && (d > 0 ==> t.store[id] == s.store[id].(expiresAt := Some(now + 1000 * d)))
  {
    assert s.store[id].messageId == id;
  }

  // And so changes something if and only if the message waits and the copy held does not say otherwise.
  lemma ViewChangesIff(s: State, id: string, known: Option<Record>, now: int)
    requires Keyed(s)
    ensures Apply(s, View(id, known), now) != s <==> Unruled(known) && exists d :: Waiting(s, id, d)
  {
    if id in s.store && s.store[id].kind == Duration && s.store[id].expiresAt == None {
      if s.store[id].durationSeconds.Some? {
        assert Waiting(s, id, s.store[id].durationSeconds.value);
      }
      assert s.store[id := s.store[id]] == s.store;
    }
    if Unruled(known) && exists d :: Waiting(s, id, d) {
      var d :| Waiting(s, id, d);
      ViewStarts(s, id, known, now, d);
    }
  }

  // A message that is not there is stored as it came, unread, and counts from now only if asked to; one that is
  // there stays as it is.
  lemma ReceiveSays(s: State, key: nat, meta: Meta, plaintext: string, armNow: bool, now: int)
    ensures var id, t := meta.messageId, Apply(s, Receive(key, meta, plaintext, armNow), now);
      if id in s.store then t == s
      else
        && SameElsewhere(s, t, id)
        && (if armNow && meta.kind == Duration
            then Counting(s, t, id, now + 1000 * meta.seconds, now)
            else && id in t.store && t.store[id].expiresAt == None && t.announced == s.announced
                 && (id in t.timers <==> id in s.timers))
        && (id in t.store ==> Stored(t.store[id], key, meta, plaintext, now))
  {
  }

  ghost predicate Stored(r: Record, key: nat, meta: Meta, plaintext: string, now: int) {
    && r.messageId == meta.messageId && r.conversationId == meta.conversationId && r.outgoing == meta.outgoing
    && r.kind == meta.kind && r.storedAt == now && !r.read
    && r.ownAuthored == (meta.outgoing || meta.ownAuthored)
    && r.durationSeconds == (if meta.kind == Duration then Some(meta.seconds) else None)
    && forall k :: Open(k, r) == if k == key then Some(plaintext) else None
  }

  // A revoked message and one whose timer has fired is gone with its timer, and announced if it was there.
  lemma EraseSays(s: State, id: string, why: Reason, now: int)
    requires why == Revoked || why == Expired
    ensures var t := Apply(s, if why == Revoked then Revoke(id) else Fire(id), now);
      && SameElsewhere(s, t, id) && id !in t.store && id !in t.timers
      && t.announced == if id in s.store then s.announced + multiset{(id, why)} else s.announced
  {
  }

  ghost predicate Readable(s: State, key: nat, id: string, plaintext: string) {
    id in s.store && s.store[id].kind == BurnOnRead && !s.store[id].read && Open(key, s.store[id]) == Some(plaintext)
  }

  // A read returns the plaintext of an unread burn message and leaves a row that no key opens; it changes nothing
  // when there is nothing to return.
  lemma ReadSays(s: State, key: nat, id: string)
    ensures var (shown, t) := OpenBurn(s, key, id);
      && (forall p :: shown == Some(p) <==> Readable(s, key, id, p))
      && (shown == None ==> t == s)
      && (shown.Some? ==>
            && t.store == s.store[id := t.store[id]] && t.timers == s.timers
            && t.announced == s.announced + multiset{(id, Burned)}
            && t.store[id] == s.store[id].(read := true, body := None)
            && forall k :: Open(k, t.store[id]) == None)
  {
  }

  // A sweep leaves what is not overdue, announces each overdue message once, and has every other countdown timed.
  lemma SweepSays(s: State, now: int, id: string)
    requires Timely(s)
    ensures var t := Apply(s, Resume, now);
      var over := id in s.store && s.store[id].kind == Duration && s.store[id].expiresAt.Some?
                  && s.store[id].expiresAt.value <= now;
      && (id in t.store <==> id in s.store && !over)
      && (id in t.store ==> t.store[id] == s.store[id])
      && (id in t.timers <==> id in t.store && t.store[id].kind == Duration && t.store[id].expiresAt.Some?)
      && (id in t.timers ==> Some(t.timers[id]) == t.store[id].expiresAt)
      && t.announced[(id, Expired)] == s.announced[(id, Expired)] + (if over then 1 else 0)
      && t.announced[(id, Burned)] == s.announced[(id, Burned)]
      && t.announced[(id, Revoked)] == s.announced[(id, Revoked)]
  {
    var due := set i | i in s.store && Due(s, i, now);
    var gone := set i | i in due :: (i, Expired);
    assert (id, Expired) in gone <==> Due(s, id, now);
    assert multiset(gone)[(id, Expired)] == if Due(s, id, now) then 1 else 0;
  }

  // ---- A viewed message over whole runs --------------------------------------------------------------------

  // What erases a message that counts down to due.
  ghost predicate Ends(e: Event, id: string, due: int) {
    e.op == Fire(id) || e.op == Revoke(id) || (e.op == Resume && due <= e.now)
  }

  ghost predicate Ended(run: seq<Event>, id: string, due: int) {
    exists i :: 0 <= i < |run| && Ends(run[i], id, due)
  }

  // It is not delivered anew once it is gone; while it exists a redelivery does nothing.
  ghost predicate NotAgain(run: seq<Event>, id: string, due: int) {
    forall i, j :: 0 <= i < j < |run| && Ends(run[i], id, due) && run[j].op.Receive? ==>
      run[j].op.meta.messageId != id
  }

  ghost predicate Viewed(s: State, id: string, due: int, body: Option<Sealed>) {
    && id in s.store && s.store[id].kind == Duration && s.store[id].expiresAt == Some(due) && s.store[id].body == body
    && id in s.timers && s.timers[id] == due
  }

  lemma ViewedStep(s: State, e: Event, id: string, due: int, body: Option<Sealed>)
    requires Timely(s) && Viewed(s, id, due, body)
    ensures var t := Apply(s, e.op, e.now);
      if Ends(e, id, due) then id !in t.store && id !in t.timers else Viewed(t, id, due, body)
  {
    match e.op
    case Receive(key, meta, plaintext, armNow) => ReceiveSays(s, key, meta, plaintext, armNow, e.now); hide Apply;
    case View(i, known) => OtherView(s, i, known, e.now, id); hide Apply;
    case Resume => SweepSays(s, e.now, id); hide Apply;
    case Read(key, i) => ReadSays(s, key, i); hide OpenBurn;
    case Revoke(i) => EraseSays(s, i, Revoked, e.now); hide Apply;
    case Fire(i) => EraseSays(s, i, Expired, e.now); hide Apply;
  }

  lemma OtherView(s: State, i: string, known: Option<Record>, now: int, id: string)
    requires Keyed(s) && (forall d :: !Waiting(s, id, d))
    ensures SameElsewhere(s, Apply(s, View(i, known), now), i)
    ensures i == id ==> Apply(s, View(i, known), now) == s
  {
    ViewChangesIff(s, i, known, now);
    if Unruled(known) && exists d :: Waiting(s, i, d) {
      var d :| Waiting(s, i, d);
      ViewStarts(s, i, known, now, d);
    }
    hide Apply;
  }

  lemma GoneStep(s: State, e: Event, id: string)
    requires Timely(s) && id !in s.store && id !in s.timers
    requires e.op.Receive? ==> e.op.meta.messageId != id
    ensures var t := Apply(s, e.op, e.now); id !in t.store && id !in t.timers
  {
    match e.op
    case Receive(key, meta, plaintext, armNow) => ReceiveSays(s, key, meta, plaintext, armNow, e.now); hide Apply;
    case View(i, known) => OtherView(s, i, known, e.now, id); hide Apply;
    case Resume => SweepSays(s, e.now, id); hide Apply;
    case Read(key, i) => ReadSays(s, key, i); hide OpenBurn;
    case Revoke(i) => EraseSays(s, i, Revoked, e.now); hide Apply;
    case Fire(i) => EraseSays(s, i, Expired, e.now); hide Apply;
  }

  lemma EndedLast(run: seq<Event>, id: string, due: int)
    requires run != [] && NotAgain(run, id, due)
    ensures var n := |run| - 1;
      && (Ended(run, id, due) <==> Ended(run[..n], id, due) || Ends(run[n], id, due))
      && NotAgain(run[..n], id, due)
      && (Ended(run[..n], id, due) && run[n].op.Receive? ==> run[n].op.meta.messageId != id)
  {
    var n := |run| - 1;
    if Ended(run[..n], id, due) {
      var i :| 0 <= i < n && Ends(run[..n][i], id, due);
      assert Ends(run[i], id, due);
    }
    assert forall i :: 0 <= i < n ==> run[..n][i] == run[i];
  }

  // From its first view on, a message of d seconds stays readable with its timer set for the end of them until that
  // timer fires, a sweep comes then or later, or it is revoked; and from then on it is gone, in every run.
  lemma {:induction false} ViewedThenGone(s: State, id: string, known: Option<Record>, now: int, d: int,
                                          run: seq<Event>)
    requires Timely(s) && Waiting(s, id, d) && Unruled(known) && d > 0 && NotAgain(run, id, now + 1000 * d)
    ensures var t := After(Apply(s, View(id, known), now), run);
      && Timely(t)
      && if Ended(run, id, now + 1000 * d) then id !in t.store && id !in t.timers
         else Viewed(t, id, now + 1000 * d, s.store[id].body)
    decreases |run|
  {
    var due, u, body := now + 1000 * d, Apply(s, View(id, known), now), s.store[id].body;
    hide Apply, Timely, Viewed, Waiting, Unruled;
    if run == [] {
      ViewStartsTimely(s, id, known, now, d);
    } else {
      var n := |run| - 1;
      ViewedThenGone(s, id, known, now, d, run[..n]);
      var v := After(u, run[..n]);
      TimelyKept(v, run[n].op, run[n].now);
      EndedLast(run, id, due);
      hide Ends, NotAgain, Ended;
      if Ended(run[..n], id, due) {
        GoneStep(v, run[n], id);
      } else {
        ViewedStep(v, run[n], id, due, body);
      }
    }
  }

  lemma ViewStartsTimely(s: State, id: string, known: Option<Record>, now: int, d: int)
    requires Timely(s) && Waiting(s, id, d) && Unruled(known) && d > 0
    ensures var t := Apply(s, View(id, known), now);
      Timely(t) && Viewed(t, id, now + 1000 * d, s.store[id].body)
  {
    ViewStarts(s, id, known, now, d);
    TimelyKept(s, View(id, known), now);
    hide Apply;
  }
}
