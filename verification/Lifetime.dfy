// The lifetime manager of one tab over its store, each method proved to compute the function of
// LifetimeModel.
module Lifetime {
  import opened Wrappers
  import opened Vault
  import opened LifetimeModel
  import LM = LifetimeModel

  class LifetimeManager {
    var store: map<string, Record>
    var timers: map<string, int>
    var announced: multiset<(string, Reason)>

    function Contents(): State
      reads this
    {
      State(store, timers, announced)
    }

    constructor (stored: map<string, Record>)
      ensures Contents() == State(stored, map[], multiset{})
    {
      store, timers, announced := stored, map[], multiset{};
    }

    method StoreIncoming(key: nat, meta: Meta, plaintext: string, armNow: bool, now: int) returns (r: Record)
      modifies this
      ensures (r, Contents()) == LM.StoreIncoming(old(Contents()), key, meta, plaintext, armNow, now)
    {
      if meta.messageId in store {
        return store[meta.messageId];
      }
      r := Seal(key, meta, plaintext, now, armNow);
      store := store[r.messageId := r];
      if armNow {
        Arm(r, now);
      }
    }

    method ArmOnView(id: string, known: Option<Record>, now: int)
      modifies this
      ensures Contents() == LM.ArmOnView(old(Contents()), id, known, now)
    {
      if known.Some? && (known.value.expiresAt.Some? || known.value.kind != Duration) {
        return;
      }
      if id !in store || store[id].expiresAt.Some? || store[id].kind != Duration {
        return;
      }
      var armed := ArmRecord(store[id], now);
      store := store[armed.messageId := armed];
      Arm(armed, now);
    }

    method Arm(r: Record, now: int)
      modifies this
      ensures Contents() == LM.Arm(old(Contents()), r, now)
    {
      if r.kind != Duration || r.expiresAt.None? {
        return;
      }
      var delay := r.expiresAt.value - now;
      if delay <= 0 {
        Expire(r.messageId, Expired);
        return;
      }
      timers := timers[r.messageId := now + delay];
    }

    method SweepExpired(now: int)
      requires Keyed(Contents())
      modifies this
      ensures Contents() == Sweep(old(Contents()), now)
    {
      hide Swept, SweptAt, Sweep, Due;
      var listed := store;
      SweptNone(Contents(), now);
      var rest := listed.Keys;
      while rest != {}
        invariant rest <= listed.Keys
        invariant Swept(old(Contents()), Contents(), rest, now)
        decreases rest
      {
        var id :| id in rest;
        SweptOne(old(Contents()), Contents(), rest, id, now);
        rest := rest - {id};
        var r := listed[id];
        if r.expiresAt.None? || r.kind != Duration {
          continue;
        }
        if r.expiresAt.value <= now {
          Expire(r.messageId, Expired);
        } else if r.messageId !in timers {
          Arm(r, now);
        }
      }
      SweptAll(old(Contents()), Contents(), rest, now);
    }

    method OpenBurnOnRead(key: nat, id: string) returns (framed: Option<string>)
      modifies this
      ensures (framed, Contents()) == OpenBurn(old(Contents()), key, id)
    {
      if id !in store || store[id].read || store[id].kind != BurnOnRead {
        return None;
      }
      var r := store[id];
      framed := Open(key, r);
      if framed.None? {
        return;
      }
      store := store[id := Tombstone(r)];
      announced := announced + multiset{(id, Burned)};
    }

    method Revoke(id: string)
      modifies this
      ensures Contents() == LM.Expire(old(Contents()), id, Revoked)
    {
      Expire(id, Revoked);
    }

    method Expire(id: string, why: Reason)
      modifies this
      ensures Contents() == LM.Expire(old(Contents()), id, why)
    {
      timers := timers - {id};
      if id !in store {
        return;
      }
      store := store - {id};
      announced := announced + multiset{(id, why)};
    }
  }

  // One identifier during a sweep: `left` if the sweep has yet to look at it.
  ghost predicate SweptAt(was: State, s: State, left: bool, now: int, id: string) {
    && (id in s.store <==> id in was.store && (Due(was, id, now) ==> left))
    && (id in s.store ==> s.store[id] == was.store[id])
    && (id in s.timers <==> if left then id in was.timers else id in SweepTimers(was, now))
    && (id in s.timers ==> s.timers[id] == if id in was.timers then was.timers[id] else SweepTimers(was, now)[id])
  }

  function Announcements(was: State, rest: set<string>, now: int): set<(string, Reason)> {
    set id | id in was.store && Due(was, id, now) && id !in rest :: (id, Expired)
  }

  // A sweep that has yet to look at `rest`.
  ghost predicate Swept(was: State, s: State, rest: set<string>, now: int) {
    && Keyed(was)
    && (forall id :: SweptAt(was, s, id in rest, now, id))
    && s.announced == was.announced + multiset(Announcements(was, rest, now))
  }

  // What the loop body does for one listed record.
  function SweepRecord(s: State, r: Record, now: int): State {
    if !Armed(r) then s
    else if r.expiresAt.value <= now then Expire(s, r.messageId, Expired)
    else if r.messageId !in s.timers then Arm(s, r, now)
    else s
  }

  lemma SweptNone(s: State, now: int)
    requires Keyed(s)
    ensures Swept(s, s, s.store.Keys, now)
  {
    assert Announcements(s, s.store.Keys, now) == {};
    forall id
      ensures SweptAt(s, s, id in s.store.Keys, now, id)
    {
    }
  }

  lemma SweptElsewhere(was: State, s: State, left: bool, now: int, i: string, r: Record)
    requires SweptAt(was, s, left, now, i) && r.messageId != i
    ensures SweptAt(was, SweepRecord(s, r, now), left, now, i)
  {
    hide SweepTimers, Due;
  }

  lemma SweptHere(was: State, s: State, now: int, id: string)
    requires SweptAt(was, s, true, now, id) && id in was.store && was.store[id].messageId == id
    ensures SweptAt(was, SweepRecord(s, was.store[id], now), false, now, id)
  {
  }

  lemma SweptOne(was: State, s: State, rest: set<string>, id: string, now: int)
    requires Swept(was, s, rest, now) && id in rest && id in was.store
    ensures Swept(was, SweepRecord(s, was.store[id], now), rest - {id}, now)
  {
    var t, left := SweepRecord(s, was.store[id], now), rest - {id};
    assert SweptAt(was, s, id in rest, now, id);
    SweptHere(was, s, now, id);
    forall i | i != id
      ensures SweptAt(was, t, i in left, now, i)
    {
      assert SweptAt(was, s, i in rest, now, i);
      SweptElsewhere(was, s, i in rest, now, i, was.store[id]);
    }
    assert t.announced == s.announced + if Due(was, id, now) then multiset{(id, Expired)} else multiset{};
    hide SweptAt, SweepRecord;
    AnnouncedOne(was, rest, id, now);
  }

  lemma AnnouncedOne(was: State, rest: set<string>, id: string, now: int)
    requires id in rest && id in was.store
    ensures multiset(Announcements(was, rest - {id}, now))
         == multiset(Announcements(was, rest, now)) + if Due(was, id, now) then multiset{(id, Expired)} else multiset{}
  {
    hide Due;
    var before, after := Announcements(was, rest, now), Announcements(was, rest - {id}, now);
    if Due(was, id, now) {
      assert after == before + {(id, Expired)} && (id, Expired) !in before;
    } else {
      assert after == before;
    }
  }

  lemma SweptAll(was: State, s: State, rest: set<string>, now: int)
    requires rest == {} && Swept(was, s, rest, now)
    ensures s == Sweep(was, now)
  {
    hide Due, SweepTimers;
    forall id
      ensures id in s.store <==> id in was.store && !Due(was, id, now)
      ensures id in s.store ==> s.store[id] == was.store[id]
      ensures id in s.timers <==> id in SweepTimers(was, now)
      ensures id in s.timers ==> s.timers[id] == if id in was.timers then was.timers[id] else SweepTimers(was, now)[id]
    {
      assert SweptAt(was, s, id in rest, now, id);
    }
    var due := set id | id in was.store && Due(was, id, now);
    assert s.store == was.store - due;
    assert s.timers.Keys == SweepTimers(was, now).Keys;
    TimersKept(was, now);
    assert s.timers == SweepTimers(was, now);
    assert s.announced == was.announced + multiset(Announcements(was, rest, now));
    assert Announcements(was, rest, now) == (set id | id in due :: (id, Expired));
  }

  lemma TimersKept(was: State, now: int)
    ensures forall id :: id in was.timers && id in SweepTimers(was, now) ==> SweepTimers(was, now)[id] == was.timers[id]
  {
  }
}
