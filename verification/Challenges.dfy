// Proof-of-work challenges. A spend prunes the record of expired challenges and then inserts its own, in two
// statements, by the clock its request began with; so what keeps a challenge from being spent twice is the order
// of these statements.
module Challenges {
  import opened RegistryModel
  import opened RegistryRuns

  // Everything on record was spent, and stands there with the expiry it was issued with.
  ghost predicate Recorded(w: World) {
    forall c :: c in w.db.spent ==> c in w.wins && c in w.issued && w.issued[c] == w.db.spent[c]
  }

  predicate Prunes(e: Event, expiresAt: int) {
    e.Event? && e.op.Prune? && e.now >= expiresAt
  }

  // An insert of this challenge is reached.
  predicate Reaches(e: Event, c: string) {
    e.Event? && Accepted(e.op, e.now) && e.op.challenge == c
  }

  // A spend of a challenge is its prune followed by its insert.
  lemma SpendIsTwoSteps(db: Db, c: string, expiresAt: int, now: int)
    requires expiresAt > now
    ensures NextDb(NextDb(db, Prune, now), Spend(c, expiresAt, true), now)
         == SpendChallenge(db, c, expiresAt, true, now).1
    ensures Wins(NextDb(db, Prune, now), Spend(c, expiresAt, true), now)
       <==> SpendChallenge(db, c, expiresAt, true, now).0
  {
  }

  // ---- One statement ---------------------------------------------------------------------------------------

  lemma RecordedStep(w: World, op: Op, now: int)
    requires Recorded(w) && Possible(w, op, now)
    ensures Recorded(Apply(w, op, now))
  {
    hide FairTake, InsertAll, ClearBacklog, Consume, RevokedRows, HasPackage, KeyUsed;
    var t := Apply(w, op, now);
    assert forall c :: c in w.wins ==> c in t.wins;
  }

  // A spent challenge stays on record until, and only until, a prune at or past its expiry.
  lemma WinsStay(w: World, op: Op, now: int, c: string)
    requires Recorded(w) && Possible(w, op, now) && c in w.db.spent
    ensures c in Apply(w, op, now).db.spent <==> !Prunes(Event(op, now), w.db.spent[c])
  {
    hide FairTake, InsertAll, ClearBacklog, Consume, RevokedRows, HasPackage, KeyUsed;
  }

  // A challenge comes onto the record only by being spent.
  lemma OnlyWinsRecord(w: World, op: Op, now: int, c: string)
    requires Possible(w, op, now) && c !in w.db.spent
    ensures var t := Apply(w, op, now);
      if c in t.db.spent then Reaches(Event(op, now), c) && t.wins == w.wins + [c] else !Reaches(Event(op, now), c)
  {
    hide FairTake, InsertAll, ClearBacklog, Consume, RevokedRows, HasPackage, KeyUsed;
  }

  // The list of wins grows by a challenge that was not on record.
  lemma WinsGrow(w: World, op: Op, now: int)
    requires Possible(w, op, now)
    ensures var t := Apply(w, op, now);
      || t.wins == w.wins
      || (Accepted(op, now) && op.challenge !in w.db.spent && t.wins == w.wins + [op.challenge]
          && op.challenge in w.issued && w.issued[op.challenge] == op.expiresAt)
    ensures forall c :: c in w.issued ==> c in Apply(w, op, now).issued && Apply(w, op, now).issued[c] == w.issued[c]
  {
    hide FairTake, InsertAll, ClearBacklog, Consume, RevokedRows, HasPackage, KeyUsed;
  }

  // ---- Runs --------------------------------------------------------------------------------------------------

  lemma {:induction false} RecordedAlong(states: seq<World>, events: seq<Event>, k: nat)
    requires Run(states, events) && Recorded(states[0]) && k < |states|
    ensures Recorded(states[k])
  {
    hide Possible, Apply, Recorded;
    if k > 0 {
      RecordedAlong(states, events, k - 1);
      EventOf(states, events, k - 1);
      if events[k - 1].Event? {
        RecordedStep(states[k - 1], events[k - 1].op, events[k - 1].now);
      }
    }
  }

  // Between an insert of c that was reached and a later one, a prune at or past its expiry, while the later
  // request still takes it for live.
  ghost predicate Forgets(events: seq<Event>, i: nat, j: nat, k: nat) {
    && i < j < k < |events| && events[i].Event? && Accepted(events[i].op, events[i].now)
    && Prunes(events[j], events[i].op.expiresAt)
    && Reaches(events[k], events[i].op.challenge)
  }

  // What was on record and no longer is has been pruned.
  lemma {:induction false} PrunedBetween(states: seq<World>, events: seq<Event>, i: nat, k: nat, c: string)
    returns (j: nat)
    requires Run(states, events) && Recorded(states[0]) && i <= k < |states|
    requires c in states[i].db.spent && c !in states[k].db.spent
    ensures i <= j < k && Prunes(events[j], states[i].db.spent[c])
    decreases k
  {
    hide Possible, Apply, Recorded;
    EventOf(states, events, k - 1);
    RecordedAlong(states, events, k - 1);
    RecordedAlong(states, events, i);
    if c in states[k - 1].db.spent {
      SameExpiry(states, events, i, k - 1, c);
      WinsStay(states[k - 1], events[k - 1].op, events[k - 1].now, c);
      j := k - 1;
    } else {
      j := PrunedBetween(states, events, i, k - 1, c);
    }
  }

  lemma {:induction false} IssuedAlong(states: seq<World>, events: seq<Event>, i: nat, k: nat, c: string)
    requires Run(states, events) && i <= k < |states| && c in states[i].issued
    ensures c in states[k].issued && states[k].issued[c] == states[i].issued[c]
    decreases k
  {
    hide Possible, Apply;
    if k > i {
      IssuedAlong(states, events, i, k - 1, c);
      EventOf(states, events, k - 1);
      if events[k - 1].Event? {
        WinsGrow(states[k - 1], events[k - 1].op, events[k - 1].now);
      }
    }
  }

  lemma SameExpiry(states: seq<World>, events: seq<Event>, i: nat, k: nat, c: string)
    requires Run(states, events) && Recorded(states[0]) && i <= k < |states|
    requires c in states[i].db.spent && c in states[k].db.spent
    ensures states[i].db.spent[c] == states[k].db.spent[c]
  {
    hide Run;
    RecordedAlong(states, events, i);
    RecordedAlong(states, events, k);
    IssuedAlong(states, events, i, k, c);
  }

  // Whoever reached the insert finds the challenge on record right afterwards.
  lemma ReachedRecords(states: seq<World>, events: seq<Event>, i: nat)
    requires Run(states, events) && Recorded(states[0]) && i < |events|
    requires events[i].Event? && Accepted(events[i].op, events[i].now)
    ensures var c := events[i].op.challenge;
      c in states[i + 1].db.spent && states[i + 1].db.spent[c] == events[i].op.expiresAt && c in states[i + 1].wins
  {
    hide FairTake, InsertAll, ClearBacklog, Consume, RevokedRows, HasPackage, KeyUsed;
    EventOf(states, events, i);
    RecordedAlong(states, events, i);
    RecordedAlong(states, events, i + 1);
  }

  lemma {:induction false} WinsPrefix(states: seq<World>, events: seq<Event>, i: nat, k: nat)
    requires Run(states, events) && i <= k < |states|
    ensures states[i].wins <= states[k].wins
    decreases k
  {
    hide Possible, Apply;
    if k > i {
      WinsPrefix(states, events, i, k - 1);
      EventOf(states, events, k - 1);
      if events[k - 1].Event? {
        WinsGrow(states[k - 1], events[k - 1].op, events[k - 1].now);
      }
    }
  }

  // A win was reached.
  lemma {:induction false} WonBefore(states: seq<World>, events: seq<Event>, k: nat, c: string) returns (i: nat)
    requires Run(states, events) && states[0].wins == [] && k < |states| && c in states[k].wins
    ensures i < k && Reaches(events[i], c)
    decreases k
  {
    hide Possible, Apply;
    EventOf(states, events, k - 1);
    if c in states[k - 1].wins {
      i := WonBefore(states, events, k - 1, c);
    } else {
      WinsGrow(states[k - 1], events[k - 1].op, events[k - 1].now);
      i := k - 1;
    }
  }

  ghost predicate NothingSpent(w: World) {
    w.wins == [] && w.db.spent == map[]
  }

  // If some challenge was spent twice, the pattern occurred.
  lemma {:induction false} TwiceForgets(states: seq<World>, events: seq<Event>, n: nat) returns (i: nat, j: nat, k: nat)
    requires Run(states, events) && NothingSpent(states[0]) && n < |states| && !Distinct(states[n].wins)
    ensures Forgets(events, i, j, k) && k < n
    decreases n
  {
    hide Possible, Apply, Distinct;
    assert n > 0 by {
      NoneDistinct();
    }
    EventOf(states, events, n - 1);
    if !Distinct(states[n - 1].wins) {
      i, j, k := TwiceForgets(states, events, n - 1);
    } else {
      var e := events[n - 1];
      WinsGrow(states[n - 1], e.op, e.now);
      var c := e.op.challenge;
      if c !in states[n - 1].wins {
        AppendDistinct(states[n - 1].wins, c);
      }
      i := WonBefore(states, events, n - 1, c);
      ReachedRecords(states, events, i);
      j := PrunedBetween(states, events, i + 1, n - 1, c);
      k := n - 1;
    }
  }

  lemma NoneDistinct()
    ensures Distinct<string>([])
  {
  }

  lemma AppendDistinct(wins: seq<string>, c: string)
    requires Distinct(wins)
    ensures Distinct(wins + [c]) <==> c !in wins
  {
    if c in wins {
      var i :| 0 <= i < |wins| && wins[i] == c;
      assert (wins + [c])[i] == (wins + [c])[|wins|];
    }
  }

  // The insert that puts a forgotten challenge back on record is a second win.
  lemma {:induction false} WinsAgain(states: seq<World>, events: seq<Event>, j: nat, k: nat, c: string)
    requires Run(states, events) && j <= k < |states| && c in states[j].wins
    requires c !in states[j].db.spent && c in states[k].db.spent
    ensures !Distinct(states[k].wins)
    decreases k
  {
    hide Possible, Apply, Distinct;
    EventOf(states, events, k - 1);
    WinsPrefix(states, events, j, k - 1);
    WinsPrefix(states, events, k - 1, k);
    if c in states[k - 1].db.spent {
      WinsAgain(states, events, j, k - 1, c);
      StaysTwice(states[k - 1].wins, states[k].wins);
    } else {
      OnlyWinsRecord(states[k - 1], events[k - 1].op, events[k - 1].now, c);
      LastTwice(states[k - 1].wins, c);
    }
  }

  lemma LastTwice(wins: seq<string>, c: string)
    requires c in wins
    ensures !Distinct(wins + [c])
  {
    var i :| 0 <= i < |wins| && wins[i] == c;
    assert (wins + [c])[i] == (wins + [c])[|wins|];
  }

  lemma StaysTwice(a: seq<string>, b: seq<string>)
    requires a <= b && !Distinct(a)
    ensures !Distinct(b)
  {
    var i, j :| 0 <= i < j < |a| && a[i] == a[j];
    assert b[i] == b[j];
  }

  lemma ForgetsTwice(states: seq<World>, events: seq<Event>, i: nat, j: nat, k: nat)
    requires Run(states, events) && NothingSpent(states[0]) && Forgets(events, i, j, k)
    ensures !Distinct(states[|events|].wins)
  {
    hide Possible, Apply, Distinct;
    var c := events[i].op.challenge;
    ReachedRecords(states, events, i);
    ReachedRecords(states, events, k);
    var gone := if c in states[j].db.spent then j + 1 else j;
    if c in states[j].db.spent {
      SameExpiry(states, events, i + 1, j, c);
      RecordedAlong(states, events, j);
      EventOf(states, events, j);
      WinsStay(states[j], events[j].op, events[j].now, c);
    }
    WinsPrefix(states, events, i + 1, gone);
    WinsAgain(states, events, gone, k + 1, c);
    WinsPrefix(states, events, k + 1, |events|);
    StaysTwice(states[k + 1].wins, states[|events|].wins);
  }

  // Over any run from an empty record no challenge is spent twice if and only if no prune at or past a challenge's
  // expiry comes between two of its inserts, the later of which still takes it for live.
  lemma SpendsOnceIff(states: seq<World>, events: seq<Event>)
    requires Run(states, events) && NothingSpent(states[0])
    ensures Distinct(states[|events|].wins) <==> forall i: nat, j: nat, k: nat :: !Forgets(events, i, j, k)
  {
    hide Run, Forgets, Distinct, NothingSpent;
    RunLength(states, events);
    if !Distinct(states[|events|].wins) {
      var i, j, k := TwiceForgets(states, events, |events|);
    }
    forall i: nat, j: nat, k: nat | Forgets(events, i, j, k)
      ensures !Distinct(states[|events|].wins)
    {
      ForgetsTwice(states, events, i, j, k);
    }
  }

  lemma RunLength(states: seq<World>, events: seq<Event>)
    requires Run(states, events)
    ensures |states| == |events| + 1
  {
  }

  // The clocks of the statements do not run backwards.
  ghost predicate Clocked(events: seq<Event>) {
    forall i, j :: 0 <= i < j < |events| && events[i].Event? && events[j].Event? ==> events[i].now <= events[j].now
  }

  // Then nothing is ever spent twice.
  lemma ClockedSpendsOnce(states: seq<World>, events: seq<Event>, k: nat)
    requires Run(states, events) && NothingSpent(states[0]) && Clocked(events) && k < |states|
    ensures Distinct(states[k].wins)
  {
    hide Run, Distinct, NothingSpent, Possible;
    if !Distinct(states[k].wins) {
      var a, b, c := TwiceForgets(states, events, k);
      assert events[b].now <= events[c].now;
      SameChallenge(states, events, a, c);
    }
  }

  // Two inserts of one challenge name one expiry.
  lemma SameChallenge(states: seq<World>, events: seq<Event>, a: nat, c: nat)
    requires Run(states, events) && a < c < |events| && events[a].Event? && Accepted(events[a].op, events[a].now)
    requires Reaches(events[c], events[a].op.challenge)
    ensures events[a].op.expiresAt == events[c].op.expiresAt
  {
    EventOf(states, events, a);
    EventOf(states, events, c);
    IssuedAlong(states, events, a, c, events[a].op.challenge);
  }

  // Two requests that began before the expiry spend one challenge both, because one that began at the expiry
  // prunes in between.
  lemma SpentTwice(c: string, expiresAt: int) returns (states: seq<World>, events: seq<Event>)
    ensures Run(states, events) && states[0] == NEW_WORLD && |events| == 4
    ensures states[4].wins == [c, c]
  {
    var spend := Event(Spend(c, expiresAt, true), expiresAt - 1);
    events := [Event(Issue(c, expiresAt), expiresAt - 300), spend, Event(Prune, expiresAt), spend];
    var w1 := NEW_WORLD.(issued := map[c := expiresAt]);
    var w2 := w1.(db := EMPTY.(spent := map[c := expiresAt]), wins := [c]);
    states := [NEW_WORLD, w1, w2, w1.(wins := [c]), w2.(wins := [c, c])];
    assert Unexpired(map[c := expiresAt], expiresAt) == map[];
    forall k | 0 <= k < 4
      ensures CanStep(states[k], events[k]) && states[k + 1] == After(states[k], events[k])
    {
      hide FairTake, InsertAll, ClearBacklog, Consume, RevokedRows, HasPackage, KeyUsed;
    }
  }
}
