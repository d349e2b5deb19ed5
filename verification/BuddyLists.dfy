// The buddy map that a user's own devices gossip: precedence between two entries of one username, and the
// adoption loop.
module BuddyLists {
  import opened Wrappers
  import opened Units
  import opened Normalize
  import opened Lww

  // ---- Buddies --------------------------------------------------------------------------------------

  type BuddyMap = map<Text, Buddy>

  function BuddyVersion(e: Buddy): real {
    e.v
  }

  function Key(e: Buddy): Text {
    if e.vk.Some? then e.vk.value else []
  }

  // Strictly later in the order (version, removal, verified key).
  predicate Beats(a: Buddy, b: Buddy) {
    || a.v > b.v
    || (a.v == b.v && a.removed && !b.removed)
    || (a.v == b.v && a.removed == b.removed && Less(Key(b), Key(a)))
  }

  predicate SameRank(a: Buddy, b: Buddy) {
    a.v == b.v && a.removed == b.removed && Key(a) == Key(b)
  }

  lemma BeatsTransitive(a: Buddy, b: Buddy, c: Buddy)
    requires Beats(a, b) && Beats(b, c)
    ensures Beats(a, c)
  {
    if a.v == b.v == c.v && a.removed == b.removed == c.removed {
      LessTransitive(Key(c), Key(b), Key(a));
    }
  }

  lemma BeatsStrict()
    ensures StrictOrder(Beats)
  {
    forall a
      ensures !Beats(a, a)
    {
      LessIrreflexive(Key(a));
    }
    forall a, b, c | Beats(a, b) && Beats(b, c)
      ensures Beats(a, c)
    {
      BeatsTransitive(a, b, c);
    }
  }

  // Two entries neither of which beats the other have the same rank.
  lemma Unbeaten(a: Buddy, b: Buddy)
    requires !Beats(a, b) && !Beats(b, a)
    ensures SameRank(a, b)
  {
    LessTotal(Key(a), Key(b));
  }

  // Not being beaten passes along.
  lemma AtLeastTransitive(a: Buddy, b: Buddy, c: Buddy)
    requires !Beats(a, b) && !Beats(b, c)
    ensures !Beats(a, c)
  {
    if Beats(a, c) {
      if Beats(c, b) {
        BeatsTransitive(a, c, b);
      } else {
        Unbeaten(b, c);
      }
    }
  }

  class BuddyStore {
    var local: BuddyMap
    var broadcasts: seq<BuddyMap>

    constructor ()
      ensures local == map[] && broadcasts == []
    {
      local, broadcasts := map[], [];
    }

    // The comparison the loop makes for one username.
    static method Newer(work: BuddyMap, u: Text, inEnt: Buddy) returns (newer: bool)
      ensures newer <==> if u in work then Beats(inEnt, work[u]) else u !in INHERITED
      ensures newer && u in work ==> work[u] != inEnt
    {
      if u !in work {
        return u !in INHERITED;
      }
      var cur := work[u];
      newer := inEnt.v > cur.v || (inEnt.v == cur.v && inEnt.removed && !cur.removed);
      if !newer && inEnt.v == cur.v && inEnt.removed == cur.removed {
        newer := Less(Key(cur), Key(inEnt));
      }
      LessIrreflexive(Key(inEnt));
    }

    // Adopting a frame entry by entry. The map is saved and re-broadcast only if some entry was newer.
    method AdoptBuddies(incoming: BuddyMap, now: real)
      modifies this
      ensures local == Adopt(old(local), Frame(incoming, now), BuddyVersion, Beats)
      ensures broadcasts == old(broadcasts) + if local == old(local) then [] else [local]
    {
      hide Beats, Adopt, INHERITED;
      var work := local;
      var changed := false;
      var maxV := now + MAX_FUTURE_MS;
      var rest := incoming.Keys;
      AdoptNone(local, incoming, now, BuddyVersion, Beats);
      while rest != {}
        invariant rest <= incoming.Keys && local == old(local) && broadcasts == old(broadcasts)
        invariant work == Adopt(local, Frame(incoming - rest, now), BuddyVersion, Beats)
        invariant changed <==> work != local
        decreases rest
      {
        var u :| u in rest;
        AdoptOne(local, incoming, rest, u, now, BuddyVersion, Beats);
        rest := rest - {u};
        var inEnt := incoming[u];
        if inEnt.v > maxV {
          continue;
        }
        var newer := Newer(work, u, inEnt);
        if newer {
          StaysChanged(local, work, u, inEnt);
          work := work[u := inEnt];
          changed := true;
        }
      }
      assert incoming - rest == incoming;
      if !changed {
        return;
      }
      local := work;
      broadcasts := broadcasts + [local];
    }
  }

  ghost function FoldBuddies(local: BuddyMap, frames: seq<Frame<Buddy>>): BuddyMap {
    Fold(local, frames, BuddyVersion, Beats)
  }

  ghost predicate BuddyCandidate(local: BuddyMap, frames: seq<Frame<Buddy>>, u: Text, e: Buddy) {
    Candidate(local, frames, u, e, BuddyVersion)
  }

  // Whatever the order and repetition of frames, each username ends at a candidate of maximal
  // (version, removed, verified key) over the starting map and everything received in time.
  lemma BuddiesFoldToMaximum(local: BuddyMap, frames: seq<Frame<Buddy>>, u: Text)
    requires u in local || u !in INHERITED
    ensures var r := FoldBuddies(local, frames);
      && (u in r <==> exists e :: BuddyCandidate(local, frames, u, e))
      && (u in r ==> BuddyCandidate(local, frames, u, r[u])
                     && forall e :: BuddyCandidate(local, frames, u, e) ==> SameRank(e, r[u]) || Beats(r[u], e))
  {
    BeatsStrict();
    FoldIsMaximal(local, frames, u, BuddyVersion, Beats);
    var r := FoldBuddies(local, frames);
    if u in r {
      assert BuddyCandidate(local, frames, u, r[u]);
      forall e | BuddyCandidate(local, frames, u, e)
        ensures SameRank(e, r[u]) || Beats(r[u], e)
      {
        if !Beats(r[u], e) {
          Unbeaten(e, r[u]);
        }
      }
    }
  }

  // The exception, exactly: a username that is also an inherited property name and not in the map already
  // stays out whatever is received, so for those the maximum is not reached.
  lemma InheritedNamesStayOut(local: BuddyMap, frames: seq<Frame<Buddy>>, u: Text)
    requires u !in local
    ensures u in INHERITED ==> u !in FoldBuddies(local, frames)
    ensures (u in FoldBuddies(local, frames) <==> exists e :: BuddyCandidate(local, frames, u, e))
        <==> (u !in INHERITED || !exists e :: BuddyCandidate(local, frames, u, e))
  {
    if u in INHERITED {
      InheritedNeverAdopted(local, frames, u, BuddyVersion, Beats);
    } else {
      BuddiesFoldToMaximum(local, frames, u);
    }
  }

  // Replicas that have seen the same candidates agree on every rank, in whatever order they saw them.
  lemma BuddyReplicasAgree(l1: BuddyMap, f1: seq<Frame<Buddy>>, l2: BuddyMap, f2: seq<Frame<Buddy>>, u: Text)
    requires (u in l1 && u in l2) || u !in INHERITED
    requires forall e :: BuddyCandidate(l1, f1, u, e) <==> BuddyCandidate(l2, f2, u, e)
    ensures var r1, r2 := FoldBuddies(l1, f1), FoldBuddies(l2, f2);
      (u in r1 <==> u in r2) && (u in r1 ==> SameRank(r1[u], r2[u]))
  {
    hide BuddyCandidate, FoldBuddies;
    BuddiesFoldToMaximum(l1, f1, u);
    BuddiesFoldToMaximum(l2, f2, u);
    var r1, r2 := FoldBuddies(l1, f1), FoldBuddies(l2, f2);
    if u in r1 && Beats(r1[u], r2[u]) {
      BeatsStrict();
      NotBoth(r1[u], r2[u]);
    }
  }

  lemma NotBoth(a: Buddy, b: Buddy)
    requires Beats(a, b)
    ensures !Beats(b, a) && !SameRank(a, b) && !SameRank(b, a)
  {
    LessIrreflexive(Key(a));
    if Beats(b, a) {
      BeatsTransitive(a, b, a);
      BeatsStrict();
    }
  }
}
