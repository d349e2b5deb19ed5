// Which entries the two gossiped lists adopt and where they put them, said of the entries and their names.
module ListLaws {
  import opened Wrappers
  import opened Units
  import opened Normalize
  import opened Lww
  import opened BuddyLists
  import opened GroupLists

  // ---- The order of texts -----------------------------------------------------------------------------------

  // a and b agree on k units, after which a is at its end or has the smaller one.
  ghost predicate PrecedesAt(a: Text, b: Text, k: nat) {
    k <= |a| && k < |b| && a[..k] == b[..k] && (k < |a| ==> a[k] < b[k])
  }

  ghost predicate Precedes(a: Text, b: Text) {
    exists k: nat :: PrecedesAt(a, b, k)
  }

  lemma {:induction false} LessSays(a: Text, b: Text)
    ensures Less(a, b) <==> Precedes(a, b)
  {
    if |a| == 0 || |b| == 0 || a[0] != b[0] {
      assert Less(a, b) ==> PrecedesAt(a, b, 0);
      if k: nat :| PrecedesAt(a, b, k) && k > 0 {
        SameHead(a, b, k);
      }
    } else {
      LessSays(a[1..], b[1..]);
      if k: nat :| PrecedesAt(a[1..], b[1..], k) {
        assert a[..k + 1] == [a[0]] + a[1..][..k] && b[..k + 1] == [b[0]] + b[1..][..k];
        assert PrecedesAt(a, b, k + 1);
      }
      if k: nat :| PrecedesAt(a, b, k) {
        assert a[1..][..k - 1] == a[..k][1..] && b[1..][..k - 1] == b[..k][1..];
        assert PrecedesAt(a[1..], b[1..], k - 1);
      }
    }
  }

  lemma SameHead(a: Text, b: Text, k: nat)
    requires PrecedesAt(a, b, k) && k > 0
    ensures a != [] && b != [] && a[0] == b[0]
  {
    assert a[..k][0] == b[..k][0];
  }

  // ---- What is adopted --------------------------------------------------------------------------------------

  // A later version wins, a removal wins a tie, and then the greater verified key, none being the least.
  ghost predicate BuddyWins(a: Buddy, b: Buddy) {
    || a.v > b.v
    || (a.v == b.v && a.removed && !b.removed)
    || (a.v == b.v && a.removed == b.removed && a.vk.Some?
        && Precedes(if b.vk.Some? then b.vk.value else [], a.vk.value))
  }

  // A device takes an entry stamped no more than a day ahead of its clock if it has none under the name or one that
  // loses to it; every other entry stays.
  lemma BuddiesAdopted(local: BuddyMap, incoming: BuddyMap, now: real, u: Text)
    ensures var r := Adopt(local, Frame(incoming, now), BuddyVersion, Beats);
      var takes := u in incoming && incoming[u].v <= now + 24.0 * 3600.0 * 1000.0
                   && if u in local then BuddyWins(incoming[u], local[u]) else u !in INHERITED;
      (u in r <==> u in local || takes) && (u in r ==> r[u] == if takes then incoming[u] else local[u])
  {
    hide INHERITED;
    AdoptAt(local, Frame(incoming, now), u, BuddyVersion, Beats);
    if u in incoming && u in local {
      LessSays(Key(local[u]), Key(incoming[u]));
    }
  }

  // For groups the labels decide only where both entries carry one.
  ghost predicate GroupWins(a: Group, b: Group) {
    || a.v > b.v
    || (a.v == b.v && a.removed && !b.removed)
    || (a.v == b.v && a.removed == b.removed && a.n.Some? && b.n.Some? && Precedes(b.n.value, a.n.value))
  }

  ghost predicate GroupTaken(local: GroupMap, k: Text, e: Group, now: real) {
    e.v <= now + 24.0 * 3600.0 * 1000.0 && if k in local then GroupWins(e, local[k]) else k !in INHERITED
  }

  lemma TakenIs(local: GroupMap, k: Text, e: Group, now: real)
    ensures TakesGroup(local, k, e, now) <==> GroupTaken(local, k, e, now)
  {
    hide INHERITED;
    if k in local && e.n.Some? && local[k].n.Some? {
      LessSays(local[k].n.value, e.n.value);
    }
  }

  lemma GroupsAdopted(local: GroupMap, incoming: GroupMap, now: real, u: Text)
    ensures var r := Adopt(local, Frame(incoming, now), GroupVersion, GroupBeats);
      var takes := u in incoming && GroupTaken(local, u, incoming[u], now);
      (u in r <==> u in local || takes) && (u in r ==> r[u] == if takes then incoming[u] else local[u])
  {
    AdoptAt(local, Frame(incoming, now), u, GroupVersion, GroupBeats);
    if u in incoming {
      TakenIs(local, u, incoming[u], now);
    }
    hide GroupTaken, Adopt, Takes;
  }

  // What is stored after a frame: what was loaded with those entries adopted, or, if there are none, exactly what was
  // stored, entries a load would cut included.
  lemma StoredSays(stored: GroupObject, incoming: GroupObject, now: real, u: Text)
    requires Distinct(stored) && Distinct(incoming)
    ensures var local, frame := MapOf(Load(stored)), MapOf(incoming);
      var t := AdoptStored(stored, incoming, now);
      if exists k :: k in frame && GroupTaken(local, k, frame[k], now)
      then var takes := u in frame && GroupTaken(local, u, frame[u], now);
           (u in MapOf(t) <==> u in local || takes) && (u in MapOf(t) ==> MapOf(t)[u] == if takes then frame[u]
                                                                                           else local[u])
      else t == stored
  {
    hide Load, MapOf, Distinct, GroupTaken, Adopt, AdoptInto, INHERITED;
    LoadKeeps(stored);
    var local, frame := MapOf(Load(stored)), MapOf(incoming);
    AdoptIntoMap(Load(stored), incoming, now);
    var r := Adopt(local, Frame(frame, now), GroupVersion, GroupBeats);
    GroupsAdopted(local, frame, now, u);
    if k :| k in frame && GroupTaken(local, k, frame[k], now) {
      GroupsAdopted(local, frame, now, k);
      TakenIsNew(local, k, frame[k], now);
    } else {
      forall k
        ensures (k in r <==> k in local) && (k in r ==> r[k] == local[k])
      {
        GroupsAdopted(local, frame, now, k);
      }
      assert r == local;
    }
  }

  lemma TakenIsNew(local: GroupMap, k: Text, e: Group, now: real)
    requires GroupTaken(local, k, e, now)
    ensures k in local ==> local[k] != e
  {
    TakenIs(local, k, e, now);
    TakesLocally(local, local, k, e, now);
    hide GroupTaken;
  }

  // ---- Where an object lists a new name -----------------------------------------------------------------------

  // How a number is written.
  ghost function Decimal(n: nat): Text {
    if n < 10 then ['0' as int + n] else Decimal(n / 10) + ['0' as int + n % 10]
  }

  lemma {:induction false} DecimalReads(n: nat)
    ensures Value(Decimal(n)) == n && Decimal(n) != [] && (n > 0 ==> Decimal(n)[0] != '0' as int)
    ensures |Decimal(n)| > 1 <==> n >= 10
    ensures forall i :: 0 <= i < |Decimal(n)| ==> Digit(Decimal(n)[i])
    decreases n
  {
    if n < 10 {
      assert Value([]) == 0;
      assert Decimal(n)[..0] == [];
    } else {
      DecimalReads(n / 10);
      assert Decimal(n)[..|Decimal(n)| - 1] == Decimal(n / 10);
    }
  }

  lemma {:induction false} DigitsWrite(k: Text)
    requires k != [] && (forall i :: 0 <= i < |k| ==> Digit(k[i])) && (|k| > 1 ==> k[0] != '0' as int)
    ensures Decimal(Value(k)) == k && (k[0] != '0' as int ==> Value(k) > 0)
    decreases |k|
  {
    var n := |k| - 1;
    if n == 0 {
      assert Value(k[..0]) == 0;
    } else {
      DigitsWrite(k[..n]);
      assert Value(k) / 10 == Value(k[..n]) && Value(k) % 10 == k[n] - '0' as int;
      assert k == k[..n] + [k[n]];
    }
  }

  // The names listed first are the numbers below 2^32 - 1, written without leading zeros.
  lemma IndexSays(k: Text)
    ensures Index(k) <==> exists n: nat :: n < 4294967295 && Decimal(n) == k
  {
    if Index(k) {
      DigitsWrite(k);
      assert Decimal(Value(k)) == k;
    }
    if n: nat :| n < 4294967295 && Decimal(n) == k {
      DecimalReads(n);
    }
  }

  // Such names come first, in ascending order.
  ghost predicate Arranged(o: GroupObject) {
    forall i, j :: 0 <= i < j < |o| && Index(o[j].0) ==> Index(o[i].0) && Value(o[i].0) < Value(o[j].0)
  }

  // A new name goes to the end unless it is one of those, and then to its place among them; so the order is kept, and
  // every other entry keeps its place in it.
  lemma NewNamePlace(o: GroupObject, k: Text, e: Group) returns (s: nat)
    requires Arranged(o) && !HasKey(o, k)
    ensures s <= |o| && SetKey(o, k, e) == o[..s] + [(k, e)] + o[s..] && Arranged(SetKey(o, k, e))
    ensures !Index(k) ==> s == |o|
  {
    s := Slot(o, k);
    SlotBounds(o, k);
    hide Index, Value, Slot;
    var t := SetKey(o, k, e);
    assert t == o[..s] + [(k, e)] + o[s..];
    forall i, j | 0 <= i < j < |t| && Index(t[j].0)
      ensures Index(t[i].0) && Value(t[i].0) < Value(t[j].0)
    {
      var a, b := if i < s then i else i - 1, if j < s then j else j - 1;
      assert i != s ==> t[i] == o[a];
      assert j != s ==> t[j] == o[b];
      if i == s {
        Later(o, k, s, b);
      }
    }
  }

  lemma Later(o: GroupObject, k: Text, s: nat, b: nat)
    requires Arranged(o) && s <= b < |o| && Index(o[b].0) && s == Slot(o, k) && !HasKey(o, k)
    ensures Index(k) && Value(k) < Value(o[b].0)
  {
    SlotBounds(o, k);
    SameIndex(o[s].0, k);
    assert o[s].0 != k;
    hide Index, Value;
  }

  lemma SameIndex(j: Text, k: Text)
    ensures Index(j) && Index(k) && Value(j) == Value(k) ==> j == k
  {
    if Index(j) && Index(k) {
      DigitsWrite(j);
      DigitsWrite(k);
    }
  }

  lemma {:induction false} SlotBounds(o: GroupObject, k: Text)
    ensures var s := Slot(o, k);
      && (forall j :: 0 <= j < s ==> Index(k) ==> Index(o[j].0) && Value(o[j].0) < Value(k))
      && (s < |o| ==> Index(k) && !(Index(o[s].0) && Value(o[s].0) < Value(k)))
    decreases |o|
  {
    hide Index, Value;
    if o != [] && ListedBefore(o[0].0, k) {
      SlotBounds(o[1..], k);
      assert forall j :: 0 < j < |o| ==> o[j] == o[1..][j - 1];
    }
  }
}
