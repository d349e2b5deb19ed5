// The buddy-group map that a user's own devices gossip: precedence between two entries of one name, the
// ordered object it is stored as, the cut to 512 entries on every load, and the adoption loop.
module GroupLists {
  import opened Wrappers
  import opened Units
  import opened Normalize
  import opened Lww

  // ---- Groups ----------------------------------------------------------------------------------------

  type GroupMap = map<Text, Group>

  function GroupVersion(e: Group): real {
    e.v
  }

  // Labels decide only between two entries that both carry one.
  predicate GroupBeats(a: Group, b: Group) {
    || a.v > b.v
    || (a.v == b.v && a.removed && !b.removed)
    || (a.v == b.v && a.removed == b.removed && a.n.Some? && b.n.Some? && Less(b.n.value, a.n.value))
  }

  lemma GroupBeatsTransitive(a: Group, b: Group, c: Group)
    requires GroupBeats(a, b) && GroupBeats(b, c)
    ensures GroupBeats(a, c)
  {
    if a.v == b.v == c.v && a.removed == b.removed == c.removed {
      LessTransitive(c.n.value, b.n.value, a.n.value);
    }
  }

  lemma GroupBeatsStrict()
    ensures StrictOrder(GroupBeats)
  {
    forall a: Group
      ensures !GroupBeats(a, a)
    {
      if a.n.Some? {
        LessIrreflexive(a.n.value);
      }
    }
    forall a, b, c | GroupBeats(a, b) && GroupBeats(b, c)
      ensures GroupBeats(a, c)
    {
      GroupBeatsTransitive(a, b, c);
    }
  }

  // ---- The stored object --------------------------------------------------------------------------------

  ghost predicate Distinct(o: GroupObject) {
    forall i, j :: 0 <= i < j < |o| ==> o[i].0 != o[j].0
  }

  function MapOf(o: GroupObject): GroupMap {
    if o == [] then map[] else MapOf(o[..|o| - 1])[o[|o| - 1].0 := o[|o| - 1].1]
  }

  predicate Digit(c: Unit) {
    0x30 <= c <= 0x39
  }

  function Value(k: Text): nat {
    if k == [] || !Digit(k[|k| - 1]) then 0 else 10 * Value(k[..|k| - 1]) + (k[|k| - 1] - 0x30)
  }

  // Keys that are array indices: objects list these first, in ascending order, and all others after them in
  // the order they were set.
  predicate Index(k: Text) {
    && k != [] && (forall i :: 0 <= i < |k| ==> Digit(k[i])) && (|k| > 1 ==> k[0] != 0x30)
    && Value(k) < 0xffff_ffff
  }

  predicate ListedBefore(k: Text, new_: Text) {
    Index(new_) ==> Index(k) && Value(k) < Value(new_)
  }

  // Where a new key goes.
  function Slot(o: GroupObject, k: Text): (i: nat)
    ensures i <= |o|
  {
    if o == [] || !ListedBefore(o[0].0, k) then 0 else 1 + Slot(o[1..], k)
  }

  predicate HasKey(o: GroupObject, k: Text) {
    exists i :: 0 <= i < |o| && o[i].0 == k
  }

  function Find(o: GroupObject, k: Text): (i: nat)
    requires HasKey(o, k)
    ensures i < |o| && o[i].0 == k
  {
    if o[0].0 == k then 0 else
      assert HasKey(o[1..], k) by {
        var i :| 0 <= i < |o| && o[i].0 == k;
        assert o[1..][i - 1] == o[i];
      }
      1 + Find(o[1..], k)
  }

  // Setting a property: an existing one keeps its place.
  function SetKey(o: GroupObject, k: Text, e: Group): GroupObject {
    if HasKey(o, k) then o[Find(o, k) := (k, e)]
    else o[..Slot(o, k)] + [(k, e)] + o[Slot(o, k)..]
  }

  lemma HasLast(o: GroupObject, k: Text)
    requires o != []
    ensures HasKey(o, k) <==> HasKey(o[..|o| - 1], k) || k == o[|o| - 1].0
  {
    var n := |o| - 1;
    if HasKey(o[..n], k) {
      var i :| 0 <= i < n && o[..n][i].0 == k;
      assert o[i].0 == k;
    }
    if i :| 0 <= i < |o| && o[i].0 == k && i < n {
      assert o[..n][i].0 == k;
    }
  }

  lemma DistinctLast(o: GroupObject)
    requires o != []
    ensures Distinct(o) <==> Distinct(o[..|o| - 1]) && !HasKey(o[..|o| - 1], o[|o| - 1].0)
  {
    var n := |o| - 1;
    assert forall i :: 0 <= i < n ==> o[..n][i] == o[i];
    if Distinct(o[..n]) && !HasKey(o[..n], o[n].0) {
      forall i, j | 0 <= i < j < |o|
        ensures o[i].0 != o[j].0
      {
        assert o[..n][i].0 == o[i].0;
      }
    }
  }

  lemma {:induction false} MapOfHas(o: GroupObject)
    requires Distinct(o)
    ensures forall k :: k in MapOf(o) <==> HasKey(o, k)
    ensures forall i :: 0 <= i < |o| ==> o[i].0 in MapOf(o) && MapOf(o)[o[i].0] == o[i].1
    ensures |MapOf(o)| == |o|
    decreases |o|
  {
    hide HasKey, Distinct;
    if o != [] {
      var n := |o| - 1;
      DistinctLast(o);
      MapOfHas(o[..n]);
      assert MapOf(o).Keys == MapOf(o[..n]).Keys + {o[n].0};
      forall k
        ensures HasKey(o, k) <==> HasKey(o[..n], k) || k == o[n].0
      {
        HasLast(o, k);
      }
      forall i | 0 <= i < |o|
        ensures o[i].0 in MapOf(o) && MapOf(o)[o[i].0] == o[i].1
      {
        if i < n {
          assert o[..n][i] == o[i];
        }
      }
    } else {
      NoKeys();
    }
  }

  lemma NoKeys()
    ensures forall k :: !HasKey([], k)
  {
  }

  // An object's entries determine its map.
  lemma MapFrom(o: GroupObject, m: GroupMap)
    requires Distinct(o)
    requires forall i :: 0 <= i < |o| ==> o[i].0 in m && m[o[i].0] == o[i].1
    requires forall k :: k in m ==> HasKey(o, k)
    ensures MapOf(o) == m
  {
    MapOfHas(o);
    forall k | k in m
      ensures k in MapOf(o) && MapOf(o)[k] == m[k]
    {
      var i :| 0 <= i < |o| && o[i].0 == k;
    }
  }

  // Where setting a key puts it, and where it leaves the others.
  lemma SetKeyAt(o: GroupObject, k: Text, e: Group) returns (s: nat)
    ensures var t := SetKey(o, k, e);
      && s < |t| && t[s] == (k, e)
      && (HasKey(o, k) ==> |t| == |o| && s < |o| && o[s].0 == k && forall i :: 0 <= i < |o| && i != s ==> t[i] == o[i])
      && (!HasKey(o, k) ==> |t| == |o| + 1 && s <= |o| && forall i :: 0 <= i < |o| ==>
        t[if i < s then i else i + 1] == o[i])
  {
    s := if HasKey(o, k) then Find(o, k) else Slot(o, k);
  }

  lemma SetKeyDistinct(o: GroupObject, k: Text, e: Group)
    requires Distinct(o)
    ensures Distinct(SetKey(o, k, e))
  {
    hide SetKey;
    var t := SetKey(o, k, e);
    var s := SetKeyAt(o, k, e);
    if HasKey(o, k) {
      forall i, j | 0 <= i < j < |t|
        ensures t[i].0 != t[j].0
      {
        assert o[i].0 != o[j].0;
      }
    } else {
      forall i, j | 0 <= i < j < |t|
        ensures t[i].0 != t[j].0
      {
        var a, b := if i < s then i else i - 1, if j < s then j else j - 1;
        assert i != s ==> t[i] == o[a] && o[a].0 != k;
        assert j != s ==> t[j] == o[b] && o[b].0 != k;
      }
    }
  }

  lemma SetKeyOk(o: GroupObject, k: Text, e: Group)
    requires GroupsOk(o) && GroupOk(k, e)
    ensures GroupsOk(SetKey(o, k, e))
  {
    hide SetKey, GroupOk;
    var s := SetKeyAt(o, k, e);
    var t := SetKey(o, k, e);
    forall i | 0 <= i < |t| && i != s
      ensures GroupOk(t[i].0, t[i].1)
    {
      assert t[i] == o[if HasKey(o, k) || i < s then i else i - 1];
    }
  }

  lemma SetKeyMap(o: GroupObject, k: Text, e: Group)
    requires Distinct(o)
    ensures Distinct(SetKey(o, k, e)) && MapOf(SetKey(o, k, e)) == MapOf(o)[k := e]
  {
    hide MapOf, SetKey, Distinct;
    SetKeyDistinct(o, k, e);
    MapOfHas(o);
    var t, m := SetKey(o, k, e), MapOf(o)[k := e];
    var s := SetKeyAt(o, k, e);
    forall i | 0 <= i < |t|
      ensures t[i].0 in m && m[t[i].0] == t[i].1
    {
      if i != s {
        var a := if HasKey(o, k) || i < s then i else i - 1;
        assert t[i] == o[a] && o[a].0 != k by {
          OtherKey(o, a, s, k);
        }
      }
    }
    forall j | j in m
      ensures HasKey(t, j)
    {
      if j == k {
        assert t[s].0 == k;
      } else {
        var i :| 0 <= i < |o| && o[i].0 == j;
        assert t[if HasKey(o, k) || i < s then i else i + 1] == o[i];
      }
    }
    MapFrom(t, m);
  }

  lemma OtherKey(o: GroupObject, a: nat, s: nat, k: Text)
    requires Distinct(o) && a < |o| && (HasKey(o, k) ==> s < |o| && o[s].0 == k && a != s)
    ensures o[a].0 != k
  {
  }

  // ---- Adoption on the stored object -----------------------------------------------------------------------

  predicate TakesGroup(m: GroupMap, k: Text, e: Group, now: real) {
    Takes(m, k, e, now, GroupVersion, GroupBeats)
  }

  // The loop over a frame's entries.
  function AdoptInto(local: GroupObject, incoming: GroupObject, now: real): GroupObject {
    if incoming == [] then local
    else
      var n := |incoming| - 1;
      var work := AdoptInto(local, incoming[..n], now);
      var (k, e) := incoming[n];
      if TakesGroup(MapOf(work), k, e, now) then SetKey(work, k, e) else work
  }

  // Whether some entry was newer.
  predicate Newer(stored: GroupObject, incoming: GroupObject, now: real) {
    AdoptInto(Load(stored), incoming, now) != Load(stored)
  }

  // What is stored after a frame, already normalized: nothing is saved if nothing was newer.
  function AdoptStored(stored: GroupObject, incoming: GroupObject, now: real): GroupObject {
    if Newer(stored, incoming, now) then AdoptInto(Load(stored), incoming, now) else stored
  }

  // On objects without repeated keys the loop is the adoption of maps.
  lemma {:induction false} AdoptIntoMap(local: GroupObject, incoming: GroupObject, now: real)
    requires Distinct(local) && Distinct(incoming)
    ensures var work := AdoptInto(local, incoming, now);
      && Distinct(work)
      && MapOf(work) == Adopt(MapOf(local), Frame(MapOf(incoming), now), GroupVersion, GroupBeats)
      && (work == local <==> MapOf(work) == MapOf(local))
    decreases |incoming|
  {
    hide GroupBeats, Takes, SetKey;
    if incoming == [] {
      AdoptEmpty(MapOf(local), now);
    } else {
      var n := |incoming| - 1;
      var (k, e) := incoming[n];
      AdoptIntoMap(local, incoming[..n], now);
      var work := AdoptInto(local, incoming[..n], now);
      MapOfHas(incoming[..n]);
      assert !HasKey(incoming[..n], k);
      AdoptMore(MapOf(local), MapOf(incoming[..n]), k, e, now, GroupVersion, GroupBeats);
      TakesLocally(MapOf(local), MapOf(work), k, e, now);
      SetKeyMap(work, k, e);
      if TakesGroup(MapOf(work), k, e, now) {
        StaysChanged(MapOf(local), MapOf(work), k, e);
      }
    }
  }

  lemma {:induction false} AdoptIntoOk(local: GroupObject, incoming: GroupObject, now: real)
    requires GroupsOk(local) && GroupsOk(incoming)
    ensures GroupsOk(AdoptInto(local, incoming, now))
    decreases |incoming|
  {
    hide GroupOk, SetKey, TakesGroup;
    if incoming != [] {
      var n := |incoming| - 1;
      assert GroupOk(incoming[n].0, incoming[n].1);
      AdoptIntoOk(local, incoming[..n], now);
      SetKeyOk(AdoptInto(local, incoming[..n], now), incoming[n].0, incoming[n].1);
    }
  }

  lemma AdoptEmpty(m: GroupMap, now: real)
    ensures Adopt(m, Frame(map[], now), GroupVersion, GroupBeats) == m
  {
  }

  // Whether an entry is taken depends on its own key alone, and one that is taken is new there.
  lemma TakesLocally(m: GroupMap, w: GroupMap, k: Text, e: Group, now: real)
    requires (k in w <==> k in m) && (k in m ==> w[k] == m[k])
    ensures TakesGroup(w, k, e, now) <==> TakesGroup(m, k, e, now)
    ensures TakesGroup(w, k, e, now) && k in m ==> m[k] != e
  {
    hide INHERITED;
    if e.n.Some? {
      LessIrreflexive(e.n.value);
    }
  }

  ghost predicate DistinctNames(listing: GroupListing) {
    forall i, j :: 0 <= i < j < |listing| ==> listing[i].0 != listing[j].0
  }

  lemma {:induction false} NormalizedDistinct(listing: GroupListing, n: nat)
    requires DistinctNames(listing) && n <= |listing|
    ensures var o := Groups(listing, n).0;
      Distinct(o) && forall i :: 0 <= i < |o| ==> exists j :: 0 <= j < n && listing[j].0 == o[i].0
  {
    hide GroupKey, CoerceGroup;
    if n > 0 {
      NormalizedDistinct(listing, n - 1);
    }
  }

  // What a load gives is an object of at most 512 well-formed entries, which further loads leave alone.
  lemma LoadKeeps(o: GroupObject)
    requires Distinct(o)
    ensures GroupsOk(Load(o)) && Distinct(Load(o)) && |Load(o)| <= GROUP_MAP_MAX_ENTRIES && Load(Load(o)) == Load(o)
    ensures GroupsOk(o) && |o| <= GROUP_MAP_MAX_ENTRIES ==> Load(o) == o
  {
    hide GroupOk, Groups;
    NormalizedDistinct(WrittenOut(o), |o|);
    NormalizedOk(WrittenOut(o), |o|);
    LoadCuts(Load(o));
    if GroupsOk(o) {
      LoadCuts(o);
    }
  }

  class GroupStore {
    var stored: GroupObject
    var broadcasts: seq<GroupObject>

    constructor ()
      ensures stored == [] && broadcasts == []
    {
      stored, broadcasts := [], [];
    }

    // The comparison the loop makes for one group name.
    static method IsNewer(work: GroupMap, name: Text, inEnt: Group) returns (newer: bool)
      ensures newer <==> if name in work then GroupBeats(inEnt, work[name]) else name !in INHERITED
    {
      if name !in work {
        return name !in INHERITED;
      }
      var cur := work[name];
      newer := inEnt.v > cur.v
        || (inEnt.v == cur.v && inEnt.removed && !cur.removed)
        || (inEnt.v == cur.v && inEnt.removed == cur.removed && inEnt.n.Some? && cur.n.Some?
          && Less(cur.n.value, inEnt.n.value));
    }

    // The stored object is loaded, the received one normalized, and the result saved and re-broadcast, loaded
    // again, only if some entry was newer.
    method AdoptGroups(frame: GroupListing, now: real)
      requires Distinct(stored) && DistinctNames(frame)
      modifies this
      ensures var incoming := Groups(frame, |frame|).0;
        && stored == AdoptStored(old(stored), incoming, now) && Distinct(stored)
        && broadcasts == old(broadcasts) + if Newer(old(stored), incoming, now) then [Load(stored)] else []
    {
      hide Load, Distinct, AdoptInto, Groups;
      LoadKeeps(stored);
      NormalizedDistinct(frame, |frame|);
      var incoming := NormalizeGroupMap(frame);
      var local := Load(stored);
      var work, changed := AdoptEntries(local, incoming, now);
      AdoptIntoMap(local, incoming, now);
      if !changed {
        return;
      }
      stored := work;
      broadcasts := broadcasts + [Load(stored)];
    }

    static method AdoptEntries(local: GroupObject, incoming: GroupObject, now: real)
      returns (work: GroupObject, changed: bool)
      requires Distinct(local) && Distinct(incoming)
      ensures work == AdoptInto(local, incoming, now) && (changed <==> work != local)
    {
      hide GroupBeats, INHERITED, MapOf, SetKey, AdoptInto, Distinct;
      work, changed := local, false;
      AdoptIntoNone(local, now);
      var maxV := now + MAX_FUTURE_MS;
      for i := 0 to |incoming|
        invariant work == AdoptInto(local, incoming[..i], now)
        invariant changed <==> work != local
      {
        var (name, inEnt) := incoming[i];
        NextEntry(local, incoming, i, now);
        if inEnt.v > maxV {
          continue;
        }
        var newer := IsNewer(MapOf(work), name, inEnt);
        if newer {
          work := SetKey(work, name, inEnt);
          changed := true;
        }
      }
      assert incoming[..|incoming|] == incoming;
    }
  }

  lemma PrefixDistinct(o: GroupObject, i: nat)
    requires Distinct(o) && i <= |o|
    ensures Distinct(o[..i])
  {
  }

  lemma AdoptIntoNone(local: GroupObject, now: real)
    ensures AdoptInto(local, [], now) == local
  {
  }

  // One entry of the loop: an entry that is taken changes the object, and a changed object stays changed.
  lemma NextEntry(local: GroupObject, incoming: GroupObject, i: nat, now: real)
    requires Distinct(local) && Distinct(incoming) && i < |incoming|
    ensures var before, after := AdoptInto(local, incoming[..i], now), AdoptInto(local, incoming[..i + 1], now);
      var taken := TakesGroup(MapOf(before), incoming[i].0, incoming[i].1, now);
      && after == (if taken then SetKey(before, incoming[i].0, incoming[i].1) else before)
      && (after != local <==> before != local || taken)
  {
    hide GroupBeats, Takes, SetKey;
    assert incoming[..i + 1][..i] == incoming[..i];
    PrefixDistinct(incoming, i);
    PrefixDistinct(incoming, i + 1);
    AdoptIntoMap(local, incoming[..i], now);
    AdoptIntoMap(local, incoming[..i + 1], now);
    var before := AdoptInto(local, incoming[..i], now);
    var (k, e) := incoming[i];
    MapOfHas(incoming[..i]);
    assert !HasKey(incoming[..i], k);
    AdoptMore(MapOf(local), MapOf(incoming[..i]), k, e, now, GroupVersion, GroupBeats);
    TakesLocally(MapOf(local), MapOf(before), k, e, now);
    if TakesGroup(MapOf(before), k, e, now) {
      SetKeyMap(before, k, e);
      StaysChanged(MapOf(local), MapOf(before), k, e);
    }
  }
}
