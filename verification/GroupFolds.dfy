// What folding group frames into the stored object comes to: with at most 512 names in all, the fold of the
// maps; and exactly when the order of frames can show in a label.
module GroupFolds {
  import opened FiniteSets
  import opened Wrappers
  import opened Units
  import opened Normalize
  import opened Lww
  import opened GroupLists

  // ---- Folding maps --------------------------------------------------------------------------------------

  ghost function FoldGroups(local: GroupMap, frames: seq<Frame<Group>>): GroupMap {
    Fold(local, frames, GroupVersion, GroupBeats)
  }

  ghost predicate GroupCandidate(local: GroupMap, frames: seq<Frame<Group>>, key: Text, e: Group) {
    Candidate(local, frames, key, e, GroupVersion)
  }

  predicate NotAbove(d: Group, e: Group) {
    d.v < e.v || (d.v == e.v && (d.removed ==> e.removed))
  }

  // The candidates of highest (version, removed).
  ghost predicate TopCandidate(local: GroupMap, frames: seq<Frame<Group>>, key: Text, e: Group) {
    GroupCandidate(local, frames, key, e) && forall d :: GroupCandidate(local, frames, key, d) ==> NotAbove(d, e)
  }

  // The fold ends at a top candidate that no other label beats.
  lemma TopOfFold(local: GroupMap, frames: seq<Frame<Group>>, key: Text)
    requires key in local || key !in INHERITED
    ensures var r := FoldGroups(local, frames);
      && (key in r <==> exists e :: GroupCandidate(local, frames, key, e))
      && (key in r ==>
            && TopCandidate(local, frames, key, r[key])
            && forall e :: GroupCandidate(local, frames, key, e) ==> !GroupBeats(e, r[key]))
  {
    GroupBeatsStrict();
    FoldIsMaximal(local, frames, key, GroupVersion, GroupBeats);
    var r := FoldGroups(local, frames);
    if key in r {
      assert GroupCandidate(local, frames, key, r[key]);
      forall d | GroupCandidate(local, frames, key, d)
        ensures NotAbove(d, r[key])
      {
        assert !GroupBeats(d, r[key]);
      }
    }
  }

  // Folds with the same candidates agree on the label once they agree on carrying one.
  lemma FoldsAgree(l1: GroupMap, f1: seq<Frame<Group>>, l2: GroupMap, f2: seq<Frame<Group>>, key: Text)
    requires (key in l1 && key in l2) || key !in INHERITED
    requires forall e :: GroupCandidate(l1, f1, key, e) <==> GroupCandidate(l2, f2, key, e)
    ensures var r1, r2 := FoldGroups(l1, f1), FoldGroups(l2, f2);
      && (key in r1 <==> key in r2)
      && (key in r1 ==>
            && TopCandidate(l1, f1, key, r1[key]) && TopCandidate(l1, f1, key, r2[key])
            && r1[key].v == r2[key].v && r1[key].removed == r2[key].removed
            && (r1[key].n.Some? == r2[key].n.Some? ==> r1[key].n == r2[key].n))
  {
    hide GroupCandidate, FoldGroups;
    TopOfFold(l1, f1, key);
    TopOfFold(l2, f2, key);
    var r1, r2 := FoldGroups(l1, f1), FoldGroups(l2, f2);
    if key in r1 {
      var a, b := r1[key], r2[key];
      assert GroupCandidate(l1, f1, key, b) && GroupCandidate(l2, f2, key, a);
      if a.n.Some? && b.n.Some? {
        LessTotal(a.n.value, b.n.value);
      }
    }
  }

  // ---- When the order of frames shows ----------------------------------------------------------------------

  ghost predicate TopsAgree(local: GroupMap, frames: seq<Frame<Group>>, key: Text) {
    forall a, b :: TopCandidate(local, frames, key, a) && TopCandidate(local, frames, key, b) ==> a.n.Some? == b.n.Some?
  }

  ghost predicate StartsOnTop(local: GroupMap, frames: seq<Frame<Group>>, key: Text) {
    key in local && TopCandidate(local, frames, key, local[key])
  }

  // From a top entry on, whether there is a label never changes.
  lemma {:induction false} KindFixed(local: GroupMap, frames: seq<Frame<Group>>, key: Text)
    requires StartsOnTop(local, frames, key)
    ensures var r := FoldGroups(local, frames);
      key in r && r[key].n.Some? == local[key].n.Some? && r[key].v == local[key].v
        && r[key].removed == local[key].removed
    decreases |frames|
  {
    hide Candidate, InTime;
    if frames != [] {
      var n := |frames| - 1;
      var last := frames[n];
      forall e
        ensures GroupCandidate(local, frames, key, e) <==>
          || GroupCandidate(local, frames[..n], key, e)
          || (key in last.entries && last.entries[key] == e && InTime(e, GroupVersion, last.now))
      {
        CandidateGrows(local, frames, key, e, GroupVersion);
      }
      StartIsCandidate(local, frames[..n], key);
      KindFixed(local, frames[..n], key);
      AdoptAt(FoldGroups(local, frames[..n]), last, key, GroupVersion, GroupBeats);
    }
  }

  lemma StartIsCandidate(local: GroupMap, frames: seq<Frame<Group>>, key: Text)
    requires key in local
    ensures GroupCandidate(local, frames, key, local[key])
  {
  }

  lemma {:induction false} FoldFront(local: GroupMap, f: Frame<Group>, rest: seq<Frame<Group>>)
    ensures FoldGroups(local, [f] + rest) == FoldGroups(Adopt(local, f, GroupVersion, GroupBeats), rest)
    decreases |rest|
  {
    hide Adopt;
    if rest == [] {
      assert [f] + rest == [f] && [f][..0] == [];
      assert FoldGroups(local, [f]) == Adopt(FoldGroups(local, [f][..0]), f, GroupVersion, GroupBeats);
    } else {
      var n := |rest| - 1;
      FoldFront(local, f, rest[..n]);
      assert ([f] + rest)[..n + 1] == [f] + rest[..n];
    }
  }

  // The same frames, in any order and repetition.
  ghost predicate SameFrames(p: seq<Frame<Group>>, q: seq<Frame<Group>>) {
    forall f :: f in p <==> f in q
  }

  lemma SameCandidates(local: GroupMap, p: seq<Frame<Group>>, q: seq<Frame<Group>>, key: Text, e: Group)
    requires (forall f :: f in p ==> f in q) && GroupCandidate(local, p, key, e)
    ensures GroupCandidate(local, q, key, e)
  {
    if !(key in local && local[key] == e) {
      var i :| 0 <= i < |p| && key in p[i].entries && p[i].entries[key] == e && InTime(e, GroupVersion, p[i].now);
      assert p[i] in q;
      var j :| 0 <= j < |q| && q[j] == p[i];
    }
  }

  ghost predicate SameLabel(local: GroupMap, p: seq<Frame<Group>>, q: seq<Frame<Group>>, key: Text) {
    var r, t := FoldGroups(local, p), FoldGroups(local, q);
    (key in r <==> key in t) && (key in r ==> r[key].n == t[key].n)
  }

  lemma OrderDoesNotShow(local: GroupMap, p: seq<Frame<Group>>, q: seq<Frame<Group>>, key: Text)
    requires (key in local || key !in INHERITED) && SameFrames(p, q)
    requires StartsOnTop(local, q, key) || TopsAgree(local, q, key)
    ensures SameLabel(local, p, q, key)
  {
    hide GroupCandidate, FoldGroups;
    forall e
      ensures GroupCandidate(local, p, key, e) <==> GroupCandidate(local, q, key, e)
    {
      if GroupCandidate(local, p, key, e) {
        SameCandidates(local, p, q, key, e);
      }
      if GroupCandidate(local, q, key, e) {
        SameCandidates(local, q, p, key, e);
      }
    }
    FoldsAgree(local, q, local, p, key);
    if StartsOnTop(local, q, key) {
      KindFixed(local, q, key);
      KindFixed(local, p, key);
    }
  }

  function Without(frames: seq<Frame<Group>>, i: nat): seq<Frame<Group>>
    requires i < |frames|
  {
    frames[..i] + frames[i + 1..]
  }

  // Unless the start is itself on top, whichever top entry comes first decides whether there is a label.
  lemma FirstDecides(local: GroupMap, frames: seq<Frame<Group>>, key: Text, i: nat, a: Group)
    requires (key in local || key !in INHERITED) && !StartsOnTop(local, frames, key)
      && TopCandidate(local, frames, key, a)
    requires i < |frames| && key in frames[i].entries && frames[i].entries[key] == a
      && InTime(a, GroupVersion, frames[i].now)
    ensures var r := FoldGroups(local, [frames[i]] + Without(frames, i)); key in r && r[key].n.Some? == a.n.Some?
  {
    hide InTime, FoldGroups, INHERITED;
    var rest := Without(frames, i);
    var first := Adopt(local, frames[i], GroupVersion, GroupBeats);
    AdoptAt(local, frames[i], key, GroupVersion, GroupBeats);
    if key in local {
      assert GroupCandidate(local, frames, key, local[key]);
      assert NotAbove(local[key], a);
    }
    assert key in first && first[key] == a;
    forall d | GroupCandidate(first, rest, key, d)
      ensures NotAbove(d, a)
    {
      FromRest(local, first, frames, i, key, d);
    }
    assert GroupCandidate(first, rest, key, a);
    KindFixed(first, rest, key);
    FoldFront(local, frames[i], rest);
  }

  lemma FromRest(local: GroupMap, first: GroupMap, frames: seq<Frame<Group>>, i: nat, key: Text, d: Group)
    requires i < |frames| && key in first && GroupCandidate(first, Without(frames, i), key, d)
    ensures d == first[key] || GroupCandidate(local, frames, key, d)
  {
    if d != first[key] {
      var rest := Without(frames, i);
      var j :| 0 <= j < |rest| && key in rest[j].entries && rest[j].entries[key] == d
        && InTime(d, GroupVersion, rest[j].now);
      assert frames[if j < i then j else j + 1] == rest[j];
    }
  }

  // Otherwise the order shows: some frame, moved to the front, changes the label.
  lemma OrderShows(local: GroupMap, frames: seq<Frame<Group>>, key: Text) returns (i: nat)
    requires key in local || key !in INHERITED
    requires !StartsOnTop(local, frames, key) && !TopsAgree(local, frames, key)
    ensures i < |frames| && !SameLabel(local, [frames[i]] + Without(frames, i), frames, key)
  {
    hide GroupCandidate, FoldGroups, INHERITED;
    var a, b :| TopCandidate(local, frames, key, a) && TopCandidate(local, frames, key, b) && a.n.Some? != b.n.Some?;
    var x := Carrier(local, frames, key, a);
    var y := Carrier(local, frames, key, b);
    FirstDecides(local, frames, key, x, a);
    FirstDecides(local, frames, key, y, b);
    i := if SameLabel(local, [frames[x]] + Without(frames, x), frames, key) then y else x;
  }

  // A top candidate that is not the start came in some frame.
  lemma Carrier(local: GroupMap, frames: seq<Frame<Group>>, key: Text, a: Group) returns (i: nat)
    requires !StartsOnTop(local, frames, key) && TopCandidate(local, frames, key, a)
    ensures i < |frames| && key in frames[i].entries && frames[i].entries[key] == a
      && InTime(a, GroupVersion, frames[i].now)
  {
    var j :| 0 <= j < |frames| && key in frames[j].entries && frames[j].entries[key] == a
      && InTime(a, GroupVersion, frames[j].now);
    i := j;
  }

  // ---- Folding into the stored object ---------------------------------------------------------------------

  // A received frame, normalized, and the receiver's clock at the time.
  datatype Received = Received(entries: GroupObject, now: real)

  ghost predicate FrameOk(f: Received) {
    Distinct(f.entries) && GroupsOk(f.entries)
  }

  ghost predicate FramesOk(frames: seq<Received>) {
    forall i :: 0 <= i < |frames| ==> FrameOk(frames[i])
  }

  function FrameOf(f: Received): Frame<Group> {
    Frame(MapOf(f.entries), f.now)
  }

  function FramesOf(frames: seq<Received>): (r: seq<Frame<Group>>)
    ensures |r| == |frames|
    ensures forall i :: 0 <= i < |frames| ==> r[i] == FrameOf(frames[i])
  {
    seq(|frames|, i requires 0 <= i < |frames| => FrameOf(frames[i]))
  }

  function FoldStored(stored: GroupObject, frames: seq<Received>): GroupObject {
    if frames == [] then stored
    else AdoptStored(FoldStored(stored, frames[..|frames| - 1]), frames[|frames| - 1].entries, frames[|frames| - 1].now)
  }

  // What the device reads back after the frames.
  function Final(stored: GroupObject, frames: seq<Received>): GroupMap {
    MapOf(Load(FoldStored(stored, frames)))
  }

  ghost function NewKeys(f: Received): set<Text> {
    set k | k in MapOf(f.entries) && k !in INHERITED && InTime(MapOf(f.entries)[k], GroupVersion, f.now)
  }

  // Every name there is an entry for: at the start, or received in time under a name that can be adopted.
  ghost function AllKeys(stored: GroupObject, frames: seq<Received>): set<Text> {
    if frames == [] then MapOf(Load(stored)).Keys
    else AllKeys(stored, frames[..|frames| - 1]) + NewKeys(frames[|frames| - 1])
  }

  lemma AdoptKeys(m: GroupMap, f: Received)
    requires FrameOk(f)
    ensures Adopt(m, FrameOf(f), GroupVersion, GroupBeats).Keys == m.Keys + NewKeys(f)
  {
    hide InTime, GroupBeats, INHERITED, MapOf, GroupOk;
    MapOfHas(f.entries);
    forall k
      ensures k in Adopt(m, FrameOf(f), GroupVersion, GroupBeats) <==> k in m || k in NewKeys(f)
    {
      AdoptAt(m, FrameOf(f), k, GroupVersion, GroupBeats);
    }
  }

  // One frame, while there is room: loading what is stored gives the adopted map.
  lemma StoredStep(stored: GroupObject, f: Received)
    requires Distinct(stored) && FrameOk(f)
    requires |MapOf(Load(stored)).Keys + NewKeys(f)| <= GROUP_MAP_MAX_ENTRIES
    ensures Distinct(AdoptStored(stored, f.entries, f.now))
    ensures MapOf(Load(AdoptStored(stored, f.entries, f.now)))
         == Adopt(MapOf(Load(stored)), FrameOf(f), GroupVersion, GroupBeats)
  {
    hide Load, Distinct, GroupsOk, MapOf, AdoptInto, Adopt;
    var local := Load(stored);
    LoadKeeps(stored);
    AdoptIntoMap(local, f.entries, f.now);
    AdoptIntoOk(local, f.entries, f.now);
    AdoptKeys(MapOf(local), f);
    var work := AdoptInto(local, f.entries, f.now);
    MapOfHas(work);
    assert |MapOf(work)| == |MapOf(work).Keys|;
    LoadKeeps(work);
  }

  // With at most 512 names in all, folding into the stored object is folding maps, and no name is lost.
  lemma {:induction false} FoldWithin(stored: GroupObject, frames: seq<Received>)
    requires Distinct(stored) && FramesOk(frames) && |AllKeys(stored, frames)| <= GROUP_MAP_MAX_ENTRIES
    ensures Distinct(FoldStored(stored, frames))
    ensures Final(stored, frames) == FoldGroups(MapOf(Load(stored)), FramesOf(frames))
    ensures Final(stored, frames).Keys == AllKeys(stored, frames)
    decreases |frames|
  {
    hide Load, Distinct, MapOf, AdoptStored, Adopt, NewKeys, FrameOk, FrameOf;
    if frames != [] {
      var n := |frames| - 1;
      SubsetSize(AllKeys(stored, frames[..n]), AllKeys(stored, frames));
      FoldWithin(stored, frames[..n]);
      StoredStep(FoldStored(stored, frames[..n]), frames[n]);
      AdoptKeys(Final(stored, frames[..n]), frames[n]);
      assert FramesOf(frames)[..n] == FramesOf(frames[..n]);
    }
  }

  lemma {:induction false} FoldDistinct(stored: GroupObject, frames: seq<Received>)
    requires Distinct(stored) && FramesOk(frames)
    ensures Distinct(FoldStored(stored, frames))
    decreases |frames|
  {
    hide Load, Distinct, AdoptInto, GroupsOk;
    if frames != [] {
      var n := |frames| - 1;
      FoldDistinct(stored, frames[..n]);
      LoadKeeps(FoldStored(stored, frames[..n]));
      assert FrameOk(frames[n]);
      AdoptIntoMap(Load(FoldStored(stored, frames[..n])), frames[n].entries, frames[n].now);
    }
  }

  // The ceiling, exactly: every name there is an entry for can be read back if and only if there are at most
  // 512 of them.
  lemma GroupNamesSurviveIff(stored: GroupObject, frames: seq<Received>)
    requires Distinct(stored) && FramesOk(frames)
    ensures AllKeys(stored, frames) <= Final(stored, frames).Keys
      <==> |AllKeys(stored, frames)| <= GROUP_MAP_MAX_ENTRIES
  {
    hide Load, Distinct, MapOf, FramesOk, AllKeys, FoldStored;
    if |AllKeys(stored, frames)| <= GROUP_MAP_MAX_ENTRIES {
      FoldWithin(stored, frames);
    }
    if AllKeys(stored, frames) <= Final(stored, frames).Keys {
      FoldDistinct(stored, frames);
      LoadKeeps(FoldStored(stored, frames));
      MapOfHas(Load(FoldStored(stored, frames)));
      SubsetSize(AllKeys(stored, frames), Final(stored, frames).Keys);
      assert |Final(stored, frames)| == |Final(stored, frames).Keys|;
    }
  }

  // ---- The results on the stored object --------------------------------------------------------------------

  ghost predicate StoredCandidate(stored: GroupObject, frames: seq<Received>, key: Text, e: Group) {
    GroupCandidate(MapOf(Load(stored)), FramesOf(frames), key, e)
  }

  ghost predicate StoredTop(stored: GroupObject, frames: seq<Received>, key: Text, e: Group) {
    TopCandidate(MapOf(Load(stored)), FramesOf(frames), key, e)
  }

  ghost predicate Folds(stored: GroupObject, frames: seq<Received>) {
    Distinct(stored) && FramesOk(frames) && |AllKeys(stored, frames)| <= GROUP_MAP_MAX_ENTRIES
  }

  // Each name ends at a candidate of greatest version and removal that no other label beats, and is there
  // exactly when it has a candidate.
  lemma GroupsFoldToTop(stored: GroupObject, frames: seq<Received>, key: Text)
    requires Folds(stored, frames) && (key in MapOf(Load(stored)) || key !in INHERITED)
    ensures var r := Final(stored, frames);
      && (key in r <==> exists e :: StoredCandidate(stored, frames, key, e))
      && (key in r ==>
            && StoredTop(stored, frames, key, r[key])
            && forall e :: StoredCandidate(stored, frames, key, e) ==> !GroupBeats(e, r[key]))
  {
    hide Load, MapOf, FoldGroups, GroupCandidate, TopCandidate, FramesOf, GroupBeats, INHERITED, AllKeys;
    FoldWithin(stored, frames);
    TopOfFold(MapOf(Load(stored)), FramesOf(frames), key);
    if e :| GroupCandidate(MapOf(Load(stored)), FramesOf(frames), key, e) {
      assert StoredCandidate(stored, frames, key, e);
    }
  }

  // Replicas with the same candidates always agree on version and removal; they agree on the label as well
  // when the top candidates agree on whether they carry one.
  lemma GroupReplicasAgree(s1: GroupObject, f1: seq<Received>, s2: GroupObject, f2: seq<Received>, key: Text)
    requires Folds(s1, f1) && Folds(s2, f2)
    requires (key in MapOf(Load(s1)) && key in MapOf(Load(s2))) || key !in INHERITED
    requires forall e :: StoredCandidate(s1, f1, key, e) <==> StoredCandidate(s2, f2, key, e)
    ensures var r1, r2 := Final(s1, f1), Final(s2, f2);
      && (key in r1 <==> key in r2)
      && (key in r1 ==> r1[key].v == r2[key].v && r1[key].removed == r2[key].removed)
      && (key in r1 && TopsAgree(MapOf(Load(s1)), FramesOf(f1), key) ==> r1[key].n == r2[key].n)
  {
    hide Load, MapOf, FoldGroups, GroupCandidate, TopCandidate, FramesOf, INHERITED, AllKeys;
    FoldWithin(s1, f1);
    FoldWithin(s2, f2);
    var l1, l2, g1, g2 := MapOf(Load(s1)), MapOf(Load(s2)), FramesOf(f1), FramesOf(f2);
    forall e
      ensures GroupCandidate(l1, g1, key, e) <==> GroupCandidate(l2, g2, key, e)
    {
      assert StoredCandidate(s1, f1, key, e) <==> StoredCandidate(s2, f2, key, e);
    }
    FoldsAgree(l1, g1, l2, g2, key);
  }

  // Whether any rearrangement of the frames leaves the label as it is.
  ghost predicate SameFinalLabel(stored: GroupObject, p: seq<Received>, q: seq<Received>, key: Text) {
    var r, t := Final(stored, p), Final(stored, q);
    (key in r <==> key in t) && (key in r ==> r[key].n == t[key].n)
  }

  ghost predicate Rearranged(p: seq<Received>, q: seq<Received>) {
    multiset(p) == multiset(q)
  }

  // The order of frames never shows in a name's label if and only if the starting entry is itself on top, or
  // the top candidates agree on carrying a label; and then repetition does not show either.
  lemma GroupOrderMatters(stored: GroupObject, frames: seq<Received>, key: Text)
    requires Folds(stored, frames) && (key in MapOf(Load(stored)) || key !in INHERITED)
    ensures (forall p :: Rearranged(p, frames) ==> SameFinalLabel(stored, p, frames, key))
       <==> (|| StartsOnTop(MapOf(Load(stored)), FramesOf(frames), key)
             || TopsAgree(MapOf(Load(stored)), FramesOf(frames), key))
  {
    hide Load, MapOf, FoldGroups, StartsOnTop, TopsAgree, FramesOf, INHERITED, SameFinalLabel, Folds;
    if StartsOnTop(MapOf(Load(stored)), FramesOf(frames), key)
      || TopsAgree(MapOf(Load(stored)), FramesOf(frames), key) {
      forall p | Rearranged(p, frames)
        ensures SameFinalLabel(stored, p, frames, key)
      {
        RearrangedFrames(p, frames);
        StoredOrderDoesNotShow(stored, p, frames, key);
      }
    } else {
      var i := OrderShows(MapOf(Load(stored)), FramesOf(frames), key);
      StoredOrderShows(stored, frames, key, i);
    }
  }

  lemma RearrangedFrames(p: seq<Received>, q: seq<Received>)
    requires Rearranged(p, q)
    ensures forall f :: f in p <==> f in q
  {
    forall f
      ensures f in p <==> f in q
    {
      assert f in multiset(p) <==> f in p;
      assert f in multiset(q) <==> f in q;
    }
  }

  // The same frames have the same names, whatever their order and repetition.
  lemma {:induction false} KeysFrom(stored: GroupObject, p: seq<Received>, q: seq<Received>)
    requires forall f :: f in p ==> f in q
    ensures AllKeys(stored, p) <= AllKeys(stored, q)
    decreases |p|
  {
    hide NewKeys, MapOf, Load;
    if p == [] {
      KeysIncluded(stored, q);
    } else {
      var n := |p| - 1;
      assert p[n] in q;
      KeysFrom(stored, p[..n], q);
      FrameKeysIncluded(stored, q, p[n]);
    }
  }

  lemma {:induction false} KeysIncluded(stored: GroupObject, q: seq<Received>)
    ensures MapOf(Load(stored)).Keys <= AllKeys(stored, q)
    decreases |q|
  {
    hide NewKeys, MapOf, Load;
    if q != [] {
      KeysIncluded(stored, q[..|q| - 1]);
    }
  }

  lemma {:induction false} FrameKeysIncluded(stored: GroupObject, q: seq<Received>, f: Received)
    requires f in q
    ensures NewKeys(f) <= AllKeys(stored, q)
    decreases |q|
  {
    hide NewKeys, MapOf, Load;
    if f != q[|q| - 1] {
      assert q == q[..|q| - 1] + [q[|q| - 1]];
      FrameKeysIncluded(stored, q[..|q| - 1], f);
    }
  }

  lemma SameFolds(stored: GroupObject, p: seq<Received>, q: seq<Received>)
    requires Folds(stored, q) && forall f :: f in p ==> f in q
    ensures Folds(stored, p)
  {
    hide Distinct, AllKeys, FrameOk;
    KeysFrom(stored, p, q);
    SubsetSize(AllKeys(stored, p), AllKeys(stored, q));
    forall i | 0 <= i < |p|
      ensures FrameOk(p[i])
    {
      assert p[i] in q;
    }
  }

  lemma StoredOrderDoesNotShow(stored: GroupObject, p: seq<Received>, q: seq<Received>, key: Text)
    requires Folds(stored, q) && (key in MapOf(Load(stored)) || key !in INHERITED) && (forall f :: f in p <==> f in q)
    requires StartsOnTop(MapOf(Load(stored)), FramesOf(q), key) || TopsAgree(MapOf(Load(stored)), FramesOf(q), key)
    ensures SameFinalLabel(stored, p, q, key)
  {
    hide Load, MapOf, FoldGroups, StartsOnTop, TopsAgree, INHERITED, FrameOf;
    SameFolds(stored, p, q);
    FoldWithin(stored, p);
    FoldWithin(stored, q);
    SameFramesOf(p, q);
    SameFramesOf(q, p);
    OrderDoesNotShow(MapOf(Load(stored)), FramesOf(p), FramesOf(q), key);
  }

  lemma SameFramesOf(p: seq<Received>, q: seq<Received>)
    requires forall f :: f in p ==> f in q
    ensures forall g :: g in FramesOf(p) ==> g in FramesOf(q)
  {
    hide FrameOf;
    forall g | g in FramesOf(p)
      ensures g in FramesOf(q)
    {
      var i :| 0 <= i < |p| && FramesOf(p)[i] == g;
      assert p[i] in q;
      var j :| 0 <= j < |q| && q[j] == p[i];
      assert FramesOf(q)[j] == g;
    }
  }

  lemma StoredOrderShows(stored: GroupObject, frames: seq<Received>, key: Text, i: nat)
    requires Folds(stored, frames) && i < |frames|
    requires var g := FramesOf(frames); !SameLabel(MapOf(Load(stored)), [g[i]] + Without(g, i), g, key)
    ensures exists p :: Rearranged(p, frames) && !SameFinalLabel(stored, p, frames, key)
  {
    hide Load, MapOf, FoldGroups, FrameOf, Folds, SameLabel;
    var p := ToFront(frames, i);
    FrontRearranged(frames, i);
    RearrangedFrames(p, frames);
    SameFolds(stored, p, frames);
    FoldsFinal(stored, p);
    FoldsFinal(stored, frames);
    assert FramesOf(p) == [FramesOf(frames)[i]] + Without(FramesOf(frames), i);
    LabelsTransfer(stored, p, frames, key);
  }

  function ToFront(frames: seq<Received>, i: nat): seq<Received>
    requires i < |frames|
  {
    [frames[i]] + (frames[..i] + frames[i + 1..])
  }

  lemma FrontRearranged(frames: seq<Received>, i: nat)
    requires i < |frames|
    ensures Rearranged(ToFront(frames, i), frames)
  {
    assert frames == frames[..i] + ([frames[i]] + frames[i + 1..]);
  }

  lemma FoldsFinal(stored: GroupObject, frames: seq<Received>)
    requires Folds(stored, frames)
    ensures Final(stored, frames) == FoldGroups(MapOf(Load(stored)), FramesOf(frames))
  {
    hide Load, MapOf, FoldGroups, FramesOf, Distinct, FramesOk, AllKeys;
    FoldWithin(stored, frames);
  }

  lemma LabelsTransfer(stored: GroupObject, p: seq<Received>, q: seq<Received>, key: Text)
    requires Final(stored, p) == FoldGroups(MapOf(Load(stored)), FramesOf(p))
    requires Final(stored, q) == FoldGroups(MapOf(Load(stored)), FramesOf(q))
    ensures SameFinalLabel(stored, p, q, key) <==> SameLabel(MapOf(Load(stored)), FramesOf(p), FramesOf(q), key)
  {
    hide Load, MapOf, FoldGroups, FramesOf, Final;
  }

  // ---- An example ---------------------------------------------------------------------------------------

  lemma TwoFrames(a: Group, b: Group, key: Text, now: real)
    requires key !in INHERITED && a.v <= now + MAX_FUTURE_MS && b.v <= now + MAX_FUTURE_MS
    ensures var ab := FoldGroups(map[], [Frame(map[key := a], now), Frame(map[key := b], now)]);
      key in ab && ab[key] == if GroupBeats(b, a) then b else a
  {
    hide INHERITED, GroupBeats;
    var fa, fb := Frame(map[key := a], now), Frame(map[key := b], now);
    assert [fa, fb][..1] == [fa] && [fa][..0] == [];
    assert Fold(map[], [fa][..0], GroupVersion, GroupBeats) == map[];
    var one := Fold(map[], [fa], GroupVersion, GroupBeats);
    assert key in one && one[key] == a;
  }

  // A label-carrying and a label-free rename of the same millisecond: whichever frame comes first stays.
  lemma GroupOrderExample()
    ensures var a, b := Group(1.0, false, 0.0, Some(Plain("Pals"))), Group(1.0, false, 0.0, None);
      var fa, fb := Frame(map[RK_DEFAULT := a], 0.0), Frame(map[RK_DEFAULT := b], 0.0);
      FoldGroups(map[], [fa, fb])[RK_DEFAULT].n == Some(Plain("Pals"))
        && FoldGroups(map[], [fb, fa])[RK_DEFAULT].n == None
  {
    var a, b := Group(1.0, false, 0.0, Some(Plain("Pals"))), Group(1.0, false, 0.0, None);
    TwoFrames(a, b, RK_DEFAULT, 0.0);
    TwoFrames(b, a, RK_DEFAULT, 0.0);
  }
}
