// Gossip of last-writer-wins maps among one user's devices. Every adoption that changes a map re-broadcasts
// the whole map to the other devices; frames are delivered in any order, at any delay.
module Gossip {
  import opened FiniteSets
  import opened Wrappers
  import opened Units
  import opened Normalize
  import opened Lww
  import opened BuddyLists

  datatype Packet<E> = Packet(to: nat, entries: map<Text, E>)

  datatype Net<E> = Net(maps: seq<map<Text, E>>, flight: seq<Packet<E>>)

  // One copy of a map for every device below `n` other than its author.
  function Copies<E>(author: nat, m: map<Text, E>, n: nat): seq<Packet<E>> {
    if n == 0 then []
    else Copies(author, m, n - 1) + if n - 1 == author then [] else [Packet(n - 1, m)]
  }

  // Some frame arrives: the receiver adopts, and re-broadcasts if anything changed.
  function Deliver<E(==)>(s: Net<E>, i: nat, now: real, version: E -> real, beats: (E, E) -> bool): Net<E>
    requires i < |s.flight| && s.flight[i].to < |s.maps|
  {
    var p := s.flight[i];
    var rest := s.flight[..i] + s.flight[i + 1..];
    var local := s.maps[p.to];
    var work := Adopt(local, Frame(p.entries, now), version, beats);
    if work == local then Net(s.maps, rest)
    else Net(s.maps[p.to := work], rest + Copies(p.to, work, |s.maps|))
  }

  // A local edit: the device's map becomes `m`, which it broadcasts.
  function Edit<E>(s: Net<E>, d: nat, m: map<Text, E>): Net<E>
    requires d < |s.maps|
  {
    Net(s.maps[d := m], s.flight + Copies(d, m, |s.maps|))
  }

  lemma {:induction false} CopiesReach<E>(author: nat, m: map<Text, E>, n: nat)
    ensures |Copies(author, m, n)| == if author < n then n - 1 else n
    ensures forall p :: p in Copies(author, m, n) <==> p.to < n && p.to != author && p.entries == m
  {
    if n > 0 {
      CopiesReach(author, m, n - 1);
    }
  }

  // ---- Termination ------------------------------------------------------------------------------------

  ghost predicate From<E>(m: map<Text, E>, u: set<(Text, E)>) {
    forall k :: k in m ==> (k, m[k]) in u
  }

  // Every entry held or in flight is one of `u`, and every frame has a receiver.
  ghost predicate Within<E>(s: Net<E>, u: set<(Text, E)>) {
    && (forall d :: 0 <= d < |s.maps| ==> From(s.maps[d], u))
    && (forall p :: p in s.flight ==> p.to < |s.maps| && From(p.entries, u))
  }

  predicate Improves<E>(m: map<Text, E>, x: (Text, E), beats: (E, E) -> bool) {
    x.0 in m ==> beats(x.1, m[x.0])
  }

  // What each device could still be raised to.
  ghost function Pending<E>(s: Net<E>, u: set<(Text, E)>, beats: (E, E) -> bool): set<(nat, (Text, E))> {
    set d: nat, x | d < |s.maps| && x in u && Improves(s.maps[d], x, beats) :: (d, x)
  }

  // Each pending improvement can cost one more frame to each other device.
  ghost function Budget<E>(s: Net<E>, u: set<(Text, E)>, beats: (E, E) -> bool): nat
    requires |s.maps| > 0
  {
    |s.flight| + (|s.maps| - 1) * |Pending(s, u, beats)|
  }

  lemma AdoptFrom<E>(local: map<Text, E>, f: Frame<E>, u: set<(Text, E)>, version: E -> real, beats: (E, E) -> bool)
    requires From(local, u) && From(f.entries, u)
    ensures From(Adopt(local, f, version, beats), u)
  {
  }

  // Adopting loses no improvement's room, and a change uses one up.
  lemma AdoptImproves<E(!new)>(local: map<Text, E>, f: Frame<E>, u: set<(Text, E)>,
                               version: E -> real, beats: (E, E) -> bool) returns (k: Text)
    requires StrictOrder(beats) && From(f.entries, u)
    ensures forall x :: Improves(Adopt(local, f, version, beats), x, beats) ==> Improves(local, x, beats)
    ensures Adopt(local, f, version, beats) != local ==>
      k in f.entries && (k, f.entries[k]) in u && Improves(local, (k, f.entries[k]), beats)
      && !Improves(Adopt(local, f, version, beats), (k, f.entries[k]), beats)
  {
    hide InTime, INHERITED;
    var work := Adopt(local, f, version, beats);
    forall x | Improves(work, x, beats)
      ensures Improves(local, x, beats)
    {
    }
    k := [];
    if work != local {
      k :| k in f.entries && Takes(local, k, f.entries[k], f.now, version, beats);
    }
  }

  lemma {:induction false} Product(n: nat, a: nat, b: nat)
    requires a < b
    ensures n * a + n <= n * b
  {
    if a + 1 == b {
      assert n * (a + 1) == n * a + n;
    } else {
      Product(n, a, b - 1);
      assert n * (b - 1) <= n * b;
    }
  }

  lemma DeliverWithin<E(!new)>(s: Net<E>, i: nat, now: real, u: set<(Text, E)>, version: E -> real,
                               beats: (E, E) -> bool)
    requires Within(s, u) && i < |s.flight|
    ensures s.flight[i].to < |s.maps|
    ensures Within(Deliver(s, i, now, version, beats), u)
    ensures |Deliver(s, i, now, version, beats).maps| == |s.maps|
  {
    hide Adopt, From, Copies;
    assert s.flight[i] in s.flight;
    var p := s.flight[i];
    AdoptFrom(s.maps[p.to], Frame(p.entries, now), u, version, beats);
    CopiesReach(p.to, Adopt(s.maps[p.to], Frame(p.entries, now), version, beats), |s.maps|);
  }

  // Every delivery spends at least one unit of the budget, whether it changes the receiver or not.
  lemma DeliverSpends<E(!new)>(s: Net<E>, i: nat, now: real, u: set<(Text, E)>, version: E -> real,
                               beats: (E, E) -> bool)
    requires StrictOrder(beats) && Within(s, u) && i < |s.flight| && s.flight[i].to < |s.maps|
    ensures |Deliver(s, i, now, version, beats).maps| == |s.maps|
    ensures Budget(Deliver(s, i, now, version, beats), u, beats) < Budget(s, u, beats)
  {
    hide Adopt, From, Copies, Improves, StrictOrder;
    assert s.flight[i] in s.flight;
    var p := s.flight[i];
    var work := Adopt(s.maps[p.to], Frame(p.entries, now), version, beats);
    var k := AdoptImproves(s.maps[p.to], Frame(p.entries, now), u, version, beats);
    var t := Deliver(s, i, now, version, beats);
    var before, after := Pending(s, u, beats), Pending(t, u, beats);
    assert after <= before;
    if work != s.maps[p.to] {
      CopiesReach(p.to, work, |s.maps|);
      var w := (k, p.entries[k]);
      assert (p.to, w) in before && (p.to, w) !in after;
      ProperSubsetSize(after, before, (p.to, w));
      Product(|s.maps| - 1, |after|, |before|);
    }
  }

  // Deliveries in any order: which frame, and the receiver's clock.
  datatype Arrival = Arrival(i: nat, now: real)

  ghost predicate Deliverable<E>(s: Net<E>, run: seq<Arrival>, version: E -> real, beats: (E, E) -> bool)
    decreases |run|
  {
    run == [] || (run[0].i < |s.flight| && s.flight[run[0].i].to < |s.maps|
                  && Deliverable(Deliver(s, run[0].i, run[0].now, version, beats), run[1..], version, beats))
  }

  // Once editing stops, no run of deliveries is longer than the budget, so re-broadcasting always ends.
  lemma {:induction false} GossipEnds<E(!new)>(s: Net<E>, run: seq<Arrival>, u: set<(Text, E)>,
                                              version: E -> real, beats: (E, E) -> bool)
    requires StrictOrder(beats) && Within(s, u) && |s.maps| > 0 && Deliverable(s, run, version, beats)
    ensures |run| <= Budget(s, u, beats)
    decreases |run|
  {
    hide StrictOrder, Within, Budget, Deliver;
    if run != [] {
      DeliverWithin(s, run[0].i, run[0].now, u, version, beats);
      DeliverSpends(s, run[0].i, run[0].now, u, version, beats);
      GossipEnds(Deliver(s, run[0].i, run[0].now, version, beats), run[1..], u, version, beats);
    }
  }

  lemma BuddyGossipEnds(s: Net<Buddy>, run: seq<Arrival>, u: set<(Text, Buddy)>)
    requires Within(s, u) && |s.maps| > 0 && Deliverable(s, run, BuddyVersion, Beats)
    ensures |run| <= |s.flight| + (|s.maps| - 1) * |Pending(s, u, Beats)|
  {
    hide Within, Deliverable;
    BeatsStrict();
    GossipEnds(s, run, u, BuddyVersion, Beats);
  }

  // ---- Convergence -------------------------------------------------------------------------------------

  // `ge` orders what the devices are to agree on, and adoption follows it among the entries of one key.
  ghost predicate Follows<E(!new)>(u: set<(Text, E)>, beats: (E, E) -> bool, ge: (E, E) -> bool) {
    && (forall a :: ge(a, a))
    && (forall a, b, c :: ge(a, b) && ge(b, c) ==> ge(a, c))
    && (forall k, a, b :: (k, a) in u && (k, b) in u ==> ge(if beats(a, b) then a else b, if beats(a, b) then b else a))
  }

  // Device `e` has, or has coming, an entry for `k` at least as high as `x`.
  ghost predicate Covers<E>(s: Net<E>, e: nat, k: Text, x: E, ge: (E, E) -> bool) {
    || (e < |s.maps| && k in s.maps[e] && ge(s.maps[e][k], x))
    || exists i :: Carries(s.flight, i, e, k, x, ge)
  }

  ghost predicate Carries<E>(flight: seq<Packet<E>>, i: int, e: nat, k: Text, x: E, ge: (E, E) -> bool) {
    0 <= i < |flight| && flight[i].to == e && k in flight[i].entries && ge(flight[i].entries[k], x)
  }

  ghost predicate Covered<E(!new)>(s: Net<E>, ge: (E, E) -> bool) {
    forall d: nat, e: nat, k :: d < |s.maps| && e < |s.maps| && k in s.maps[d] ==> Covers(s, e, k, s.maps[d][k], ge)
  }

  // No entry of the frame is refused as too far ahead of the receiver's clock although it would have won.
  ghost predicate NoneRefused<E>(local: map<Text, E>, entries: map<Text, E>, now: real, version: E -> real,
                                 beats: (E, E) -> bool) {
    forall k :: k in entries && !InTime(entries[k], version, now) ==> k in local && !beats(entries[k], local[k])
  }

  ghost predicate PlainKeys<E(!new)>(u: set<(Text, E)>) {
    forall x :: x in u ==> x.0 !in INHERITED
  }

  // An edit never takes a key below where it was.
  ghost predicate Raises<E>(old_: map<Text, E>, new_: map<Text, E>, ge: (E, E) -> bool) {
    forall k :: k in old_ ==> k in new_ && ge(new_[k], old_[k])
  }

  // What the receiver holds afterwards is at least its own old entry and at least the one received.
  lemma AdoptReaches<E(!new)>(local: map<Text, E>, f: Frame<E>, u: set<(Text, E)>, k: Text,
                              version: E -> real, beats: (E, E) -> bool, ge: (E, E) -> bool)
    requires From(local, u) && From(f.entries, u) && Follows(u, beats, ge) && PlainKeys(u)
    requires NoneRefused(local, f.entries, f.now, version, beats)
    ensures var work := Adopt(local, f, version, beats);
      && (k in local ==> k in work && ge(work[k], local[k]))
      && (k in f.entries ==> k in work && ge(work[k], f.entries[k]))
  {
    hide INHERITED, InTime;
    if k in f.entries {
      assert (k, f.entries[k]) in u;
    }
    if k in local {
      assert (k, local[k]) in u;
    }
  }

  lemma DeliverKeepsCover<E(!new)>(s: Net<E>, i: nat, now: real, u: set<(Text, E)>, e: nat, k: Text, x: E,
                                   version: E -> real, beats: (E, E) -> bool, ge: (E, E) -> bool)
    requires Within(s, u) && Follows(u, beats, ge) && PlainKeys(u) && e < |s.maps|
    requires i < |s.flight| && s.flight[i].to < |s.maps|
      && NoneRefused(s.maps[s.flight[i].to], s.flight[i].entries, now, version, beats)
    requires Covers(s, e, k, x, ge)
    ensures Covers(Deliver(s, i, now, version, beats), e, k, x, ge)
  {
    hide Adopt, From, Copies, PlainKeys, NoneRefused;
    var p, t := s.flight[i], Deliver(s, i, now, version, beats);
    assert p in s.flight;
    AdoptReaches(s.maps[p.to], Frame(p.entries, now), u, k, version, beats, ge);
    if k in s.maps[e] && ge(s.maps[e][k], x) {
      assert k in t.maps[e] && ge(t.maps[e][k], x);
    } else {
      var j :| Carries(s.flight, j, e, k, x, ge);
      if j == i {
        assert k in t.maps[e] && ge(t.maps[e][k], x);
      } else {
        var moved := if j < i then j else j - 1;
        assert t.flight[moved] == s.flight[j];
        assert Carries(t.flight, moved, e, k, x, ge);
      }
    }
  }

  // A device's freshly broadcast map covers itself everywhere.
  lemma BroadcastCovers<E(!new)>(s: Net<E>, d: nat, e: nat, k: Text, ge: (E, E) -> bool)
    requires d < |s.maps| && e < |s.maps| && k in s.maps[d] && ge(s.maps[d][k], s.maps[d][k])
    requires e != d ==> Packet(e, s.maps[d]) in s.flight
    ensures Covers(s, e, k, s.maps[d][k], ge)
  {
    if e != d {
      var i :| 0 <= i < |s.flight| && s.flight[i] == Packet(e, s.maps[d]);
      assert Carries(s.flight, i, e, k, s.maps[d][k], ge);
    }
  }

  lemma DeliverKeepsCovered<E(!new)>(s: Net<E>, i: nat, now: real, u: set<(Text, E)>,
                                     version: E -> real, beats: (E, E) -> bool, ge: (E, E) -> bool)
    requires Within(s, u) && Follows(u, beats, ge) && PlainKeys(u) && Covered(s, ge)
    requires i < |s.flight| && s.flight[i].to < |s.maps|
      && NoneRefused(s.maps[s.flight[i].to], s.flight[i].entries, now, version, beats)
    ensures Covered(Deliver(s, i, now, version, beats), ge)
  {
    hide Adopt, From, Copies, PlainKeys, NoneRefused, Covers, Within;
    var p, t := s.flight[i], Deliver(s, i, now, version, beats);
    var work := Adopt(s.maps[p.to], Frame(p.entries, now), version, beats);
    CopiesReach(p.to, work, |s.maps|);
    forall d: nat, e: nat, k | d < |t.maps| && e < |t.maps| && k in t.maps[d]
      ensures Covers(t, e, k, t.maps[d][k], ge)
    {
      if k in s.maps[d] && s.maps[d][k] == t.maps[d][k] {
        DeliverKeepsCover(s, i, now, u, e, k, s.maps[d][k], version, beats, ge);
      } else {
        assert e != d ==> Packet(e, t.maps[d]) in t.flight;
        BroadcastCovers(t, d, e, k, ge);
      }
    }
  }

  lemma EditKeepsCovered<E(!new)>(s: Net<E>, d: nat, m: map<Text, E>, u: set<(Text, E)>,
                                  beats: (E, E) -> bool, ge: (E, E) -> bool)
    requires Follows(u, beats, ge) && Covered(s, ge) && d < |s.maps| && Raises(s.maps[d], m, ge)
    ensures Covered(Edit(s, d, m), ge)
  {
    hide Copies;
    var t := Edit(s, d, m);
    CopiesReach(d, m, |s.maps|);
    forall f: nat, e: nat, k | f < |t.maps| && e < |t.maps| && k in t.maps[f]
      ensures Covers(t, e, k, t.maps[f][k], ge)
    {
      if f == d {
        assert e != d ==> Packet(e, m) in t.flight;
        BroadcastCovers(t, d, e, k, ge);
      } else {
        assert Covers(s, e, k, s.maps[f][k], ge);
        if i :| Carries(s.flight, i, e, k, s.maps[f][k], ge) {
          assert Carries(t.flight, i, e, k, s.maps[f][k], ge);
        }
      }
    }
  }

  datatype Step<E> = Arrive(i: nat, now: real) | Change(d: nat, m: map<Text, E>)

  ghost predicate Allowed<E>(s: Net<E>, a: Step<E>, u: set<(Text, E)>, version: E -> real, beats: (E, E) -> bool,
                              ge: (E, E) -> bool) {
    match a
    case Arrive(i, now) => i < |s.flight| && s.flight[i].to < |s.maps|
      && NoneRefused(s.maps[s.flight[i].to], s.flight[i].entries, now, version, beats)
    case Change(d, m) => d < |s.maps| && From(m, u) && Raises(s.maps[d], m, ge)
  }

  // The state after a run of edits and deliveries, if every step of it is allowed.
  ghost predicate Leads<E>(s: Net<E>, run: seq<Step<E>>, t: Net<E>, u: set<(Text, E)>,
                           version: E -> real, beats: (E, E) -> bool, ge: (E, E) -> bool)
    decreases |run|
  {
    if run == [] then s == t
    else
      && Allowed(s, run[0], u, version, beats, ge)
      && Leads(Next(s, run[0], version, beats), run[1..], t, u, version, beats, ge)
  }

  function Next<E(==)>(s: Net<E>, a: Step<E>, version: E -> real, beats: (E, E) -> bool): Net<E>
    requires a.Arrive? ==> a.i < |s.flight| && s.flight[a.i].to < |s.maps|
    requires a.Change? ==> a.d < |s.maps|
  {
    match a
    case Arrive(i, now) => Deliver(s, i, now, version, beats)
    case Change(d, m) => Edit(s, d, m)
  }

  lemma EditWithin<E(!new)>(s: Net<E>, d: nat, m: map<Text, E>, u: set<(Text, E)>)
    requires Within(s, u) && d < |s.maps| && From(m, u)
    ensures Within(Edit(s, d, m), u)
  {
    hide Copies, From;
    CopiesReach(d, m, |s.maps|);
  }

  lemma {:induction false} RunKeepsCovered<E(!new)>(s: Net<E>, run: seq<Step<E>>, t: Net<E>, u: set<(Text, E)>,
                                                   version: E -> real, beats: (E, E) -> bool, ge: (E, E) -> bool)
    requires Within(s, u) && Follows(u, beats, ge) && PlainKeys(u) && Covered(s, ge)
    requires Leads(s, run, t, u, version, beats, ge)
    ensures Covered(t, ge) && |t.maps| == |s.maps|
    decreases |run|
  {
    hide Within, Follows, PlainKeys, Covered, NoneRefused, From, Raises;
    if run != [] {
      match run[0]
      case Arrive(i, now) =>
        DeliverWithin(s, i, now, u, version, beats);
        DeliverKeepsCovered(s, i, now, u, version, beats, ge);
        RunKeepsCovered(Deliver(s, i, now, version, beats), run[1..], t, u, version, beats, ge);
      case Change(d, m) =>
        EditWithin(s, d, m, u);
        EditKeepsCovered(s, d, m, u, beats, ge);
        RunKeepsCovered(Edit(s, d, m), run[1..], t, u, version, beats, ge);
    }
  }

  // Devices that start alike, after any run of raising edits and deliveries that refuse no winner, agree on every key
  // whenever nothing is in flight.
  lemma QuietDevicesAgree<E(!new)>(n: nat, start: map<Text, E>, run: seq<Step<E>>, t: Net<E>, u: set<(Text, E)>,
                                   version: E -> real, beats: (E, E) -> bool, ge: (E, E) -> bool,
                                   d: nat, e: nat, k: Text)
    requires From(start, u) && Follows(u, beats, ge) && PlainKeys(u)
    requires Leads(Net(seq(n, _ => start), []), run, t, u, version, beats, ge)
    requires t.flight == [] && d < n && e < n
    ensures |t.maps| == n && (k in t.maps[d] <==> k in t.maps[e])
    ensures k in t.maps[d] ==> ge(t.maps[d][k], t.maps[e][k]) && ge(t.maps[e][k], t.maps[d][k])
  {
    hide From, Leads, PlainKeys;
    var s := Net(seq(n, _ => start), []);
    RunKeepsCovered(s, run, t, u, version, beats, ge);
    assert k in t.maps[d] ==> Covers(t, e, k, t.maps[d][k], ge);
    assert k in t.maps[e] ==> Covers(t, d, k, t.maps[e][k], ge);
  }

  predicate AtLeast(a: Buddy, b: Buddy) {
    !Beats(b, a)
  }

  lemma BuddiesFollow(u: set<(Text, Buddy)>)
    ensures Follows(u, Beats, AtLeast)
  {
    hide Beats;
    BeatsStrict();
    forall a, b, c | AtLeast(a, b) && AtLeast(b, c)
      ensures AtLeast(a, c)
    {
      AtLeastTransitive(c, b, a);
    }
    forall a, b | Beats(a, b)
      ensures AtLeast(a, b)
    {
      NotBoth(a, b);
    }
  }

  lemma BuddyDevicesAgree(n: nat, start: BuddyMap, run: seq<Step<Buddy>>, t: Net<Buddy>, u: set<(Text, Buddy)>,
                          d: nat, e: nat, name: Text)
    requires From(start, u) && PlainKeys(u)
      && Leads(Net(seq(n, _ => start), []), run, t, u, BuddyVersion, Beats, AtLeast)
    requires t.flight == [] && d < n && e < n
    ensures |t.maps| == n && (name in t.maps[d] <==> name in t.maps[e])
    ensures name in t.maps[d] ==> SameRank(t.maps[d][name], t.maps[e][name])
  {
    hide From, PlainKeys, Leads, Follows, Beats, SameRank;
    BuddiesFollow(u);
    QuietDevicesAgree(n, start, run, t, u, BuddyVersion, Beats, AtLeast, d, e, name);
    if name in t.maps[d] {
      Unbeaten(t.maps[d][name], t.maps[e][name]);
    }
  }

  // That is exact for each delivery: the receiver ends at least as high as the frame at a key if and only if the
  // entry there was in time or the receiver was already as high.
  lemma RefusalMatters<E(!new)>(local: map<Text, E>, f: Frame<E>, u: set<(Text, E)>, k: Text,
                                version: E -> real, beats: (E, E) -> bool, ge: (E, E) -> bool)
    requires From(local, u) && From(f.entries, u) && Follows(u, beats, ge) && PlainKeys(u) && k in f.entries
    ensures var work := Adopt(local, f, version, beats);
      (k in work && ge(work[k], f.entries[k]))
      <==> InTime(f.entries[k], version, f.now) || (k in local && ge(local[k], f.entries[k]))
  {
    hide INHERITED, InTime;
    assert (k, f.entries[k]) in u;
    AdoptAt(local, f, k, version, beats);
    if k in local {
      assert (k, local[k]) in u;
    }
  }

  // A device whose clock runs more than a day ahead breaks agreement too: everyone else refuses the entry it
  // stamped, and nothing is left in flight.
  lemma ClockAheadDiverges(ahead: Buddy, low: BuddyMap, name: Text, now: real)
    requires ahead.v > now + MAX_FUTURE_MS && (name in low ==> Beats(ahead, low[name]))
    ensures var s := Net([map[name := ahead], low], [Packet(1, map[name := ahead])]);
      && Deliver(s, 0, now, BuddyVersion, Beats) == Net([map[name := ahead], low], [])
      && (name in low ==> !SameRank(ahead, low[name]))
  {
    if name in low {
      NotBoth(ahead, low[name]);
    }
    assert Adopt(low, Frame(map[name := ahead], now), BuddyVersion, Beats) == low;
  }

  // ---- Which edits keep the devices together, exactly ------------------------------------------------------

  // With nothing in flight an edit leaves every device covered if and only if it takes no key below where it was.
  lemma EditMatters<E(!new)>(s: Net<E>, d: nat, m: map<Text, E>, u: set<(Text, E)>,
                             beats: (E, E) -> bool, ge: (E, E) -> bool)
    requires Follows(u, beats, ge) && Covered(s, ge) && s.flight == [] && |s.maps| >= 2 && d < |s.maps|
    ensures Covered(Edit(s, d, m), ge) <==> Raises(s.maps[d], m, ge)
  {
    hide Copies;
    var t := Edit(s, d, m);
    CopiesReach(d, m, |s.maps|);
    if Raises(s.maps[d], m, ge) {
      EditKeepsCovered(s, d, m, u, beats, ge);
    }
    if Covered(t, ge) {
      var e := if d == 0 then 1 else 0;
      forall k | k in s.maps[d]
        ensures k in m && ge(m[k], s.maps[d][k])
      {
        assert Covers(s, e, k, s.maps[d][k], ge);
        assert Covers(t, d, k, t.maps[e][k], ge);
      }
    }
  }

  // All devices have the same keys, at the same height.
  ghost predicate AllAlike<E(!new)>(s: Net<E>, ge: (E, E) -> bool) {
    forall d: nat, e: nat, k :: d < |s.maps| && e < |s.maps| && k in s.maps[d] ==>
      k in s.maps[e] && ge(s.maps[d][k], s.maps[e][k]) && ge(s.maps[e][k], s.maps[d][k])
  }

  predicate OnlyArrivals<E>(run: seq<Step<E>>) {
    forall i :: 0 <= i < |run| ==> run[i].Arrive?
  }

  predicate NotLower<E>(m: map<Text, E>, k: Text, x: E, ge: (E, E) -> bool) {
    k in m ==> ge(x, m[k])
  }

  // Winning means being strictly higher.
  ghost predicate Strictly<E(!new)>(u: set<(Text, E)>, beats: (E, E) -> bool, ge: (E, E) -> bool) {
    forall k, a, b :: (k, a) in u && (k, b) in u && beats(a, b) ==> !ge(b, a)
  }

  // Devices in agreement, and one of them edits one entry: once everything has been delivered they agree again if
  // and only if the new entry is not lower than the one it replaced.
  lemma EditSettles<E(!new)>(s: Net<E>, d: nat, k: Text, x: E, run: seq<Step<E>>, t: Net<E>, u: set<(Text, E)>,
                             version: E -> real, beats: (E, E) -> bool, ge: (E, E) -> bool)
    requires AllAlike(s, ge) && s.flight == [] && |s.maps| >= 2 && d < |s.maps|
    requires Within(s, u) && (k, x) in u && PlainKeys(u) && Follows(u, beats, ge) && Strictly(u, beats, ge)
    requires OnlyArrivals(run) && t.flight == []
    requires Leads(Edit(s, d, s.maps[d][k := x]), run, t, u, version, beats, ge)
    ensures AllAlike(t, ge) <==> NotLower(s.maps[d], k, x, ge)
  {
    hide Leads, PlainKeys, Within, AllAlike, Copies, Follows, Strictly;
    if NotLower(s.maps[d], k, x, ge) {
      RaisedAgain(s, d, k, x, run, t, u, version, beats, ge);
    } else {
      var m := s.maps[d][k := x];
      var start := Edit(s, d, m);
      CopiesReach(d, m, |s.maps|);
      Stuck(start, d, m, run, t, u, version, beats, ge) by {
        forall e: nat | e < |s.maps| && e != d
          ensures Refuses(s.maps[e], m, beats)
        {
          RefusesLower(s, d, e, k, x, u, beats, ge);
        }
      }
      var e := if d == 0 then 1 else 0;
      StillApart(s, t, d, e, k, x, u, beats, ge);
    }
  }

  lemma RaisedAgain<E(!new)>(s: Net<E>, d: nat, k: Text, x: E, run: seq<Step<E>>, t: Net<E>, u: set<(Text, E)>,
                             version: E -> real, beats: (E, E) -> bool, ge: (E, E) -> bool)
    requires AllAlike(s, ge) && d < |s.maps| && NotLower(s.maps[d], k, x, ge)
    requires Within(s, u) && (k, x) in u && PlainKeys(u) && Follows(u, beats, ge) && t.flight == []
    requires Leads(Edit(s, d, s.maps[d][k := x]), run, t, u, version, beats, ge)
    ensures AllAlike(t, ge)
  {
    hide Leads, PlainKeys, Copies;
    var m := s.maps[d][k := x];
    EditKeepsCovered(s, d, m, u, beats, ge);
    assert From(m, u);
    EditWithin(s, d, m, u);
    hide Follows;
    RunKeepsCovered(Edit(s, d, m), run, t, u, version, beats, ge);
    forall f: nat, e: nat, key | f < |t.maps| && e < |t.maps| && key in t.maps[f]
      ensures key in t.maps[e] && ge(t.maps[f][key], t.maps[e][key]) && ge(t.maps[e][key], t.maps[f][key])
    {
      assert Covers(t, e, key, t.maps[f][key], ge);
      assert Covers(t, f, key, t.maps[e][key], ge);
    }
  }

  // Nothing in the map would be taken.
  ghost predicate Refuses<E>(local: map<Text, E>, m: map<Text, E>, beats: (E, E) -> bool) {
    forall j :: j in m ==> j in local && !beats(m[j], local[j])
  }

  lemma RefusesLower<E(!new)>(s: Net<E>, d: nat, e: nat, k: Text, x: E, u: set<(Text, E)>,
                              beats: (E, E) -> bool, ge: (E, E) -> bool)
    requires AllAlike(s, ge) && d < |s.maps| && e < |s.maps| && !NotLower(s.maps[d], k, x, ge)
    requires Within(s, u) && (k, x) in u && Follows(u, beats, ge) && Strictly(u, beats, ge)
    ensures Refuses(s.maps[e], s.maps[d][k := x], beats)
  {
    var m := s.maps[d][k := x];
    assert From(s.maps[d], u) && From(s.maps[e], u);
    forall j | j in m
      ensures j in s.maps[e] && !beats(m[j], s.maps[e][j])
    {
      assert (j, m[j]) in u && (j, s.maps[e][j]) in u;
    }
  }

  // So deliveries of it change nothing.
  lemma {:induction false} Stuck<E(!new)>(s: Net<E>, d: nat, m: map<Text, E>, run: seq<Step<E>>, t: Net<E>,
                                          u: set<(Text, E)>, version: E -> real, beats: (E, E) -> bool,
                                          ge: (E, E) -> bool)
    requires OnlyArrivals(run) && Leads(s, run, t, u, version, beats, ge)
    requires forall p :: p in s.flight ==> p.entries == m && p.to != d
    requires forall e: nat :: e < |s.maps| && e != d ==> Refuses(s.maps[e], m, beats)
    ensures t.maps == s.maps
    decreases |run|
  {
    hide Copies, NoneRefused, Refuses, Adopt;
    if run != [] {
      var i, now := run[0].i, run[0].now;
      assert s.flight[i] in s.flight;
      RefusedWhole(s.maps[s.flight[i].to], m, now, version, beats);
      Stuck(Deliver(s, i, now, version, beats), d, m, run[1..], t, u, version, beats, ge);
    }
  }

  lemma RefusedWhole<E>(local: map<Text, E>, m: map<Text, E>, now: real, version: E -> real, beats: (E, E) -> bool)
    requires Refuses(local, m, beats)
    ensures Adopt(local, Frame(m, now), version, beats) == local
  {
  }

  lemma StillApart<E(!new)>(s: Net<E>, t: Net<E>, d: nat, e: nat, k: Text, x: E, u: set<(Text, E)>,
                            beats: (E, E) -> bool, ge: (E, E) -> bool)
    requires AllAlike(s, ge) && d < |s.maps| && e < |s.maps| && d != e && !NotLower(s.maps[d], k, x, ge)
    requires t.maps == s.maps[d := s.maps[d][k := x]] && Follows(u, beats, ge)
    ensures !AllAlike(t, ge)
  {
    assert k in t.maps[d] && t.maps[d][k] == x && t.maps[e] == s.maps[e];
    assert ge(s.maps[e][k], s.maps[d][k]) && !ge(x, s.maps[d][k]);
  }

  ghost predicate AllAgree(s: Net<Buddy>) {
    forall d: nat, e: nat, name :: d < |s.maps| && e < |s.maps| && name in s.maps[d] ==>
      name in s.maps[e] && SameRank(s.maps[d][name], s.maps[e][name])
  }

  lemma AgreeAlike(s: Net<Buddy>)
    ensures AllAgree(s) <==> AllAlike(s, AtLeast)
  {
    hide Beats;
    forall d: nat, e: nat, k | d < |s.maps| && e < |s.maps| && k in s.maps[d] && k in s.maps[e]
      ensures SameRank(s.maps[d][k], s.maps[e][k])
         <==> AtLeast(s.maps[d][k], s.maps[e][k]) && AtLeast(s.maps[e][k], s.maps[d][k])
    {
      RankAtLeast(s.maps[d][k], s.maps[e][k]);
    }
  }

  lemma RankAtLeast(a: Buddy, b: Buddy)
    ensures SameRank(a, b) <==> AtLeast(a, b) && AtLeast(b, a)
  {
    if AtLeast(a, b) && AtLeast(b, a) {
      Unbeaten(a, b);
    }
    LessIrreflexive(Key(a));
  }

  // For buddies: they agree on every rank again if and only if the new entry is not behind.
  lemma BuddyEditSettles(s: Net<Buddy>, d: nat, k: Text, x: Buddy, run: seq<Step<Buddy>>, t: Net<Buddy>,
                         u: set<(Text, Buddy)>)
    requires AllAgree(s) && s.flight == [] && |s.maps| >= 2 && d < |s.maps|
    requires Within(s, u) && (k, x) in u && PlainKeys(u)
    requires OnlyArrivals(run) && t.flight == []
    requires Leads(Edit(s, d, s.maps[d][k := x]), run, t, u, BuddyVersion, Beats, AtLeast)
    ensures AllAgree(t) <==> NotLower(s.maps[d], k, x, AtLeast)
  {
    hide Leads, PlainKeys, Within, AllAgree, AllAlike, Follows, NotLower, Beats;
    BuddiesFollow(u);
    AgreeAlike(s);
    AgreeAlike(t);
    EditSettles(s, d, k, x, run, t, u, BuddyVersion, Beats, AtLeast);
  }

  // An edit stamped behind the entry it replaces is what breaks agreement: the editor keeps its lower entry,
  // everyone else refuses it, and nothing is left in flight.
  lemma LoweringEditDiverges(high: Buddy, low: Buddy, name: Text, now: real)
    requires Beats(high, low)
    ensures var s := Edit(Net([map[name := high], map[name := high]], []), 0, map[name := low]);
      && |s.flight| == 1 && s.flight[0].to < 2
      && Deliver(s, 0, now, BuddyVersion, Beats) == Net([map[name := low], map[name := high]], [])
      && !SameRank(low, high)
  {
    NotBoth(high, low);
    var s := Edit(Net([map[name := high], map[name := high]], []), 0, map[name := low]);
    assert Copies(0, map[name := low], 1) == [];
    assert Copies(0, map[name := low], 2) == [Packet(1, map[name := low])];
    assert s.flight == [Packet(1, map[name := low])];
    assert Adopt(map[name := high], Frame(map[name := low], now), BuddyVersion, Beats) == map[name := high];
  }
}
