// Gossip of the stored group objects. Every load cuts an object to its first 512 entries, and what is sent is
// what was loaded; with at most 512 names in all this is gossip of maps, and with one more it need never end.
module GroupGossip {
  import opened FiniteSets
  import opened Wrappers
  import opened Units
  import opened Normalize
  import opened Lww
  import opened GroupLists
  import opened Gossip

  datatype GroupPacket = GroupPacket(to: nat, entries: GroupObject)

  datatype GroupNet = GroupNet(stored: seq<GroupObject>, flight: seq<GroupPacket>)

  function GroupCopies(author: nat, o: GroupObject, n: nat): seq<GroupPacket> {
    if n == 0 then []
    else GroupCopies(author, o, n - 1) + if n - 1 == author then [] else [GroupPacket(n - 1, o)]
  }

  // Some frame arrives and is normalized: the receiver adopts, and re-broadcasts what it then loads if anything
  // was newer.
  function DeliverGroups(s: GroupNet, i: nat, now: real): GroupNet
    requires i < |s.flight| && s.flight[i].to < |s.stored|
  {
    var p := s.flight[i];
    var rest := s.flight[..i] + s.flight[i + 1..];
    var stored, incoming := s.stored[p.to], Load(p.entries);
    if !Newer(stored, incoming, now) then GroupNet(s.stored, rest)
    else
      var after := AdoptStored(stored, incoming, now);
      GroupNet(s.stored[p.to := after], rest + GroupCopies(p.to, Load(after), |s.stored|))
  }

  // A local edit saves `o` and broadcasts what is then loaded.
  function EditGroups(s: GroupNet, d: nat, o: GroupObject): GroupNet
    requires d < |s.stored|
  {
    GroupNet(s.stored[d := o], s.flight + GroupCopies(d, Load(o), |s.stored|))
  }

  // ---- Within 512 names ----------------------------------------------------------------------------------

  // An object of well-formed entries, each one of `u`.
  ghost predicate Holds(o: GroupObject, u: set<(Text, Group)>) {
    Distinct(o) && GroupsOk(o) && From(MapOf(o), u)
  }

  ghost predicate GroupsWithin(s: GroupNet, u: set<(Text, Group)>) {
    && (forall d :: 0 <= d < |s.stored| ==> Holds(s.stored[d], u))
    && (forall i :: 0 <= i < |s.flight| ==> s.flight[i].to < |s.stored| && Holds(s.flight[i].entries, u))
  }

  ghost function Names(u: set<(Text, Group)>): set<Text> {
    set x | x in u :: x.0
  }

  ghost predicate Few(u: set<(Text, Group)>) {
    |Names(u)| <= GROUP_MAP_MAX_ENTRIES
  }

  // Then loading changes nothing.
  lemma LoadIdle(o: GroupObject, u: set<(Text, Group)>)
    requires Holds(o, u) && Few(u)
    ensures Load(o) == o
  {
    hide Load, GroupsOk, Distinct;
    MapOfHas(o);
    forall k | k in MapOf(o)
      ensures k in Names(u)
    {
      assert (k, MapOf(o)[k]) in u;
    }
    hide MapOf;
    SubsetSize(MapOf(o).Keys, Names(u));
    assert |MapOf(o).Keys| == |MapOf(o)|;
    LoadKeeps(o);
  }

  function PacketOf(p: GroupPacket): Packet<Group> {
    Packet(p.to, MapOf(p.entries))
  }

  function PacketsOf(flight: seq<GroupPacket>): (r: seq<Packet<Group>>)
    ensures |r| == |flight|
    ensures forall i :: 0 <= i < |flight| ==> r[i] == PacketOf(flight[i])
  {
    seq(|flight|, i requires 0 <= i < |flight| => PacketOf(flight[i]))
  }

  function MapsOf(stored: seq<GroupObject>): (r: seq<GroupMap>)
    ensures |r| == |stored|
    ensures forall d :: 0 <= d < |stored| ==> r[d] == MapOf(stored[d])
  {
    seq(|stored|, d requires 0 <= d < |stored| => MapOf(stored[d]))
  }

  // The net of maps that a net of objects stands for.
  function NetOf(s: GroupNet): Net<Group> {
    Net(MapsOf(s.stored), PacketsOf(s.flight))
  }

  lemma {:induction false} CopiesOf(author: nat, o: GroupObject, n: nat)
    ensures PacketsOf(GroupCopies(author, o, n)) == Copies(author, MapOf(o), n)
    ensures forall i :: 0 <= i < |GroupCopies(author, o, n)| ==>
      GroupCopies(author, o, n)[i].to < n && GroupCopies(author, o, n)[i].entries == o
  {
    hide MapOf;
    if n > 0 {
      CopiesOf(author, o, n - 1);
    }
  }

  lemma JoinPackets(a: seq<GroupPacket>, b: seq<GroupPacket>)
    ensures PacketsOf(a + b) == PacketsOf(a) + PacketsOf(b)
  {
    hide PacketOf;
  }

  lemma CutPackets(a: seq<GroupPacket>, i: nat)
    requires i < |a|
    ensures PacketsOf(a[..i] + a[i + 1..]) == PacketsOf(a)[..i] + PacketsOf(a)[i + 1..]
  {
    hide PacketOf;
  }

  lemma WithinOf(s: GroupNet, u: set<(Text, Group)>)
    requires GroupsWithin(s, u)
    ensures Within(NetOf(s), u)
  {
    hide MapOf, From, Distinct, GroupsOk;
    var t := NetOf(s);
    forall p | p in t.flight
      ensures p.to < |t.maps| && From(p.entries, u)
    {
      var i :| 0 <= i < |t.flight| && t.flight[i] == p;
      assert Holds(s.flight[i].entries, u);
    }
    forall d | 0 <= d < |t.maps|
      ensures From(t.maps[d], u)
    {
      assert Holds(s.stored[d], u);
    }
  }

  // A delivery between objects is the delivery between their maps.
  lemma DeliverOf(s: GroupNet, i: nat, now: real, u: set<(Text, Group)>)
    requires GroupsWithin(s, u) && Few(u) && i < |s.flight| && s.flight[i].to < |s.stored|
    ensures GroupsWithin(DeliverGroups(s, i, now), u)
    ensures NetOf(DeliverGroups(s, i, now)) == Deliver(NetOf(s), i, now, GroupVersion, GroupBeats)
  {
    hide MapOf, From, Distinct, GroupsOk, Load, AdoptInto, Adopt, GroupCopies, Copies, Few;
    var p := s.flight[i];
    var stored := s.stored[p.to];
    assert Holds(p.entries, u) && Holds(stored, u);
    LoadIdle(p.entries, u);
    LoadIdle(stored, u);
    AdoptIntoMap(stored, p.entries, now);
    AdoptIntoOk(stored, p.entries, now);
    AdoptFrom(MapOf(stored), Frame(MapOf(p.entries), now), u, GroupVersion, GroupBeats);
    var work := AdoptInto(stored, p.entries, now);
    LoadIdle(work, u);
    CopiesOf(p.to, work, |s.stored|);
    CutPackets(s.flight, i);
    JoinPackets(s.flight[..i] + s.flight[i + 1..], GroupCopies(p.to, work, |s.stored|));
    assert MapsOf(s.stored[p.to := work]) == MapsOf(s.stored)[p.to := MapOf(work)];
    hide PacketsOf, MapsOf, Holds;
  }

  lemma EditOf(s: GroupNet, d: nat, o: GroupObject, u: set<(Text, Group)>)
    requires GroupsWithin(s, u) && Few(u) && d < |s.stored| && Holds(o, u)
    ensures GroupsWithin(EditGroups(s, d, o), u) && NetOf(EditGroups(s, d, o)) == Edit(NetOf(s), d, MapOf(o))
  {
    hide MapOf, From, Distinct, GroupsOk, Load, GroupCopies, Copies, Few;
    LoadIdle(o, u);
    CopiesOf(d, o, |s.stored|);
    JoinPackets(s.flight, GroupCopies(d, o, |s.stored|));
    assert MapsOf(s.stored[d := o]) == MapsOf(s.stored)[d := MapOf(o)];
    hide PacketsOf, MapsOf, Holds;
  }

  // ---- Termination ---------------------------------------------------------------------------------------

  ghost predicate GroupsDeliverable(s: GroupNet, run: seq<Arrival>)
    decreases |run|
  {
    || run == []
    || (run[0].i < |s.flight| && s.flight[run[0].i].to < |s.stored|
        && GroupsDeliverable(DeliverGroups(s, run[0].i, run[0].now), run[1..]))
  }

  lemma {:induction false} DeliverableOf(s: GroupNet, run: seq<Arrival>, u: set<(Text, Group)>)
    requires GroupsWithin(s, u) && Few(u) && GroupsDeliverable(s, run)
    ensures Deliverable(NetOf(s), run, GroupVersion, GroupBeats)
    decreases |run|
  {
    hide GroupsWithin, Few, DeliverGroups, Deliver, MapOf;
    if run != [] {
      DeliverOf(s, run[0].i, run[0].now, u);
      DeliverableOf(DeliverGroups(s, run[0].i, run[0].now), run[1..], u);
    }
  }

  // With at most 512 names among everything stored and in flight, no run of deliveries is longer than the frames
  // in flight plus one per other device and pending improvement.
  lemma GroupGossipEnds(s: GroupNet, run: seq<Arrival>, u: set<(Text, Group)>)
    requires GroupsWithin(s, u) && Few(u) && |s.stored| > 0 && GroupsDeliverable(s, run)
    ensures |run| <= |s.flight| + (|s.stored| - 1) * |Pending(NetOf(s), u, GroupBeats)|
  {
    hide GroupsWithin, Within, Few, Deliverable, GroupsDeliverable, MapOf;
    WithinOf(s, u);
    DeliverableOf(s, run, u);
    GroupBeatsStrict();
    GossipEnds(NetOf(s), run, u, GroupVersion, GroupBeats);
  }

  // ---- Convergence ---------------------------------------------------------------------------------------

  // Groups: version and removal, and then the label, among entries that agree on carrying one.
  predicate GroupAtLeast(a: Group, b: Group) {
    || a.v > b.v
    || (a.v == b.v && a.removed && !b.removed)
    || (a.v == b.v && a.removed == b.removed && a.n.Some? == b.n.Some? && (a.n.Some? ==> !Less(a.n.value, b.n.value)))
  }

  predicate StampAtLeast(a: Group, b: Group) {
    a.v > b.v || (a.v == b.v && (b.removed ==> a.removed))
  }

  // Entries of one name that tie on version and removal agree on carrying a label.
  ghost predicate LabelsAgree(u: set<(Text, Group)>) {
    forall k, a, b :: (k, a) in u && (k, b) in u && a.v == b.v && a.removed == b.removed ==> a.n.Some? == b.n.Some?
  }

  lemma GroupsFollow(u: set<(Text, Group)>)
    requires LabelsAgree(u)
    ensures Follows(u, GroupBeats, GroupAtLeast)
  {
    hide Less;
    forall a: Group
      ensures GroupAtLeast(a, a)
    {
      if a.n.Some? {
        LessIrreflexive(a.n.value);
      }
    }
    forall a, b, c | GroupAtLeast(a, b) && GroupAtLeast(b, c)
      ensures GroupAtLeast(a, c)
    {
      if a.v == b.v == c.v && a.removed == b.removed == c.removed && a.n.Some? && b.n.Some? && c.n.Some? {
        LessNegatives(a.n.value, b.n.value, c.n.value);
      }
    }
    forall a, b | GroupBeats(a, b) && a.n.Some? == b.n.Some?
      ensures GroupAtLeast(a, b)
    {
      if a.n.Some? && b.n.Some? {
        LessAsymmetric(a.n.value, b.n.value);
      }
    }
  }

  lemma LessAsymmetric(a: Text, b: Text)
    ensures !(Less(a, b) && Less(b, a))
  {
    if Less(a, b) && Less(b, a) {
      LessTransitive(a, b, a);
      LessIrreflexive(a);
    }
  }

  lemma LessNegatives(a: Text, b: Text, c: Text)
    requires !Less(a, b) && !Less(b, c)
    ensures !Less(a, c)
  {
    LessTotal(a, b);
    LessTotal(b, c);
    if Less(a, c) && a != b && b != c {
      LessTransitive(c, b, a);
      LessAsymmetric(a, c);
    }
  }

  lemma StampsFollow(u: set<(Text, Group)>)
    ensures Follows(u, GroupBeats, StampAtLeast)
  {
    hide Less;
  }

  datatype GroupStep = GroupArrive(i: nat, now: real) | GroupChange(d: nat, o: GroupObject)

  function NextGroups(s: GroupNet, a: GroupStep): GroupNet
    requires a.GroupArrive? ==> a.i < |s.flight| && s.flight[a.i].to < |s.stored|
    requires a.GroupChange? ==> a.d < |s.stored|
  {
    match a
    case GroupArrive(i, now) => DeliverGroups(s, i, now)
    case GroupChange(d, o) => EditGroups(s, d, o)
  }

  // As for maps: deliveries that refuse no winner, and edits that lower no entry.
  ghost predicate GroupsAllowed(s: GroupNet, a: GroupStep, u: set<(Text, Group)>, ge: (Group, Group) -> bool) {
    match a
    case GroupArrive(i, now) =>
      && i < |s.flight| && s.flight[i].to < |s.stored|
      && NoneRefused(MapOf(s.stored[s.flight[i].to]), MapOf(s.flight[i].entries), now, GroupVersion, GroupBeats)
    case GroupChange(d, o) => d < |s.stored| && Holds(o, u) && Raises(MapOf(s.stored[d]), MapOf(o), ge)
  }

  ghost predicate GroupsLead(s: GroupNet, run: seq<GroupStep>, t: GroupNet, u: set<(Text, Group)>,
                             ge: (Group, Group) -> bool)
    decreases |run|
  {
    if run == [] then s == t
    else GroupsAllowed(s, run[0], u, ge) && GroupsLead(NextGroups(s, run[0]), run[1..], t, u, ge)
  }

  function StepOf(a: GroupStep): Step<Group> {
    match a
    case GroupArrive(i, now) => Arrive(i, now)
    case GroupChange(d, o) => Change(d, MapOf(o))
  }

  function StepsOf(run: seq<GroupStep>): (r: seq<Step<Group>>)
    ensures |r| == |run|
  {
    if run == [] then []
    else [StepOf(run[0])] + StepsOf(run[1..])
  }

  lemma {:induction false} LeadsOf(s: GroupNet, run: seq<GroupStep>, t: GroupNet, u: set<(Text, Group)>,
                                   ge: (Group, Group) -> bool)
    requires GroupsWithin(s, u) && Few(u) && GroupsLead(s, run, t, u, ge)
    ensures Leads(NetOf(s), StepsOf(run), NetOf(t), u, GroupVersion, GroupBeats, ge)
    decreases |run|
  {
    hide Few, DeliverGroups, EditGroups, Deliver, Edit, MapOf, From, NoneRefused, Raises, GroupsWithin, Distinct,
      GroupsOk;
    if run != [] {
      match run[0]
      case GroupArrive(i, now) =>
        DeliverOf(s, i, now, u);
        LeadsOf(DeliverGroups(s, i, now), run[1..], t, u, ge);
      case GroupChange(d, o) =>
        EditOf(s, d, o, u);
        LeadsOf(EditGroups(s, d, o), run[1..], t, u, ge);
    }
  }

  ghost predicate Begins(start: GroupObject, u: set<(Text, Group)>) {
    Holds(start, u) && Few(u) && PlainKeys(u)
  }

  function Alike(n: nat, start: GroupObject): GroupNet {
    GroupNet(seq(n, _ => start), [])
  }

  // Devices that start alike agree on every name, in whatever order adoption follows, when nothing is in flight.
  lemma QuietGroupsAgree(n: nat, start: GroupObject, run: seq<GroupStep>, t: GroupNet, u: set<(Text, Group)>,
                         ge: (Group, Group) -> bool, d: nat, e: nat, name: Text)
    requires Begins(start, u) && Follows(u, GroupBeats, ge) && GroupsLead(Alike(n, start), run, t, u, ge)
    requires t.flight == [] && d < n && e < n
    ensures |t.stored| == n && (name in MapOf(t.stored[d]) <==> name in MapOf(t.stored[e]))
    ensures name in MapOf(t.stored[d]) ==>
      var a, b := MapOf(t.stored[d])[name], MapOf(t.stored[e])[name]; ge(a, b) && ge(b, a)
  {
    hide MapOf, From, Follows, PlainKeys, Leads, GroupsLead, Few, Distinct, GroupsOk;
    var s := Alike(n, start);
    LeadsOf(s, run, t, u, ge);
    assert NetOf(s) == Net(seq(n, _ => MapOf(start)), []);
    QuietDevicesAgree(n, MapOf(start), StepsOf(run), NetOf(t), u, GroupVersion, GroupBeats, ge, d, e, name);
  }

  // On version, removal and label, where entries of a name that tie agree on carrying one.
  lemma GroupDevicesAgree(n: nat, start: GroupObject, run: seq<GroupStep>, t: GroupNet, u: set<(Text, Group)>,
                          d: nat, e: nat, name: Text)
    requires Begins(start, u) && LabelsAgree(u) && GroupsLead(Alike(n, start), run, t, u, GroupAtLeast)
    requires t.flight == [] && d < n && e < n
    ensures |t.stored| == n && (name in MapOf(t.stored[d]) <==> name in MapOf(t.stored[e]))
    ensures name in MapOf(t.stored[d]) ==>
      var a, b := MapOf(t.stored[d])[name], MapOf(t.stored[e])[name];
      a.v == b.v && a.removed == b.removed && a.n == b.n
  {
    hide MapOf, Begins, GroupsLead, Follows, LabelsAgree, Less;
    GroupsFollow(u);
    QuietGroupsAgree(n, start, run, t, u, GroupAtLeast, d, e, name);
    if name in MapOf(t.stored[d]) {
      var a, b := MapOf(t.stored[d])[name], MapOf(t.stored[e])[name];
      if a.n.Some? && b.n.Some? {
        LessTotal(a.n.value, b.n.value);
      }
    }
  }

  // Whatever the labels, the devices agree on version and removal.
  lemma GroupStampsAgree(n: nat, start: GroupObject, run: seq<GroupStep>, t: GroupNet, u: set<(Text, Group)>,
                         d: nat, e: nat, name: Text)
    requires Begins(start, u) && GroupsLead(Alike(n, start), run, t, u, StampAtLeast)
    requires t.flight == [] && d < n && e < n
    ensures |t.stored| == n && (name in MapOf(t.stored[d]) <==> name in MapOf(t.stored[e]))
    ensures name in MapOf(t.stored[d]) ==>
      MapOf(t.stored[d])[name].v == MapOf(t.stored[e])[name].v
        && MapOf(t.stored[d])[name].removed == MapOf(t.stored[e])[name].removed
  {
    hide MapOf, Begins, GroupsLead, Follows;
    StampsFollow(u);
    QuietGroupsAgree(n, start, run, t, u, StampAtLeast, d, e, name);
  }

  // Where they do not, two devices that hold the two entries refuse each other's and stay apart.
  lemma MixedTieDiverges(labelled: Group, plain: Group, name: Text, now: real)
    requires labelled.v == plain.v && labelled.removed == plain.removed && labelled.n.Some? && plain.n.None?
    ensures var maps := [map[name := labelled], map[name := plain]];
      var s := Net(maps, [Packet(1, map[name := labelled]), Packet(0, map[name := plain])]);
      var t := Deliver(s, 0, now, GroupVersion, GroupBeats);
      t == Net(maps, [Packet(0, map[name := plain])]) && Deliver(t, 0, now, GroupVersion, GroupBeats) == Net(maps, [])
  {
    assert Adopt(map[name := plain], Frame(map[name := labelled], now), GroupVersion, GroupBeats) == map[name := plain];
    assert Adopt(map[name := labelled], Frame(map[name := plain], now), GroupVersion, GroupBeats)
      == map[name := labelled];
  }

  // ---- The condition on labels, exactly --------------------------------------------------------------------

  predicate SameGroup(a: Group, b: Group) {
    a.v == b.v && a.removed == b.removed && a.n == b.n
  }

  ghost predicate SameGroups(a: GroupMap, b: GroupMap) {
    forall k :: (k in a <==> k in b) && (k in a ==> SameGroup(a[k], b[k]))
  }

  // If the run is one of allowed steps that ends with nothing in flight, all devices agree on all names.
  ghost predicate EndsAgreed(n: nat, start: GroupObject, run: seq<GroupStep>, t: GroupNet, u: set<(Text, Group)>) {
    Begins(start, u) && GroupsLead(Alike(n, start), run, t, u, GroupAtLeast) && t.flight == [] ==>
      && |t.stored| == n
      && forall d, e :: 0 <= d < n && 0 <= e < n ==> SameGroups(MapOf(t.stored[d]), MapOf(t.stored[e]))
  }

  ghost predicate EntriesOk(u: set<(Text, Group)>) {
    forall x :: x in u ==> GroupOk(x.0, x.1)
  }

  // Devices that hold entries of `u` always end in agreement on version, removal and label if and only if entries
  // of one name that tie agree on carrying a label.
  lemma LabelsAgreeIff(u: set<(Text, Group)>)
    requires Few(u) && PlainKeys(u) && EntriesOk(u)
    ensures (forall n, start, run, t :: EndsAgreed(n, start, run, t, u)) <==> LabelsAgree(u)
  {
    hide Few, PlainKeys, Begins, GroupsLead, MapOf, LabelsAgree;
    if LabelsAgree(u) {
      forall n, start, run, t
        ensures EndsAgreed(n, start, run, t, u)
      {
        if Begins(start, u) && GroupsLead(Alike(n, start), run, t, u, GroupAtLeast) && t.flight == [] {
          EveryPairAgrees(n, start, run, t, u);
        }
      }
    } else {
      var k, a, b := MixedTie(u);
      var run, t := MixedRun(k, a, b), GroupNet([[(k, a)], [(k, b)]], []);
      MixedRunLeads(u, k, a, b);
      MapOfOne(k, a);
      MapOfOne(k, b);
      assert k in MapOf(t.stored[0]) && !SameGroup(MapOf(t.stored[0])[k], MapOf(t.stored[1])[k]);
      assert !EndsAgreed(2, [], run, t, u);
    }
  }

  lemma EveryPairAgrees(n: nat, start: GroupObject, run: seq<GroupStep>, t: GroupNet, u: set<(Text, Group)>)
    requires Begins(start, u) && LabelsAgree(u) && GroupsLead(Alike(n, start), run, t, u, GroupAtLeast)
    requires t.flight == []
    ensures EndsAgreed(n, start, run, t, u)
  {
    hide MapOf, Begins, GroupsLead, LabelsAgree;
    LeadKeepsCount(Alike(n, start), run, t, u, GroupAtLeast);
    forall d, e | 0 <= d < n && 0 <= e < n
      ensures SameGroups(MapOf(t.stored[d]), MapOf(t.stored[e]))
    {
      forall k
        ensures k in MapOf(t.stored[d]) <==> k in MapOf(t.stored[e])
        ensures k in MapOf(t.stored[d]) ==> SameGroup(MapOf(t.stored[d])[k], MapOf(t.stored[e])[k])
      {
        GroupDevicesAgree(n, start, run, t, u, d, e, k);
      }
    }
  }

  lemma {:induction false} LeadKeepsCount(s: GroupNet, run: seq<GroupStep>, t: GroupNet, u: set<(Text, Group)>,
                                         ge: (Group, Group) -> bool)
    requires GroupsLead(s, run, t, u, ge)
    ensures |t.stored| == |s.stored|
    decreases |run|
  {
    hide MapOf, Load, AdoptStored, Newer, Holds, NoneRefused, Raises;
    if run != [] {
      LeadKeepsCount(NextGroups(s, run[0]), run[1..], t, u, ge);
    }
  }

  lemma MixedTie(u: set<(Text, Group)>) returns (k: Text, a: Group, b: Group)
    requires !LabelsAgree(u)
    ensures (k, a) in u && (k, b) in u && Mixed(a, b)
  {
    k, a, b :| (k, a) in u && (k, b) in u && a.v == b.v && a.removed == b.removed && a.n.Some? != b.n.Some?;
  }

  predicate Mixed(a: Group, b: Group) {
    a.v == b.v && a.removed == b.removed && a.n.Some? != b.n.Some?
  }

  // Two devices that know nothing make the two entries and send them to each other.
  function MixedRun(k: Text, a: Group, b: Group): seq<GroupStep> {
    [GroupChange(0, [(k, a)]), GroupChange(1, [(k, b)]), GroupArrive(0, a.v), GroupArrive(0, a.v)]
  }

  lemma MapOfOne(k: Text, e: Group)
    ensures MapOf([(k, e)]) == map[k := e] && Distinct([(k, e)])
  {
    assert [(k, e)][..0] == [];
  }

  lemma OneHolds(u: set<(Text, Group)>, k: Text, e: Group)
    requires (k, e) in u && EntriesOk(u)
    ensures Holds([(k, e)], u) && Load([(k, e)]) == [(k, e)]
  {
    hide Load, GroupOk;
    MapOfOne(k, e);
    LoadCuts([(k, e)]);
  }

  // The other's entry is not newer.
  lemma MixedRefused(u: set<(Text, Group)>, k: Text, a: Group, b: Group)
    requires (k, a) in u && (k, b) in u && EntriesOk(u) && Mixed(a, b)
    ensures !Newer([(k, b)], [(k, a)], a.v)
    ensures NoneRefused(MapOf([(k, b)]), MapOf([(k, a)]), a.v, GroupVersion, GroupBeats)
  {
    hide Load, EntriesOk;
    OneHolds(u, k, a);
    OneHolds(u, k, b);
    MapOfOne(k, a);
    MapOfOne(k, b);
    assert [(k, a)][..0] == [];
    assert AdoptInto([(k, b)], [], a.v) == [(k, b)];
  }

  lemma MixedRunLeads(u: set<(Text, Group)>, k: Text, a: Group, b: Group)
    requires (k, a) in u && (k, b) in u && Few(u) && PlainKeys(u) && EntriesOk(u) && Mixed(a, b)
    ensures Begins([], u)
    ensures GroupsLead(Alike(2, []), MixedRun(k, a, b), GroupNet([[(k, a)], [(k, b)]], []), u, GroupAtLeast)
  {
    hide Load, Few, PlainKeys, EntriesOk, Newer, AdoptStored, NoneRefused, GroupAtLeast, Distinct, GroupsOk;
    OneHolds(u, k, a);
    OneHolds(u, k, b);
    MixedRefused(u, k, a, b);
    MixedRefused(u, k, b, a);
    var x, y := [(k, a)], [(k, b)];
    var s0, s1 := Alike(2, []), GroupNet([x, []], [GroupPacket(1, x)]);
    var s2, s3 := GroupNet([x, y], [GroupPacket(1, x), GroupPacket(0, y)]), GroupNet([x, y], [GroupPacket(0, y)]);
    TwoCopies(x);
    TwoCopies(y);
    assert NextGroups(s0, GroupChange(0, x)) == s1 && NextGroups(s1, GroupChange(1, y)) == s2;
    assert NextGroups(s2, GroupArrive(0, a.v)) == s3;
    assert NextGroups(s3, GroupArrive(0, a.v)) == GroupNet([x, y], []);
    assert MapOf([]) == map[];
    NothingHeld(u);
    hide NextGroups, MapOf, Holds;
    var run := MixedRun(k, a, b);
    assert run[1..] == [GroupChange(1, y), GroupArrive(0, a.v), GroupArrive(0, a.v)];
    assert run[1..][1..] == [GroupArrive(0, a.v), GroupArrive(0, a.v)];
    assert run[1..][1..][1..] == [GroupArrive(0, a.v)];
    assert GroupsLead(s3, run[1..][1..][1..], GroupNet([x, y], []), u, GroupAtLeast);
    assert GroupsLead(s2, run[1..][1..], GroupNet([x, y], []), u, GroupAtLeast);
    assert GroupsLead(s1, run[1..], GroupNet([x, y], []), u, GroupAtLeast);
  }

  lemma NothingHeld(u: set<(Text, Group)>)
    ensures Holds([], u)
  {
  }

  lemma TwoCopies(o: GroupObject)
    ensures GroupCopies(0, o, 2) == [GroupPacket(1, o)] && GroupCopies(1, o, 2) == [GroupPacket(0, o)]
  {
    assert GroupCopies(0, o, 0) == [] && GroupCopies(1, o, 0) == [];
    assert GroupCopies(0, o, 1) == [] && GroupCopies(1, o, 1) == [GroupPacket(0, o)];
    assert GroupCopies(0, o, 2) == GroupCopies(0, o, 1) + [GroupPacket(1, o)];
  }

  // ---- An edit of one group, exactly -----------------------------------------------------------------------

  ghost predicate GroupsAgree(s: GroupNet) {
    forall d, e :: 0 <= d < |s.stored| && 0 <= e < |s.stored| ==> SameGroups(MapOf(s.stored[d]), MapOf(s.stored[e]))
  }

  lemma SameGroupAtLeast(a: Group, b: Group)
    ensures SameGroup(a, b) <==> GroupAtLeast(a, b) && GroupAtLeast(b, a)
  {
    if a.n.Some? && b.n.Some? {
      LessTotal(a.n.value, b.n.value);
      LessIrreflexive(a.n.value);
    }
  }

  lemma GroupsAlike(s: GroupNet)
    ensures GroupsAgree(s) <==> AllAlike(NetOf(s), GroupAtLeast)
  {
    hide MapOf, GroupAtLeast, SameGroup;
    forall a, b
      ensures SameGroup(a, b) <==> GroupAtLeast(a, b) && GroupAtLeast(b, a)
    {
      SameGroupAtLeast(a, b);
    }
    var maps := NetOf(s).maps;
    if AllAlike(NetOf(s), GroupAtLeast) {
      forall d: nat, e: nat | d < |s.stored| && e < |s.stored|
        ensures SameGroups(maps[d], maps[e])
      {
      }
    }
    if GroupsAgree(s) {
      forall d: nat, e: nat, k | d < |maps| && e < |maps| && k in maps[d]
        ensures k in maps[e] && GroupAtLeast(maps[d][k], maps[e][k]) && GroupAtLeast(maps[e][k], maps[d][k])
      {
        assert SameGroups(MapOf(s.stored[d]), MapOf(s.stored[e]));
      }
    }
  }

  // Winning is being strictly higher, mixed ties included: neither of those wins.
  lemma GroupsStrictly(u: set<(Text, Group)>)
    ensures Strictly(u, GroupBeats, GroupAtLeast)
  {
  }

  lemma EditedHolds(o: GroupObject, k: Text, x: Group, u: set<(Text, Group)>)
    requires Holds(o, u) && (k, x) in u && GroupOk(k, x)
    ensures Holds(SetKey(o, k, x), u) && MapOf(SetKey(o, k, x)) == MapOf(o)[k := x]
  {
    hide MapOf, SetKey, GroupsOk, Distinct, GroupOk;
    SetKeyMap(o, k, x);
    SetKeyOk(o, k, x);
  }

  predicate OnlyGroupArrivals(run: seq<GroupStep>) {
    forall i :: 0 <= i < |run| ==> run[i].GroupArrive?
  }

  lemma {:induction false} ArrivalsOf(run: seq<GroupStep>)
    requires OnlyGroupArrivals(run)
    ensures OnlyArrivals(StepsOf(run))
  {
    if run != [] {
      assert OnlyGroupArrivals(run[1..]);
      ArrivalsOf(run[1..]);
    }
  }

  // Devices in agreement, and one of them edits one group: once everything has been delivered they agree on every
  // version, removal and label again if and only if the new entry is not behind the one it replaced.
  lemma GroupEditSettles(s: GroupNet, d: nat, k: Text, x: Group, run: seq<GroupStep>, t: GroupNet,
                         u: set<(Text, Group)>)
    requires GroupsAgree(s) && s.flight == [] && |s.stored| >= 2 && d < |s.stored|
    requires GroupsWithin(s, u) && Few(u) && PlainKeys(u) && LabelsAgree(u) && (k, x) in u && GroupOk(k, x)
    requires OnlyGroupArrivals(run) && t.flight == []
    requires GroupsLead(EditGroups(s, d, SetKey(Load(s.stored[d]), k, x)), run, t, u, GroupAtLeast)
    ensures GroupsAgree(t) <==> NotLower(MapOf(s.stored[d]), k, x, GroupAtLeast)
  {
    hide MapOf, Load, SetKey, GroupsLead, Leads, GroupsAgree, AllAlike, Few, PlainKeys, LabelsAgree, Follows, Strictly,
      Within, EditGroups, Edit, Holds, NotLower, GroupOk, GroupAtLeast;
    LoadIdle(s.stored[d], u);
    var o := SetKey(s.stored[d], k, x);
    EditedHolds(s.stored[d], k, x, u);
    EditOf(s, d, o, u);
    LeadsOf(EditGroups(s, d, o), run, t, u, GroupAtLeast);
    ArrivalsOf(run);
    GroupsFollow(u);
    GroupsStrictly(u);
    GroupsAlike(s);
    GroupsAlike(t);
    WithinOf(s, u);
    EditSettles(NetOf(s), d, k, x, StepsOf(run), NetOf(t), u, GroupVersion, GroupBeats, GroupAtLeast);
  }

  // ---- One name too many ---------------------------------------------------------------------------------

  // 511 shared entries and two more, well formed, adoptable and in time, the two more under names that go last.
  ghost predicate OneTooMany(base: GroupObject, x: (Text, Group), y: (Text, Group), now: real) {
    && |base| == GROUP_MAP_MAX_ENTRIES - 1 && Distinct(base + [x, y]) && GroupsOk(base + [x, y])
    && GoesLast(x, now) && GoesLast(y, now)
  }

  predicate GoesLast(x: (Text, Group), now: real) {
    !Index(x.0) && x.0 !in INHERITED && InTime(x.1, GroupVersion, now)
  }

  lemma {:induction false} SlotEnd(o: GroupObject, k: Text)
    requires !Index(k)
    ensures Slot(o, k) == |o|
    decreases |o|
  {
    hide Index;
    if o != [] {
      SlotEnd(o[1..], k);
    }
  }

  // Entries the object already has are not taken again.
  lemma {:induction false} NothingNew(local: GroupObject, base: GroupObject, n: nat, now: real)
    requires Distinct(local) && n <= |base| <= |local| && base == local[..|base|]
    ensures AdoptInto(local, base[..n], now) == local
  {
    hide Takes, MapOf, SetKey, Distinct;
    if n > 0 {
      NothingNew(local, base, n - 1, now);
      assert base[..n][..n - 1] == base[..n - 1];
      MapOfHas(local);
      assert base[n - 1] == local[n - 1];
      TakesLocally(MapOf(local), MapOf(local), base[n - 1].0, base[n - 1].1, now);
    }
  }

  lemma Swapped(base: GroupObject, x: (Text, Group), y: (Text, Group), now: real)
    requires OneTooMany(base, x, y, now)
    ensures OneTooMany(base, y, x, now)
    ensures Distinct(base + [x]) && GroupsOk(base + [x]) && !HasKey(base + [x], y.0)
  {
    hide GroupOk, GoesLast;
    var o, p, q := base + [x, y], base + [y, x], base + [x];
    var n := |base|;
    assert forall i :: 0 <= i < n ==> p[i] == o[i] && q[i] == o[i];
    assert p[n] == o[n + 1] && p[n + 1] == o[n] && q[n] == o[n];
    forall i | 0 <= i < |p|
      ensures GroupOk(p[i].0, p[i].1)
    {
      assert GroupOk(o[i].0, o[i].1) && GroupOk(o[n].0, o[n].1) && GroupOk(o[n + 1].0, o[n + 1].1);
    }
    forall i | 0 <= i < |q|
      ensures GroupOk(q[i].0, q[i].1) && q[i].0 != y.0
    {
      assert GroupOk(o[i].0, o[i].1) && o[i].0 != o[n + 1].0;
    }
  }

  // A device with the shared entries and one more takes the other in, at the end; on its next load it is gone.
  lemma TakenAndLost(base: GroupObject, x: (Text, Group), y: (Text, Group), now: real)
    requires OneTooMany(base, x, y, now)
    ensures Load(base + [x]) == base + [x] && Load(base + [x, y]) == base + [x]
    ensures AdoptInto(base + [x], base + [y], now) == base + [x, y]
  {
    hide GroupsOk, Distinct, GoesLast, MapOf, HasKey, Slot;
    Swapped(base, x, y, now);
    LoadCuts(base + [x]);
    LoadCuts(base + [x, y]);
    assert (base + [x, y])[..GROUP_MAP_MAX_ENTRIES] == base + [x];
    var local := base + [x];
    assert local[..|base|] == base && base[..|base|] == base;
    NothingNew(local, base, |base|, now);
    assert (base + [y])[..|base|] == base;
    MapOfHas(local);
    TakenLast(MapOf(local), y, now);
    SlotEnd(local, y.0) by {
      GoesLastNotIndex(y, now);
    }
    assert local + [y] == base + [x, y];
    assert local[..|local|] + [y] + local[|local|..] == local + [y];
  }

  lemma TakenLast(m: GroupMap, y: (Text, Group), now: real)
    requires GoesLast(y, now) && y.0 !in m
    ensures TakesGroup(m, y.0, y.1, now)
  {
  }

  lemma GoesLastNotIndex(y: (Text, Group), now: real)
    requires GoesLast(y, now)
    ensures !Index(y.0)
  {
  }

  // One turn: whether the device has been there before or not.
  lemma OneTurn(base: GroupObject, x: (Text, Group), y: (Text, Group), now: real, me: nat, s: GroupNet)
    requires OneTooMany(base, x, y, now) && |s.stored| == 2 && me < 2
    requires s.stored[me] == base + [x] || s.stored[me] == base + [x, y]
    requires s.flight == [GroupPacket(me, base + [y])]
    ensures DeliverGroups(s, 0, now) == GroupNet(s.stored[me := base + [x, y]], [GroupPacket(1 - me, base + [x])])
  {
    hide OneTooMany, AdoptInto, Load;
    TakenAndLost(base, x, y, now);
    Swapped(base, x, y, now);
    TakenAndLost(base, y, x, now);
    assert GroupCopies(me, base + [x], 0) == [];
    assert GroupCopies(me, base + [x], 1) == if me == 0 then [] else [GroupPacket(0, base + [x])];
    assert GroupCopies(me, base + [x], 2) == [GroupPacket(1 - me, base + [x])];
  }

  ghost function Cycling(base: GroupObject, x: (Text, Group), y: (Text, Group)): GroupNet {
    GroupNet([base + [x, y], base + [y, x]], [GroupPacket(0, base + [y])])
  }

  // 513 names are enough for gossip that never ends: two devices that share 511 entries and have one more each
  // get, with the one frame, into a state that two deliveries lead back to.
  lemma CycleAt513(base: GroupObject, x: (Text, Group), y: (Text, Group), now: real)
    requires OneTooMany(base, x, y, now)
    ensures var first := GroupNet([base + [x], base + [y]], [GroupPacket(0, base + [y])]);
      var second := DeliverGroups(first, 0, now);
      && |second.flight| == 1 && second.flight[0].to < 2
      && DeliverGroups(second, 0, now) == Cycling(base, x, y)
    ensures var s := Cycling(base, x, y);
      var t := DeliverGroups(s, 0, now);
      && |t.stored| == 2 && |t.flight| == 1 && t.flight[0].to < 2 && DeliverGroups(t, 0, now) == s
  {
    hide OneTooMany, DeliverGroups;
    Swapped(base, x, y, now);
    var first, s := GroupNet([base + [x], base + [y]], [GroupPacket(0, base + [y])]), Cycling(base, x, y);
    OneTurn(base, x, y, now, 0, first);
    OneTurn(base, y, x, now, 1, DeliverGroups(first, 0, now));
    OneTurn(base, x, y, now, 0, s);
    OneTurn(base, y, x, now, 1, DeliverGroups(s, 0, now));
  }

  function Turns(now: real, n: nat): (run: seq<Arrival>)
    ensures |run| == n
  {
    if n == 0 then [] else [Arrival(0, now)] + Turns(now, n - 1)
  }

  // So from there runs of every length can be delivered, and something is always in flight.
  lemma {:induction false} NeverQuiet(base: GroupObject, x: (Text, Group), y: (Text, Group), now: real, n: nat)
    requires OneTooMany(base, x, y, now)
    ensures GroupsDeliverable(Cycling(base, x, y), Turns(now, 2 * n))
    decreases n
  {
    hide OneTooMany, DeliverGroups;
    if n > 0 {
      NeverQuiet(base, x, y, now, n - 1);
      CycleAt513(base, x, y, now);
      var s, run := Cycling(base, x, y), Turns(now, 2 * n);
      assert run == [Arrival(0, now)] + Turns(now, 2 * n - 1);
      assert Turns(now, 2 * n - 1) == [Arrival(0, now)] + Turns(now, 2 * (n - 1));
      var t, rest := DeliverGroups(s, 0, now), run[1..];
      assert rest == Turns(now, 2 * n - 1) && rest[1..] == Turns(now, 2 * (n - 1));
      assert rest[0] == Arrival(0, now) && DeliverGroups(t, 0, now) == s;
      assert GroupsDeliverable(t, rest);
    }
  }

  // There are such entries: names of one unit each, all different.
  function OneUnit(i: nat): (Text, Group)
    requires i < 0x1000
  {
    ([0x4e00 + i], Group(0.0, false, 0.0, None))
  }

  function Shared(n: nat): (o: GroupObject)
    requires n < 0x1000
    ensures |o| == n
  {
    seq(n, i requires 0 <= i < n => OneUnit(i))
  }

  lemma OneUnitOk(i: nat, now: real)
    requires i < 0x1000 && now >= 0.0
    ensures GroupOk(OneUnit(i).0, OneUnit(i).1) && GoesLast(OneUnit(i), now)
  {
    var name := OneUnit(i).0;
    CleanIsFixed(name);
    assert |name| == 1 && |PROTO| == 9;
    assert forall s: Text :: s in INHERITED ==> |s| > 1;
  }

  lemma SharedAndTwo(now: real)
    requires now >= 0.0
    ensures OneTooMany(Shared(511), OneUnit(511), OneUnit(512), now)
  {
    hide GroupOk, GoesLast;
    var o := Shared(511) + [OneUnit(511), OneUnit(512)];
    assert forall i :: 0 <= i < 513 ==> o[i] == OneUnit(i);
    forall i | 0 <= i < 513
      ensures GroupOk(o[i].0, o[i].1)
    {
      OneUnitOk(i, now);
    }
    forall i, j | 0 <= i < j < 513
      ensures o[i].0 != o[j].0
    {
      assert o[i].0[0] != o[j].0[0];
    }
    OneUnitOk(511, now);
    OneUnitOk(512, now);
  }

  // So there is a net of two devices with one frame in flight whose gossip never has to end.
  lemma EndlessGossip()
    ensures var s := Cycling(Shared(511), OneUnit(511), OneUnit(512));
      && |s.stored| == 2 && |s.flight| == 1 && s.flight[0].to < 2
      && forall n: nat :: GroupsDeliverable(s, Turns(0.0, 2 * n))
  {
    hide OneTooMany, GroupsDeliverable;
    SharedAndTwo(0.0);
    forall n: nat
      ensures GroupsDeliverable(Cycling(Shared(511), OneUnit(511), OneUnit(512)), Turns(0.0, 2 * n))
    {
      NeverQuiet(Shared(511), OneUnit(511), OneUnit(512), 0.0, n);
    }
  }
}
