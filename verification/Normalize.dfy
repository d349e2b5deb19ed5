// Coercion of stored and received buddy and group maps.
module Normalize {
  import opened Wrappers
  import opened Units

  // ---- Group names ------------------------------------------------------------------------------------

  const GROUP_NAME_MAX := 32

  predicate Control(c: Unit) {
    c <= 0x1f || c == 0x7f
  }

  // What trimming removes.
  predicate White(c: Unit) {
    || 0x09 <= c <= 0x0d || c == 0x20 || c == 0xa0 || c == 0x1680 || 0x2000 <= c <= 0x200a
    || c == 0x2028 || c == 0x2029 || c == 0x202f || c == 0x205f || c == 0x3000 || c == 0xfeff
  }

  function Strip(t: Text): Text {
    if t == [] then [] else Strip(t[..|t| - 1]) + if Control(t[|t| - 1]) then [] else [t[|t| - 1]]
  }

  function TrimEnd(t: Text): Text {
    if t != [] && White(t[|t| - 1]) then TrimEnd(t[..|t| - 1]) else t
  }

  function TrimStart(t: Text): Text {
    if t != [] && White(t[0]) then TrimStart(t[1..]) else t
  }

  function Trim(t: Text): Text {
    TrimEnd(TrimStart(t))
  }

  function Take(t: Text, n: nat): Text {
    if |t| <= n then t else t[..n]
  }

  function SanitizeGroupName(raw: Text): Text {
    Trim(Take(Trim(Strip(raw)), GROUP_NAME_MAX))
  }

  // A name the program could have written: short, no control characters, no edge whitespace.
  predicate Clean(t: Text) {
    && |t| <= GROUP_NAME_MAX
    && (forall i :: 0 <= i < |t| ==> !Control(t[i]))
    && Trimmed(t)
  }

  predicate Trimmed(t: Text) {
    t != [] ==> !White(t[0]) && !White(t[|t| - 1])
  }

  lemma {:induction false} StripClears(t: Text)
    ensures forall i :: 0 <= i < |Strip(t)| ==> !Control(Strip(t)[i])
    ensures Strip(t) == t <==> forall i :: 0 <= i < |t| ==> !Control(t[i])
    ensures |Strip(t)| <= |t|
    decreases |t|
  {
    if t != [] {
      StripClears(t[..|t| - 1]);
      assert t == t[..|t| - 1] + [t[|t| - 1]];
    }
  }

  lemma {:induction false} TrimEndCuts(t: Text)
    ensures TrimEnd(t) <= t && (TrimEnd(t) != [] ==> !White(TrimEnd(t)[|TrimEnd(t)| - 1]))
    ensures TrimEnd(t) == t <==> (t != [] ==> !White(t[|t| - 1]))
    decreases |t|
  {
    if t != [] && White(t[|t| - 1]) {
      TrimEndCuts(t[..|t| - 1]);
    }
  }

  lemma {:induction false} TrimStartCuts(t: Text)
    ensures |TrimStart(t)| <= |t| && TrimStart(t) == t[|t| - |TrimStart(t)|..]
    ensures TrimStart(t) != [] ==> !White(TrimStart(t)[0])
    ensures TrimStart(t) == t <==> (t != [] ==> !White(t[0]))
    decreases |t|
  {
    if t != [] && White(t[0]) {
      TrimStartCuts(t[1..]);
    }
  }

  // Trimming takes a slice, leaves no edge whitespace, and leaves trimmed text alone.
  lemma TrimCuts(t: Text) returns (i: nat, j: nat)
    ensures i <= j <= |t| && Trim(t) == t[i..j] && Trimmed(Trim(t)) && (Trim(t) == t <==> Trimmed(t))
  {
    TrimStartCuts(t);
    TrimEndCuts(TrimStart(t));
    TrimEndCuts(t);
    i := |t| - |TrimStart(t)|;
    j := i + |Trim(t)|;
  }

  lemma SanitizedIsClean(raw: Text)
    ensures Clean(SanitizeGroupName(raw))
  {
    hide Strip, Trim, Control, White;
    StripClears(raw);
    var a := Strip(raw);
    var i, j := TrimCuts(a);
    var b := Take(Trim(a), GROUP_NAME_MAX);
    var k, l := TrimCuts(b);
    assert forall x :: 0 <= x < |b| ==> b[x] == a[i + x];
  }

  // Sanitizing changes a name exactly when the name is not clean; so it is idempotent.
  lemma SanitizeFixes(t: Text)
    ensures SanitizeGroupName(t) == t <==> Clean(t)
    ensures SanitizeGroupName(SanitizeGroupName(t)) == SanitizeGroupName(t)
  {
    SanitizedIsClean(t);
    CleanIsFixed(t);
    CleanIsFixed(SanitizeGroupName(t));
  }

  lemma CleanIsFixed(t: Text)
    ensures Clean(t) ==> SanitizeGroupName(t) == t
  {
    hide Strip, Trim, Control, White;
    if Clean(t) {
      StripClears(t);
      var i, j := TrimCuts(t);
    }
  }

  // ---- Group maps ---------------------------------------------------------------------------------------

  const GROUP_MAP_MAX_ENTRIES := 512

  // "\u0000d" and "\u0000b" carry the display names of the two built-in groups.
  const RK_DEFAULT: Text := [0, 0x64]
  const RK_BLOCKED: Text := [0, 0x62]

  // Assigning this name on an object sets the prototype instead of an entry.
  const PROTO := Plain("__proto__")

  // What a field of the wrong type, or a number that is not finite, comes to is None.
  datatype RawGroup = NotAnObject | RawGroup(v: Option<real>, removed: bool, order: Option<real>, n: Option<Text>)

  datatype Group = Group(v: real, removed: bool, order: real, n: Option<Text>)

  predicate Reserved(name: Text) {
    name == RK_DEFAULT || name == RK_BLOCKED
  }

  predicate GroupKey(name: Text) {
    name != [] && (Reserved(name) || SanitizeGroupName(name) == name)
  }

  function OrZero(x: Option<real>): real {
    if x.Some? then x.value else 0.0
  }

  function CoerceGroup(name: Text, e: RawGroup): Group
    requires e.RawGroup?
  {
    var alias := if Reserved(name) && e.n.Some? then SanitizeGroupName(e.n.value) else [];
    Group(OrZero(e.v), e.removed, OrZero(e.order), if alias != [] then Some(alias) else None)
  }

  // What listing a received or stored object's entries gives: its keys are distinct.
  type GroupListing = seq<(Text, RawGroup)>

  // A group map as the object it is: its entries in the order the object lists them. (Objects list keys that
  // are array indices first; a listing comes from an object, so setting its names one by one keeps its order.)
  type GroupObject = seq<(Text, Group)>

  // The first `n` listed entries: the object so far, and how many were kept.
  function Groups(listing: GroupListing, n: nat): (GroupObject, nat)
    requires n <= |listing|
  {
    if n == 0 then ([], 0)
    else
      var (out, kept) := Groups(listing, n - 1);
      var (name, e) := listing[n - 1];
      if !GroupKey(name) || e.NotAnObject? || kept >= GROUP_MAP_MAX_ENTRIES then (out, kept)
      else (if name == PROTO then out else out + [(name, CoerceGroup(name, e))], kept + 1)
  }

  method NormalizeGroupMap(listing: GroupListing) returns (out: GroupObject)
    ensures out == Groups(listing, |listing|).0
  {
    hide SanitizeGroupName;
    out := [];
    var kept := 0;
    for i := 0 to |listing|
      invariant (out, kept) == Groups(listing, i)
    {
      var (name, e) := listing[i];
      if |name| == 0 || e.NotAnObject? || kept >= GROUP_MAP_MAX_ENTRIES {
        continue;
      }
      var reserved := name == RK_DEFAULT || name == RK_BLOCKED;
      if !reserved && SanitizeGroupName(name) != name {
        continue;
      }
      var alias := if reserved && e.n.Some? then SanitizeGroupName(e.n.value) else [];
      var entry := Group(OrZero(e.v), e.removed, OrZero(e.order), if |alias| > 0 then Some(alias) else None);
      if name != PROTO {
        out := out + [(name, entry)];
      }
      kept := kept + 1;
    }
  }

  // An entry normalization leaves alone: a key and a label the program could have written.
  predicate GroupOk(name: Text, e: Group) {
    && GroupKey(name) && name != PROTO
    && (e.n.Some? ==> Reserved(name) && e.n.value != [] && Clean(e.n.value))
  }

  ghost predicate GroupsOk(o: GroupObject) {
    forall i :: 0 <= i < |o| ==> GroupOk(o[i].0, o[i].1)
  }

  function RawOf(e: Group): RawGroup {
    RawGroup(Some(e.v), e.removed, Some(e.order), e.n)
  }

  // The object written out, and what reading it back comes to.
  function WrittenOut(o: GroupObject): (listing: GroupListing)
    ensures |listing| == |o|
  {
    seq(|o|, i requires 0 <= i < |o| => (o[i].0, RawOf(o[i].1)))
  }

  function Load(o: GroupObject): GroupObject {
    Groups(WrittenOut(o), |o|).0
  }

  lemma {:induction false} NormalizedOk(listing: GroupListing, n: nat)
    requires n <= |listing|
    ensures var (out, kept) := Groups(listing, n); |out| <= kept <= GROUP_MAP_MAX_ENTRIES && GroupsOk(out)
  {
    hide GroupOk, GroupKey, CoerceGroup;
    if n > 0 {
      NormalizedOk(listing, n - 1);
      var (name, e) := listing[n - 1];
      if e.RawGroup? && GroupKey(name) && name != PROTO {
        CoercedOk(name, e);
      }
    }
  }

  lemma CoercedOk(name: Text, e: RawGroup)
    requires e.RawGroup? && GroupKey(name) && name != PROTO
    ensures GroupOk(name, CoerceGroup(name, e))
  {
    if e.n.Some? {
      SanitizedIsClean(e.n.value);
    }
  }

  lemma EntryFixed(name: Text, e: Group)
    ensures GroupOk(name, e) ==> GroupKey(name) && name != PROTO && CoerceGroup(name, RawOf(e)) == e
  {
    if e.n.Some? {
      CleanIsFixed(e.n.value);
    }
  }

  lemma {:induction false} WrittenKept(o: GroupObject, n: nat)
    requires GroupsOk(o) && n <= |o|
    ensures var m := if n <= GROUP_MAP_MAX_ENTRIES then n else GROUP_MAP_MAX_ENTRIES;
      Groups(WrittenOut(o), n) == (o[..m], m)
  {
    hide GroupOk, GroupKey, CoerceGroup;
    if n > 0 {
      WrittenKept(o, n - 1);
      assert GroupOk(o[n - 1].0, o[n - 1].1);
      EntryFixed(o[n - 1].0, o[n - 1].1);
      assert n <= GROUP_MAP_MAX_ENTRIES ==> o[..n] == o[..n - 1] + [o[n - 1]];
    }
  }

  // Loading an object of well-formed entries cuts it to its first 512.
  lemma LoadCuts(o: GroupObject)
    requires GroupsOk(o)
    ensures Load(o) == if |o| <= GROUP_MAP_MAX_ENTRIES then o else o[..GROUP_MAP_MAX_ENTRIES]
  {
    WrittenKept(o, |o|);
    assert o[..|o|] == o;
  }

  // A group map written out comes back unchanged if and only if normalization could have produced it: its keys
  // and labels are ones the program writes, and it has at most 512 entries.
  lemma GroupMapRoundTrip(o: GroupObject)
    ensures Load(o) == o <==> GroupsOk(o) && |o| <= GROUP_MAP_MAX_ENTRIES
  {
    NormalizedOk(WrittenOut(o), |o|);
    if GroupsOk(o) {
      LoadCuts(o);
    }
  }

  // The keys the first entries of a listing name.
  ghost function KeysOf<R>(listing: seq<(Text, R)>, n: nat): set<Text>
    requires n <= |listing|
  {
    set i | 0 <= i < n :: listing[i].0
  }

  lemma {:induction false} KeysCount<R>(listing: seq<(Text, R)>, n: nat)
    requires n <= |listing| && forall i, j :: 0 <= i < j < |listing| ==> listing[i].0 != listing[j].0
    ensures |KeysOf(listing, n)| == n
  {
    if n > 0 {
      KeysCount(listing, n - 1);
      assert KeysOf(listing, n) == KeysOf(listing, n - 1) + {listing[n - 1].0};
      assert listing[n - 1].0 !in KeysOf(listing, n - 1);
    }
  }

  // ---- Buddy maps ---------------------------------------------------------------------------------------

  const DEFAULT_GROUP := Plain("Buddies")

  datatype RawBuddy = NoBuddy
    | RawBuddy(addedAt: Option<real>, v: Option<real>, removed: bool, group: Option<Text>, vk: Option<Text>)

  datatype Buddy = Buddy(addedAt: real, v: real, removed: bool, group: Text, vk: Option<Text>)

  type BuddyListing = seq<(Text, RawBuddy)>

  // The current map shape, the older array of buddies, or anything else.
  datatype Blob = Unknown | Legacy(buddies: seq<(Option<Text>, Option<real>)>) | Mapped(listing: BuddyListing)

  predicate HexKey(t: Text) {
    |t| == 64 && forall i :: 0 <= i < |t| ==> 0x30 <= t[i] <= 0x39 || 0x61 <= t[i] <= 0x66
  }

  function CoerceBuddy(e: RawBuddy): Buddy
    requires e.RawBuddy?
  {
    Buddy(OrZero(e.addedAt), OrZero(e.v), e.removed,
               if e.group.Some? && Trim(e.group.value) != [] then e.group.value else DEFAULT_GROUP,
               if e.vk.Some? && HexKey(e.vk.value) then e.vk else None)
  }

  function Buddies(listing: BuddyListing, n: nat): map<Text, Buddy>
    requires n <= |listing|
  {
    if n == 0 then map[]
    else
      var out := Buddies(listing, n - 1);
      var (name, e) := listing[n - 1];
      if name == [] || e.NoBuddy? || name == PROTO then out else out[name := CoerceBuddy(e)]
  }

  // Every legacy entry gets version zero, so that any later change wins over it.
  function LegacyBuddies(buddies: seq<(Option<Text>, Option<real>)>, n: nat): map<Text, Buddy>
    requires n <= |buddies|
  {
    if n == 0 then map[]
    else
      var out := LegacyBuddies(buddies, n - 1);
      var (name, addedAt) := buddies[n - 1];
      if name.None? || name.value == [] || name.value == PROTO then out
      else out[name.value := Buddy(OrZero(addedAt), 0.0, false, DEFAULT_GROUP, None)]
  }

  method NormalizeBuddyMap(raw: Blob) returns (out: map<Text, Buddy>)
    ensures out == match raw
                   case Unknown => map[]
                   case Legacy(buddies) => LegacyBuddies(buddies, |buddies|)
                   case Mapped(listing) => Buddies(listing, |listing|)
  {
    hide Trim, HexKey;
    out := map[];
    match raw {
      case Unknown =>
      case Legacy(buddies) =>
        for i := 0 to |buddies|
          invariant out == LegacyBuddies(buddies, i)
        {
          var (name, addedAt) := buddies[i];
          if name.Some? && |name.value| > 0 && name.value != PROTO {
            out := out[name.value := Buddy(OrZero(addedAt), 0.0, false, DEFAULT_GROUP, None)];
          }
        }
      case Mapped(listing) =>
        for i := 0 to |listing|
          invariant out == Buddies(listing, i)
        {
          var (name, e) := listing[i];
          if |name| == 0 || e.NoBuddy? {
            continue;
          }
          var vk := if e.vk.Some? && HexKey(e.vk.value) then e.vk.value else [];
          var entry := Buddy(OrZero(e.addedAt), OrZero(e.v), e.removed,
            if e.group.Some? && |Trim(e.group.value)| > 0 then e.group.value else DEFAULT_GROUP,
            if |vk| > 0 then Some(vk) else None);
          KeyNotEmpty(e);
          if name != PROTO {
            out := out[name := entry];
          }
        }
    }
  }

  lemma KeyNotEmpty(e: RawBuddy)
    ensures e.RawBuddy? && e.vk.Some? && HexKey(e.vk.value) ==> e.vk.value != []
  {
  }

  // An entry normalization leaves alone.
  predicate BuddyOk(e: Buddy) {
    Trim(e.group) != [] && (e.vk.Some? ==> HexKey(e.vk.value))
  }

  ghost predicate BuddyMapOk(m: map<Text, Buddy>) {
    forall k :: k in m ==> k != [] && k != PROTO && BuddyOk(m[k])
  }

  function RawOfBuddy(e: Buddy): RawBuddy {
    RawBuddy(Some(e.addedAt), Some(e.v), e.removed, Some(e.group), e.vk)
  }

  ghost predicate ListsBuddies(listing: BuddyListing, m: map<Text, Buddy>) {
    && |listing| == |m|
    && (forall i :: 0 <= i < |listing| ==> listing[i].0 in m && listing[i].1 == RawOfBuddy(m[listing[i].0]))
    && (forall i, j :: 0 <= i < j < |listing| ==> listing[i].0 != listing[j].0)
  }

  lemma DefaultGroupOk()
    ensures Trim(DEFAULT_GROUP) != []
  {
    TrimStartCuts(DEFAULT_GROUP);
    TrimEndCuts(DEFAULT_GROUP);
  }

  lemma {:induction false} NormalizedBuddiesOk(listing: BuddyListing, n: nat)
    requires n <= |listing|
    ensures BuddyMapOk(Buddies(listing, n))
  {
    hide Trim, HexKey;
    if n > 0 {
      NormalizedBuddiesOk(listing, n - 1);
      DefaultGroupOk();
    }
  }

  lemma {:induction false} ListedBuddiesKept(listing: BuddyListing, m: map<Text, Buddy>, n: nat)
    requires ListsBuddies(listing, m) && BuddyMapOk(m) && n <= |listing|
    ensures Buddies(listing, n) == map k | k in m && k in KeysOf(listing, n) :: m[k]
  {
    hide Trim, HexKey;
    if n > 0 {
      ListedBuddiesKept(listing, m, n - 1);
      var k := listing[n - 1].0;
      assert k in m && listing[n - 1].1 == RawOfBuddy(m[k]) && CoerceBuddy(RawOfBuddy(m[k])) == m[k];
      assert KeysOf(listing, n) == KeysOf(listing, n - 1) + {k};
      var before := map j | j in m && j in KeysOf(listing, n - 1) :: m[j];
      assert before[k := m[k]] == map j | j in m && j in KeysOf(listing, n) :: m[j];
    } else {
      assert KeysOf(listing, 0) == {};
    }
  }

  // A buddy map written out in any order comes back unchanged if and only if every username is one an object
  // can hold an entry for, every group name is not blank, and every verified key is 64 hex digits.
  lemma BuddyMapRoundTrip(listing: BuddyListing, m: map<Text, Buddy>)
    requires ListsBuddies(listing, m)
    ensures Buddies(listing, |listing|) == m <==> BuddyMapOk(m)
  {
    hide Trim, HexKey, BuddyOk;
    NormalizedBuddiesOk(listing, |listing|);
    if BuddyMapOk(m) {
      ListedBuddiesKept(listing, m, |listing|);
      KeysCount(listing, |listing|);
      var ks := KeysOf(listing, |listing|);
      assert ks <= m.Keys;
      assert m.Keys == ks + (m.Keys - ks);
      assert |m.Keys| == |m|;
      assert ks == m.Keys;
    }
  }
}
