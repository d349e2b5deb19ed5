// What loading a stored or received blob comes to, entry by entry, and what sanitizing leaves of a name.
module NormalizeLaws {
  import opened Wrappers
  import opened Units
  import opened Normalize

  // ---- Names ------------------------------------------------------------------------------------------------

  ghost predicate Keeps(c: Unit) {
    c > 0x1f && c != 0x7f
  }

  ghost function KeptUnits(t: Text, n: nat): nat
    requires n <= |t|
  {
    if n == 0 then 0 else KeptUnits(t, n - 1) + if Keeps(t[n - 1]) then 1 else 0
  }

  // u is t without its control characters.
  ghost predicate Filters(t: Text, u: Text) {
    && |u| == KeptUnits(t, |t|)
    && forall i :: 0 <= i < |t| && Keeps(t[i]) ==> KeptUnits(t, i) < |u| && u[KeptUnits(t, i)] == t[i]
  }

  // u is what lies between the first and the last unit of t that is no whitespace.
  ghost predicate Trims(t: Text, u: Text) {
    exists i, j :: TrimsTo(t, u, i, j)
  }

  ghost predicate TrimsTo(t: Text, u: Text, i: int, j: int) {
    0 <= i <= j <= |t| && u == t[i..j] && Trimmed(u) && forall k :: 0 <= k < i || j <= k < |t| ==> White(t[k])
  }

  lemma {:induction false} StripFilters(t: Text)
    ensures Filters(t, Strip(t))
    decreases |t|
  {
    if t != [] {
      var n := |t| - 1;
      var s, u := t[..n], Strip(t[..n]);
      StripFilters(s);
      assert Strip(t) == if Keeps(t[n]) then u + [t[n]] else u;
      hide Strip, Keeps;
      SameKept(s, t, n);
      forall i | 0 <= i < |t| && Keeps(t[i])
        ensures KeptUnits(t, i) < |Strip(t)| && Strip(t)[KeptUnits(t, i)] == t[i]
      {
        if i < n {
          SameKept(s, t, i);
          assert s[i] == t[i];
        }
      }
    }
  }

  lemma {:induction false} SameKept(s: Text, t: Text, n: nat)
    requires s <= t && n <= |s|
    ensures KeptUnits(s, n) == KeptUnits(t, n)
  {
    if n > 0 {
      SameKept(s, t, n - 1);
    }
  }

  lemma {:induction false} TrimEndTrims(t: Text)
    ensures TrimEnd(t) <= t && forall k :: |TrimEnd(t)| <= k < |t| ==> White(t[k])
    decreases |t|
  {
    hide White;
    if t != [] && White(t[|t| - 1]) {
      TrimEndTrims(t[..|t| - 1]);
    }
  }

  lemma {:induction false} TrimStartTrims(t: Text)
    ensures |TrimStart(t)| <= |t| && TrimStart(t) == t[|t| - |TrimStart(t)|..]
    ensures forall k :: 0 <= k < |t| - |TrimStart(t)| ==> White(t[k])
    decreases |t|
  {
    hide White;
    if t != [] && White(t[0]) {
      TrimStartTrims(t[1..]);
      assert forall k :: 0 < k < |t| ==> t[k] == t[1..][k - 1];
    }
  }

  lemma TrimTrims(t: Text)
    ensures Trims(t, Trim(t))
  {
    hide TrimEnd, TrimStart, White;
    var s := TrimStart(t);
    TrimStartTrims(t);
    TrimEndTrims(s);
    var i := |t| - |s|;
    var j := i + |Trim(t)|;
    var a, b := TrimCuts(t);
    assert Trim(t) == t[i..j];
    forall k | j <= k < |t|
      ensures White(t[k])
    {
      assert t[k] == s[k - i];
    }
    assert TrimsTo(t, Trim(t), i, j);
  }

  // A name is what is left, trimmed, of the first 32 units of its trimmed text without control characters.
  lemma SanitizeSays(raw: Text) returns (a: Text, b: Text)
    ensures Filters(raw, a) && Trims(a, b) && Trims(if |b| <= 32 then b else b[..32], SanitizeGroupName(raw))
  {
    a := Strip(raw);
    b := Trim(a);
    StripFilters(raw);
    TrimTrims(a);
    TrimTrims(Take(b, GROUP_NAME_MAX));
    hide Trims, Filters, Trim, Strip;
  }

  // Filtering and trimming leave no choice, so those words determine the name.
  lemma FiltersOnce(t: Text, u: Text, v: Text)
    requires Filters(t, u) && Filters(t, v)
    ensures u == v
  {
    forall k | 0 <= k < |u|
      ensures u[k] == v[k]
    {
      var i := Nth(t, |t|, k);
    }
  }

  lemma {:induction false} Nth(t: Text, n: nat, k: nat) returns (i: nat)
    requires n <= |t| && k < KeptUnits(t, n)
    ensures i < n && Keeps(t[i]) && KeptUnits(t, i) == k
  {
    if k == KeptUnits(t, n - 1) {
      i := n - 1;
    } else {
      i := Nth(t, n - 1, k);
    }
  }

  lemma TrimsOnce(t: Text, u: Text, v: Text)
    requires Trims(t, u) && Trims(t, v)
    ensures u == v
  {
    var i, j :| TrimsTo(t, u, i, j);
    var a, b :| TrimsTo(t, v, a, b);
    TrimsIn(t, u, i, j, v, a, b);
    TrimsIn(t, v, a, b, u, i, j);
  }

  lemma TrimsIn(t: Text, u: Text, i: int, j: int, v: Text, a: int, b: int)
    requires TrimsTo(t, u, i, j) && TrimsTo(t, v, a, b)
    ensures u != [] ==> a <= i && j <= b
  {
    hide White;
    if u != [] {
      assert t[i] == u[0] && t[j - 1] == u[|u| - 1];
    }
  }

  // ---- Buddies ----------------------------------------------------------------------------------------------

  // How a legacy entry loads.
  ghost predicate LegacyAs(e: Buddy, addedAt: Option<real>) {
    && e.addedAt == (if addedAt.Some? then addedAt.value else 0.0)
    && e.v == 0.0 && !e.removed && e.group == Plain("Buddies") && e.vk == None
  }

  // The last entry under a name.
  ghost predicate LastLegacy(buddies: seq<(Option<Text>, Option<real>)>, n: nat, i: nat, name: Text)
    requires n <= |buddies|
  {
    i < n && buddies[i].0 == Some(name) && forall j :: i < j < n ==> buddies[j].0 != Some(name)
  }

  // Every name a legacy list has an entry for, but the empty one and the one that sets the prototype, loads as the
  // last entry under it: filed in "Buddies" at version zero.
  lemma {:induction false} LegacyLoads(buddies: seq<(Option<Text>, Option<real>)>, n: nat, name: Text)
    requires n <= |buddies|
    ensures var out := LegacyBuddies(buddies, n);
      && (name in out <==>
            name != [] && name != Plain("__proto__") && exists i: nat :: LastLegacy(buddies, n, i, name))
      && (forall i: nat :: LastLegacy(buddies, n, i, name) && name in out ==> LegacyAs(out[name], buddies[i].1))
  {
    hide LegacyAs;
    if n > 0 {
      LegacyLoads(buddies, n - 1, name);
      if buddies[n - 1].0 == Some(name) {
        assert LastLegacy(buddies, n, n - 1, name);
        LegacyEntry(buddies[n - 1].1);
      } else {
        var m := n - 1;
        assert forall i: nat :: LastLegacy(buddies, n, i, name) ==> LastLegacy(buddies, m, i, name);
        if i: nat :| LastLegacy(buddies, m, i, name) {
          assert LastLegacy(buddies, n, i, name);
        }
      }
    }
  }

  lemma LegacyEntry(addedAt: Option<real>)
    ensures LegacyAs(Buddy(OrZero(addedAt), 0.0, false, DEFAULT_GROUP, None), addedAt)
  {
  }

  // How an entry of the current shape loads: numbers default to zero, a blank group to "Buddies", and a verified key
  // counts only as 64 lower-case hex digits.
  ghost predicate BuddyAs(e: Buddy, raw: RawBuddy) {
    && raw.RawBuddy? && e.removed == raw.removed
    && e.addedAt == (if raw.addedAt.Some? then raw.addedAt.value else 0.0)
    && e.v == (if raw.v.Some? then raw.v.value else 0.0)
    && (if raw.group.Some? && (exists k :: 0 <= k < |raw.group.value| && !White(raw.group.value[k]))
        then e.group == raw.group.value else e.group == Plain("Buddies"))
    && (if raw.vk.Some? && |raw.vk.value| == 64
           && (forall k :: 0 <= k < 64 ==>
                 '0' as int <= raw.vk.value[k] <= '9' as int || 'a' as int <= raw.vk.value[k] <= 'f' as int)
        then e.vk == raw.vk else e.vk == None)
  }

  ghost predicate LastBuddy(listing: BuddyListing, n: nat, i: nat, name: Text)
    requires n <= |listing|
  {
    && i < n && listing[i].0 == name && listing[i].1.RawBuddy?
    && forall j :: i < j < n ==> listing[j].0 != name || listing[j].1.NoBuddy?
  }

  lemma {:induction false} BuddiesLoad(listing: BuddyListing, n: nat, name: Text)
    requires n <= |listing|
    ensures var out := Buddies(listing, n);
      && (name in out <==> name != [] && name != Plain("__proto__") && exists i: nat :: LastBuddy(listing, n, i, name))
      && (forall i: nat :: LastBuddy(listing, n, i, name) && name in out ==> BuddyAs(out[name], listing[i].1))
  {
    hide Plain, BuddyAs, CoerceBuddy;
    if n > 0 {
      BuddiesLoad(listing, n - 1, name);
      if listing[n - 1].0 == name && listing[n - 1].1.RawBuddy? {
        assert LastBuddy(listing, n, n - 1, name);
        BuddyEntry(listing[n - 1].1);
      } else {
        var m := n - 1;
        assert forall i: nat :: LastBuddy(listing, n, i, name) ==> LastBuddy(listing, m, i, name);
        if i: nat :| LastBuddy(listing, m, i, name) {
          assert LastBuddy(listing, n, i, name);
        }
      }
    }
  }

  lemma BuddyEntry(raw: RawBuddy)
    requires raw.RawBuddy?
    ensures BuddyAs(CoerceBuddy(raw), raw)
  {
    if raw.group.Some? {
      BlankIff(raw.group.value);
    }
    hide Trim, White;
  }

  lemma BlankIff(t: Text)
    ensures Trim(t) != [] <==> exists k :: 0 <= k < |t| && !White(t[k])
  {
    hide Trim, White;
    TrimTrims(t);
    var i, j :| TrimsTo(t, Trim(t), i, j);
    if Trim(t) != [] {
      assert !White(t[i]);
    }
  }

  // ---- Groups -----------------------------------------------------------------------------------------------

  // An entry that loads: an object under a name the program could have written or one of the two built-in names.
  ghost predicate Loads(entry: (Text, RawGroup)) {
    entry.1.RawGroup? && (entry.0 == [0, 'd' as int] || entry.0 == [0, 'b' as int] || (entry.0 != [] && Clean(entry.0)))
  }

  ghost predicate GroupAs(e: Group, name: Text, raw: RawGroup) {
    && raw.RawGroup? && e.removed == raw.removed
    && e.v == (if raw.v.Some? then raw.v.value else 0.0)
    && e.order == (if raw.order.Some? then raw.order.value else 0.0)
    && (if (name == [0, 'd' as int] || name == [0, 'b' as int])
           && raw.n.Some? && SanitizeGroupName(raw.n.value) != []
        then e.n == Some(SanitizeGroupName(raw.n.value)) else e.n == None)
  }

  // How many of the first n entries load, and how many of those get a place.
  ghost function Loading(listing: GroupListing, n: nat): nat
    requires n <= |listing|
  {
    if n == 0 then 0 else Loading(listing, n - 1) + if Loads(listing[n - 1]) then 1 else 0
  }

  ghost predicate Placed(listing: GroupListing, i: nat)
    requires i < |listing|
  {
    Loads(listing[i]) && Loading(listing, i) < 512 && listing[i].0 != Plain("__proto__")
  }

  ghost function Places(listing: GroupListing, n: nat): nat
    requires n <= |listing|
  {
    if n == 0 then 0 else Places(listing, n - 1) + if Placed(listing, n - 1) then 1 else 0
  }

  // A group map loads as the first 512 entries that load, in their order and but for the one that sets the prototype.
  lemma {:induction false} GroupsLoad(listing: GroupListing, n: nat)
    requires n <= |listing|
    ensures var (out, kept) := Groups(listing, n);
      && kept == (if Loading(listing, n) < 512 then Loading(listing, n) else 512)
      && |out| == Places(listing, n)
      && forall i :: 0 <= i < n && Placed(listing, i) ==>
           && Places(listing, i) < |out| && out[Places(listing, i)].0 == listing[i].0
           && GroupAs(out[Places(listing, i)].1, listing[i].0, listing[i].1)
  {
    hide GroupKey, CoerceGroup, Loads, GroupAs, Plain;
    if n > 0 {
      GroupsLoad(listing, n - 1);
      LoadsIff(listing[n - 1]);
      if Loads(listing[n - 1]) {
        GroupEntry(listing[n - 1].0, listing[n - 1].1);
      }
    }
  }

  lemma LoadsIff(entry: (Text, RawGroup))
    ensures Loads(entry) <==> entry.1.RawGroup? && GroupKey(entry.0)
    ensures Loads(entry) ==> entry.1.RawGroup?
  {
    SanitizeFixes(entry.0);
    hide SanitizeGroupName, Clean;
  }

  lemma GroupEntry(name: Text, raw: RawGroup)
    requires raw.RawGroup?
    ensures GroupAs(CoerceGroup(name, raw), name, raw)
  {
    hide SanitizeGroupName;
  }
}
