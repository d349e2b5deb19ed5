// Burn messages when history is off. Each tab then keeps what it stores in a memory of its own, so the latch of
// one tab's copy says nothing about another tab's. (The lock is still one for all tabs, but it is free in between.)
module BurnTiers {
  import opened Wrappers
  import opened Vault
  import opened BurnRace

  // A tab's own records, with nothing running on them and nothing shown yet.
  ghost predicate Quiet(kinds: string -> Kind, s: State) {
    StoreOk(kinds, s.store) && s.holder == map[] && s.phases == map[] && s.shown == []
  }

  predicate HoldsCopy(s: State, m: string) {
    m in s.store && Readable(s.store[m]) && s.store[m].body.Some?
  }

  predicate StoresNo(run: seq<Step>, m: string) {
    forall i :: 0 <= i < |run| ==> !((run[i].Store? || run[i].StoreWrite?) && run[i].meta.messageId == m)
  }

  predicate HasShown(s: State, m: string) {
    exists i :: 0 <= i < |s.shown| && s.shown[i].0 == m
  }

  ghost predicate ShowsAfter(kinds: string -> Kind, s: State, m: string, run: seq<Step>, t: State) {
    Leads(kinds, s, run, t) && StoresNo(run, m) && HasShown(t, m)
  }

  // Some run of the tab's operations, none of which stores the message anew, shows it.
  ghost predicate CanShow(kinds: string -> Kind, s: State, m: string) {
    exists run, t :: ShowsAfter(kinds, s, m, run, t)
  }

  // ---- Only a copy can be shown ------------------------------------------------------------------------------

  ghost predicate Hidden(s: State, m: string) {
    && !HoldsCopy(s, m) && !HasShown(s, m)
    && forall t: nat :: HiddenIn(PhaseOf(s, t), m)
  }

  predicate HiddenIn(p: Phase, m: string) {
    match p
    case Got(id, r) => id == m ==> r.body.None?
    case Latched(id, _) => id != m
    case _ => true
  }

  lemma HiddenStep(kinds: string -> Kind, s: State, a: Step, m: string)
    requires Inv(kinds, s) && Enabled(s, a) && Honest(kinds, s, a) && Hidden(s, m) && StoresNo([a], m)
    ensures Hidden(Next(s, a), m)
  {
    assert !(([a][0].Store? || [a][0].StoreWrite?) && [a][0].meta.messageId == m);
    HiddenStore(kinds, s, a, m);
    hide HoldsCopy, HasShown, Inv, Honest, Enabled, Next;
    forall t: nat
      ensures HiddenIn(PhaseOf(Next(s, a), t), m)
    {
      HiddenPhase(s, a, m, t);
    }
  }

  lemma HiddenStore(kinds: string -> Kind, s: State, a: Step, m: string)
    requires Inv(kinds, s) && Enabled(s, a) && Hidden(s, m)
    requires !((a.Store? || a.StoreWrite?) && a.meta.messageId == m)
    ensures !HoldsCopy(Next(s, a), m) && !HasShown(Next(s, a), m)
  {
    hide Once;
    if a.ViewWrite? || a.WriteLatch? || a.Return? {
      assert PhaseOk(kinds, s, a.t, PhaseOf(s, a.t));
      assert HiddenIn(PhaseOf(s, a.t), m);
    }
  }

  lemma HiddenPhase(s: State, a: Step, m: string, t: nat)
    requires Enabled(s, a) && Hidden(s, m)
    ensures HiddenIn(PhaseOf(Next(s, a), t), m)
  {
    assert HiddenIn(PhaseOf(s, t), m);
  }

  lemma {:induction false} StaysHidden(kinds: string -> Kind, s: State, run: seq<Step>, t: State, m: string)
    requires Inv(kinds, s) && Leads(kinds, s, run, t) && StoresNo(run, m) && Hidden(s, m)
    ensures Hidden(t, m)
    decreases |run|
  {
    hide Inv, Enabled, Next, Honest, Hidden;
    if run != [] {
      assert !((run[0].Store? || run[0].StoreWrite?) && run[0].meta.messageId == m);
      HiddenStep(kinds, s, run[0], m);
      StepInv(kinds, s, run[0]);
      assert StoresNo(run[1..], m);
      StaysHidden(kinds, Next(s, run[0]), run[1..], t, m);
    }
  }

  // ---- A copy can be shown -----------------------------------------------------------------------------------

  function Latch(m: string, key: nat): seq<Step> {
    [Lock(0, m), ReadLatch(0), WriteLatch(0, key), Return(0)]
  }

  lemma CopyShows(kinds: string -> Kind, s: State, m: string) returns (t: State)
    requires Quiet(kinds, s) && HoldsCopy(s, m)
    ensures ShowsAfter(kinds, s, m, Latch(m, s.store[m].body.value.key), t)
    ensures t.shown == [(m, s.store[m].body.value.plaintext)]
  {
    var r := s.store[m];
    var key := r.body.value.key;
    var a, b, c, e := Lock(0, m), ReadLatch(0), WriteLatch(0, key), Return(0);
    var s1 := Next(s, a);
    var s2 := Next(s1, b);
    var s3 := Next(s2, c);
    assert Enabled(s1, b) && Enabled(s2, c) && Enabled(s3, e);
    t := Next(s3, e);
    assert t.shown == [] + [(m, r.body.value.plaintext)];
    assert t.shown[0].0 == m;
    assert Honest(kinds, s, a) && Honest(kinds, s1, b) && Honest(kinds, s2, c) && Honest(kinds, s3, e);
    hide Enabled, Next, Honest;
    var run := Latch(m, key);
    assert run[1..] == [b, c, e] && run[1..][1..] == [c, e] && run[1..][1..][1..] == [e];
    assert Leads(kinds, t, [], t);
    assert Leads(kinds, s3, [e], t);
    assert Leads(kinds, s2, [c, e], t);
    assert Leads(kinds, s1, [b, c, e], t);
  }

  lemma CanShowIff(kinds: string -> Kind, s: State, m: string)
    requires Quiet(kinds, s)
    ensures CanShow(kinds, s, m) <==> HoldsCopy(s, m)
  {
    if HoldsCopy(s, m) {
      var t := CopyShows(kinds, s, m);
    } else {
      forall run, t | Leads(kinds, s, run, t) && StoresNo(run, m)
        ensures !HasShown(t, m)
      {
        assert Inv(kinds, s);
        assert Hidden(s, m);
        StaysHidden(kinds, s, run, t, m);
      }
    }
  }

  // ---- Tabs --------------------------------------------------------------------------------------------------

  ghost predicate TwoShow(kinds: string -> Kind, tabs: seq<State>, m: string) {
    exists d, e :: 0 <= d < e < |tabs| && CanShow(kinds, tabs[d], m) && CanShow(kinds, tabs[e], m)
  }

  ghost predicate TwoHold(tabs: seq<State>, m: string) {
    exists d, e :: 0 <= d < e < |tabs| && HoldsCopy(tabs[d], m) && HoldsCopy(tabs[e], m)
  }

  // A burn message can be shown in two tabs that keep their own records if and only if two of them hold an unread
  // copy of it.
  lemma ShownInTwoIff(kinds: string -> Kind, tabs: seq<State>, m: string)
    requires forall d :: 0 <= d < |tabs| ==> Quiet(kinds, tabs[d])
    ensures TwoShow(kinds, tabs, m) <==> TwoHold(tabs, m)
  {
    hide Quiet, CanShow, HoldsCopy;
    forall d | 0 <= d < |tabs|
      ensures CanShow(kinds, tabs[d], m) <==> HoldsCopy(tabs[d], m)
    {
      CanShowIff(kinds, tabs[d], m);
    }
  }

  // And two tabs that receive one envelope come to hold one each, since neither sees what the other stored.
  lemma HistoryOffShowsTwice(m: string)
    ensures var empty := State(map[], map[], map[], []);
      var tab := Next(empty, Store(7, Meta(m, "c", false, BurnOnRead, 0, false), "text", false, 0));
      Quiet(_ => BurnOnRead, tab) && TwoShow(_ => BurnOnRead, [tab, tab], m)
  {
    var put := Store(7, Meta(m, "c", false, BurnOnRead, 0, false), "text", false, 0);
    var tab := Next(State(map[], map[], map[], []), put);
    assert HoldsCopy(tab, m);
    assert [tab, tab][0] == tab && [tab, tab][1] == tab;
    ShownInTwoIff(_ => BurnOnRead, [tab, tab], m);
  }
}
