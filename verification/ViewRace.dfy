// Countdowns under any number of tabs. A view reads a record, arms its copy and writes it back, without a lock;
// so what it writes can land on a record that another tab has armed, or has erased, in between.
module ViewRace {
  import opened Wrappers
  import opened Vault
  import opened BurnRace

  // ---- What every interleaving keeps -----------------------------------------------------------------------

  // Only duration messages ever carry an expiry.
  ghost predicate TimedOk(kinds: string -> Kind, store: map<string, Record>) {
    && StoreOk(kinds, store)
    && forall id :: id in store && kinds(id) != Duration ==> store[id].expiresAt.None?
  }

  ghost predicate ReadOk(kinds: string -> Kind, s: State, p: Phase) {
    match p
    case Viewing(r) => r.kind == Duration && kinds(r.messageId) == Duration && r.expiresAt.None?
    case Expiring(id) => kinds(id) == Duration
    case Got(id, r) =>
      kinds(id) == BurnOnRead && r.messageId == id && r.kind == BurnOnRead && r.expiresAt.None? && id in s.store
    case _ => true
  }

  ghost predicate Timed(kinds: string -> Kind, s: State) {
    && TimedOk(kinds, s.store)
    && forall t: nat :: ReadOk(kinds, s, PhaseOf(s, t))
  }

  lemma TimedStep(kinds: string -> Kind, s: State, a: Step)
    requires Timed(kinds, s) && Enabled(s, a) && Consistent(kinds, a)
    ensures Timed(kinds, Next(s, a))
  {
    StoreTimed(kinds, s, a);
    hide TimedOk;
    forall t: nat
      ensures ReadOk(kinds, Next(s, a), PhaseOf(Next(s, a), t))
    {
      assert ReadOk(kinds, s, PhaseOf(s, t));
      ReadKept(kinds, s, a, t);
    }
  }

  lemma StoreTimed(kinds: string -> Kind, s: State, a: Step)
    requires Timed(kinds, s) && Enabled(s, a) && Consistent(kinds, a)
    ensures TimedOk(kinds, Next(s, a).store)
  {
    if a.WriteLatch? || a.ViewWrite? {
      assert ReadOk(kinds, s, PhaseOf(s, a.t));
    }
  }

  lemma ReadKept(kinds: string -> Kind, s: State, a: Step, t: nat)
    requires Timed(kinds, s) && Enabled(s, a) && Consistent(kinds, a)
    ensures ReadOk(kinds, Next(s, a), PhaseOf(Next(s, a), t))
  {
    assert ReadOk(kinds, s, PhaseOf(s, t));
    if a.SweepDelete? {
      assert ReadOk(kinds, s, PhaseOf(s, a.t));
    }
  }

  // ---- Exactly when countdowns stand -----------------------------------------------------------------------

  predicate Stores(a: Step) {
    a.Store? || a.StoreWrite?
  }

  // No expiry that was set moves, and, storing apart, no record that is gone comes back.
  ghost predicate Stands(s: State, t: State, a: Step) {
    && (forall id :: id in s.store && s.store[id].expiresAt.Some? && id in t.store ==>
          t.store[id].expiresAt == s.store[id].expiresAt)
    && (!Stores(a) ==> forall id :: id in t.store ==> id in s.store)
  }

  predicate OverArmed(s: State, r: Record) {
    r.messageId in s.store && s.store[r.messageId].expiresAt.Some? && s.store[r.messageId].expiresAt != r.expiresAt
  }

  // A view's write finds the record gone, or a write finds it armed for another time.
  predicate LandsLate(s: State, a: Step)
    requires Enabled(s, a)
  {
    match a
    case ViewWrite(t, now) =>
      var r := ArmRecord(PhaseOf(s, t).r, now); r.messageId !in s.store || OverArmed(s, r)
    case StoreWrite(_, key, meta, plaintext, armNow, now) => OverArmed(s, Seal(key, meta, plaintext, now, armNow))
    case _ => false
  }

  lemma StandsIff(kinds: string -> Kind, s: State, a: Step)
    requires Timed(kinds, s) && Enabled(s, a) && Consistent(kinds, a)
    ensures Stands(s, Next(s, a), a) <==> !LandsLate(s, a)
  {
    if a.WriteLatch? || a.ViewWrite? {
      assert ReadOk(kinds, s, PhaseOf(s, a.t));
    }
    var t := Next(s, a);
    if a.ViewWrite? {
      var r := ArmRecord(PhaseOf(s, a.t).r, a.now);
      assert r.messageId in t.store && t.store[r.messageId] == r;
    } else if a.StoreWrite? {
      var r := Seal(a.key, a.meta, a.plaintext, a.now, a.armNow);
      assert r.messageId in t.store && t.store[r.messageId] == r;
    }
  }

  ghost predicate StandsAt(states: seq<State>, steps: seq<Step>, k: nat)
    requires k < |steps| && k + 1 < |states|
  {
    Stands(states[k], states[k + 1], steps[k])
  }

  predicate LandsLateAt(states: seq<State>, steps: seq<Step>, k: nat)
    requires k < |steps| && k < |states| && Enabled(states[k], steps[k])
  {
    LandsLate(states[k], steps[k])
  }

  lemma {:induction false} TimedAlong(kinds: string -> Kind, states: seq<State>, steps: seq<Step>, k: nat)
    requires Run(kinds, states, steps) && Timed(kinds, states[0]) && k < |states|
    ensures Timed(kinds, states[k])
  {
    hide Timed, Next, Enabled, Consistent;
    if k > 0 {
      TimedAlong(kinds, states, steps, k - 1);
      BurnRace.StepOf(kinds, states, steps, k - 1);
      TimedStep(kinds, states[k - 1], steps[k - 1]);
    }
  }

  // Over any run of any tabs, no set expiry ever moves and no erased record comes back but by being stored again,
  // if and only if no write lands on a record armed for another time and no view's write on one that is gone.
  lemma CountdownsStandIff(kinds: string -> Kind, states: seq<State>, steps: seq<Step>)
    requires Run(kinds, states, steps) && Timed(kinds, states[0])
    ensures (forall k: nat :: k < |steps| ==> StandsAt(states, steps, k))
      <==> (forall k: nat :: k < |steps| ==> !LandsLateAt(states, steps, k))
  {
    hide Timed, Next, Consistent, Stands, LandsLate, Enabled;
    forall k: nat | k < |steps|
      ensures StandsAt(states, steps, k) <==> !LandsLateAt(states, steps, k)
    {
      TimedAlong(kinds, states, steps, k);
      BurnRace.StepOf(kinds, states, steps, k);
      StandsIff(kinds, states[k], steps[k]);
    }
  }

  // ---- Views that overlap ----------------------------------------------------------------------------------

  function Unarmed(m: string): Record {
    Seal(7, Meta(m, "c", false, Duration, 1, false), "text", 0, false)
  }

  function ArmedAt(m: string, now: int): Record {
    ArmRecord(Unarmed(m), now)
  }

  lemma Extend(states: seq<State>, steps: seq<Step>, a: Step, t: State)
    requires Run(_ => Duration, states, steps)
    requires Enabled(states[|steps|], a) && Consistent(_ => Duration, a) && Next(states[|steps|], a) == t
    ensures Run(_ => Duration, states + [t], steps + [a]) && (states + [t])[|steps + [a]|] == t
  {
    hide Enabled, Next, Consistent;
  }

  lemma Reads(s: State, t: nat, m: string, u: State)
    requires m in s.store && s.store[m] == Unarmed(m) && t !in s.phases
    requires u == s.(phases := s.phases[t := Viewing(Unarmed(m))])
    ensures Enabled(s, ViewRead(t, m)) && Next(s, ViewRead(t, m)) == u
  {
  }

  lemma Writes(s: State, t: nat, m: string, now: int, u: State)
    requires t in s.phases && s.phases[t] == Viewing(Unarmed(m))
    requires u == s.(store := s.store[m := ArmedAt(m, now)], phases := s.phases - {t})
    ensures Enabled(s, ViewWrite(t, now)) && Next(s, ViewWrite(t, now)) == u
  {
  }

  lemma Erases(s: State, m: string, u: State, v: State)
    requires m in s.store && s.store[m] == ArmedAt(m, 5) && 3 !in s.phases
    requires u == s.(phases := s.phases[3 := Expiring(m)]) && v == s.(store := s.store - {m})
    ensures Enabled(s, SweepRead(3, m, 1005)) && Next(s, SweepRead(3, m, 1005)) == u
    ensures Enabled(u, SweepDelete(3)) && Next(u, SweepDelete(3)) == v
  {
    assert u.phases - {3} == s.phases;
  }

  // Stored, and read by three views.
  lemma ThreeReading(m: string) returns (states: seq<State>, steps: seq<Step>)
    ensures Run(_ => Duration, states, steps) && |steps| == 4 && states[0] == State(map[], map[], map[], [])
    ensures var v := Viewing(Unarmed(m));
      states[4] == State(map[m := Unarmed(m)], map[], map[0 := v, 1 := v, 2 := v], [])
  {
    var r, v := Unarmed(m), Viewing(Unarmed(m));
    var put := Store(7, Meta(m, "c", false, Duration, 1, false), "text", false, 0);
    var s0, s1 := State(map[], map[], map[], []), State(map[m := r], map[], map[], []);
    var s2, s3 := s1.(phases := map[0 := v]), s1.(phases := map[0 := v, 1 := v]);
    var s4 := s1.(phases := map[0 := v, 1 := v, 2 := v]);
    assert Enabled(s0, put) && Next(s0, put) == s1;
    Reads(s1, 0, m, s2);
    Reads(s2, 1, m, s3);
    Reads(s3, 2, m, s4);
    hide Enabled, Next;
    states, steps := [s0], [];
    Extend(states, steps, put, s1);
    states, steps := states + [s1], steps + [put];
    Extend(states, steps, ViewRead(0, m), s2);
    states, steps := states + [s2], steps + [ViewRead(0, m)];
    Extend(states, steps, ViewRead(1, m), s3);
    states, steps := states + [s3], steps + [ViewRead(1, m)];
    Extend(states, steps, ViewRead(2, m), s4);
    states, steps := states + [s4], steps + [ViewRead(2, m)];
  }

  // The first two write.
  lemma ExpiryMoved(m: string) returns (states: seq<State>, steps: seq<Step>)
    ensures Run(_ => Duration, states, steps) && |steps| == 6 && states[0] == State(map[], map[], map[], [])
    ensures states[5].store == map[m := ArmedAt(m, 0)]
    ensures states[6] == State(map[m := ArmedAt(m, 5)], map[], map[2 := Viewing(Unarmed(m))], [])
  {
    hide Enabled, Next, Unarmed, ArmedAt;
    states, steps := ThreeReading(m);
    var v := Viewing(Unarmed(m));
    var s5 := State(map[m := ArmedAt(m, 0)], map[], map[1 := v, 2 := v], []);
    var s6 := State(map[m := ArmedAt(m, 5)], map[], map[2 := v], []);
    Writes(states[4], 0, m, 0, s5);
    Writes(s5, 1, m, 5, s6);
    Extend(states, steps, ViewWrite(0, 0), s5);
    states, steps := states + [s5], steps + [ViewWrite(0, 0)];
    Extend(states, steps, ViewWrite(1, 5), s6);
    states, steps := states + [s6], steps + [ViewWrite(1, 5)];
  }

  // The message is erased, and the third view writes.
  lemma MessageBack(m: string) returns (states: seq<State>, steps: seq<Step>)
    ensures Run(_ => Duration, states, steps) && |steps| == 9 && states[0] == State(map[], map[], map[], [])
    ensures states[5].store == map[m := ArmedAt(m, 0)] && states[6].store == map[m := ArmedAt(m, 5)]
    ensures states[8].store == map[] && states[9].store == map[m := ArmedAt(m, 2000)]
  {
    hide Enabled, Next, Unarmed, ArmedAt;
    states, steps := ExpiryMoved(m);
    var v := Viewing(Unarmed(m));
    var s6 := State(map[m := ArmedAt(m, 5)], map[], map[2 := v], []);
    var s7, s8 := s6.(phases := map[2 := v, 3 := Expiring(m)]), s6.(store := map[]);
    var s9 := State(map[m := ArmedAt(m, 2000)], map[], map[], []);
    Erases(s6, m, s7, s8);
    Writes(s8, 2, m, 2000, s9);
    Extend(states, steps, SweepRead(3, m, 1005), s7);
    states, steps := states + [s7], steps + [SweepRead(3, m, 1005)];
    Extend(states, steps, SweepDelete(3), s8);
    states, steps := states + [s8], steps + [SweepDelete(3)];
    Extend(states, steps, ViewWrite(2, 2000), s9);
    states, steps := states + [s9], steps + [ViewWrite(2, 2000)];
  }

  // Three views of one message read it before any of them writes: the second moves the expiry the first has set,
  // and the third brings the message back, readable and with a new countdown, after it has been erased.
  lemma OverlappingViews(m: string) returns (states: seq<State>, steps: seq<Step>)
    ensures Run(_ => Duration, states, steps) && |steps| == 9 && states[0] == State(map[], map[], map[], [])
    ensures m in states[5].store && states[5].store[m].expiresAt == Some(1000)
    ensures m in states[6].store && states[6].store[m].expiresAt == Some(1005)
    ensures m !in states[8].store
    ensures m in states[9].store && states[9].store[m].expiresAt == Some(3000)
      && Open(7, states[9].store[m]) == Some("text")
  {
    states, steps := MessageBack(m);
    hide Enabled, Next;
  }
}
