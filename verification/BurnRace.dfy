// Any number of tabs over one record store. Each operation is split at its awaits, so steps of different
// operations interleave freely; only the burn latch holds a lock, one per message.
module BurnRace {
  import opened Wrappers
  import opened Vault

  // Where one running operation has got to.
  datatype Phase =
    | Idle
    | Locked(id: string)
    | Got(id: string, r: Record)
    | Latched(id: string, framed: string)
    | Viewing(r: Record)
    | Expiring(id: string)
    | Absent(id: string)

  // `holder` is who holds the lock of a message; `shown` is every plaintext a burn read has returned.
  datatype State = State(store: map<string, Record>, holder: map<string, nat>, phases: map<nat, Phase>,
                         shown: seq<(string, string)>)

  function PhaseOf(s: State, t: nat): Phase {
    if t in s.phases then s.phases[t] else Idle
  }

  datatype Step =
    | Lock(t: nat, id: string)
    | ReadLatch(t: nat)
    | WriteLatch(t: nat, key: nat)
    | Return(t: nat)
    | ViewRead(t: nat, id: string)
    | ViewWrite(t: nat, now: int)
    | SweepRead(t: nat, id: string, now: int)
    | SweepDelete(t: nat)
    | Store(key: nat, meta: Meta, plaintext: string, armNow: bool, now: int)
    | StoreCheck(t: nat, id: string)
    | StoreWrite(t: nat, key: nat, meta: Meta, plaintext: string, armNow: bool, now: int)
    | Crash(t: nat)

  function Release(s: State, t: nat, id: string): State {
    s.(holder := s.holder - {id}, phases := s.phases - {t})
  }

  function Go(s: State, t: nat, p: Phase): State {
    s.(phases := s.phases[t := p])
  }

  predicate Readable(r: Record) {
    r.kind == BurnOnRead && !r.read
  }

  predicate Enabled(s: State, a: Step) {
    match a
    case Lock(t, id) => PhaseOf(s, t).Idle? && id !in s.holder
    case ReadLatch(t) => PhaseOf(s, t).Locked?
    case WriteLatch(t, _) => PhaseOf(s, t).Got?
    case Return(t) => PhaseOf(s, t).Latched?
    case ViewRead(t, _) => PhaseOf(s, t).Idle?
    case ViewWrite(t, _) => PhaseOf(s, t).Viewing?
    case SweepRead(t, _, _) => PhaseOf(s, t).Idle?
    case SweepDelete(t) => PhaseOf(s, t).Expiring?
    case Store(_, _, _, _, _) => true
    case StoreCheck(t, _) => PhaseOf(s, t).Idle?
    case StoreWrite(t, _, meta, _, _, _) => PhaseOf(s, t) == Absent(meta.messageId)
    case Crash(_) => true
  }

  function Next(s: State, a: Step): State
    requires Enabled(s, a)
  {
    match a
    case Lock(t, id) => Go(s, t, Locked(id)).(holder := s.holder[id := t])
    case ReadLatch(t) =>
      var id := PhaseOf(s, t).id;
      if id in s.store && Readable(s.store[id]) then Go(s, t, Got(id, s.store[id])) else Release(s, t, id)
    case WriteLatch(t, key) =>
      var p := PhaseOf(s, t);
      var framed := Open(key, p.r);
      if framed.None? then Release(s, t, p.id)
      else Go(s, t, Latched(p.id, framed.value)).(store := s.store[p.id := Tombstone(p.r)])
    case Return(t) =>
      var p := PhaseOf(s, t);
      Release(s, t, p.id).(shown := s.shown + [(p.id, p.framed)])
    case ViewRead(t, id) =>
      if id in s.store && s.store[id].kind == Duration && s.store[id].expiresAt.None?
        then Go(s, t, Viewing(s.store[id])) else s
    case ViewWrite(t, now) =>
      var r := ArmRecord(PhaseOf(s, t).r, now);
      s.(store := s.store[r.messageId := r], phases := s.phases - {t})
    case SweepRead(t, id, now) => if id in s.store && Overdue(s.store[id], now) then Go(s, t, Expiring(id)) else s
    case SweepDelete(t) => s.(store := s.store - {PhaseOf(s, t).id}, phases := s.phases - {t})
    case Store(key, meta, plaintext, armNow, now) =>
      if meta.messageId in s.store then s
      else s.(store := s.store[meta.messageId := Seal(key, meta, plaintext, now, armNow)])
    case StoreCheck(t, id) => if id in s.store then s else Go(s, t, Absent(id))
    case StoreWrite(t, key, meta, plaintext, armNow, now) =>
      s.(store := s.store[meta.messageId := Seal(key, meta, plaintext, now, armNow)], phases := s.phases - {t})
    case Crash(t) =>
      s.(holder := map id | id in s.holder && s.holder[id] != t :: s.holder[id], phases := s.phases - {t})
  }

  // A tab that closes lets go of every lock it holds, and nothing that is stored changes.
  lemma CrashSays(s: State, t: nat)
    ensures var u := Next(s, Crash(t));
      && (forall id :: id in u.holder <==> id in s.holder && s.holder[id] != t)
      && (forall id :: id in u.holder ==> u.holder[id] == s.holder[id])
      && PhaseOf(u, t) == Idle && (forall v :: v != t ==> PhaseOf(u, v) == PhaseOf(s, v))
      && u.store == s.store && u.shown == s.shown
  {
  }

  // ---- The latch -----------------------------------------------------------------------------------------

  // A message id belongs to one envelope, so its lifetime kind never varies.
  ghost predicate Consistent(kinds: string -> Kind, a: Step) {
    match a
    case Store(_, meta, _, _, _) => meta.kind == kinds(meta.messageId)
    case StoreWrite(_, _, meta, _, _, _) => meta.kind == kinds(meta.messageId)
    case _ => true
  }

  // The one thing that can go wrong: a store that looked before writing writes where a read message's
  // tombstone has come to be in between.
  predicate WritesOverTombstone(s: State, a: Step) {
    a.StoreWrite? && Burned(s, a.meta.messageId)
  }

  ghost predicate Honest(kinds: string -> Kind, s: State, a: Step) {
    Consistent(kinds, a) && !WritesOverTombstone(s, a)
  }

  predicate Burned(s: State, id: string) {
    id in s.store && s.store[id].kind == BurnOnRead && s.store[id].read && s.store[id].body.None?
  }

  ghost predicate StoreOk(kinds: string -> Kind, store: map<string, Record>) {
    forall id :: id in store ==> store[id].messageId == id && store[id].kind == kinds(id)
  }

  // What a running operation in phase `p` may rely on.
  ghost predicate PhaseOk(kinds: string -> Kind, s: State, t: nat, p: Phase) {
    match p
    case Idle => true
    case Locked(id) => id in s.holder && s.holder[id] == t
    case Got(id, r) =>
      && id in s.holder && s.holder[id] == t && id in s.store
      && Readable(s.store[id]) && Readable(r) && r.messageId == id
    case Latched(id, framed) => id in s.holder && s.holder[id] == t && Burned(s, id) && Unshown(s, id)
    case Viewing(r) => r.kind == Duration && kinds(r.messageId) == Duration
    case Expiring(id) => kinds(id) == Duration
    case Absent(_) => true
  }

  predicate Unshown(s: State, id: string) {
    forall i :: 0 <= i < |s.shown| ==> s.shown[i].0 != id
  }

  ghost predicate Once(s: State) {
    && (forall i :: 0 <= i < |s.shown| ==> Burned(s, s.shown[i].0))
    && (forall i, j :: 0 <= i < j < |s.shown| ==> s.shown[i].0 != s.shown[j].0)
  }

  ghost predicate Inv(kinds: string -> Kind, s: State) {
    && StoreOk(kinds, s.store) && Once(s)
    && forall t: nat :: PhaseOk(kinds, s, t, PhaseOf(s, t))
  }

  // A tombstone is never touched again.
  lemma BurnedStays(kinds: string -> Kind, s: State, a: Step, id: string)
    requires Inv(kinds, s) && Enabled(s, a) && Honest(kinds, s, a) && Burned(s, id)
    ensures Burned(Next(s, a), id)
  {
    hide Once;
    if a.WriteLatch? {
      assert PhaseOk(kinds, s, a.t, PhaseOf(s, a.t));
    } else if a.ViewWrite? {
      assert PhaseOk(kinds, s, a.t, PhaseOf(s, a.t));
    } else if a.SweepDelete? {
      assert PhaseOk(kinds, s, a.t, PhaseOf(s, a.t));
    }
  }

  lemma StoreStaysOk(kinds: string -> Kind, s: State, a: Step)
    requires Inv(kinds, s) && Enabled(s, a) && Honest(kinds, s, a)
    ensures StoreOk(kinds, Next(s, a).store)
  {
    hide Once;
    if a.WriteLatch? {
      assert PhaseOk(kinds, s, a.t, PhaseOf(s, a.t));
    } else if a.ViewWrite? {
      assert PhaseOk(kinds, s, a.t, PhaseOf(s, a.t));
    }
  }

  // No other operation takes the lock from its holder, or turns a burn record it has read into anything but
  // another unread copy.
  lemma OthersKeep(kinds: string -> Kind, s: State, a: Step, id: string, t: nat)
    requires Inv(kinds, s) && Enabled(s, a) && Honest(kinds, s, a)
    requires id in s.holder && s.holder[id] == t && id in s.store && s.store[id].kind == BurnOnRead
    requires a.Store? || a.t != t
    ensures id in Next(s, a).holder && Next(s, a).holder[id] == t && id in Next(s, a).store
    ensures Readable(s.store[id]) ==> Readable(Next(s, a).store[id])
    ensures Burned(s, id) ==> Burned(Next(s, a), id)
  {
    hide Once, Tombstone;
    if a.Lock? || a.ReadLatch? || a.WriteLatch? || a.Return? || a.ViewWrite? || a.SweepDelete? {
      assert PhaseOk(kinds, s, a.t, PhaseOf(s, a.t));
    }
  }

  lemma OnceKept(kinds: string -> Kind, s: State, a: Step)
    requires Inv(kinds, s) && Enabled(s, a) && Honest(kinds, s, a)
    ensures Once(Next(s, a))
  {
    var t := Next(s, a);
    forall i | 0 <= i < |s.shown|
      ensures Burned(t, s.shown[i].0)
    {
      BurnedStays(kinds, s, a, s.shown[i].0);
    }
    if a.Return? {
      assert PhaseOk(kinds, s, a.t, PhaseOf(s, a.t));
      BurnedStays(kinds, s, a, PhaseOf(s, a.t).id);
    }
    hide Burned, StoreOk, PhaseOk;
  }

  // The acting operation's own new phase.
  lemma ActorKept(kinds: string -> Kind, s: State, a: Step)
    requires Inv(kinds, s) && Enabled(s, a) && Honest(kinds, s, a) && !a.Store?
    ensures PhaseOk(kinds, Next(s, a), a.t, PhaseOf(Next(s, a), a.t))
  {
    assert PhaseOk(kinds, s, a.t, PhaseOf(s, a.t));
  }

  lemma OtherKept(kinds: string -> Kind, s: State, a: Step, t: nat)
    requires Inv(kinds, s) && Enabled(s, a) && Honest(kinds, s, a) && (a.Store? || a.t != t)
    ensures PhaseOk(kinds, Next(s, a), t, PhaseOf(Next(s, a), t))
  {
    var p := PhaseOf(s, t);
    assert PhaseOk(kinds, s, t, p) && PhaseOf(Next(s, a), t) == p;
    match p
    case Locked(id) => LockStays(kinds, s, a, id, t);
    case Got(id, r) => OthersKeep(kinds, s, a, id, t);
    case Latched(id, framed) =>
      OthersKeep(kinds, s, a, id, t);
      if a.Return? {
        assert PhaseOk(kinds, s, a.t, PhaseOf(s, a.t));
      }
    case _ =>
  }

  lemma LockStays(kinds: string -> Kind, s: State, a: Step, id: string, t: nat)
    requires Inv(kinds, s) && Enabled(s, a) && Honest(kinds, s, a) && id in s.holder && s.holder[id] == t
      && (a.Store? || a.t != t)
    ensures id in Next(s, a).holder && Next(s, a).holder[id] == t
  {
    hide Once, StoreOk, Tombstone, Seal, ArmRecord;
    if !a.Store? {
      assert PhaseOk(kinds, s, a.t, PhaseOf(s, a.t));
    }
  }

  lemma StepInv(kinds: string -> Kind, s: State, a: Step)
    requires Inv(kinds, s) && Enabled(s, a) && Honest(kinds, s, a)
    ensures Inv(kinds, Next(s, a))
  {
    StoreStaysOk(kinds, s, a);
    OnceKept(kinds, s, a);
    hide StoreOk, Once, PhaseOk, Next, PhaseOf, Honest, Enabled;
    forall t: nat
      ensures PhaseOk(kinds, Next(s, a), t, PhaseOf(Next(s, a), t))
    {
      if !a.Store? && a.t == t {
        ActorKept(kinds, s, a);
      } else {
        OtherKept(kinds, s, a, t);
      }
    }
  }

  ghost predicate Leads(kinds: string -> Kind, s: State, run: seq<Step>, t: State)
    decreases |run|
  {
    if run == [] then s == t
    else Enabled(s, run[0]) && Honest(kinds, s, run[0]) && Leads(kinds, Next(s, run[0]), run[1..], t)
  }

  // Tabs opening on a shared store.
  lemma FreshInv(kinds: string -> Kind, store: map<string, Record>)
    requires StoreOk(kinds, store)
    ensures Inv(kinds, State(store, map[], map[], []))
  {
  }

  lemma {:induction false} RunInv(kinds: string -> Kind, s: State, run: seq<Step>, t: State)
    requires Inv(kinds, s) && Leads(kinds, s, run, t)
    ensures Inv(kinds, t)
    decreases |run|
  {
    hide Inv, Next, Enabled, Honest;
    if run != [] {
      StepInv(kinds, s, run[0]);
      RunInv(kinds, Next(s, run[0]), run[1..], t);
    }
  }

  // However the tabs interleave, crash and receive redeliveries, each burn message's plaintext is returned at
  // most once, and where it was returned only a tombstone is left.
  lemma ShownAtMostOnce(kinds: string -> Kind, store: map<string, Record>, run: seq<Step>, t: State)
    requires StoreOk(kinds, store) && Leads(kinds, State(store, map[], map[], []), run, t)
    ensures forall i, j :: 0 <= i < j < |t.shown| ==> t.shown[i].0 != t.shown[j].0
    ensures forall i :: 0 <= i < |t.shown| ==> Burned(t, t.shown[i].0)
  {
    hide Leads, StoreOk, PhaseOk, Burned;
    FreshInv(kinds, store);
    RunInv(kinds, State(store, map[], map[], []), run, t);
  }

  // Once burned, a message stays unreadable, even to a redelivery of itself.
  lemma {:induction false} BurnedForever(kinds: string -> Kind, s: State, run: seq<Step>, t: State, id: string,
                                         key: nat)
    requires Inv(kinds, s) && Leads(kinds, s, run, t) && Burned(s, id)
    ensures Burned(t, id) && Open(key, t.store[id]) == None && !Readable(t.store[id])
    decreases |run|
  {
    hide Inv, Next, Enabled, Honest;
    if run != [] {
      hide Burned;
      StepInv(kinds, s, run[0]);
      BurnedStays(kinds, s, run[0], id);
      BurnedForever(kinds, Next(s, run[0]), run[1..], t, id, key);
    }
  }

  // ---- Exactly when tombstones stay ------------------------------------------------------------------------

  // states[k] --steps[k]--> states[k + 1]
  ghost predicate Run(kinds: string -> Kind, states: seq<State>, steps: seq<Step>) {
    && |states| == |steps| + 1
    && forall k :: 0 <= k < |steps| ==>
         Enabled(states[k], steps[k]) && Consistent(kinds, steps[k]) && states[k + 1] == Next(states[k], steps[k])
  }

  lemma StepOf(kinds: string -> Kind, states: seq<State>, steps: seq<Step>, k: nat)
    requires Run(kinds, states, steps) && k < |steps|
    ensures Enabled(states[k], steps[k]) && Consistent(kinds, steps[k]) && states[k + 1] == Next(states[k], steps[k])
  {
  }

  ghost predicate KeepsTombstones(s: State, t: State) {
    forall id :: Burned(s, id) ==> Burned(t, id)
  }

  ghost predicate KeptAt(states: seq<State>, k: nat)
    requires k + 1 < |states|
  {
    KeepsTombstones(states[k], states[k + 1])
  }

  predicate LateAt(states: seq<State>, steps: seq<Step>, k: nat)
    requires k < |steps| && k < |states|
  {
    WritesOverTombstone(states[k], steps[k])
  }

  lemma {:induction false} InvAlong(kinds: string -> Kind, states: seq<State>, steps: seq<Step>, k: nat)
    requires Run(kinds, states, steps) && Inv(kinds, states[0]) && k < |states|
    requires forall j: nat :: j < k ==> !LateAt(states, steps, j)
    ensures Inv(kinds, states[k])
  {
    hide Inv, Next, Enabled, Consistent, WritesOverTombstone;
    if k > 0 {
      InvAlong(kinds, states, steps, k - 1);
      assert !LateAt(states, steps, k - 1);
      StepOf(kinds, states, steps, k - 1);
      StepInv(kinds, states[k - 1], steps[k - 1]);
    }
  }

  // Over any run of any tabs, no tombstone is ever undone if and only if no store's late write lands on one.
  lemma TombstonesStayIff(kinds: string -> Kind, states: seq<State>, steps: seq<Step>)
    requires Run(kinds, states, steps) && Inv(kinds, states[0])
    ensures (forall k: nat :: k < |steps| ==> KeptAt(states, k))
      <==> (forall k: nat :: k < |steps| ==> !LateAt(states, steps, k))
  {
    hide Inv, Next, Enabled, Consistent, WritesOverTombstone, KeepsTombstones;
    if forall k: nat :: k < |steps| ==> !LateAt(states, steps, k) {
      forall k: nat | k < |steps|
        ensures KeptAt(states, k)
      {
        assert forall j: nat :: j <= k ==> !LateAt(states, steps, j);
        InvAlong(kinds, states, steps, k);
        StepOf(kinds, states, steps, k);
        assert !LateAt(states, steps, k);
        KeepsAll(kinds, states[k], steps[k]);
      }
    }
    forall k: nat | k < |steps| && LateAt(states, steps, k)
      ensures !KeptAt(states, k)
    {
      StepOf(kinds, states, steps, k);
      Undone(states[k], steps[k]);
    }
  }

  lemma KeepsAll(kinds: string -> Kind, s: State, a: Step)
    requires Inv(kinds, s) && Enabled(s, a) && Honest(kinds, s, a)
    ensures KeepsTombstones(s, Next(s, a))
  {
    hide Inv, Next, Enabled, Honest, Burned;
    forall id | Burned(s, id)
      ensures Burned(Next(s, a), id)
    {
      BurnedStays(kinds, s, a, id);
    }
  }

  lemma Undone(s: State, a: Step)
    requires Enabled(s, a) && WritesOverTombstone(s, a)
    ensures !KeepsTombstones(s, Next(s, a))
  {
    assert Burned(s, a.meta.messageId) && !Burned(Next(s, a), a.meta.messageId);
  }

  // ---- Where it rests on storing in one step ---------------------------------------------------------------

  // One late write: it keeps a tombstone if and only if it is for another
  // message; for the same one it leaves a readable copy in its place.
  lemma LateWriteResurrects(s: State, t: nat, key: nat, meta: Meta, plaintext: string, armNow: bool, now: int,
                            id: string)
    requires Burned(s, id) && Enabled(s, StoreWrite(t, key, meta, plaintext, armNow, now))
    ensures var u := Next(s, StoreWrite(t, key, meta, plaintext, armNow, now));
      && (Burned(u, id) <==> meta.messageId != id)
      && (meta.messageId == id && meta.kind == BurnOnRead ==>
        Readable(u.store[id]) && Open(key, u.store[id]) == Some(plaintext))
  {
  }

  function Play(s: State, run: seq<Step>): State
    decreases |run|
  {
    if run == [] || !Enabled(s, run[0]) then s else Play(Next(s, run[0]), run[1..])
  }

  lemma Played(s: State, a: Step, rest: seq<Step>)
    requires Enabled(s, a)
    ensures Play(s, [a] + rest) == Play(Next(s, a), rest)
  {
    assert ([a] + rest)[1..] == rest;
  }

  function BurnSteps(t: nat, m: string): seq<Step> {
    [Lock(t, m), ReadLatch(t), WriteLatch(t, 7), Return(t)]
  }

  // A whole burn read of a readable record by an idle operation while the lock is free.
  function BurnOnce(s: State, t: nat, m: string, r: Record): State
    requires r.body.Some?
  {
    s.(store := s.store[m := Tombstone(r)], holder := s.holder - {m}, phases := s.phases - {t},
       shown := s.shown + [(m, r.body.value.plaintext)])
  }

  lemma BurnPlays(s: State, t: nat, m: string, r: Record, rest: seq<Step>)
    requires m in s.store && s.store[m] == r && Readable(r) && Open(7, r).Some? && m !in s.holder && t !in s.phases
    ensures Play(s, BurnSteps(t, m) + rest) == Play(BurnOnce(s, t, m, r), rest)
  {
    var a, b, c, d := Lock(t, m), ReadLatch(t), WriteLatch(t, 7), Return(t);
    var s1 := Next(s, a);
    var s2 := Next(s1, b);
    var s3 := Next(s2, c);
    assert Enabled(s1, b) && Enabled(s2, c) && Enabled(s3, d);
    assert Next(s3, d) == BurnOnce(s, t, m, r);
    hide Play, Next, Enabled, BurnOnce;
    Played(s, a, [b, c, d] + rest);
    Played(s1, b, [c, d] + rest);
    Played(s2, c, [d] + rest);
    Played(s3, d, rest);
    assert BurnSteps(t, m) + rest == [a] + ([b, c, d] + rest);
    assert [b, c, d] + rest == [b] + ([c, d] + rest);
    assert [c, d] + rest == [c] + ([d] + rest);
  }

  // With the look-up and the write of a store apart, two tabs receiving one envelope can show it twice: the
  // second write lands on the tombstone the first copy became.
  lemma SplitStoreShowsTwice(m: string)
    ensures var meta := Meta(m, "c", false, BurnOnRead, 0, false);
      Play(State(map[], map[], map[], []),
           [StoreCheck(0, m)] + ([Store(7, meta, "text", false, 0)] + (BurnSteps(1, m)
           + ([StoreWrite(0, 7, meta, "text", false, 0)] + (BurnSteps(2, m) + []))))).shown
             == [(m, "text"), (m, "text")]
  {
    var meta := Meta(m, "c", false, BurnOnRead, 0, false);
    var put, write := Store(7, meta, "text", false, 0), StoreWrite(0, 7, meta, "text", false, 0);
    var r := Seal(7, meta, "text", 0, false);
    var s0 := State(map[], map[], map[], []);
    var s1 := State(map[], map[], map[0 := Absent(m)], []);
    var s2 := State(map[m := r], map[], map[0 := Absent(m)], []);
    var s3 := State(map[m := Tombstone(r)], map[], map[0 := Absent(m)], [(m, "text")]);
    var s4 := State(map[m := r], map[], map[], [(m, "text")]);
    assert Next(s0, StoreCheck(0, m)) == s1 && Next(s1, put) == s2 && Next(s3, write) == s4;
    assert BurnOnce(s2, 1, m, r) == s3;
    assert BurnOnce(s4, 2, m, r).shown == [(m, "text"), (m, "text")];
    hide Next, BurnOnce, BurnSteps;
    BurnPlays(s4, 2, m, r, []);
    Played(s3, write, BurnSteps(2, m) + []);
    BurnPlays(s2, 1, m, r, [write] + (BurnSteps(2, m) + []));
    Played(s1, put, BurnSteps(1, m) + ([write] + (BurnSteps(2, m) + [])));
    Played(s0, StoreCheck(0, m), [put] + (BurnSteps(1, m) + ([write] + (BurnSteps(2, m) + []))));
  }
}
