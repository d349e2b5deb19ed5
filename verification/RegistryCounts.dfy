// What depends on the order of calls: whether every device row has its account, and whether every epoch counts
// its account's revoked rows.
module RegistryCounts {
  import opened Wrappers
  import opened RegistryModel
  import opened RegistryRuns

  // ---- Rows without an account ------------------------------------------------------------------------------

  ghost predicate Housed(db: Db) {
    forall d :: d in db.devices ==> db.devices[d].account in db.users
  }

  // A device is added to an account that is not there, or no longer.
  predicate Strays(db: Db, op: Op) {
    op.AddDevice? && op.found.None? && op.id !in db.devices && op.account !in db.users
  }

  // That is the one transaction that leaves a row without an account.
  lemma HousedIff(w: World, op: Op, now: int)
    requires Housed(w.db) && Possible(w, op, now)
    ensures Housed(Apply(w, op, now).db) <==> !Strays(w.db, op)
  {
    hide FairTake, InsertAll, ClearBacklog, Consume, RevokedRows, HasPackage, KeyUsed;
    if Strays(w.db, op) {
      var t := Apply(w, op, now).db;
      assert op.id in t.devices && t.devices[op.id].account == op.account;
    }
  }

  predicate StraysAt(states: seq<World>, events: seq<Event>, k: nat)
    requires k < |events| && k < |states|
  {
    events[k].Event? && Strays(states[k].db, events[k].op)
  }

  ghost predicate HousedAt(states: seq<World>, k: nat)
    requires k < |states|
  {
    Housed(states[k].db)
  }

  lemma HousedStep(states: seq<World>, events: seq<Event>, k: nat)
    requires Run(states, events) && k < |events| && HousedAt(states, k)
    ensures HousedAt(states, k + 1) <==> !StraysAt(states, events, k)
  {
    hide Possible, Apply, Housed, Strays;
    EventOf(states, events, k);
    if events[k].Event? {
      HousedIff(states[k], events[k].op, events[k].now);
    }
  }

  // Over any run, every device row always has its account if and only if no device is added to an account that is
  // not there.
  lemma StraysIff(states: seq<World>, events: seq<Event>)
    requires Run(states, events) && HousedAt(states, 0)
    ensures (forall k: nat :: k < |states| ==> HousedAt(states, k))
       <==> (forall k: nat :: k < |events| ==> !StraysAt(states, events, k))
  {
    hide CanStep, After, HousedAt, StraysAt;
    if forall k: nat :: k < |events| ==> !StraysAt(states, events, k) {
      forall k: nat | k < |states|
        ensures HousedAt(states, k)
      {
        HousedAlong(states, events, k);
      }
    }
    if forall k: nat :: k < |states| ==> HousedAt(states, k) {
      forall k: nat | k < |events|
        ensures !StraysAt(states, events, k)
      {
        assert HousedAt(states, k) && HousedAt(states, k + 1);
        HousedStep(states, events, k);
      }
    }
  }

  lemma {:induction false} HousedAlong(states: seq<World>, events: seq<Event>, k: nat)
    requires Run(states, events) && HousedAt(states, 0) && k < |states|
    requires forall j: nat :: j < |events| ==> !StraysAt(states, events, j)
    ensures HousedAt(states, k)
  {
    hide HousedAt, StraysAt, CanStep, After;
    if k > 0 {
      HousedAlong(states, events, k - 1);
      HousedStep(states, events, k - 1);
    }
  }

  // ---- Epochs that do not count -----------------------------------------------------------------------------

  predicate Registers(db: Db, op: Op, now: int) {
    op.Enroll? && Register(db, op.account, op.pub, op.id, now).0.Created?
  }

  // A name is registered anew over rows revoked under it.
  predicate Miscounts(db: Db, op: Op, now: int) {
    Registers(db, op, now) && RevokedRows(db, op.account) != {}
  }

  // That is the one transaction that makes an epoch differ from the number of revoked rows.
  lemma CountsIff(w: World, op: Op, now: int)
    requires EpochsCount(w.db) && Possible(w, op, now)
    ensures EpochsCount(Apply(w, op, now).db) <==> !Miscounts(w.db, op, now)
  {
    hide EpochsCount, FairTake, RevokedRows, UpsertDevice, RevokeDevice, ReapOrphans, DeleteAccount,
      InsertAll, ClearBacklog, Consume, Backfill, Holds, KeyUsed;
    match op
    case Enroll(account, pub, id) =>
      if Registers(w.db, op, now) {
        RegisterCountsIff(w.db, account, pub, id, now);
      }
    case AddDevice(account, pub, found, id) =>
      HeldRow(w.db, pub, found);
      UpsertCounts(w.db, account, pub, found, id, now);
    case Revoke(account, device) => RevokeCounts(w.db, account, device, now);
    case Reap(account, exclude) => ReapCounts(w.db, account, exclude, now);
    case Destroy(account) => DeleteCounts(w.db, account);
    case Restart => BackfillIdle(w.db);
    case _ => SameDevices(w.db, NextDb(w.db, op, now));
  }

  ghost predicate CountedAt(states: seq<World>, k: nat)
    requires k < |states|
  {
    EpochsCount(states[k].db)
  }

  predicate MiscountsAt(states: seq<World>, events: seq<Event>, k: nat)
    requires k < |events| && k < |states|
  {
    events[k].Event? && Miscounts(states[k].db, events[k].op, events[k].now)
  }

  lemma CountedStep(states: seq<World>, events: seq<Event>, k: nat)
    requires Run(states, events) && k < |events| && CountedAt(states, k)
    ensures CountedAt(states, k + 1) <==> !MiscountsAt(states, events, k)
  {
    hide Possible, Apply, EpochsCount, Miscounts;
    EventOf(states, events, k);
    if events[k].Event? {
      CountsIff(states[k], events[k].op, events[k].now);
    }
  }

  // Over any run, every epoch is always its account's number of revoked rows if and only if no name is registered
  // anew over revoked rows.
  lemma MiscountsIff(states: seq<World>, events: seq<Event>)
    requires Run(states, events) && CountedAt(states, 0)
    ensures (forall k: nat :: k < |states| ==> CountedAt(states, k))
       <==> (forall k: nat :: k < |events| ==> !MiscountsAt(states, events, k))
  {
    hide CanStep, After, CountedAt, MiscountsAt;
    if forall k: nat :: k < |events| ==> !MiscountsAt(states, events, k) {
      forall k: nat | k < |states|
        ensures CountedAt(states, k)
      {
        CountedAlong(states, events, k);
      }
    }
    if forall k: nat :: k < |states| ==> CountedAt(states, k) {
      forall k: nat | k < |events|
        ensures !MiscountsAt(states, events, k)
      {
        assert CountedAt(states, k) && CountedAt(states, k + 1);
        CountedStep(states, events, k);
      }
    }
  }

  lemma {:induction false} CountedAlong(states: seq<World>, events: seq<Event>, k: nat)
    requires Run(states, events) && CountedAt(states, 0) && k < |states|
    requires forall j: nat :: j < |events| ==> !MiscountsAt(states, events, j)
    ensures CountedAt(states, k)
  {
    hide CountedAt, MiscountsAt, CanStep, After;
    if k > 0 {
      CountedAlong(states, events, k - 1);
      CountedStep(states, events, k - 1);
    }
  }
}
