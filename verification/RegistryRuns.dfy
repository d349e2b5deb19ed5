// Runs of the account registry from an empty database, and what every one of them keeps.
module RegistryRuns {
  import opened Wrappers
  import opened RegistryModel

  // `deviceIds`, `issued`, `handed` and `wins` remember every device identifier ever drawn, every challenge
  // issued with its expiry, every one-time package handed out and every challenge spent.
  datatype World = World(db: Db, deviceIds: set<Id>, issued: map<string, int>, handed: seq<(Id, string)>,
                         wins: seq<string>)

  datatype Op =
    | Enroll(account: string, pub: string, id: Id)
    | AddDevice(account: string, pub: string, found: Option<Id>, id: Id)
    | Revoke(account: string, device: Id)
    | Reap(account: string, exclude: Option<Id>)
    | Destroy(account: string)
    | Publish(account: string, device: Id, ps: seq<Upload>, ids: seq<Id>)
    | Take(account: string, out: seq<Claim>)
    | Issue(challenge: string, expiresAt: int)
    | Prune
    | Spend(challenge: string, expiresAt: int, genuine: bool)
    | Restart

  // Spending a challenge is two statements, each its own transaction: pruning what has expired, then the insert.
  // `now` is when the request began, so a later transaction can carry an earlier one.

  // Registering the name would not start an epoch at zero over rows already revoked.
  predicate NameIsClear(db: Db, account: string) {
    account !in db.users ==> RevokedRows(db, account) == {}
  }

  // Random identifiers and challenges are new; packages are published by a session bound to a device of the
  // session's account; a MAC is right only for a challenge and expiry that were issued together.
  ghost predicate Possible(w: World, op: Op, now: int) {
    match op
    case Enroll(_, _, id) => id !in w.deviceIds
    case AddDevice(_, pub, found, id) =>
      && id !in w.deviceIds
      && (found.Some? ==> Holds(w.db, found.value, pub)) && (found.None? ==> !KeyUsed(w.db, pub))
    case Publish(account, device, ps, ids) =>
      && |ids| == |ps| && device in w.deviceIds
      && (device in w.db.devices ==> w.db.devices[device].account == account)
    case Take(account, out) => FairTake(w.db, account, out)
    case Issue(challenge, _) => challenge !in w.issued
    case Spend(challenge, expiresAt, genuine) => genuine ==>
      challenge in w.issued && w.issued[challenge] == expiresAt
    case _ => true
  }

  function Handed(db: Db, out: seq<Claim>): seq<(Id, string)>
    requires forall i :: 0 <= i < |out| ==> out[i].row in db.packages
  {
    if out == [] then []
    else
      var last := out[|out| - 1];
      Handed(db, out[..|out| - 1]) + if last.lastResort then [] else [(last.device, db.packages[last.row].ref)]
  }

  // A spend gets to its insert.
  predicate Accepted(op: Op, now: int) {
    op.Spend? && op.genuine && op.expiresAt > now
  }

  predicate Wins(db: Db, op: Op, now: int) {
    Accepted(op, now) && op.challenge !in db.spent
  }

  // The database after one operation.
  function NextDb(db: Db, op: Op, now: int): Db
    requires op.AddDevice? && op.found.Some? ==> op.found.value in db.devices
    requires op.Publish? ==> |op.ids| == |op.ps|
  {
    match op
    case Enroll(account, pub, id) => Register(db, account, pub, id, now).1
    case AddDevice(account, pub, found, id) => UpsertDevice(db, account, pub, found, id, now).1
    case Revoke(account, device) => RevokeDevice(db, account, device, now).1
    case Reap(account, exclude) => ReapOrphans(db, account, exclude, now)
    case Destroy(account) => DeleteAccount(db, account)
    case Publish(account, device, ps, ids) => PublishPackages(db, account, device, ps, ids, now)
    case Take(account, out) => TakePackages(db, out, now)
    case Issue(_, _) => db
    case Prune => db.(spent := Unexpired(db.spent, now))
    case Spend(challenge, expiresAt, _) => if Accepted(op, now) then InsertSpent(db, challenge, expiresAt).1 else db
    case Restart => Backfill(db)
  }

  ghost function Apply(w: World, op: Op, now: int): World
    requires Possible(w, op, now)
  {
    World(NextDb(w.db, op, now),
          w.deviceIds + (if op.Enroll? || op.AddDevice? then {op.id} else {}),
          if op.Issue? then w.issued[op.challenge := op.expiresAt] else w.issued,
          w.handed + (if op.Take? then Handed(w.db, op.out) else []),
          w.wins + if Wins(w.db, op, now) then [op.challenge] else [])
  }

  // ---- The invariant --------------------------------------------------------------------------------

  ghost predicate KeysUnique(devices: map<Id, Device>) {
    forall d, e :: d in devices && e in devices && devices[d].pub == devices[e].pub ==> d == e
  }

  ghost predicate Known(db: Db, ids: set<Id>) {
    forall d :: d in db.devices ==> d in ids
  }

  ghost predicate EpochsCount(db: Db) {
    forall a :: a in db.users ==> db.users[a] == |RevokedRows(db, a)|
  }

  predicate SameRef(p: Package, q: Package) {
    p.device == q.device && p.ref == q.ref
  }

  predicate SameLast(p: Package, q: Package) {
    p.device == q.device && p.lastResort && q.lastResort
  }

  ghost predicate PackagesUnique(packages: map<Id, Package>) {
    && (forall j, k :: j in packages && k in packages && SameRef(packages[j], packages[k]) ==> j == k)
    && (forall j, k :: j in packages && k in packages && SameLast(packages[j], packages[k]) ==> j == k)
    && (forall k :: k in packages && packages[k].lastResort ==> packages[k].consumedAt.None?)
  }

  ghost predicate PackagesOwned(db: Db, ids: set<Id>) {
    forall k :: k in db.packages ==>
      && db.packages[k].device in ids
      && (db.packages[k].device in db.devices ==> db.packages[k].account == db.devices[db.packages[k].device].account)
  }

  predicate Spent(packages: map<Id, Package>, h: (Id, string)) {
    exists k :: k in packages && packages[k].device == h.0 && packages[k].ref == h.1 && packages[k].consumedAt.Some?
  }

  predicate Live(db: Db, d: Id) {
    d in db.devices && db.devices[d].revokedAt.None?
  }

  // A one-time package that was handed out is still there, marked consumed, for as long as its device is live.
  ghost predicate HandedKept(db: Db, ids: set<Id>, handed: seq<(Id, string)>) {
    && (forall h :: h in handed ==> h.0 in ids && (Live(db, h.0) ==> Spent(db.packages, h)))
    && Distinct(handed)
  }

  predicate Distinct<T(==)>(s: seq<T>) {
    forall i, j :: 0 <= i < j < |s| ==> s[i] != s[j]
  }

  ghost predicate Inv(w: World) {
    && KeysUnique(w.db.devices) && Known(w.db, w.deviceIds)
    && PackagesUnique(w.db.packages) && PackagesOwned(w.db, w.deviceIds)
    && HandedKept(w.db, w.deviceIds, w.handed)
  }

  const NEW_WORLD := World(EMPTY, {}, map[], [], [])

  lemma EmptyInv()
    ensures Inv(NEW_WORLD)
  {
  }

  // ---- Devices and epochs ----------------------------------------------------------------------------

  predicate RevokedRow(db: Db, a: string, d: Id) {
    d in db.devices && db.devices[d].account == a && db.devices[d].revokedAt.Some?
  }

  lemma SameRows(db: Db, t: Db, a: string)
    requires forall d :: RevokedRow(db, a, d) <==> RevokedRow(t, a, d)
    ensures RevokedRows(t, a) == RevokedRows(db, a)
  {
    assert forall d :: d in RevokedRows(db, a) <==> RevokedRow(db, a, d);
    assert forall d :: d in RevokedRows(t, a) <==> RevokedRow(t, a, d);
  }

  lemma CountsStay(db: Db, t: Db)
    requires EpochsCount(db)
    requires forall a, d :: a in t.users ==> (RevokedRow(db, a, d) <==> RevokedRow(t, a, d))
    requires forall a :: a in t.users ==>
      if a in db.users then t.users[a] == db.users[a] else t.users[a] == 0 && RevokedRows(db, a) == {}
    ensures EpochsCount(t)
  {
    hide RevokedRow, RevokedRows;
    forall a | a in t.users
      ensures t.users[a] == |RevokedRows(t, a)|
    {
      SameRows(db, t, a);
    }
  }

  lemma RegisterCounts(db: Db, account: string, pub: string, id: Id, now: int)
    requires NameIsClear(db, account) && EpochsCount(db)
    ensures EpochsCount(Register(db, account, pub, id, now).1)
  {
    hide EpochsCount, KeyUsed, RevokedRows;
    if account !in db.users {
      CountsStay(db, Register(db, account, pub, id, now).1);
    }
  }

  // The condition is exact: a registration that succeeds keeps the counts right if and only if it holds.
  lemma RegisterCountsIff(db: Db, account: string, pub: string, id: Id, now: int)
    requires EpochsCount(db) && Register(db, account, pub, id, now).0.Created?
    ensures EpochsCount(Register(db, account, pub, id, now).1) <==> RevokedRows(db, account) == {}
  {
    var t := Register(db, account, pub, id, now).1;
    forall d
      ensures RevokedRow(db, account, d) <==> RevokedRow(t, account, d)
    {
    }
    SameRows(db, t, account);
    hide RevokedRows;
    if RevokedRows(db, account) == {} {
      RegisterCounts(db, account, pub, id, now);
    } else {
      assert account in t.users && t.users[account] == 0;
    }
  }

  lemma UpsertCounts(db: Db, account: string, pub: string, found: Option<Id>, id: Id, now: int)
    requires EpochsCount(db) && (found.Some? ==> found.value in db.devices)
    ensures EpochsCount(UpsertDevice(db, account, pub, found, id, now).1)
  {
    hide RevokedRows, EpochsCount;
    CountsStay(db, UpsertDevice(db, account, pub, found, id, now).1);
  }

  // The one transaction that adds a revoked row is the one that raises the epoch.
  lemma RevokeCounts(db: Db, account: string, d: Id, now: int)
    requires EpochsCount(db)
    ensures EpochsCount(RevokeDevice(db, account, d, now).1)
  {
    hide WithoutDevice, EpochsCount;
    var t := RevokeDevice(db, account, d, now).1;
    if Live(db, d) && db.devices[d].account == account {
      assert RevokedRows(t, account) == RevokedRows(db, account) + {d};
      forall a | a != account
        ensures RevokedRows(t, a) == RevokedRows(db, a)
      {
        SameRows(db, t, a);
      }
      CountsUp(db, t, account, d);
    } else {
      hide RevokedRows;
      CountsStay(db, t);
    }
  }

  lemma CountsUp(db: Db, t: Db, account: string, d: Id)
    requires EpochsCount(db) && t.users.Keys == db.users.Keys
    requires forall a :: a in db.users ==> t.users[a] == if a == account then db.users[a] + 1 else db.users[a]
    requires d !in RevokedRows(db, account) && RevokedRows(t, account) == RevokedRows(db, account) + {d}
    requires forall a :: a != account ==> RevokedRows(t, a) == RevokedRows(db, a)
    ensures EpochsCount(t)
  {
    hide RevokedRows;
  }

  lemma ReapCounts(db: Db, account: string, exclude: Option<Id>, now: int)
    requires EpochsCount(db)
    ensures EpochsCount(ReapOrphans(db, account, exclude, now))
  {
    hide RevokedRows, EpochsCount, HasPackage;
    CountsStay(db, ReapOrphans(db, account, exclude, now));
  }

  lemma DeleteCounts(db: Db, account: string)
    requires EpochsCount(db)
    ensures EpochsCount(DeleteAccount(db, account))
  {
    hide RevokedRows, EpochsCount;
    CountsStay(db, DeleteAccount(db, account));
  }

  // With the counts right, start-up seeding changes nothing.
  lemma BackfillIdle(db: Db)
    requires EpochsCount(db)
    ensures Backfill(db) == db
  {
    hide RevokedRows;
    assert Backfill(db).users == db.users;
  }

  // Seeding a database that has just gained the column (every epoch zero) makes the counts right; in
  // general it does exactly when each account that is not at zero already counts right.
  lemma BackfillSeeds(db: Db)
    ensures EpochsCount(Backfill(db))
      <==> forall a :: a in db.users && db.users[a] != 0 ==> db.users[a] == |RevokedRows(db, a)|
  {
    forall a | a in db.users
      ensures RevokedRows(Backfill(db), a) == RevokedRows(db, a)
    {
      SameRows(db, Backfill(db), a);
    }
    hide RevokedRows;
    var t := Backfill(db);
    if EpochsCount(t) {
      forall a | a in db.users && db.users[a] != 0
        ensures db.users[a] == |RevokedRows(db, a)|
      {
        assert a in t.users && t.users[a] == |RevokedRows(t, a)|;
      }
    }
  }

  lemma DevicesKept(w: World, op: Op, now: int)
    requires KeysUnique(w.db.devices) && Known(w.db, w.deviceIds) && Possible(w, op, now)
    ensures var t := Apply(w, op, now); KeysUnique(t.db.devices) && Known(t.db, t.deviceIds)
  {
    hide FairTake, InsertAll, ClearBacklog, Consume, RevokedRows, HasPackage;
  }

  lemma HeldRow(db: Db, pub: string, found: Option<Id>)
    requires found.Some? ==> Holds(db, found.value, pub)
    ensures found.Some? ==> found.value in db.devices
  {
  }

  lemma SameDevices(db: Db, t: Db)
    requires t.users == db.users && t.devices == db.devices && EpochsCount(db)
    ensures EpochsCount(t)
  {
    hide RevokedRows;
    CountsStay(db, t);
  }

  // ---- Key packages -----------------------------------------------------------------------------------

  ghost predicate Within(p: map<Id, Package>, q: map<Id, Package>) {
    forall k :: k in p ==> k in q && p[k] == q[k]
  }

  lemma FewerUnique(p: map<Id, Package>, q: map<Id, Package>)
    requires Within(p, q) && PackagesUnique(q)
    ensures PackagesUnique(p)
  {
  }

  lemma InsertUnique(packages: map<Id, Package>, account: string, device: Id, p: Upload, id: Id, now: int)
    requires PackagesUnique(packages)
    ensures PackagesUnique(Insert(packages, account, device, p, id, now))
  {
    hide PackagesUnique;
    var cleared := if p.lastResort then ClearLastResort(packages, device) else packages;
    assert Within(cleared, packages);
    FewerUnique(cleared, packages);
    if !Clashes(cleared, device, p, id) {
      AddUnique(cleared, Package(device, account, p.blob, p.ref, p.lastResort, None, now), id);
    }
  }

  lemma AddUnique(packages: map<Id, Package>, p: Package, id: Id)
    requires PackagesUnique(packages) && id !in packages && p.consumedAt.None?
    requires forall k :: k in packages ==> !SameRef(packages[k], p) && !SameLast(packages[k], p)
    ensures PackagesUnique(packages[id := p])
  {
  }

  // What a publish never touches: consumed rows, and other devices' rows.
  ghost predicate Preserves(p: map<Id, Package>, q: map<Id, Package>, device: Id) {
    forall k :: k in p && (p[k].device != device || (p[k].consumedAt.Some? && !p[k].lastResort)) ==>
      k in q && q[k] == p[k]
  }

  // Every row a publish leaves behind was there before or belongs to the publishing device and account.
  ghost predicate Extends(p: map<Id, Package>, q: map<Id, Package>, account: string, device: Id) {
    forall k :: k in q ==>
      (k in p && q[k] == p[k]) || (q[k].device == device && q[k].account == account && q[k].consumedAt.None?)
  }

  lemma InsertPreserves(packages: map<Id, Package>, account: string, device: Id, p: Upload, id: Id, now: int)
    ensures Preserves(packages, Insert(packages, account, device, p, id, now), device)
    ensures Extends(packages, Insert(packages, account, device, p, id, now), account, device)
  {
    hide Clashes;
    var cleared := if p.lastResort then ClearLastResort(packages, device) else packages;
    if id in cleared {
      ClashesById(cleared, device, p, id);
    }
  }

  lemma ClashesById(packages: map<Id, Package>, device: Id, p: Upload, id: Id)
    requires id in packages
    ensures Clashes(packages, device, p, id)
  {
  }

  lemma {:induction false} InsertAllKeeps(packages: map<Id, Package>, account: string, device: Id, ps: seq<Upload>,
                                          ids: seq<Id>, now: int)
    requires |ids| == |ps| && PackagesUnique(packages)
    ensures var q := InsertAll(packages, account, device, ps, ids, now);
      PackagesUnique(q) && Preserves(packages, q, device) && Extends(packages, q, account, device)
    decreases |ps|
  {
    hide PackagesUnique, Insert;
    if ps != [] {
      var n := |ps| - 1;
      InsertAllKeeps(packages, account, device, ps[..n], ids[..n], now);
      var mid := InsertAll(packages, account, device, ps[..n], ids[..n], now);
      InsertUnique(mid, account, device, ps[n], ids[n], now);
      InsertPreserves(mid, account, device, ps[n], ids[n], now);
    }
  }

  lemma PublishKeeps(db: Db, account: string, device: Id, ps: seq<Upload>, ids: seq<Id>, now: int)
    requires |ids| == |ps| && PackagesUnique(db.packages)
    ensures var q := PublishPackages(db, account, device, ps, ids, now).packages;
      PackagesUnique(q) && Preserves(db.packages, q, device) && Extends(db.packages, q, account, device)
  {
    hide PackagesUnique, InsertAll;
    var cleared := ClearBacklog(db.packages, device);
    assert Within(cleared, db.packages);
    FewerUnique(cleared, db.packages);
    InsertAllKeeps(cleared, account, device, ps, ids, now);
  }

  lemma ConsumeUnique(db: Db, account: string, out: seq<Claim>, now: int)
    requires PackagesUnique(db.packages) && FairTake(db, account, out)
    ensures PackagesUnique(Consume(db.packages, out, now))
  {
    var q := Consume(db.packages, out, now);
    forall k | k in q
      ensures SameRef(q[k], db.packages[k]) && q[k].lastResort == db.packages[k].lastResort
      ensures q[k].lastResort ==> q[k].consumedAt.None?
    {
      if Consumes(out, k) {
        var i :| 0 <= i < |out| && out[i].row == k && !out[i].lastResort;
        assert ClaimsFrom(db.packages, out[i]);
      }
    }
    hide Consume, FairTake, Consumes;
  }

  lemma PackagesKept(w: World, op: Op, now: int)
    requires Inv(w) && Possible(w, op, now)
    ensures PackagesUnique(Apply(w, op, now).db.packages)
  {
    hide KeysUnique, Known, EpochsCount, PackagesUnique, PackagesOwned, HandedKept, FairTake;
    hide InsertAll, ClearBacklog, Consume, Holds, KeyUsed, RevokedRows, Orphan;
    match op
    case Revoke(account, device) => FewerUnique(NextDb(w.db, op, now).packages, w.db.packages);
    case Destroy(account) => FewerUnique(NextDb(w.db, op, now).packages, w.db.packages);
    case Publish(account, device, ps, ids) => PublishKeeps(w.db, account, device, ps, ids, now);
    case Take(account, out) => ConsumeUnique(w.db, account, out, now);
    case AddDevice(account, pub, found, id) => HeldRow(w.db, pub, found);
    case _ =>
  }

  // A device row keeps its account for as long as it exists.
  lemma AccountsStay(w: World, op: Op, now: int, d: Id)
    requires Possible(w, op, now) && Known(w.db, w.deviceIds) && d in w.deviceIds && d in Apply(w, op, now).db.devices
    ensures d in w.db.devices && Apply(w, op, now).db.devices[d].account == w.db.devices[d].account
    ensures w.db.devices[d].revokedAt.Some? ==> Apply(w, op, now).db.devices[d].revokedAt.Some?
    ensures Apply(w, op, now).db.devices[d].pub == w.db.devices[d].pub
  {
    hide InsertAll, ClearBacklog, Consume, RevokedRows, Orphan, FairTake;
  }

  lemma OwnedKept(w: World, op: Op, now: int)
    requires Inv(w) && Possible(w, op, now)
    ensures PackagesOwned(Apply(w, op, now).db, Apply(w, op, now).deviceIds)
  {
    hide KeysUnique, EpochsCount, PackagesUnique, HandedKept, FairTake;
    hide InsertAll, Holds, KeyUsed, RevokedRows, Orphan, Consumes;
    if op.AddDevice? {
      assert op.found.Some? ==> op.found.value in w.db.devices by {
        HeldRow(w.db, op.pub, op.found);
      }
    }
    if op.Publish? {
      PublishKeeps(w.db, op.account, op.device, op.ps, op.ids, now);
    }
  }

  // ---- One-time packages are handed out once ---------------------------------------------------------------

  ghost predicate Rows(db: Db, out: seq<Claim>) {
    forall i :: 0 <= i < |out| ==> out[i].row in db.packages
  }

  predicate HandsOut(db: Db, c: Claim, h: (Id, string)) {
    c.row in db.packages && !c.lastResort && h == (c.device, db.packages[c.row].ref)
  }

  lemma {:induction false} HandedFrom(db: Db, out: seq<Claim>, h: (Id, string)) returns (i: int)
    requires Rows(db, out) && h in Handed(db, out)
    ensures 0 <= i < |out| && HandsOut(db, out[i], h)
    decreases |out|
  {
    var last := out[|out| - 1];
    if h in Handed(db, out[..|out| - 1]) {
      i := HandedFrom(db, out[..|out| - 1], h);
    } else {
      i := |out| - 1;
    }
  }

  lemma {:induction false} HandedElsewhere(db: Db, out: seq<Claim>, d: Id)
    requires Rows(db, out) && forall i :: 0 <= i < |out| ==> out[i].device != d
    ensures forall h :: h in Handed(db, out) ==> h.0 != d
    decreases |out|
  {
    if out != [] {
      HandedElsewhere(db, out[..|out| - 1], d);
    }
  }

  lemma {:induction false} HandedDistinct(db: Db, out: seq<Claim>)
    requires Rows(db, out) && forall i, j :: 0 <= i < j < |out| ==> out[i].device != out[j].device
    ensures Distinct(Handed(db, out))
    decreases |out|
  {
    if out != [] {
      var rest, last := out[..|out| - 1], out[|out| - 1];
      HandedDistinct(db, rest);
      var h := (last.device, db.packages[last.row].ref);
      HandedElsewhere(db, rest, last.device);
      hide Handed;
      JoinDistinct(Handed(db, rest), [h]);
    }
  }

  lemma FairRows(db: Db, account: string, out: seq<Claim>)
    requires FairTake(db, account, out)
    ensures Rows(db, out)
  {
  }

  // A package about to be handed out as one-time has not been handed out before, and will be on record.
  lemma ClaimIsFresh(w: World, account: string, out: seq<Claim>, now: int, i: int, h: (Id, string))
    requires Inv(w) && FairTake(w.db, account, out) && 0 <= i < |out| && HandsOut(w.db, out[i], h)
    ensures h !in w.handed && h.0 in w.deviceIds && Spent(Consume(w.db.packages, out, now), h)
  {
    hide KeysUnique, EpochsCount, PackagesOwned, RevokedRows;
    var c := out[i];
    assert ClaimsFrom(w.db.packages, c) && Active(w.db, account, c.device);
    assert !Spent(w.db.packages, h) by {
      forall k | k in w.db.packages && w.db.packages[k].device == h.0 && w.db.packages[k].ref == h.1
        ensures w.db.packages[k].consumedAt.None?
      {
        assert SameRef(w.db.packages[k], w.db.packages[c.row]);
      }
    }
    assert Consumes(out, c.row);
    var q := Consume(w.db.packages, out, now);
    assert c.row in q && q[c.row].device == h.0 && q[c.row].ref == h.1 && q[c.row].consumedAt.Some?;
  }

  lemma TakeKeepsHanded(w: World, account: string, out: seq<Claim>, now: int)
    requires Inv(w) && FairTake(w.db, account, out) && Rows(w.db, out)
    ensures HandedKept(TakePackages(w.db, out, now), w.deviceIds, w.handed + Handed(w.db, out))
  {
    hide FairTake, Consumes;
    var t := TakePackages(w.db, out, now);
    forall h | h in Handed(w.db, out)
      ensures h !in w.handed && h.0 in w.deviceIds && Spent(t.packages, h)
    {
      var i := HandedFrom(w.db, out, h);
      ClaimIsFresh(w, account, out, now, i, h);
    }
    forall h | h in w.handed && Live(t, h.0)
      ensures Spent(t.packages, h)
    {
      assert Spent(w.db.packages, h);
      var k :| k in w.db.packages && w.db.packages[k].device == h.0 && w.db.packages[k].ref == h.1
        && w.db.packages[k].consumedAt.Some?;
      assert k in t.packages;
    }
    DistinctDevices(w.db, account, out);
    HandedDistinct(w.db, out);
    hide Inv, Handed, Spent, Live, Consume, Distinct;
    JoinDistinct(w.handed, Handed(w.db, out));
  }

  lemma DistinctDevices(db: Db, account: string, out: seq<Claim>)
    requires FairTake(db, account, out)
    ensures forall i, j :: 0 <= i < j < |out| ==> out[i].device != out[j].device
  {
  }

  lemma JoinDistinct<T>(a: seq<T>, b: seq<T>)
    requires Distinct(a) && Distinct(b) && forall x :: x in b ==> x !in a
    ensures Distinct(a + b)
  {
    var c := a + b;
    forall i, j | 0 <= i < j < |c|
      ensures c[i] != c[j]
    {
      if i < |a| <= j {
        assert b[j - |a|] in b && a[i] in a;
      }
    }
  }

  // Without a take, a consumed row of a live device survives every operation.
  lemma SpentStays(w: World, op: Op, now: int, h: (Id, string))
    requires Inv(w) && Possible(w, op, now) && !op.Take?
    requires h.0 in w.deviceIds && Spent(w.db.packages, h) && Live(Apply(w, op, now).db, h.0)
    ensures Spent(Apply(w, op, now).db.packages, h)
  {
    hide KeysUnique, EpochsCount, HandedKept, FairTake, InsertAll, Holds, KeyUsed, RevokedRows, Orphan;
    if op.AddDevice? {
      assert op.found.Some? ==> op.found.value in w.db.devices by {
        HeldRow(w.db, op.pub, op.found);
      }
    }
    if op.Publish? {
      PublishKeeps(w.db, op.account, op.device, op.ps, op.ids, now);
    }
    AccountsStay(w, op, now, h.0);
    var k :| k in w.db.packages && w.db.packages[k].device == h.0 && w.db.packages[k].ref == h.1
      && w.db.packages[k].consumedAt.Some?;
    assert !w.db.packages[k].lastResort;
    assert k in Apply(w, op, now).db.packages && Apply(w, op, now).db.packages[k] == w.db.packages[k];
  }

  lemma HandedStays(w: World, op: Op, now: int)
    requires Inv(w) && Possible(w, op, now)
    ensures HandedKept(Apply(w, op, now).db, Apply(w, op, now).deviceIds, Apply(w, op, now).handed)
  {
    hide Inv, NextDb, Spent, Live, FairTake;
    if op.Take? {
      FairRows(w.db, op.account, op.out);
      TakeKeepsHanded(w, op.account, op.out, now);
      TakeIs(w, op, now);
    } else {
      var t := Apply(w, op, now);
      assert t.handed == w.handed + [];
      HandedNow(w);
      forall h | h in t.handed && Live(t.db, h.0)
        ensures Spent(t.db.packages, h)
      {
        LiveBefore(w, op, now, h.0);
        SpentStays(w, op, now, h);
      }
    }
  }

  lemma HandedNow(w: World)
    requires Inv(w)
    ensures HandedKept(w.db, w.deviceIds, w.handed)
  {
  }

  lemma TakeIs(w: World, op: Op, now: int)
    requires Possible(w, op, now) && op.Take? && Rows(w.db, op.out)
    ensures var t := Apply(w, op, now);
      t.db == TakePackages(w.db, op.out, now) && t.handed == w.handed + Handed(w.db, op.out)
        && t.deviceIds == w.deviceIds
  {
  }

  lemma LiveBefore(w: World, op: Op, now: int, d: Id)
    requires Inv(w) && Possible(w, op, now) && d in w.deviceIds && Live(Apply(w, op, now).db, d)
    ensures Live(w.db, d)
  {
    hide Apply, Possible, KeysUnique, EpochsCount, PackagesUnique, PackagesOwned, HandedKept;
    AccountsStay(w, op, now, d);
  }

  // ---- Every run --------------------------------------------------------------------------------------------

  lemma ApplyInv(w: World, op: Op, now: int)
    requires Inv(w) && Possible(w, op, now)
    ensures Inv(Apply(w, op, now))
  {
    DevicesKept(w, op, now);
    PackagesKept(w, op, now);
    OwnedKept(w, op, now);
    HandedStays(w, op, now);
    hide Possible, Apply, KeysUnique, Known, PackagesUnique, PackagesOwned, HandedKept;
  }

  // One transaction, or something that leaves the tables alone.
  datatype Event = Event(op: Op, now: int) | Idle

  ghost predicate CanStep(w: World, e: Event) {
    e.Event? ==> Possible(w, e.op, e.now)
  }

  ghost function After(w: World, e: Event): World
    requires CanStep(w, e)
  {
    if e.Idle? then w else Apply(w, e.op, e.now)
  }

  // states[k] --events[k]--> states[k + 1]
  ghost predicate Run(states: seq<World>, events: seq<Event>) {
    && |states| == |events| + 1
    && forall k :: 0 <= k < |events| ==> CanStep(states[k], events[k]) && states[k + 1] == After(states[k], events[k])
  }

  lemma EventOf(states: seq<World>, events: seq<Event>, k: nat)
    requires Run(states, events) && k < |events|
    ensures CanStep(states[k], events[k]) && states[k + 1] == After(states[k], events[k])
  {
  }

  lemma {:induction false} RunInv(states: seq<World>, events: seq<Event>, k: nat)
    requires Run(states, events) && Inv(states[0]) && k < |states|
    ensures Inv(states[k])
  {
    hide Inv, Possible, Apply;
    if k > 0 {
      RunInv(states, events, k - 1);
      EventOf(states, events, k - 1);
      if events[k - 1].Event? {
        ApplyInv(states[k - 1], events[k - 1].op, events[k - 1].now);
      }
    }
  }

  // In every run from an empty database device keys are unique and no one-time package is handed out twice.
  lemma FromEmpty(states: seq<World>, events: seq<Event>, k: nat)
    requires Run(states, events) && states[0] == NEW_WORLD && k < |states|
    ensures var t := states[k];
      && (forall d, e :: d in t.db.devices && e in t.db.devices && t.db.devices[d].pub == t.db.devices[e].pub ==>
            d == e)
      && Distinct(t.handed)
  {
    hide Run;
    EmptyInv();
    RunInv(states, events, k);
    hide PackagesUnique, PackagesOwned;
  }

  // The row of a revoked key.
  predicate Burned(db: Db, d: Id, account: string, pub: string) {
    d in db.devices && db.devices[d].account == account && db.devices[d].pub == pub && db.devices[d].revokedAt.Some?
  }

  // A revoked row outlives everything but the deletion of its account.
  lemma BurnedStays(w: World, op: Op, now: int, d: Id, account: string, pub: string)
    requires Known(w.db, w.deviceIds) && Possible(w, op, now) && Burned(w.db, d, account, pub) && op != Destroy(account)
    ensures Burned(Apply(w, op, now).db, d, account, pub)
  {
    hide FairTake, InsertAll, ClearBacklog, Consume, RevokedRows, HasPackage;
  }

  ghost predicate NeverDestroyed(events: seq<Event>, i: nat, k: nat, account: string)
    requires k <= |events|
  {
    forall j :: i <= j < k ==> events[j].Idle? || events[j].op != Destroy(account)
  }

  // While its account is not deleted, a revoked key is never active again, whatever else happens.
  lemma RevokedNeverActive(states: seq<World>, events: seq<Event>, i: nat, k: nat, d: Id,
                                              account: string, pub: string)
    requires Run(states, events) && Inv(states[0]) && i <= k < |states| && Burned(states[i].db, d, account, pub)
    requires NeverDestroyed(events, i, k, account)
    ensures Burned(states[k].db, d, account, pub)
    ensures forall a, e :: Active(states[k].db, a, e) ==> states[k].db.devices[e].pub != pub
  {
    hide Possible, Apply, Burned;
    BurnedAlong(states, events, i, k, d, account, pub);
    RunInv(states, events, k);
    OnlyHolder(states[k].db, d, account, pub);
  }

  lemma OnlyHolder(db: Db, d: Id, account: string, pub: string)
    requires KeysUnique(db.devices) && Burned(db, d, account, pub)
    ensures forall a, e :: Active(db, a, e) ==> db.devices[e].pub != pub
  {
  }

  lemma {:induction false} BurnedAlong(states: seq<World>, events: seq<Event>, i: nat, k: nat, d: Id,
                                       account: string, pub: string)
    requires Run(states, events) && Inv(states[0]) && i <= k < |states| && Burned(states[i].db, d, account, pub)
    requires NeverDestroyed(events, i, k, account)
    ensures Burned(states[k].db, d, account, pub)
    decreases k
  {
    hide Possible, Apply, Burned;
    if k > i {
      BurnedAlong(states, events, i, k - 1, d, account, pub);
      EventOf(states, events, k - 1);
      RunInv(states, events, k - 1);
      if events[k - 1].Event? {
        BurnedStays(states[k - 1], events[k - 1].op, events[k - 1].now, d, account, pub);
      }
    }
  }

  lemma EpochStep(w: World, op: Op, now: int, account: string)
    requires Possible(w, op, now) && account in w.db.users && op != Destroy(account)
    ensures var t := Apply(w, op, now); account in t.db.users && t.db.users[account] >= w.db.users[account]
  {
    hide FairTake, InsertAll, ClearBacklog, Consume, RevokedRows, Orphan;
  }

  // While an account exists its epoch never goes down, through restarts and all.
  lemma {:induction false} EpochNeverFalls(states: seq<World>, events: seq<Event>, i: nat, k: nat, account: string)
    requires Run(states, events) && i <= k < |states| && account in states[i].db.users
    requires NeverDestroyed(events, i, k, account)
    ensures account in states[k].db.users && states[k].db.users[account] >= states[i].db.users[account]
    decreases k
  {
    hide Possible, Apply;
    if k > i {
      EpochNeverFalls(states, events, i, k - 1, account);
      EventOf(states, events, k - 1);
      if events[k - 1].Event? {
        EpochStep(states[k - 1], events[k - 1].op, events[k - 1].now, account);
      }
    }
  }

  // ---- Where the counts rest on the order of calls --------------------------------------------------------

  // The condition can fail: enrolling under a name nobody has registered, and revoking that device, leaves the
  // later account with a revoked row and epoch zero.
  lemma EnrollingBeforeRegistering(account: string, p: string, q: string, now: int)
    requires p != q
    ensures
      var a := UpsertDevice(EMPTY, account, p, None, 0, now).1;
      var b := RevokeDevice(a, account, 0, now).1;
      var c := Register(b, account, q, 1, now).1;
      account in c.users && c.users[account] == 0 && |RevokedRows(c, account)| == 1
  {
    var a := UpsertDevice(EMPTY, account, p, None, 0, now).1;
    assert a.devices == map[0 := Device(account, p, now, now, None)];
    var b := RevokeDevice(a, account, 0, now).1;
    assert b.devices == map[0 := Device(account, p, now, now, Some(now))];
    var c := Register(b, account, q, 1, now).1;
    assert RevokedRows(c, account) == {0};
  }

  // Reaping is not revoking: the key of a reaped device can enroll again, as a new device.
  lemma ReapedMayReturn(db: Db, account: string, exclude: Option<Id>, now: int, d: Id, other: string, id: Id,
                        later: int)
    requires KeysUnique(db.devices) && Orphan(db, account, exclude, d, now) && id !in db.devices
    ensures var t := ReapOrphans(db, account, exclude, now); var pub := db.devices[d].pub;
      !KeyUsed(t, pub) && UpsertDevice(t, other, pub, None, id, later).0 == Created(id)
  {
    hide HasPackage;
  }
}
