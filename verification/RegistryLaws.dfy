// What each transaction of the account registry does, said of the rows of its tables.
module RegistryLaws {
  import opened Wrappers
  import opened RegistryModel
  import opened RegistryRuns

  // ---- Accounts and devices -------------------------------------------------------------------------------

  ghost predicate KeyFree(db: Db, pub: string) {
    forall d :: d in db.devices ==> db.devices[d].pub != pub
  }

  // One row more or one row changed, and no other.
  ghost predicate OneRow(s: map<Id, Device>, t: map<Id, Device>, d: Id, row: Device) {
    d in t && t[d] == row && forall e :: e != d ==> (e in s <==> e in t) && (e in s ==> t[e] == s[e])
  }

  // A new name with a new key gets an account at epoch zero and a live device, both or neither.
  lemma RegisterSays(db: Db, account: string, pub: string, id: Id, now: int)
    requires id !in db.devices
    ensures var (r, t) := Register(db, account, pub, id, now);
      && t == NextDb(db, Enroll(account, pub, id), now)
      && (account in db.users ==> r == Taken) && (account !in db.users && !KeyFree(db, pub) ==> r == Failed)
      && (account !in db.users && KeyFree(db, pub) ==> r == Created(id))
      && if r == Created(id)
         then && t.users == db.users[account := 0] && OneRow(db.devices, t.devices, id, t.devices[id])
              && Active(t, account, id) && t.devices[id].pub == pub
              && t.devices[id].addedAt == now && t.devices[id].lastSeen == now
              && t.packages == db.packages && t.spent == db.spent
         else t == db
  {
  }

  // Adding a key that nobody has adds a live device; a key of this account's live device is seen again; a key of
  // another account's device or of a revoked one changes nothing.
  lemma AddSays(db: Db, account: string, pub: string, found: Option<Id>, id: Id, now: int)
    requires KeysUnique(db.devices) && id !in db.devices
    requires (found.Some? ==> Holds(db, found.value, pub)) && (found.None? ==> !KeyUsed(db, pub))
    ensures found.Some? ==> found.value in db.devices
    ensures var (r, t) := UpsertDevice(db, account, pub, found, id, now);
      && t == NextDb(db, AddDevice(account, pub, found, id), now)
      && (r == Created(id) <==> KeyFree(db, pub))
      && (r.Created? ==> OneRow(db.devices, t.devices, id, Device(account, pub, now, now, None)))
      && (forall d :: Holds(db, d, pub) ==>
            && (r == Taken <==> db.devices[d].account != account)
            && (r == Revoked(d) <==> db.devices[d].account == account && db.devices[d].revokedAt.Some?)
            && (r == Exists(d) <==> Active(db, account, d))
            && (r == Exists(d) ==> OneRow(db.devices, t.devices, d, db.devices[d].(lastSeen := now))))
      && (r.Taken? || r.Revoked? ==> t == db)
      && t.users == db.users && t.packages == db.packages && t.spent == db.spent
  {
    if found.Some? {
      assert Holds(db, found.value, pub);
      assert !KeyFree(db, pub);
      assert forall d :: Holds(db, d, pub) ==> d == found.value;
    } else {
      assert forall d :: !Holds(db, d, pub);
    }
  }

  // Revoking keeps the row with the time it was first revoked at, and drops its packages; the epoch goes up by one
  // if the row was live.
  lemma RevokeSays(db: Db, account: string, d: Id, now: int)
    ensures var (r, t) := RevokeDevice(db, account, d, now);
      && t == NextDb(db, Revoke(account, d), now)
      && (r == Done <==> d in db.devices && db.devices[d].account == account)
      && (r != Done ==> r == NotFound && t == db)
      && (r == Done ==>
            && OneRow(db.devices, t.devices, d,
                 db.devices[d].(revokedAt := if Active(db, account, d) then Some(now) else db.devices[d].revokedAt))
            && (forall a :: a in t.users <==> a in db.users)
            && (forall a :: a in db.users ==>
                  t.users[a] == db.users[a] + if a == account && Active(db, account, d) then 1 else 0)
            && (forall k :: k in t.packages <==> k in db.packages && db.packages[k].device != d)
            && (forall k :: k in t.packages ==> t.packages[k] == db.packages[k])
            && t.spent == db.spent)
  {
  }

  // Deleting an account leaves nothing of it and everything else.
  lemma DeleteSays(db: Db, account: string, now: int)
    ensures var t := NextDb(db, Destroy(account), now);
      && (forall a :: a in t.users <==> a in db.users && a != account)
      && (forall a :: a in t.users ==> t.users[a] == db.users[a])
      && (forall d :: d in t.devices <==> d in db.devices && db.devices[d].account != account)
      && (forall d :: d in t.devices ==> t.devices[d] == db.devices[d])
      && (forall k :: k in t.packages <==> k in db.packages && db.packages[k].account != account)
      && (forall k :: k in t.packages ==> t.packages[k] == db.packages[k])
      && t.spent == db.spent
  {
  }

  // The epoch of an account at zero becomes its number of revoked rows; nothing else changes.
  lemma BackfillSays(db: Db, account: string, now: int)
    ensures var t := NextDb(db, Restart, now);
      var rows := set d | d in db.devices && db.devices[d].account == account && db.devices[d].revokedAt != None;
      && t == db.(users := t.users) && (account in t.users <==> account in db.users)
      && (account in db.users ==> t.users[account] == if db.users[account] == 0 then |rows| else db.users[account])
  {
    var rows := set d | d in db.devices && db.devices[d].account == account && db.devices[d].revokedAt != None;
    assert rows == RevokedRows(db, account);
  }

  // ---- Which rows go ----------------------------------------------------------------------------------------

  ghost predicate Packaged(db: Db, d: Id) {
    exists k :: k in db.packages && db.packages[k].device == d
  }

  // A live row of the account that no package names, ten minutes or more without a sign-in, and not the caller's own.
  ghost predicate Abandoned(db: Db, account: string, exclude: Option<Id>, d: Id, now: int) {
    && d in db.devices && db.devices[d].account == account && db.devices[d].revokedAt == None
    && db.devices[d].lastSeen <= now - 600 && !Packaged(db, d) && exclude != Some(d)
  }

  lemma ReapSays(db: Db, account: string, exclude: Option<Id>, now: int)
    ensures var t := NextDb(db, Reap(account, exclude), now);
      && (forall d :: d in t.devices <==> d in db.devices && !Abandoned(db, account, exclude, d, now))
      && (forall d :: d in t.devices ==> t.devices[d] == db.devices[d])
      && t == db.(devices := t.devices)
  {
    assert forall d :: HasPackage(db, d) <==> Packaged(db, d);
    hide HasPackage;
  }

  // The one other way for a row to go.
  ghost predicate Takes(db: Db, e: Event, d: Id) {
    e.Event? && d in db.devices &&
    match e.op
    case Destroy(account) => db.devices[d].account == account
    case Reap(account, exclude) => Abandoned(db, account, exclude, d, e.now)
    case _ => false
  }

  lemma RowGoesIff(w: World, e: Event, d: Id)
    requires CanStep(w, e) && d in w.db.devices
    ensures d !in After(w, e).db.devices <==> Takes(w.db, e, d)
    ensures d in After(w, e).db.devices ==> After(w, e).db.devices[d].account == w.db.devices[d].account
    ensures d in After(w, e).db.devices ==> After(w, e).db.devices[d].pub == w.db.devices[d].pub
  {
    hide FairTake, InsertAll, ClearBacklog, Consume, RevokedRows, HasPackage, KeyUsed;
    if e.Event? && e.op.Reap? {
      ReapSays(w.db, e.op.account, e.op.exclude, e.now);
      hide NextDb;
    }
  }

  ghost predicate Stands(states: seq<World>, i: nat, k: nat, d: Id)
    requires k < |states|
  {
    forall j :: i <= j <= k ==> d in states[j].db.devices
  }

  // Over any stretch of any run a row stays if and only if its account is not deleted and no reap comes while it is
  // live, long unseen and without a package.
  lemma {:induction false} RowStandsIff(states: seq<World>, events: seq<Event>, i: nat, k: nat, d: Id)
    requires Run(states, events) && i <= k < |states| && d in states[i].db.devices
    ensures Stands(states, i, k, d) <==> forall j :: i <= j < k ==> !Takes(states[j].db, events[j], d)
    decreases k
  {
    hide CanStep, After, Takes;
    if k > i {
      RowStandsIff(states, events, i, k - 1, d);
      assert Stands(states, i, k, d) <==> Stands(states, i, k - 1, d) && d in states[k].db.devices;
      if Stands(states, i, k - 1, d) {
        EventOf(states, events, k - 1);
        RowGoesIff(states[k - 1], events[k - 1], d);
      }
    }
  }

  // So while a package row names a device, only the deletion of its account removes its row.
  lemma {:induction false} PackagedStays(states: seq<World>, events: seq<Event>, i: nat, k: nat, d: Id)
    requires Run(states, events) && i <= k < |states| && d in states[i].db.devices
    requires forall j :: i <= j < k ==> Packaged(states[j].db, d)
    requires NeverDestroyed(events, i, k, states[i].db.devices[d].account)
    ensures d in states[k].db.devices && states[k].db.devices[d].account == states[i].db.devices[d].account
    decreases k
  {
    hide CanStep, After, Packaged;
    if k > i {
      PackagedStays(states, events, i, k - 1, d);
      EventOf(states, events, k - 1);
      RowGoesIff(states[k - 1], events[k - 1], d);
    }
  }

  // And a device that has a package keeps one until it is revoked, its account is deleted, or it publishes anew.
  ghost predicate Untouched(events: seq<Event>, i: nat, k: nat, d: Id)
    requires k <= |events|
  {
    forall j :: i <= j < k && events[j].Event? ==>
      && !(events[j].op.Revoke? && events[j].op.device == d)
      && !(events[j].op.Publish? && events[j].op.device == d)
  }

  lemma PackageStays(w: World, op: Op, now: int, d: Id)
    requires Inv(w) && Possible(w, op, now) && d in w.db.devices && Packaged(w.db, d)
    requires !(op.Revoke? && op.device == d) && !(op.Publish? && op.device == d)
    requires op != Destroy(w.db.devices[d].account)
    ensures Packaged(Apply(w, op, now).db, d)
  {
    var k :| k in w.db.packages && w.db.packages[k].device == d;
    hide FairTake, InsertAll, ClearBacklog, RevokedRows, HasPackage, KeyUsed, Consumes, Packaged;
    hide KeysUnique, Known, HandedKept;
    if op.Publish? {
      PublishKeeps(w.db, op.account, op.device, op.ps, op.ids, now);
    }
    var q := Apply(w, op, now).db.packages;
    assert k in q && q[k].device == d;
    PackagedBy(Apply(w, op, now).db, d, k);
  }

  lemma PackagedBy(db: Db, d: Id, k: Id)
    requires k in db.packages && db.packages[k].device == d
    ensures Packaged(db, d)
  {
  }

  lemma {:induction false} AuthorizedStays(states: seq<World>, events: seq<Event>, i: nat, k: nat, d: Id)
    requires Run(states, events) && Inv(states[0]) && i <= k < |states|
    requires d in states[i].db.devices && Packaged(states[i].db, d)
    requires Untouched(events, i, k, d) && NeverDestroyed(events, i, k, states[i].db.devices[d].account)
    ensures d in states[k].db.devices && Packaged(states[k].db, d)
    ensures states[k].db.devices[d].account == states[i].db.devices[d].account
    decreases k
  {
    hide Possible, Apply, Packaged, Inv;
    if k > i {
      AuthorizedStays(states, events, i, k - 1, d);
      EventOf(states, events, k - 1);
      RunInv(states, events, k - 1);
      RowGoesIff(states[k - 1], events[k - 1], d);
      if events[k - 1].Event? {
        PackageStays(states[k - 1], events[k - 1].op, events[k - 1].now, d);
      }
    }
  }

  // ---- What a publish leaves on record --------------------------------------------------------------------

  // A last-resort row of the device, and one that is not, with this reference.
  ghost predicate LastWith(packages: map<Id, Package>, device: Id, ref: string) {
    exists k :: k in packages && packages[k].device == device && packages[k].ref == ref && packages[k].lastResort
  }

  ghost predicate OtherWith(packages: map<Id, Package>, device: Id, ref: string) {
    exists k :: k in packages && packages[k].device == device && packages[k].ref == ref && !packages[k].lastResort
  }

  ghost predicate ConsumedWith(packages: map<Id, Package>, device: Id, ref: string) {
    exists k :: k in packages && packages[k].device == device && packages[k].ref == ref && !packages[k].lastResort
                && packages[k].consumedAt != None
  }

  // The latest last-resort upload before the j-th, or else the row from before the publish, has the reference.
  ghost predicate LatestHas(packages: map<Id, Package>, device: Id, ps: seq<Upload>, j: nat, ref: string)
    requires j <= |ps|
    decreases j
  {
    if j == 0 then LastWith(packages, device, ref)
    else if ps[j - 1].lastResort then ps[j - 1].ref == ref
    else LatestHas(packages, device, ps, j - 1, ref)
  }

  // A one-time upload of the reference among the first n that finds no last-resort package of the same reference.
  ghost predicate Enters(packages: map<Id, Package>, device: Id, ps: seq<Upload>, n: nat, ref: string)
    requires n <= |ps|
  {
    exists j :: 0 <= j < n && !ps[j].lastResort && ps[j].ref == ref && !LatestHas(packages, device, ps, j, ref)
  }

  // Row identifiers are new.
  ghost predicate FreshIds(packages: map<Id, Package>, ids: seq<Id>) {
    && (forall j, k :: 0 <= j < k < |ids| ==> ids[j] != ids[k])
    && (forall j :: 0 <= j < |ids| ==> ids[j] !in packages)
  }

  ghost function AfterUploads(db: Db, account: string, device: Id, ps: seq<Upload>, ids: seq<Id>, now: int, n: nat)
    : map<Id, Package>
    requires |ids| == |ps| && n <= |ps|
  {
    InsertAll(ClearBacklog(db.packages, device), account, device, ps[..n], ids[..n], now)
  }

  // The row an upload makes.
  ghost function RowOf(account: string, device: Id, p: Upload, now: int): Package {
    Package(device, account, p.blob, p.ref, p.lastResort, None, now)
  }

  // What is on record was there before and not on offer for one-time use, or is an upload's.
  ghost predicate FromBefore(packages: map<Id, Package>, device: Id, k: Id, row: Package) {
    k in packages && row == packages[k] && (row.device != device || row.lastResort || row.consumedAt != None)
  }

  ghost predicate FromUpload(account: string, device: Id, ps: seq<Upload>, ids: seq<Id>, now: int, k: Id, row: Package)
    requires |ids| == |ps|
  {
    exists j :: 0 <= j < |ps| && ids[j] == k && row == RowOf(account, device, ps[j], now)
  }

  lemma {:induction false} RowsFromUploads(db: Db, account: string, device: Id, ps: seq<Upload>, ids: seq<Id>,
                                           now: int, n: nat)
    requires |ids| == |ps| && n <= |ps|
    ensures var q := AfterUploads(db, account, device, ps, ids, now, n);
      forall k :: k in q ==> FromBefore(db.packages, device, k, q[k])
                             || FromUpload(account, device, ps[..n], ids[..n], now, k, q[k])
    decreases n
  {
    var q := AfterUploads(db, account, device, ps, ids, now, n);
    if n > 0 {
      var p := AfterUploads(db, account, device, ps, ids, now, n - 1);
      RowsFromUploads(db, account, device, ps, ids, now, n - 1);
      AfterNext(db, account, device, ps, ids, now, n - 1);
      InsertRows(p, account, device, ps[n - 1], ids[n - 1], now);
      hide Insert, FromBefore;
      forall k | k in q && !FromBefore(db.packages, device, k, q[k])
        ensures FromUpload(account, device, ps[..n], ids[..n], now, k, q[k])
      {
        if k in p && q[k] == p[k] {
          var j :| 0 <= j < n - 1 && ids[..n - 1][j] == k && q[k] == RowOf(account, device, ps[..n - 1][j], now);
          assert ids[..n][j] == k && ps[..n][j] == ps[..n - 1][j];
        } else {
          assert ids[..n][n - 1] == k;
        }
      }
    }
  }

  // An insert drops nothing but a last-resort row in favour of its own, and adds nothing but its row.
  lemma InsertRows(packages: map<Id, Package>, account: string, device: Id, p: Upload, id: Id, now: int)
    ensures var q := Insert(packages, account, device, p, id, now);
      && (forall k :: k in q ==>
            (k in packages && q[k] == packages[k] && !(p.lastResort && q[k].device == device && q[k].lastResort))
            || (k == id && q[k] == RowOf(account, device, p, now)))
      && (forall k :: k in packages && !(p.lastResort && packages[k].device == device && packages[k].lastResort) ==>
            k in q && (k != id ==> q[k] == packages[k]))
  {
    hide Clashes;
  }

  lemma AfterNext(db: Db, account: string, device: Id, ps: seq<Upload>, ids: seq<Id>, now: int, n: nat)
    requires |ids| == |ps| && n < |ps|
    ensures AfterUploads(db, account, device, ps, ids, now, n + 1)
         == Insert(AfterUploads(db, account, device, ps, ids, now, n), account, device, ps[n], ids[n], now)
  {
    assert ps[..n + 1][..n] == ps[..n] && ids[..n + 1][..n] == ids[..n];
  }

  lemma WithBy(packages: map<Id, Package>, device: Id, ref: string, k: Id)
    requires k in packages && packages[k].device == device && packages[k].ref == ref
    ensures if packages[k].lastResort then LastWith(packages, device, ref) else OtherWith(packages, device, ref)
  {
  }

  // Whether an insert takes effect, by the references on record.
  lemma ClashesIff(packages: map<Id, Package>, device: Id, p: Upload, id: Id)
    requires id !in packages
    ensures var cleared := if p.lastResort then ClearLastResort(packages, device) else packages;
      Clashes(cleared, device, p, id) <==>
        OtherWith(packages, device, p.ref) || (!p.lastResort && LastWith(packages, device, p.ref))
  {
    var cleared := if p.lastResort then ClearLastResort(packages, device) else packages;
    if OtherWith(packages, device, p.ref) {
      var k :| k in packages && packages[k].device == device && packages[k].ref == p.ref && !packages[k].lastResort;
      assert k in cleared;
    }
    if Clashes(cleared, device, p, id) {
      var k :| k in cleared && cleared[k].device == device
               && (cleared[k].ref == p.ref || (p.lastResort && cleared[k].lastResort));
      WithBy(packages, device, p.ref, k);
    }
  }

  // One insert, as far as one reference is concerned.
  lemma InsertWith(packages: map<Id, Package>, account: string, device: Id, p: Upload, id: Id, now: int, ref: string)
    requires id !in packages
    ensures var q := Insert(packages, account, device, p, id, now);
      && (OtherWith(q, device, ref) <==>
            OtherWith(packages, device, ref)
            || (!p.lastResort && p.ref == ref && !LastWith(packages, device, ref)))
      && (LastWith(q, device, ref) <==>
            if p.lastResort then p.ref == ref && !OtherWith(packages, device, ref) else LastWith(packages, device, ref))
  {
    var cleared := if p.lastResort then ClearLastResort(packages, device) else packages;
    var q := Insert(packages, account, device, p, id, now);
    ClashesIff(packages, device, p, id);
    assert forall k :: k in cleared ==> k in q && q[k] == packages[k];
    assert forall k :: k in q ==> k in cleared || k == id;
    assert id in q ==> q[id] == Package(device, account, p.blob, p.ref, p.lastResort, None, now);
    assert id in q <==> !Clashes(cleared, device, p, id);
    hide Clashes, Insert;
    if OtherWith(packages, device, ref) {
      var k :| k in packages && packages[k].device == device && packages[k].ref == ref && !packages[k].lastResort;
      WithBy(q, device, ref, k);
    }
    if LastWith(packages, device, ref) && !p.lastResort {
      var k :| k in packages && packages[k].device == device && packages[k].ref == ref && packages[k].lastResort;
      WithBy(q, device, ref, k);
    }
    if id in q && p.ref == ref {
      WithBy(q, device, ref, id);
    }
  }

  // Which references are on record after n uploads.
  lemma {:induction false} WithAfter(db: Db, account: string, device: Id, ps: seq<Upload>, ids: seq<Id>, now: int,
                                     n: nat, ref: string)
    requires |ids| == |ps| && n <= |ps| && FreshIds(db.packages, ids)
    ensures var q := AfterUploads(db, account, device, ps, ids, now, n);
      && (OtherWith(q, device, ref) <==>
            ConsumedWith(db.packages, device, ref) || Enters(db.packages, device, ps, n, ref))
      && (!OtherWith(q, device, ref) ==> (LastWith(q, device, ref) <==> LatestHas(db.packages, device, ps, n, ref)))
    decreases n
  {
    hide InsertAll, Insert, FreshIds;
    var q := AfterUploads(db, account, device, ps, ids, now, n);
    if n == 0 {
      ClearedWith(db.packages, device, ref);
      assert ps[..0] == [] && ids[..0] == [];
      assert q == ClearBacklog(db.packages, device) by {
        NoUploads(db, account, device, ps, ids, now);
      }
    } else {
      var m := n - 1;
      var p := AfterUploads(db, account, device, ps, ids, now, m);
      WithAfter(db, account, device, ps, ids, now, m, ref);
      AfterNext(db, account, device, ps, ids, now, m);
      IdIsNew(db, account, device, ps, ids, now, m);
      InsertWith(p, account, device, ps[m], ids[m], now, ref);
      EntersNext(db.packages, device, ps, m, ref);
      hide OtherWith, LastWith, ConsumedWith, Enters, AfterUploads;
    }
  }

  lemma NoUploads(db: Db, account: string, device: Id, ps: seq<Upload>, ids: seq<Id>, now: int)
    requires |ids| == |ps|
    ensures AfterUploads(db, account, device, ps, ids, now, 0) == ClearBacklog(db.packages, device)
  {
  }

  lemma EntersNext(packages: map<Id, Package>, device: Id, ps: seq<Upload>, n: nat, ref: string)
    requires n < |ps|
    ensures Enters(packages, device, ps, n + 1, ref) <==>
              || Enters(packages, device, ps, n, ref)
              || (!ps[n].lastResort && ps[n].ref == ref && !LatestHas(packages, device, ps, n, ref))
  {
    hide LatestHas;
  }

  lemma ClearedWith(packages: map<Id, Package>, device: Id, ref: string)
    ensures var q := ClearBacklog(packages, device);
      && (OtherWith(q, device, ref) <==> ConsumedWith(packages, device, ref))
      && (LastWith(q, device, ref) <==> LastWith(packages, device, ref))
  {
    var q := ClearBacklog(packages, device);
    if ConsumedWith(packages, device, ref) {
      var k :| k in packages && packages[k].device == device && packages[k].ref == ref && !packages[k].lastResort
               && packages[k].consumedAt != None;
      WithBy(q, device, ref, k);
    }
    if LastWith(packages, device, ref) {
      var k :| k in packages && packages[k].device == device && packages[k].ref == ref && packages[k].lastResort;
      WithBy(q, device, ref, k);
    }
  }

  lemma IdIsNew(db: Db, account: string, device: Id, ps: seq<Upload>, ids: seq<Id>, now: int, n: nat)
    requires |ids| == |ps| && n < |ps| && FreshIds(db.packages, ids)
    ensures ids[n] !in AfterUploads(db, account, device, ps, ids, now, n)
  {
    RowsFromUploads(db, account, device, ps, ids, now, n);
    hide AfterUploads;
  }

  // A last-resort upload that no later one replaces ends on record, alone, unless its reference is a consumed
  // package's or that of a one-time upload before it; then the device is left without one.
  lemma LastResortEnds(db: Db, account: string, device: Id, ps: seq<Upload>, ids: seq<Id>, now: int, i: nat)
    requires |ids| == |ps| && FreshIds(db.packages, ids)
    requires i < |ps| && ps[i].lastResort && forall j :: i < j < |ps| ==> !ps[j].lastResort
    ensures var t := NextDb(db, Publish(account, device, ps, ids), now).packages;
      && (ids[i] in t <==>
            !ConsumedWith(db.packages, device, ps[i].ref) && !Enters(db.packages, device, ps, i, ps[i].ref))
      && (ids[i] in t ==> t[ids[i]] == RowOf(account, device, ps[i], now))
      && (forall k :: k in t && t[k].device == device && t[k].lastResort ==> k == ids[i])
  {
    WithAfter(db, account, device, ps, ids, now, i, ps[i].ref);
    LastAfter(db, account, device, ps, ids, now, i, |ps|);
    assert ps[..|ps|] == ps && ids[..|ps|] == ids;
    hide OtherWith, ConsumedWith, Enters, InsertAll;
  }

  lemma {:induction false} LastAfter(db: Db, account: string, device: Id, ps: seq<Upload>, ids: seq<Id>, now: int,
                                     i: nat, n: nat)
    requires |ids| == |ps| && FreshIds(db.packages, ids) && i < n <= |ps|
    requires ps[i].lastResort && forall j :: i < j < |ps| ==> !ps[j].lastResort
    ensures var q := AfterUploads(db, account, device, ps, ids, now, n);
      && (ids[i] in q <==> !OtherWith(AfterUploads(db, account, device, ps, ids, now, i), device, ps[i].ref))
      && (ids[i] in q ==> q[ids[i]] == RowOf(account, device, ps[i], now))
      && (forall k :: k in q && q[k].device == device && q[k].lastResort ==> k == ids[i])
    decreases n
  {
    hide InsertAll, OtherWith, LastWith, Clashes;
    var m := n - 1;
    var p := AfterUploads(db, account, device, ps, ids, now, m);
    AfterNext(db, account, device, ps, ids, now, m);
    IdIsNew(db, account, device, ps, ids, now, m);
    InsertRows(p, account, device, ps[m], ids[m], now);
    if m == i {
      ClashesIff(p, device, ps[m], ids[m]);
    } else {
      LastAfter(db, account, device, ps, ids, now, i, m);
      assert ids[i] != ids[m];
      hide Insert;
    }
    hide AfterUploads, FreshIds;
  }

  // Without one among the uploads the last-resort row stays as it was.
  lemma {:induction false} LastResortStays(db: Db, account: string, device: Id, ps: seq<Upload>, ids: seq<Id>,
                                           now: int, n: nat, k: Id)
    requires |ids| == |ps| && FreshIds(db.packages, ids) && n <= |ps| && forall j :: 0 <= j < |ps| ==> !ps[j].lastResort
    requires k in db.packages && db.packages[k].lastResort
    ensures var q := AfterUploads(db, account, device, ps, ids, now, n); k in q && q[k] == db.packages[k]
    decreases n
  {
    if n > 0 {
      LastResortStays(db, account, device, ps, ids, now, n - 1, k);
      AfterNext(db, account, device, ps, ids, now, n - 1);
      InsertRows(AfterUploads(db, account, device, ps, ids, now, n - 1), account, device, ps[n - 1], ids[n - 1], now);
      hide AfterUploads, Insert;
    }
  }

  // A one-time package of a reference ends on record if and only if one was consumed under it or an upload of it
  // found no last-resort package of the same reference; and nothing is left of the old backlog, as every row is a
  // consumed, last-resort or other device's one from before, or an upload's.
  lemma PublishOffers(db: Db, account: string, device: Id, ps: seq<Upload>, ids: seq<Id>, now: int, ref: string)
    requires |ids| == |ps| && FreshIds(db.packages, ids)
    ensures var t := NextDb(db, Publish(account, device, ps, ids), now).packages;
      && (OtherWith(t, device, ref) <==>
            ConsumedWith(db.packages, device, ref) || Enters(db.packages, device, ps, |ps|, ref))
      && forall k :: k in t ==> FromBefore(db.packages, device, k, t[k])
                                || FromUpload(account, device, ps, ids, now, k, t[k])
  {
    WithAfter(db, account, device, ps, ids, now, |ps|, ref);
    RowsFromUploads(db, account, device, ps, ids, now, |ps|);
    assert ps[..|ps|] == ps && ids[..|ps|] == ids;
    hide OtherWith, ConsumedWith, Enters, InsertAll, FromBefore, FromUpload;
  }

  // A last-resort upload under a consumed package's reference takes the old one with it and stores nothing.
  lemma LastResortLost(device: Id, account: string, ref: string, former: Id, used: Id, id: Id, now: int)
    requires former != used && id != former && id != used
    ensures var db := EMPTY.(packages := map[former := Package(device, account, "a", ref + "x", true, None, 0),
                                             used := Package(device, account, "b", ref, false, Some(0), 0)]);
      var t := PublishPackages(db, account, device, [Upload("b", ref, true)], [id], now).packages;
      t == map[used := db.packages[used]]
  {
    var db := EMPTY.(packages := map[former := Package(device, account, "a", ref + "x", true, None, 0),
                                     used := Package(device, account, "b", ref, false, Some(0), 0)]);
    var ps := [Upload("b", ref, true)];
    var cleared := ClearBacklog(db.packages, device);
    assert cleared == db.packages;
    assert ps[..0] == [] && [id][..0] == [];
    var rest := ClearLastResort(cleared, device);
    assert rest == map[used := db.packages[used]];
    assert Clashes(rest, device, ps[0], id) by {
      assert used in rest && rest[used].ref == ps[0].ref;
    }
    assert InsertAll(cleared, account, device, ps[..0], [id][..0], now) == cleared;
  }

  // The uploads among the first n whose row was there right after them.
  ghost function Entered(db: Db, account: string, device: Id, ps: seq<Upload>, ids: seq<Id>, now: int, n: nat): set<nat>
    requires |ids| == |ps| && n <= |ps|
  {
    set j: nat | 0 <= j < n && ids[j] in AfterUploads(db, account, device, ps, ids, now, j + 1)
  }

  // Those are what the answer of a publish counts.
  lemma {:induction false} StoredCounts(db: Db, account: string, device: Id, ps: seq<Upload>, ids: seq<Id>, now: int,
                                        n: nat)
    requires |ids| == |ps| && n <= |ps| && FreshIds(db.packages, ids)
    ensures Stored(ClearBacklog(db.packages, device), account, device, ps[..n], ids[..n], now)
         == |Entered(db, account, device, ps, ids, now, n)|
    decreases n
  {
    hide *;
    if n == 0 {
      StoredNone(db, account, device, ps, ids, now);
    } else {
      StoredCounts(db, account, device, ps, ids, now, n - 1);
      StoredNext(db, account, device, ps, ids, now, n - 1);
      EnteredNext(db, account, device, ps, ids, now, n - 1);
    }
  }

  lemma StoredNone(db: Db, account: string, device: Id, ps: seq<Upload>, ids: seq<Id>, now: int)
    requires |ids| == |ps|
    ensures Stored(ClearBacklog(db.packages, device), account, device, ps[..0], ids[..0], now) == 0
    ensures |Entered(db, account, device, ps, ids, now, 0)| == 0
  {
    assert ps[..0] == [] && ids[..0] == [];
    assert Entered(db, account, device, ps, ids, now, 0) == {};
  }

  lemma EnteredNext(db: Db, account: string, device: Id, ps: seq<Upload>, ids: seq<Id>, now: int, n: nat)
    requires |ids| == |ps| && n < |ps|
    ensures |Entered(db, account, device, ps, ids, now, n + 1)|
         == |Entered(db, account, device, ps, ids, now, n)|
            + if ids[n] in AfterUploads(db, account, device, ps, ids, now, n + 1) then 1 else 0
  {
    hide AfterUploads;
    var before := Entered(db, account, device, ps, ids, now, n);
    var entered := Entered(db, account, device, ps, ids, now, n + 1);
    assert entered == before + if ids[n] in AfterUploads(db, account, device, ps, ids, now, n + 1) then {n} else {};
  }

  lemma StoredNext(db: Db, account: string, device: Id, ps: seq<Upload>, ids: seq<Id>, now: int, n: nat)
    requires |ids| == |ps| && n < |ps| && FreshIds(db.packages, ids)
    ensures var cleared := ClearBacklog(db.packages, device);
      Stored(cleared, account, device, ps[..n + 1], ids[..n + 1], now)
      == Stored(cleared, account, device, ps[..n], ids[..n], now)
         + if ids[n] in AfterUploads(db, account, device, ps, ids, now, n + 1) then 1 else 0
  {
    AfterNext(db, account, device, ps, ids, now, n);
    IdIsNew(db, account, device, ps, ids, now, n);
    InsertEnters(AfterUploads(db, account, device, ps, ids, now, n), account, device, ps[n], ids[n], now);
    assert ps[..n + 1][..n] == ps[..n] && ids[..n + 1][..n] == ids[..n];
    hide InsertAll, ClearBacklog, ClearLastResort, Clashes, FreshIds, Insert;
  }

  lemma InsertEnters(packages: map<Id, Package>, account: string, device: Id, p: Upload, id: Id, now: int)
    requires id !in packages
    ensures id in Insert(packages, account, device, p, id, now) <==>
              !Clashes(if p.lastResort then ClearLastResort(packages, device) else packages, device, p, id)
  {
  }

  // A take marks the one-time rows it hands out as consumed and changes nothing else.
  lemma TakeSays(db: Db, account: string, out: seq<Claim>, now: int)
    requires FairTake(db, account, out)
    ensures var t := NextDb(db, Take(account, out), now);
      && t == db.(packages := t.packages) && t.packages.Keys == db.packages.Keys
      && (forall i :: 0 <= i < |out| && !out[i].lastResort ==>
            t.packages[out[i].row] == db.packages[out[i].row].(consumedAt := Some(now)))
      && (forall k :: k in db.packages && (forall i :: 0 <= i < |out| ==> out[i].row != k || out[i].lastResort) ==>
            t.packages[k] == db.packages[k])
  {
    FairRows(db, account, out);
    hide ClaimsFrom, Claimable, Active, FairTake;
    assert forall i :: 0 <= i < |out| && !out[i].lastResort ==> Consumes(out, out[i].row);
  }

  ghost predicate Offers(db: Db, d: Id, k: Id) {
    k in db.packages && db.packages[k].device == d && !db.packages[k].lastResort && db.packages[k].consumedAt == None
  }

  // What a take hands out: for each live device of the account that has a package to give, and for no other, one
  // package; an oldest of those offered for one-time use, and the last-resort one only when none is offered; and the
  // devices in the order they were added.
  lemma TakeChooses(db: Db, account: string, out: seq<Claim>, d: Id)
    requires FairTake(db, account, out)
    ensures (exists i :: 0 <= i < |out| && out[i].device == d) <==>
              && d in db.devices && db.devices[d].account == account && db.devices[d].revokedAt == None
              && exists k :: k in db.packages && db.packages[k].device == d
                             && (db.packages[k].lastResort || db.packages[k].consumedAt == None)
    ensures forall i :: 0 <= i < |out| ==>
              && out[i].device in db.devices && out[i].pub == db.devices[out[i].device].pub
              && out[i].row in db.packages && out[i].blob == db.packages[out[i].row].blob
              && db.packages[out[i].row].device == out[i].device
              && db.packages[out[i].row].lastResort == out[i].lastResort
              && (if out[i].lastResort then forall k :: !Offers(db, out[i].device, k)
                  else Offers(db, out[i].device, out[i].row)
                       && forall k :: Offers(db, out[i].device, k) ==>
                            db.packages[out[i].row].createdAt <= db.packages[k].createdAt)
    ensures forall i, j :: 0 <= i < j < |out| ==>
              && out[i].device != out[j].device
              && db.devices[out[i].device].addedAt <= db.devices[out[j].device].addedAt
  {
    assert Claimable(db.packages, d) <==> exists k :: k in db.packages && db.packages[k].device == d
                                               && (db.packages[k].lastResort || db.packages[k].consumedAt == None);
    forall i | 0 <= i < |out|
      ensures Active(db, account, out[i].device) && Claimable(db.packages, out[i].device)
    {
      assert ClaimsFrom(db.packages, out[i]);
    }
    forall e, k
      ensures Offers(db, e, k) <==> k in db.packages && OneTime(db.packages[k], e)
    {
    }
    hide Claimable, Offers;
  }

  // A genuine challenge is spent if and only if it is live and was not spent while live; records that have expired
  // go, and a challenge that is not live or not genuine leaves even those.
  lemma SpendSays(db: Db, challenge: string, expiresAt: int, genuine: bool, now: int)
    ensures var (ok, t) := SpendChallenge(db, challenge, expiresAt, genuine, now);
      && (ok <==> genuine && now < expiresAt && !(challenge in db.spent && now < db.spent[challenge]))
      && t == db.(spent := t.spent)
      && (!(genuine && now < expiresAt) ==> t == db)
      && (genuine && now < expiresAt ==>
            && (forall c :: c in t.spent <==> c == challenge || (c in db.spent && now < db.spent[c]))
            && (forall c :: c in db.spent && now < db.spent[c] ==> t.spent[c] == db.spent[c])
            && (ok ==> t.spent[challenge] == expiresAt))
  {
  }
}
