// The registry's transactions over its tables, each proved to compute the function of RegistryModel.
module UserStore {
  import opened Wrappers
  import opened RegistryModel
  import RM = RegistryModel

  class UserStore {
    var users: map<string, nat>
    var devices: map<Id, Device>
    var packages: map<Id, Package>
    var spent: map<string, int>

    function Tables(): Db
      reads this
    {
      Db(users, devices, packages, spent)
    }

    constructor ()
      ensures Tables() == EMPTY
    {
      users, devices, packages, spent := map[], map[], map[], map[];
    }

    // The row with a given device key; the unique index makes it the only one.
    method FindKey(pub: string) returns (d: Option<Id>)
      ensures d.Some? ==> Holds(Tables(), d.value, pub)
      ensures d.None? ==> !KeyUsed(Tables(), pub)
    {
      if d: Id :| d in devices && devices[d].pub == pub {
        return Some(d);
      }
      return None;
    }

    method InsertDevice(account: string, pub: string, id: Id, now: int) returns (ok: bool)
      modifies this
      ensures ok == !(KeyUsed(old(Tables()), pub) || id in old(devices))
      ensures Tables() == if ok
        then old(Tables()).(devices := old(devices)[id := Device(account, pub, now, now, None)]) else old(Tables())
    {
      var d := FindKey(pub);
      ok := d.None? && id !in devices;
      if ok {
        devices := devices[id := Device(account, pub, now, now, None)];
      }
    }

    method Register(account: string, pub: string, id: Id, now: int) returns (r: Outcome)
      modifies this
      ensures (r, Tables()) == RM.Register(old(Tables()), account, pub, id, now)
    {
      var before := users;
      if account in users {
        return Taken;
      }
      users := users[account := 0];
      var ok := InsertDevice(account, pub, id, now);
      if !ok {
        users := before;
        return Failed;
      }
      return Created(id);
    }

    method UpsertDevice(account: string, pub: string, id: Id, now: int) returns (r: Outcome, ghost found: Option<Id>)
      modifies this
      ensures found.Some? ==> Holds(old(Tables()), found.value, pub)
      ensures found.None? ==> !KeyUsed(old(Tables()), pub)
      ensures (r, Tables()) == RM.UpsertDevice(old(Tables()), account, pub, found, id, now)
    {
      var d := FindKey(pub);
      found := d;
      if d.Some? {
        var row := devices[d.value];
        if row.account != account {
          return Taken, found;
        }
        if row.revokedAt.Some? {
          return Revoked(d.value), found;
        }
        devices := devices[d.value := row.(lastSeen := now)];
        return Exists(d.value), found;
      }
      var ok := InsertDevice(account, pub, id, now);
      return if ok then Created(id) else Failed, found;
    }

    method RevokeDevice(account: string, d: Id, now: int) returns (r: Outcome)
      modifies this
      ensures (r, Tables()) == RM.RevokeDevice(old(Tables()), account, d, now)
    {
      if d !in devices || devices[d].account != account {
        return NotFound;
      }
      if devices[d].revokedAt.None? {
        devices := devices[d := devices[d].(revokedAt := Some(now))];
        if account in users {
          users := users[account := users[account] + 1];
        }
      }
      packages := WithoutDevice(packages, d);
      return Done;
    }

    method DeleteRows(ids: set<Id>)
      modifies this`devices
      ensures devices == old(devices) - ids
    {
      var rest := ids;
      while rest != {}
        invariant rest <= ids
        invariant forall d :: d in devices <==> d in old(devices) && (d in ids ==> d in rest)
        invariant forall d :: d in devices ==> devices[d] == old(devices)[d]
        decreases rest
      {
        var d :| d in rest;
        devices := devices - {d};
        rest := rest - {d};
      }
      assert devices == old(devices) - ids;
    }

    method ReapOrphanDevices(account: string, exclude: Option<Id>, now: int) returns (deleted: nat)
      modifies this
      ensures Tables() == ReapOrphans(old(Tables()), account, exclude, now)
      ensures deleted == |old(devices)| - |devices|
    {
      hide Orphan;
      var ids := set d | d in devices && Orphan(Tables(), account, exclude, d, now);
      DeleteRows(ids);
      RemoveCounts(old(devices), ids);
      return |ids|;
    }

    method DeleteAccount(account: string)
      modifies this
      ensures Tables() == RM.DeleteAccount(old(Tables()), account)
    {
      packages := map k | k in packages && packages[k].account != account :: packages[k];
      devices := map d | d in devices && devices[d].account != account :: devices[d];
      users := users - {account};
    }

    method BackfillAccountEpoch()
      modifies this
      ensures Tables() == Backfill(old(Tables()))
    {
      users := map u | u in users :: if users[u] == 0 then |RevokedRows(Tables(), u)| else users[u];
    }

    method PublishKeyPackages(account: string, device: Id, ps: seq<Upload>, ids: seq<Id>, now: int)
      returns (stored: nat)
      requires |ids| == |ps|
      modifies this
      ensures Tables() == PublishPackages(old(Tables()), account, device, ps, ids, now)
      ensures stored == Stored(ClearBacklog(old(packages), device), account, device, ps, ids, now)
    {
      packages := ClearBacklog(packages, device);
      stored := 0;
      var i := 0;
      while i < |ps|
        invariant 0 <= i <= |ps|
        invariant stored == Stored(ClearBacklog(old(packages), device), account, device, ps[..i], ids[..i], now)
        invariant users == old(users) && devices == old(devices) && spent == old(spent)
        invariant packages == InsertAll(ClearBacklog(old(packages), device), account, device, ps[..i], ids[..i], now)
      {
        var p := ps[i];
        assert ps[..i + 1][..i] == ps[..i] && ids[..i + 1][..i] == ids[..i];
        if p.lastResort {
          packages := ClearLastResort(packages, device);
        }
        if !Clashes(packages, device, p, ids[i]) {
          packages := packages[ids[i] := Package(device, account, p.blob, p.ref, p.lastResort, None, now)];
          stored := stored + 1;
        }
        i := i + 1;
      }
      assert ps[..|ps|] == ps && ids[..|ps|] == ids;
    }

    // The active devices of an account, oldest first.
    method ActiveDevices(account: string) returns (rows: seq<Id>)
      ensures forall d :: d in rows <==> Active(Tables(), account, d)
      ensures forall i :: 0 <= i < |rows| ==> rows[i] in devices
      ensures forall i, j :: 0 <= i < j < |rows| ==>
        rows[i] != rows[j] && devices[rows[i]].addedAt <= devices[rows[j]].addedAt
    {
      rows := [];
      var rest := set d | d in devices && Active(Tables(), account, d);
      while rest != {}
        invariant forall d :: Active(Tables(), account, d) <==> d in rest || d in rows
        invariant forall d :: d in rows ==> d in devices && d !in rest
        invariant forall i :: 0 <= i < |rows| ==> rows[i] in devices
        invariant forall d, e :: d in rows && e in rest ==> devices[d].addedAt <= devices[e].addedAt
        invariant forall i, j :: 0 <= i < j < |rows| ==>
          rows[i] != rows[j] && devices[rows[i]].addedAt <= devices[rows[j]].addedAt
        decreases rest
      {
        var d := Oldest(rest);
        rows := rows + [d];
        rest := rest - {d};
      }
    }

    method Oldest(rest: set<Id>) returns (d: Id)
      requires rest != {} && forall e :: e in rest ==> e in devices
      ensures d in rest && forall e :: e in rest ==> devices[d].addedAt <= devices[e].addedAt
    {
      d :| d in rest;
      var todo := rest - {d};
      while todo != {}
        invariant todo <= rest && d in rest
        invariant forall e :: e in rest && e !in todo ==> devices[d].addedAt <= devices[e].addedAt
        decreases todo
      {
        var e :| e in todo;
        todo := todo - {e};
        if devices[e].addedAt < devices[d].addedAt {
          d := e;
        }
      }
    }

    // The oldest row among some unconsumed one-time packages.
    method OldestPackage(rows: set<Id>) returns (k: Id)
      requires rows != {} && forall j :: j in rows ==> j in packages
      ensures k in rows && forall j :: j in rows ==> packages[k].createdAt <= packages[j].createdAt
    {
      k :| k in rows;
      var todo := rows - {k};
      while todo != {}
        invariant todo <= rows && k in rows
        invariant forall j :: j in rows && j !in todo ==> packages[k].createdAt <= packages[j].createdAt
        decreases todo
      {
        var j :| j in todo;
        todo := todo - {j};
        if packages[j].createdAt < packages[k].createdAt {
          k := j;
        }
      }
    }

    method ClaimOne(device: Id, pub: string, now: int) returns (c: Option<Claim>)
      modifies this`packages
      ensures c.None? ==> !Claimable(old(packages), device) && packages == old(packages)
      ensures c.Some? ==> c.value.device == device && c.value.pub == pub && ClaimsFrom(old(packages), c.value)
      ensures c.Some? ==> packages == Consume(old(packages), [c.value], now)
    {
      var rows := set k | k in packages && OneTime(packages[k], device);
      if rows != {} {
        var k := OldestPackage(rows);
        c := Some(Claim(device, pub, packages[k].blob, false, k));
        assert forall j :: Consumes([c.value], j) <==> j == k by {
          assert [c.value][0] == c.value;
        }
        packages := packages[k := packages[k].(consumedAt := Some(now))];
        return;
      }
      assert !HasOneTime(packages, device) by {
        assert forall k :: k in packages && OneTime(packages[k], device) ==> k in rows;
      }
      if k: Id :| k in packages && packages[k].device == device && packages[k].lastResort {
        c := Some(Claim(device, pub, packages[k].blob, true, k));
        assert packages == Consume(packages, [c.value], now);
        return;
      }
      return None;
    }

    // `genuine` is whether the challenge is well formed and its MAC matches.
    method SpendChallenge(challenge: string, expiresAt: int, genuine: bool, digest: seq<nat>, powBits: nat, now: int)
      returns (ok: bool)
      requires forall i :: 0 <= i < |digest| ==> digest[i] < 16
      modifies this
      ensures (ok, Tables())
        == RM.SpendChallenge(old(Tables()), challenge, expiresAt, genuine && Solves(digest, powBits), now)
    {
      if expiresAt <= now || !genuine {
        return false;
      }
      var bits := LeadingZeroBits(digest);
      assert bits < powBits <==> !Solves(digest, powBits);
      if bits < powBits {
        return false;
      }
      spent := Unexpired(spent, now);
      if challenge in spent {
        return false;
      }
      spent := spent[challenge := expiresAt];
      return true;
    }

    method TakeKeyPackages(account: string, now: int) returns (out: seq<Claim>)
      modifies this`packages
      ensures FairTake(old(Tables()), account, out)
      ensures Tables() == TakePackages(old(Tables()), out, now)
    {
      hide ClaimsFrom, Claimable, Consume, Active, FairTake, Took;
      var rows := ActiveDevices(account);
      ghost var was := old(Tables());
      assert Listed(was, account, rows);
      out := [];
      ghost var at: seq<int> := [];
      TookNothing(was, rows);
      ConsumeNothing(packages, now);
      for i := 0 to |rows|
        invariant devices == was.devices && users == was.users && spent == was.spent
        invariant packages == Consume(was.packages, out, now) && Took(was, rows, i, out, at)
      {
        var d := rows[i];
        TookElsewhere(was, account, rows, i, out, at, now);
        var c := ClaimOne(d, devices[d].pub, now);
        TookNext(was, rows, i, out, at, c);
        if c.Some? {
          ConsumeMore(was.packages, out, c.value, now);
          out, at := out + [c.value], at + [i];
        }
      }
      TookAll(was, account, rows, out, at);
    }
  }

  // ---- Taking, device by device -------------------------------------------------------------------------

  ghost predicate Listed(db: Db, account: string, rows: seq<Id>) {
    && (forall d :: d in rows <==> Active(db, account, d))
    && (forall i :: 0 <= i < |rows| ==> rows[i] in db.devices)
    && (forall i, j :: 0 <= i < j < |rows| ==>
      rows[i] != rows[j] && db.devices[rows[i]].addedAt <= db.devices[rows[j]].addedAt)
  }

  // `out` holds what the first `n` devices could give; `at` says which device each claim is for.
  ghost predicate Took(db: Db, rows: seq<Id>, n: nat, out: seq<Claim>, at: seq<int>) {
    && n <= |rows| && |at| == |out|
    && (forall j :: 0 <= j < |at| ==> 0 <= at[j] < n && rows[at[j]] == out[j].device)
    && (forall j, k :: 0 <= j < k < |at| ==> at[j] < at[k])
    && (forall j :: 0 <= j < |out| ==>
          out[j].device in db.devices && out[j].pub == db.devices[out[j].device].pub && ClaimsFrom(db.packages, out[j]))
    && (forall i :: 0 <= i < n && Claimable(db.packages, rows[i]) ==> i in at)
  }

  lemma TookNothing(db: Db, rows: seq<Id>)
    ensures Took(db, rows, 0, [], [])
  {
  }

  // Earlier claims leave the next device's rows alone.
  lemma TookElsewhere(db: Db, account: string, rows: seq<Id>, n: nat, out: seq<Claim>, at: seq<int>, now: int)
    requires Listed(db, account, rows) && n < |rows| && Took(db, rows, n, out, at)
    ensures Claimable(Consume(db.packages, out, now), rows[n]) <==> Claimable(db.packages, rows[n])
    ensures forall c: Claim :: c.device == rows[n] ==>
      (ClaimsFrom(Consume(db.packages, out, now), c) <==> ClaimsFrom(db.packages, c))
  {
    hide Claimable, ClaimsFrom, Consume, Active;
    forall j | 0 <= j < |out|
      ensures out[j].device != rows[n]
    {
      assert rows[at[j]] != rows[n];
    }
    ConsumeElsewhere(db.packages, out, rows[n], now);
  }

  lemma TookNext(db: Db, rows: seq<Id>, n: nat, out: seq<Claim>, at: seq<int>, c: Option<Claim>)
    requires n < |rows| && Took(db, rows, n, out, at) && rows[n] in db.devices
    requires c.None? ==> !Claimable(db.packages, rows[n])
    requires c.Some? ==>
      c.value.device == rows[n] && c.value.pub == db.devices[rows[n]].pub && ClaimsFrom(db.packages, c.value)
    ensures if c.None? then Took(db, rows, n + 1, out, at) else Took(db, rows, n + 1, out + [c.value], at + [n])
  {
    hide Claimable, ClaimsFrom;
    if c.Some? {
      assert (at + [n])[|at|] == n;
      assert forall i :: i in at ==> i in at + [n];
    }
  }

  lemma TookAll(db: Db, account: string, rows: seq<Id>, out: seq<Claim>, at: seq<int>)
    requires Listed(db, account, rows) && Took(db, rows, |rows|, out, at)
    ensures FairTake(db, account, out)
  {
    hide Claimable, ClaimsFrom, Active;
    forall j | 0 <= j < |out|
      ensures Active(db, account, out[j].device)
    {
      assert rows[at[j]] in rows;
    }
    forall d | Active(db, account, d) && Claimable(db.packages, d)
      ensures exists k :: 0 <= k < |out| && out[k].device == d
    {
      assert d in rows;
      var i :| 0 <= i < |rows| && rows[i] == d;
      var k :| 0 <= k < |at| && at[k] == i;
      assert out[k].device == d;
    }
  }

  // ---- Leading zero bits of a digest in hex digits ------------------------------------------------------

  // Bit `k` of a digest, most significant first.
  function DigestBit(digest: seq<nat>, k: nat): nat
    requires k < 4 * |digest|
  {
    var v := digest[k / 4];
    match k % 4
    case 0 => v / 8
    case 1 => v / 4 % 2
    case 2 => v / 2 % 2
    case _ => v % 2
  }

  // A solution starts with enough zero bits.
  predicate Solves(digest: seq<nat>, powBits: nat) {
    powBits <= 4 * |digest| && forall k: nat :: k < powBits ==> DigestBit(digest, k) == 0
  }

  // The first one bit is at the returned position, or there is none.
  method LeadingZeroBits(digest: seq<nat>) returns (bits: nat)
    requires forall i :: 0 <= i < |digest| ==> digest[i] < 16
    ensures bits <= 4 * |digest|
    ensures forall k: nat :: k < bits ==> DigestBit(digest, k) == 0
    ensures bits < 4 * |digest| ==> DigestBit(digest, bits) == 1
  {
    bits := 0;
    for i := 0 to |digest|
      invariant bits == 4 * i
      invariant forall k: nat :: k < bits ==> DigestBit(digest, k) == 0
    {
      var v := digest[i];
      if v == 0 {
        bits := bits + 4;
      } else {
        bits := bits + if v >= 8 then 0 else if v >= 4 then 1 else if v >= 2 then 2 else 3;
        return;
      }
    }
  }

  lemma RemoveCounts(m: map<Id, Device>, ids: set<Id>)
    requires ids <= m.Keys
    ensures |m - ids| == |m| - |ids|
  {
    assert (m - ids).Keys == m.Keys - ids;
    assert (m - ids).Keys + ids == m.Keys;
  }

  lemma ConsumeNothing(packages: map<Id, Package>, now: int)
    ensures Consume(packages, [], now) == packages
  {
  }

  // Claims for other devices leave this device's rows as they were.
  lemma ConsumeElsewhere(packages: map<Id, Package>, out: seq<Claim>, d: Id, now: int)
    requires forall j :: 0 <= j < |out| ==> ClaimsFrom(packages, out[j]) && out[j].device != d
    ensures Claimable(Consume(packages, out, now), d) <==> Claimable(packages, d)
    ensures forall c: Claim :: c.device == d ==>
      (ClaimsFrom(Consume(packages, out, now), c) <==> ClaimsFrom(packages, c))
  {
    var after := Consume(packages, out, now);
    assert after.Keys == packages.Keys;
    forall k | k in packages
      ensures after[k].device == packages[k].device && (packages[k].device == d ==> after[k] == packages[k])
    {
      if Consumes(out, k) {
        var j :| 0 <= j < |out| && out[j].row == k && !out[j].lastResort;
        assert ClaimsFrom(packages, out[j]);
      }
    }
    assert forall k :: k in packages ==> (OneTime(after[k], d) <==> OneTime(packages[k], d));
    assert HasOneTime(after, d) <==> HasOneTime(packages, d);
  }

  lemma ConsumeMore(packages: map<Id, Package>, out: seq<Claim>, c: Claim, now: int)
    ensures Consume(Consume(packages, out, now), [c], now) == Consume(packages, out + [c], now)
  {
    forall k
      ensures Consumes(out + [c], k) <==> Consumes(out, k) || Consumes([c], k)
    {
      if Consumes(out, k) {
        var i :| 0 <= i < |out| && out[i].row == k && !out[i].lastResort;
        assert (out + [c])[i] == out[i];
      }
      if Consumes([c], k) {
        assert [c][0] == c && (out + [c])[|out|] == c;
      }
    }
  }
}
