// The account registry as values: its tables, and one function per transaction. Row identifiers and
// challenges are random in the program and parameters here.
module RegistryModel {
  import opened Wrappers

  type Id = nat

  datatype Device = Device(account: string, pub: string, addedAt: int, lastSeen: int, revokedAt: Option<int>)

  datatype Package = Package(device: Id, account: string, blob: string, ref: string, lastResort: bool,
                             consumedAt: Option<int>, createdAt: int)

  // users holds each account's epoch; spent holds the expiry of each spent challenge.
  datatype Db = Db(users: map<string, nat>, devices: map<Id, Device>, packages: map<Id, Package>,
                   spent: map<string, int>)

  const EMPTY := Db(map[], map[], map[], map[])

  const ORPHAN_GRACE := 600

  // ---- Accounts and devices ------------------------------------------------------------------------

  datatype Outcome = Created(id: Id) | Exists(id: Id) | Revoked(id: Id) | Taken | NotFound | Done | Failed

  predicate KeyUsed(db: Db, pub: string) {
    exists d :: d in db.devices && db.devices[d].pub == pub
  }

  // The unique index on device keys makes the insert throw, and the transaction roll back.
  function Register(db: Db, account: string, pub: string, id: Id, now: int): (Outcome, Db) {
    if account in db.users then (Taken, db)
    else if KeyUsed(db, pub) || id in db.devices then (Failed, db)
    else (Created(id), db.(users := db.users[account := 0],
      devices := db.devices[id := Device(account, pub, now, now, None)]))
  }

  // The row a key lookup finds.
  predicate Holds(db: Db, d: Id, pub: string) {
    d in db.devices && db.devices[d].pub == pub
  }

  // `d` is the row the lookup found, if it found one.
  function UpsertDevice(db: Db, account: string, pub: string, d: Option<Id>, id: Id, now: int): (Outcome, Db)
    requires d.Some? ==> d.value in db.devices
  {
    if d.None? then
      if id in db.devices then (Failed, db)
      else (Created(id), db.(devices := db.devices[id := Device(account, pub, now, now, None)]))
    else
      var row := db.devices[d.value];
      if row.account != account then (Taken, db)
      else if row.revokedAt.Some? then (Revoked(d.value), db)
      else (Exists(d.value), db.(devices := db.devices[d.value := row.(lastSeen := now)]))
  }

  function WithoutDevice(packages: map<Id, Package>, device: Id): map<Id, Package> {
    map k | k in packages && packages[k].device != device :: packages[k]
  }

  function RevokeDevice(db: Db, account: string, d: Id, now: int): (Outcome, Db) {
    if d !in db.devices || db.devices[d].account != account then (NotFound, db)
    else
      var live := db.devices[d].revokedAt.None?;
      (Done, db.(devices := if live then db.devices[d := db.devices[d].(revokedAt := Some(now))] else db.devices,
                 users := if live && account in db.users then db.users[account := db.users[account] + 1] else db.users,
                 packages := WithoutDevice(db.packages, d)))
  }

  predicate HasPackage(db: Db, d: Id) {
    exists k :: k in db.packages && db.packages[k].device == d
  }

  predicate Orphan(db: Db, account: string, exclude: Option<Id>, d: Id, now: int) {
    && d in db.devices && db.devices[d].account == account && db.devices[d].revokedAt.None?
    && db.devices[d].lastSeen <= now - ORPHAN_GRACE && !HasPackage(db, d) && exclude != Some(d)
  }

  function ReapOrphans(db: Db, account: string, exclude: Option<Id>, now: int): Db {
    db.(devices := map d | d in db.devices && !Orphan(db, account, exclude, d, now) :: db.devices[d])
  }

  function DeleteAccount(db: Db, account: string): Db {
    db.(users := db.users - {account},
        devices := map d | d in db.devices && db.devices[d].account != account :: db.devices[d],
        packages := map k | k in db.packages && db.packages[k].account != account :: db.packages[k])
  }

  function RevokedRows(db: Db, account: string): set<Id> {
    set d | d in db.devices && db.devices[d].account == account && db.devices[d].revokedAt.Some?
  }

  // Start-up: accounts still at zero are seeded with their number of revoked rows.
  function Backfill(db: Db): Db {
    db.(users := map u | u in db.users :: if db.users[u] == 0 then |RevokedRows(db, u)| else db.users[u])
  }

  // ---- Key packages ---------------------------------------------------------------------------------

  datatype Upload = Upload(blob: string, ref: string, lastResort: bool)

  predicate OneTime(p: Package, device: Id) {
    p.device == device && !p.lastResort && p.consumedAt.None?
  }

  function ClearBacklog(packages: map<Id, Package>, device: Id): map<Id, Package> {
    map k | k in packages && !OneTime(packages[k], device) :: packages[k]
  }

  function ClearLastResort(packages: map<Id, Package>, device: Id): map<Id, Package> {
    map k | k in packages && !(packages[k].device == device && packages[k].lastResort) :: packages[k]
  }

  // The row identifier, the (device, ref) pair and the one last-resort row per device are unique; an insert
  // that breaks any of them is ignored.
  predicate Clashes(packages: map<Id, Package>, device: Id, p: Upload, id: Id) {
    id in packages || exists k :: k in packages && packages[k].device == device
                                  && (packages[k].ref == p.ref || (p.lastResort && packages[k].lastResort))
  }

  function Insert(packages: map<Id, Package>, account: string, device: Id, p: Upload, id: Id, now: int)
    : map<Id, Package>
  {
    var cleared := if p.lastResort then ClearLastResort(packages, device) else packages;
    if Clashes(cleared, device, p, id) then cleared
    else cleared[id := Package(device, account, p.blob, p.ref, p.lastResort, None, now)]
  }

  function InsertAll(packages: map<Id, Package>, account: string, device: Id, ps: seq<Upload>, ids: seq<Id>,
                     now: int): map<Id, Package>
    requires |ids| == |ps|
  {
    if ps == [] then packages
    else Insert(InsertAll(packages, account, device, ps[..|ps| - 1], ids[..|ps| - 1], now), account, device,
      ps[|ps| - 1], ids[|ps| - 1], now)
  }

  // How many of the inserts took effect.
  function Stored(packages: map<Id, Package>, account: string, device: Id, ps: seq<Upload>, ids: seq<Id>, now: int): nat
    requires |ids| == |ps|
  {
    if ps == [] then 0
    else
      var n := |ps| - 1;
      var before := InsertAll(packages, account, device, ps[..n], ids[..n], now);
      var cleared := if ps[n].lastResort then ClearLastResort(before, device) else before;
      Stored(packages, account, device, ps[..n], ids[..n], now) + if Clashes(cleared, device, ps[n], ids[n]) then 0
        else 1
  }

  function PublishPackages(db: Db, account: string, device: Id, ps: seq<Upload>, ids: seq<Id>, now: int): Db
    requires |ids| == |ps|
  {
    db.(packages := InsertAll(ClearBacklog(db.packages, device), account, device, ps, ids, now))
  }

  // One package handed to a caller; `row` is where it came from and is not returned.
  datatype Claim = Claim(device: Id, pub: string, blob: string, lastResort: bool, row: Id)

  predicate HasOneTime(packages: map<Id, Package>, device: Id) {
    exists k :: k in packages && OneTime(packages[k], device)
  }

  // An oldest unconsumed one-time package if there is any, else the last-resort package.
  predicate ClaimsFrom(packages: map<Id, Package>, c: Claim) {
    && c.row in packages && packages[c.row].device == c.device
    && packages[c.row].blob == c.blob && packages[c.row].lastResort == c.lastResort
    && if c.lastResort then !HasOneTime(packages, c.device)
       else OneTime(packages[c.row], c.device)
            && forall k :: k in packages && OneTime(packages[k], c.device) ==>
              packages[c.row].createdAt <= packages[k].createdAt
  }

  predicate Claimable(packages: map<Id, Package>, device: Id) {
    exists k :: k in packages && packages[k].device == device
      && (packages[k].lastResort || packages[k].consumedAt.None?)
  }

  predicate Active(db: Db, account: string, d: Id) {
    d in db.devices && db.devices[d].account == account && db.devices[d].revokedAt.None?
  }

  // One claim per active device that has any package, devices oldest first.
  ghost predicate FairTake(db: Db, account: string, out: seq<Claim>) {
    && (forall i :: 0 <= i < |out| ==>
          && Active(db, account, out[i].device) && out[i].pub == db.devices[out[i].device].pub
          && ClaimsFrom(db.packages, out[i]))
    && (forall i, j :: 0 <= i < j < |out| ==>
          && out[i].device != out[j].device
          && db.devices[out[i].device].addedAt <= db.devices[out[j].device].addedAt)
    && (forall d :: Active(db, account, d) && Claimable(db.packages, d) ==>
      exists i :: 0 <= i < |out| && out[i].device == d)
  }

  predicate Consumes(out: seq<Claim>, k: Id) {
    exists i :: 0 <= i < |out| && out[i].row == k && !out[i].lastResort
  }

  function Consume(packages: map<Id, Package>, out: seq<Claim>, now: int): map<Id, Package> {
    map k | k in packages :: if Consumes(out, k) then packages[k].(consumedAt := Some(now)) else packages[k]
  }

  function TakePackages(db: Db, out: seq<Claim>, now: int): Db {
    db.(packages := Consume(db.packages, out, now))
  }

  // ---- Proof of work --------------------------------------------------------------------------------

  function Unexpired(spent: map<string, int>, now: int): map<string, int> {
    map c | c in spent && spent[c] > now :: spent[c]
  }

  // `genuine` is whether the challenge is well formed, its MAC is right and the nonce solves it.
  function SpendChallenge(db: Db, challenge: string, expiresAt: int, genuine: bool, now: int): (bool, Db) {
    if expiresAt <= now || !genuine then (false, db)
    else InsertSpent(db.(spent := Unexpired(db.spent, now)), challenge, expiresAt)
  }

  // The second of its two statements: the primary key refuses a challenge that is on record.
  function InsertSpent(db: Db, challenge: string, expiresAt: int): (bool, Db) {
    if challenge in db.spent then (false, db) else (true, db.(spent := db.spent[challenge := expiresAt]))
  }
}
