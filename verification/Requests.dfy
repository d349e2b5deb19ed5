// Requests against the registry. A request first passes a check, by the account's secret or by a session, and only
// then runs the transaction the check was for; requests of one account interleave freely in between.
module Requests {
  import opened Wrappers
  import opened RegistryModel
  import opened RegistryRuns
  import opened RegistryCounts
  import opened Challenges

  // What a request has shown, and for which account.
  datatype Ticket = Secret(account: string) | Token(account: string)

  // `flight` holds the checks that requests have passed and not yet acted on; `sessions` are the accounts that may
  // have a live session.
  datatype Server = Server(w: World, flight: multiset<Ticket>, sessions: set<string>)

  // A login opens its session in a step of its own, and so does a registration; a request may also end halfway.
  datatype Step =
    | Check(ticket: Ticket)
    | Act(op: Op, now: int)
    | OpenSession(account: string)
    | Leave(ticket: Ticket)

  // Enrolling another device asks for the secret again; managing the account asks for a session.
  function Needs(op: Op): Option<Ticket> {
    match op
    case AddDevice(account, _, _, _) => Some(Secret(account))
    case Revoke(account, _) => Some(Token(account))
    case Destroy(account) => Some(Token(account))
    case Publish(account, _, _, _) => Some(Token(account))
    case _ => None
  }

  function Used(op: Op): multiset<Ticket> {
    if Needs(op).Some? then multiset{Needs(op).value} else multiset{}
  }

  ghost predicate Enabled(s: Server, a: Step) {
    match a
    case Check(Secret(account)) => account in s.w.db.users
    case Check(Token(account)) => account in s.sessions
    case Act(op, now) => Possible(s.w, op, now) && Used(op) <= s.flight
    case OpenSession(account) => Secret(account) in s.flight
    case Leave(ticket) => ticket in s.flight
  }

  // Deleting an account deletes its sessions, but not those that are opened afterwards.
  ghost function Next(s: Server, a: Step): Server
    requires Enabled(s, a)
  {
    match a
    case Check(ticket) => s.(flight := s.flight + multiset{ticket})
    case Act(op, now) =>
      Server(Apply(s.w, op, now),
             s.flight - Used(op) + if Registers(s.w.db, op, now) then multiset{Secret(op.account)} else multiset{},
             if op.Destroy? then s.sessions - {op.account} else s.sessions)
    case OpenSession(account) =>
      s.(flight := s.flight - multiset{Secret(account)}, sessions := s.sessions + {account})
    case Leave(ticket) => s.(flight := s.flight - multiset{ticket})
  }

  // Only a request that has shown the account's secret adds a device to it, and only one that has shown a session of
  // the account revokes, publishes or deletes there.
  lemma NeedsSay(s: Server, op: Op, now: int)
    requires Enabled(s, Act(op, now))
    ensures op.AddDevice? ==> Secret(op.account) in s.flight
    ensures op.Revoke? || op.Publish? || op.Destroy? ==> Token(op.account) in s.flight
  {
    hide Possible;
    var need := Used(op);
    assert Needs(op).Some? ==> Needs(op).value in need;
  }

  // A request comes by a ticket by checking or by registering, and is rid of it by acting, opening a session or
  // leaving.
  lemma TicketsSay(s: Server, a: Step, ticket: Ticket)
    requires Enabled(s, a)
    ensures Next(s, a).flight[ticket] ==
              s.flight[ticket]
              + (if a == Check(ticket) || (a.Act? && Registers(s.w.db, a.op, a.now) && ticket == Secret(a.op.account))
                 then 1 else 0)
              - (if (a.Act? && Needs(a.op) == Some(ticket)) || a == Leave(ticket)
                    || (a.OpenSession? && ticket == Secret(a.account)) then 1 else 0)
  {
    hide Possible, Apply, Registers;
  }

  // An account may have a session once one is opened, until it is deleted.
  lemma SessionsSay(s: Server, a: Step, account: string)
    requires Enabled(s, a)
    ensures account in Next(s, a).sessions <==>
              a == OpenSession(account) || (account in s.sessions && !(a.Act? && a.op == Destroy(account)))
  {
    hide Possible, Apply, Registers, Needs;
  }

  // states[k] --steps[k]--> states[k + 1]
  ghost predicate Serves(states: seq<Server>, steps: seq<Step>) {
    && |states| == |steps| + 1
    && forall k :: 0 <= k < |steps| ==> Enabled(states[k], steps[k]) && states[k + 1] == Next(states[k], steps[k])
  }

  lemma StepOf(states: seq<Server>, steps: seq<Step>, k: nat)
    requires Serves(states, steps) && k < |steps|
    ensures Enabled(states[k], steps[k]) && states[k + 1] == Next(states[k], steps[k])
  {
  }

  // ---- Runs of requests are runs of transactions ---------------------------------------------------------------

  function EventOfStep(a: Step): Event {
    if a.Act? then Event(a.op, a.now) else Idle
  }

  function Events(steps: seq<Step>): (events: seq<Event>)
    ensures |events| == |steps|
    ensures forall k :: 0 <= k < |steps| ==> events[k] == EventOfStep(steps[k])
  {
    seq(|steps|, k requires 0 <= k < |steps| => EventOfStep(steps[k]))
  }

  function Worlds(states: seq<Server>): (worlds: seq<World>)
    ensures |worlds| == |states|
    ensures forall k :: 0 <= k < |states| ==> worlds[k] == states[k].w
  {
    seq(|states|, k requires 0 <= k < |states| => states[k].w)
  }

  // So everything proved of those holds of requests, however they interleave.
  lemma RunOf(states: seq<Server>, steps: seq<Step>)
    requires Serves(states, steps)
    ensures Run(Worlds(states), Events(steps))
  {
    hide Enabled, Next, CanStep, After;
    forall k | 0 <= k < |steps|
      ensures CanStep(states[k].w, EventOfStep(steps[k]))
      ensures states[k + 1].w == After(states[k].w, EventOfStep(steps[k]))
    {
      StepOf(states, steps, k);
      WorldOf(states[k], steps[k]);
    }
  }

  lemma WorldOf(s: Server, a: Step)
    requires Enabled(s, a)
    ensures CanStep(s.w, EventOfStep(a)) && Next(s, a).w == After(s.w, EventOfStep(a))
  {
    hide Possible, Apply;
  }

  ghost predicate NotDeleted(steps: seq<Step>, i: nat, k: nat, account: string)
    requires k <= |steps|
  {
    forall j :: i <= j < k && steps[j].Act? ==> steps[j].op != Destroy(account)
  }

  // However requests interleave: while an account exists a revoked key is never active again.
  lemma RevokedStays(states: seq<Server>, steps: seq<Step>, i: nat, k: nat, d: Id, account: string, pub: string)
    requires Serves(states, steps) && states[0] == START && i <= k < |states|
    requires Burned(states[i].w.db, d, account, pub) && NotDeleted(steps, i, k, account)
    ensures forall a, e :: Active(states[k].w.db, a, e) ==> states[k].w.db.devices[e].pub != pub
  {
    hide Enabled, Next, Run, Burned, Active;
    RunOf(states, steps);
    EmptyInv();
    RevokedNeverActive(Worlds(states), Events(steps), i, k, d, account, pub);
  }

  // And its epoch never goes down.
  lemma EpochStays(states: seq<Server>, steps: seq<Step>, i: nat, k: nat, account: string)
    requires Serves(states, steps) && i <= k < |states|
    requires account in states[i].w.db.users && NotDeleted(steps, i, k, account)
    ensures account in states[k].w.db.users && states[k].w.db.users[account] >= states[i].w.db.users[account]
  {
    hide Enabled, Next, Run;
    RunOf(states, steps);
    EpochNeverFalls(Worlds(states), Events(steps), i, k, account);
  }

  const START := Server(NEW_WORLD, multiset{}, {})

  // ---- When no deletion comes in between ---------------------------------------------------------------------

  // An account is deleted only while no request that has shown its secret is still to act.
  predicate Undisturbed(s: Server, a: Step) {
    a.Act? && a.op.Destroy? ==> Secret(a.op.account) !in s.flight
  }

  // Then whoever has shown a secret still finds the account, and every row has its account.
  ghost predicate Good(s: Server) {
    && Housed(s.w.db) && EpochsCount(s.w.db)
    && forall account :: Secret(account) in s.flight ==> account in s.w.db.users
  }

  lemma UsersStay(w: World, op: Op, now: int, account: string)
    requires Possible(w, op, now) && account in w.db.users && op != Destroy(account)
    ensures account in Apply(w, op, now).db.users
  {
    hide FairTake, InsertAll, ClearBacklog, Consume, RevokedRows, HasPackage, KeyUsed;
  }

  lemma GoodAct(s: Server, op: Op, now: int)
    requires Good(s) && Enabled(s, Act(op, now)) && Undisturbed(s, Act(op, now))
    ensures Good(Next(s, Act(op, now)))
  {
    var t := Next(s, Act(op, now));
    hide EpochsCount, Possible, Apply, Register, RevokedRows;
    assert !Strays(s.w.db, op) by {
      assert op.AddDevice? ==> Secret(op.account) in s.flight;
    }
    HousedIff(s.w, op, now);
    CountsIff(s.w, op, now);
    if Registers(s.w.db, op, now) {
      NewName(s.w.db, op, now);
    }
    forall account | Secret(account) in t.flight
      ensures account in t.w.db.users
    {
      if Secret(account) in s.flight {
        UsersStay(s.w, op, now, account);
      } else {
        Registered(s.w, op, now);
      }
    }
  }

  lemma NewName(db: Db, op: Op, now: int)
    requires Housed(db) && Registers(db, op, now)
    ensures RevokedRows(db, op.account) == {}
  {
  }

  lemma Registered(w: World, op: Op, now: int)
    requires Possible(w, op, now) && Registers(w.db, op, now)
    ensures op.account in Apply(w, op, now).db.users
  {
  }

  lemma GoodStep(s: Server, a: Step)
    requires Good(s) && Enabled(s, a) && Undisturbed(s, a)
    ensures Good(Next(s, a))
  {
    hide EpochsCount, Housed, Possible, Apply;
    if a.Act? {
      GoodAct(s, a.op, a.now);
    }
  }

  lemma {:induction false} GoodAlong(states: seq<Server>, steps: seq<Step>, k: nat)
    requires Serves(states, steps) && Good(states[0]) && k < |states|
    requires forall j: nat :: j < |steps| ==> Undisturbed(states[j], steps[j])
    ensures Good(states[k])
  {
    hide Good, Enabled, Next, Undisturbed;
    if k > 0 {
      GoodAlong(states, steps, k - 1);
      StepOf(states, steps, k - 1);
      GoodStep(states[k - 1], steps[k - 1]);
    }
  }

  // In every run of requests from an empty database: keys are unique, no one-time package is handed out twice,
  // and no challenge is spent twice while clocks do not run backwards. If moreover no account is deleted under a
  // request that has shown its secret, epochs count and every row has its account.
  lemma CallsFromEmpty(states: seq<Server>, steps: seq<Step>, k: nat)
    requires Serves(states, steps) && states[0] == START && k < |states|
    ensures var t := states[k].w;
      && (forall d, e :: d in t.db.devices && e in t.db.devices && t.db.devices[d].pub == t.db.devices[e].pub ==>
            d == e)
      && Distinct(t.handed)
      && (Clocked(Events(steps)) ==> Distinct(t.wins))
    ensures (forall j: nat :: j < |steps| ==> Undisturbed(states[j], steps[j])) ==>
      var t := states[k].w;
      && (forall a :: a in t.db.users ==> t.db.users[a] == |RevokedRows(t.db, a)|)
      && (forall d :: d in t.db.devices ==> t.db.devices[d].account in t.db.users)
  {
    hide RevokedRows, Run, Enabled, Next, Undisturbed, Distinct, Clocked;
    RunOf(states, steps);
    FromEmpty(Worlds(states), Events(steps), k);
    if Clocked(Events(steps)) {
      ClockedSpendsOnce(Worlds(states), Events(steps), k);
    }
    if forall j: nat :: j < |steps| ==> Undisturbed(states[j], steps[j]) {
      GoodAlong(states, steps, k);
    }
  }

  // ---- A deletion in between ---------------------------------------------------------------------------------

  lemma Extend(states: seq<Server>, steps: seq<Step>, a: Step, t: Server)
    requires Serves(states, steps) && Enabled(states[|steps|], a) && Next(states[|steps|], a) == t
    ensures Serves(states + [t], steps + [a]) && (states + [t])[|steps + [a]|] == t
  {
    hide Enabled, Next;
  }

  ghost function SignedUp(account: string, p: string, now: int): World {
    World(Db(map[account := 0], map[0 := Device(account, p, now, now, None)], map[], map[]), {0}, map[], [], [])
  }

  // Registered and signed in; a deletion, an add-device and a login have each passed their check.
  lemma ThreeWaiting(account: string, p: string, now: int) returns (states: seq<Server>, steps: seq<Step>)
    ensures Serves(states, steps) && states[0] == START && |steps| == 5
    ensures states[5] == Server(SignedUp(account, p, now),
      multiset{Token(account), Secret(account), Secret(account)}, {account})
  {
    hide Possible, Apply, Registers;
    var secret, token, w := Secret(account), Token(account), SignedUp(account, p, now);
    var s1 := Server(w, multiset{secret}, {});
    states, steps := [START, s1], [Act(Enroll(account, p, 0), now)];
    Enrolls(START, account, p, 0, now, s1);
    var s2, s3 := Server(w, multiset{}, {account}), Server(w, multiset{token}, {account});
    var s4, s5 := Server(w, multiset{token, secret}, {account}), Server(w, multiset{token, secret, secret}, {account});
    Extend(states, steps, OpenSession(account), s2);
    states, steps := states + [s2], steps + [OpenSession(account)];
    Extend(states, steps, Check(token), s3);
    states, steps := states + [s3], steps + [Check(token)];
    Extend(states, steps, Check(secret), s4);
    states, steps := states + [s4], steps + [Check(secret)];
    Extend(states, steps, Check(secret), s5);
    states, steps := states + [s5], steps + [Check(secret)];
  }

  // The deletion acts, then the add-device does.
  lemma AddedAfter(account: string, p: string, q: string, now: int) returns (states: seq<Server>, steps: seq<Step>)
    ensures Serves(states, steps) && states[0] == START && |steps| == 7
    ensures states[7] == Server(
      World(Db(map[], map[1 := Device(account, q, now, now, None)], map[], map[]), {0, 1}, map[], [], []),
      multiset{Secret(account)}, {})
  {
    hide Enabled, Next;
    var secret := Secret(account);
    states, steps := ThreeWaiting(account, p, now);
    var s6 := Server(SignedUp(account, p, now).(db := EMPTY), multiset{secret, secret}, {});
    var s7 := Server(
      World(Db(map[], map[1 := Device(account, q, now, now, None)], map[], map[]), {0, 1}, map[], [], []),
      multiset{secret}, {});
    Deletes(states[5], account, now, s6);
    Adds(s6, account, q, 1, now, s7);
    Extend(states, steps, Act(Destroy(account), now), s6);
    states, steps := states + [s6], steps + [Act(Destroy(account), now)];
    Extend(states, steps, Act(AddDevice(account, q, None, 1), now), s7);
    states, steps := states + [s7], steps + [Act(AddDevice(account, q, None, 1), now)];
  }

  // An account is deleted while one request is about to add a device and another about to open a session: the
  // device stays without an account, can be revoked, and the name registered anew starts at epoch zero over it.
  lemma DeletedMeanwhile(account: string, p: string, q: string, r: string, now: int)
    returns (states: seq<Server>, steps: seq<Step>)
    requires q != r
    ensures Serves(states, steps) && states[0] == START && |steps| == 11
    ensures !Housed(states[7].w.db)
    ensures var t := states[11].w.db;
      account in t.users && t.users[account] == 0 && |RevokedRows(t, account)| == 1
  {
    hide Enabled, Next;
    var token := Token(account);
    states, steps := AddedAfter(account, p, q, now);
    var w, b := states[7].w, Device(account, q, now, now, Some(now));
    var burned := w.(db := w.db.(devices := map[1 := b]));
    var t := Db(map[account := 0], map[1 := b, 2 := Device(account, r, now, now, None)], map[], map[]);
    var s8, s9 := Server(w, multiset{}, {account}), Server(w, multiset{token}, {account});
    var s10 := Server(burned, multiset{}, {account});
    var s11 := Server(burned.(db := t, deviceIds := {0, 1, 2}), multiset{Secret(account)}, {account});
    assert 1 in w.db.devices;
    Revokes(s9, account, 1, now, s10);
    Enrolls(s10, account, r, 2, now, s11);
    Opens(states[7], account, s8);
    Checks(s8, token, s9);
    Extend(states, steps, OpenSession(account), s8);
    states, steps := states + [s8], steps + [OpenSession(account)];
    Extend(states, steps, Check(token), s9);
    states, steps := states + [s9], steps + [Check(token)];
    Extend(states, steps, Act(Revoke(account, 1), now), s10);
    states, steps := states + [s10], steps + [Act(Revoke(account, 1), now)];
    Extend(states, steps, Act(Enroll(account, r, 2), now), s11);
    states, steps := states + [s11], steps + [Act(Enroll(account, r, 2), now)];
    assert RevokedRows(t, account) == {1};
  }

  lemma Enrolls(s: Server, account: string, pub: string, id: Id, now: int, t: Server)
    requires id !in s.w.deviceIds && id !in s.w.db.devices && account !in s.w.db.users
    requires !KeyUsed(s.w.db, pub)
    requires t.w == s.w.(db := s.w.db.(users := s.w.db.users[account := 0],
        devices := s.w.db.devices[id := Device(account, pub, now, now, None)]), deviceIds := s.w.deviceIds + {id})
    requires t.flight == s.flight + multiset{Secret(account)} && t.sessions == s.sessions
    ensures var a := Act(Enroll(account, pub, id), now); Enabled(s, a) && Next(s, a) == t
  {
    assert s.w.handed + [] == s.w.handed && s.w.wins + [] == s.w.wins;
  }

  lemma Deletes(s: Server, account: string, now: int, t: Server)
    requires Token(account) in s.flight
    requires t == Server(s.w.(db := DeleteAccount(s.w.db, account)), s.flight - multiset{Token(account)},
        s.sessions - {account})
    ensures var a := Act(Destroy(account), now); Enabled(s, a) && Next(s, a) == t
  {
    hide DeleteAccount, FairTake, InsertAll, ClearBacklog, Consume, RevokedRows, Register, UpsertDevice, RevokeDevice,
      KeyUsed, Backfill, ReapOrphans, InsertSpent, Unexpired, PublishPackages, TakePackages;
    assert s.w.handed + [] == s.w.handed && s.w.wins + [] == s.w.wins && s.w.deviceIds + {} == s.w.deviceIds;
  }

  lemma Adds(s: Server, account: string, pub: string, id: Id, now: int, t: Server)
    requires Secret(account) in s.flight && id !in s.w.deviceIds && id !in s.w.db.devices
    requires !KeyUsed(s.w.db, pub)
    requires t.w == s.w.(db := s.w.db.(devices := s.w.db.devices[id := Device(account, pub, now, now, None)]),
        deviceIds := s.w.deviceIds + {id})
    requires t.flight == s.flight - multiset{Secret(account)} && t.sessions == s.sessions
    ensures var a := Act(AddDevice(account, pub, None, id), now); Enabled(s, a) && Next(s, a) == t
  {
    assert s.w.handed + [] == s.w.handed && s.w.wins + [] == s.w.wins;
  }

  lemma Revokes(s: Server, account: string, id: Id, now: int, t: Server)
    requires Token(account) in s.flight
    requires t == Server(s.w.(db := RevokeDevice(s.w.db, account, id, now).1), s.flight - multiset{Token(account)},
        s.sessions)
    ensures var a := Act(Revoke(account, id), now); Enabled(s, a) && Next(s, a) == t
  {
    hide RevokeDevice, FairTake, InsertAll, ClearBacklog, Consume, RevokedRows, Register, UpsertDevice, DeleteAccount,
      KeyUsed, Backfill, ReapOrphans, InsertSpent, Unexpired, PublishPackages, TakePackages;
    assert s.w.handed + [] == s.w.handed && s.w.wins + [] == s.w.wins && s.w.deviceIds + {} == s.w.deviceIds;
  }

  lemma Opens(s: Server, account: string, t: Server)
    requires Secret(account) in s.flight
    requires t == s.(flight := s.flight - multiset{Secret(account)}, sessions := s.sessions + {account})
    ensures Enabled(s, OpenSession(account)) && Next(s, OpenSession(account)) == t
  {
  }

  lemma Checks(s: Server, ticket: Ticket, t: Server)
    requires if ticket.Secret? then ticket.account in s.w.db.users else ticket.account in s.sessions
    requires t == s.(flight := s.flight + multiset{ticket})
    ensures Enabled(s, Check(ticket)) && Next(s, Check(ticket)) == t
  {
  }
}
