// The record store of one device: records on disk, and, in history-off mode, new records in memory only.
module Keyvault {
  import opened FiniteSets
  import opened Wrappers
  import opened Vault

  // How many memory-held records one conversation may accumulate.
  const PER_CONVERSATION := 500

  type Store = map<string, Record>

  // ---- The memory tier: records in insertion order -----------------------------------------------------

  ghost predicate UniqueIds(mem: seq<Record>) {
    forall i, j :: 0 <= i < j < |mem| ==> mem[i].messageId != mem[j].messageId
  }

  predicate HoldsId(mem: seq<Record>, id: string) {
    exists i :: 0 <= i < |mem| && mem[i].messageId == id
  }

  function IndexOf(mem: seq<Record>, id: string): (i: nat)
    requires HoldsId(mem, id)
    ensures i < |mem| && mem[i].messageId == id
  {
    if mem[0].messageId == id then 0 else
      assert HoldsId(mem[1..], id) by {
        var k :| 0 <= k < |mem| && mem[k].messageId == id;
        assert mem[1..][k - 1] == mem[k];
      }
      1 + IndexOf(mem[1..], id)
  }

  function OfConversation(mem: seq<Record>, conversation: string): seq<Record> {
    if mem == [] then []
    else OfConversation(mem[..|mem| - 1], conversation)
         + if mem[|mem| - 1].conversationId == conversation then [mem[|mem| - 1]] else []
  }

  function Without(mem: seq<Record>, gone: set<string>): seq<Record> {
    if mem == [] then []
    else Without(mem[..|mem| - 1], gone) + if mem[|mem| - 1].messageId in gone then [] else [mem[|mem| - 1]]
  }

  // Older: stored earlier, or stored at the same time and inserted earlier.
  predicate Older(mem: seq<Record>, i: nat, j: nat)
    requires i < |mem| && j < |mem|
  {
    mem[i].storedAt < mem[j].storedAt || (mem[i].storedAt == mem[j].storedAt && i < j)
  }

  // What eviction may drop from one conversation: as many as exceed the limit, every one of them older than
  // every one that stays.
  ghost predicate DropsOldest(mine: seq<Record>, gone: set<string>) {
    && |gone| == (if |mine| > PER_CONVERSATION then |mine| - PER_CONVERSATION else 0)
    && (forall id :: id in gone ==> HoldsId(mine, id))
    && (forall i, j ::
          0 <= i < |mine| && 0 <= j < |mine| && mine[i].messageId in gone && mine[j].messageId !in gone ==>
            Older(mine, i, j))
  }

  lemma {:induction false} WithoutMembers(mem: seq<Record>, gone: set<string>)
    ensures forall r :: r in Without(mem, gone) <==> r in mem && r.messageId !in gone
    decreases |mem|
  {
    if mem != [] {
      var front, last := mem[..|mem| - 1], mem[|mem| - 1];
      WithoutMembers(front, gone);
      assert mem == front + [last];
    }
  }

  lemma HoldsMember(mem: seq<Record>, id: string)
    ensures HoldsId(mem, id) <==> exists r :: r in mem && r.messageId == id
  {
    if r :| r in mem && r.messageId == id {
      var i :| 0 <= i < |mem| && mem[i] == r;
    }
    if HoldsId(mem, id) {
      var i :| 0 <= i < |mem| && mem[i].messageId == id;
      assert mem[i] in mem;
    }
  }

  lemma WithoutKeeps(mem: seq<Record>, gone: set<string>, id: string)
    ensures HoldsId(Without(mem, gone), id) <==> HoldsId(mem, id) && id !in gone
  {
    hide HoldsId, Without;
    WithoutMembers(mem, gone);
    HoldsMember(mem, id);
    HoldsMember(Without(mem, gone), id);
  }

  lemma HoldsAppend(mem: seq<Record>, r: Record, id: string)
    ensures HoldsId(mem + [r], id) <==> HoldsId(mem, id) || r.messageId == id
  {
    if HoldsId(mem, id) {
      var i :| 0 <= i < |mem| && mem[i].messageId == id;
      assert (mem + [r])[i] == mem[i];
    }
    if r.messageId == id {
      assert (mem + [r])[|mem|] == r;
    }
  }

  lemma {:induction false} WithoutUnique(mem: seq<Record>, gone: set<string>)
    requires UniqueIds(mem)
    ensures UniqueIds(Without(mem, gone))
    decreases |mem|
  {
    if mem != [] {
      var front, last := mem[..|mem| - 1], mem[|mem| - 1];
      WithoutUnique(front, gone);
      WithoutKeeps(front, gone, last.messageId);
      assert !HoldsId(front, last.messageId);
    }
  }

  lemma {:induction false} OfConversationKeeps(mem: seq<Record>, conversation: string)
    ensures forall r :: r in OfConversation(mem, conversation) <==> r in mem && r.conversationId == conversation
    ensures UniqueIds(mem) ==> UniqueIds(OfConversation(mem, conversation))
    ensures forall id :: HoldsId(OfConversation(mem, conversation), id) ==> HoldsId(mem, id)
    decreases |mem|
  {
    if mem != [] {
      var front, last := mem[..|mem| - 1], mem[|mem| - 1];
      OfConversationKeeps(front, conversation);
      assert mem == front + [last];
      var sub := OfConversation(front, conversation);
      forall id
        ensures HoldsId(sub + [last], id) <==> HoldsId(sub, id) || last.messageId == id
        ensures HoldsId(mem, id) <==> HoldsId(front, id) || last.messageId == id
      {
        HoldsAppend(sub, last, id);
        HoldsAppend(front, last, id);
      }
      if UniqueIds(mem) {
        assert !HoldsId(front, last.messageId);
        assert !HoldsId(sub, last.messageId);
      }
    }
  }

  // Dropping records of one conversation leaves every other conversation's count alone, and takes exactly
  // the dropped ones off its own.
  lemma {:induction false} WithoutCounts(mem: seq<Record>, gone: set<string>, conversation: string, c: string)
    requires UniqueIds(mem) && forall r :: r in mem && r.messageId in gone ==> r.conversationId == conversation
    requires forall id :: id in gone ==> HoldsId(mem, id)
    ensures |OfConversation(Without(mem, gone), c)| == |OfConversation(mem, c)| - if c == conversation then |gone|
      else 0
    decreases |mem|
  {
    hide Without, OfConversation;
    if mem == [] {
      NoCounts(mem, gone, c);
    } else {
      var front, last := mem[..|mem| - 1], mem[|mem| - 1];
      assert mem == front + [last] && last in mem;
      OneLess(front, last, gone);
      WithoutCounts(front, gone - {last.messageId}, conversation, c);
      CountStep(front, last, gone, conversation, c);
    }
  }

  lemma NoCounts(mem: seq<Record>, gone: set<string>, c: string)
    requires mem == [] && forall id :: id in gone ==> HoldsId(mem, id)
    ensures gone == {} && OfConversation(Without(mem, gone), c) == OfConversation(mem, c)
  {
  }

  lemma CountStep(front: seq<Record>, last: Record, gone: set<string>, conversation: string, c: string)
    requires last.messageId in gone ==> last.conversationId == conversation
    requires !HoldsId(front, last.messageId)
    requires |OfConversation(Without(front, gone - {last.messageId}), c)|
      == |OfConversation(front, c)| - if c == conversation then |gone - {last.messageId}| else 0
    ensures |OfConversation(Without(front + [last], gone), c)|
      == |OfConversation(front + [last], c)| - if c == conversation then |gone| else 0
  {
    hide OfConversation, Without, HoldsId;
    WithoutIrrelevant(front, gone, last.messageId);
    WithoutAppend(front, last, gone);
    CountAppend(front, last, c);
    CountAppend(Without(front, gone), last, c);
    if last.messageId in gone {
      assert gone == (gone - {last.messageId}) + {last.messageId};
    } else {
      assert gone == gone - {last.messageId};
    }
  }

  lemma OneLess(front: seq<Record>, last: Record, gone: set<string>)
    requires UniqueIds(front + [last]) && forall id :: id in gone ==> HoldsId(front + [last], id)
    ensures UniqueIds(front) && !HoldsId(front, last.messageId) && forall id :: id in gone - {last.messageId} ==>
      HoldsId(front, id)
  {
    var mem := front + [last];
    assert forall i :: 0 <= i < |front| ==> mem[i] == front[i];
    assert mem[|front|] == last;
    forall id | id in gone - {last.messageId}
      ensures HoldsId(front, id)
    {
      HoldsAppend(front, last, id);
    }
  }

  lemma CountAppend(mem: seq<Record>, r: Record, c: string)
    ensures OfConversation(mem + [r], c) == if r.conversationId == c then OfConversation(mem, c) + [r]
      else OfConversation(mem, c)
  {
    assert (mem + [r])[..|mem|] == mem;
  }

  lemma {:induction false} WithoutIrrelevant(mem: seq<Record>, gone: set<string>, id: string)
    requires !HoldsId(mem, id)
    ensures Without(mem, gone - {id}) == Without(mem, gone)
    decreases |mem|
  {
    if mem != [] {
      var front, last := mem[..|mem| - 1], mem[|mem| - 1];
      HoldsAppend(front, last, id);
      assert mem == front + [last];
      WithoutIrrelevant(front, gone, id);
    }
  }

  lemma {:induction false} WithoutTwice(mem: seq<Record>, gone: set<string>, id: string)
    ensures Without(Without(mem, gone), {id}) == Without(mem, gone + {id})
    decreases |mem|
  {
    if mem != [] {
      hide Without;
      var front, last := mem[..|mem| - 1], mem[|mem| - 1];
      assert mem == front + [last];
      WithoutTwice(front, gone, id);
      WithoutAppend(front, last, gone);
      WithoutAppend(front, last, gone + {id});
      WithoutAppend(Without(front, gone), last, {id});
    }
  }

  lemma WithoutAppend(mem: seq<Record>, r: Record, gone: set<string>)
    ensures Without(mem + [r], gone) == if r.messageId in gone then Without(mem, gone) else Without(mem, gone) + [r]
  {
    assert (mem + [r])[..|mem|] == mem;
  }

  lemma {:induction false} WithoutNothing(mem: seq<Record>)
    ensures Without(mem, {}) == mem
    decreases |mem|
  {
    if mem != [] {
      WithoutNothing(mem[..|mem| - 1]);
    }
  }

  // ---- Both tiers as one map -----------------------------------------------------------------------------

  function MemMap(mem: seq<Record>): Store {
    if mem == [] then map[] else MemMap(mem[..|mem| - 1])[mem[|mem| - 1].messageId := mem[|mem| - 1]]
  }

  function View(mem: seq<Record>, disk: Store): Store {
    disk + MemMap(mem)
  }

  lemma {:induction false} MemMapHolds(mem: seq<Record>)
    requires UniqueIds(mem)
    ensures forall id :: id in MemMap(mem) <==> HoldsId(mem, id)
    ensures forall r :: r in mem ==> r.messageId in MemMap(mem) && MemMap(mem)[r.messageId] == r
    ensures forall id :: id in MemMap(mem) ==> MemMap(mem)[id].messageId == id && MemMap(mem)[id] in mem
    decreases |mem|
  {
    if mem != [] {
      var front, last := mem[..|mem| - 1], mem[|mem| - 1];
      MemMapHolds(front);
      assert mem == front + [last];
      assert !HoldsId(front, last.messageId);
      forall id
        ensures HoldsId(mem, id) <==> HoldsId(front, id) || last.messageId == id
      {
        HoldsAppend(front, last, id);
      }
      forall r | r in front
        ensures r.messageId != last.messageId
      {
        HoldsMember(front, r.messageId);
      }
      hide HoldsId, UniqueIds;
    }
  }

  lemma MemMapWithout(mem: seq<Record>, gone: set<string>)
    requires UniqueIds(mem)
    ensures MemMap(Without(mem, gone)) == MemMap(mem) - gone
  {
    WithoutUnique(mem, gone);
    WithoutMembers(mem, gone);
    MemMapHolds(mem);
    MemMapHolds(Without(mem, gone));
    forall id
      ensures HoldsId(Without(mem, gone), id) <==> HoldsId(mem, id) && id !in gone
    {
      WithoutKeeps(mem, gone, id);
    }
    hide HoldsId, UniqueIds, Without, MemMap;
    assert MemMap(Without(mem, gone)).Keys == (MemMap(mem) - gone).Keys;
  }

  lemma UpdateUnique(mem: seq<Record>, i: nat, r: Record)
    requires UniqueIds(mem) && i < |mem| && mem[i].messageId == r.messageId
    ensures UniqueIds(mem[i := r])
  {
  }

  lemma {:induction false} UpdateMap(mem: seq<Record>, i: nat, r: Record)
    requires UniqueIds(mem) && i < |mem| && mem[i].messageId == r.messageId
    ensures MemMap(mem[i := r]) == MemMap(mem)[r.messageId := r]
    decreases |mem|
  {
    var n := |mem| - 1;
    if i == n {
      assert mem[i := r][..n] == mem[..n];
    } else {
      assert mem[i := r][..n] == mem[..n][i := r];
      UpdateMap(mem[..n], i, r);
    }
  }

  lemma MemMapUpdate(mem: seq<Record>, i: nat, r: Record)
    requires UniqueIds(mem) && i < |mem| && mem[i].messageId == r.messageId
    ensures UniqueIds(mem[i := r])
    ensures MemMap(mem[i := r]) == MemMap(mem)[r.messageId := r]
    ensures forall id :: HoldsId(mem[i := r], id) <==> HoldsId(mem, id)
  {
    UpdateUnique(mem, i, r);
    UpdateMap(mem, i, r);
    hide UniqueIds, MemMap;
    MemMapHolds(mem);
    MemMapHolds(mem[i := r]);
    assert HoldsId(mem, r.messageId);
    hide HoldsId;
  }

  // ---- The store object ----------------------------------------------------------------------------------

  class KeyvaultStore {
    var ephemeral: bool
    var mem: seq<Record>
    var disk: Store

    // No identifier is in both tiers, or twice in memory.
    ghost predicate Valid()
      reads this
    {
      && UniqueIds(mem)
      && (forall id :: id in disk ==> disk[id].messageId == id && !HoldsId(mem, id))
    }

    constructor (stored: Store)
      requires forall id :: id in stored ==> stored[id].messageId == id
      ensures Valid() && !ephemeral && mem == [] && disk == stored && Bounded(mem)
    {
      ephemeral, mem, disk := false, [], stored;
    }

    // Leaving history-off mode drops what memory held and nothing else.
    method SetEphemeral(on: bool)
      requires Valid()
      modifies this
      ensures Valid() && ephemeral == on && disk == old(disk)
      ensures View(mem, disk) == if on then old(View(mem, disk)) else old(disk)
      ensures old(Bounded(mem)) ==> Bounded(mem)
    {
      ephemeral := on;
      if !on {
        mem := [];
      }
    }

    method Get(id: string) returns (r: Option<Record>)
      requires Valid()
      ensures r == if id in View(mem, disk) then Some(View(mem, disk)[id]) else None
    {
      MemMapHolds(mem);
      if HoldsId(mem, id) {
        r := Some(mem[IndexOf(mem, id)]);
        assert mem[IndexOf(mem, id)] in mem;
        return;
      }
      return if id in disk then Some(disk[id]) else None;
    }

    // Memory-held records are updated in memory, disk-born ones on disk; only a record that is in neither
    // tier goes to memory in history-off mode, where the oldest of an over-full conversation make room.
    method Put(r: Record) returns (ghost gone: set<string>)
      requires Valid()
      modifies this
      ensures Valid() && ephemeral == old(ephemeral)
      ensures View(mem, disk) == old(View(mem, disk))[r.messageId := r] - gone
      ensures HoldsId(old(mem), r.messageId) ==>
        gone == {} && disk == old(disk) && mem == old(mem)[IndexOf(old(mem), r.messageId) := r]
      ensures !HoldsId(old(mem), r.messageId) && (r.messageId in old(disk) || !ephemeral) ==>
        gone == {} && mem == old(mem) && disk == old(disk)[r.messageId := r]
      ensures !HoldsId(old(mem), r.messageId) && r.messageId !in old(disk) && ephemeral ==>
        && disk == old(disk) && mem == Without(old(mem) + [r], gone)
        && DropsOldest(OfConversation(old(mem) + [r], r.conversationId), gone)
      ensures old(Bounded(mem)) ==> (Bounded(mem) <==> !OverflowsInPlace(old(mem), r))
    {
      hide MemMap, Without, OfConversation, DropsOldest, HoldsId, UniqueIds, Bounded;
      gone := {};
      MemMapHolds(mem);
      if HoldsId(mem, r.messageId) {
        var i := IndexOf(mem, r.messageId);
        MemMapUpdate(mem, i, r);
        if Bounded(mem) {
          UpdateStaysBounded(mem, i, r);
        }
        mem := mem[i := r];
        PlusUpdate(disk, MemMap(old(mem)), r.messageId, r);
        return;
      }
      if ephemeral && r.messageId !in disk {
        AppendUnique(mem, r);
        mem := mem + [r];
        gone := EvictOldest(r.conversationId);
        GoneFromMemory(r.conversationId, old(mem) + [r], gone);
        PlusEvict(disk, MemMap(old(mem)), r, gone);
        if Bounded(old(mem)) {
          InsertStaysBounded(old(mem), r, gone);
        }
        return;
      }
      UnderUpdate(disk, MemMap(mem), r);
      disk := disk[r.messageId := r];
    }

    method EvictOldest(conversation: string) returns (ghost gone: set<string>)
      requires UniqueIds(mem)
      modifies this`mem
      ensures mem == Without(old(mem), gone) && UniqueIds(mem)
      ensures MemMap(mem) == MemMap(old(mem)) - gone
      ensures forall id :: HoldsId(mem, id) <==> HoldsId(old(mem), id) && id !in gone
      ensures DropsOldest(OfConversation(old(mem), conversation), gone)
    {
      hide Without, MemMap, OfConversation, HoldsId;
      var mine := Mine(conversation);
      ghost var was := mem;
      OfConversationKeeps(mem, conversation);
      gone := {};
      WithoutNothing(mem);
      if |mine| > PER_CONVERSATION {
        var order := SortByAge(mine);
        var excess := |mine| - PER_CONVERSATION;
        for t := 0 to excess
          invariant mem == Without(was, gone) && gone == Ids(mine, order[..t])
        {
          WithoutTwice(was, gone, mine[order[t]].messageId);
          IdsMore(mine, order, t);
          mem := Without(mem, {mine[order[t]].messageId});
          gone := gone + {mine[order[t]].messageId};
        }
        FirstAreOldest(mine, order, excess);
      } else {
        NoneDropped(mine);
      }
      WithoutUnique(was, gone);
      MemMapWithout(was, gone);
      forall id
        ensures HoldsId(mem, id) <==> HoldsId(was, id) && id !in gone
      {
        WithoutKeeps(was, gone, id);
      }
    }

    method Mine(conversation: string) returns (mine: seq<Record>)
      ensures mine == OfConversation(mem, conversation)
    {
      mine := [];
      for i := 0 to |mem|
        invariant mine == OfConversation(mem[..i], conversation)
      {
        assert mem[..i + 1][..i] == mem[..i];
        if mem[i].conversationId == conversation {
          mine := mine + [mem[i]];
        }
      }
      assert mem[..|mem|] == mem;
    }

    // Positions from oldest to newest; the sort is stable.
    static method SortByAge(mine: seq<Record>) returns (order: seq<nat>)
      ensures Sorted(mine, order) && |order| == |mine| && forall k: nat :: k < |mine| ==> k in order
    {
      order := [];
      for i := 0 to |mine|
        invariant |order| == i
        invariant Sorted(mine, order)
        invariant forall k: nat :: k < i ==> k in order
        invariant forall a :: 0 <= a < |order| ==> order[a] < i
      {
        var p := i;
        while p > 0 && mine[order[p - 1]].storedAt > mine[i].storedAt
          invariant 0 <= p <= i
          invariant forall a :: p <= a < i ==> Older(mine, i, order[a])
        {
          p := p - 1;
        }
        ghost var was := order;
        order := Insert(mine, order, i, p);
        forall a | 0 <= a < |order|
          ensures order[a] < i + 1
        {
          assert order[a] in order;
        }
      }
    }

    static method Insert(mine: seq<Record>, order: seq<nat>, i: nat, p: nat) returns (r: seq<nat>)
      requires i < |mine| && p <= |order| && Sorted(mine, order)
      requires forall a :: 0 <= a < |order| ==> order[a] < i
      requires forall a :: p <= a < |order| ==> Older(mine, i, order[a])
      requires p > 0 ==> mine[order[p - 1]].storedAt <= mine[i].storedAt
      ensures Sorted(mine, r) && |r| == |order| + 1
      ensures forall k :: k in r <==> k in order || k == i
    {
      r := order[..p] + [i] + order[p..];
      InsertedSorted(mine, order, i, p);
      InsertedMembers(order, i, p);
    }

    method Delete(id: string)
      requires Valid()
      modifies this
      ensures Valid() && ephemeral == old(ephemeral) && View(mem, disk) == old(View(mem, disk)) - {id}
      ensures old(Bounded(mem)) ==> Bounded(mem)
    {
      hide MemMap, HoldsId, UniqueIds, Without, Bounded;
      FewerBounded(mem, {id});
      ghost var was := View(mem, disk);
      MemMapWithout(mem, {id});
      WithoutUnique(mem, {id});
      forall i
        ensures HoldsId(Without(mem, {id}), i) <==> HoldsId(mem, i) && i != id
      {
        WithoutKeeps(mem, {id}, i);
      }
      mem := Without(mem, {id});
      disk := disk - {id};
      assert View(mem, disk) == was - {id};
    }

    // Turning history-off on destroys the past: what is left is what memory holds.
    method PurgeDurable()
      requires Valid()
      modifies this
      ensures Valid() && ephemeral == old(ephemeral) && mem == old(mem) && disk == map[]
      ensures View(mem, disk) == MemMap(old(mem))
      ensures old(Bounded(mem)) ==> Bounded(mem)
    {
      disk := map[];
    }

    // Disk first, then memory; every record of the one map exactly once.
    method List() returns (all: seq<Record>)
      requires Valid()
      ensures UniqueIds(all) && MemMap(all) == View(mem, disk)
    {
      all := DiskRecords();
      MemMapHolds(mem);
      hide MemMap, HoldsId, UniqueIds;
      JoinTiers(all, mem);
      all := all + mem;
    }

    method ListByConversation(conversation: string) returns (some: seq<Record>)
      requires Valid()
      ensures UniqueIds(some)
      ensures forall r :: r in some <==> IsListed(View(mem, disk), r, conversation)
    {
      var all := List();
      MemMapHolds(all);
      OfConversationKeeps(all, conversation);
      some := OfConversation(all, conversation);
    }

    method DiskRecords() returns (all: seq<Record>)
      requires forall id :: id in disk ==> disk[id].messageId == id
      ensures UniqueIds(all) && MemMap(all) == disk
    {
      hide MemMap, UniqueIds, HoldsId;
      all := [];
      NothingHeld();
      var rest := disk.Keys;
      while rest != {}
        invariant rest <= disk.Keys && UniqueIds(all)
        invariant MemMap(all) == map id | id in disk && id !in rest :: disk[id]
        decreases rest
      {
        var id :| id in rest;
        MemMapHolds(all);
        AppendUnique(all, disk[id]);
        all := all + [disk[id]];
        rest := rest - {id};
      }
    }
  }

  // A record of one conversation, as the one map has it.
  predicate IsListed(view: Store, r: Record, conversation: string) {
    r.messageId in view && view[r.messageId] == r && r.conversationId == conversation
  }

  ghost predicate Sorted(mine: seq<Record>, order: seq<nat>) {
    && (forall a :: 0 <= a < |order| ==> order[a] < |mine|)
    && (forall a, b :: 0 <= a < b < |order| ==> Older(mine, order[a], order[b]))
  }

  lemma InsertedMembers(order: seq<nat>, i: nat, p: nat)
    requires p <= |order|
    ensures forall k :: k in order[..p] + [i] + order[p..] <==> k in order || k == i
  {
    assert order == order[..p] + order[p..];
    forall k
      ensures k in order <==> k in order[..p] || k in order[p..]
    {
    }
  }

  lemma InsertedSorted(mine: seq<Record>, order: seq<nat>, i: nat, p: nat)
    requires i < |mine| && p <= |order| && Sorted(mine, order)
    requires forall a :: 0 <= a < |order| ==> order[a] < i
    requires forall a :: p <= a < |order| ==> Older(mine, i, order[a])
    requires p > 0 ==> mine[order[p - 1]].storedAt <= mine[i].storedAt
    ensures Sorted(mine, order[..p] + [i] + order[p..])
  {
    var r := order[..p] + [i] + order[p..];
    forall a | 0 <= a < |r|
      ensures r[a] == if a < p then order[a] else if a == p then i else order[a - 1]
    {
    }
    forall a | 0 <= a < p
      ensures Older(mine, order[a], i)
    {
      assert a < p - 1 ==> Older(mine, order[a], order[p - 1]);
    }
    hide Older;
    forall a, b | 0 <= a < b < |r|
      ensures Older(mine, r[a], r[b])
    {
      var x, y := if a < p then a else a - 1, if b < p then b else b - 1;
      if a != p && b != p {
        assert Older(mine, order[x], order[y]);
      }
    }
  }

  ghost function Ids(mine: seq<Record>, picks: seq<nat>): set<string> {
    set k | k in picks && k < |mine| :: mine[k].messageId
  }

  lemma IdsMore(mine: seq<Record>, order: seq<nat>, t: nat)
    requires t < |order| && order[t] < |mine|
    ensures Ids(mine, order[..t + 1]) == Ids(mine, order[..t]) + {mine[order[t]].messageId}
  {
    assert order[..t + 1] == order[..t] + [order[t]];
    var k := order[t];
    assert k in order[..t + 1];
  }

  lemma {:induction false} IdsCount(mine: seq<Record>, order: seq<nat>, t: nat)
    requires UniqueIds(mine) && Sorted(mine, order) && t <= |order|
    ensures |Ids(mine, order[..t])| == t
  {
    hide Older, Ids, UniqueIds;
    if t == 0 {
      NoIds(mine, order);
    } else {
      IdsCount(mine, order, t - 1);
      IdsMore(mine, order, t - 1);
      NewId(mine, order, t - 1);
    }
  }

  lemma NoIds(mine: seq<Record>, order: seq<nat>)
    ensures Ids(mine, order[..0]) == {}
  {
  }

  lemma NewId(mine: seq<Record>, order: seq<nat>, t: nat)
    requires UniqueIds(mine) && Sorted(mine, order) && t < |order|
    ensures mine[order[t]].messageId !in Ids(mine, order[..t])
  {
    forall k | k in order[..t] && k < |mine|
      ensures mine[k].messageId != mine[order[t]].messageId
    {
      var a :| 0 <= a < t && order[..t][a] == k;
      assert Older(mine, order[a], order[t]);
    }
  }

  lemma InTake(order: seq<nat>, n: nat, b: nat)
    requires n <= |order| && b < |order|
    ensures b < n ==> order[b] in order[..n]
  {
    if b < n {
      assert order[..n][b] == order[b];
    }
  }

  lemma FirstAreOldest(mine: seq<Record>, order: seq<nat>, excess: nat)
    requires UniqueIds(mine) && Sorted(mine, order) && |order| == |mine| && (forall k: nat :: k < |mine| ==> k in order)
    requires |mine| > PER_CONVERSATION && excess == |mine| - PER_CONVERSATION
    ensures DropsOldest(mine, Ids(mine, order[..excess]))
  {
    var gone := Ids(mine, order[..excess]);
    IdsCount(mine, order, excess);
    forall i, j | 0 <= i < |mine| && 0 <= j < |mine| && mine[i].messageId in gone && mine[j].messageId !in gone
      ensures Older(mine, i, j)
    {
      var k :| k in order[..excess] && k < |mine| && mine[k].messageId == mine[i].messageId;
      assert k == i;
      var a :| 0 <= a < excess && order[..excess][a] == i;
      assert j in order;
      var b :| 0 <= b < |order| && order[b] == j;
      InTake(order, excess, b);
      assert Older(mine, order[a], order[b]);
    }
    forall id | id in gone
      ensures HoldsId(mine, id)
    {
      var k :| k in order[..excess] && k < |mine| && mine[k].messageId == id;
    }
  }

  lemma GoneFromMemory(conversation: string, was: seq<Record>, gone: set<string>)
    requires UniqueIds(was) && DropsOldest(OfConversation(was, conversation), gone)
    ensures forall id :: id in gone ==> HoldsId(was, id)
  {
    OfConversationKeeps(was, conversation);
    MemMapHolds(was);
    hide HoldsId, UniqueIds, OfConversation;
  }

  lemma NoneDropped(mine: seq<Record>)
    requires |mine| <= PER_CONVERSATION
    ensures DropsOldest(mine, {})
  {
  }

  lemma NothingHeld()
    ensures UniqueIds([]) && MemMap([]) == map[]
  {
  }

  lemma AppendUnique(mem: seq<Record>, r: Record)
    requires UniqueIds(mem) && !HoldsId(mem, r.messageId)
    ensures UniqueIds(mem + [r]) && MemMap(mem + [r]) == MemMap(mem)[r.messageId := r]
    ensures forall id :: HoldsId(mem + [r], id) <==> HoldsId(mem, id) || id == r.messageId
  {
    assert (mem + [r])[..|mem|] == mem;
    forall id
      ensures HoldsId(mem + [r], id) <==> HoldsId(mem, id) || id == r.messageId
    {
      HoldsAppend(mem, r, id);
    }
  }

  lemma PlusUpdate(a: Store, b: Store, k: string, v: Record)
    ensures a + b[k := v] == (a + b)[k := v] && a + b[k := v] == (a + b)[k := v] - {}
  {
  }

  // Evicting what memory holds, none of which is on disk.
  lemma PlusEvict(disk: Store, mem: Store, r: Record, gone: set<string>)
    requires forall id :: id in gone ==> id !in disk
    ensures disk + (mem[r.messageId := r] - gone) == (disk + mem)[r.messageId := r] - gone
  {
  }

  lemma UnderUpdate(disk: Store, mem: Store, r: Record)
    requires r.messageId !in mem
    ensures disk[r.messageId := r] + mem == (disk + mem)[r.messageId := r] - {}
  {
  }

  lemma {:induction false} JoinTiers(all: seq<Record>, mem: seq<Record>)
    requires UniqueIds(all) && UniqueIds(mem) && forall id :: id in MemMap(mem) ==> id !in MemMap(all)
    ensures UniqueIds(all + mem) && MemMap(all + mem) == MemMap(all) + MemMap(mem)
    decreases |mem|
  {
    if mem == [] {
      assert all + mem == all;
    } else {
      var front, last := mem[..|mem| - 1], mem[|mem| - 1];
      assert mem == front + [last];
      OneLess(front, last, {});
      AppendUnique(front, last);
      JoinTiers(all, front);
      JoinStep(all, front, last);
    }
  }

  lemma JoinStep(all: seq<Record>, front: seq<Record>, last: Record)
    requires UniqueIds(front) && !HoldsId(front, last.messageId) && last.messageId !in MemMap(all)
    requires UniqueIds(all + front) && MemMap(all + front) == MemMap(all) + MemMap(front)
    ensures UniqueIds(all + (front + [last])) && MemMap(all + (front + [last])) == MemMap(all) + MemMap(front + [last])
  {
    hide MemMap, HoldsId, UniqueIds;
    MemMapHolds(front);
    MemMapHolds(all + front);
    AppendUnique(front, last);
    AppendUnique(all + front, last);
    assert all + (front + [last]) == all + front + [last];
    PlusUpdate(MemMap(all), MemMap(front), last.messageId, last);
  }

  // ---- The ceiling on memory ------------------------------------------------------------------------------

  ghost predicate Bounded(mem: seq<Record>) {
    forall c :: |OfConversation(mem, c)| <= PER_CONVERSATION
  }

  // An update in place that moves a memory-held record into a conversation that is already full.
  predicate OverflowsInPlace(mem: seq<Record>, r: Record) {
    && HoldsId(mem, r.messageId)
    && mem[IndexOf(mem, r.messageId)].conversationId != r.conversationId
    && |OfConversation(mem, r.conversationId)| >= PER_CONVERSATION
  }

  lemma {:induction false} FewerCounts(mem: seq<Record>, gone: set<string>, c: string)
    ensures |OfConversation(Without(mem, gone), c)| <= |OfConversation(mem, c)|
    decreases |mem|
  {
    if mem != [] {
      var front, last := mem[..|mem| - 1], mem[|mem| - 1];
      assert mem == front + [last];
      FewerCounts(front, gone, c);
      WithoutAppend(front, last, gone);
      CountAppend(front, last, c);
      CountAppend(Without(front, gone), last, c);
    }
  }

  // Removing records never lifts a conversation over the ceiling.
  lemma FewerBounded(mem: seq<Record>, gone: set<string>)
    ensures Bounded(mem) ==> Bounded(Without(mem, gone))
  {
    hide OfConversation, Without;
    if Bounded(mem) {
      forall c
        ensures |OfConversation(Without(mem, gone), c)| <= PER_CONVERSATION
      {
        FewerCounts(mem, gone, c);
        assert |OfConversation(mem, c)| <= PER_CONVERSATION;
      }
    }
  }

  // Eviction leaves no choice: the records dropped are determined.
  lemma EvictionDetermined(mine: seq<Record>, gone: set<string>, other: set<string>)
    requires UniqueIds(mine) && DropsOldest(mine, gone) && DropsOldest(mine, other)
    ensures gone == other
  {
    if x :| x in gone && x !in other {
      forall y | y in other
        ensures y in gone
      {
        Crossed(mine, gone, other, x, y);
      }
      SameSize(other, gone);
    } else {
      SameSize(gone, other);
    }
  }

  lemma Crossed(mine: seq<Record>, gone: set<string>, other: set<string>, x: string, y: string)
    requires DropsOldest(mine, gone) && DropsOldest(mine, other) && x in gone && x !in other && y in other
    ensures y in gone
  {
    var i :| 0 <= i < |mine| && mine[i].messageId == x;
    var j :| 0 <= j < |mine| && mine[j].messageId == y;
    assert Older(mine, j, i);
  }

  // Inserting and then evicting keeps every conversation within the ceiling.
  lemma InsertStaysBounded(mem: seq<Record>, r: Record, gone: set<string>)
    requires UniqueIds(mem) && Bounded(mem) && !HoldsId(mem, r.messageId)
    requires DropsOldest(OfConversation(mem + [r], r.conversationId), gone)
    ensures Bounded(Without(mem + [r], gone))
  {
    hide OfConversation, Without;
    var more := mem + [r];
    AppendUnique(mem, r);
    OfConversationKeeps(more, r.conversationId);
    forall x | x in more && x.messageId in gone
      ensures x.conversationId == r.conversationId
    {
      OnlyHolder(more, x, r.conversationId);
    }
    hide DropsOldest, HoldsId, UniqueIds;
    GoneCounts(more, r.conversationId, gone);
    forall c
      ensures |OfConversation(Without(more, gone), c)| <= PER_CONVERSATION
    {
      WithoutCounts(more, gone, r.conversationId, c);
      CountAppend(mem, r, c);
    }
  }

  lemma GoneCounts(more: seq<Record>, conversation: string, gone: set<string>)
    requires DropsOldest(OfConversation(more, conversation), gone)
    ensures |OfConversation(more, conversation)| - |gone| <= PER_CONVERSATION && |gone| >= 0
    ensures forall id :: id in gone ==> HoldsId(more, id)
  {
    OfConversationKeeps(more, conversation);
    hide OfConversation, HoldsId;
  }

  lemma OnlyHolder(mem: seq<Record>, x: Record, conversation: string)
    requires UniqueIds(mem) && x in mem && HoldsId(OfConversation(mem, conversation), x.messageId)
    ensures x.conversationId == conversation
  {
    OfConversationKeeps(mem, conversation);
    HoldsMember(OfConversation(mem, conversation), x.messageId);
    var y :| y in OfConversation(mem, conversation) && y.messageId == x.messageId;
    MemMapHolds(mem);
  }

  lemma {:induction false} UpdateCounts(mem: seq<Record>, i: nat, r: Record, c: string)
    requires i < |mem|
    ensures |OfConversation(mem[i := r], c)|
         == |OfConversation(mem, c)| - (if mem[i].conversationId == c then 1 else 0)
           + (if r.conversationId == c then 1 else 0)
    decreases |mem|
  {
    var n := |mem| - 1;
    if i == n {
      assert mem[i := r][..n] == mem[..n];
    } else {
      assert mem[i := r][..n] == mem[..n][i := r];
      UpdateCounts(mem[..n], i, r, c);
    }
  }

  // Updating a memory-held record in place evicts nothing, so the ceiling holds afterwards exactly when the
  // update does not move the record into a conversation that is already full.
  lemma UpdateStaysBounded(mem: seq<Record>, i: nat, r: Record)
    requires Bounded(mem) && i < |mem| && mem[i].messageId == r.messageId
    ensures Bounded(mem[i := r]) <==>
      mem[i].conversationId == r.conversationId || |OfConversation(mem, r.conversationId)| < PER_CONVERSATION
  {
    hide OfConversation;
    forall c
      ensures |OfConversation(mem[i := r], c)|
           == |OfConversation(mem, c)| - (if mem[i].conversationId == c then 1 else 0)
             + (if r.conversationId == c then 1 else 0)
    {
      UpdateCounts(mem, i, r, c);
    }
    var c, t := r.conversationId, mem[i := r];
    assert |OfConversation(mem, c)| <= PER_CONVERSATION;
    assert Bounded(t) ==> |OfConversation(t, c)| <= PER_CONVERSATION;
    if mem[i].conversationId == c || |OfConversation(mem, c)| < PER_CONVERSATION {
      forall d
        ensures |OfConversation(t, d)| <= PER_CONVERSATION
      {
        assert |OfConversation(mem, d)| <= PER_CONVERSATION;
      }
    }
  }

  // The record just put is itself the one dropped exactly when its conversation was full of later ones.
  lemma NewRecordDropped(mem: seq<Record>, r: Record, gone: set<string>)
    requires UniqueIds(mem) && Bounded(mem) && !HoldsId(mem, r.messageId)
    requires DropsOldest(OfConversation(mem + [r], r.conversationId), gone)
    ensures r.messageId in gone <==>
      && |OfConversation(mem, r.conversationId)| == PER_CONVERSATION
      && forall x :: x in OfConversation(mem, r.conversationId) ==> x.storedAt > r.storedAt
  {
    var held := OfConversation(mem, r.conversationId);
    CountAppend(mem, r, r.conversationId);
    OfConversationKeeps(mem, r.conversationId);
    assert |held| <= PER_CONVERSATION;
    hide OfConversation, Bounded;
    var mine := held + [r];
    assert mine[|held|] == r && !HoldsId(held, r.messageId);
    if |held| == PER_CONVERSATION {
      LoneDrop(held, r, gone);
    } else {
      assert gone == {};
    }
  }

  lemma LoneDrop(held: seq<Record>, r: Record, gone: set<string>)
    requires UniqueIds(held) && !HoldsId(held, r.messageId) && |held| == PER_CONVERSATION
      && DropsOldest(held + [r], gone)
    ensures r.messageId in gone <==> forall x :: x in held ==> x.storedAt > r.storedAt
  {
    var mine := held + [r];
    var n := |held|;
    assert mine[n] == r;
    var id :| id in gone;
    assert gone == {id} by {
      assert gone == {id} + (gone - {id});
    }
    assert HoldsId(mine, id);
    if r.messageId in gone {
      forall x | x in held
        ensures x.storedAt > r.storedAt
      {
        var k :| 0 <= k < n && held[k] == x;
        assert mine[k] == x && mine[k].messageId != r.messageId;
        assert Older(mine, n, k);
      }
    } else {
      var k :| 0 <= k < |mine| && mine[k].messageId == id;
      assert k != n && held[k] == mine[k];
      assert Older(mine, k, n);
      assert held[k] in held && !(held[k].storedAt > r.storedAt);
    }
  }
}
