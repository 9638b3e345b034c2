/**
 The reconciler: it replays the registry's log onto the gateway's slots and
 counts, for each address, the proto replicas that use its connection.
 */
module Reconciler {
  import opened Options
  import opened Pools

  // ------------------------------------------------------------------
  // Who uses a connection

  /** The addresses of a list's pooled replicas, with multiplicity. */
  function ListUsers(rs: Replicas): multiset<Addr> {
    if rs == [] then multiset{}
    else
      var last := rs[|rs| - 1];
      ListUsers(rs[..|rs| - 1]) + if last.pooled then multiset{last.addr} else multiset{}
  }

  function SlotUsers(s: Slot): multiset<Addr> {
    if s.kind.ProtoKind? then ListUsers(s.replicas) else multiset{}
  }

  /** The addresses of all pooled proto replicas. */
  ghost function Users(slots: Slots): multiset<Addr>
    decreases |slots.Keys|
  {
    if slots == map[] then multiset{}
    else
      var k :| k in slots;
      SmallerMap(slots, k);
      SlotUsers(slots[k]) + Users(slots - {k})
  }

  lemma SmallerMap(slots: Slots, k: Key)
    requires k in slots
    ensures |(slots - {k}).Keys| < |slots.Keys|
  {
    assert (slots - {k}).Keys == slots.Keys - {k};
  }

  /** Any slot can be taken out of the sum first. */
  lemma {:induction false} UsersSplit(slots: Slots, k: Key)
    requires k in slots
    ensures Users(slots) == SlotUsers(slots[k]) + Users(slots - {k})
    decreases |slots.Keys|
  {
    hide SlotUsers;
    var j :| j in slots && Users(slots) == SlotUsers(slots[j]) + Users(slots - {j});
    SmallerMap(slots, j);
    SmallerMap(slots, k);
    if j != k {
      UsersSplit(slots - {j}, k);
      UsersSplit(slots - {k}, j);
      assert slots - {j} - {k} == slots - {k} - {j};
    }
  }

  lemma UsersUpdate(slots: Slots, k: Key, s: Slot)
    ensures Users(slots[k := s]) == SlotUsers(s) + Users(slots - {k})
    ensures k !in slots ==> Users(slots - {k}) == Users(slots)
  {
    hide SlotUsers;
    UsersSplit(slots[k := s], k);
    assert slots[k := s] - {k} == slots - {k};
    if k !in slots {
      assert slots - {k} == slots;
    }
  }

  lemma ListUsersSnoc(rs: Replicas, r: Replica)
    ensures ListUsers(rs + [r]) == ListUsers(rs) + if r.pooled then multiset{r.addr} else multiset{}
  {
    assert (rs + [r])[..|rs|] == rs;
  }

  lemma {:induction false} ListUsersRemoved(rs: Replicas, i: nat)
    requires i < |rs|
    ensures ListUsers(rs) == ListUsers(Removed(rs, i)) + if rs[i].pooled then multiset{rs[i].addr} else multiset{}
    decreases |rs|
  {
    hide ListUsers;
    var init, last := rs[..|rs| - 1], rs[|rs| - 1];
    assert rs == init + [last];
    ListUsersSnoc(init, last);
    if i == |rs| - 1 {
      assert Removed(rs, i) == init;
    } else {
      ListUsersRemoved(init, i);
      RemovedSnoc(init, last, i);
      ListUsersSnoc(Removed(init, i), last);
    }
  }

  lemma RemovedSnoc(rs: Replicas, r: Replica, i: nat)
    ensures i < |rs| ==> Removed(rs + [r], i) == Removed(rs, i) + [r]
  {
  }

  // ------------------------------------------------------------------
  // The state and the events

  /** `lost` counts the replicas that left the slots without giving their connection back. */
  datatype State = State(slots: Slots, conns: map<Addr, int>, lost: multiset<Addr>)

  /** What a put carries, if it can be read: an entry to join, and whether its address can be dialed. */
  datatype Value = Value(entry: Entry, dials: bool)

  /** `Deregistered` is what a cluster-mode deregistration does to this gateway before the registry's delete events
      come in. */
  datatype Event = Put(value: Option<Value>) | Delete(key: Key, id: string) | Deregistered(owner: string)

  function EvictedBy(slots: Slots, e: Entry): multiset<Addr> {
    if PolicyFor(slots, e).Swap? then SlotUsers(slots[e.key]) else multiset{}
  }

  function HandlePut(s: State, v: Value): State {
    var e := v.entry;
    if !e.kind.ProtoKind? then
      s.(slots := DoJoin(s.slots, e).slots, lost := s.lost + EvictedBy(s.slots, e))
    else if e.key in s.slots && s.slots[e.key].kind.ProtoKind? && Has(s.slots[e.key].replicas, e.replica.id) then s
    else if !e.parses then s
    else if !v.dials && e.replica.addr !in s.conns then s
    else
      var conns := Acquire(s.conns, e.replica.addr);
      var joined := DoJoin(s.slots, e);
      if joined.ok then State(joined.slots, conns, s.lost + EvictedBy(s.slots, e))
      else s.(conns := Release(conns, e.replica.addr))
  }

  function HandleDelete(s: State, key: Key, id: string): State {
    if key !in s.slots || !Has(s.slots[key].replicas, id) then s
    else
      var r := s.slots[key].replicas[Find(s.slots[key].replicas, id)];
      var next := s.(slots := DoRemoveByID(s.slots, key, id));
      if s.slots[key].kind.ProtoKind? then next.(conns := Release(s.conns, r.addr)) else next
  }

  ghost function Handle(s: State, ev: Event): State {
    match ev
    case Put(v) => if v.None? then s else HandlePut(s, v.value)
    case Delete(key, id) => HandleDelete(s, key, id)
    case Deregistered(owner) =>
      var slots := DoRemoveOwner(s.slots, owner);
      s.(slots := slots, lost := s.lost + (Users(s.slots) - Users(slots)))
  }

  // ------------------------------------------------------------------
  // Counts against users

  predicate WellKeyed(slots: Slots) {
    forall k, i | k in slots && slots[k].kind.ProtoKind? && 0 <= i < |slots[k].replicas| ::
      slots[k].replicas[i].id != "" ==> slots[k].replicas[i].pooled
  }

  /** Each count is the number of proto replicas at the address plus the number lost there. */
  ghost predicate Counted(s: State) {
    && (forall a: Addr :: Refs(s.conns, a) == Users(s.slots)[a] + s.lost[a])
    && (forall a | a in s.conns :: s.conns[a] > 0)
  }

  ghost predicate Inv(s: State) {
    Counted(s) && WellKeyed(s.slots)
  }

  /** A put comes from the registry, with a pooled connection if it is a proto replica. */
  predicate FromRegistry(ev: Event) {
    ev.Put? && ev.value.Some? && ev.value.value.entry.kind.ProtoKind? ==> ev.value.value.entry.replica.pooled
  }

  /** The new replica's own use. */
  function EntryUse(e: Entry): multiset<Addr> {
    if e.kind.ProtoKind? && e.replica.pooled then multiset{e.replica.addr} else multiset{}
  }

  lemma GrownUsers(slots: Slots, e: Entry)
    requires e.key in slots && slots[e.key].kind == e.kind
    ensures var s := slots[e.key];
            Users(slots[e.key := s.(replicas := s.replicas + [e.replica])]) == Users(slots) + EntryUse(e)
  {
    hide Users, ListUsers;
    var s := slots[e.key];
    UsersSplit(slots, e.key);
    UsersUpdate(slots, e.key, s.(replicas := s.replicas + [e.replica]));
    ListUsersSnoc(s.replicas, e.replica);
  }

  lemma NewSlotUsers(e: Entry)
    ensures SlotUsers(NewSlot(e)) == EntryUse(e)
  {
    hide ListUsers;
    ListUsersSnoc([], e.replica);
    assert [] + [e.replica] == [e.replica];
    NoListUsers();
  }

  lemma CreatedUsers(slots: Slots, e: Entry)
    requires PolicyFor(slots, e).Create? || PolicyFor(slots, e).Swap?
    ensures Users(slots[e.key := NewSlot(e)]) + EvictedBy(slots, e) == Users(slots) + EntryUse(e)
    ensures Users(slots - {e.key}) + EvictedBy(slots, e) == Users(slots)
  {
    hide Users, SlotUsers, Clash, EntryUse;
    UsersUpdate(slots, e.key, NewSlot(e));
    NewSlotUsers(e);
    if e.key in slots {
      UsersSplit(slots, e.key);
    }
  }

  /** What a join adds to the users, and what it evicts. */
  lemma JoinUsers(slots: Slots, e: Entry)
    ensures var j := DoJoin(slots, e);
            && (!j.ok && e.kind.ProtoKind? ==> j.slots == slots)
            && (j.ok && e.kind.ProtoKind? ==> Users(j.slots) + EvictedBy(slots, e) == Users(slots) + EntryUse(e))
            && (!e.kind.ProtoKind? ==> Users(j.slots) + EvictedBy(slots, e) == Users(slots))
  {
    hide Users, SlotUsers, Has, Clash;
    match PolicyFor(slots, e)
    case Refuse =>
    case Join => GrownUsers(slots, e);
    case _ => CreatedUsers(slots, e);
  }

  lemma NoListUsers()
    ensures ListUsers([]) == multiset{}
  {
  }

  lemma RemoveByIDUsers(slots: Slots, key: Key, id: string)
    requires key in slots && Has(slots[key].replicas, id)
    ensures var r := slots[key].replicas[Find(slots[key].replicas, id)];
            Users(slots) == Users(DoRemoveByID(slots, key, id))
                            + if slots[key].kind.ProtoKind? && r.pooled then multiset{r.addr} else multiset{}
  {
    hide Users, ListUsers, Find;
    var rs := slots[key].replicas;
    var i := Find(rs, id);
    var left := Removed(rs, i);
    UsersSplit(slots, key);
    UsersUpdate(slots, key, slots[key].(replicas := left));
    ListUsersRemoved(rs, i);
    NoListUsers();
    assert |left| < |rs|;
  }

  lemma {:induction false} ListUsersOthers(rs: Replicas, owner: string)
    ensures ListUsers(Others(rs, owner)) <= ListUsers(rs)
    decreases |rs|
  {
    if rs != [] {
      var init, last := rs[..|rs| - 1], rs[|rs| - 1];
      ListUsersOthers(init, owner);
      ListUsersSnoc(Others(init, owner), last);
      assert Others(init, owner) + [] == Others(init, owner);
    }
  }

  lemma {:induction false} RemoveOwnerUsers(slots: Slots, owner: string)
    ensures Users(DoRemoveOwner(slots, owner)) <= Users(slots)
    decreases |slots.Keys|
  {
    hide ListUsers, Others;
    var left := DoRemoveOwner(slots, owner);
    if slots == map[] {
      assert left == map[];
    } else {
      var k :| k in slots;
      SmallerMap(slots, k);
      RemoveOwnerUsers(slots - {k}, owner);
      UsersSplit(slots, k);
      assert left - {k} == DoRemoveOwner(slots - {k}, owner);
      ListUsersOthers(slots[k].replicas, owner);
      if k in left {
        UsersSplit(left, k);
      } else {
        assert left - {k} == left;
      }
    }
  }

  // ------------------------------------------------------------------
  // Every event keeps the books

  lemma JoinKeepsKeyed(slots: Slots, e: Entry)
    requires WellKeyed(slots) && (e.kind.ProtoKind? ==> e.replica.pooled)
    ensures WellKeyed(DoJoin(slots, e).slots)
  {
    hide Has, Clash;
  }

  lemma RemoveByIDKeepsKeyed(slots: Slots, key: Key, id: string)
    requires WellKeyed(slots)
    ensures WellKeyed(DoRemoveByID(slots, key, id))
  {
    hide Find;
  }

  lemma RemoveOwnerKeepsKeyed(slots: Slots, owner: string)
    requires WellKeyed(slots)
    ensures WellKeyed(DoRemoveOwner(slots, owner))
  {
    hide Others;
    forall k | k in slots ensures forall i | 0 <= i < |Others(slots[k].replicas, owner)| ::
      Others(slots[k].replicas, owner)[i] in slots[k].replicas
    {
      OthersShorter(slots[k].replicas, owner);
    }
  }

  lemma PutKeepsInv(s: State, v: Value)
    requires Inv(s) && FromRegistry(Put(Some(v)))
    ensures Inv(HandlePut(s, v))
  {
    hide Users, WellKeyed, DoJoin, EvictedBy, Has, Release, Acquire, Refs;
    var e := v.entry;
    var t := HandlePut(s, v);
    var j := DoJoin(s.slots, e);
    JoinUsers(s.slots, e);
    JoinKeepsKeyed(s.slots, e);
    RefsAcquired(s.conns, e.replica.addr);
    ReleaseUndoesAcquire(s.conns, e.replica.addr);
    forall a: Addr ensures Refs(t.conns, a) == Users(t.slots)[a] + t.lost[a] {
      assert (Users(j.slots) + EvictedBy(s.slots, e))[a] == Users(j.slots)[a] + EvictedBy(s.slots, e)[a];
      assert (Users(s.slots) + EntryUse(e))[a] == Users(s.slots)[a] + EntryUse(e)[a];
    }
  }

  lemma DeleteKeepsInv(s: State, key: Key, id: string)
    requires Inv(s)
    ensures Inv(HandleDelete(s, key, id))
  {
    hide Users, WellKeyed, DoRemoveByID, Release, Find, Has;
    if key in s.slots && Has(s.slots[key].replicas, id) {
      var t := HandleDelete(s, key, id);
      RemoveByIDKeepsKeyed(s.slots, key, id);
      RemoveByIDUsers(s.slots, key, id);
      if s.slots[key].kind.ProtoKind? {
        FoundPooled(s.slots, key, id);
        var addr := FoundAddr(s.slots[key].replicas, id);
        assert Users(s.slots)[addr] == Users(t.slots)[addr] + 1;
        assert addr in s.conns;
        RefsReleased(s.conns, addr);
      }
    }
  }

  function FoundAddr(rs: Replicas, id: string): Addr
    requires Has(rs, id)
  {
    rs[Find(rs, id)].addr
  }

  lemma FoundPooled(slots: Slots, key: Key, id: string)
    ensures WellKeyed(slots) && key in slots && slots[key].kind.ProtoKind? && Has(slots[key].replicas, id) ==>
              slots[key].replicas[Find(slots[key].replicas, id)].pooled
  {
  }

  lemma HandleKeepsInv(s: State, ev: Event)
    requires Inv(s) && FromRegistry(ev)
    ensures Inv(Handle(s, ev))
  {
    hide Users, WellKeyed, HandlePut, HandleDelete, DoRemoveOwner;
    match ev
    case Put(v) =>
      if v.Some? {
        PutKeepsInv(s, v.value);
      }
    case Delete(key, id) => DeleteKeepsInv(s, key, id);
    case Deregistered(owner) =>
      RemoveOwnerUsers(s.slots, owner);
      RemoveOwnerKeepsKeyed(s.slots, owner);
  }

  /** At boot the slots hold no replica with a pooled connection. */
  ghost predicate IsStart(s: State) {
    s.conns == map[] && s.lost == multiset{} && Users(s.slots) == multiset{} && WellKeyed(s.slots)
  }

  ghost function Replay(s: State, log: seq<Event>): State {
    if log == [] then s else Handle(Replay(s, log[..|log| - 1]), log[|log| - 1])
  }

  // ------------------------------------------------------------------
  // What loses a connection

  predicate UsesAt(r: Replica, addr: Addr) {
    r.pooled && r.addr == addr
  }

  predicate SlotUsesAt(s: Slot, addr: Addr) {
    s.kind.ProtoKind? && exists i | 0 <= i < |s.replicas| :: UsesAt(s.replicas[i], addr)
  }

  /** A put that goes as far as to join: not a proto replica that is known already, that does not compile, or whose
      address cannot be dialed. */
  predicate GetsToJoin(s: State, v: Value) {
    var e := v.entry;
    !e.kind.ProtoKind?
    || (!(e.key in s.slots && s.slots[e.key].kind.ProtoKind? && Has(s.slots[e.key].replicas, e.replica.id))
        && e.parses && (v.dials || e.replica.addr in s.conns))
  }

  predicate OwnerUsesAt(slots: Slots, owner: string, addr: Addr) {
    exists k | k in slots :: SlotOwnerUsesAt(slots[k], owner, addr)
  }

  /** The event is about to drop a proto replica at the address without giving its connection back: it swaps out the
      slot the replica is in, or deregisters the replica's owner. */
  predicate Loses(s: State, ev: Event, addr: Addr) {
    match ev
    case Put(v) =>
      && v.Some? && GetsToJoin(s, v.value) && PolicyFor(s.slots, v.value.entry).Swap?
      && SlotUsesAt(s.slots[v.value.entry.key], addr)
    case Delete(_, _) => false
    case Deregistered(owner) => OwnerUsesAt(s.slots, owner, addr)
  }

  lemma {:induction false} ListUsersAt(rs: Replicas, addr: Addr)
    ensures ListUsers(rs)[addr] > 0 <==> exists i | 0 <= i < |rs| :: UsesAt(rs[i], addr)
    decreases |rs|
  {
    if rs != [] {
      ListUsersAt(rs[..|rs| - 1], addr);
      assert forall i | 0 <= i < |rs| - 1 :: rs[..|rs| - 1][i] == rs[i];
      if UsesAt(rs[|rs| - 1], addr) {
        assert ListUsers(rs)[addr] > 0;
      }
    }
  }

  predicate OwnedAt(rs: Replicas, owner: string, addr: Addr) {
    exists i | 0 <= i < |rs| :: UsesAt(rs[i], addr) && rs[i].owner == owner
  }

  lemma OwnedAtSnoc(rs: Replicas, r: Replica, owner: string, addr: Addr)
    ensures OwnedAt(rs + [r], owner, addr) <==> OwnedAt(rs, owner, addr) || (UsesAt(r, addr) && r.owner == owner)
  {
    var more := rs + [r];
    assert more[|rs|] == r;
    if i :| 0 <= i < |rs| && UsesAt(rs[i], addr) && rs[i].owner == owner {
      assert more[i] == rs[i];
    }
  }

  /** Taking an owner out lowers the count at an address exactly if the owner has a replica there. */
  lemma {:induction false} ListOthersAt(rs: Replicas, owner: string, addr: Addr)
    ensures ListUsers(Others(rs, owner))[addr] <= ListUsers(rs)[addr]
    ensures ListUsers(Others(rs, owner))[addr] < ListUsers(rs)[addr] <==> OwnedAt(rs, owner, addr)
    decreases |rs|
  {
    hide OwnedAt, ListUsers, Others;
    if rs == [] {
      NobodyLeft(owner);
      NobodyOwns(owner, addr);
    } else {
      var init, last := rs[..|rs| - 1], rs[|rs| - 1];
      assert rs == init + [last] && Others(init, owner) + [] == Others(init, owner);
      ListOthersAt(init, owner, addr);
      OwnedAtSnoc(init, last, owner, addr);
      OthersSnoc(init, last, owner);
      ListUsersSnoc(init, last);
      ListUsersSnoc(Others(init, owner), last);
    }
  }

  lemma NobodyOwns(owner: string, addr: Addr)
    ensures !OwnedAt([], owner, addr)
  {
  }

  predicate SlotOwnerUsesAt(s: Slot, owner: string, addr: Addr) {
    s.kind.ProtoKind? && OwnedAt(s.replicas, owner, addr)
  }

  lemma OwnerUsesSplit(slots: Slots, k: Key, owner: string, addr: Addr)
    requires k in slots
    ensures OwnerUsesAt(slots, owner, addr)
            <==> SlotOwnerUsesAt(slots[k], owner, addr) || OwnerUsesAt(slots - {k}, owner, addr)
  {
    hide OwnedAt;
    var rest := slots - {k};
    assert forall j | j in rest :: j in slots && rest[j] == slots[j];
    if j :| j in slots && SlotOwnerUsesAt(slots[j], owner, addr) {
      assert j == k || (j in rest && rest[j] == slots[j]);
    }
  }

  lemma {:induction false} RemoveOwnerAt(slots: Slots, owner: string, addr: Addr)
    ensures Users(DoRemoveOwner(slots, owner))[addr] < Users(slots)[addr] <==> OwnerUsesAt(slots, owner, addr)
    decreases |slots.Keys|
  {
    hide ListUsers, Others, OwnerUsesAt;
    RemoveOwnerUsers(slots, owner);
    var left := DoRemoveOwner(slots, owner);
    if slots == map[] {
      assert left == map[];
      NobodyUses(owner, addr);
    } else {
      var k :| k in slots;
      SmallerMap(slots, k);
      RemoveOwnerAt(slots - {k}, owner, addr);
      RemoveOwnerUsers(slots - {k}, owner);
      OwnerUsesSplit(slots, k, owner, addr);
      UsersSplit(slots, k);
      ListOthersAt(slots[k].replicas, owner, addr);
      RemovedSplit(slots, k, owner);
    }
  }

  lemma NobodyUses(owner: string, addr: Addr)
    ensures !OwnerUsesAt(map[], owner, addr)
  {
  }

  /** The users of one slot after an owner is taken out. */
  function TrimmedUsers(s: Slot, owner: string): multiset<Addr> {
    if s.kind.ProtoKind? then ListUsers(Others(s.replicas, owner)) else multiset{}
  }

  lemma RemovedSplit(slots: Slots, k: Key, owner: string)
    requires k in slots
    ensures Users(DoRemoveOwner(slots, owner))
            == TrimmedUsers(slots[k], owner) + Users(DoRemoveOwner(slots - {k}, owner))
  {
    hide ListUsers, Others, Users;
    var left := DoRemoveOwner(slots, owner);
    assert left - {k} == DoRemoveOwner(slots - {k}, owner);
    NoListUsers();
    if k in left {
      UsersSplit(left, k);
    } else {
      assert left - {k} == left;
      assert Others(slots[k].replicas, owner) == [];
    }
  }

  /** The guard is exact: the loss at an address grows in a step if and only if the event loses one there. */
  lemma LosesExactly(s: State, ev: Event, addr: Addr)
    ensures Handle(s, ev).lost[addr] >= s.lost[addr]
    ensures Handle(s, ev).lost[addr] > s.lost[addr] <==> Loses(s, ev, addr)
  {
    hide Users, ListUsers, Has, Clash, DoRemoveOwner, OwnerUsesAt, DoJoin, Acquire, Release;
    match ev
    case Put(v) =>
      if v.Some? && PolicyFor(s.slots, v.value.entry).Swap? {
        ListUsersAt(s.slots[v.value.entry.key].replicas, addr);
        if v.value.entry.kind.ProtoKind? {
          JoinSwaps(s.slots, v.value.entry);
        }
      }
    case Delete(_, _) =>
    case Deregistered(owner) =>
      RemoveOwnerUsers(s.slots, owner);
      RemoveOwnerAt(s.slots, owner, addr);
  }

  lemma JoinSwaps(slots: Slots, e: Entry)
    ensures PolicyFor(slots, e).Swap? && e.kind.ProtoKind? ==> DoJoin(slots, e).ok
  {
  }

  /** No event of a log loses a connection at the address, when it comes. */
  ghost predicate NeverLoses(s: State, log: seq<Event>, addr: Addr) {
    forall i | 0 <= i < |log| :: !Loses(Replay(s, log[..i]), log[i], addr)
  }

  lemma {:induction false} LostExactly(s: State, log: seq<Event>, addr: Addr)
    requires s.lost[addr] == 0
    ensures Replay(s, log).lost[addr] == 0 <==> NeverLoses(s, log, addr)
    decreases |log|
  {
    hide Handle, Loses;
    if log != [] {
      var init := log[..|log| - 1];
      LostExactly(s, init, addr);
      LosesExactly(Replay(s, init), log[|log| - 1], addr);
      forall i | 0 <= i < |init| ensures init[..i] == log[..i] && init[i] == log[i] {
      }
      assert NeverLoses(s, log, addr) <==> NeverLoses(s, init, addr) && !Loses(Replay(s, init), log[|log| - 1], addr);
    }
  }

  /** For every log, replays included, and every address: the count equals the number of proto replicas there if and
      only if no event, at the moment it came, swapped out a slot with a replica at the address or deregistered an
      owner with one. */
  lemma {:induction false} RefsExactly(s: State, log: seq<Event>, addr: Addr)
    requires IsStart(s) && forall i | 0 <= i < |log| :: FromRegistry(log[i])
    ensures var t := Replay(s, log);
            && Inv(t) && Refs(t.conns, addr) >= Users(t.slots)[addr]
            && (Refs(t.conns, addr) == Users(t.slots)[addr] <==> NeverLoses(s, log, addr))
    decreases |log|
  {
    hide Handle, WellKeyed, Users, NeverLoses;
    if log != [] {
      RefsExactly(s, log[..|log| - 1], addr);
      HandleKeepsInv(Replay(s, log[..|log| - 1]), log[|log| - 1]);
    }
    LostExactly(s, log, addr);
  }

  /** Events that can lose nothing: puts to fixed versions, and deletes. */
  predicate Lossless(ev: Event) {
    match ev
    case Put(v) => v.Some? ==> v.value.entry.key.ver != "unstable"
    case Delete(_, _) => true
    case Deregistered(_) => false
  }

  lemma {:induction false} NothingLost(s: State, log: seq<Event>)
    requires forall i | 0 <= i < |log| :: Lossless(log[i])
    ensures Replay(s, log).lost == s.lost
    decreases |log|
  {
    hide DoJoin, Has, Clash;
    if log != [] {
      NothingLost(s, log[..|log| - 1]);
    }
  }

  /** Over every log of puts to fixed versions and deletes, with any replays, the counts are exactly the replicas. */
  lemma RefsAreReplicas(s: State, log: seq<Event>, addr: Addr)
    requires IsStart(s) && forall i | 0 <= i < |log| :: FromRegistry(log[i]) && Lossless(log[i])
    ensures Refs(Replay(s, log).conns, addr) == Users(Replay(s, log).slots)[addr]
  {
    hide Replay, Users;
    NothingLost(s, log);
    RefsExactly(s, log, addr);
  }

  // ------------------------------------------------------------------
  // The log against the slots

  predicate InList(rs: Replicas, id: string) {
    exists i :: 0 <= i < |rs| && rs[i].id == id
  }

  /** Every replica has an id of its own. */
  predicate Distinct(rs: Replicas) {
    !InList(rs, "") && forall i, j | 0 <= i < j < |rs| :: rs[i].id != rs[j].id
  }

  lemma AppendedList(rs: Replicas, r: Replica)
    requires Distinct(rs) && r.id != "" && !InList(rs, r.id)
    ensures Distinct(rs + [r]) && forall id :: InList(rs + [r], id) <==> InList(rs, id) || id == r.id
  {
    var more := rs + [r];
    assert more[|rs|] == r && forall i | 0 <= i < |rs| :: more[i] == rs[i];
  }

  lemma RemovedList(rs: Replicas, at: nat)
    requires Distinct(rs) && at < |rs|
    ensures var left := Removed(rs, at);
            Distinct(left) && forall id :: InList(left, id) <==> InList(rs, id) && id != rs[at].id
  {
    var left := Removed(rs, at);
    assert forall i | 0 <= i < |left| :: left[i] == if i < at then rs[i] else rs[i + 1];
    forall id ensures InList(left, id) <==> InList(rs, id) && id != rs[at].id {
      if InList(rs, id) && id != rs[at].id {
        var i :| 0 <= i < |rs| && rs[i].id == id;
        assert left[if i < at then i else i - 1].id == id;
      }
    }
  }

  predicate Present(slots: Slots, key: Key, id: string) {
    id != "" && key in slots && InList(slots[key].replicas, id)
  }

  /** A change under one key leaves the others alone. */
  lemma Elsewhere(cat: map<Key, Entry>, slots: Slots, t: Slots, key: Key)
    requires t - {key} == slots - {key} && OfCatalog(cat, slots)
    requires key in t ==> key in cat && SlotOf(cat[key], t[key])
    ensures OfCatalog(cat, t)
    ensures forall k, id | k != key :: Present(t, k, id) <==> Present(slots, k, id)
  {
    hide SlotOf;
    forall k | k != key ensures (k in t <==> k in slots) && (k in t ==> t[k] == slots[k]) {
      assert (k in t <==> k in t - {key}) && (k in slots <==> k in slots - {key});
      assert k in t ==> t[k] == (t - {key})[k] == (slots - {key})[k] == slots[k];
    }
  }

  predicate PutsReplica(ev: Event, key: Key, id: string) {
    ev.Put? && ev.value.Some? && ev.value.value.entry.key == key && ev.value.value.entry.replica.id == id
  }

  /** The last event about the replica is a put. */
  ghost predicate Alive(log: seq<Event>, key: Key, id: string) {
    exists i :: 0 <= i < |log| && PutsReplica(log[i], key, id) && forall j | i < j < |log| :: log[j] != Delete(key, id)
  }

  lemma AliveSnoc(log: seq<Event>, ev: Event, key: Key, id: string)
    ensures Alive(log + [ev], key, id)
            <==> PutsReplica(ev, key, id) || (Alive(log, key, id) && ev != Delete(key, id))
  {
    var more := log + [ev];
    assert forall i | 0 <= i < |log| :: more[i] == log[i];
    assert more[|log|] == ev;
    if Alive(log, key, id) && ev != Delete(key, id) {
      var i :| 0 <= i < |log| && PutsReplica(log[i], key, id) && forall j | i < j < |log| :: log[j] != Delete(key, id);
      assert PutsReplica(more[i], key, id) && forall j | i < j < |more| :: more[j] != Delete(key, id);
    }
    if Alive(more, key, id) && !PutsReplica(ev, key, id) {
      var i :| 0 <= i < |more| && PutsReplica(more[i], key, id)
               && forall j | i < j < |more| :: more[j] != Delete(key, id);
      assert PutsReplica(log[i], key, id) && forall j | i < j < |log| :: log[j] == more[j];
    }
  }

  /** What the services of a cluster look like: each version has one shape, which passes the checks, and its own
      channel patterns. */
  predicate Catalog(cat: map<Key, Entry>) {
    && (forall k | k in cat ::
          cat[k].key == k && cat[k].accepted && cat[k].parses && cat[k].caps.0 >= 0 && cat[k].caps.1 >= 0)
    && forall k, l | k in cat && l in cat && k != l :: cat[k].bindings !! cat[l].bindings
  }

  /** An event about replicas of these services; their addresses can be dialed. */
  predicate About(cat: map<Key, Entry>, ev: Event) {
    match ev
    case Put(v) =>
      v.Some? && v.value.dials && v.value.entry.key in cat && v.value.entry.replica.id != ""
      && v.value.entry == cat[v.value.entry.key].(replica := v.value.entry.replica)
    case Delete(_, _) => true
    case Deregistered(_) => false
  }

  predicate SlotOf(e: Entry, s: Slot) {
    SameShape(s, e) && s.bindings == e.bindings && Distinct(s.replicas)
  }

  /** Slots have the shapes of the catalog, and no id twice. */
  predicate OfCatalog(cat: map<Key, Entry>, slots: Slots) {
    forall k | k in slots :: k in cat && SlotOf(cat[k], slots[k])
  }

  lemma CatalogJoins(cat: map<Key, Entry>, slots: Slots, e: Entry)
    requires Catalog(cat) && OfCatalog(cat, slots) && e.key in cat && e == cat[e.key].(replica := e.replica)
    ensures Joins(slots, e)
  {
  }

  lemma JoinPresent(cat: map<Key, Entry>, slots: Slots, e: Entry)
    requires Catalog(cat) && OfCatalog(cat, slots) && e.key in cat && e == cat[e.key].(replica := e.replica)
    requires e.replica.id != "" && (e.kind.ProtoKind? ==> !Present(slots, e.key, e.replica.id))
    ensures var t := DoJoin(slots, e).slots;
            && DoJoin(slots, e).ok && OfCatalog(cat, t)
            && forall k, id :: Present(t, k, id) <==> Present(slots, k, id) || (k == e.key && id == e.replica.id)
  {
    CatalogJoins(cat, slots, e);
    JoinExactly(slots, e);
    hide DoJoin, Joins, Catalog;
    JoinList(cat, slots, e, DoJoin(slots, e).slots[e.key]);
    hide InList, Distinct, JoinedSlot;
    Elsewhere(cat, slots, DoJoin(slots, e).slots, e.key);
  }

  lemma JoinList(cat: map<Key, Entry>, slots: Slots, e: Entry, s: Slot)
    requires OfCatalog(cat, slots) && e.key in cat && e == cat[e.key].(replica := e.replica)
    requires e.replica.id != "" && (e.kind.ProtoKind? ==> !Present(slots, e.key, e.replica.id))
    requires JoinedSlot(slots, e, s)
    ensures SlotOf(cat[e.key], s)
    ensures forall id ::
              InList(s.replicas, id)
              <==> (e.key in slots && InList(slots[e.key].replicas, id)) || id == e.replica.id
  {
    hide Distinct;
    if e.key in slots {
      var rs := slots[e.key].replicas;
      assert rs + [] == rs;
      if !InList(rs, e.replica.id) {
        AppendedList(rs, e.replica);
      }
    } else {
      OneIsDistinct(e.replica);
    }
  }

  lemma OneIsDistinct(r: Replica)
    ensures r.id != "" ==> Distinct([r])
    ensures forall id :: InList([r], id) <==> id == r.id
  {
    assert [r][0] == r;
  }

  lemma PutMirrored(cat: map<Key, Entry>, s: State, v: Value)
    requires Catalog(cat) && OfCatalog(cat, s.slots) && About(cat, Put(Some(v)))
    ensures var t := HandlePut(s, v);
            && OfCatalog(cat, t.slots)
            && forall k, id ::
                 Present(t.slots, k, id) <==> Present(s.slots, k, id) || (k == v.entry.key && id == v.entry.replica.id)
  {
    hide DoJoin, OfCatalog, EvictedBy;
    var e := v.entry;
    KindOf(cat, s.slots, e.key);
    if !(e.kind.ProtoKind? && Present(s.slots, e.key, e.replica.id)) {
      JoinPresent(cat, s.slots, e);
    }
  }

  lemma KindOf(cat: map<Key, Entry>, slots: Slots, k: Key)
    ensures OfCatalog(cat, slots) && k in slots ==> k in cat && slots[k].kind == cat[k].kind
  {
  }

  lemma DeleteMirrored(cat: map<Key, Entry>, s: State, key: Key, id: string)
    requires OfCatalog(cat, s.slots)
    ensures var t := HandleDelete(s, key, id);
            && OfCatalog(cat, t.slots)
            && forall k, jd :: Present(t.slots, k, jd) <==> Present(s.slots, k, jd) && !(k == key && jd == id)
  {
    var slots, t := s.slots, HandleDelete(s, key, id).slots;
    RemovedByIDExactly(slots, key, id);
    DeleteIs(s, key, id);
    hide DoRemoveByID, HandleDelete, Distinct;
    if Present(slots, key, id) {
      var rs := slots[key].replicas;
      var at :| 0 <= at < |rs| && rs[at].id == id
                && if |rs| == 1 then key !in t else key in t && t[key].replicas == rs[..at] + rs[at + 1..];
      RemovedList(rs, at);
      hide InList;
      if |rs| == 1 {
        OneIsDistinct(rs[0]);
        assert rs == [rs[0]];
      } else {
        assert t[key].replicas == Removed(rs, at);
      }
      Elsewhere(cat, slots, t, key);
    }
  }

  lemma DeleteIs(s: State, key: Key, id: string)
    ensures HandleDelete(s, key, id).slots == DoRemoveByID(s.slots, key, id)
  {
  }

  /** The slots follow the log.  Whatever puts, deletes and replays it holds about the services of a catalog, in any
      order: a replica is in its slot if and only if the last event about it is a put. */
  lemma {:induction false} SlotsFollowLog(cat: map<Key, Entry>, s: State, log: seq<Event>)
    requires Catalog(cat) && s.slots == map[] && forall i | 0 <= i < |log| :: About(cat, log[i])
    ensures var t := Replay(s, log).slots;
            && OfCatalog(cat, t)
            && forall k, id | id != "" :: Present(t, k, id) <==> Alive(log, k, id)
    decreases |log|
  {
    hide Present, Alive, HandlePut, HandleDelete, Catalog;
    if log == [] {
      NoneAlive();
    } else {
      var init, ev := log[..|log| - 1], log[|log| - 1];
      SlotsFollowLog(cat, s, init);
      var u := Replay(s, init);
      assert log == init + [ev];
      forall k, id ensures Alive(log, k, id)
                           <==> PutsReplica(ev, k, id) || (Alive(init, k, id) && ev != Delete(k, id)) {
        AliveSnoc(init, ev, k, id);
      }
      match ev
      case Put(v) => PutMirrored(cat, u, v.value);
      case Delete(key, id) => DeleteMirrored(cat, u, key, id);
    }
  }

  lemma NoneAlive()
    ensures forall k, id :: !Alive([], k, id) && !Present(map[], k, id)
  {
  }

  /** Replaying a put changes nothing. */
  lemma PutIdempotent(s: State, v: Value)
    requires Inv(s) && v.entry.replica.id != ""
    ensures HandlePut(HandlePut(s, v), v) == HandlePut(s, v)
  {
    hide Users, WellKeyed, DoJoin, EvictedBy, Has, Release, Acquire;
    var e := v.entry;
    ReleaseUndoesAcquire(s.conns, e.replica.addr);
    JoinedIsFound(s.slots, e);
    JoinTwice(s.slots, e);
    var t := HandlePut(s, v);
    assert t.lost + multiset{} == t.lost;
  }

  lemma JoinTwice(slots: Slots, e: Entry)
    requires e.replica.id != ""
    ensures var j := DoJoin(slots, e);
            && EvictedBy(j.slots, e) == multiset{}
            && (!e.kind.ProtoKind? ==> DoJoin(j.slots, e).slots == j.slots)
            && (e.kind.ProtoKind? && !j.ok ==> j.slots == slots && EvictedBy(slots, e) == multiset{})
  {
    hide SlotUsers, Has, Clash;
    JoinedIsFound(slots, e);
  }

  lemma JoinedIsFound(slots: Slots, e: Entry)
    requires e.replica.id != ""
    ensures var j := DoJoin(slots, e);
            j.ok ==> e.key in j.slots && SameShape(j.slots[e.key], e) && Has(j.slots[e.key].replicas, e.replica.id)
  {
    hide Clash;
    var j := DoJoin(slots, e);
    if j.ok {
      var rs := j.slots[e.key].replicas;
      assert e.replica in rs || Has(rs, e.replica.id);
    }
  }

  /** A deregistration in cluster mode loses a connection for good: the receiving gateway drops the replicas by their
      owner, so that the delete event finds nothing and gives nothing back. */
  lemma DeregistrationLeaks(key: Key, addr: Addr, owner: string, id: string) returns (log: seq<Event>)
    requires id != ""
    ensures |log| == 3 && forall i | 0 <= i < |log| :: FromRegistry(log[i])
    ensures log[1] == Deregistered(owner) && log[2] == Delete(key, id)
    ensures var t := Replay(State(map[], map[], multiset{}), log);
            t.slots == map[] && t.conns == map[addr := 1]
  {
    hide Handle, Replay, Refs;
    var e := Entry(key, ProtoKind, "", (0, 0), {}, true, true, Replica(id, addr, owner, true));
    var start := State(map[], map[], multiset{});
    log := [Put(Some(Value(e, true))), Deregistered(owner), Delete(key, id)];
    ReplayThree(start, log[0], log[1], log[2]);
    FirstPut(e);
    OwnerDropped(e, map[addr := 1], owner);
  }

  /** So does an "unstable" swap: the delete event of the replica that was swapped out finds nothing. */
  lemma SwapLeaks(ns: string, a: Addr, b: Addr) returns (log: seq<Event>)
    requires a != b
    ensures |log| == 3 && forall i | 0 <= i < |log| :: FromRegistry(log[i])
    ensures log[2] == Delete(Key(ns, "unstable"), "1")
    ensures var t := Replay(State(map[], map[], multiset{}), log);
            && t.conns == map[a := 1, b := 1] && t.slots.Keys == {Key(ns, "unstable")}
            && t.slots[Key(ns, "unstable")].replicas == [Replica("2", b, "y", true)]
  {
    hide Handle, Replay;
    var key := Key(ns, "unstable");
    var first := Entry(key, ProtoKind, "x", (0, 0), {}, true, true, Replica("1", a, "x", true));
    var second := Entry(key, ProtoKind, "y", (0, 0), {}, true, true, Replica("2", b, "y", true));
    log := [Put(Some(Value(first, true))), Put(Some(Value(second, true))), Delete(key, "1")];
    ReplayThree(State(map[], map[], multiset{}), log[0], log[1], log[2]);
    FirstPut(first);
    SecondPut(first, second);
  }

  lemma SecondPut(first: Entry, second: Entry)
    requires first.key == second.key && first.kind.ProtoKind? && second.kind.ProtoKind?
    requires first.hash != second.hash && second.key.ver == "unstable"
    requires second.accepted && second.parses && second.caps == (0, 0)
    requires first.replica.addr != second.replica.addr && first.replica.id != second.replica.id
    ensures var s := State(map[first.key := NewSlot(first)], map[first.replica.addr := 1], multiset{});
            var t := Handle(s, Put(Some(Value(second, true))));
            && t.slots == map[first.key := NewSlot(second)]
            && t.conns == map[first.replica.addr := 1, second.replica.addr := 1]
            && Handle(t, Delete(first.key, first.replica.id)) == t
  {
    var s := State(map[first.key := NewSlot(first)], map[first.replica.addr := 1], multiset{});
    assert !Clash(s.slots, second) && PolicyFor(s.slots, second).Swap?;
    assert !Has(s.slots[second.key].replicas, second.replica.id);
    assert DoJoin(s.slots, second) == Joined(s.slots[second.key := NewSlot(second)], true);
    assert s.slots[second.key := NewSlot(second)] == map[first.key := NewSlot(second)];
    assert !Has(NewSlot(second).replicas, first.replica.id);
  }

  lemma ReplayThree(s: State, a: Event, b: Event, c: Event)
    ensures Replay(s, [a, b, c]) == Handle(Handle(Handle(s, a), b), c)
  {
    hide Handle;
    assert [a, b, c][..2] == [a, b] && [a, b][..1] == [a] && [a][..0] == [];
    assert Replay(s, [a]) == Handle(s, a);
    assert Replay(s, [a, b]) == Handle(Handle(s, a), b);
  }

  lemma FirstPut(e: Entry)
    requires e.kind.ProtoKind? && e.accepted && e.parses && e.caps == (0, 0)
    ensures Handle(State(map[], map[], multiset{}), Put(Some(Value(e, true))))
            == State(map[e.key := NewSlot(e)], map[e.replica.addr := 1], multiset{})
  {
    var s := State(map[], map[], multiset{});
    assert !Clash(s.slots, e) && PolicyFor(s.slots, e).Create?;
    var t := HandlePut(s, Value(e, true));
    assert t.slots == map[e.key := NewSlot(e)] && t.conns == map[e.replica.addr := 1] && t.lost == multiset{};
  }

  lemma OwnerDropped(e: Entry, conns: map<Addr, int>, owner: string)
    requires e.replica.owner == owner
    ensures var t := Handle(State(map[e.key := NewSlot(e)], conns, multiset{}), Deregistered(owner));
            && t.slots == map[] && t.conns == conns
            && forall key, id :: Handle(t, Delete(key, id)) == t
  {
    hide Users, Others;
    OthersSnoc([], e.replica, owner);
    NobodyLeft(owner);
    assert [] + [e.replica] == [e.replica];
    assert DoRemoveOwner(map[e.key := NewSlot(e)], owner) == map[];
  }

  // ------------------------------------------------------------------
  // The reconciler

  class Loop {
    const gw: Gateway
    var conns: map<Addr, int>

    constructor (gw: Gateway)
      ensures this.gw == gw && conns == map[]
    {
      this.gw := gw;
      conns := map[];
    }

    method AcquireConn(addr: Addr, dials: bool) returns (ok: bool)
      modifies this
      ensures ok == (addr in old(conns) || dials)
      ensures conns == if ok then Acquire(old(conns), addr) else old(conns)
    {
      if addr in conns {
        conns := conns[addr := conns[addr] + 1];
        return true;
      }
      if !dials {
        return false;
      }
      conns := conns[addr := 1];
      return true;
    }

    method ReleaseConn(addr: Addr)
      modifies this
      ensures conns == Release(old(conns), addr)
    {
      if addr !in conns {
        return;
      }
      var refs := conns[addr] - 1;
      conns := conns[addr := refs];
      if refs <= 0 {
        conns := conns - {addr};
      }
    }

    method OnPut(v: Value, ghost lost: multiset<Addr>)
      modifies this, gw
      ensures var t := HandlePut(State(old(gw.slots), old(conns), lost), v);
              gw.slots == t.slots && conns == t.conns
      ensures v.entry.kind.ProtoKind? && (!v.entry.parses || (!v.dials && v.entry.replica.addr !in old(conns))) ==>
                gw.slots == old(gw.slots) && conns == old(conns)
      ensures !v.entry.kind.ProtoKind? ==> conns == old(conns)
    {
      hide DoJoin, Find, Clash;
      var e := v.entry;
      if !e.kind.ProtoKind? {
        var _ := gw.JoinPool(e);
        return;
      }
      if e.key in gw.slots && gw.slots[e.key].kind.ProtoKind? && Has(gw.slots[e.key].replicas, e.replica.id) {
        return;
      }
      if !e.parses {
        return;
      }
      var ok := AcquireConn(e.replica.addr, v.dials);
      if !ok {
        return;
      }
      ok := gw.JoinPool(e);
      if !ok {
        JoinRefused(old(gw.slots), e);
        ReleaseConn(e.replica.addr);
      }
    }

    method OnDelete(key: Key, id: string, ghost lost: multiset<Addr>)
      modifies this, gw
      ensures var t := HandleDelete(State(old(gw.slots), old(conns), lost), key, id);
              gw.slots == t.slots && conns == t.conns
      ensures conns != old(conns) ==>
                key in old(gw.slots) && old(gw.slots)[key].kind.ProtoKind? && Has(old(gw.slots)[key].replicas, id)
    {
      hide DoRemoveByID, Find, Release;
      if key !in gw.slots {
        return;
      }
      var kind := gw.slots[key].kind;
      var r := gw.RemoveReplicaByID(key, kind, id);
      if kind.ProtoKind? && r.Some? {
        ReleaseConn(r.value.addr);
      }
    }
  }

  lemma JoinRefused(slots: Slots, e: Entry)
    ensures !DoJoin(slots, e).ok && e.kind.ProtoKind? ==> DoJoin(slots, e).slots == slots
  {
  }
}
