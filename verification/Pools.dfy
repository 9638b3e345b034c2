/**
 The gateway's slots and the replica lists in them.  Every kind of slot keeps
 its replicas the same way; only proto replicas hold a pooled connection.
 Standalone and cluster gateways share this code, with the connection counts
 that go with it.  Rebuilding the schema always succeeds here.
 */
module Pools {
  import opened Options

  type Addr = string

  datatype Key = Key(ns: string, ver: string)

  datatype Kind = ProtoKind | OpenAPIKind | GraphQLKind | InternalKind

  /** `pooled` says that the connection is counted in a connection pool; boot-time replicas bring their own. */
  datatype Replica = Replica(id: string, addr: Addr, owner: string, pooled: bool)

  type Replicas = seq<Replica>

  // ------------------------------------------------------------------
  // Replica lists

  /** The replicas of all other owners, in order. */
  function Others(rs: Replicas, owner: string): Replicas {
    if rs == [] then []
    else
      var last := rs[|rs| - 1];
      Others(rs[..|rs| - 1], owner) + if last.owner == owner then [] else [last]
  }

  /** The position of the first replica with an id; the empty id is never found. */
  function Find(rs: Replicas, id: string): (i: nat)
    ensures i <= |rs| && (i < |rs| ==> rs[i].id == id && id != "")
    ensures i == |rs| && id != "" ==> forall j | 0 <= j < |rs| :: rs[j].id != id
    ensures forall j | 0 <= j < i < |rs| :: rs[j].id != id
  {
    if id == "" || rs == [] then |rs|
    else if rs[0].id == id then 0
    else
      var i := Find(rs[1..], id);
      assert forall j | 0 < j < |rs| :: rs[j] == rs[1..][j - 1];
      i + 1
  }

  predicate Has(rs: Replicas, id: string) {
    Find(rs, id) < |rs|
  }

  function Removed(rs: Replicas, i: nat): Replicas
    requires i < |rs|
  {
    rs[..i] + rs[i + 1..]
  }

  /** A pool's list, replaced as a whole on every change so that readers keep the one they loaded. */
  class ReplicaList {
    var replicas: Replicas

    constructor ()
      ensures replicas == []
    {
      replicas := [];
    }

    method AddReplica(r: Replica)
      modifies this
      ensures replicas == old(replicas) + [r]
    {
      var next := replicas;
      next := next + [r];
      replicas := next;
    }

    method RemoveReplicasByOwner(owner: string) returns (removed: nat)
      modifies this
      ensures replicas == Others(old(replicas), owner)
      ensures removed == |old(replicas)| - |replicas|
    {
      var next: Replicas := [];
      removed := 0;
      for i := 0 to |replicas|
        invariant next == Others(replicas[..i], owner)
        invariant removed == i - |next|
      {
        assert replicas[..i + 1][..i] == replicas[..i];
        if replicas[i].owner == owner {
          removed := removed + 1;
          continue;
        }
        next := next + [replicas[i]];
      }
      assert replicas[..|replicas|] == replicas;
      if removed == 0 {
        OthersAll(replicas, owner);
        return;
      }
      replicas := next;
    }

    method RemoveReplicaByID(id: string) returns (removed: Option<Replica>)
      modifies this
      ensures var at := Find(old(replicas), id);
              if at < |old(replicas)|
              then removed == Some(old(replicas)[at]) && replicas == Removed(old(replicas), at)
              else removed == None && replicas == old(replicas)
    {
      if id == "" {
        return None;
      }
      ghost var at := Find(replicas, id);
      var next: Replicas := [];
      removed := None;
      for i := 0 to |replicas|
        invariant i <= at ==> removed == None && next == replicas[..i]
        invariant i > at ==> removed == Some(replicas[at]) && next == replicas[..at] + replicas[at + 1..i]
      {
        if removed == None && replicas[i].id == id {
          removed := Some(replicas[i]);
          assert i == at && replicas[at + 1..i + 1] == [];
          continue;
        }
        next := next + [replicas[i]];
      }
      if removed == None {
        return;
      }
      replicas := next;
    }

    method FindReplicaByID(id: string) returns (r: Option<Replica>)
      ensures r == if Has(replicas, id) then Some(replicas[Find(replicas, id)]) else None
    {
      if id == "" {
        return None;
      }
      ghost var at := Find(replicas, id);
      for i := 0 to |replicas|
        invariant i <= at
      {
        if replicas[i].id == id {
          assert i == at;
          return Some(replicas[i]);
        }
      }
      return None;
    }
  }

  lemma {:induction false} OthersShorter(rs: Replicas, owner: string)
    ensures |Others(rs, owner)| <= |rs|
    ensures forall i | 0 <= i < |Others(rs, owner)| :: Others(rs, owner)[i] in rs && Others(rs, owner)[i].owner != owner
    ensures forall r | r in rs && r.owner != owner :: r in Others(rs, owner)
    decreases |rs|
  {
    if rs != [] {
      OthersShorter(rs[..|rs| - 1], owner);
    }
  }

  /** Lists can be filtered part by part: order and multiplicity stay. */
  lemma {:induction false} OthersAppend(a: Replicas, b: Replicas, owner: string)
    ensures Others(a + b, owner) == Others(a, owner) + Others(b, owner)
    decreases |b|
  {
    hide Others;
    if b == [] {
      NobodyLeft(owner);
      assert a + b == a && Others(a, owner) + [] == Others(a, owner);
    } else {
      var init, last := b[..|b| - 1], b[|b| - 1];
      OthersAppend(a, init, owner);
      OthersSnoc(a + init, last, owner);
      OthersSnoc(init, last, owner);
      assert a + b == a + init + [last] && b == init + [last];
      var x, y, z := Others(a, owner), Others(init, owner), if last.owner == owner then [] else [last];
      assert x + y + z == x + (y + z);
    }
  }

  lemma OthersOne(r: Replica, owner: string)
    ensures Others([r], owner) == if r.owner == owner then [] else [r]
  {
    assert [r][..0] == [];
  }

  /** Nobody is removed exactly if the list stays as it is. */
  lemma {:induction false} OthersAll(rs: Replicas, owner: string)
    ensures |Others(rs, owner)| == |rs| <==> Others(rs, owner) == rs
    ensures Others(rs, owner) == rs <==> forall i | 0 <= i < |rs| :: rs[i].owner != owner
    decreases |rs|
  {
    OthersShorter(rs, owner);
    if rs != [] {
      var init := rs[..|rs| - 1];
      OthersAll(init, owner);
      OthersShorter(init, owner);
      assert rs == init + [rs[|rs| - 1]];
    }
  }

  lemma OthersSnoc(rs: Replicas, r: Replica, owner: string)
    ensures Others(rs + [r], owner) == Others(rs, owner) + if r.owner == owner then [] else [r]
  {
    assert (rs + [r])[..|rs|] == rs;
  }

  // ------------------------------------------------------------------
  // Shared connections

  /** How often a connection is in use. */
  function Refs(conns: map<Addr, int>, addr: Addr): int {
    if addr in conns then conns[addr] else 0
  }

  function Acquire(conns: map<Addr, int>, addr: Addr): map<Addr, int> {
    conns[addr := Refs(conns, addr) + 1]
  }

  /** The entry goes with the last use. */
  function Release(conns: map<Addr, int>, addr: Addr): map<Addr, int> {
    if addr !in conns then conns
    else if conns[addr] - 1 <= 0 then conns - {addr}
    else conns[addr := conns[addr] - 1]
  }

  lemma ReleaseUndoesAcquire(conns: map<Addr, int>, addr: Addr)
    ensures (forall a | a in conns :: conns[a] > 0) ==> Release(Acquire(conns, addr), addr) == conns
  {
  }

  lemma RefsAcquired(conns: map<Addr, int>, addr: Addr)
    requires forall a | a in conns :: conns[a] > 0
    ensures var next := Acquire(conns, addr);
            && (forall a | a in next :: next[a] > 0)
            && forall a: Addr :: Refs(next, a) == Refs(conns, a) + if a == addr then 1 else 0
  {
  }

  lemma RefsReleased(conns: map<Addr, int>, addr: Addr)
    requires addr in conns && forall a | a in conns :: conns[a] > 0
    ensures var next := Release(conns, addr);
            && (forall a | a in next :: next[a] > 0)
            && forall a: Addr :: Refs(next, a) == Refs(conns, a) - if a == addr then 1 else 0
  {
  }

  // ------------------------------------------------------------------
  // Slots

  datatype Slot = Slot(kind: Kind, hash: string, caps: (int, int), bindings: set<string>, replicas: Replicas)

  type Slots = map<Key, Slot>

  /** A replica asking to join.  `accepted` says that its name, version and tier pass the checks; `parses`, that the
      library can read its specification. */
  datatype Entry = Entry(
    key: Key,
    kind: Kind,
    hash: string,
    caps: (int, int),
    bindings: set<string>,
    accepted: bool,
    parses: bool,
    replica: Replica)

  /** Another slot claims one of the channel patterns. */
  predicate Clash(slots: Slots, e: Entry) {
    exists k | k in slots :: k != e.key && !(slots[k].bindings !! e.bindings)
  }

  predicate SameShape(s: Slot, e: Entry) {
    s.kind == e.kind && s.hash == e.hash && s.caps == e.caps
  }

  datatype Policy = Refuse | Join | Create | Swap

  /** The tier policy: versions are fixed once registered, and only "unstable" can be replaced. */
  function PolicyFor(slots: Slots, e: Entry): Policy {
    if !e.accepted || e.caps.0 < 0 || e.caps.1 < 0 then Refuse
    else if e.key !in slots then if Clash(slots, e) then Refuse else Create
    else if SameShape(slots[e.key], e) then Join
    else if e.key.ver != "unstable" then Refuse
    else if Clash(slots, e) then Refuse
    else Swap
  }

  datatype Joined = Joined(slots: Slots, ok: bool)

  function NewSlot(e: Entry): Slot {
    Slot(e.kind, e.hash, e.caps, e.bindings, [e.replica])
  }

  /** A specification that cannot be read costs the slot that was just made, or just swapped out, for it. */
  function DoJoin(slots: Slots, e: Entry): Joined {
    match PolicyFor(slots, e)
    case Refuse => Joined(slots, false)
    case Join =>
      var s := slots[e.key];
      if !e.kind.ProtoKind? && Has(s.replicas, e.replica.id) then Joined(slots, true)
      else Joined(slots[e.key := s.(replicas := s.replicas + [e.replica])], true)
    case _ =>
      if !e.kind.ProtoKind? && !e.parses then Joined(slots - {e.key}, false)
      else Joined(slots[e.key := NewSlot(e)], true)
  }

  /** What a join needs: checks passed, patterns that no other slot claims, and either a slot of the same shape, or a
      free or replaceable one and a specification that can be read. */
  predicate Joins(slots: Slots, e: Entry) {
    && e.accepted && e.caps.0 >= 0 && e.caps.1 >= 0
    && ((e.key in slots && SameShape(slots[e.key], e))
        || ((e.key in slots ==> e.key.ver == "unstable") && !Clash(slots, e) && (e.kind.ProtoKind? || e.parses)))
  }

  /** The replicas under the key after a join: a slot of the same shape gains the replica, unless it is an OpenAPI or
      GraphQL replica that is known already; otherwise the slot is a new one. */
  predicate JoinedSlot(slots: Slots, e: Entry, s: Slot) {
    if e.key in slots && SameShape(slots[e.key], e) then
      && SameShape(s, e) && s.bindings == slots[e.key].bindings
      && s.replicas == slots[e.key].replicas
                       + if e.replica.id != "" && !e.kind.ProtoKind?
                            && (exists i | 0 <= i < |slots[e.key].replicas| ::
                                  slots[e.key].replicas[i].id == e.replica.id)
                         then [] else [e.replica]
    else SameShape(s, e) && s.bindings == e.bindings && s.replicas == [e.replica]
  }

  /** A join succeeds exactly if it has what it needs; then its slot is as it should be, and no other changes.  A join
      that fails changes nothing, unless its specification cannot be read: that costs the slot it was to replace. */
  lemma JoinExactly(slots: Slots, e: Entry)
    ensures var j := DoJoin(slots, e);
            && (j.ok <==> Joins(slots, e))
            && (j.ok ==> e.key in j.slots && JoinedSlot(slots, e, j.slots[e.key]))
            && (!j.ok && e.key in slots && e.key !in j.slots ==> e.key.ver == "unstable" && !e.parses)
            && (!j.ok ==> j.slots == slots || j.slots == slots - {e.key})
            && j.slots - {e.key} == slots - {e.key}
  {
    hide Clash;
    if e.key in slots {
      var rs := slots[e.key].replicas;
      assert rs + [] == rs;
    }
  }

  /** A slot that lost replicas goes when it is empty. */
  function Trimmed(slots: Slots, key: Key, rs: Replicas): Slots
    requires key in slots
  {
    if rs == slots[key].replicas then slots
    else if rs == [] then slots - {key}
    else slots[key := slots[key].(replicas := rs)]
  }

  function DoRemoveByID(slots: Slots, key: Key, id: string): Slots {
    if key !in slots || !Has(slots[key].replicas, id) then slots
    else Trimmed(slots, key, Removed(slots[key].replicas, Find(slots[key].replicas, id)))
  }

  function Survives(s: Slot, owner: string): bool {
    Others(s.replicas, owner) == s.replicas || Others(s.replicas, owner) != []
  }

  /** All slots without one owner's replicas. */
  function DoRemoveOwner(slots: Slots, owner: string): Slots {
    map k | k in slots && Survives(slots[k], owner) :: slots[k].(replicas := Others(slots[k].replicas, owner))
  }

  /** The same for the slots of one kind. */
  function DoRemoveOwnerKind(slots: Slots, owner: string, kind: Kind): Slots {
    map k | k in slots && (slots[k].kind != kind || Survives(slots[k], owner)) ::
      if slots[k].kind != kind then slots[k] else slots[k].(replicas := Others(slots[k].replicas, owner))
  }

  /** No slot that keeps replicas is empty, and internal slots keep none. */
  predicate Populated(slots: Slots) {
    forall k | k in slots :: slots[k].replicas == [] <==> slots[k].kind.InternalKind?
  }

  class Gateway {
    var slots: Slots

    constructor ()
      ensures slots == map[]
    {
      slots := map[];
    }

    method JoinPool(e: Entry) returns (ok: bool)
      modifies this
      ensures Joined(slots, ok) == DoJoin(old(slots), e)
    {
      var policy := PolicyFor(slots, e);
      if policy.Refuse? {
        return false;
      }
      if policy.Join? {
        if !e.kind.ProtoKind? && Has(slots[e.key].replicas, e.replica.id) {
          return true;
        }
        slots := slots[e.key := slots[e.key].(replicas := slots[e.key].replicas + [e.replica])];
        return true;
      }
      slots := slots[e.key := NewSlot(e).(replicas := [])];
      if !e.kind.ProtoKind? && !e.parses {
        slots := slots - {e.key};
        return false;
      }
      slots := slots[e.key := slots[e.key].(replicas := slots[e.key].replicas + [e.replica])];
      assert slots[e.key] == NewSlot(e);
      return true;
    }

    method RemoveReplicaByID(key: Key, kind: Kind, id: string) returns (r: Option<Replica>)
      modifies this
      ensures var found := key in old(slots) && old(slots)[key].kind == kind && Has(old(slots)[key].replicas, id);
              && slots == (if found then DoRemoveByID(old(slots), key, id) else old(slots))
              && r == if found then Some(old(slots)[key].replicas[Find(old(slots)[key].replicas, id)]) else None
    {
      if key !in slots || slots[key].kind != kind || !Has(slots[key].replicas, id) {
        return None;
      }
      var rs := slots[key].replicas;
      var at := Find(rs, id);
      var left := Removed(rs, at);
      assert |left| < |rs| && left != rs;
      if left == [] {
        slots := slots - {key};
      } else {
        slots := slots[key := slots[key].(replicas := left)];
      }
      return Some(rs[at]);
    }

    /** The map is walked in any order; slots that become empty are deleted on the way. */
    method RemoveReplicasByOwner(owner: string, kind: Kind)
      modifies this
      ensures slots == DoRemoveOwnerKind(old(slots), owner, kind)
    {
      hide Others;
      ghost var before := slots;
      var left := slots.Keys;
      while left != {}
        invariant left <= before.Keys
        invariant forall k | k in left :: k in slots && slots[k] == before[k]
        invariant forall k | k in before && k !in left ::
            (k in slots <==> k in DoRemoveOwnerKind(before, owner, kind))
            && (k in slots ==> slots[k] == DoRemoveOwnerKind(before, owner, kind)[k])
        invariant slots.Keys <= before.Keys
        decreases |left|
      {
        var k :| k in left;
        left := left - {k};
        if slots[k].kind != kind {
          continue;
        }
        var rs := slots[k].replicas;
        var next := Others(rs, owner);
        if next == rs {
          continue;
        }
        if next == [] {
          slots := slots - {k};
        } else {
          slots := slots[k := slots[k].(replicas := next)];
        }
      }
      assert slots == DoRemoveOwnerKind(before, owner, kind);
    }
  }

  /** Removing an owner kind by kind removes it everywhere. */
  lemma KindByKind(slots: Slots, owner: string)
    requires Populated(slots)
    ensures DoRemoveOwnerKind(DoRemoveOwnerKind(DoRemoveOwnerKind(slots, owner, ProtoKind), owner, OpenAPIKind),
                              owner, GraphQLKind)
            == DoRemoveOwner(slots, owner)
  {
    hide Others;
    var a := DoRemoveOwnerKind(slots, owner, ProtoKind);
    var b := DoRemoveOwnerKind(a, owner, OpenAPIKind);
    var c := DoRemoveOwnerKind(b, owner, GraphQLKind);
    NobodyLeft(owner);
    forall k ensures k in c <==> k in DoRemoveOwner(slots, owner) {
    }
    forall k | k in c ensures c[k] == DoRemoveOwner(slots, owner)[k] {
      assert k in slots;
    }
  }

  lemma NobodyLeft(owner: string)
    ensures Others([], owner) == []
  {
  }

  lemma JoinKeepsPopulated(slots: Slots, e: Entry)
    requires Populated(slots) && !e.kind.InternalKind?
    ensures Populated(DoJoin(slots, e).slots)
  {
  }

  lemma RemoveKeepsPopulated(slots: Slots, owner: string)
    requires Populated(slots)
    ensures Populated(DoRemoveOwner(slots, owner))
  {
    hide Others;
    NobodyLeft(owner);
  }

  /** After a removal no replica of the owner is left anywhere. */
  lemma OwnerGone(slots: Slots, owner: string, k: Key, i: nat)
    requires k in DoRemoveOwner(slots, owner) && i < |DoRemoveOwner(slots, owner)[k].replicas|
    ensures DoRemoveOwner(slots, owner)[k].replicas[i].owner != owner
  {
    OthersShorter(slots[k].replicas, owner);
  }

  /** All replicas of other owners stay, in a slot of the same shape, and slots appear nowhere. */
  lemma OthersStay(slots: Slots, owner: string, k: Key)
    ensures var t := DoRemoveOwner(slots, owner);
            && (k in t ==> k in slots && t[k] == slots[k].(replicas := t[k].replicas))
            && forall r | k in slots && r in slots[k].replicas && r.owner != owner :: k in t && r in t[k].replicas
  {
    if k in slots {
      OthersShorter(slots[k].replicas, owner);
    }
  }

  /** Removing by id takes the first replica with the id out of its list, and the slot with the last one; nothing else
      changes. */
  lemma RemovedByIDExactly(slots: Slots, key: Key, id: string)
    ensures var t := DoRemoveByID(slots, key, id);
            && t - {key} == slots - {key}
            && (key in t ==> key in slots && t[key] == slots[key].(replicas := t[key].replicas))
            && if id != "" && key in slots
                  && exists i | 0 <= i < |slots[key].replicas| :: slots[key].replicas[i].id == id
               then
                 exists i | 0 <= i < |slots[key].replicas| ::
                   var rs := slots[key].replicas;
                   && rs[i].id == id && (forall j | 0 <= j < i :: rs[j].id != id)
                   && if |rs| == 1 then key !in t else key in t && t[key].replicas == rs[..i] + rs[i + 1..]
               else t == slots
  {
    if key in slots {
      var rs := slots[key].replicas;
      var at := Find(rs, id);
      if at < |rs| {
        assert |Removed(rs, at)| < |rs|;
      }
    }
  }
}
