/**
 Standalone registration: the bindings of a request join the gateway's slots one
 after the other, a failure takes everything back, and connections are counted
 by address.
 */
module ControlPlane {
  import opened Options
  import opened Pools

  /** A registration, and whether it holds the connection to its address. */
  datatype Reg = Reg(addr: Addr, hasConn: bool)

  datatype State = State(slots: Slots, regs: map<string, Reg>, conns: map<Addr, int>)

  /** The bindings up to the first that fails. */
  function JoinAll(slots: Slots, es: seq<Entry>): Joined
    decreases |es|
  {
    if es == [] then Joined(slots, true)
    else
      var j := DoJoin(slots, es[0]);
      if j.ok then JoinAll(j.slots, es[1..]) else j
  }

  predicate NeedsConn(es: seq<Entry>) {
    exists i | 0 <= i < |es| :: es[i].kind.ProtoKind?
  }

  datatype Registered = Registered(state: State, ok: bool)

  function DoRegister(s: State, id: string, addr: Addr, es: seq<Entry>, dials: bool): Registered {
    var needs := NeedsConn(es);
    if needs && addr !in s.conns && !dials then Registered(s, false)
    else
      var conns := if needs then Acquire(s.conns, addr) else s.conns;
      var joined := JoinAll(s.slots, es);
      if joined.ok then Registered(State(joined.slots, s.regs[id := Reg(addr, needs)], conns), true)
      else
        Registered(State(DoRemoveOwner(joined.slots, id), s.regs, if needs then Release(conns, addr) else conns), false)
  }

  function DoDeregister(s: State, id: string): State {
    if id !in s.regs then s
    else
      State(DoRemoveOwner(s.slots, id), s.regs - {id},
            if s.regs[id].hasConn then Release(s.conns, s.regs[id].addr) else s.conns)
  }

  /** What a request's bindings look like by the time they join. */
  predicate IsRequest(id: string, es: seq<Entry>) {
    && (forall i | 0 <= i < |es| :: es[i].replica.owner == id && !es[i].kind.InternalKind?)
    && forall i, j | 0 <= i < j < |es| :: es[i].key != es[j].key
  }

  /** A registration's id is new. */
  predicate Fresh(slots: Slots, id: string) {
    forall k, i | k in slots && 0 <= i < |slots[k].replicas| :: slots[k].replicas[i].owner != id
  }

  // ------------------------------------------------------------------
  // What a rollback restores

  /** A binding replaces an occupied "unstable" slot before the request fails. */
  predicate Swaps(slots: Slots, es: seq<Entry>)
    decreases |es|
  {
    if es == [] then false
    else
      PolicyFor(slots, es[0]).Swap?
      || (DoJoin(slots, es[0]).ok && Swaps(DoJoin(slots, es[0]).slots, es[1..]))
  }

  lemma FreshUnmoved(slots: Slots, id: string)
    requires Fresh(slots, id)
    ensures DoRemoveOwner(slots, id) == slots
  {
    hide Others;
    forall k | k in slots ensures Others(slots[k].replicas, id) == slots[k].replicas {
      OthersAll(slots[k].replicas, id);
    }
  }

  /** Both hold the same under a key. */
  predicate SameAt(a: Slots, b: Slots, k: Key) {
    (k in a <==> k in b) && (k in a ==> a[k] == b[k])
  }

  lemma SameEverywhere(a: Slots, b: Slots)
    requires forall k :: SameAt(a, b, k)
    ensures a == b
  {
    forall k ensures (k in a <==> k in b) && (k in a ==> a[k] == b[k]) {
      assert SameAt(a, b, k);
    }
  }

  /** One join, taken back, leaves under each key what taking back leaves without it; unless it swapped a slot out. */
  lemma JoinTakenBack(slots: Slots, e: Entry, k: Key)
    requires Populated(slots) && !e.kind.InternalKind? && !PolicyFor(slots, e).Swap?
    ensures SameAt(DoRemoveOwner(DoJoin(slots, e).slots, e.replica.owner), DoRemoveOwner(slots, e.replica.owner), k)
  {
    hide Others, Has, Clash, DoRemoveOwner, Survives;
    var j := DoJoin(slots, e);
    match PolicyFor(slots, e)
    case Refuse =>
    case Join =>
      if j.slots != slots {
        GrownTakenBack(slots, e, k);
      }
    case Create =>
      CreatedTakenBack(slots, e, k);
      assert slots - {e.key} == slots;
    case _ =>
  }

  lemma GrownTakenBack(slots: Slots, e: Entry, k: Key)
    requires e.key in slots && slots[e.key].replicas != []
    ensures var s := slots[e.key];
            SameAt(DoRemoveOwner(slots[e.key := s.(replicas := s.replicas + [e.replica])], e.replica.owner),
                   DoRemoveOwner(slots, e.replica.owner), k)
  {
    hide Others, Survives;
    JoinedSurvives(slots[e.key], e);
  }

  lemma CreatedTakenBack(slots: Slots, e: Entry, k: Key)
    requires e.key !in slots
    ensures SameAt(DoRemoveOwner(slots[e.key := NewSlot(e)], e.replica.owner),
                   DoRemoveOwner(slots, e.replica.owner), k)
  {
    hide Others;
    OthersSnoc([], e.replica, e.replica.owner);
    NobodyLeft(e.replica.owner);
    assert [] + [e.replica] == [e.replica];
  }

  lemma JoinedSurvives(s: Slot, e: Entry)
    requires s.replicas != []
    ensures var t := s.(replicas := s.replicas + [e.replica]);
            var id := e.replica.owner;
            && Others(t.replicas, id) == Others(s.replicas, id)
            && (Survives(t, id) <==> Survives(s, id))
  {
    var id := e.replica.owner;
    OthersSnoc(s.replicas, e.replica, id);
    OthersShorter(s.replicas, id);
    assert Others(s.replicas, id) + [] == Others(s.replicas, id);
    assert |s.replicas + [e.replica]| > |Others(s.replicas, id)|;
  }

  lemma {:induction false} AllTakenBack(slots: Slots, id: string, es: seq<Entry>)
    requires Populated(slots) && IsRequest(id, es) && !Swaps(slots, es)
    ensures DoRemoveOwner(JoinAll(slots, es).slots, id) == DoRemoveOwner(slots, id)
    decreases |es|
  {
    hide DoJoin, DoRemoveOwner, Populated, PolicyFor;
    if es != [] {
      var after, without := DoRemoveOwner(DoJoin(slots, es[0]).slots, id), DoRemoveOwner(slots, id);
      forall k ensures SameAt(after, without, k) {
        JoinTakenBack(slots, es[0], k);
      }
      SameEverywhere(after, without);
      if DoJoin(slots, es[0]).ok {
        JoinKeepsPopulated(slots, es[0]);
        AllTakenBack(DoJoin(slots, es[0]).slots, id, es[1..]);
      }
    }
  }

  /** Only the entry's own slot changes. */
  lemma JoinElsewhere(slots: Slots, e: Entry, k: Key)
    requires k != e.key
    ensures var j := DoJoin(slots, e).slots; (k in j <==> k in slots) && (k in j ==> j[k] == slots[k])
  {
    hide Has, Clash;
  }

  lemma {:induction false} JoinAllElsewhere(slots: Slots, es: seq<Entry>, k: Key)
    requires forall i | 0 <= i < |es| :: es[i].key != k
    ensures var j := JoinAll(slots, es).slots; (k in j <==> k in slots) && (k in j ==> j[k] == slots[k])
    decreases |es|
  {
    hide DoJoin;
    if es != [] {
      JoinElsewhere(slots, es[0], k);
      if DoJoin(slots, es[0]).ok {
        JoinAllElsewhere(DoJoin(slots, es[0]).slots, es[1..], k);
      }
    }
  }

  /** After a swap the old slot is gone for good: only the new replica, or nothing, stands in its place. */
  lemma SwappedGone(slots: Slots, e: Entry)
    requires PolicyFor(slots, e).Swap?
    ensures e.key in slots
    ensures e.key !in DoRemoveOwner(DoJoin(slots, e).slots, e.replica.owner)
  {
    hide Others, Clash;
    OthersSnoc([], e.replica, e.replica.owner);
    NobodyLeft(e.replica.owner);
    assert [] + [e.replica] == [e.replica];
  }

  lemma RemoveOwnerAt(slots: Slots, other: Slots, id: string, k: Key)
    requires (k in slots <==> k in other) && (k in slots ==> slots[k] == other[k])
    ensures k in DoRemoveOwner(slots, id) <==> k in DoRemoveOwner(other, id)
  {
    hide Others;
  }

  lemma {:induction false} SwapLosesSlot(slots: Slots, id: string, es: seq<Entry>) returns (k: Key)
    requires IsRequest(id, es) && Swaps(slots, es)
    ensures exists i | 0 <= i < |es| :: es[i].key == k
    ensures k in slots && k !in DoRemoveOwner(JoinAll(slots, es).slots, id)
    decreases |es|
  {
    hide DoJoin, DoRemoveOwner, PolicyFor;
    var j := DoJoin(slots, es[0]);
    if PolicyFor(slots, es[0]).Swap? {
      k := es[0].key;
      SwappedGone(slots, es[0]);
      if j.ok {
        JoinAllElsewhere(j.slots, es[1..], k);
        RemoveOwnerAt(JoinAll(slots, es).slots, j.slots, id, k);
      }
    } else {
      k := SwapLosesSlot(j.slots, id, es[1..]);
      var i :| 0 <= i < |es[1..]| && es[1..][i].key == k;
      assert es[i + 1].key == k;
      JoinElsewhere(slots, es[0], k);
    }
  }

  /** A failed request leaves every pool's replicas as they were if and only if none of its bindings had replaced an
      occupied "unstable" slot. */
  lemma RollbackRestoresExactly(slots: Slots, id: string, es: seq<Entry>)
    requires Populated(slots) && Fresh(slots, id) && IsRequest(id, es)
    ensures DoRemoveOwner(JoinAll(slots, es).slots, id) == slots <==> !Swaps(slots, es)
  {
    hide JoinAll, DoRemoveOwner, Populated, Fresh, Swaps;
    if Swaps(slots, es) {
      var k := SwapLosesSlot(slots, id, es);
    } else {
      AllTakenBack(slots, id, es);
      FreshUnmoved(slots, id);
    }
  }

  // ------------------------------------------------------------------
  // Counts against registrations

  function Holders(regs: map<string, Reg>, addr: Addr): set<string> {
    set id | id in regs && regs[id].hasConn && regs[id].addr == addr
  }

  /** Each count is the number of registrations that hold the address's connection. */
  predicate Counted(s: State) {
    && (forall a | a in s.conns :: s.conns[a] > 0)
    && (forall a | a in s.conns :: s.conns[a] == |Holders(s.regs, a)|)
    && forall id | id in s.regs && s.regs[id].hasConn :: s.regs[id].addr in s.conns
  }

  /** Replicas have one of the known owners, or have been there since boot without an owner. */
  predicate OwnedBy(slots: Slots, known: set<string>) {
    forall k, i | k in slots && 0 <= i < |slots[k].replicas| ::
      slots[k].replicas[i].owner == "" || slots[k].replicas[i].owner in known
  }

  predicate Inv(s: State) {
    Counted(s) && OwnedBy(s.slots, s.regs.Keys) && Populated(s.slots) && "" !in s.regs
  }

  lemma HoldersAdd(regs: map<string, Reg>, id: string, r: Reg, a: Addr)
    requires id !in regs
    ensures |Holders(regs[id := r], a)| == |Holders(regs, a)| + if r.hasConn && r.addr == a then 1 else 0
  {
    if r.hasConn && r.addr == a {
      assert Holders(regs[id := r], a) == Holders(regs, a) + {id};
    } else {
      assert Holders(regs[id := r], a) == Holders(regs, a);
    }
  }

  lemma HoldersRemove(regs: map<string, Reg>, id: string, a: Addr)
    requires id in regs
    ensures |Holders(regs - {id}, a)| == |Holders(regs, a)| - if regs[id].hasConn && regs[id].addr == a then 1 else 0
  {
    if regs[id].hasConn && regs[id].addr == a {
      assert Holders(regs, a) == Holders(regs - {id}, a) + {id};
    } else {
      assert Holders(regs, a) == Holders(regs - {id}, a);
    }
  }

  lemma NoHolders(s: State, a: Addr)
    requires Counted(s) && a !in s.conns
    ensures |Holders(s.regs, a)| == 0
  {
    assert Holders(s.regs, a) == {};
  }

  lemma RegisterCounts(s: State, id: string, addr: Addr, slots: Slots)
    requires Counted(s) && id !in s.regs
    ensures Counted(State(slots, s.regs[id := Reg(addr, true)], Acquire(s.conns, addr)))
    ensures Counted(State(slots, s.regs[id := Reg(addr, false)], s.conns))
  {
    hide Holders;
    forall a: Addr, r: Reg
      ensures |Holders(s.regs[id := r], a)| == |Holders(s.regs, a)| + if r.hasConn && r.addr == a then 1 else 0
    {
      HoldersAdd(s.regs, id, r, a);
    }
    if addr !in s.conns {
      NoHolders(s, addr);
    }
  }

  lemma DeregisterCounts(s: State, id: string, slots: Slots)
    requires Counted(s) && id in s.regs
    ensures var r := s.regs[id];
            Counted(State(slots, s.regs - {id}, if r.hasConn then Release(s.conns, r.addr) else s.conns))
  {
    hide Holders;
    var r := s.regs[id];
    var t := State(slots, s.regs - {id}, if r.hasConn then Release(s.conns, r.addr) else s.conns);
    forall a: Addr
      ensures |Holders(t.regs, a)| == |Holders(s.regs, a)| - if r.hasConn && r.addr == a then 1 else 0
    {
      HoldersRemove(s.regs, id, a);
    }
    forall other | other in t.regs && t.regs[other].hasConn ensures t.regs[other].addr in t.conns {
      if r.hasConn && t.regs[other].addr == r.addr {
        TwoHolders(s.regs, id, other);
      }
    }
  }

  lemma TwoHolders(regs: map<string, Reg>, a: string, b: string)
    requires a in regs && b in regs && a != b && regs[a].hasConn && regs[b].hasConn && regs[a].addr == regs[b].addr
    ensures |Holders(regs, regs[a].addr)| >= 2
  {
    var h := Holders(regs, regs[a].addr);
    assert a in h && b in h - {a};
    assert |h - {a} - {b}| >= 0;
  }

  // ------------------------------------------------------------------
  // Requests

  lemma JoinOwned(slots: Slots, e: Entry, known: set<string>)
    requires OwnedBy(slots, known) && e.replica.owner in known
    ensures OwnedBy(DoJoin(slots, e).slots, known)
  {
    hide Has, Clash;
  }

  lemma {:induction false} JoinAllOwned(slots: Slots, id: string, es: seq<Entry>, known: set<string>)
    requires OwnedBy(slots, known) && id in known && IsRequest(id, es) && Populated(slots)
    ensures OwnedBy(JoinAll(slots, es).slots, known) && Populated(JoinAll(slots, es).slots)
    decreases |es|
  {
    hide DoJoin, OwnedBy, Populated;
    if es != [] {
      JoinOwned(slots, es[0], known);
      JoinKeepsPopulated(slots, es[0]);
      if DoJoin(slots, es[0]).ok {
        JoinAllOwned(DoJoin(slots, es[0]).slots, id, es[1..], known);
      }
    }
  }

  lemma RemoveOwned(slots: Slots, id: string, known: set<string>)
    requires OwnedBy(slots, known + {id}) && id != ""
    ensures OwnedBy(DoRemoveOwner(slots, id), known - {id})
  {
    hide Others;
    var t := DoRemoveOwner(slots, id);
    forall k, i | k in t && 0 <= i < |t[k].replicas|
      ensures t[k].replicas[i].owner == "" || t[k].replicas[i].owner in known - {id}
    {
      OthersShorter(slots[k].replicas, id);
      assert t[k].replicas[i] in slots[k].replicas;
    }
  }

  lemma RegisterKeepsInv(s: State, id: string, addr: Addr, es: seq<Entry>, dials: bool)
    requires Inv(s) && id !in s.regs && id != "" && IsRequest(id, es)
    ensures Inv(DoRegister(s, id, addr, es, dials).state)
  {
    hide JoinAll, Counted, OwnedBy, Populated, DoRemoveOwner, NeedsConn, IsRequest, Acquire, Release;
    var known := s.regs.Keys + {id};
    OwnedMore(s.slots, s.regs.Keys, id);
    JoinAllOwned(s.slots, id, es, known);
    var joined := JoinAll(s.slots, es);
    RegisterCounts(s, id, addr, joined.slots);
    RemoveOwned(joined.slots, id, s.regs.Keys);
    RemoveKeepsPopulated(joined.slots, id);
    PositiveCounts(s);
    ReleaseUndoesAcquire(s.conns, addr);
    CountedSlots(s, DoRemoveOwner(joined.slots, id));
    assert s.regs.Keys - {id} == s.regs.Keys;
    assert s.regs[id := Reg(addr, NeedsConn(es))].Keys == known;
  }

  lemma OwnedMore(slots: Slots, known: set<string>, id: string)
    ensures OwnedBy(slots, known) ==> OwnedBy(slots, known + {id})
  {
  }

  lemma PositiveCounts(s: State)
    ensures Counted(s) ==> forall a | a in s.conns :: s.conns[a] > 0
  {
  }

  lemma CountedSlots(s: State, slots: Slots)
    requires Counted(s)
    ensures Counted(s.(slots := slots))
  {
    hide Holders;
  }

  lemma DeregisterKeepsInv(s: State, id: string)
    requires Inv(s)
    ensures Inv(DoDeregister(s, id))
    ensures forall k, i | k in DoDeregister(s, id).slots && 0 <= i < |DoDeregister(s, id).slots[k].replicas| ::
              id in s.regs ==> DoDeregister(s, id).slots[k].replicas[i].owner != id
    ensures DoDeregister(s, id).regs == s.regs - {id}
    ensures forall k, r | k in s.slots && r in s.slots[k].replicas && r.owner != id ::
              k in DoDeregister(s, id).slots && r in DoDeregister(s, id).slots[k].replicas
  {
    hide Counted, OwnedBy, Populated, DoRemoveOwner, Release;
    if id in s.regs {
      var slots := DoRemoveOwner(s.slots, id);
      DeregisterCounts(s, id, slots);
      assert s.regs.Keys + {id} == s.regs.Keys;
      RemoveOwned(s.slots, id, s.regs.Keys);
      RemoveKeepsPopulated(s.slots, id);
      assert (s.regs - {id}).Keys == s.regs.Keys - {id};
      forall k, i: nat | k in slots && i < |slots[k].replicas| ensures slots[k].replicas[i].owner != id {
        OwnerGone(s.slots, id, k, i);
      }
      forall k, r | k in s.slots && r in s.slots[k].replicas && r.owner != id
        ensures k in slots && r in slots[k].replicas
      {
        OthersStay(s.slots, id, k);
      }
    }
  }

  /** All bindings join if and only if each joins the slots that the ones before it left. */
  lemma {:induction false} JoinAllExactly(slots: Slots, es: seq<Entry>)
    ensures JoinAll(slots, es).ok
            <==> forall i | 0 <= i < |es| :: JoinAll(slots, es[..i]).ok ==> Joins(JoinAll(slots, es[..i]).slots, es[i])
    ensures JoinAll(slots, es).ok ==>
              forall i | 0 <= i < |es| :: JoinAll(slots, es[..i]).ok
    decreases |es|
  {
    hide DoJoin, Joins;
    if es != [] {
      JoinExactly(slots, es[0]);
      assert es[..0] == [];
      var j := DoJoin(slots, es[0]);
      if j.ok {
        JoinAllExactly(j.slots, es[1..]);
        forall i | 0 < i < |es| ensures JoinAll(slots, es[..i]) == JoinAll(j.slots, es[1..][..i - 1]) {
          assert es[..i][1..] == es[1..][..i - 1];
        }
        assert forall i | 0 < i < |es| :: es[i] == es[1..][i - 1];
      }
    }
  }

  /** Then each binding's slot is as its join makes it, and the other slots are untouched. */
  lemma {:induction false} AllJoined(slots: Slots, id: string, es: seq<Entry>, k: Key)
    requires IsRequest(id, es) && JoinAll(slots, es).ok
    ensures var t := JoinAll(slots, es).slots;
            && (forall i | 0 <= i < |es| && es[i].key == k :: k in t && JoinedSlot(slots, es[i], t[k]))
            && ((forall i | 0 <= i < |es| :: es[i].key != k) ==> SameAt(t, slots, k))
    decreases |es|
  {
    hide DoJoin, JoinedSlot;
    if forall i | 0 <= i < |es| :: es[i].key != k {
      JoinAllElsewhere(slots, es, k);
    } else {
      var rest := JoinAll(DoJoin(slots, es[0]).slots, es[1..]);
      JoinExactly(slots, es[0]);
      assert forall i | 0 < i < |es| :: es[i] == es[1..][i - 1];
      if es[0].key == k {
        JoinAllElsewhere(DoJoin(slots, es[0]).slots, es[1..], k);
      } else {
        AllJoined(DoJoin(slots, es[0]).slots, id, es[1..], k);
        JoinElsewhere(slots, es[0], k);
        forall i | 0 <= i < |es| && es[i].key == k ensures JoinedSlot(slots, es[i], rest.slots[k]) {
          SameJoined(slots, DoJoin(slots, es[0]).slots, es[i], rest.slots[k]);
        }
      }
    }
  }

  lemma SameJoined(a: Slots, b: Slots, e: Entry, s: Slot)
    ensures SameAt(a, b, e.key) && JoinedSlot(b, e, s) ==> JoinedSlot(a, e, s)
  {
  }

  /** A request is accepted if and only if it has its connection, where it needs one, and all bindings join; then it is
      registered, and every slot is as its join makes it. */
  lemma RegisterExactly(s: State, id: string, addr: Addr, es: seq<Entry>, dials: bool)
    requires IsRequest(id, es)
    ensures var t := DoRegister(s, id, addr, es, dials);
            var needs := exists i | 0 <= i < |es| :: es[i].kind.ProtoKind?;
            && (t.ok <==> (needs ==> addr in s.conns || dials) && JoinAll(s.slots, es).ok)
            && (t.ok ==>
                  && t.state.regs == s.regs[id := Reg(addr, needs)]
                  && t.state.conns == (if needs then s.conns[addr := Refs(s.conns, addr) + 1] else s.conns)
                  && forall k :: (forall i | 0 <= i < |es| && es[i].key == k ::
                                    k in t.state.slots && JoinedSlot(s.slots, es[i], t.state.slots[k]))
                                 && ((forall i | 0 <= i < |es| :: es[i].key != k) ==>
                                       SameAt(t.state.slots, s.slots, k)))
  {
    hide JoinAll, JoinedSlot, DoRemoveOwner, Release, IsRequest, SameAt;
    var t := DoRegister(s, id, addr, es, dials);
    if t.ok {
      forall k ensures (forall i | 0 <= i < |es| && es[i].key == k ::
                          k in t.state.slots && JoinedSlot(s.slots, es[i], t.state.slots[k]))
                       && ((forall i | 0 <= i < |es| :: es[i].key != k) ==> SameAt(t.state.slots, s.slots, k)) {
        AllJoined(s.slots, id, es, k);
      }
    }
  }

  /** A failed registration restores everything, connections, registrations and replica lists, if and only if it swapped
      out no "unstable" slot; the connections and registrations it restores in any case. */
  lemma FailedRegisterRestores(s: State, id: string, addr: Addr, es: seq<Entry>, dials: bool)
    requires Inv(s) && id !in s.regs && id != "" && IsRequest(id, es)
    requires !DoRegister(s, id, addr, es, dials).ok
    ensures var t := DoRegister(s, id, addr, es, dials).state;
            && t.conns == s.conns && t.regs == s.regs
            && (NeedsConn(es) && addr !in s.conns && !dials ==> t == s)
            && (!(NeedsConn(es) && addr !in s.conns && !dials) ==> (t.slots == s.slots <==> !Swaps(s.slots, es)))
  {
    hide JoinAll, DoRemoveOwner, NeedsConn, Swaps, Populated, IsRequest;
    ReleaseUndoesAcquire(s.conns, addr);
    assert Fresh(s.slots, id);
    RollbackRestoresExactly(s.slots, id, es);
  }

  /** A registration that is alive loses its slot to one that fails: the second asks for the same "unstable" slot with a
      specification that cannot be read. */
  lemma FailedBehindSwap(ns: string, a: Addr, b: Addr)
    ensures var key := Key(ns, "unstable");
            var first := Entry(key, ProtoKind, "x", (0, 0), {}, true, true, Replica("", a, "1", true));
            var second := Entry(key, OpenAPIKind, "y", (0, 0), {}, true, false, Replica("", b, "2", false));
            var s := DoRegister(State(map[], map[], map[]), "1", a, [first], true);
            var t := DoRegister(s.state, "2", b, [second], true);
            && s.ok && s.state.slots == map[key := NewSlot(first)]
            && Swaps(s.state.slots, [second])
            && !t.ok && t.state.slots == map[] && "1" in t.state.regs && t.state.conns == s.state.conns
  {
    hide Others, Acquire, Release;
    var key := Key(ns, "unstable");
    var first := Entry(key, ProtoKind, "x", (0, 0), {}, true, true, Replica("", a, "1", true));
    var second := Entry(key, OpenAPIKind, "y", (0, 0), {}, true, false, Replica("", b, "2", false));
    assert [first][0] == first && [second][0] == second && [first][1..] == [];
    var none: Slots := map[];
    assert !Clash(none, first) && PolicyFor(none, first).Create?;
    assert JoinAll(none, [first]) == Joined(none[key := NewSlot(first)], true);
    assert NeedsConn([first]) && !NeedsConn([second]);
    var slots: Slots := map[key := NewSlot(first)];
    assert none[key := NewSlot(first)] == slots;
    assert !Clash(slots, second) && PolicyFor(slots, second).Swap?;
    assert slots - {key} == none;
    assert JoinAll(slots, [second]) == Joined(none, false);
    assert DoRemoveOwner(none, "2") == none;
  }

  // ------------------------------------------------------------------
  // Runs

  datatype Request = Register(id: string, addr: Addr, es: seq<Entry>, dials: bool) | Deregister(id: string)

  /** Ids of registrations are new and not empty. */
  predicate Accepts(s: State, q: Request) {
    q.Register? ==> q.id !in s.regs && q.id != "" && IsRequest(q.id, q.es)
  }

  function Serve(s: State, q: Request): State {
    match q
    case Register(id, addr, es, dials) => DoRegister(s, id, addr, es, dials).state
    case Deregister(id) => DoDeregister(s, id)
  }

  function Run(s: State, qs: seq<Request>): Option<State> {
    if qs == [] then Some(s)
    else
      var r := Run(s, qs[..|qs| - 1]);
      if r.Some? && Accepts(r.value, qs[|qs| - 1]) then Some(Serve(r.value, qs[|qs| - 1])) else None
  }

  /** Over every run of requests, each connection is counted once for each registration that holds it, and is kept
      exactly as long as there is one. */
  lemma {:induction false} RefsAreRegistrations(s: State, qs: seq<Request>)
    requires Inv(s)
    ensures Run(s, qs).Some? ==>
              var t := Run(s, qs).value;
              Inv(t) && forall a: Addr :: Refs(t.conns, a) == |Holders(t.regs, a)|
    decreases |qs|
  {
    hide DoRegister, DoDeregister, Inv, Holders;
    if qs == [] {
      CountedRefs(s);
    } else {
      RefsAreRegistrations(s, qs[..|qs| - 1]);
      var r := Run(s, qs[..|qs| - 1]);
      if r.Some? && Accepts(r.value, qs[|qs| - 1]) {
        match qs[|qs| - 1] {
          case Register(id, addr, es, dials) => RegisterKeepsInv(r.value, id, addr, es, dials);
          case Deregister(id) => DeregisterKeepsInv(r.value, id);
        }
        CountedRefs(Serve(r.value, qs[|qs| - 1]));
      }
    }
  }

  lemma CountedRefs(s: State)
    requires Inv(s)
    ensures forall a: Addr :: Refs(s.conns, a) == |Holders(s.regs, a)|
  {
    hide Holders;
    forall a: Addr ensures Refs(s.conns, a) == |Holders(s.regs, a)| {
      if a !in s.conns {
        NoHolders(s, a);
      }
    }
  }

  // ------------------------------------------------------------------
  // The control plane

  class Plane {
    const gw: Gateway
    var regs: map<string, Reg>
    var conns: map<Addr, int>

    constructor (gw: Gateway)
      ensures this.gw == gw && regs == map[] && conns == map[]
    {
      this.gw := gw;
      regs, conns := map[], map[];
    }

    function Abs(): State
      reads this, gw
    {
      State(gw.slots, regs, conns)
    }

    method AcquireConn(addr: Addr, dials: bool) returns (ok: bool)
      modifies this
      ensures ok == (addr in old(conns) || dials) && regs == old(regs)
      ensures conns == if ok then Acquire(old(conns), addr) else old(conns)
    {
      if addr in conns {
        conns := conns[addr := conns[addr] + 1];
        return true;
      }
      if !dials {
        return false;
      }
      conns := conns[addr := 1];
      return true;
    }

    method ReleaseConn(addr: Addr)
      requires addr in conns ==> conns[addr] > 0
      modifies this
      ensures conns == Release(old(conns), addr) && regs == old(regs)
    {
      if addr !in conns {
        return;
      }
      var refs := conns[addr] - 1;
      conns := conns[addr := refs];
      if refs == 0 {
        conns := conns - {addr};
      }
    }

    method RemoveOwner(id: string)
      requires Populated(gw.slots)
      modifies gw
      ensures gw.slots == DoRemoveOwner(old(gw.slots), id)
    {
      KindByKind(gw.slots, id);
      gw.RemoveReplicasByOwner(id, ProtoKind);
      gw.RemoveReplicasByOwner(id, OpenAPIKind);
      gw.RemoveReplicasByOwner(id, GraphQLKind);
    }

    method Register(id: string, addr: Addr, es: seq<Entry>, dials: bool) returns (ok: bool)
      requires Inv(Abs()) && id !in regs && id != "" && IsRequest(id, es)
      modifies this, gw
      ensures Registered(Abs(), ok) == DoRegister(old(Abs()), id, addr, es, dials)
      ensures Inv(Abs())
    {
      hide DoJoin, DoRemoveOwner, Acquire, Release, Counted, OwnedBy, Populated;
      RegisterKeepsInv(Abs(), id, addr, es, dials);
      PositiveCounts(Abs());
      RefsAcquired(conns, addr);
      ghost var start := gw.slots;
      var needs := false;
      for i := 0 to |es|
        invariant !needs && forall j | 0 <= j < i :: !es[j].kind.ProtoKind?
      {
        if es[i].kind.ProtoKind? {
          needs := true;
          break;
        }
      }
      if needs {
        ok := AcquireConn(addr, dials);
        if !ok {
          return;
        }
      }
      for i := 0 to |es|
        invariant JoinAll(start, es) == JoinAll(gw.slots, es[i..])
        invariant Populated(gw.slots)
        invariant regs == old(regs) && conns == if needs then Acquire(old(conns), addr) else old(conns)
      {
        assert es[i..][0] == es[i] && es[i..][1..] == es[i + 1..];
        JoinKeepsPopulated(gw.slots, es[i]);
        var joined := gw.JoinPool(es[i]);
        if !joined {
          RemoveOwner(id);
          if needs {
            ReleaseConn(addr);
          }
          return false;
        }
      }
      regs := regs[id := Reg(addr, needs)];
      return true;
    }

    method Deregister(id: string)
      requires Inv(Abs())
      modifies this, gw
      ensures Abs() == DoDeregister(old(Abs()), id) && Inv(Abs())
    {
      hide DoRemoveOwner, Release, Counted, OwnedBy, Populated;
      DeregisterKeepsInv(Abs(), id);
      PositiveCounts(Abs());
      if id !in regs {
        return;
      }
      var reg := regs[id];
      regs := regs - {id};
      RemoveOwner(id);
      if reg.hasConn {
        ReleaseConn(reg.addr);
      }
    }
  }
}
