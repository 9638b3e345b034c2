/**
 Stream slots: every open OpenAPI stream holds a slot of its source and one of
 the gateway, and is counted twice while it is live.
 */
module StreamSlots {
  import opened Options

  type Source = string

  /** A missing cap is a nil semaphore: nothing is held and nothing refused. */
  datatype Caps = Caps(gateway: Option<nat>, sources: map<Source, nat>)

  /** Where one call of open, and then its pump, stands. */
  datatype Pc =
    | Start
    | GotGateway
    | BackingOff
    | Slotted
    | SourceCounted
    | Live
    | SourceUncounted
    | Releasing
    | ReleasingGateway
    | Gone

  datatype Opener = Opener(source: Source, pc: Pc)

  /** What an opener can hold: a slot, or a place in one of the two live counters. */
  datatype Holding = GatewaySlot | SourceSlot(source: Source) | SourceCount(source: Source) | GatewayCount

  predicate Holds(o: Opener, h: Holding) {
    match h
    case GatewaySlot => o.pc != Start && o.pc != Gone
    case SourceSlot(x) =>
      o.source == x && (o.pc.Slotted? || o.pc.SourceCounted? || o.pc.Live? || o.pc.SourceUncounted? || o.pc.Releasing?)
    case SourceCount(x) => o.source == x && (o.pc.SourceCounted? || o.pc.Live?)
    case GatewayCount => o.pc.Live? || o.pc.SourceUncounted?
  }

  /** `held` are the fill levels of the semaphores and the values of the counters; a missing entry is zero. */
  datatype State = State(openers: map<nat, Opener>, held: map<Holding, int>)

  function Level(s: State, h: Holding): int {
    if h in s.held then s.held[h] else 0
  }

  function Limit(caps: Caps, h: Holding): Option<nat> {
    match h
    case GatewaySlot => caps.gateway
    case SourceSlot(x) => if x in caps.sources then Some(caps.sources[x]) else None
    case _ => None
  }

  predicate Tracked(caps: Caps, h: Holding) {
    h.SourceCount? || h.GatewayCount? || Limit(caps, h).Some?
  }

  // ------------------------------------------------------------------
  // The steps

  datatype Step =
    | Arrive(i: nat, source: Source)
    | TryGateway(i: nat)
    | TrySource(i: nat)
    | BackOff(i: nat)
    | OpenFails(i: nat)
    | CountSource(i: nat)
    | CountGateway(i: nat)
    | UncountSource(i: nat)
    | UncountGateway(i: nat)
    | ReleaseSource(i: nat)
    | ReleaseGateway(i: nat)

  function Move(s: State, i: nat, pc: Pc): State
    requires i in s.openers
  {
    s.(openers := s.openers[i := s.openers[i].(pc := pc)])
  }

  /** Change a semaphore or counter by one; a nil semaphore is left alone. */
  function Add(caps: Caps, s: State, h: Holding, n: int): State {
    if Tracked(caps, h) then s.(held := s.held[h := Level(s, h) + n]) else s
  }

  predicate HasRoom(caps: Caps, s: State, h: Holding) {
    Limit(caps, h).None? || Level(s, h) < Limit(caps, h).value
  }

  predicate At(s: State, i: nat, pc: Pc) {
    i in s.openers && s.openers[i].pc == pc
  }

  predicate Enabled(s: State, step: Step) {
    match step
    case Arrive(i, _) => i !in s.openers
    case TryGateway(i) => At(s, i, Start)
    case TrySource(i) => At(s, i, GotGateway)
    case BackOff(i) => At(s, i, BackingOff)
    case OpenFails(i) => At(s, i, Slotted)
    case CountSource(i) => At(s, i, Slotted)
    case CountGateway(i) => At(s, i, SourceCounted)
    case UncountSource(i) => At(s, i, Live)
    case UncountGateway(i) => At(s, i, SourceUncounted)
    case ReleaseSource(i) => At(s, i, Releasing)
    case ReleaseGateway(i) => At(s, i, ReleasingGateway)
  }

  function Do(caps: Caps, s: State, step: Step): State
    requires Enabled(s, step)
  {
    match step
    case Arrive(i, source) => s.(openers := s.openers[i := Opener(source, Start)])
    case TryGateway(i) =>
      if HasRoom(caps, s, GatewaySlot) then Add(caps, Move(s, i, GotGateway), GatewaySlot, 1) else Move(s, i, Gone)
    case TrySource(i) =>
      var h := SourceSlot(s.openers[i].source);
      if HasRoom(caps, s, h) then Add(caps, Move(s, i, Slotted), h, 1) else Move(s, i, BackingOff)
    case BackOff(i) => Add(caps, Move(s, i, Gone), GatewaySlot, -1)
    case OpenFails(i) => Move(s, i, Releasing)
    case CountSource(i) => Add(caps, Move(s, i, SourceCounted), SourceCount(s.openers[i].source), 1)
    case CountGateway(i) => Add(caps, Move(s, i, Live), GatewayCount, 1)
    case UncountSource(i) => Add(caps, Move(s, i, SourceUncounted), SourceCount(s.openers[i].source), -1)
    case UncountGateway(i) => Add(caps, Move(s, i, Releasing), GatewayCount, -1)
    case ReleaseSource(i) => Add(caps, Move(s, i, ReleasingGateway), SourceSlot(s.openers[i].source), -1)
    case ReleaseGateway(i) => Add(caps, Move(s, i, Gone), GatewaySlot, -1)
  }

  // ------------------------------------------------------------------
  // The invariant

  function Holders(s: State, h: Holding): set<nat> {
    set i | i in s.openers && Holds(s.openers[i], h)
  }

  predicate Balanced(caps: Caps, s: State, h: Holding) {
    && Level(s, h) == (if Tracked(caps, h) then |Holders(s, h)| else 0)
    && (Limit(caps, h).Some? ==> Level(s, h) <= Limit(caps, h).value)
  }

  ghost predicate Inv(caps: Caps, s: State) {
    forall h :: Balanced(caps, s, h)
  }

  lemma HoldersUpdate(s: State, i: nat, o: Opener, h: Holding)
    ensures var t := s.(openers := s.openers[i := o]);
            |Holders(t, h)| == |Holders(s, h)| - (if i in s.openers && Holds(s.openers[i], h) then 1 else 0)
                               + (if Holds(o, h) then 1 else 0)
  {
    hide Holds;
    var t := s.(openers := s.openers[i := o]);
    var rest := Holders(s, h) - {i};
    SplitHolders(s, i, h);
    SplitHolders(t, i, h);
    assert Holders(t, h) - {i} == rest;
  }

  lemma SplitHolders(s: State, i: nat, h: Holding)
    ensures |Holders(s, h)| == |Holders(s, h) - {i}| + if i in s.openers && Holds(s.openers[i], h) then 1 else 0
  {
    hide Holds;
    if i in Holders(s, h) {
      assert Holders(s, h) == (Holders(s, h) - {i}) + {i};
    } else {
      assert Holders(s, h) - {i} == Holders(s, h);
    }
  }

  lemma HoldersSame(s: State, t: State, h: Holding)
    ensures s.openers == t.openers ==> Holders(s, h) == Holders(t, h)
  {
  }

  lemma AddLevel(h: Holding)
    ensures forall s: State, openers :: Level(s.(openers := openers), h) == Level(s, h)
    ensures forall caps, s, x, n ::
              var t := Add(caps, s, x, n);
              t.openers == s.openers && Level(t, h) == Level(s, h) + if h == x && Tracked(caps, x) then n else 0
  {
  }

  /** A step moves one opener, and its level changes with what that opener holds; it rises only where there is room. */
  predicate Follows(caps: Caps, s: State, step: Step, h: Holding)
    requires Enabled(s, step)
  {
    var t := Do(caps, s, step);
    && step.i in t.openers && t.openers == s.openers[step.i := t.openers[step.i]]
    && Level(t, h) == Level(s, h) + (
         if !Tracked(caps, h) then 0
         else (if Holds(t.openers[step.i], h) then 1 else 0)
              - (if step.i in s.openers && Holds(s.openers[step.i], h) then 1 else 0))
    && (Limit(caps, h).Some? && Level(t, h) > Level(s, h) ==> Level(t, h) <= Limit(caps, h).value)
  }

  lemma OpeningFollows(caps: Caps, s: State, step: Step, h: Holding)
    requires Enabled(s, step)
    requires step.Arrive? || step.TryGateway? || step.TrySource? || step.BackOff? || step.OpenFails?
    ensures Follows(caps, s, step, h)
  {
    AddLevel(h);
    hide Add, Level, Tracked;
  }

  lemma CountingFollows(caps: Caps, s: State, step: Step, h: Holding)
    requires Enabled(s, step)
    requires step.CountSource? || step.CountGateway? || step.UncountSource? || step.UncountGateway?
    ensures Follows(caps, s, step, h)
  {
    AddLevel(h);
    hide Add, Level, Tracked;
  }

  lemma ReleasingFollows(caps: Caps, s: State, step: Step, h: Holding)
    requires Enabled(s, step) && (step.ReleaseSource? || step.ReleaseGateway?)
    ensures Follows(caps, s, step, h)
  {
    AddLevel(h);
    hide Add, Level, Tracked;
  }

  lemma StepKeepsBalance(caps: Caps, s: State, step: Step, h: Holding)
    requires Balanced(caps, s, h) && Enabled(s, step)
    ensures Balanced(caps, Do(caps, s, step), h)
  {
    hide Holders, Do, Enabled, Holds, Level;
    var t := Do(caps, s, step);
    match step {
      case CountSource(_) => CountingFollows(caps, s, step, h);
      case CountGateway(_) => CountingFollows(caps, s, step, h);
      case UncountSource(_) => CountingFollows(caps, s, step, h);
      case UncountGateway(_) => CountingFollows(caps, s, step, h);
      case ReleaseSource(_) => ReleasingFollows(caps, s, step, h);
      case ReleaseGateway(_) => ReleasingFollows(caps, s, step, h);
      case _ => OpeningFollows(caps, s, step, h);
    }
    HoldersUpdate(s, step.i, t.openers[step.i], h);
    HoldersSame(s.(openers := t.openers), t, h);
  }

  lemma StepKeepsInv(caps: Caps, s: State, step: Step)
    requires Inv(caps, s) && Enabled(s, step)
    ensures Inv(caps, Do(caps, s, step))
  {
    hide Do, Enabled, Balanced;
    forall h ensures Balanced(caps, Do(caps, s, step), h) {
      StepKeepsBalance(caps, s, step, h);
    }
  }

  function Run(caps: Caps, steps: seq<Step>): Option<State> {
    if steps == [] then Some(State(map[], map[]))
    else
      var r := Run(caps, steps[..|steps| - 1]);
      if r.Some? && Enabled(r.value, steps[|steps| - 1]) then Some(Do(caps, r.value, steps[|steps| - 1])) else None
  }

  lemma StartInv(caps: Caps)
    ensures Inv(caps, State(map[], map[]))
  {
    forall h ensures Balanced(caps, State(map[], map[]), h) {
      assert Holders(State(map[], map[]), h) == {};
    }
  }

  lemma {:induction false} RunKeepsInv(caps: Caps, steps: seq<Step>)
    ensures Run(caps, steps).Some? ==> Inv(caps, Run(caps, steps).value)
    decreases |steps|
  {
    hide Do, Enabled, Inv;
    StartInv(caps);
    if steps != [] {
      var r := Run(caps, steps[..|steps| - 1]);
      RunKeepsInv(caps, steps[..|steps| - 1]);
      if r.Some? && Enabled(r.value, steps[|steps| - 1]) {
        StepKeepsInv(caps, r.value, steps[|steps| - 1]);
      }
    }
  }

  /** Over every interleaving no cap is exceeded. */
  lemma CapsKept(caps: Caps, steps: seq<Step>, h: Holding)
    requires Run(caps, steps).Some? && Limit(caps, h).Some?
    ensures |Holders(Run(caps, steps).value, h)| <= Limit(caps, h).value
  {
    hide Run;
    RunKeepsInv(caps, steps);
    assert Balanced(caps, Run(caps, steps).value, h);
  }

  /** An opener is turned away exactly if its cap is taken up by others: at the gateway it is gone at once, at the
      source it gives its gateway slot back first. */
  lemma RefusedExactlyIfFull(caps: Caps, steps: seq<Step>, i: nat)
    requires Run(caps, steps).Some? && i in Run(caps, steps).value.openers
    ensures var s := Run(caps, steps).value;
            var full := caps.gateway.Some? && |Holders(s, GatewaySlot)| == caps.gateway.value;
            At(s, i, Start) ==> Do(caps, s, TryGateway(i)).openers[i].pc == if full then Gone else GotGateway
    ensures var s := Run(caps, steps).value;
            var x := s.openers[i].source;
            var full := x in caps.sources && |Holders(s, SourceSlot(x))| == caps.sources[x];
            At(s, i, GotGateway) ==> Do(caps, s, TrySource(i)).openers[i].pc == if full then BackingOff else Slotted
  {
    hide Run, Holders;
    RunKeepsInv(caps, steps);
    var s := Run(caps, steps).value;
    assert Balanced(caps, s, GatewaySlot) && Balanced(caps, s, SourceSlot(s.openers[i].source));
  }

  /** The step takes a slot back from a semaphore. */
  function Returns(s: State, step: Step): Option<Holding>
    requires Enabled(s, step)
  {
    match step
    case BackOff(_) => Some(GatewaySlot)
    case ReleaseSource(i) => Some(SourceSlot(s.openers[i].source))
    case ReleaseGateway(_) => Some(GatewaySlot)
    case _ => None
  }

  /** Giving a slot back never blocks: the semaphore holds the caller's slot. */
  lemma ReleaseNeverBlocks(caps: Caps, steps: seq<Step>, step: Step)
    requires Run(caps, steps).Some? && Enabled(Run(caps, steps).value, step)
    requires Returns(Run(caps, steps).value, step).Some?
    requires Limit(caps, Returns(Run(caps, steps).value, step).value).Some?
    ensures Level(Run(caps, steps).value, Returns(Run(caps, steps).value, step).value) > 0
  {
    hide Run;
    RunKeepsInv(caps, steps);
    var s := Run(caps, steps).value;
    var h := Returns(s, step).value;
    assert Balanced(caps, s, h);
    assert step.i in Holders(s, h);
  }

  // ------------------------------------------------------------------
  // The sum over all sources

  /** Openers that hold the gateway's slot but none of a source: between the two acquires, or between the two
      releases. */
  function Between(s: State): set<nat> {
    set i | i in s.openers
            && (s.openers[i].pc.GotGateway? || s.openers[i].pc.BackingOff? || s.openers[i].pc.ReleasingGateway?)
  }

  ghost function SumHolders(s: State, sources: set<Source>): nat {
    if sources == {} then 0
    else
      var x :| x in sources;
      |Holders(s, SourceSlot(x))| + SumHolders(s, sources - {x})
  }

  function HoldersIn(s: State, sources: set<Source>): set<nat> {
    set i | i in s.openers && s.openers[i].source in sources && Holds(s.openers[i], SourceSlot(s.openers[i].source))
  }

  lemma {:induction false} SumIsHoldersIn(s: State, sources: set<Source>)
    ensures SumHolders(s, sources) == |HoldersIn(s, sources)|
    decreases sources
  {
    if sources == {} {
      assert HoldersIn(s, sources) == {};
    } else {
      var x :| x in sources && SumHolders(s, sources) == |Holders(s, SourceSlot(x))| + SumHolders(s, sources - {x});
      SumIsHoldersIn(s, sources - {x});
      assert HoldersIn(s, sources) == HoldersIn(s, sources - {x}) + Holders(s, SourceSlot(x));
      assert HoldersIn(s, sources - {x}) !! Holders(s, SourceSlot(x));
    }
  }

  function Sources(s: State): set<Source> {
    set i | i in s.openers :: s.openers[i].source
  }

  /** Over every interleaving, the gateway's held slots are the slots held of all sources and those of the openers in
      between. */
  lemma GatewaySlotsAddUp(caps: Caps, steps: seq<Step>)
    requires Run(caps, steps).Some? && caps.gateway.Some?
    ensures var s := Run(caps, steps).value;
            Level(s, GatewaySlot) == SumHolders(s, Sources(s)) + |Between(s)|
  {
    hide Run, Holders, HoldersIn, Between, Sources;
    RunKeepsInv(caps, steps);
    var s := Run(caps, steps).value;
    assert Balanced(caps, s, GatewaySlot);
    SumIsHoldersIn(s, Sources(s));
    GatewayHoldersSplit(s);
  }

  lemma GatewayHoldersSplit(s: State)
    ensures |Holders(s, GatewaySlot)| == |HoldersIn(s, Sources(s))| + |Between(s)|
  {
    var a, b := HoldersIn(s, Sources(s)), Between(s);
    forall i ensures i in Holders(s, GatewaySlot) <==> i in a || i in b {
      if i in s.openers {
        assert s.openers[i].source in Sources(s);
      }
    }
    assert Holders(s, GatewaySlot) == a + b;
    assert a !! b;
  }

  predicate AtRest(s: State) {
    forall i | i in s.openers :: s.openers[i].pc.Live? || s.openers[i].pc.Gone?
  }

  function LiveStreams(s: State): set<nat> {
    set i | i in s.openers && s.openers[i].pc.Live?
  }

  function LiveOf(s: State, x: Source): set<nat> {
    set i | i in s.openers && s.openers[i].pc.Live? && s.openers[i].source == x
  }

  /** When nobody is opening or closing a stream, the live counters, the held slots and the live streams agree: every
      opener that failed or ended has given back exactly what it took. */
  lemma CountsAtRest(caps: Caps, steps: seq<Step>, x: Source)
    requires Run(caps, steps).Some? && AtRest(Run(caps, steps).value)
    ensures var s := Run(caps, steps).value;
            && Level(s, GatewayCount) == |LiveStreams(s)|
            && Level(s, SourceCount(x)) == |LiveOf(s, x)|
            && (caps.gateway.Some? ==> Level(s, GatewaySlot) == |LiveStreams(s)|)
            && (x in caps.sources ==> Level(s, SourceSlot(x)) == |LiveOf(s, x)|)
  {
    hide Run;
    RunKeepsInv(caps, steps);
    var s := Run(caps, steps).value;
    assert Balanced(caps, s, GatewayCount) && Balanced(caps, s, SourceCount(x));
    assert Balanced(caps, s, GatewaySlot) && Balanced(caps, s, SourceSlot(x));
    assert Holders(s, GatewayCount) == LiveStreams(s) == Holders(s, GatewaySlot);
    assert Holders(s, SourceCount(x)) == LiveOf(s, x) == Holders(s, SourceSlot(x));
  }

  // ------------------------------------------------------------------
  // One dispatcher

  /** A buffered channel used as a semaphore. */
  class Semaphore {
    const cap: nat
    var level: nat

    constructor (cap: nat)
      ensures this.cap == cap && level == 0
    {
      this.cap := cap;
      level := 0;
    }

    method TryAcquire() returns (ok: bool)
      modifies this
      ensures ok == (old(level) < cap) && level == old(level) + if ok then 1 else 0
    {
      ok := level < cap;
      if ok {
        level := level + 1;
      }
    }

    method Release()
      requires level > 0
      modifies this
      ensures level == old(level) - 1
    {
      level := level - 1;
    }
  }

  class Dispatcher {
    const gateway: Semaphore?
    const source: Semaphore?
    var streamInflight: int
    var streamGlobal: int

    constructor (gateway: Semaphore?, source: Semaphore?)
      ensures this.gateway == gateway && this.source == source && streamInflight == 0 && streamGlobal == 0
    {
      this.gateway, this.source := gateway, source;
      streamInflight, streamGlobal := 0, 0;
    }

    function Footprint(): set<object> {
      (if gateway == null then {} else {gateway}) + (if source == null then {} else {source})
    }

    predicate Separate() {
      gateway == null || source == null || gateway != source
    }

    /** Slots are taken from both semaphores or from neither. */
    method AcquireStreamSlots() returns (ok: bool)
      requires Separate()
      modifies Footprint()
      ensures ok <==> (gateway != null ==> old(gateway.level) < gateway.cap)
                      && (source != null ==> old(source.level) < source.cap)
      ensures gateway != null ==> gateway.level == old(gateway.level) + if ok then 1 else 0
      ensures source != null ==> source.level == old(source.level) + if ok then 1 else 0
    {
      if gateway != null {
        ok := gateway.TryAcquire();
        if !ok {
          return;
        }
      }
      if source != null {
        ok := source.TryAcquire();
        if !ok {
          if gateway != null {
            gateway.Release();
          }
          return;
        }
      }
      return true;
    }

    method Release()
      requires Separate()
      requires (gateway != null ==> gateway.level > 0) && (source != null ==> source.level > 0)
      modifies Footprint()
      ensures gateway != null ==> gateway.level == old(gateway.level) - 1
      ensures source != null ==> source.level == old(source.level) - 1
    {
      if source != null {
        source.Release();
      }
      if gateway != null {
        gateway.Release();
      }
    }

    /** `hasReplica` and `answered` are what the pool and the upstream say.  A failed open leaves everything as it
        was. */
    method Open(hasReplica: bool, answered: bool) returns (ok: bool)
      requires Separate() && this !in Footprint()
      modifies this, Footprint()
      ensures ok <==> hasReplica && answered && (gateway != null ==> old(gateway.level) < gateway.cap)
                      && (source != null ==> old(source.level) < source.cap)
      ensures ok ==> streamInflight == old(streamInflight) + 1 && streamGlobal == old(streamGlobal) + 1
      ensures !ok ==> streamInflight == old(streamInflight) && streamGlobal == old(streamGlobal)
      ensures gateway != null ==> gateway.level == old(gateway.level) + if ok then 1 else 0
      ensures source != null ==> source.level == old(source.level) + if ok then 1 else 0
    {
      ok := AcquireStreamSlots();
      if !ok {
        return;
      }
      if !hasReplica {
        Release();
        return false;
      }
      if !answered {
        Release();
        return false;
      }
      streamInflight := streamInflight + 1;
      streamGlobal := streamGlobal + 1;
    }

    /** The pump's cleanup undoes a successful open. */
    method EndStream()
      requires Separate() && this !in Footprint()
      requires (gateway != null ==> gateway.level > 0) && (source != null ==> source.level > 0)
      modifies this, Footprint()
      ensures streamInflight == old(streamInflight) - 1 && streamGlobal == old(streamGlobal) - 1
      ensures gateway != null ==> gateway.level == old(gateway.level) - 1
      ensures source != null ==> source.level == old(source.level) - 1
    {
      streamInflight := streamInflight - 1;
      streamGlobal := streamGlobal - 1;
      Release();
    }
  }
}
