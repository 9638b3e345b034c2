/**
 The pub/sub bus that switches between NATS and a local bus, one step at a
 time.
 */
module FailoverBus {
  import opened ChannelAuth
  import opened Options

  /** A registration on one of the two buses: what it listens to, and for which subscription. */
  datatype Reg = Reg(pattern: string, owner: nat)

  /** A bus numbers its registrations. */
  datatype Side = Side(regs: map<nat, Reg>, next: nat) {
    function Add(r: Reg): Side {
      Side(regs[next := r], next + 1)
    }

    function Remove(n: nat): Side {
      Side(regs - {n}, next)
    }
  }

  datatype Sub = Sub(pattern: string, localReg: nat, primaryReg: Option<nat>)

  /** What an unsubscribe has still to undo. */
  datatype Leaving = Leaving(localReg: Option<nat>, primaryReg: Option<nat>)

  /** `binding` holds the subscriptions that a refresh under way has still to look at; `missed`, those that NATS refused
      during the last refresh that went back to it. */
  datatype State = State(
    connected: bool,
    degraded: bool,
    subs: map<nat, Sub>,
    nextID: nat,
    local: Side,
    primary: Side,
    leaving: map<nat, Leaving>,
    binding: Option<set<nat>>,
    missed: set<nat>)

  /** How NATS answers a publish. */
  datatype Reply = Sent | Gone | Failed

  datatype Route = OverNats | OverLocal | Nowhere

  /** The mode is read without the bus's lock, so that a refresh that goes back to NATS is a step for its start, one for
      each subscription it binds, and one for the switch; the unsubscribe closure works in three steps.  While a refresh
      is under way it has the lock: nobody subscribes or begins to unsubscribe. */
  datatype Step =
    | Degrade
    | BeginRebind
    | BindOne(id: nat, ok: bool)
    | Switch
    | Subscribe(pattern: string, natsOk: bool)
    | UnsubBegin(id: nat)
    | UnsubLocal(id: nat)
    | UnsubPrimary(id: nat)

  /** `connected` says whether there is a NATS connection at all. */
  predicate IsStart(s: State) {
    && s.subs == map[] && s.nextID == 0 && s.local == Side(map[], 0) && s.primary == Side(map[], 0)
    && s.leaving == map[] && s.missed == {} && s.binding == None && (!s.connected ==> s.degraded)
  }

  // ------------------------------------------------------------------
  // The steps

  /** What a refresh that goes back to NATS may change: subscriptions without a NATS side, among those it has looked at,
      have gained one, unless NATS refused them. */
  predicate Rebound(before: map<nat, Sub>, left: set<nat>, fails: set<nat>, after: map<nat, Sub>) {
    && after.Keys == before.Keys
    && forall id | id in before ::
         if id in left || before[id].primaryReg.Some? || id in fails then after[id] == before[id]
         else after[id].primaryReg.Some? && after[id] == before[id].(primaryReg := after[id].primaryReg)
  }

  /** The steps of a whole refresh that goes back to NATS, where NATS refuses the subscriptions in `fails`: the start,
      the bindings, and only then the switch. */
  predicate RebindSteps(steps: seq<Step>, fails: set<nat>) {
    && |steps| >= 2 && steps[0] == BeginRebind && steps[|steps| - 1] == Switch
    && forall i | 0 < i < |steps| - 1 :: steps[i].BindOne? && (steps[i].ok <==> steps[i].id !in fails)
  }

  function DoBindOne(s: State, id: nat, ok: bool): State
    requires s.binding.Some? && id in s.subs
  {
    var next := s.(binding := Some(s.binding.value - {id}));
    if s.subs[id].primaryReg.Some? then next
    else if !ok then next.(missed := s.missed + {id})
    else
      next.(subs := s.subs[id := s.subs[id].(primaryReg := Some(s.primary.next))],
            primary := s.primary.Add(Reg(s.subs[id].pattern, id)))
  }

  /** While healthy, a subscription needs both sides; while degraded the local one will do. */
  function DoSubscribe(s: State, pattern: string, natsOk: bool): State {
    if pattern == "" then s
    else
      var id := s.nextID;
      var reg := Reg(pattern, id);
      if s.connected && natsOk then
        s.(subs := s.subs[id := Sub(pattern, s.local.next, Some(s.primary.next))], nextID := id + 1,
           local := s.local.Add(reg), primary := s.primary.Add(reg))
      else if s.connected && !s.degraded then s.(local := Side(s.local.regs, s.local.next + 1))
      else s.(subs := s.subs[id := Sub(pattern, s.local.next, None)], nextID := id + 1, local := s.local.Add(reg))
  }

  function DoUnsubBegin(s: State, id: nat): State
    requires id in s.subs
  {
    s.(subs := s.subs - {id}, leaving := s.leaving[id := Leaving(Some(s.subs[id].localReg), s.subs[id].primaryReg)])
  }

  function DoUnsubLocal(s: State, id: nat): State
    requires id in s.leaving && s.leaving[id].localReg.Some?
  {
    s.(local := s.local.Remove(s.leaving[id].localReg.value),
       leaving := s.leaving[id := s.leaving[id].(localReg := None)])
  }

  function DoUnsubPrimary(s: State, id: nat): State
    requires id in s.leaving && s.leaving[id].primaryReg.Some?
  {
    s.(primary := s.primary.Remove(s.leaving[id].primaryReg.value),
       leaving := s.leaving[id := s.leaving[id].(primaryReg := None)])
  }

  predicate Next(s: State, step: Step, t: State) {
    match step
    case Degrade => s.connected && !s.degraded && s.binding.None? && t == s.(degraded := true)
    case BeginRebind =>
      s.connected && s.degraded && s.binding.None? && t == s.(binding := Some(s.subs.Keys), missed := {})
    case BindOne(id, ok) =>
      s.binding.Some? && id in s.binding.value && id in s.subs && t == DoBindOne(s, id, ok)
    case Switch => s.binding == Some({}) && t == s.(binding := None, degraded := false)
    case Subscribe(pattern, natsOk) => s.binding.None? && t == DoSubscribe(s, pattern, natsOk)
    case UnsubBegin(id) => s.binding.None? && id in s.subs && t == DoUnsubBegin(s, id)
    case UnsubLocal(id) => id in s.leaving && s.leaving[id].localReg.Some? && t == DoUnsubLocal(s, id)
    case UnsubPrimary(id) =>
      id in s.leaving && s.leaving[id].localReg.None? && s.leaving[id].primaryReg.Some? && t == DoUnsubPrimary(s, id)
  }

  // ------------------------------------------------------------------
  // The invariant

  predicate SubsRegistered(s: State) {
    forall id | id in s.subs ::
      var x := s.subs[id];
      && id < s.nextID && id !in s.leaving
      && x.localReg in s.local.regs && s.local.regs[x.localReg] == Reg(x.pattern, id)
      && (x.primaryReg.Some? ==>
            x.primaryReg.value in s.primary.regs && s.primary.regs[x.primaryReg.value] == Reg(x.pattern, id))
  }

  predicate LeavingRegistered(s: State) {
    forall id | id in s.leaving ::
      var x := s.leaving[id];
      && id < s.nextID
      && (x.localReg.Some? ==> x.localReg.value in s.local.regs && s.local.regs[x.localReg.value].owner == id)
      && (x.primaryReg.Some? ==> x.primaryReg.value in s.primary.regs && s.primary.regs[x.primaryReg.value].owner == id)
  }

  predicate Registered(s: State) {
    SubsRegistered(s) && LeavingRegistered(s)
  }

  /** Every registration is the one its owner knows of. */
  predicate LocalOwned(s: State) {
    forall r | r in s.local.regs ::
      var id := s.local.regs[r].owner;
      && r < s.local.next
      && (id in s.subs || id in s.leaving)
      && (id in s.subs ==> s.subs[id].localReg == r)
      && (id in s.leaving ==> s.leaving[id].localReg == Some(r))
  }

  predicate PrimaryOwned(s: State) {
    forall r | r in s.primary.regs ::
      var id := s.primary.regs[r].owner;
      && r < s.primary.next
      && (id in s.subs || id in s.leaving)
      && (id in s.subs ==> s.subs[id].primaryReg == Some(r))
      && (id in s.leaving ==> s.leaving[id].primaryReg == Some(r))
  }

  predicate Numbered(side: Side) {
    forall r | r in side.regs :: r < side.next
  }

  /** Once a refresh has looked at a subscription, and always while healthy, it has no NATS side exactly if NATS refused
      it. */
  predicate ModeSound(s: State) {
    && (!s.connected ==> s.degraded && s.binding.None?)
    && (s.binding.Some? ==> s.degraded && s.binding.value <= s.subs.Keys)
    && (forall id | id in s.missed :: id < s.nextID)
    && (s.binding.Some? || !s.degraded ==>
          forall id | id in s.subs && (s.binding.Some? ==> id !in s.binding.value) ::
            s.subs[id].primaryReg.None? <==> id in s.missed)
    && (s.binding.Some? ==> s.binding.value !! s.missed)
  }

  predicate Inv(s: State) {
    Registered(s) && LocalOwned(s) && PrimaryOwned(s) && ModeSound(s)
  }

  lemma BindOneKeepsInv(s: State, id: nat, ok: bool)
    requires Inv(s) && s.binding.Some? && id in s.binding.value && id in s.subs
    ensures Inv(DoBindOne(s, id, ok))
  {
    BindOneKeepsRegistered(s, id, ok);
    BindOneKeepsOwned(s, id, ok);
    hide SubsRegistered, LeavingRegistered, LocalOwned, PrimaryOwned;
  }

  lemma BindOneKeepsRegistered(s: State, id: nat, ok: bool)
    requires Inv(s) && s.binding.Some? && id in s.subs
    ensures Registered(DoBindOne(s, id, ok))
  {
    hide ModeSound, LocalOwned;
  }

  lemma BindOneKeepsOwned(s: State, id: nat, ok: bool)
    requires Inv(s) && s.binding.Some? && id in s.subs
    ensures LocalOwned(DoBindOne(s, id, ok)) && PrimaryOwned(DoBindOne(s, id, ok))
  {
    hide ModeSound, LeavingRegistered;
  }

  lemma ModeKeepsInv(s: State, step: Step, t: State)
    requires Inv(s) && Next(s, step, t) && (step.Degrade? || step.BeginRebind? || step.Switch?)
    ensures Inv(t)
  {
  }

  lemma SubscribeKeepsInv(s: State, pattern: string, natsOk: bool)
    requires Inv(s) && s.binding.None?
    ensures Inv(DoSubscribe(s, pattern, natsOk))
  {
    hide SubsRegistered, LeavingRegistered, LocalOwned, PrimaryOwned, ModeSound;
    SubscribeKeepsRegistered(s, pattern, natsOk);
    SubscribeKeepsOwned(s, pattern, natsOk);
    SubscribeKeepsMode(s, pattern, natsOk);
  }

  lemma SubscribeKeepsRegistered(s: State, pattern: string, natsOk: bool)
    requires Inv(s)
    ensures Registered(DoSubscribe(s, pattern, natsOk))
  {
    hide ModeSound;
  }

  lemma SubscribeKeepsOwned(s: State, pattern: string, natsOk: bool)
    requires Inv(s)
    ensures LocalOwned(DoSubscribe(s, pattern, natsOk)) && PrimaryOwned(DoSubscribe(s, pattern, natsOk))
  {
    hide ModeSound;
  }

  lemma SubscribeKeepsMode(s: State, pattern: string, natsOk: bool)
    ensures ModeSound(s) && s.binding.None? ==> ModeSound(DoSubscribe(s, pattern, natsOk))
  {
  }

  lemma UnsubBeginKeepsInv(s: State, id: nat)
    requires Inv(s) && id in s.subs && s.binding.None?
    ensures Inv(DoUnsubBegin(s, id))
  {
  }

  lemma UnsubLocalKeepsInv(s: State, id: nat)
    requires Inv(s) && id in s.leaving && s.leaving[id].localReg.Some?
    ensures Inv(DoUnsubLocal(s, id))
  {
  }

  lemma UnsubPrimaryKeepsInv(s: State, id: nat)
    requires Inv(s) && id in s.leaving && s.leaving[id].primaryReg.Some?
    ensures Inv(DoUnsubPrimary(s, id))
  {
  }

  lemma StepKeepsInv(s: State, step: Step, t: State)
    requires Inv(s) && Next(s, step, t)
    ensures Inv(t)
  {
    hide Inv;
    match step
    case BindOne(id, ok) => BindOneKeepsInv(s, id, ok);
    case Subscribe(pattern, natsOk) => SubscribeKeepsInv(s, pattern, natsOk);
    case UnsubBegin(id) => UnsubBeginKeepsInv(s, id);
    case UnsubLocal(id) => UnsubLocalKeepsInv(s, id);
    case UnsubPrimary(id) => UnsubPrimaryKeepsInv(s, id);
    case _ => ModeKeepsInv(s, step, t);
  }

  // ------------------------------------------------------------------
  // Runs and deliveries

  predicate IsRun(states: seq<State>, steps: seq<Step>) {
    && |states| == |steps| + 1 && IsStart(states[0])
    && forall i | 0 <= i < |steps| :: Next(states[i], steps[i], states[i + 1])
  }

  lemma {:induction false} RunKeepsInv(states: seq<State>, steps: seq<Step>, n: nat)
    requires IsRun(states, steps) && n < |states|
    ensures Inv(states[n])
    decreases n
  {
    hide Next, Inv;
    if n == 0 {
      StartInv(states[0]);
    } else {
      RunKeepsInv(states, steps, n - 1);
      StepKeepsInv(states[n - 1], steps[n - 1], states[n]);
    }
  }

  lemma StartInv(s: State)
    ensures IsStart(s) ==> Inv(s)
  {
  }

  /** What a publish reads: NATS is up, or it is not. */
  datatype Mode = Healthy | Degraded

  function ModeOf(s: State): Mode {
    if s.connected && !s.degraded then Healthy else Degraded
  }

  /** NATS was up when the mode was read. */
  predicate ReadHealthy(s: State) {
    s.connected && !s.degraded
  }

  /** The bus a publish goes to that has read this mode. */
  function RouteFor(mode: Mode, reply: Reply): Route {
    match mode
    case Degraded => OverLocal
    case Healthy =>
      match reply
      case Sent => OverNats
      case Gone => OverLocal
      case Failed => Nowhere
  }

  /** The registrations through which a subscription hears of an event on one bus. */
  function Heard(side: Side, id: nat, channel: string): set<nat> {
    set r | r in side.regs && side.regs[r].owner == id && ChannelMatches(side.regs[r].pattern, channel)
  }

  /** How often a subscription hears of one publish. */
  function Times(s: State, route: Route, id: nat, channel: string): nat {
    match route
    case OverNats => |Heard(s.primary, id, channel)|
    case OverLocal => |Heard(s.local, id, channel)|
    case Nowhere => 0
  }

  lemma StepKeepsSub(s: State, step: Step, t: State, id: nat)
    requires Inv(s) && Next(s, step, t) && id in s.subs && id in t.subs
    ensures t.subs[id].pattern == s.subs[id].pattern && t.subs[id].localReg == s.subs[id].localReg
    ensures s.subs[id].primaryReg.Some? ==> t.subs[id].primaryReg == s.subs[id].primaryReg
  {
  }

  /** A subscription that is live twice has been live in between, and has kept its sides. */
  lemma {:induction false} SidesKept(states: seq<State>, steps: seq<Step>, m: nat, n: nat, id: nat)
    requires IsRun(states, steps) && m <= n < |states| && id in states[m].subs
    ensures id < states[n].nextID
    ensures id in states[n].subs ==>
              && states[n].subs[id].pattern == states[m].subs[id].pattern
              && states[n].subs[id].localReg == states[m].subs[id].localReg
              && (states[m].subs[id].primaryReg.Some? ==>
                    states[n].subs[id].primaryReg == states[m].subs[id].primaryReg)
    decreases n
  {
    hide Next, Inv;
    RunKeepsInv(states, steps, n);
    if n == m {
      InvIds(states[n], id);
    } else {
      RunKeepsInv(states, steps, n - 1);
      SidesKept(states, steps, m, n - 1, id);
      if id in states[n - 1].subs && id in states[n].subs {
        StepKeepsSub(states[n - 1], steps[n - 1], states[n], id);
      } else if id !in states[n - 1].subs {
        NeverRebound(states[n - 1], steps[n - 1], states[n], id);
      }
      if id in states[n - 1].subs {
        IdsGrow(states[n - 1], steps[n - 1], states[n]);
      }
    }
  }

  lemma InvIds(s: State, id: nat)
    ensures Inv(s) && id in s.subs ==> id < s.nextID
  {
  }

  lemma IdsGrow(s: State, step: Step, t: State)
    ensures Next(s, step, t) ==> s.nextID <= t.nextID
  {
  }

  /** A publish reads the mode in one state and hands the event over in a later one, with any steps in between.  Only a
      publish that read NATS as up and that NATS refuses for another reason than a lost connection fails.  A
      subscription that is live then hears of it once; not at all exactly if NATS takes the event while the subscription
      has no NATS side.  If it was live already when the mode was read, that happens only if NATS had refused it at the
      last switch before. */
  lemma ExactlyOnce(
    states: seq<State>, steps: seq<Step>, m: nat, n: nat, id: nat, channel: string, reply: Reply)
    requires IsRun(states, steps) && m <= n < |states| && id in states[n].subs
    requires ChannelMatches(states[n].subs[id].pattern, channel)
    requires !(ReadHealthy(states[m]) && reply.Failed?)
    ensures var route := RouteFor(ModeOf(states[m]), reply);
            var lost := ReadHealthy(states[m]) && reply.Sent? && states[n].subs[id].primaryReg.None?;
            && Times(states[n], route, id, channel) == (if lost then 0 else 1)
            && (lost && id in states[m].subs ==> id in states[m].missed)
  {
    hide ChannelMatches, Next;
    RunKeepsInv(states, steps, m);
    RunKeepsInv(states, steps, n);
    LocalHeard(states[n], id, channel);
    PrimaryHeard(states[n], id, channel);
    if id in states[m].subs {
      SidesKept(states, steps, m, n, id);
    }
  }

  /** If NATS refused nobody at the last switch, every subscription that is live from the reading of the mode to the
      hand-over hears of the event exactly once, on whichever bus it goes. */
  lemma ExactlyOnceIfRebound(
    states: seq<State>, steps: seq<Step>, m: nat, n: nat, id: nat, channel: string, reply: Reply)
    requires IsRun(states, steps) && m <= n < |states| && id in states[m].subs && id in states[n].subs
    requires ChannelMatches(states[m].subs[id].pattern, channel)
    requires !(ReadHealthy(states[m]) && reply.Failed?) && id !in states[m].missed
    ensures Times(states[n], RouteFor(ModeOf(states[m]), reply), id, channel) == 1
  {
    hide ChannelMatches, Next, Times;
    SidesKept(states, steps, m, n, id);
    ExactlyOnce(states, steps, m, n, id, channel, reply);
  }

  lemma LocalHeard(s: State, id: nat, channel: string)
    requires Inv(s) && id in s.subs && ChannelMatches(s.subs[id].pattern, channel)
    ensures Heard(s.local, id, channel) == {s.subs[id].localReg}
  {
    hide ChannelMatches;
  }

  lemma PrimaryHeard(s: State, id: nat, channel: string)
    requires Inv(s) && id in s.subs && ChannelMatches(s.subs[id].pattern, channel)
    ensures Heard(s.primary, id, channel)
            == if s.subs[id].primaryReg.None? then {} else {s.subs[id].primaryReg.value}
  {
    hide ChannelMatches;
  }

  /** An unsubscribe that has finished leaves nothing behind on either bus. */
  lemma GoneForGood(states: seq<State>, steps: seq<Step>, n: nat, id: nat, channel: string)
    requires IsRun(states, steps) && n < |states|
    requires id in states[n].leaving && states[n].leaving[id] == Leaving(None, None)
    ensures Heard(states[n].local, id, channel) == {} && Heard(states[n].primary, id, channel) == {}
  {
    hide ChannelMatches, Next;
    RunKeepsInv(states, steps, n);
    assert id !in states[n].subs;
  }

  /** A subscription that was given up is never bound again, not even by a switch back that runs at the same time. */
  lemma NeverRebound(s: State, step: Step, t: State, id: nat)
    requires Inv(s) && Next(s, step, t) && id < s.nextID && id !in s.subs
    ensures id < t.nextID && id !in t.subs
    ensures forall r | r in t.primary.regs && t.primary.regs[r].owner == id :: r in s.primary.regs
    ensures forall r | r in t.local.regs && t.local.regs[r].owner == id :: r in s.local.regs
  {
  }

  // ------------------------------------------------------------------
  // The bus

  lemma RunExtends(states: seq<State>, steps: seq<Step>, step: Step, t: State)
    requires IsRun(states, steps) && Next(states[|steps|], step, t)
    ensures IsRun(states + [t], steps + [step])
  {
    hide Next;
    var more, also := states + [t], steps + [step];
    forall i | 0 <= i < |also| ensures Next(more[i], also[i], more[i + 1]) {
      if i < |steps| {
        assert more[i] == states[i] && more[i + 1] == states[i + 1] && also[i] == steps[i];
      }
    }
  }

  /** The ghost fields record the run so far: every state that a publish on another goroutine could have met. */
  class Bus {
    const connected: bool
    var degraded: bool
    var subs: map<nat, Sub>
    var nextID: nat
    var local: Side
    var primary: Side
    var leaving: map<nat, Leaving>
    ghost var binding: Option<set<nat>>
    ghost var missed: set<nat>
    ghost var states: seq<State>
    ghost var steps: seq<Step>

    ghost function Abs(): State
      reads this
    {
      State(connected, degraded, subs, nextID, local, primary, leaving, binding, missed)
    }

    ghost predicate Valid()
      reads this
    {
      IsRun(states, steps) && states[|steps|] == Abs()
    }

    /** Nobody has the lock. */
    ghost predicate Free()
      reads this
    {
      Valid() && binding.None?
    }

    constructor (connected: bool, degraded: bool)
      ensures Free() && IsStart(Abs()) && this.connected == connected && this.degraded == (!connected || degraded)
    {
      this.connected := connected;
      this.degraded := !connected || degraded;
      subs, nextID, leaving := map[], 0, map[];
      local, primary := Side(map[], 0), Side(map[], 0);
      binding, missed := None, {};
      steps := [];
      states := [State(connected, !connected || degraded, map[], 0, Side(map[], 0), Side(map[], 0), map[], None, {})];
    }

    /** A step has just been taken. */
    ghost method Record(step: Step)
      requires IsRun(states, steps) && Next(states[|steps|], step, Abs())
      modifies this`states, this`steps
      ensures Valid() && old(states) <= states && old(steps) <= steps
      ensures states == old(states) + [Abs()] && steps == old(steps) + [step]
    {
      RunExtends(states, steps, step, Abs());
      states, steps := states + [Abs()], steps + [step];
    }

    /** The rebinding loop, while the mode is still degraded; `fails` are the subscriptions that NATS would refuse. */
    method BindAll(fails: set<nat>)
      requires Valid() && degraded && binding == Some(subs.Keys)
      modifies this`subs, this`primary, this`binding, this`missed, this`states, this`steps
      ensures Valid() && old(states) <= states && old(steps) <= steps && binding == Some({})
      ensures Rebound(old(subs), {}, fails, subs)
      ensures forall i | |old(steps)| <= i < |steps| ::
                steps[i].BindOne? && (steps[i].ok <==> steps[i].id !in fails)
    {
      hide Rebound, IsRun, Next, DoBindOne;
      var left := subs.Keys;
      NothingRebound(subs, fails);
      while left != {}
        invariant Valid() && old(states) <= states && old(steps) <= steps
        invariant binding == Some(left) && left <= subs.Keys
        invariant Rebound(old(subs), left, fails, subs)
        invariant forall i | |old(steps)| <= i < |steps| ::
            steps[i].BindOne? && (steps[i].ok <==> steps[i].id !in fails)
        decreases |left|
      {
        var id :| id in left;
        ghost var before := Abs();
        var ok := id !in fails;
        BindNext(id, ok);
        ReboundStep(old(subs), left, fails, id, ok, before);
        left := left - {id};
      }
    }

    /** The body of that loop. */
    method BindNext(id: nat, ok: bool)
      requires Valid() && binding.Some? && id in binding.value && id in subs
      modifies this`subs, this`primary, this`binding, this`missed, this`states, this`steps
      ensures Valid() && old(states) <= states && steps == old(steps) + [BindOne(id, ok)]
      ensures Abs() == DoBindOne(old(Abs()), id, ok)
    {
      hide IsRun, Next;
      ghost var before := Abs();
      if subs[id].primaryReg.None? {
        if ok {
          var reg := Reg(subs[id].pattern, id);
          subs := subs[id := subs[id].(primaryReg := Some(primary.next))];
          primary := primary.Add(reg);
        } else {
          missed := missed + {id};
        }
      }
      binding := Some(binding.value - {id});
      BindOneIs(before, id, ok, Abs());
      Record(BindOne(id, ok));
    }

    /** `deg` is the status just read.  Every subscription is looked at before the mode changes: the run shows it. */
    method Refresh(deg: bool, fails: set<nat>)
      requires connected && Free()
      modifies this
      ensures Free() && old(states) <= states && old(steps) <= steps && degraded == deg
      ensures deg == old(degraded) ==> Abs() == old(Abs()) && steps == old(steps)
      ensures deg && !old(degraded) ==> Abs() == old(Abs()).(degraded := true) && steps == old(steps) + [Degrade]
      ensures !deg && old(degraded) ==>
                Rebound(old(subs), {}, fails, subs) && RebindSteps(steps[|old(steps)|..], fails)
    {
      hide Inv, Rebound, IsRun, Next;
      if deg == degraded {
        return;
      }
      ghost var start := Abs();
      if !deg {
        binding, missed := Some(subs.Keys), {};
        ModeSteps(start);
        Record(BeginRebind);
        BindAll(fails);
        ghost var bound := Abs();
        degraded, binding := false, None;
        ModeSteps(bound);
        Record(Switch);
        return;
      }
      degraded := true;
      ModeSteps(start);
      Record(Degrade);
    }

    /** The first half of a publish, without the lock; `read` is the state of the run in which the mode was read. */
    method LoadMode() returns (mode: Mode, ghost read: nat)
      requires Valid()
      ensures mode == ModeOf(Abs())
      ensures read == |states| - 1 && states[read] == Abs()
    {
      read := |states| - 1;
      if connected && !degraded {
        mode := Healthy;
      } else {
        mode := Degraded;
      }
    }

    /** The second half, with the mode as it was read in some state so far: NATS, or the local bus, or an error.  If it
        is no error, each subscription that matches hears of the event once, unless it is lost. */
    method HandOver(mode: Mode, reply: Reply, ghost read: nat) returns (route: Route)
      requires Valid() && read < |states| && mode == ModeOf(states[read])
      ensures route == RouteFor(mode, reply)
      ensures route == Nowhere <==> ReadHealthy(states[read]) && reply.Failed?
      ensures route == OverNats <==> ReadHealthy(states[read]) && reply.Sent?
      ensures route != Nowhere ==>
                forall id, channel | id in subs && ChannelMatches(subs[id].pattern, channel) ::
                  var lost := route.OverNats? && subs[id].primaryReg.None?;
                  && Times(Abs(), route, id, channel) == (if lost then 0 else 1)
                  && (lost && id in states[read].subs ==> id in states[read].missed)
    {
      assert |states| == |steps| + 1;
      hide ChannelMatches, IsRun, Times;
      if RouteFor(mode, reply) != Nowhere {
        forall id, channel | id in subs && ChannelMatches(subs[id].pattern, channel)
          ensures var r := RouteFor(mode, reply);
                  var lost := r.OverNats? && subs[id].primaryReg.None?;
                  && Times(Abs(), r, id, channel) == (if lost then 0 else 1)
                  && (lost && id in states[read].subs ==> id in states[read].missed)
        {
          ExactlyOnce(states, steps, read, |steps|, id, channel, reply);
        }
      }
      if mode.Healthy? {
        if reply.Sent? {
          return OverNats;
        }
        if reply.Failed? {
          return Nowhere;
        }
      }
      return OverLocal;
    }

    method SubscribeBoth(pattern: string, natsOk: bool) returns (id: Option<nat>)
      requires Free()
      modifies this
      ensures Free() && old(states) <= states && old(steps) <= steps
      ensures Abs() == DoSubscribe(old(Abs()), pattern, natsOk)
      ensures id.Some? <==> pattern != "" && (!connected || natsOk || degraded)
      ensures id.Some? ==>
                && id.value == old(nextID) && subs.Keys == old(subs).Keys + {id.value}
                && (forall k | k in old(subs) && k != id.value :: subs[k] == old(subs)[k])
                && subs[id.value].pattern == pattern
                && (subs[id.value].primaryReg.Some? <==> connected && natsOk)
      ensures id.None? ==> subs == old(subs) && local.regs == old(local.regs) && primary == old(primary)
    {
      hide Inv, IsRun;
      ReachedNumbered(states, steps);
      if pattern == "" {
        return None;
      }
      var reg := Reg(pattern, nextID);
      var lu := local.next;
      ghost var before := local;
      local := local.Add(reg);
      var pu := None;
      if connected {
        if natsOk {
          pu := Some(primary.next);
          primary := primary.Add(reg);
        } else if !degraded {
          local := local.Remove(lu);
          assert local.regs == before.regs;
          Record(Subscribe(pattern, natsOk));
          return None;
        }
      }
      subs := subs[nextID := Sub(pattern, lu, pu)];
      nextID := nextID + 1;
      Record(Subscribe(pattern, natsOk));
      return Some(nextID - 1);
    }

    /** The locked section of the unsubscribe closure; calling it again does nothing. */
    method Unsubscribe(id: nat)
      requires Free()
      modifies this
      ensures Free() && old(states) <= states && old(steps) <= steps
      ensures Abs() == if id in old(subs) then DoUnsubBegin(old(Abs()), id) else old(Abs())
      ensures subs == old(subs) - {id}
      ensures id in old(subs) ==>
                id in leaving && leaving[id] == Leaving(Some(old(subs)[id].localReg), old(subs)[id].primaryReg)
    {
      hide IsRun;
      if id !in subs {
        return;
      }
      leaving := leaving[id := Leaving(Some(subs[id].localReg), subs[id].primaryReg)];
      subs := subs - {id};
      Record(UnsubBegin(id));
    }

    method UndoLocal(id: nat)
      requires Valid() && id in leaving && leaving[id].localReg.Some?
      modifies this
      ensures Valid() && old(states) <= states && old(steps) <= steps && Abs() == DoUnsubLocal(old(Abs()), id)
      ensures id in leaving && leaving[id].localReg.None? && subs == old(subs)
      ensures local.regs == old(local.regs) - {old(leaving)[id].localReg.value}
    {
      hide IsRun;
      local := local.Remove(leaving[id].localReg.value);
      leaving := leaving[id := leaving[id].(localReg := None)];
      Record(UnsubLocal(id));
    }

    method UndoPrimary(id: nat)
      requires Valid() && id in leaving && leaving[id].localReg.None? && leaving[id].primaryReg.Some?
      modifies this
      ensures Valid() && old(states) <= states && old(steps) <= steps && Abs() == DoUnsubPrimary(old(Abs()), id)
      ensures id in leaving && leaving[id].primaryReg.None? && subs == old(subs)
      ensures primary.regs == old(primary.regs) - {old(leaving)[id].primaryReg.value}
    {
      hide IsRun;
      primary := primary.Remove(leaving[id].primaryReg.value);
      leaving := leaving[id := leaving[id].(primaryReg := None)];
      Record(UnsubPrimary(id));
    }
  }

  lemma ReachedNumbered(states: seq<State>, steps: seq<Step>)
    requires IsRun(states, steps)
    ensures Numbered(states[|steps|].local) && Numbered(states[|steps|].primary)
  {
    hide Next;
    RunKeepsInv(states, steps, |steps|);
  }

  lemma BindOneIs(s: State, id: nat, ok: bool, t: State)
    ensures s.binding.Some? && id in s.binding.value && id in s.subs && t == DoBindOne(s, id, ok) ==>
              Next(s, BindOne(id, ok), t)
  {
  }

  lemma ModeSteps(s: State)
    ensures s.connected && s.degraded && s.binding.None? ==>
              Next(s, BeginRebind, s.(binding := Some(s.subs.Keys), missed := {}))
    ensures s.connected && !s.degraded && s.binding.None? ==> Next(s, Degrade, s.(degraded := true))
    ensures s.binding == Some({}) ==> Next(s, Switch, s.(binding := None, degraded := false))
  {
  }

  lemma NothingRebound(subs: map<nat, Sub>, fails: set<nat>)
    ensures Rebound(subs, subs.Keys, fails, subs)
  {
  }

  /** One round of the rebinding loop. */
  lemma ReboundStep(before: map<nat, Sub>, left: set<nat>, fails: set<nat>, id: nat, ok: bool, s: State)
    requires (ok <==> id !in fails) && id in left && id in s.subs && s.binding == Some(left)
    requires left <= s.subs.Keys && Rebound(before, left, fails, s.subs)
    ensures var t := DoBindOne(s, id, ok);
            && t.binding == Some(left - {id}) && left - {id} <= t.subs.Keys
            && Rebound(before, left - {id}, fails, t.subs)
  {
  }
}
