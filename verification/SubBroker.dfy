/**
 The broker that shares upstream GraphQL subscriptions, one lock section at a
 time.
 */
module SubBroker {
  import opened Options

  type Key = string

  /** Target channels are numbered in the order in which they are made. */
  type Chan = nat

  /** `conn` is the connection on which the subscription was opened. */
  datatype Fanout = Fanout(key: Key, conn: nat, nextID: nat, targets: map<nat, Chan>, terminal: bool)

  /** `all` lists the fanouts ever made; a fanout is its place in the list.  `pending` holds the channels that a
      terminated fanout gave up and that are still to be closed. */
  datatype State = State(
    conn: Option<nat>,
    dialed: nat,
    readers: set<nat>,
    fanouts: map<Key, nat>,
    closing: bool,
    all: seq<Fanout>,
    made: nat,
    pending: set<Chan>,
    closed: multiset<Chan>,
    opens: nat,
    closes: nat,
    gauge: nat)

  /** A step is what one goroutine does while it holds the broker's or a fanout's lock; goroutines are not tracked, so
      that any enabled step may come next.  That only adds interleavings. */
  datatype Step =
    | Acquire(key: Key, dialOk: bool, sendOk: bool)
    | Attach(f: nat)
    | ReleaseTarget(f: nat, id: nat)
    | Drop(f: nat)
    | BeginShutdown
    | EndShutdown
    | Terminate(f: nat)
    | CloseChannel(c: Chan)
    | FailAll(reader: nat)

  const START: State := State(None, 0, {}, map[], false, [], 0, {}, multiset{}, 0, 0, 0)

  // ------------------------------------------------------------------
  // The steps

  function Dialed(s: State): State {
    s.(conn := Some(s.dialed), readers := s.readers + {s.dialed}, dialed := s.dialed + 1)
  }

  /** A first subscriber's fanout, on the connection that is up. */
  function Opened(s: State, key: Key): State
    requires s.conn.Some?
  {
    s.(fanouts := s.fanouts[key := |s.all|],
       all := s.all + [Fanout(key, s.conn.value, 0, map[], false)],
       opens := s.opens + 1,
       gauge := |s.fanouts[key := |s.all|]|)
  }

  /** The broker half of acquire: dial if there is no connection, then subscribe if the key is new. */
  function DoAcquire(s: State, key: Key, dialOk: bool, sendOk: bool): State {
    if s.closing || (s.conn.None? && !dialOk) then s
    else
      var t := if s.conn.Some? then s else Dialed(s);
      if key in t.fanouts || !sendOk then t else Opened(t, key)
  }

  /** The fanout half of acquire: a terminal fanout hands out a channel that is closed already. */
  function DoAttach(s: State, f: nat): State
    requires f < |s.all|
  {
    var x := s.all[f];
    if x.terminal then s.(made := s.made + 1, closed := s.closed + multiset{s.made})
    else
      s.(made := s.made + 1,
         all := s.all[f := x.(nextID := x.nextID + 1, targets := x.targets[x.nextID := s.made])])
  }

  function DoReleaseTarget(s: State, f: nat, id: nat): State
    requires f < |s.all|
  {
    var x := s.all[f];
    if id !in x.targets then s
    else
      s.(closed := s.closed + multiset{x.targets[id]}, all := s.all[f := x.(targets := x.targets - {id})])
  }

  /** The broker half of a last release or of a terminal frame. */
  function DoDrop(s: State, f: nat): State
    requires f < |s.all|
  {
    var key := s.all[f].key;
    if key in s.fanouts && s.fanouts[key] == f then
      s.(fanouts := s.fanouts - {key}, closes := s.closes + 1, gauge := |s.fanouts - {key}|)
    else s
  }

  function Reset(s: State): State {
    s.(fanouts := map[], conn := None, closes := s.closes + |s.fanouts|, gauge := 0)
  }

  function DoBeginShutdown(s: State): State {
    if s.closing then s else Reset(s).(closing := true)
  }

  function Values(m: map<nat, Chan>): set<Chan> {
    set id | id in m :: m[id]
  }

  function DoTerminate(s: State, f: nat): State
    requires f < |s.all|
  {
    var x := s.all[f];
    if x.terminal then s
    else s.(pending := s.pending + Values(x.targets), all := s.all[f := x.(targets := map[], terminal := true)])
  }

  function DoCloseChannel(s: State, c: Chan): State {
    s.(pending := s.pending - {c}, closed := s.closed + multiset{c})
  }

  /** A reader whose connection broke resets the broker, whatever connection the broker has by then. */
  function DoFailAll(s: State, reader: nat): State {
    Reset(s).(readers := s.readers - {reader})
  }

  predicate Enabled(s: State, step: Step) {
    match step
    case Attach(f) => f < |s.all|
    case ReleaseTarget(f, _) => f < |s.all|
    case Drop(f) => f < |s.all|
    case EndShutdown => s.closing
    case Terminate(f) => f < |s.all|
    case CloseChannel(c) => c in s.pending
    case FailAll(reader) => reader in s.readers
    case _ => true
  }

  function Do(s: State, step: Step): State
    requires Enabled(s, step)
  {
    match step
    case Acquire(key, dialOk, sendOk) => DoAcquire(s, key, dialOk, sendOk)
    case Attach(f) => DoAttach(s, f)
    case ReleaseTarget(f, id) => DoReleaseTarget(s, f, id)
    case Drop(f) => DoDrop(s, f)
    case BeginShutdown => DoBeginShutdown(s)
    case EndShutdown => s.(closing := false)
    case Terminate(f) => DoTerminate(s, f)
    case CloseChannel(c) => DoCloseChannel(s, c)
    case FailAll(reader) => DoFailAll(s, reader)
  }

  // ------------------------------------------------------------------
  // The invariant

  predicate Accounted(s: State) {
    && s.opens == s.closes + |s.fanouts|
    && s.gauge == |s.fanouts|
    && s.opens == |s.all|
  }

  predicate Connected(s: State) {
    && (s.conn.None? ==> s.fanouts == map[])
    && (s.closing ==> s.conn.None?)
    && (s.conn.Some? ==> s.conn.value < s.dialed)
    && forall r | r in s.readers :: r < s.dialed
  }

  /** Every registered fanout stands under its key and was opened on the broker's connection. */
  predicate Registered(s: State) {
    forall k | k in s.fanouts ::
      && s.fanouts[k] < |s.all|
      && s.all[s.fanouts[k]].key == k
      && s.conn == Some(s.all[s.fanouts[k]].conn)
  }

  predicate TerminalEmpty(s: State) {
    forall f | 0 <= f < |s.all| :: s.all[f].terminal ==> s.all[f].targets == map[]
  }

  predicate Fresh(s: State) {
    forall f, id | 0 <= f < |s.all| && id in s.all[f].targets :: id < s.all[f].nextID
  }

  predicate Holds(s: State, f: nat, id: nat, c: Chan) {
    f < |s.all| && id in s.all[f].targets && s.all[f].targets[id] == c
  }

  /** Every channel is with at most one target, waits to be closed, or is closed, and never two of these. */
  ghost predicate Owned(s: State) {
    && (forall f: nat, id: nat, g: nat, jd: nat, c: Chan | Holds(s, f, id, c) && Holds(s, g, jd, c) ::
          f == g && id == jd)
    && (forall f: nat, id: nat, c: Chan | Holds(s, f, id, c) :: c < s.made && c !in s.pending && c !in s.closed)
    && (forall c | c in s.pending :: c < s.made && c !in s.closed)
    && (forall c | c in s.closed :: c < s.made && s.closed[c] == 1)
  }

  /** A channel that was made is with a target, waits to be closed, or is closed. */
  ghost predicate Placed(s: State, c: Chan) {
    c in s.pending || c in s.closed || exists f: nat, id: nat :: Holds(s, f, id, c)
  }

  ghost predicate AllPlaced(s: State) {
    forall c: Chan | c < s.made :: Placed(s, c)
  }

  ghost predicate Inv(s: State) {
    Books(s) && Channels(s) && AllPlaced(s)
  }

  lemma DropSize(m: map<Key, nat>, k: Key)
    requires k in m
    ensures |m - {k}| == |m| - 1
  {
    assert (m - {k}).Keys == m.Keys - {k};
    assert |m.Keys| == |m| && |(m - {k}).Keys| == |m - {k}|;
  }

  lemma AddSize(m: map<Key, nat>, k: Key, v: nat)
    requires k !in m
    ensures |m[k := v]| == |m| + 1
  {
    assert m[k := v].Keys == m.Keys + {k};
    assert |m.Keys| == |m| && |m[k := v].Keys| == |m[k := v]|;
  }

  predicate Books(s: State) {
    Accounted(s) && Connected(s) && Registered(s)
  }

  lemma AcquireKeepsBooks(s: State, key: Key, dialOk: bool, sendOk: bool)
    requires Books(s)
    ensures Books(DoAcquire(s, key, dialOk, sendOk))
  {
    if key !in s.fanouts {
      AddSize(s.fanouts, key, |s.all|);
    }
  }

  lemma DropKeepsBooks(s: State, f: nat)
    requires Books(s) && f < |s.all|
    ensures Books(DoDrop(s, f))
  {
    if s.all[f].key in s.fanouts {
      DropSize(s.fanouts, s.all[f].key);
    }
  }

  lemma StepKeepsBooks(s: State, step: Step)
    requires Books(s) && Enabled(s, step)
    ensures Books(Do(s, step))
  {
    match step
    case Acquire(key, dialOk, sendOk) => AcquireKeepsBooks(s, key, dialOk, sendOk);
    case Drop(f) => DropKeepsBooks(s, f);
    case _ =>
  }

  ghost predicate Channels(s: State) {
    TerminalEmpty(s) && Fresh(s) && Owned(s)
  }

  lemma AcquireKeepsChannels(s: State, key: Key, dialOk: bool, sendOk: bool)
    requires Channels(s)
    ensures Channels(DoAcquire(s, key, dialOk, sendOk))
  {
    hide Holds;
    var t := DoAcquire(s, key, dialOk, sendOk);
    forall f: nat, id: nat, c: Chan ensures Holds(t, f, id, c) ==> Holds(s, f, id, c) {
      AcquireHolds(s, key, dialOk, sendOk, f, id, c);
    }
  }

  lemma AcquireHolds(s: State, key: Key, dialOk: bool, sendOk: bool, f: nat, id: nat, c: Chan)
    ensures Holds(DoAcquire(s, key, dialOk, sendOk), f, id, c) ==> Holds(s, f, id, c)
  {
  }

  lemma AttachKeepsChannels(s: State, f: nat)
    requires Channels(s) && f < |s.all|
    ensures Channels(DoAttach(s, f))
  {
    hide Holds;
    var t := DoAttach(s, f);
    forall g: nat, id: nat, c: Chan
      ensures Holds(t, g, id, c) ==>
                Holds(s, g, id, c) || (g == f && id == s.all[f].nextID && c == s.made && !s.all[f].terminal)
    {
      AttachHolds(s, f, g, id, c);
    }
  }

  lemma AttachHolds(s: State, f: nat, g: nat, id: nat, c: Chan)
    ensures f < |s.all| ==>
              Holds(DoAttach(s, f), g, id, c) ==>
                Holds(s, g, id, c) || (g == f && id == s.all[f].nextID && c == s.made && !s.all[f].terminal)
  {
  }

  lemma ReleaseKeepsChannels(s: State, f: nat, id: nat)
    requires Channels(s) && f < |s.all|
    ensures Channels(DoReleaseTarget(s, f, id))
  {
    hide Holds;
    var t := DoReleaseTarget(s, f, id);
    forall g: nat, jd: nat, c: Chan
      ensures Holds(t, g, jd, c) ==> Holds(s, g, jd, c) && !(g == f && jd == id)
    {
      ReleaseHolds(s, f, id, g, jd, c);
    }
    if id in s.all[f].targets {
      ReleaseHolds(s, f, id, f, id, s.all[f].targets[id]);
    }
  }

  lemma ReleaseHolds(s: State, f: nat, id: nat, g: nat, jd: nat, c: Chan)
    ensures f < |s.all| ==>
              (Holds(DoReleaseTarget(s, f, id), g, jd, c) ==> Holds(s, g, jd, c) && !(g == f && jd == id))
    ensures f < |s.all| ==> (id in s.all[f].targets ==> Holds(s, f, id, s.all[f].targets[id]))
  {
  }

  lemma TerminateKeepsChannels(s: State, f: nat)
    requires Channels(s) && f < |s.all|
    ensures Channels(DoTerminate(s, f))
  {
    hide Holds;
    var t := DoTerminate(s, f);
    forall g: nat, id: nat, c: Chan ensures Holds(t, g, id, c) ==> Holds(s, g, id, c) && (g != f || s.all[f].terminal) {
      TerminateHolds(s, f, g, id, c);
    }
    forall c | c in Values(s.all[f].targets) ensures exists id :: Holds(s, f, id, c) {
      ValueHeld(s, f, c);
    }
  }

  lemma TerminateHolds(s: State, f: nat, g: nat, id: nat, c: Chan)
    ensures f < |s.all| ==>
              (Holds(DoTerminate(s, f), g, id, c) ==> Holds(s, g, id, c) && (g != f || s.all[f].terminal))
  {
  }

  lemma ValueHeld(s: State, f: nat, c: Chan)
    requires f < |s.all| && c in Values(s.all[f].targets)
    ensures exists id :: Holds(s, f, id, c)
  {
    var id :| id in s.all[f].targets && s.all[f].targets[id] == c;
    assert Holds(s, f, id, c);
  }

  lemma CloseKeepsChannels(s: State, c: Chan)
    requires Channels(s) && c in s.pending
    ensures Channels(DoCloseChannel(s, c))
  {
    SameHolds(s, DoCloseChannel(s, c));
    hide Holds;
  }

  lemma SameChannels(s: State, t: State)
    requires Channels(s) && t.all == s.all && t.made == s.made && t.pending == s.pending && t.closed == s.closed
    ensures Channels(t)
  {
    SameHolds(s, t);
    hide Holds;
  }

  lemma SameHolds(s: State, t: State)
    ensures t.all == s.all ==> (forall f: nat, id: nat, c: Chan :: Holds(t, f, id, c) <==> Holds(s, f, id, c))
  {
  }

  lemma StepKeepsChannels(s: State, step: Step)
    requires Channels(s) && Enabled(s, step)
    ensures Channels(Do(s, step))
  {
    hide Channels;
    match step
    case Acquire(key, dialOk, sendOk) => AcquireKeepsChannels(s, key, dialOk, sendOk);
    case Attach(f) => AttachKeepsChannels(s, f);
    case ReleaseTarget(f, id) => ReleaseKeepsChannels(s, f, id);
    case Terminate(f) => TerminateKeepsChannels(s, f);
    case CloseChannel(c) => CloseKeepsChannels(s, c);
    case _ => SameChannels(s, Do(s, step));
  }

  /** No channel gets lost: what a target gives up is closed, or waits to be. */
  lemma HoldsStep(s: State, step: Step, f: nat, id: nat, c: Chan)
    requires Enabled(s, step) && Holds(s, f, id, c) && (f < |s.all| ==> id < s.all[f].nextID)
    ensures var t := Do(s, step); Holds(t, f, id, c) || c in t.pending || c in t.closed
  {
  }

  lemma MadeStep(s: State, step: Step)
    requires Enabled(s, step)
    ensures var t := Do(s, step);
            && (forall c | c in s.pending :: c in t.pending || c in t.closed)
            && (forall c | c in s.closed :: c in t.closed)
            && (t.made != s.made ==>
                  t.made == s.made + 1 && step.Attach?
                  && (s.made in t.closed || Holds(t, step.f, s.all[step.f].nextID, s.made)))
  {
  }

  lemma StepKeepsPlaced(s: State, step: Step)
    requires Fresh(s) && AllPlaced(s) && Enabled(s, step)
    ensures AllPlaced(Do(s, step))
  {
    hide Do;
    var t := Do(s, step);
    MadeStep(s, step);
    forall c: Chan | c < t.made ensures Placed(t, c) {
      if c < s.made {
        assert Placed(s, c);
        if f: nat, id: nat :| Holds(s, f, id, c) {
          HoldsStep(s, step, f, id, c);
        }
      }
    }
  }

  lemma StepKeepsInv(s: State, step: Step)
    requires Inv(s) && Enabled(s, step)
    ensures Inv(Do(s, step))
  {
    assert Fresh(s);
    hide Books, Channels, Do, AllPlaced;
    StepKeepsBooks(s, step);
    StepKeepsChannels(s, step);
    StepKeepsPlaced(s, step);
  }

  // ------------------------------------------------------------------
  // Runs

  /** The state behind an interleaving, if every step of it was enabled. */
  function Run(steps: seq<Step>): Option<State> {
    if steps == [] then Some(START)
    else
      var r := Run(steps[..|steps| - 1]);
      if r.Some? && Enabled(r.value, steps[|steps| - 1]) then Some(Do(r.value, steps[|steps| - 1])) else None
  }

  lemma StartInv()
    ensures Inv(START)
  {
  }

  /** Over every interleaving: opens minus closes is the number of fanouts and the last gauge value; without a
      connection there is no fanout; a terminal fanout has no target; no channel is closed twice, and none is lost. */
  lemma {:induction false} Safety(steps: seq<Step>)
    ensures Run(steps).Some? ==>
              var s := Run(steps).value;
              && Inv(s)
              && s.opens - s.closes == |s.fanouts| == s.gauge
              && (s.conn.None? ==> s.fanouts == map[])
              && (forall f | 0 <= f < |s.all| :: s.all[f].terminal ==> s.all[f].targets == map[])
              && (forall c :: s.closed[c] <= 1)
              && forall c | 0 <= c < s.made :: Placed(s, c)
    decreases |steps|
  {
    hide Do, Enabled, Placed;
    StartInv();
    if steps != [] {
      var r := Run(steps[..|steps| - 1]);
      Safety(steps[..|steps| - 1]);
      if r.Some? && Enabled(r.value, steps[|steps| - 1]) {
        StepKeepsInv(r.value, steps[|steps| - 1]);
      }
    }
  }

  predicate Live(s: State, f: nat) {
    exists k :: k in s.fanouts && s.fanouts[k] == f
  }

  /** A fanout that has left the broker's map never comes back, so that its open is answered by one close at most. */
  lemma NeverBack(s: State, step: Step, f: nat)
    requires Enabled(s, step) && f < |s.all|
    ensures Live(Do(s, step), f) ==> Live(s, f)
  {
    var t := Do(s, step);
    if k :| k in t.fanouts && t.fanouts[k] == f {
      assert k in s.fanouts;
    }
  }

  /** A closed channel stays closed, and a channel that waits to be closed is either still waiting or closed. */
  lemma ClosedForGood(s: State, step: Step, c: Chan)
    requires Inv(s) && Enabled(s, step)
    ensures s.closed[c] == 1 ==> Do(s, step).closed[c] == 1
    ensures c in s.pending ==> c in Do(s, step).pending || Do(s, step).closed[c] == 1
  {
    StepKeepsChannels(s, step);
  }

  /** The fanouts that a step takes out of the broker's map. */
  function Dropped(s: State, step: Step): set<nat>
    requires Enabled(s, step)
  {
    s.fanouts.Values - Do(s, step).fanouts.Values
  }

  /** In every reachable state, the failure of a reader ends only fanouts of its own connection if and only if that is
      the broker's connection, or there is no fanout. */
  lemma FailureStaysHomeExactly(steps: seq<Step>, reader: nat)
    requires Run(steps).Some? && Enabled(Run(steps).value, FailAll(reader))
    ensures var s := Run(steps).value;
            (forall f | f in Dropped(s, FailAll(reader)) :: f < |s.all| && s.all[f].conn == reader)
            <==> s.fanouts == map[] || s.conn == Some(reader)
  {
    hide Run;
    Safety(steps);
    var s := Run(steps).value;
    assert Do(s, FailAll(reader)).fanouts.Values == {};
    if s.fanouts != map[] {
      var k :| k in s.fanouts;
      assert s.fanouts[k] in Dropped(s, FailAll(reader));
    }
  }

  /** Otherwise the reader is a stale one, of a connection that was shut down: every fanout goes, none of them its own,
      and every open has its close. */
  lemma StaleReaderResets(s: State, reader: nat)
    requires Inv(s) && Enabled(s, FailAll(reader)) && s.conn != Some(reader)
    ensures var t := Do(s, FailAll(reader));
            && t.conn.None? && t.fanouts == map[] && t.opens == t.closes
            && forall f | f in Dropped(s, FailAll(reader)) :: f < |s.all| && s.all[f].conn != reader
  {
  }

  /** It happens: one subscriber comes and leaves, a second one comes and opens a fanout on the second connection, and
      then the first connection's reader notices that its connection is closed. */
  lemma StaleReaderRun()
    ensures var steps := [Acquire("a", true, true), Attach(0), ReleaseTarget(0, 0), Drop(0), BeginShutdown, EndShutdown,
                          Acquire("b", true, true)];
            var before, after := Run(steps), Run(steps + [FailAll(0)]);
            && before.Some? && before.value.conn == Some(1) && {0, 1} <= before.value.readers
            && (exists f: nat :: Live(before.value, f) && f < |before.value.all| && before.value.all[f].conn == 1)
            && after.Some? && after.value.conn == None && after.value.fanouts == map[]
  {
    hide Run, Do;
    SecondCame();
    var steps := [Acquire("a", true, true), Attach(0), ReleaseTarget(0, 0), Drop(0), BeginShutdown, EndShutdown,
                  Acquire("b", true, true)];
    DoIs(Run(steps).value);
    RunSnoc(steps, FailAll(0));
  }

  lemma SecondCame()
    ensures var r := Run([Acquire("a", true, true), Attach(0), ReleaseTarget(0, 0), Drop(0), BeginShutdown, EndShutdown,
                          Acquire("b", true, true)]);
            && r.Some? && r.value.conn == Some(1) && r.value.readers == {0, 1}
            && (exists f: nat :: Live(r.value, f) && f < |r.value.all| && r.value.all[f].conn == 1)
  {
    hide Run, Do;
    OneCameAndLeft();
    var steps := [Acquire("a", true, true), Attach(0), ReleaseTarget(0, 0), Drop(0)];
    DoIs(Run(steps).value);
    steps := RunMore(steps, BeginShutdown);
    DoIs(Run(steps).value);
    steps := RunMore(steps, EndShutdown);
    DoIs(Run(steps).value);
    steps := RunMore(steps, Acquire("b", true, true));
    assert "b" in Run(steps).value.fanouts && Live(Run(steps).value, Run(steps).value.fanouts["b"]);
    assert steps == [Acquire("a", true, true), Attach(0), ReleaseTarget(0, 0), Drop(0), BeginShutdown, EndShutdown,
                     Acquire("b", true, true)] by { hide *; }
  }

  lemma DoIs(s: State)
    ensures Do(s, BeginShutdown) == DoBeginShutdown(s)
    ensures s.closing ==> Do(s, EndShutdown) == s.(closing := false)
    ensures forall key, d, e :: Do(s, Acquire(key, d, e)) == DoAcquire(s, key, d, e)
    ensures forall reader | reader in s.readers :: Do(s, FailAll(reader)) == DoFailAll(s, reader)
  {
  }

  lemma OneCame()
    ensures var r := Run([Acquire("a", true, true), Attach(0)]);
            && r.Some? && r.value.conn == Some(0) && r.value.readers == {0} && r.value.dialed == 1
            && !r.value.closing && r.value.fanouts == map["a" := 0]
            && r.value.all == [Fanout("a", 0, 1, map[0 := 0], false)]
  {
    hide Run;
    RunNone();
    var steps := RunMore([], Acquire("a", true, true));
    steps := RunMore(steps, Attach(0));
    assert steps == [Acquire("a", true, true), Attach(0)] by { hide *; }
  }

  lemma OneCameAndLeft()
    ensures var r := Run([Acquire("a", true, true), Attach(0), ReleaseTarget(0, 0), Drop(0)]);
            && r.Some? && r.value.conn == Some(0) && r.value.readers == {0} && r.value.dialed == 1
            && !r.value.closing && r.value.fanouts == map[]
  {
    hide Run;
    OneCame();
    var steps := RunMore([Acquire("a", true, true), Attach(0)], ReleaseTarget(0, 0));
    steps := RunMore(steps, Drop(0));
    assert steps == [Acquire("a", true, true), Attach(0), ReleaseTarget(0, 0), Drop(0)] by { hide *; }
  }

  lemma RunNone()
    ensures Run([]) == Some(START)
  {
  }

  lemma RunSnoc(steps: seq<Step>, step: Step)
    requires Run(steps).Some? && Enabled(Run(steps).value, step)
    ensures Run(steps + [step]) == Some(Do(Run(steps).value, step))
  {
    assert (steps + [step])[..|steps|] == steps;
  }

  lemma RunMore(steps: seq<Step>, step: Step) returns (more: seq<Step>)
    requires Run(steps).Some? && Enabled(Run(steps).value, step)
    ensures more == steps + [step] && Run(more) == Some(Do(Run(steps).value, step))
  {
    RunSnoc(steps, step);
    more := steps + [step];
  }

  // ------------------------------------------------------------------
  // The broker

  lemma DoIsAcquire(s: State, key: Key, dialOk: bool, sendOk: bool)
    ensures Do(s, Acquire(key, dialOk, sendOk)) == DoAcquire(s, key, dialOk, sendOk)
  {
  }

  class Broker {
    var conn: Option<nat>
    var dialed: nat
    var readers: set<nat>
    var fanouts: map<Key, nat>
    var closing: bool
    var all: seq<Fanout>
    var made: nat
    var pending: set<Chan>
    var closed: multiset<Chan>
    var opens: nat
    var closes: nat
    var gauge: nat

    function Abs(): State
      reads this
    {
      State(conn, dialed, readers, fanouts, closing, all, made, pending, closed, opens, closes, gauge)
    }

    constructor ()
      ensures Abs() == START
    {
      conn, dialed, readers, fanouts, closing := None, 0, {}, map[], false;
      all, made, pending, closed, opens, closes, gauge := [], 0, {}, multiset{}, 0, 0, 0;
    }

    method RecordOpen()
      modifies this`opens, this`gauge
      ensures opens == old(opens) + 1 && gauge == |fanouts|
    {
      opens := opens + 1;
      gauge := |fanouts|;
    }

    method RecordCloses(n: nat)
      modifies this`closes, this`gauge
      ensures closes == old(closes) + n && gauge == |fanouts|
    {
      for i := 0 to n
        invariant closes == old(closes) + i
      {
        closes := closes + 1;
      }
      gauge := |fanouts|;
    }

    /** The connection that was dialed, and its reader. */
    method Connect()
      modifies this
      ensures Abs() == Dialed(old(Abs()))
    {
      conn := Some(dialed);
      readers := readers + {dialed};
      dialed := dialed + 1;
    }

    /** The fanout whose subscribe message was sent. */
    method Register(key: Key)
      requires conn.Some?
      modifies this
      ensures Abs() == Opened(old(Abs()), key)
    {
      fanouts := fanouts[key := |all|];
      all := all + [Fanout(key, conn.value, 0, map[], false)];
      RecordOpen();
    }

    /** The section of acquire under the broker's lock.  `f` is the fanout to attach to. */
    method AcquireFanout(key: Key, dialOk: bool, sendOk: bool) returns (f: Option<nat>)
      modifies this
      ensures Abs() == Do(old(Abs()), Acquire(key, dialOk, sendOk))
      ensures if old(closing) || (old(conn).None? && !dialOk) then f.None? && Abs() == old(Abs())
              else
                && conn == (if old(conn).Some? then old(conn) else Some(old(dialed)))
                && if key in old(fanouts) then
                     f == Some(old(fanouts)[key]) && fanouts == old(fanouts) && all == old(all) && opens == old(opens)
                   else if !sendOk then f.None? && fanouts == old(fanouts) && all == old(all) && opens == old(opens)
                   else
                     && f == Some(|old(all)|) && fanouts == old(fanouts)[key := |old(all)|]
                     && all == old(all) + [Fanout(key, conn.value, 0, map[], false)] && opens == old(opens) + 1
    {
      hide Do;
      DoIsAcquire(Abs(), key, dialOk, sendOk);
      if closing {
        return None;
      }
      if conn.None? {
        if !dialOk {
          return None;
        }
        Connect();
      }
      if key !in fanouts {
        if !sendOk {
          return None;
        }
        Register(key);
      }
      return Some(fanouts[key]);
    }

    /** The section of acquire under the fanout's lock. */
    method AttachTarget(f: nat) returns (ch: Chan)
      requires f < |all|
      modifies this
      ensures Abs() == Do(old(Abs()), Attach(f))
      ensures old(all)[f].terminal ==> ch in closed
      ensures !old(all)[f].terminal ==> ch in Values(all[f].targets)
      ensures ch == old(made) && |all| == |old(all)|
      ensures all[f].targets
              == if old(all)[f].terminal then old(all)[f].targets
                 else old(all)[f].targets[old(all)[f].nextID := ch]
    {
      ch := made;
      made := made + 1;
      if all[f].terminal {
        closed := closed + multiset{ch};
        return;
      }
      var id := all[f].nextID;
      var targets := all[f].targets[id := ch];
      all := all[f := all[f].(nextID := id + 1, targets := targets)];
      assert id in all[f].targets && all[f].targets[id] == ch;
    }

    /** The section of a release under the fanout's lock; `empty` says that the broker's section comes next. */
    method ReleaseFromFanout(f: nat, id: nat) returns (empty: bool)
      requires f < |all|
      modifies this
      ensures Abs() == Do(old(Abs()), ReleaseTarget(f, id))
      ensures empty == (all[f].targets == map[] && !all[f].terminal)
      ensures id in old(all)[f].targets ==> old(all)[f].targets[id] in closed
      ensures |all| == |old(all)| && all[f].targets == old(all)[f].targets - {id}
    {
      if id in all[f].targets {
        closed := closed + multiset{all[f].targets[id]};
        all := all[f := all[f].(targets := all[f].targets - {id})];
      }
      assert |all[f].targets| == 0 <==> all[f].targets == map[];
      empty := |all[f].targets| == 0 && !all[f].terminal;
    }

    /** The section of a last release, or of removeFanout, under the broker's lock; `last` says that the connection
        is shut down next. */
    method RemoveFanout(f: nat) returns (last: bool)
      requires f < |all|
      modifies this
      ensures Abs() == Do(old(Abs()), Drop(f))
      ensures last == (fanouts == map[] && conn.Some?)
      ensures var key := all[f].key;
              if key in old(fanouts) && old(fanouts)[key] == f
              then fanouts == old(fanouts) - {key} && closes == old(closes) + 1
              else fanouts == old(fanouts) && closes == old(closes)
    {
      var key := all[f].key;
      if key in fanouts && fanouts[key] == f {
        fanouts := fanouts - {key};
        RecordCloses(1);
      }
      assert |fanouts| == 0 <==> fanouts == map[];
      last := |fanouts| == 0 && conn.Some?;
    }

    /** `doomed` are the fanouts to terminate once the lock is released. */
    method ShutdownBegin() returns (doomed: set<nat>)
      modifies this
      ensures Abs() == Do(old(Abs()), BeginShutdown)
      ensures doomed == if old(closing) then {} else old(fanouts).Values
      ensures !old(closing) ==>
                closing && fanouts == map[] && conn.None? && closes == old(closes) + |old(fanouts)| && gauge == 0
    {
      if closing {
        return {};
      }
      closing := true;
      doomed := fanouts.Values;
      var n := |fanouts|;
      fanouts := map[];
      conn := None;
      RecordCloses(n);
    }

    method ShutdownEnd()
      requires closing
      modifies this
      ensures Abs() == Do(old(Abs()), EndShutdown)
    {
      closing := false;
    }

    method FailAllFanouts(reader: nat) returns (doomed: set<nat>)
      requires reader in readers
      modifies this
      ensures Abs() == Do(old(Abs()), FailAll(reader))
      ensures doomed == old(fanouts).Values
      ensures reader !in readers && fanouts == map[] && conn.None? && closes == old(closes) + |old(fanouts)|
    {
      doomed := fanouts.Values;
      var n := |fanouts|;
      readers := readers - {reader};
      fanouts := map[];
      conn := None;
      RecordCloses(n);
    }

    /** The section of terminate under the fanout's lock. */
    method TerminateFanout(f: nat) returns (doomed: set<Chan>)
      requires f < |all|
      modifies this
      ensures Abs() == Do(old(Abs()), Terminate(f))
      ensures doomed == if old(all)[f].terminal then {} else Values(old(all)[f].targets)
      ensures |all| == |old(all)| && all[f].terminal && doomed <= pending
      ensures !old(all)[f].terminal ==> all[f].targets == map[]
    {
      if all[f].terminal {
        return {};
      }
      doomed := Values(all[f].targets);
      pending := pending + doomed;
      all := all[f := all[f].(targets := map[], terminal := true)];
    }

    /** The loop at the end of terminate: each of the given channels is closed once. */
    method CloseChannels(doomed: set<Chan>)
      requires doomed <= pending
      modifies this`pending, this`closed
      ensures pending == old(pending) - doomed
      ensures closed == old(closed) + multiset(doomed)
    {
      var left := doomed;
      while left != {}
        invariant left <= doomed && left <= pending
        invariant pending == old(pending) - (doomed - left)
        invariant closed == old(closed) + multiset(doomed - left)
        decreases |left|
      {
        var c :| c in left;
        ghost var before := closed;
        assert doomed - (left - {c}) == (doomed - left) + {c};
        assert multiset((doomed - left) + {c}) == multiset(doomed - left) + multiset{c};
        closed := closed + multiset{c};
        pending := pending - {c};
        left := left - {c};
      }
      assert doomed - {} == doomed;
    }
  }
}
