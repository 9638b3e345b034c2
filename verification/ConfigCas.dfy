/**
 Changes to the shared MCP configuration: read the record, change it, and write
 it back under the revision that was read, up to ten times.
 */
module ConfigCas {
  import opened McpGlob
  import opened Options

  /** The bytes stored under the key: a configuration, or something that does not decode. */
  datatype Payload = Encoded(cfg: Config) | Malformed

  const EMPTY: Config := Config(false, [], [])

  function Decode(p: Payload): Config {
    if p.Encoded? then p.cfg else EMPTY
  }

  type Change = Config -> Config

  /** Who wrote a record: one of the calls, or a plain put. */
  datatype Author = Call(id: nat) | Plain

  datatype Commit = Commit(rev: nat, payload: Payload, author: Author)

  /** All writes the store accepted, oldest first; the last one is the record. */
  type Log = seq<Commit>

  function LastRev(log: Log): nat {
    if log == [] then 0 else log[|log| - 1].rev
  }

  /** Revisions are positive and grow. */
  predicate Ordered(log: Log) {
    && (forall i | 0 <= i < |log| :: log[i].rev > 0)
    && forall i, j | 0 <= i < j < |log| :: log[i].rev < log[j].rev
  }

  /** A change starts from the record before it, or from its own seed if there is none. */
  function Base(log: Log, k: nat, seed: Config): Config
    requires k <= |log|
  {
    if k == 0 then seed else Decode(log[k - 1].payload)
  }

  function Append(log: Log, gap: nat, payload: Payload, author: Author): Log {
    log + [Commit(LastRev(log) + 1 + gap, payload, author)]
  }

  /** A write under revision `rev` is accepted if that is still the record's; 0 means that there must be none. */
  predicate Accepts(log: Log, rev: nat) {
    if rev == 0 then log == [] else log != [] && LastRev(log) == rev
  }

  lemma AppendOrdered(log: Log, gap: nat, payload: Payload, author: Author)
    ensures Ordered(log) ==> Ordered(Append(log, gap, payload, author))
  {
  }

  /** What was read is the base of a write that is accepted under the revision read. */
  predicate ReadAt(log: Log, seed: Config, cur: Config, rev: nat) {
    if rev == 0 then cur == seed
    else exists k | 0 <= k < |log| :: log[k].rev == rev && cur == Decode(log[k].payload)
  }

  lemma AcceptedOnBase(log: Log, seed: Config, cur: Config, rev: nat)
    requires Ordered(log) && ReadAt(log, seed, cur, rev) && Accepts(log, rev)
    ensures cur == Base(log, |log|, seed)
  {
    if rev != 0 {
      var k :| 0 <= k < |log| && log[k].rev == rev && cur == Decode(log[k].payload);
      assert k == |log| - 1;
    }
  }

  lemma ReadStays(log: Log, c: Commit, seed: Config, cur: Config, rev: nat)
    requires ReadAt(log, seed, cur, rev)
    ensures ReadAt(log + [c], seed, cur, rev)
  {
    if rev != 0 {
      var k :| 0 <= k < |log| && log[k].rev == rev && cur == Decode(log[k].payload);
      assert (log + [c])[k] == log[k];
    }
  }

  lemma ReadNow(log: Log, seed: Config)
    requires Ordered(log)
    ensures ReadAt(log, seed, Base(log, |log|, seed), LastRev(log))
  {
    if log != [] {
      assert log[|log| - 1].rev == LastRev(log);
    }
  }

  // ------------------------------------------------------------------
  // The store, and one gateway's loop against it

  class Store {
    var log: Log

    constructor ()
      ensures log == []
    {
      log := [];
    }

    method Get() returns (entry: Option<(Payload, nat)>)
      ensures entry.None? <==> log == []
      ensures entry.Some? ==> entry.value == (log[|log| - 1].payload, LastRev(log))
    {
      if log == [] {
        return None;
      }
      return Some((log[|log| - 1].payload, LastRev(log)));
    }

    method Put(payload: Payload)
      requires Ordered(log)
      modifies this
      ensures log == Append(old(log), 0, payload, Plain) && Ordered(log)
    {
      AppendOrdered(log, 0, payload, Plain);
      log := Append(log, 0, payload, Plain);
    }

    /** Create for revision 0, Update for the others. */
    method Write(payload: Payload, rev: nat, author: Author) returns (ok: bool)
      requires Ordered(log)
      modifies this
      ensures ok == Accepts(old(log), rev) && Ordered(log)
      ensures log == if ok then Append(old(log), 0, payload, author) else old(log)
    {
      ok := Accepts(log, rev);
      if ok {
        AppendOrdered(log, 0, payload, author);
        log := Append(log, 0, payload, author);
      }
    }
  }

  const ATTEMPTS := 10

  /** What happens around one attempt: whether the read gets through, what others put between read and write, whether
      the write gets through, and whether the caller gives up during the wait behind it. */
  datatype Attempt = Attempt(getOk: bool, between: seq<Payload>, writeOk: bool, cancelled: bool)

  /** Read and write get through, and nobody writes in between. */
  predicate Undisturbed(a: Attempt) {
    a.getOk && a.writeOk && a.between == []
  }

  predicate Foreign(log: Log, from: nat, me: Author) {
    forall k | from <= k < |log| :: log[k].author != me
  }

  method TryMutate(kv: Store, seed: Config, mut: Change, me: Author, a: Attempt) returns (r: Option<Config>)
    requires Ordered(kv.log) && me != Plain
    modifies kv
    ensures Ordered(kv.log) && old(kv.log) <= kv.log
    ensures r.Some? <==> Undisturbed(a)
    ensures r.None? ==> Foreign(kv.log, |old(kv.log)|, me)
    ensures r.Some? ==>
              && |kv.log| > |old(kv.log)|
              && Foreign(kv.log[..|kv.log| - 1], |old(kv.log)|, me)
              && kv.log[|kv.log| - 1].author == me
              && kv.log[|kv.log| - 1].payload == Encoded(r.value)
              && r.value == mut(Base(kv.log, |kv.log| - 1, seed))
  {
    hide Ordered, ReadAt, Append, Accepts, Decode;
    if !a.getOk {
      return None;
    }
    var entry := kv.Get();
    var cur, rev := seed, 0;
    if entry.Some? {
      cur, rev := Decode(entry.value.0), entry.value.1;
    }
    ghost var seen := kv.log;
    ReadNow(seen, seed);
    OthersPut(kv, a.between);
    if !a.writeOk {
      return None;
    }
    ghost var before := kv.log;
    ReadExtends(seen, before, seed, cur, rev);
    Overtaken(seen, before);
    if Accepts(before, rev) {
      AcceptedOnBase(before, seed, cur, rev);
    }
    cur := mut(cur);
    var ok := kv.Write(Encoded(cur), rev, me);
    if !ok {
      return None;
    }
    AppendedLast(before, Encoded(cur), me, seed);
    return Some(cur);
  }

  /** The plain puts of others. */
  method OthersPut(kv: Store, payloads: seq<Payload>)
    requires Ordered(kv.log)
    modifies kv
    ensures Ordered(kv.log) && old(kv.log) <= kv.log
    ensures |kv.log| == |old(kv.log)| + |payloads|
    ensures forall k | |old(kv.log)| <= k < |kv.log| :: kv.log[k].author == Plain
  {
    hide Ordered;
    for i := 0 to |payloads|
      invariant Ordered(kv.log) && old(kv.log) <= kv.log && |kv.log| == |old(kv.log)| + i
      invariant forall k | |old(kv.log)| <= k < |kv.log| :: kv.log[k].author == Plain
    {
      kv.Put(payloads[i]);
    }
  }

  lemma ReadExtends(log: Log, more: Log, seed: Config, cur: Config, rev: nat)
    requires ReadAt(log, seed, cur, rev) && log <= more
    ensures ReadAt(more, seed, cur, rev)
  {
    if rev != 0 {
      var k :| 0 <= k < |log| && log[k].rev == rev && cur == Decode(log[k].payload);
      assert more[k] == log[k];
    }
  }

  /** The revision that was read is accepted if and only if nobody has written since. */
  lemma Overtaken(log: Log, more: Log)
    requires Ordered(more) && log <= more
    ensures Accepts(more, LastRev(log)) <==> more == log
  {
    if log != [] {
      assert more[|log| - 1] == log[|log| - 1];
    }
  }

  lemma AppendedLast(before: Log, payload: Payload, me: Author, seed: Config)
    ensures var log := Append(before, 0, payload, me);
            && |log| == |before| + 1 && before <= log
            && log[..|log| - 1] == before && log[|log| - 1].author == me && log[|log| - 1].payload == payload
            && Base(log, |log| - 1, seed) == Base(before, |before|, seed)
  {
    var log := Append(before, 0, payload, me);
    assert log[..|log| - 1] == before;
  }

  /** A change that succeeds is in the log once, on top of its immediate predecessor, however many others write in
      between; a change that fails is not in the log at all. */
  method ClusterMutate(kv: Store, seed: Config, mut: Change, me: Author, env: seq<Attempt>) returns (r: Option<Config>)
    requires Ordered(kv.log) && me != Plain && |env| == ATTEMPTS
    modifies kv
    ensures Ordered(kv.log) && old(kv.log) <= kv.log
    ensures r.Some? <==>
            exists k :: 0 <= k < ATTEMPTS && Undisturbed(env[k]) && forall j | 0 <= j < k :: !env[j].cancelled
    ensures r.None? ==> Foreign(kv.log, |old(kv.log)|, me)
    ensures r.Some? ==>
              && |kv.log| > |old(kv.log)|
              && Foreign(kv.log[..|kv.log| - 1], |old(kv.log)|, me)
              && kv.log[|kv.log| - 1].author == me
              && kv.log[|kv.log| - 1].payload == Encoded(r.value)
              && r.value == mut(Base(kv.log, |kv.log| - 1, seed))
  {
    hide Ordered, Base, Undisturbed;
    for attempt := 0 to ATTEMPTS
      invariant forall k | 0 <= k < attempt :: !Undisturbed(env[k]) && !env[k].cancelled
      invariant Ordered(kv.log) && old(kv.log) <= kv.log
      invariant Foreign(kv.log, |old(kv.log)|, me)
    {
      r := TryMutate(kv, seed, mut, me, env[attempt]);
      if r.Some? {
        return;
      }
      if env[attempt].cancelled {
        return None;
      }
    }
    return None;
  }

  // ------------------------------------------------------------------
  // Any number of gateways

  datatype Pc = Trying(attempt: nat) | Read(attempt: nat, cur: Config, rev: nat) | Done(cfg: Config) | GivenUp

  datatype Caller = Caller(seed: Config, mut: Change, pc: Pc)

  datatype State = State(log: Log, callers: map<nat, Caller>)

  datatype Step =
    | Begin(i: nat, seed: Config, mut: Change)
    | Get(i: nat, ok: bool)
    | Write(i: nat, ok: bool, gap: nat)
    | Cancel(i: nat)
    | PlainPut(payload: Payload, gap: nat)

  function WithPc(s: State, i: nat, pc: Pc): State
    requires i in s.callers
  {
    s.(callers := s.callers[i := s.callers[i].(pc := pc)])
  }

  function Again(attempt: nat): Pc {
    if attempt + 1 < ATTEMPTS then Trying(attempt + 1) else GivenUp
  }

  predicate Enabled(s: State, step: Step) {
    match step
    case Begin(i, _, _) => i !in s.callers
    case Get(i, _) => i in s.callers && s.callers[i].pc.Trying?
    case Write(i, _, _) => i in s.callers && s.callers[i].pc.Read?
    case Cancel(i) => i in s.callers && s.callers[i].pc.Trying?
    case PlainPut(_, _) => true
  }

  function DoWrite(s: State, i: nat, ok: bool, gap: nat): State
    requires i in s.callers && s.callers[i].pc.Read?
  {
    var c := s.callers[i];
    if ok && Accepts(s.log, c.pc.rev) then
      var next := c.mut(c.pc.cur);
      WithPc(s.(log := Append(s.log, gap, Encoded(next), Call(i))), i, Done(next))
    else WithPc(s, i, Again(c.pc.attempt))
  }

  function Do(s: State, step: Step): State
    requires Enabled(s, step)
  {
    match step
    case Begin(i, seed, mut) => s.(callers := s.callers[i := Caller(seed, mut, Trying(0))])
    case Get(i, ok) =>
      var c := s.callers[i];
      if ok then WithPc(s, i, Read(c.pc.attempt, Base(s.log, |s.log|, c.seed), LastRev(s.log)))
      else WithPc(s, i, Again(c.pc.attempt))
    case Write(i, ok, gap) => DoWrite(s, i, ok, gap)
    case Cancel(i) => WithPc(s, i, GivenUp)
    case PlainPut(payload, gap) => s.(log := Append(s.log, gap, payload, Plain))
  }

  /** The writes of the calls form a chain: each holds its caller's change of the record before it. */
  predicate Chained(s: State) {
    forall k | 0 <= k < |s.log| && s.log[k].author.Call? ::
      var i := s.log[k].author.id;
      && i in s.callers
      && s.log[k].payload == Encoded(s.callers[i].mut(Base(s.log, k, s.callers[i].seed)))
  }

  function WritesOf(log: Log, i: nat): set<nat> {
    set k | 0 <= k < |log| && log[k].author == Call(i)
  }

  /** A call that came back with a configuration wrote it once; every other call wrote nothing. */
  ghost predicate Settled(log: Log, i: nat, pc: Pc) {
    if pc.Done? then exists k :: WritesOf(log, i) == {k} && k < |log| && log[k].payload == Encoded(pc.cfg)
    else WritesOf(log, i) == {}
  }

  ghost predicate OncePerSuccess(s: State) {
    && (forall i | i in s.callers :: Settled(s.log, i, s.callers[i].pc))
    && forall i | i !in s.callers :: WritesOf(s.log, i) == {}
  }

  predicate ReadsSound(s: State) {
    forall i | i in s.callers && s.callers[i].pc.Read? ::
      ReadAt(s.log, s.callers[i].seed, s.callers[i].pc.cur, s.callers[i].pc.rev)
  }

  ghost predicate Inv(s: State) {
    Ordered(s.log) && Chained(s) && OncePerSuccess(s) && ReadsSound(s)
  }

  lemma StepKeepsChain(s: State, step: Step)
    requires Inv(s) && Enabled(s, step)
    ensures Ordered(Do(s, step).log) && Chained(Do(s, step))
  {
    hide OncePerSuccess, WritesOf;
    match step
    case Write(i, ok, gap) =>
      var c := s.callers[i];
      if ok && Accepts(s.log, c.pc.rev) {
        AcceptedOnBase(s.log, c.seed, c.pc.cur, c.pc.rev);
        AppendOrdered(s.log, gap, Encoded(c.mut(c.pc.cur)), Call(i));
        ChainGrows(s, Do(s, step));
      } else {
        ChainStays(s, Do(s, step));
      }
    case PlainPut(payload, gap) =>
      AppendOrdered(s.log, gap, payload, Plain);
      ChainGrows(s, Do(s, step));
    case _ => ChainStays(s, Do(s, step));
  }

  ghost predicate SameCalls(s: State, t: State) {
    forall i | i in s.callers ::
      i in t.callers && t.callers[i].mut == s.callers[i].mut && t.callers[i].seed == s.callers[i].seed
  }

  lemma ChainStays(s: State, t: State)
    requires Chained(s) && t.log == s.log && SameCalls(s, t)
    ensures Chained(t)
  {
  }

  lemma ChainGrows(s: State, t: State)
    requires Chained(s) && |t.log| == |s.log| + 1 && t.log[..|s.log|] == s.log && SameCalls(s, t)
    requires var c := t.log[|s.log|];
             c.author.Call? ==>
               && c.author.id in t.callers
               && c.payload == Encoded(t.callers[c.author.id].mut(Base(s.log, |s.log|, t.callers[c.author.id].seed)))
    ensures Chained(t)
  {
    forall k | 0 <= k < |t.log| && t.log[k].author.Call?
      ensures var i := t.log[k].author.id;
              && i in t.callers
              && t.log[k].payload == Encoded(t.callers[i].mut(Base(t.log, k, t.callers[i].seed)))
    {
      forall j | 0 <= j < |s.log| ensures t.log[j] == s.log[j] {
        assert t.log[..|s.log|][j] == t.log[j];
      }
    }
  }

  lemma StepKeepsReads(s: State, step: Step)
    requires Inv(s) && Enabled(s, step)
    ensures ReadsSound(Do(s, step))
  {
    hide OncePerSuccess, WritesOf, Chained, ReadAt, Ordered;
    var t := Do(s, step);
    forall i | i in t.callers && t.callers[i].pc.Read?
      ensures ReadAt(t.log, t.callers[i].seed, t.callers[i].pc.cur, t.callers[i].pc.rev)
    {
      if step.Get? && step.i == i {
        ReadNow(s.log, s.callers[i].seed);
      } else if t.log != s.log {
        ReadStays(s.log, t.log[|s.log|], s.callers[i].seed, s.callers[i].pc.cur, s.callers[i].pc.rev);
      }
    }
  }

  lemma WritesGrow(log: Log, c: Commit, i: nat)
    ensures WritesOf(log + [c], i) == WritesOf(log, i) + if c.author == Call(i) then {|log|} else {}
  {
  }

  /** A commit by someone else, and the commit with which the call comes back. */
  lemma SettledGrow(log: Log, c: Commit, i: nat, pc: Pc)
    ensures c.author != Call(i) && Settled(log, i, pc) ==> Settled(log + [c], i, pc)
    ensures c.author == Call(i) && WritesOf(log, i) == {} && pc.Done? && c.payload == Encoded(pc.cfg) ==>
              Settled(log + [c], i, pc)
  {
    hide WritesOf;
    WritesGrow(log, c, i);
    if c.author != Call(i) && pc.Done? && Settled(log, i, pc) {
      var k :| WritesOf(log, i) == {k} && k < |log| && log[k].payload == Encoded(pc.cfg);
      assert WritesOf(log + [c], i) == {k};
    } else if c.author == Call(i) && WritesOf(log, i) == {} {
      assert WritesOf(log + [c], i) == {|log|};
    }
  }

  lemma StepKeepsOnce(s: State, step: Step)
    requires Inv(s) && Enabled(s, step)
    ensures OncePerSuccess(Do(s, step))
  {
    hide Chained, ReadsSound, Ordered, WritesOf, Accepts;
    var t := Do(s, step);
    if t.log != s.log {
      var c := t.log[|s.log|];
      assert t.log == s.log + [c];
      forall i: nat ensures WritesOf(t.log, i) == WritesOf(s.log, i) + if c.author == Call(i) then {|s.log|} else {} {
        WritesGrow(s.log, c, i);
      }
      forall i | i in t.callers ensures Settled(t.log, i, t.callers[i].pc) {
        SettledGrow(s.log, c, i, t.callers[i].pc);
      }
    }
  }

  lemma StepKeepsInv(s: State, step: Step)
    requires Inv(s) && Enabled(s, step)
    ensures Inv(Do(s, step))
  {
    hide Do, Ordered, Chained, OncePerSuccess, ReadsSound;
    StepKeepsChain(s, step);
    StepKeepsReads(s, step);
    StepKeepsOnce(s, step);
  }

  /** The next attempt of ten, if there is one. */
  predicate TriesAgain(attempt: nat, next: Pc) {
    if attempt < 9 then next == Trying(attempt + 1) else next == GivenUp
  }

  /** A read that gets through sees the last record under its revision, or the seed under 0 if there is none. */
  lemma ReadsExactly(s: State, i: nat, ok: bool)
    requires Inv(s) && Enabled(s, Get(i, ok))
    ensures var t, c := Do(s, Get(i, ok)), s.callers[i];
            && t.log == s.log
            && if !ok then TriesAgain(c.pc.attempt, t.callers[i].pc)
               else if s.log == [] then t.callers[i].pc == Read(c.pc.attempt, c.seed, 0)
               else
                 var last := s.log[|s.log| - 1];
                 t.callers[i].pc
                 == Read(c.pc.attempt, if last.payload.Encoded? then last.payload.cfg else EMPTY, last.rev)
  {
    hide Chained, OncePerSuccess, ReadAt, Ordered;
  }

  /** A write commits if and only if it gets through and the revision it was read under is still the last one. */
  lemma CommitsExactly(s: State, i: nat, ok: bool, gap: nat)
    requires Inv(s) && Enabled(s, Write(i, ok, gap))
    ensures var t, pc := Do(s, Write(i, ok, gap)), s.callers[i].pc;
            && (t.callers[i].pc.Done? <==> ok && pc.rev == LastRev(s.log))
            && (t.callers[i].pc.Done? ==>
                  && |t.log| == |s.log| + 1 && s.log <= t.log && t.log[|s.log|].author == Call(i)
                  && t.log[|s.log|].payload == Encoded(s.callers[i].mut(Base(s.log, |s.log|, s.callers[i].seed)))
                  && t.callers[i].pc.cfg == s.callers[i].mut(Base(s.log, |s.log|, s.callers[i].seed)))
            && (!t.callers[i].pc.Done? ==> t.log == s.log && TriesAgain(pc.attempt, t.callers[i].pc))
  {
    hide Chained, OncePerSuccess, ReadAt;
    var c := s.callers[i];
    if Accepts(s.log, c.pc.rev) {
      AcceptedOnBase(s.log, c.seed, c.pc.cur, c.pc.rev);
    }
  }

  function Run(steps: seq<Step>): Option<State> {
    if steps == [] then Some(State([], map[]))
    else
      var r := Run(steps[..|steps| - 1]);
      if r.Some? && Enabled(r.value, steps[|steps| - 1]) then Some(Do(r.value, steps[|steps| - 1])) else None
  }

  lemma StartInv()
    ensures Inv(State([], map[]))
  {
  }

  /** No update is lost: over every interleaving of any number of calls and plain puts, each committed change was
      applied to its immediate predecessor, and a call returns a configuration exactly if its change is in the log,
      where it is once. */
  lemma {:induction false} NoLostUpdate(steps: seq<Step>)
    ensures Run(steps).Some? ==>
              var s := Run(steps).value;
              && Inv(s) && Chained(s)
              && forall i | i in s.callers :: |WritesOf(s.log, i)| == (if s.callers[i].pc.Done? then 1 else 0)
    decreases |steps|
  {
    hide Do, Enabled, Chained, WritesOf, Ordered, ReadsSound;
    StartInv();
    if steps != [] {
      var r := Run(steps[..|steps| - 1]);
      NoLostUpdate(steps[..|steps| - 1]);
      if r.Some? && Enabled(r.value, steps[|steps| - 1]) {
        StepKeepsInv(r.value, steps[|steps| - 1]);
      }
    }
  }
}
