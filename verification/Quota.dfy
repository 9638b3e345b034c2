/**
 The permit gate: a bucket of permits that is refilled in blocks by a delegate,
 with at most one refill per bucket under way.
 */
module Quota {
  import opened Options

  type uint32 = n: nat | n < 0x1_0000_0000

  /** Times and durations, in milliseconds. */
  type Time = int

  // ------------------------------------------------------------------
  // The bucket

  /** `validUntil` is missing until the first block is installed. */
  datatype Block = Block(permits: int, validUntil: Option<Time>)

  predicate Expired(b: Block, now: Time) {
    b.validUntil.Some? && now > b.validUntil.value
  }

  predicate Live(b: Block, now: Time) {
    b.permits > 0 && !Expired(b, now)
  }

  /** The bucket after an attempt to debit.  A block that ran out of time is emptied. */
  function Debited(b: Block, now: Time): Block {
    if b.permits <= 0 then b
    else if Expired(b, now) then b.(permits := 0)
    else b.(permits := b.permits - 1)
  }

  class Bucket {
    var permits: int
    var validUntil: Option<Time>

    function Contents(): Block
      reads this
    {
      Block(permits, validUntil)
    }

    constructor ()
      ensures Contents() == Block(0, None)
    {
      permits, validUntil := 0, None;
    }

    method TryDebit(now: Time) returns (ok: bool)
      modifies this
      ensures ok == Live(old(Contents()), now)
      ensures Contents() == Debited(old(Contents()), now)
      ensures ok <==> old(permits) > 0 && (old(validUntil).None? || now <= old(validUntil).value)
      ensures ok ==> permits == old(permits) - 1 && validUntil == old(validUntil)
      ensures !ok ==> permits <= 0 && validUntil == old(validUntil)
    {
      if permits <= 0 {
        return false;
      }
      if validUntil.Some? && now > validUntil.value {
        permits := 0;
        return false;
      }
      permits := permits - 1;
      return true;
    }

    method Install(p: int, until: Time)
      modifies this
      ensures Contents() == Block(p, Some(until))
    {
      permits := p;
      validUntil := Some(until);
    }

    method PermitsLive(now: Time) returns (live: bool)
      ensures live == Live(Contents(), now)
      ensures live <==> permits > 0 && (validUntil.None? || now <= validUntil.value)
    {
      if permits <= 0 {
        return false;
      }
      if validUntil.Some? && now > validUntil.value {
        return false;
      }
      return true;
    }
  }

  // ------------------------------------------------------------------
  // The delegate's answer

  /** What the operator set; a field that is not positive stands for its default. */
  datatype QuotaOptions = QuotaOptions(
    blockLimit: uint32,
    emergency: uint32,
    windowLimit: Time,
    emergencyWindow: Time,
    enforce: bool)
  {
    function MaxBlockSize(): (n: uint32) ensures n > 0 {
      if blockLimit > 0 then blockLimit else 10_000
    }

    function EmergencyPermits(): (n: uint32) ensures n > 0 {
      if emergency > 0 then emergency else 1
    }

    function MaxValidUntil(): (d: Time) ensures d > 0 {
      if windowLimit > 0 then windowLimit else 3_600_000
    }

    function EmergencyTTL(): (d: Time) ensures d > 0 {
      if emergencyWindow > 0 then emergencyWindow else 5_000
    }
  }

  datatype Code = Ok | Denied | Unavailable

  /** `Unavailable` stands for every code but the first two; no response at all is None. */
  datatype Response = Response(code: Code, granted: uint32, validUntil: Option<Time>)

  datatype Refill = Granted(permits: int, validUntil: Time) | Refused(retryAfter: Time)

  /** The conversion to 32 bits keeps the bit pattern. */
  function ToInt32(n: uint32): int {
    if n < 0x8000_0000 then n else n - 0x1_0000_0000
  }

  function ValidUntil(o: QuotaOptions, given: Option<Time>, now: Time): Time {
    var limit := now + o.MaxValidUntil();
    if given.Some? && given.value < limit then
      if given.value > now then given.value else now + o.EmergencyTTL()
    else limit
  }

  function RetryAfter(o: QuotaOptions, given: Option<Time>, now: Time): Time {
    if given.Some? && given.value > now then given.value - now else o.EmergencyTTL()
  }

  function Outage(o: QuotaOptions, now: Time): Refill {
    if o.enforce then Refused(o.EmergencyTTL())
    else Granted(ToInt32(o.EmergencyPermits()), now + o.EmergencyTTL())
  }

  function Answer(o: QuotaOptions, r: Option<Response>, now: Time): Refill {
    if r.None? then Outage(o, now)
    else
      match r.value.code
      case Ok =>
        if r.value.granted == 0 then Refused(RetryAfter(o, r.value.validUntil, now))
        else
          var grant: uint32 := if r.value.granted > o.MaxBlockSize() then o.MaxBlockSize() else r.value.granted;
          Granted(ToInt32(grant), ValidUntil(o, r.value.validUntil, now))
      case Denied => Refused(RetryAfter(o, r.value.validUntil, now))
      case Unavailable => Outage(o, now)
  }

  /** The window made from the delegate's time always ends in the future, and exceeds the operator's limit exactly if
      that time has passed and the emergency window is longer than the limit. */
  lemma WindowLimit(o: QuotaOptions, given: Option<Time>, now: Time)
    ensures ValidUntil(o, given, now) > now
    ensures ValidUntil(o, given, now) > now + o.MaxValidUntil()
            <==> given.Some? && given.value <= now && o.EmergencyTTL() > o.MaxValidUntil()
  {
    assert o.MaxValidUntil() > 0 && o.EmergencyTTL() > 0;
  }

  /** The emergency window stands in: there is no decision, or the delegate named a time that has passed. */
  predicate EmergencyCase(r: Option<Response>, now: Time) {
    NoDecision(r) || (r.value.validUntil.Some? && r.value.validUntil.value <= now)
  }

  /** Every block that is granted ends in the future, and exceeds the operator's limit exactly if the emergency window
      stands in and is longer than the limit. */
  lemma GrantWindow(o: QuotaOptions, r: Option<Response>, now: Time)
    ensures var a := Answer(o, r, now);
            a.Granted? ==>
              && a.validUntil > now
              && (a.validUntil > now + o.MaxValidUntil()
                  <==> o.EmergencyTTL() > o.MaxValidUntil() && EmergencyCase(r, now))
  {
    if r.Some? {
      WindowLimit(o, r.value.validUntil, now);
    }
    assert o.MaxValidUntil() > 0 && o.EmergencyTTL() > 0;
  }

  /** Both cases are met: an outage, and a delegate whose clock is behind. */
  lemma LimitExceeded(o: QuotaOptions, now: Time)
    requires !o.enforce && o.EmergencyTTL() > o.MaxValidUntil()
    ensures forall r | r == None || r == Some(Response(Ok, 1, Some(now))) ::
              Answer(o, r, now).Granted? && Answer(o, r, now).validUntil > now + o.MaxValidUntil()
  {
    GrantWindow(o, None, now);
    GrantWindow(o, Some(Response(Ok, 1, Some(now))), now);
  }

  /** The delegate could not be asked, or did not decide. */
  predicate NoDecision(r: Option<Response>) {
    r.None? || r.value.code == Unavailable
  }

  /** A count in 32 bits, read as a signed number. */
  predicate SameBits(p: int, n: uint32) {
    -0x8000_0000 <= p < 0x8000_0000 && (p == n || p == n - 0x1_0000_0000)
  }

  /** What an answer has to be.  A block is granted on Ok with permits, or without a decision unless enforcing; the
      first has the delegate's permits and time within the operator's limits, the second the emergency size and window.
      A refusal waits for the delegate's time, if that is ahead. */
  predicate AnswersTo(o: QuotaOptions, r: Option<Response>, now: Time, a: Refill) {
    var given := if NoDecision(r) then None else r.value.validUntil;
    match a
    case Granted(permits, until) =>
      if NoDecision(r) then
        !o.enforce && SameBits(permits, o.EmergencyPermits()) && until == now + o.EmergencyTTL()
      else
        && r.value.code == Ok && r.value.granted > 0
        && (r.value.granted <= o.MaxBlockSize() ==> SameBits(permits, r.value.granted))
        && (r.value.granted > o.MaxBlockSize() ==> SameBits(permits, o.MaxBlockSize()))
        && (given.None? || given.value >= now + o.MaxValidUntil() ==> until == now + o.MaxValidUntil())
        && (given.Some? && now < given.value < now + o.MaxValidUntil() ==> until == given.value)
        && (given.Some? && given.value <= now ==> until == now + o.EmergencyTTL())
    case Refused(wait) =>
      && (if NoDecision(r) then o.enforce else r.value.code == Denied || r.value.granted == 0)
      && wait == (if given.Some? && given.value > now then given.value - now else o.EmergencyTTL())
  }

  lemma AnswerExactly(o: QuotaOptions, r: Option<Response>, now: Time, a: Refill)
    ensures AnswersTo(o, r, now, a) <==> a == Answer(o, r, now)
  {
    assert o.MaxValidUntil() > 0;
  }

  /** The block sizes that fit the bucket's 32-bit counter. */
  predicate Fits(o: QuotaOptions) {
    o.MaxBlockSize() < 0x8000_0000 && (o.enforce || o.EmergencyPermits() < 0x8000_0000)
  }

  predicate GoodAnswer(o: QuotaOptions, a: Refill, now: Time) {
    match a
    case Granted(p, until) =>
      0 < p && until > now && (p <= o.MaxBlockSize() || (!o.enforce && p == o.EmergencyPermits()))
    case Refused(d) => d > 0
  }

  /** Whatever the delegate answers, the block installed has permits and time left and is no larger than allowed, and
      a refusal names a time to wait, if and only if the operator's block sizes fit the counter. */
  lemma AnswersGoodExactly(o: QuotaOptions)
    ensures Fits(o) <==> forall r, now :: GoodAnswer(o, Answer(o, r, now), now)
  {
    forall r, now ensures Fits(o) ==> GoodAnswer(o, Answer(o, r, now), now) {
      if r.Some? {
        WindowLimit(o, r.value.validUntil, now);
      }
    }
    if o.MaxBlockSize() >= 0x8000_0000 {
      var r := Some(Response(Ok, o.MaxBlockSize(), None));
      assert !GoodAnswer(o, Answer(o, r, 0), 0);
    } else if !o.enforce && o.EmergencyPermits() >= 0x8000_0000 {
      assert !GoodAnswer(o, Answer(o, None, 0), 0);
    }
  }

  // ------------------------------------------------------------------
  // A call with the bucket to itself

  const RETRIES := 4

  /** The clock at the debit, at the look before the refill, and at the delegate's answer, and that answer. */
  datatype Round = Round(debitAt: Time, lookAt: Time, answerAt: Time, response: Option<Response>)

  /** The bucket after the call, and whether the call is let through. */
  function CheckAlone(o: QuotaOptions, b: Block, rounds: seq<Round>): (Block, bool)
    decreases |rounds|
  {
    if rounds == [] then (b, false)
    else
      var now := rounds[0];
      var left := Debited(b, now.debitAt);
      if Live(b, now.debitAt) then (left, true)
      else if Live(left, now.lookAt) then CheckAlone(o, left, rounds[1..])
      else
        match Answer(o, now.response, now.answerAt)
        case Refused(_) => (left, false)
        case Granted(p, until) => CheckAlone(o, Block(p, Some(until)), rounds[1..])
  }

  method RefillBucket(b: Bucket, o: QuotaOptions, r: Option<Response>, now: Time) returns (a: Refill)
    modifies b
    ensures a == Answer(o, r, now) && AnswersTo(o, r, now, a)
    ensures b.Contents() == if a.Granted? then Block(a.permits, Some(a.validUntil)) else old(b.Contents())
  {
    a := Answer(o, r, now);
    AnswerExactly(o, r, now, a);
    if a.Granted? {
      b.Install(a.permits, a.validUntil);
    }
  }

  method Check(b: Bucket, o: QuotaOptions, rounds: seq<Round>) returns (ok: bool)
    requires |rounds| == RETRIES
    modifies b
    ensures (b.Contents(), ok) == CheckAlone(o, old(b.Contents()), rounds)
  {
    hide Answer;
    for attempt := 0 to RETRIES
      invariant CheckAlone(o, b.Contents(), rounds[attempt..]) == CheckAlone(o, old(b.Contents()), rounds)
    {
      var round := rounds[attempt];
      assert rounds[attempt..][0] == round && rounds[attempt..][1..] == rounds[attempt + 1..];
      ok := b.TryDebit(round.debitAt);
      if ok {
        return;
      }
      var live := b.PermitsLive(round.lookAt);
      if !live {
        var a := RefillBucket(b, o, round.response, round.answerAt);
        if a.Refused? {
          return false;
        }
      }
    }
    return false;
  }

  /** Alone, a call needs one refill at most: it passes if the bucket is live or the delegate grants a block that is
      still valid at the second attempt, and it leaves that block one permit short; a refusal costs nothing. */
  lemma AloneNeedsOneRefill(o: QuotaOptions, b: Block, rounds: seq<Round>)
    requires Fits(o) && |rounds| == RETRIES && rounds[0].debitAt <= rounds[0].lookAt
    ensures var a := Answer(o, rounds[0].response, rounds[0].answerAt);
            var r := CheckAlone(o, b, rounds);
            if Live(b, rounds[0].debitAt) then r == (b.(permits := b.permits - 1), true)
            else if a.Refused? then !r.1 && r.0 == Debited(b, rounds[0].debitAt)
            else rounds[1].debitAt <= a.validUntil ==> r == (Block(a.permits - 1, Some(a.validUntil)), true)
  {
    hide Answer;
    AnswersGoodExactly(o);
    assert GoodAnswer(o, Answer(o, rounds[0].response, rounds[0].answerAt), rounds[0].answerAt);
    assert rounds[1..][0] == rounds[1];
  }

  // ------------------------------------------------------------------
  // Calls to check, step by step

  /** Where a call stands: about to read the clock, about to debit, to refill, waiting for a refill, or back. */
  datatype Pc =
    | Trying(attempt: nat)
    | Timed(attempt: nat, now: Time)
    | Refilling(attempt: nat)
    | Waiting(attempt: nat, flight: nat)
    | Accepted
    | Rejected

  /** A refill: look whether the bucket is live, ask the delegate, install; then, with the result fixed, calls may still
      join until the refill is forgotten. */
  datatype Phase =
    | Checking
    | CheckTimed(now: Time)
    | Calling
    | Installing(permits: int, validUntil: Time)
    | Ending(granted: bool)

  /** `flights` holds the results of the refills that have ended; the one under way, if any, has the next number.
      `tried` counts the debits each call has attempted, and `installed`, `debits` and `discarded` count permits. */
  datatype State = State(
    clock: Time,
    block: Block,
    calls: map<nat, Pc>,
    flights: seq<bool>,
    current: Option<Phase>,
    installed: int,
    debits: int,
    discarded: int,
    tried: map<nat, nat>)

  datatype Step =
    | Tick(to: Time)
    | Arrive(t: nat)
    | ReadClock(t: nat)
    | Debit(t: nat)
    | StartRefill(t: nat)
    | FlightReadsClock
    | FlightChecks
    | Respond(r: Option<Response>)
    | Install
    | Finish
    | Resume(t: nat)

  const START: State := State(0, Block(0, None), map[], [], None, 0, 0, 0, map[])

  function Pos(n: int): int {
    if n > 0 then n else 0
  }

  function Tried(s: State, t: nat): nat {
    if t in s.tried then s.tried[t] else 0
  }

  function DoDebit(s: State, t: nat): State
    requires t in s.calls && s.calls[t].Timed?
  {
    var pc := s.calls[t];
    var next := s.(block := Debited(s.block, pc.now), tried := s.tried[t := Tried(s, t) + 1]);
    if Live(s.block, pc.now) then next.(calls := s.calls[t := Accepted], debits := s.debits + 1)
    else next.(calls := s.calls[t := Refilling(pc.attempt)], discarded := s.discarded + Pos(s.block.permits))
  }

  /** The first caller starts a refill, the others wait for its result. */
  function DoRefill(s: State, t: nat): State
    requires t in s.calls && s.calls[t].Refilling?
  {
    var next := s.(calls := s.calls[t := Waiting(s.calls[t].attempt, |s.flights|)]);
    if s.current.Some? then next else next.(current := Some(Checking))
  }

  function DoInstall(s: State): State
    requires s.current.Some? && s.current.value.Installing?
  {
    var p := s.current.value;
    s.(block := Block(p.permits, Some(p.validUntil)),
       current := Some(Ending(true)),
       installed := s.installed + p.permits,
       discarded := s.discarded + Pos(s.block.permits))
  }

  function DoResume(s: State, t: nat): State
    requires t in s.calls && s.calls[t].Waiting? && s.calls[t].flight < |s.flights|
  {
    var pc := s.calls[t];
    var next :=
      if s.flights[pc.flight] && pc.attempt + 1 < RETRIES then Trying(pc.attempt + 1) else Rejected;
    s.(calls := s.calls[t := next])
  }

  predicate Enabled(s: State, step: Step) {
    match step
    case Tick(to) => to >= s.clock
    case Arrive(t) => t !in s.calls
    case ReadClock(t) => t in s.calls && s.calls[t].Trying?
    case Debit(t) => t in s.calls && s.calls[t].Timed?
    case StartRefill(t) => t in s.calls && s.calls[t].Refilling?
    case FlightReadsClock => s.current == Some(Checking)
    case FlightChecks => s.current.Some? && s.current.value.CheckTimed?
    case Respond(_) => s.current == Some(Calling)
    case Install => s.current.Some? && s.current.value.Installing?
    case Finish => s.current.Some? && s.current.value.Ending?
    case Resume(t) => t in s.calls && s.calls[t].Waiting? && s.calls[t].flight < |s.flights|
  }

  function Do(o: QuotaOptions, s: State, step: Step): State
    requires Enabled(s, step)
  {
    match step
    case Tick(to) => s.(clock := to)
    case Arrive(t) => s.(calls := s.calls[t := Trying(0)])
    case ReadClock(t) => s.(calls := s.calls[t := Timed(s.calls[t].attempt, s.clock)])
    case Debit(t) => DoDebit(s, t)
    case StartRefill(t) => DoRefill(s, t)
    case FlightReadsClock => s.(current := Some(CheckTimed(s.clock)))
    case FlightChecks =>
      s.(current := Some(if Live(s.block, s.current.value.now) then Ending(true) else Calling))
    case Respond(r) =>
      (match Answer(o, r, s.clock)
       case Granted(p, until) => s.(current := Some(Installing(p, until)))
       case Refused(_) => s.(current := Some(Ending(false))))
    case Install => DoInstall(s)
    case Finish => s.(current := None, flights := s.flights + [s.current.value.granted])
    case Resume(t) => DoResume(s, t)
  }

  // ------------------------------------------------------------------
  // The invariant

  function AcceptedCalls(s: State): set<nat> {
    set t | t in s.calls && s.calls[t].Accepted?
  }

  predicate Conserved(s: State) {
    && s.installed == s.debits + s.block.permits + s.discarded
    && s.block.permits >= 0 && s.debits >= 0 && s.discarded >= 0
    && s.debits == |AcceptedCalls(s)|
  }

  predicate CallSound(s: State, pc: Pc) {
    match pc
    case Trying(k) => k < RETRIES
    case Timed(k, now) => k < RETRIES && now <= s.clock
    case Refilling(k) => k < RETRIES
    case Waiting(k, f) => k < RETRIES && f <= |s.flights| && (f == |s.flights| ==> s.current.Some?)
    case _ => true
  }

  predicate CallsSound(s: State) {
    forall t | t in s.calls :: CallSound(s, s.calls[t])
  }

  /** Once a refill has found the bucket dry or out of time, it stays so until the refill installs its block. */
  predicate FlightSound(s: State) {
    s.current.Some? ==>
      match s.current.value
      case Checking => true
      case CheckTimed(now) => now <= s.clock
      case Ending(_) => true
      case Calling => !Live(s.block, s.clock)
      case Installing(p, until) => p > 0 && !Live(s.block, s.clock)
  }

  /** The attempt a call is at says how often it has tried to debit. */
  predicate TriesAt(pc: Pc, tried: nat) {
    match pc
    case Trying(k) => tried == k
    case Timed(k, _) => tried == k
    case Refilling(k) => tried == k + 1
    case Waiting(k, _) => tried == k + 1
    case _ => 0 < tried <= RETRIES
  }

  predicate TriesCounted(s: State) {
    && (forall t | t in s.tried :: t in s.calls)
    && forall t | t in s.calls :: TriesAt(s.calls[t], Tried(s, t))
  }

  predicate Inv(s: State) {
    Conserved(s) && CallsSound(s) && FlightSound(s) && TriesCounted(s)
  }

  lemma AcceptedUpdate(s: State, t: nat, pc: Pc)
    requires t in s.calls ==> !s.calls[t].Accepted?
    ensures var a := AcceptedCalls(s.(calls := s.calls[t := pc]));
            |a| == |AcceptedCalls(s)| + if pc.Accepted? then 1 else 0
  {
    var u := s.(calls := s.calls[t := pc]);
    assert t !in AcceptedCalls(s);
    if pc.Accepted? {
      assert AcceptedCalls(u) == AcceptedCalls(s) + {t};
    } else {
      assert AcceptedCalls(u) == AcceptedCalls(s);
    }
  }

  lemma SameAccepted(s: State, u: State)
    ensures s.calls == u.calls ==> AcceptedCalls(s) == AcceptedCalls(u)
  {
  }

  lemma StepConserves(o: QuotaOptions, s: State, step: Step)
    requires Fits(o) && Inv(s) && Enabled(s, step)
    ensures Conserved(Do(o, s, step))
  {
    hide Answer, AcceptedCalls, CallSound;
    var u := Do(o, s, step);
    match step
    case Arrive(t) =>
      AcceptedUpdate(s, t, u.calls[t]);
    case ReadClock(t) =>
      AcceptedUpdate(s, t, u.calls[t]);
    case Debit(t) =>
      AcceptedUpdate(s, t, u.calls[t]);
      SameAccepted(s.(calls := u.calls), u);
    case StartRefill(t) =>
      AcceptedUpdate(s, t, u.calls[t]);
      SameAccepted(s.(calls := u.calls), u);
    case Resume(t) =>
      AcceptedUpdate(s, t, u.calls[t]);
    case _ =>
      SameAccepted(s, u);
  }

  lemma StepKeepsCalls(o: QuotaOptions, s: State, step: Step)
    requires Inv(s) && Enabled(s, step)
    ensures CallsSound(Do(o, s, step))
  {
    hide Answer, Conserved, FlightSound;
  }

  lemma StepKeepsFlight(o: QuotaOptions, s: State, step: Step)
    requires Fits(o) && Inv(s) && Enabled(s, step)
    ensures FlightSound(Do(o, s, step))
  {
    hide Answer, Conserved, CallSound;
    if step.Respond? {
      AnswersGoodExactly(o);
      assert GoodAnswer(o, Answer(o, step.r, s.clock), s.clock);
    }
  }

  lemma TriesUpdate(s: State, u: State, t: nat, pc: Pc)
    requires TriesCounted(s) && u.calls == s.calls[t := pc] && TriesAt(pc, Tried(u, t))
    requires u.tried == s.tried || u.tried == s.tried[t := Tried(s, t) + 1]
    ensures TriesCounted(u)
  {
    forall c | c in u.calls ensures TriesAt(u.calls[c], Tried(u, c)) {
      assert c != t ==> Tried(u, c) == Tried(s, c);
    }
  }

  lemma TriesOf(s: State, t: nat)
    ensures TriesCounted(s) ==> if t in s.calls then TriesAt(s.calls[t], Tried(s, t)) else Tried(s, t) == 0
  {
  }

  lemma SameTries(s: State, u: State)
    ensures TriesCounted(s) && s.calls == u.calls && s.tried == u.tried ==> TriesCounted(u)
  {
  }

  lemma StepKeepsTries(o: QuotaOptions, s: State, step: Step)
    requires Inv(s) && Enabled(s, step)
    ensures TriesCounted(Do(o, s, step))
  {
    hide Answer, Conserved, FlightSound, TriesCounted;
    var u := Do(o, s, step);
    if step.Arrive? || step.ReadClock? || step.Debit? || step.StartRefill? || step.Resume? {
      assert step.t in s.calls ==> CallSound(s, s.calls[step.t]);
      TriesOf(s, step.t);
      TriesUpdate(s, u, step.t, u.calls[step.t]);
    } else {
      SameTries(s, u);
    }
  }

  lemma StepKeepsInv(o: QuotaOptions, s: State, step: Step)
    requires Fits(o) && Inv(s) && Enabled(s, step)
    ensures Inv(Do(o, s, step))
  {
    hide Do, Conserved, CallsSound, FlightSound, TriesCounted;
    StepKeepsTries(o, s, step);
    StepConserves(o, s, step);
    StepKeepsCalls(o, s, step);
    StepKeepsFlight(o, s, step);
  }

  // ------------------------------------------------------------------
  // Runs

  function Run(o: QuotaOptions, steps: seq<Step>): Option<State> {
    if steps == [] then Some(START)
    else
      var r := Run(o, steps[..|steps| - 1]);
      if r.Some? && Enabled(r.value, steps[|steps| - 1]) then Some(Do(o, r.value, steps[|steps| - 1])) else None
  }

  lemma StartInv()
    ensures Inv(START)
  {
    assert AcceptedCalls(START) == {};
  }

  lemma {:induction false} RunKeepsInv(o: QuotaOptions, steps: seq<Step>)
    requires Fits(o)
    ensures Run(o, steps).Some? ==> Inv(Run(o, steps).value)
    decreases |steps|
  {
    hide Do, Enabled, Inv;
    StartInv();
    if steps != [] {
      var r := Run(o, steps[..|steps| - 1]);
      RunKeepsInv(o, steps[..|steps| - 1]);
      if r.Some? && Enabled(r.value, steps[|steps| - 1]) {
        StepKeepsInv(o, r.value, steps[|steps| - 1]);
      }
    }
  }

  lemma RunMore(o: QuotaOptions, steps: seq<Step>, step: Step) returns (more: seq<Step>)
    requires Run(o, steps).Some? && Enabled(Run(o, steps).value, step)
    ensures more == steps + [step] && Run(o, more) == Some(Do(o, Run(o, steps).value, step))
  {
    more := steps + [step];
    assert more[..|steps|] == steps;
  }

  /** The clock does not go back. */
  predicate Ascending(clock: Time, rounds: seq<Round>) {
    && (rounds != [] ==> clock <= rounds[0].debitAt)
    && (forall i | 0 <= i < |rounds| :: rounds[i].debitAt <= rounds[i].lookAt <= rounds[i].answerAt)
    && forall i, j | 0 <= i < j < |rounds| :: rounds[i].answerAt <= rounds[j].debitAt
  }

  lemma AscendingTail(clock: Time, rounds: seq<Round>, later: Time)
    requires Ascending(clock, rounds) && |rounds| > 1 && later <= rounds[0].answerAt
    ensures Ascending(later, rounds[1..])
  {
    assert rounds[0].answerAt <= rounds[1].debitAt;
  }

  /** A debit at some time, in a run. */
  lemma DebitRun(o: QuotaOptions, before: seq<Step>, t: nat, k: nat, at: Time) returns (steps: seq<Step>)
    requires Run(o, before).Some?
    requires var s := Run(o, before).value; t in s.calls && s.calls[t] == Trying(k) && s.clock <= at
    ensures before <= steps && Run(o, steps).Some?
    ensures var s, u := Run(o, before).value, Run(o, steps).value;
            && u.clock == at && u.block == Debited(s.block, at) && u.current == s.current && u.flights == s.flights
            && u.calls == s.calls[t := if Live(s.block, at) then Accepted else Refilling(k)]
  {
    hide Run, Answer, Live, Debited;
    steps := RunMore(o, before, Tick(at));
    steps := RunMore(o, steps, ReadClock(t));
    steps := RunMore(o, steps, Debit(t));
  }

  /** A refill by a call that is alone, up to the look at the bucket. */
  lemma LookRun(o: QuotaOptions, before: seq<Step>, t: nat, k: nat, at: Time) returns (steps: seq<Step>)
    requires Run(o, before).Some?
    requires var s := Run(o, before).value;
             t in s.calls && s.calls[t] == Refilling(k) && s.clock <= at && s.current.None?
    ensures before <= steps && Run(o, steps).Some?
    ensures var s, u := Run(o, before).value, Run(o, steps).value;
            && u.clock == at && u.block == s.block && u.flights == s.flights
            && u.calls == s.calls[t := Waiting(k, |s.flights|)]
            && u.current == Some(if Live(s.block, at) then Ending(true) else Calling)
  {
    hide Run, Answer, Live;
    steps := RunMore(o, before, StartRefill(t));
    steps := RunMore(o, steps, Tick(at));
    steps := RunMore(o, steps, FlightReadsClock);
    steps := RunMore(o, steps, FlightChecks);
  }

  /** The delegate's answer, and what follows from it. */
  lemma AnswerRun(o: QuotaOptions, before: seq<Step>, at: Time, r: Option<Response>) returns (steps: seq<Step>)
    requires Run(o, before).Some?
    requires Run(o, before).value.clock <= at && Run(o, before).value.current == Some(Calling)
    ensures before <= steps && Run(o, steps).Some?
    ensures var s, u := Run(o, before).value, Run(o, steps).value;
            var a := Answer(o, r, at);
            && u.clock == at && u.flights == s.flights && u.calls == s.calls
            && u.current == Some(Ending(a.Granted?))
            && u.block == if a.Granted? then Block(a.permits, Some(a.validUntil)) else s.block
  {
    hide Run, Answer;
    steps := RunMore(o, before, Tick(at));
    steps := RunMore(o, steps, Respond(r));
    if Answer(o, r, at).Granted? {
      steps := RunMore(o, steps, Install);
    }
  }

  /** The end of a refill, and its caller's next attempt. */
  lemma ResumeRun(o: QuotaOptions, before: seq<Step>, t: nat, k: nat) returns (steps: seq<Step>)
    requires Run(o, before).Some?
    requires var s := Run(o, before).value;
             s.current.Some? && s.current.value.Ending? && t in s.calls && s.calls[t] == Waiting(k, |s.flights|)
    ensures before <= steps && Run(o, steps).Some?
    ensures var s, u := Run(o, before).value, Run(o, steps).value;
            && u.clock == s.clock && u.block == s.block && u.current.None?
            && u.calls == s.calls[t := if s.current.value.granted && k + 1 < RETRIES then Trying(k + 1) else Rejected]
  {
    hide Run, Answer;
    steps := RunMore(o, before, Finish);
    steps := RunMore(o, steps, Resume(t));
  }

  /** The steps of a call that nobody disturbs do what the loop does: from every reachable state with no refill under
      way, the run can go on so that the call ends with the loop's result, and the bucket with the loop's block. */
  lemma {:induction false} AloneIsLoop(o: QuotaOptions, before: seq<Step>, t: nat, k: nat, rounds: seq<Round>)
    returns (steps: seq<Step>)
    requires Run(o, before).Some? && k < RETRIES && |rounds| == RETRIES - k
    requires var s := Run(o, before).value;
             t in s.calls && s.calls[t] == Trying(k) && s.current.None? && Ascending(s.clock, rounds)
    ensures before <= steps && Run(o, steps).Some?
    ensures var s, u := Run(o, before).value, Run(o, steps).value;
            var r := CheckAlone(o, s.block, rounds);
            u.block == r.0 && u.current.None? && u.calls == s.calls[t := if r.1 then Accepted else Rejected]
    decreases |rounds|
  {
    hide Run, Answer, Live, Debited;
    var s, now := Run(o, before).value, rounds[0];
    steps := DebitRun(o, before, t, k, now.debitAt);
    if Live(s.block, now.debitAt) {
      return;
    }
    steps := LookRun(o, steps, t, k, now.lookAt);
    if !Live(Debited(s.block, now.debitAt), now.lookAt) {
      steps := AnswerRun(o, steps, now.answerAt, now.response);
    }
    ghost var granted := Run(o, steps).value.current.value.granted;
    steps := ResumeRun(o, steps, t, k);
    if granted && k + 1 < RETRIES {
      AscendingTail(s.clock, rounds, Run(o, steps).value.clock);
      steps := AloneIsLoop(o, steps, t, k + 1, rounds[1..]);
    } else if granted {
      assert rounds[1..] == [];
    }
  }

  /** Over every interleaving: what was installed was debited, is left, or was discarded; permits never go below zero;
      each accepted call paid for one debit and nobody else did. */
  lemma Conservation(o: QuotaOptions, steps: seq<Step>)
    requires Fits(o)
    ensures Run(o, steps).Some? ==>
              var s := Run(o, steps).value;
              && s.installed == s.debits + s.block.permits + s.discarded
              && s.block.permits >= 0
              && s.debits == |AcceptedCalls(s)|
  {
    hide Run;
    RunKeepsInv(o, steps);
  }

  /** A call that could spend a permit now: its debit would succeed, with the clock as it read it. */
  ghost predicate CanSpend(o: QuotaOptions, s: State, t: nat) {
    Enabled(s, Debit(t)) && Do(o, s, Debit(t)).debits > s.debits
  }

  /** In every reachable state in which a block is about to be installed, the bucket holds no permit that is live at the
      current time.  Permits that are overwritten could still have been spent if and only if there are some, and a call
      holds a clock reading from inside their window. */
  lemma InstallOverwrites(o: QuotaOptions, steps: seq<Step>)
    requires Fits(o) && Run(o, steps).Some? && Enabled(Run(o, steps).value, Install)
    ensures var s := Run(o, steps).value;
            && !Live(s.block, s.clock)
            && ((exists t: nat :: CanSpend(o, s, t))
                <==> s.block.permits > 0 && s.block.validUntil.Some?
                     && exists t | t in s.calls :: s.calls[t].Timed? && s.calls[t].now <= s.block.validUntil.value)
  {
    hide Run, Conserved, CallsSound, TriesCounted;
    RunKeepsInv(o, steps);
    var s := Run(o, steps).value;
    forall t | t in s.calls && s.calls[t].Timed?
      ensures CanSpend(o, s, t) <==> Live(s.block, s.calls[t].now)
    {
    }
  }

  /** It happens: call 2 finds the bucket empty, call 1 reads the clock at 0, and after the window of the first block
      call 2 is about to install the next one, while call 1 can still spend a permit of the first. */
  lemma SpendableOverwritten() returns (steps: seq<Step>)
    ensures Run(DEFAULTS, steps).Some?
    ensures var s := Run(DEFAULTS, steps).value;
            Enabled(s, Install) && s.block.permits == 5 && CanSpend(DEFAULTS, s, 1)
  {
    hide Run, Answer;
    steps := OneRefills();
    steps := RunMore(DEFAULTS, steps, Arrive(1));
    steps := RunMore(DEFAULTS, steps, ReadClock(1));
    steps := RunMore(DEFAULTS, steps, Tick(20));
    steps := RunMore(DEFAULTS, steps, StartRefill(2));
    steps := RunMore(DEFAULTS, steps, FlightReadsClock);
    steps := RunMore(DEFAULTS, steps, FlightChecks);
    Grants();
    steps := RunMore(DEFAULTS, steps, Respond(Some(Response(Ok, 1, None))));
  }

  const DEFAULTS := QuotaOptions(0, 0, 0, 0, false)

  lemma OneRefills() returns (steps: seq<Step>)
    ensures Run(DEFAULTS, steps).Some?
    ensures var s := Run(DEFAULTS, steps).value;
            && s.clock == 0 && s.block == Block(5, Some(10)) && s.current.None?
            && 2 in s.calls && s.calls[2] == Refilling(0) && 1 !in s.calls
  {
    hide Run, Answer;
    steps := TwoFail();
    steps := RunMore(DEFAULTS, steps, StartRefill(0));
    steps := RunMore(DEFAULTS, steps, FlightReadsClock);
    steps := RunMore(DEFAULTS, steps, FlightChecks);
    Grants();
    steps := RunMore(DEFAULTS, steps, Respond(Some(Response(Ok, 5, Some(10)))));
    steps := RunMore(DEFAULTS, steps, Install);
    steps := RunMore(DEFAULTS, steps, Finish);
  }

  lemma TwoFail() returns (steps: seq<Step>)
    ensures Run(DEFAULTS, steps).Some?
    ensures var s := Run(DEFAULTS, steps).value;
            && s.clock == 0 && s.block == Block(0, None) && s.current.None?
            && s.calls == map[0 := Refilling(0), 2 := Refilling(0)]
  {
    hide Run, Answer;
    RunNone();
    steps := RunMore(DEFAULTS, [], Arrive(0));
    steps := RunMore(DEFAULTS, steps, ReadClock(0));
    steps := RunMore(DEFAULTS, steps, Debit(0));
    steps := RunMore(DEFAULTS, steps, Arrive(2));
    steps := RunMore(DEFAULTS, steps, ReadClock(2));
    steps := RunMore(DEFAULTS, steps, Debit(2));
  }

  lemma Grants()
    ensures Answer(DEFAULTS, Some(Response(Ok, 5, Some(10))), 0) == Granted(5, 10)
    ensures Answer(DEFAULTS, Some(Response(Ok, 1, None)), 20) == Granted(1, 3_600_020)
  {
  }

  lemma RunNone()
    ensures Run(DEFAULTS, []) == Some(START)
  {
  }

  /** Permits are thrown away only after their window has closed. */
  lemma OnlyExpiredDiscarded(o: QuotaOptions, s: State, step: Step)
    requires Fits(o) && Inv(s) && Enabled(s, step) && Do(o, s, step).discarded != s.discarded
    ensures s.block.permits > 0 && Expired(s.block, s.clock)
    ensures Do(o, s, step).discarded == s.discarded + s.block.permits
  {
    hide Answer;
    if step.Debit? {
      assert CallSound(s, s.calls[step.t]);
    }
  }

  /** Over every interleaving a call tries to debit four times at most, and a call that is back has tried at least
      once. */
  lemma AttemptsBounded(o: QuotaOptions, steps: seq<Step>, t: nat)
    requires Fits(o)
    ensures Run(o, steps).Some? ==>
              var s := Run(o, steps).value;
              && Tried(s, t) <= RETRIES
              && (t in s.calls && (s.calls[t].Accepted? || s.calls[t].Rejected?) ==> Tried(s, t) > 0)
  {
    hide Run;
    RunKeepsInv(o, steps);
    if Run(o, steps).Some? && t in Run(o, steps).value.calls {
      assert CallSound(Run(o, steps).value, Run(o, steps).value.calls[t]);
    }
  }
}
