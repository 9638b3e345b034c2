/**
 Channel patterns and the tiers they guard.  A pattern is a list of segments,
 where `*` stands for one segment and a final `>` for one or more.
 */
module ChannelAuth {

  import opened DotSegments

  // ------------------------------------------------------------------
  // Matching

  predicate Matches(p: Segments, c: Segments) {
    if p == [] then c == []
    else if p[0] == ">" then |p| == 1 && c != []
    else c != [] && (p[0] == "*" || p[0] == c[0]) && Matches(p[1..], c[1..])
  }

  /** The first `n` segments correspond, and they are all there are, or a final `>` stands for the rest, of one
      at least. */
  predicate MatchesUpTo(p: Segments, c: Segments, n: nat) {
    && (if n < |p| then n == |p| - 1 && p[n] == ">" && n < |c| else n == |p| == |c|)
    && forall i | 0 <= i < n :: p[i] != ">" && (p[i] == "*" || p[i] == c[i])
  }

  lemma UpToStep(p: Segments, c: Segments, n: nat)
    requires p != [] && c != [] && p[0] != ">"
    ensures MatchesUpTo(p, c, n + 1) <==> (p[0] == "*" || p[0] == c[0]) && MatchesUpTo(p[1..], c[1..], n)
  {
    var q, d := p[1..], c[1..];
    assert n < |q| ==> q[n] == p[n + 1];
    if MatchesUpTo(p, c, n + 1) {
      forall i | 0 <= i < n ensures q[i] != ">" && (q[i] == "*" || q[i] == d[i]) {
        assert p[i + 1] != ">" && (p[i + 1] == "*" || p[i + 1] == c[i + 1]);
      }
    }
    if (p[0] == "*" || p[0] == c[0]) && MatchesUpTo(q, d, n) {
      forall i | 0 <= i < n + 1 ensures p[i] != ">" && (p[i] == "*" || p[i] == c[i]) {
        if i > 0 {
          assert p[i] == q[i - 1] && c[i] == d[i - 1];
        }
      }
    }
  }

  lemma {:induction false} MatchesExactly(p: Segments, c: Segments)
    ensures Matches(p, c) <==> exists n: nat :: MatchesUpTo(p, c, n)
    decreases |p|
  {
    if p == [] || p[0] == ">" || c == [] {
      assert Matches(p, c) <==> MatchesUpTo(p, c, 0);
      if n: nat :| MatchesUpTo(p, c, n) {
        assert n == 0;
      }
    } else {
      MatchesExactly(p[1..], c[1..]);
      if n: nat :| MatchesUpTo(p, c, n) {
        assert n > 0;
        UpToStep(p, c, n - 1);
      } else if m: nat :| MatchesUpTo(p[1..], c[1..], m) {
        UpToStep(p, c, m);
      }
    }
  }

  predicate ChannelMatches(pattern: string, channel: string) {
    pattern != "" && channel != "" && Matches(Split(pattern), Split(channel))
  }

  method MatchChannel(pattern: string, channel: string) returns (r: bool)
    ensures r == ChannelMatches(pattern, channel)
  {
    hide Matches, SplitFrom, SegmentEnd;
    if pattern == "" || channel == "" {
      return false;
    }
    var pi, ci := 0, 0;
    while true
      invariant pi <= |pattern| && ci <= |channel| + 1
      invariant Matches(Split(pattern), Split(channel)) == Matches(SplitFrom(pattern, pi), SplitFrom(channel, ci))
      decreases |pattern| - pi
    {
      var pe := pi;
      while pe < |pattern| && pattern[pe] != '.'
        invariant pi <= pe <= |pattern| && SegmentEnd(pattern, pi) == SegmentEnd(pattern, pe)
      {
        SegmentEndStep(pattern, pe);
        pe := pe + 1;
      }
      SegmentEndStep(pattern, pe);
      var segment := pattern[pi..pe];
      var last := pe == |pattern|;
      MatchStep(pattern, pi, channel, ci);
      if segment == ">" {
        return last && ci <= |channel|;
      }
      if ci > |channel| {
        return false;
      }
      var ce := ci;
      while ce < |channel| && channel[ce] != '.'
        invariant ci <= ce <= |channel| && SegmentEnd(channel, ci) == SegmentEnd(channel, ce)
      {
        SegmentEndStep(channel, ce);
        ce := ce + 1;
      }
      SegmentEndStep(channel, ce);
      if segment != "*" && segment != channel[ci..ce] {
        return false;
      }
      ci := ce + 1;
      if last {
        MatchEnd(pattern, channel, ci);
        return ci > |channel|;
      }
      pi := pe + 1;
    }
  }

  /** One segment of the pattern against one segment of the channel. */
  lemma MatchStep(p: string, i: nat, c: string, j: nat)
    requires i <= |p| && j <= |c| + 1
    ensures Matches(SplitFrom(p, i), SplitFrom(c, j)) ==
            var pe := SegmentEnd(p, i);
            if p[i..pe] == ">" then pe == |p| && j <= |c|
            else
              && j <= |c|
              && var ce := SegmentEnd(c, j);
                 (p[i..pe] == "*" || p[i..pe] == c[j..ce]) && Matches(SplitFrom(p, pe + 1), SplitFrom(c, ce + 1))
  {
    hide Matches, SplitFrom, SegmentEnd;
    SplitStep(p, i);
    if j <= |c| {
      SplitStep(c, j);
    } else {
      SplitEnd(c, j);
    }
    MatchesUnfold(SplitFrom(p, i), SplitFrom(c, j));
  }

  lemma MatchesUnfold(p: Segments, c: Segments)
    ensures p != [] ==>
              Matches(p, c) == if p[0] == ">" then p[1..] == [] && c != []
                               else c != [] && (p[0] == "*" || p[0] == c[0]) && Matches(p[1..], c[1..])
  {
  }

  lemma MatchEnd(p: string, c: string, j: nat)
    ensures j <= |c| + 1 ==> Matches(SplitFrom(p, |p| + 1), SplitFrom(c, j)) == (j > |c|)
  {
  }

  // ------------------------------------------------------------------
  // Well-formed patterns

  predicate ValidTail(p: Segments) {
    forall i | 0 <= i < |p| :: p[i] != "" && '.' !in p[i] && (p[i] == ">" ==> i == |p| - 1)
  }

  predicate ValidPattern(pattern: string) {
    ValidTail(Split(pattern))
  }

  method ValidChannelAuthPattern(pattern: string) returns (ok: bool)
    ensures ok == ValidPattern(pattern)
  {
    var toks := Split(pattern);
    SplitDotFree(pattern, 0);
    for i := 0 to |toks|
      invariant forall j | 0 <= j < i :: toks[j] != "" && (toks[j] == ">" ==> j == |toks| - 1)
    {
      if toks[i] == "" {
        return false;
      } else if toks[i] == ">" && i != |toks| - 1 {
        return false;
      }
    }
    return true;
  }

  /** The segments of a concrete channel. */
  predicate Literal(c: Segments) {
    forall i | 0 <= i < |c| :: c[i] != "" && '.' !in c[i] && c[i] != "*" && c[i] != ">"
  }

  predicate LiteralChannel(channel: string) {
    Literal(Split(channel))
  }

  /** A concrete channel of a pattern: "x" for every wildcard. */
  function Instance(p: Segments): Segments {
    if p == [] then [] else [if p[0] == "*" || p[0] == ">" then "x" else p[0]] + Instance(p[1..])
  }

  lemma {:induction false} InstanceMatches(p: Segments)
    requires ValidTail(p)
    ensures |Instance(p)| == |p| && Literal(Instance(p)) && Matches(p, Instance(p))
    decreases |p|
  {
    if p != [] {
      assert ValidTail(p[1..]);
      InstanceMatches(p[1..]);
    }
  }

  /** A pattern that matches a concrete channel is valid. */
  lemma {:induction false} MatchedIsValid(p: Segments, c: Segments)
    requires (forall i | 0 <= i < |p| :: '.' !in p[i]) && Literal(c) && Matches(p, c)
    ensures ValidTail(p)
    decreases |p|
  {
    if p != [] && p[0] != ">" {
      assert Literal(c[1..]);
      MatchedIsValid(p[1..], c[1..]);
      forall i | 0 <= i < |p| ensures p[i] != "" && (p[i] == ">" ==> i == |p| - 1) {
        if i > 0 {
          assert p[i] == p[1..][i - 1];
        }
      }
    }
  }

  // ------------------------------------------------------------------
  // Intersection and inclusion

  predicate TokensIntersect(a: Segments, b: Segments) {
    if a != [] && b != [] then
      a[0] == ">" || b[0] == ">"
      || ((a[0] == "*" || b[0] == "*" || a[0] == b[0]) && TokensIntersect(a[1..], b[1..]))
    else a == [] && b == []
  }

  predicate TokensCover(a: Segments, b: Segments) {
    if a != [] && b != [] then
      a[0] == ">"
      || (b[0] != ">" && (a[0] == "*" || (b[0] != "*" && a[0] == b[0])) && TokensCover(a[1..], b[1..]))
    else a == [] && b == []
  }

  method Intersect(a: Segments, b: Segments) returns (r: bool)
    ensures r == TokensIntersect(a, b)
  {
    var x, y := a, b;
    while |x| > 0 && |y| > 0
      invariant TokensIntersect(a, b) == TokensIntersect(x, y)
      decreases |x|
    {
      if x[0] == ">" || y[0] == ">" {
        return true;
      } else if x[0] == "*" || y[0] == "*" || x[0] == y[0] {
        x, y := x[1..], y[1..];
      } else {
        return false;
      }
    }
    return |x| == 0 && |y| == 0;
  }

  method Cover(a: Segments, b: Segments) returns (r: bool)
    ensures r == TokensCover(a, b)
  {
    var x, y := a, b;
    while |x| > 0 && |y| > 0
      invariant TokensCover(a, b) == TokensCover(x, y)
      decreases |x|
    {
      if x[0] == ">" {
        return true;
      } else if y[0] == ">" {
        return false;
      } else if x[0] == "*" {
        x, y := x[1..], y[1..];
      } else if y[0] == "*" {
        return false;
      } else if x[0] == y[0] {
        x, y := x[1..], y[1..];
      } else {
        return false;
      }
    }
    return |x| == 0 && |y| == 0;
  }

  lemma ConsTail(x: string, c: Segments)
    ensures ([x] + c)[1..] == c
  {
  }

  lemma LiteralCons(x: string, c: Segments)
    requires Literal(c) && x != "" && '.' !in x && x != "*" && x != ">"
    ensures Literal([x] + c)
  {
  }

  /** Overlapping patterns have a concrete channel in common. */
  lemma {:induction false} CommonChannel(a: Segments, b: Segments) returns (c: Segments)
    requires ValidTail(a) && ValidTail(b) && TokensIntersect(a, b)
    ensures Literal(c) && Matches(a, c) && Matches(b, c)
    decreases |a|
  {
    hide ValidTail, Literal;
    if a == [] {
      c := [];
      LiteralNone();
    } else if a[0] == ">" {
      InstanceMatches(b);
      LastSegment(a, 0);
      c := Instance(b);
    } else if b[0] == ">" {
      InstanceMatches(a);
      LastSegment(b, 0);
      c := Instance(a);
    } else {
      TailValid(a);
      TailValid(b);
      var rest := CommonChannel(a[1..], b[1..]);
      var x := if a[0] != "*" then a[0] else if b[0] != "*" then b[0] else "x";
      ConsTail(x, rest);
      LiteralCons(x, rest);
      c := [x] + rest;
    }
  }

  lemma LiteralNone()
    ensures Literal([])
  {
  }

  lemma LastSegment(p: Segments, i: nat)
    ensures ValidTail(p) && i < |p| && p[i] == ">" ==> i == |p| - 1
  {
  }

  lemma TailValid(p: Segments)
    requires ValidTail(p) && p != []
    ensures ValidTail(p[1..]) && p[0] != "" && '.' !in p[0]
  {
  }

  lemma {:induction false} CommonOverlaps(a: Segments, b: Segments, c: Segments)
    requires Matches(a, c) && Matches(b, c)
    ensures TokensIntersect(a, b)
    decreases |a|
  {
    if a != [] && b != [] && a[0] != ">" && b[0] != ">" {
      CommonOverlaps(a[1..], b[1..], c[1..]);
    }
  }

  /** Two valid patterns intersect if and only if some concrete channel matches both. */
  lemma IntersectExactly(a: Segments, b: Segments)
    requires ValidTail(a) && ValidTail(b)
    ensures TokensIntersect(a, b) <==> exists c :: Literal(c) && Matches(a, c) && Matches(b, c)
  {
    if TokensIntersect(a, b) {
      var c := CommonChannel(a, b);
    } else if c :| Literal(c) && Matches(a, c) && Matches(b, c) {
      CommonOverlaps(a, b, c);
    }
  }

  lemma {:induction false} CoverIncludes(a: Segments, b: Segments, c: Segments)
    requires ValidTail(a) && TokensCover(a, b) && Matches(b, c)
    ensures Matches(a, c)
    decreases |a|
  {
    hide ValidTail;
    if a != [] {
      if a[0] == ">" {
        LastSegment(a, 0);
      } else {
        TailValid(a);
        CoverIncludes(a[1..], b[1..], c[1..]);
      }
    }
  }

  /** A segment that no segment of `p` equals. */
  function Fresh(p: Segments): (x: string)
    ensures x != "" && x[0] == 'x'
    ensures forall i | 0 <= i < |p| :: |p[i]| < |x|
  {
    if p == [] then "x"
    else
      var x := Fresh(p[1..]) + p[0];
      assert forall i | 0 < i < |p| :: p[i] == p[1..][i - 1];
      x
  }

  lemma {:induction false} FreshDotFree(p: Segments)
    requires forall i | 0 <= i < |p| :: '.' !in p[i]
    ensures '.' !in Fresh(p)
    decreases |p|
  {
    if p != [] {
      FreshDotFree(p[1..]);
    }
  }

  /** Where a pattern does not cover another, a concrete channel of the other escapes it. */
  lemma {:induction false} EscapingChannel(a: Segments, b: Segments) returns (c: Segments)
    requires ValidTail(a) && ValidTail(b) && !TokensCover(a, b)
    ensures Literal(c) && Matches(b, c) && !Matches(a, c)
    decreases |b|
  {
    hide ValidTail, Literal;
    if a == [] || b == [] {
      InstanceMatches(b);
      c := Instance(b);
    } else if b[0] == ">" {
      LastSegment(b, 0);
      c := LongerChannel(a);
    } else {
      TailValid(a);
      TailValid(b);
      var unused := FreshSegment(a);
      if TokensCover(a[1..], b[1..]) || (a[0] != "*" && (b[0] == "*" || a[0] != b[0])) {
        // This segment tells them apart.
        InstanceMatches(b[1..]);
        var x := if b[0] == "*" then unused else b[0];
        c := [x] + Instance(b[1..]);
        ConsTail(x, Instance(b[1..]));
        LiteralCons(x, Instance(b[1..]));
      } else {
        var rest := EscapingChannel(a[1..], b[1..]);
        var x := if b[0] == "*" then "x" else b[0];
        c := [x] + rest;
        ConsTail(x, rest);
        LiteralCons(x, rest);
      }
    }
  }

  lemma FreshSegment(a: Segments) returns (x: string)
    requires ValidTail(a)
    ensures x != "" && '.' !in x && x != "*" && x != ">" && (a != [] ==> a[0] != x)
  {
    FreshDotFree(a);
    x := Fresh(a);
  }

  /** A pattern that does not begin with `>` misses some non-empty channel. */
  lemma LongerChannel(a: Segments) returns (c: Segments)
    requires ValidTail(a) && a != [] && a[0] != ">"
    ensures Literal(c) && c != [] && !Matches(a, c)
  {
    if a[0] != "*" {
      var x := FreshSegment(a);
      c := [x];
    } else if |a| == 1 {
      c := ["x", "x"];
      assert c[1..] == ["x"];
    } else {
      c := ["x"];
      assert c[1..] == [];
    }
  }

  /** A valid pattern covers another if and only if it matches every concrete channel the other matches. */
  lemma CoverExactly(a: Segments, b: Segments)
    requires ValidTail(a) && ValidTail(b)
    ensures TokensCover(a, b) <==> forall c | Literal(c) && Matches(b, c) :: Matches(a, c)
  {
    if TokensCover(a, b) {
      forall c | Literal(c) && Matches(b, c) ensures Matches(a, c) {
        CoverIncludes(a, b, c);
      }
    } else {
      var c := EscapingChannel(a, b);
    }
  }

  // ------------------------------------------------------------------
  // Tiers

  datatype Tier = Open | HMAC | Delegate {
    function Rank(): nat {
      match this
      case Open => 0
      case HMAC => 1
      case Delegate => 2
    }
  }

  /** The order of the tiers. */
  predicate AtLeast(a: Tier, b: Tier) {
    a == b || b.Open? || a.Delegate?
  }

  datatype Rule = Rule(pattern: string, tier: Tier)

  /** The tier of a concrete channel: the first rule that matches it, or HMAC. */
  function FirstHit(rules: seq<Rule>, channel: string): Tier {
    if rules == [] then HMAC
    else if ChannelMatches(rules[0].pattern, channel) then rules[0].tier
    else FirstHit(rules[1..], channel)
  }

  predicate PatternsIntersect(a: string, b: string) {
    TokensIntersect(Split(a), Split(b))
  }

  predicate PatternCovers(a: string, b: string) {
    TokensCover(Split(a), Split(b))
  }

  function Stricter(a: Tier, b: Tier): Tier {
    if a.Rank() > b.Rank() then a else b
  }

  /** The strictest tier of the rules that overlap the pattern. */
  function Strictest(rules: seq<Rule>, pattern: string): Tier {
    if rules == [] then Open
    else
      var last := rules[|rules| - 1];
      var rest := Strictest(rules[..|rules| - 1], pattern);
      if PatternsIntersect(last.pattern, pattern) then Stricter(last.tier, rest) else rest
  }

  predicate Covered(rules: seq<Rule>, pattern: string) {
    exists i | 0 <= i < |rules| ::
      PatternsIntersect(rules[i].pattern, pattern) && PatternCovers(rules[i].pattern, pattern)
  }

  /** The tier of a subscription to a pattern. */
  function SubscriptionTier(rules: seq<Rule>, pattern: string): Tier {
    if Covered(rules, pattern) then Strictest(rules, pattern) else Stricter(HMAC, Strictest(rules, pattern))
  }

  /** The first rule that matches decides, and HMAC stands in if none does. */
  ghost predicate DecidedFirst(rules: seq<Rule>, channel: string, tier: Tier) {
    || (tier == HMAC && forall i | 0 <= i < |rules| :: !ChannelMatches(rules[i].pattern, channel))
    || exists i | 0 <= i < |rules| ::
         && ChannelMatches(rules[i].pattern, channel) && rules[i].tier == tier
         && forall j | 0 <= j < i :: !ChannelMatches(rules[j].pattern, channel)
  }

  /** The strictest of the overlapping rules' tiers decides, with HMAC among them unless one of them covers the
      pattern. */
  ghost predicate DecidedStrictest(rules: seq<Rule>, pattern: string, tier: Tier) {
    && (forall i | 0 <= i < |rules| && PatternsIntersect(rules[i].pattern, pattern) ::
          AtLeast(tier, rules[i].tier))
    && (!Covered(rules, pattern) ==> AtLeast(tier, HMAC))
    && ((tier == HMAC && !Covered(rules, pattern))
        || exists i | 0 <= i < |rules| :: PatternsIntersect(rules[i].pattern, pattern) && rules[i].tier == tier)
  }

  method ResolveChannelTier(rules: seq<Rule>, channel: string, wildcard: bool) returns (tier: Tier)
    ensures tier == if wildcard then SubscriptionTier(rules, channel) else FirstHit(rules, channel)
    ensures if wildcard then DecidedStrictest(rules, channel, tier) else DecidedFirst(rules, channel, tier)
  {
    hide ChannelMatches, PatternsIntersect, PatternCovers, DecidedFirst, DecidedStrictest;
    FirstHitIs(rules, channel);
    SubscriptionTierIs(rules, channel);
    if !wildcard {
      for i := 0 to |rules|
        invariant FirstHit(rules, channel) == FirstHit(rules[i..], channel)
      {
        var hit := MatchChannel(rules[i].pattern, channel);
        if hit {
          return rules[i].tier;
        }
        assert rules[i..][1..] == rules[i + 1..];
      }
      return HMAC;
    }
    var strictest := Open;
    var matched := false;
    var fullyCovered := false;
    for i := 0 to |rules|
      invariant strictest == Strictest(rules[..i], channel)
      invariant matched == exists j | 0 <= j < i :: PatternsIntersect(rules[j].pattern, channel)
      invariant fullyCovered ==
        exists j | 0 <= j < i ::
          PatternsIntersect(rules[j].pattern, channel) && PatternCovers(rules[j].pattern, channel)
    {
      assert rules[..i + 1][..i] == rules[..i];
      var overlaps := PatternsIntersect(rules[i].pattern, channel);
      if !overlaps {
        continue;
      }
      matched := true;
      if rules[i].tier.Rank() > strictest.Rank() {
        strictest := rules[i].tier;
      }
      if PatternCovers(rules[i].pattern, channel) {
        fullyCovered := true;
      }
    }
    assert rules[..|rules|] == rules;
    if !matched || !fullyCovered {
      if HMAC.Rank() > strictest.Rank() {
        strictest := HMAC;
      }
    }
    return strictest;
  }

  lemma {:induction false} StrictestBound(rules: seq<Rule>, pattern: string, i: nat)
    requires i < |rules| && PatternsIntersect(rules[i].pattern, pattern)
    ensures Strictest(rules, pattern).Rank() >= rules[i].tier.Rank()
    decreases |rules|
  {
    hide PatternsIntersect;
    if i < |rules| - 1 {
      StrictestBound(rules[..|rules| - 1], pattern, i);
    }
  }

  lemma {:induction false} FirstHitIs(rules: seq<Rule>, channel: string)
    ensures DecidedFirst(rules, channel, FirstHit(rules, channel))
    decreases |rules|
  {
    hide ChannelMatches;
    if rules != [] && !ChannelMatches(rules[0].pattern, channel) {
      var rest := rules[1..];
      FirstHitIs(rest, channel);
      assert forall i | 0 < i < |rules| :: rules[i] == rest[i - 1];
      if i :| 0 <= i < |rest| && ChannelMatches(rest[i].pattern, channel) && rest[i].tier == FirstHit(rest, channel)
              && forall j | 0 <= j < i :: !ChannelMatches(rest[j].pattern, channel) {
        assert rules[i + 1] == rest[i];
      }
    }
  }

  lemma {:induction false} StrictestAttained(rules: seq<Rule>, pattern: string)
    ensures Strictest(rules, pattern) == Open
            || exists i | 0 <= i < |rules| ::
                 PatternsIntersect(rules[i].pattern, pattern) && rules[i].tier == Strictest(rules, pattern)
    decreases |rules|
  {
    hide PatternsIntersect;
    if rules != [] {
      var n, init := |rules| - 1, rules[..|rules| - 1];
      StrictestAttained(init, pattern);
      assert forall i | 0 <= i < n :: rules[i] == init[i];
      assert PatternsIntersect(rules[n].pattern, pattern) ==>
          Strictest(rules, pattern) == rules[n].tier || Strictest(rules, pattern) == Strictest(init, pattern);
    }
  }

  lemma SubscriptionTierIs(rules: seq<Rule>, pattern: string)
    ensures DecidedStrictest(rules, pattern, SubscriptionTier(rules, pattern))
  {
    hide PatternsIntersect, PatternCovers, Strictest;
    StrictestAttained(rules, pattern);
    forall i | 0 <= i < |rules| && PatternsIntersect(rules[i].pattern, pattern)
      ensures rules[i].tier.Rank() <= Strictest(rules, pattern).Rank()
    {
      StrictestBound(rules, pattern, i);
    }
    if Covered(rules, pattern) {
      var i :| 0 <= i < |rules| && PatternsIntersect(rules[i].pattern, pattern);
      assert rules[i].tier.Rank() <= Strictest(rules, pattern).Rank();
    }
  }

  /** A subscription never gets events under a weaker tier than publishing them needs: its tier is at least that of
      every concrete channel it matches, whether a rule matches that channel or not. */
  lemma SubscriptionNeverWeaker(rules: seq<Rule>, pattern: string, channel: string)
    requires forall i | 0 <= i < |rules| :: ValidPattern(rules[i].pattern)
    requires LiteralChannel(channel) && ChannelMatches(pattern, channel)
    ensures AtLeast(SubscriptionTier(rules, pattern), FirstHit(rules, channel))
  {
    hide FirstHit, Strictest, Matches, TokensIntersect, TokensCover, ValidTail, SplitFrom;
    FirstHitIs(rules, channel);
    var c := Split(channel);
    if i :| 0 <= i < |rules| && ChannelMatches(rules[i].pattern, channel) && rules[i].tier == FirstHit(rules, channel) {
      CommonOverlaps(Split(rules[i].pattern), Split(pattern), c);
      StrictestBound(rules, pattern, i);
    } else if Covered(rules, pattern) {
      CoveredIsHit(rules, pattern, channel);
    }
  }

  lemma CoveredIsHit(rules: seq<Rule>, pattern: string, channel: string)
    requires forall i | 0 <= i < |rules| :: ValidPattern(rules[i].pattern)
    requires ChannelMatches(pattern, channel) && Covered(rules, pattern)
    ensures exists i | 0 <= i < |rules| :: ChannelMatches(rules[i].pattern, channel)
  {
    hide ValidTail, TokensCover, TokensIntersect, Matches;
    var i :| 0 <= i < |rules| && PatternsIntersect(rules[i].pattern, pattern)
             && PatternCovers(rules[i].pattern, pattern);
    EmptyInvalid(rules[i].pattern);
    CoverIncludes(Split(rules[i].pattern), Split(pattern), Split(channel));
    assert ChannelMatches(rules[i].pattern, channel);
  }

  lemma EmptyInvalid(pattern: string)
    ensures ValidPattern(pattern) ==> pattern != ""
  {
    assert Split("")[0] == "";
  }

  // ------------------------------------------------------------------
  // Channels as strings

  lemma JoinLiteral(c: Segments)
    requires Literal(c) && c != []
    ensures Split(Join(c)) == c && Join(c) != "" && LiteralChannel(Join(c))
  {
    SplitJoin("", c);
    assert "" + Join(c) == Join(c);
    assert |Join(c)| >= |c[0]|;
  }

  /** A pattern is refused if and only if it matches no concrete channel at all. */
  lemma ValidExactlyIfUseful(pattern: string)
    ensures ValidPattern(pattern) <==> exists ch :: LiteralChannel(ch) && ChannelMatches(pattern, ch)
  {
    hide Matches, SegmentEnd, Join, Literal, ValidTail;
    var p := Split(pattern);
    SplitDotFree(pattern, 0);
    if ValidPattern(pattern) {
      EmptyInvalid(pattern);
      InstanceMatches(p);
      JoinLiteral(Instance(p));
      assert ChannelMatches(pattern, Join(Instance(p)));
    } else if ch :| LiteralChannel(ch) && ChannelMatches(pattern, ch) {
      MatchedIsValid(p, Split(ch));
    }
  }

  /** The intersection test, on strings. */
  lemma PatternsIntersectExactly(a: string, b: string)
    requires ValidPattern(a) && ValidPattern(b)
    ensures PatternsIntersect(a, b)
            <==> exists ch :: LiteralChannel(ch) && ChannelMatches(a, ch) && ChannelMatches(b, ch)
  {
    hide Matches, SegmentEnd, Join, Literal, ValidTail, TokensIntersect;
    EmptyInvalid(a);
    EmptyInvalid(b);
    if PatternsIntersect(a, b) {
      var c := CommonChannel(Split(a), Split(b));
      MatchNonEmpty(Split(a), c);
      JoinLiteral(c);
      assert ChannelMatches(a, Join(c)) && ChannelMatches(b, Join(c));
    } else if ch :| LiteralChannel(ch) && ChannelMatches(a, ch) && ChannelMatches(b, ch) {
      CommonOverlaps(Split(a), Split(b), Split(ch));
    }
  }

  lemma MatchNonEmpty(p: Segments, c: Segments)
    ensures p != [] && Matches(p, c) ==> c != []
  {
  }

  /** The inclusion test, on strings. */
  lemma PatternCoversExactly(a: string, b: string)
    requires ValidPattern(a) && ValidPattern(b)
    ensures PatternCovers(a, b) <==> forall ch | LiteralChannel(ch) && ChannelMatches(b, ch) :: ChannelMatches(a, ch)
  {
    hide Matches, SegmentEnd, Join, Literal, ValidTail, TokensCover;
    EmptyInvalid(a);
    EmptyInvalid(b);
    if PatternCovers(a, b) {
      forall ch | LiteralChannel(ch) && ChannelMatches(b, ch) ensures ChannelMatches(a, ch) {
        CoverIncludes(Split(a), Split(b), Split(ch));
      }
    } else {
      var c := EscapingChannel(Split(a), Split(b));
      MatchNonEmpty(Split(b), c);
      JoinLiteral(c);
      assert ChannelMatches(b, Join(c)) && !ChannelMatches(a, Join(c));
    }
  }
}
