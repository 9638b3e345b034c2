/**
 The allow list of the MCP surface: dotted globs, where `**` stands for any
 number of segments.  Matching inside one segment is a parameter.
 */
module McpGlob {
  import opened DotSegments

  /** The library's match of one pattern segment; a malformed pattern matches nothing. */
  type SegmentMatch = (string, string) -> bool

  const ANY: string := "**"

  predicate GlobMatch(m: SegmentMatch, pats: Segments, segs: Segments)
    decreases |pats|
  {
    if pats == [] then segs == []
    else if pats[0] == ANY then
      |pats| == 1 || exists i | 0 <= i <= |segs| :: GlobMatch(m, pats[1..], segs[i..])
    else segs != [] && m(pats[0], segs[0]) && GlobMatch(m, pats[1..], segs[1..])
  }

  method GlobMatchSegments(m: SegmentMatch, pats: Segments, segs: Segments) returns (r: bool)
    ensures r == GlobMatch(m, pats, segs)
    decreases |pats|
  {
    var p, s := pats, segs;
    while |p| > 0
      invariant |p| <= |pats|
      invariant GlobMatch(m, pats, segs) == GlobMatch(m, p, s)
      decreases |p|
    {
      if p[0] == ANY {
        if |p| == 1 {
          return true;
        }
        for i := 0 to |s| + 1
          invariant forall j | 0 <= j < i :: !GlobMatch(m, p[1..], s[j..])
        {
          var hit := GlobMatchSegments(m, p[1..], s[i..]);
          if hit {
            return true;
          }
        }
        return false;
      }
      if |s| == 0 {
        return false;
      }
      if !m(p[0], s[0]) {
        return false;
      }
      p, s := p[1..], s[1..];
    }
    return |s| == 0;
  }

  // ------------------------------------------------------------------
  // What a glob means

  function Concat(runs: seq<Segments>): Segments {
    if runs == [] then [] else runs[0] + Concat(runs[1..])
  }

  /** A run of segments that one pattern segment accounts for. */
  predicate Accounts(m: SegmentMatch, pat: string, run: Segments) {
    pat == ANY || (|run| == 1 && m(pat, run[0]))
  }

  /** The segments fall into consecutive runs, one for each pattern segment. */
  predicate Splits(m: SegmentMatch, pats: Segments, segs: Segments, runs: seq<Segments>) {
    && |runs| == |pats| && Concat(runs) == segs
    && forall i | 0 <= i < |pats| :: Accounts(m, pats[i], runs[i])
  }

  lemma SplitsCons(m: SegmentMatch, pats: Segments, run: Segments, rest: Segments, runs: seq<Segments>)
    requires pats != [] && Accounts(m, pats[0], run) && Splits(m, pats[1..], rest, runs)
    ensures Splits(m, pats, run + rest, [run] + runs)
  {
    var all := [run] + runs;
    assert all[1..] == runs;
    forall i | 0 <= i < |pats| ensures Accounts(m, pats[i], all[i]) {
      if i > 0 {
        assert Accounts(m, pats[1..][i - 1], runs[i - 1]);
      }
    }
  }

  lemma {:induction false} MatchGivesRuns(m: SegmentMatch, pats: Segments, segs: Segments) returns (runs: seq<Segments>)
    requires GlobMatch(m, pats, segs)
    ensures Splits(m, pats, segs, runs)
    decreases |pats|
  {
    if pats == [] {
      runs := [];
    } else if pats == [ANY] {
      assert Splits(m, [], [], []);
      assert pats[1..] == [] && segs + [] == segs;
      SplitsCons(m, pats, segs, [], []);
      runs := [segs] + [];
    } else if pats[0] == ANY {
      var i :| 0 <= i <= |segs| && GlobMatch(m, pats[1..], segs[i..]);
      runs := MatchGivesRuns(m, pats[1..], segs[i..]);
      SplitsCons(m, pats, segs[..i], segs[i..], runs);
      assert segs[..i] + segs[i..] == segs;
      runs := [segs[..i]] + runs;
    } else {
      runs := MatchGivesRuns(m, pats[1..], segs[1..]);
      SplitsCons(m, pats, [segs[0]], segs[1..], runs);
      assert [segs[0]] + segs[1..] == segs;
      runs := [[segs[0]]] + runs;
    }
  }

  lemma {:induction false} RunsGiveMatch(m: SegmentMatch, pats: Segments, segs: Segments, runs: seq<Segments>)
    requires Splits(m, pats, segs, runs)
    ensures GlobMatch(m, pats, segs)
    decreases |pats|
  {
    if pats != [] {
      var n := |runs[0]|;
      assert segs[n..] == Concat(runs[1..]);
      forall i | 0 <= i < |pats| - 1 ensures Accounts(m, pats[1..][i], runs[1..][i]) {
        assert Accounts(m, pats[i + 1], runs[i + 1]);
      }
      RunsGiveMatch(m, pats[1..], segs[n..], runs[1..]);
      assert Accounts(m, pats[0], runs[0]);
    }
  }

  /** A glob matches exactly when the segments can be cut into consecutive runs, one for each pattern segment: any
      run for `**`, and a single accepted segment otherwise. */
  lemma GlobExactly(m: SegmentMatch, pats: Segments, segs: Segments)
    ensures GlobMatch(m, pats, segs) <==> exists runs :: Splits(m, pats, segs, runs)
  {
    if GlobMatch(m, pats, segs) {
      var runs := MatchGivesRuns(m, pats, segs);
    } else if runs :| Splits(m, pats, segs, runs) {
      RunsGiveMatch(m, pats, segs, runs);
    }
  }

  // ------------------------------------------------------------------
  // The allow list

  datatype Config = Config(autoInclude: bool, included: seq<string>, excluded: seq<string>)

  /** A path that is never shown: empty, or of a namespace that is set apart by name or by a leading underscore.  The
      namespace is the first segment, and the whole path if that is empty. */
  predicate Hidden(internal: set<string>, path: string) {
    path == "" || (var first := Split(path)[0];
                   var ns := if first == "" then path else first;
                   ns in internal || ns[0] == '_')
  }

  lemma HiddenIs(internal: set<string>, path: string)
    ensures Hidden(internal, path) <==> path == "" || IsInternal(internal, Head(path))
  {
    SplitStep(path, 0);
    assert path[..|path|] == path;
  }

  predicate Listed(m: SegmentMatch, pats: seq<string>, path: string) {
    exists i | 0 <= i < |pats| :: GlobMatch(m, Split(pats[i]), Split(path))
  }

  /** Namespaces set apart by name or by a leading underscore. */
  predicate IsInternal(internal: set<string>, ns: string) {
    ns in internal || (ns != "" && ns[0] == '_')
  }

  /** The namespace of a path: its first segment, but the whole path if that segment is empty. */
  function Head(path: string): string {
    var e := SegmentEnd(path, 0);
    if 0 < e < |path| then path[..e] else path
  }

  method McpMatch(m: SegmentMatch, pattern: string, path: string) returns (r: bool)
    ensures r == GlobMatch(m, Split(pattern), Split(path))
  {
    r := GlobMatchSegments(m, Split(pattern), Split(path));
  }

  method McpAllows(m: SegmentMatch, internal: set<string>, cfg: Config, path: string) returns (r: bool)
    ensures r <==> !Hidden(internal, path)
                   && if cfg.autoInclude then !Listed(m, cfg.excluded, path) else Listed(m, cfg.included, path)
  {
    HiddenIs(internal, path);
    hide GlobMatch, Split, Head, Hidden;
    if path == "" {
      return false;
    }
    if IsInternal(internal, Head(path)) {
      return false;
    }
    if cfg.autoInclude {
      for i := 0 to |cfg.excluded|
        invariant forall j | 0 <= j < i :: !GlobMatch(m, Split(cfg.excluded[j]), Split(path))
      {
        var hit := McpMatch(m, cfg.excluded[i], path);
        if hit {
          return false;
        }
      }
      return true;
    }
    for i := 0 to |cfg.included|
      invariant forall j | 0 <= j < i :: !GlobMatch(m, Split(cfg.included[j]), Split(path))
    {
      var hit := McpMatch(m, cfg.included[i], path);
      if hit {
        return true;
      }
    }
    return false;
  }
}
