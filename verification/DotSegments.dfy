/** Dotted names and their segments. */
module DotSegments {

  type Segments = seq<string>

  function SegmentEnd(s: string, i: nat): (e: nat)
    requires i <= |s|
    ensures i <= e <= |s| && '.' !in s[i..e] && (e < |s| ==> s[e] == '.')
    decreases |s| - i
  {
    if i < |s| && s[i] != '.' then SegmentEnd(s, i + 1) else i
  }

  /** The segments from position `i` on; none are left behind the end of the string. */
  function SplitFrom(s: string, i: nat): Segments
    decreases |s| + 1 - i
  {
    if i > |s| then [] else [s[i..SegmentEnd(s, i)]] + SplitFrom(s, SegmentEnd(s, i) + 1)
  }

  function Split(s: string): Segments {
    SplitFrom(s, 0)
  }

  lemma SplitStep(s: string, i: nat)
    requires i <= |s|
    ensures var e := SegmentEnd(s, i);
            && SplitFrom(s, i) != [] && SplitFrom(s, i)[0] == s[i..e] && SplitFrom(s, i)[1..] == SplitFrom(s, e + 1)
            && (SplitFrom(s, e + 1) == [] <==> e == |s|)
  {
  }

  lemma SegmentEndStep(s: string, i: nat)
    ensures i <= |s| ==> SegmentEnd(s, i) == if i < |s| && s[i] != '.' then SegmentEnd(s, i + 1) else i
  {
  }

  lemma SplitEnd(s: string, i: nat)
    ensures i > |s| ==> SplitFrom(s, i) == []
  {
  }

  lemma {:induction false} SplitDotFree(s: string, i: nat)
    ensures forall j | 0 <= j < |SplitFrom(s, i)| :: '.' !in SplitFrom(s, i)[j]
    decreases |s| + 1 - i
  {
    if i <= |s| {
      SplitDotFree(s, SegmentEnd(s, i) + 1);
    }
  }

  function Join(c: Segments): string
    requires c != []
  {
    if |c| == 1 then c[0] else c[0] + "." + Join(c[1..])
  }

  lemma {:induction false} SegmentEndAt(s: string, i: nat, e: nat)
    requires i <= e <= |s| && '.' !in s[i..e] && (e < |s| ==> s[e] == '.')
    ensures SegmentEnd(s, i) == e
    decreases e - i
  {
    if i < e {
      assert s[i] == s[i..e][0] && s[i + 1..e] == s[i..e][1..];
      SegmentEndAt(s, i + 1, e);
    }
  }

  lemma {:induction false} SplitJoin(pre: string, c: Segments)
    requires c != [] && forall i | 0 <= i < |c| :: '.' !in c[i]
    ensures SplitFrom(pre + Join(c), |pre|) == c
    decreases |c|
  {
    hide SegmentEnd;
    var s := pre + Join(c);
    var e := |pre| + |c[0]|;
    assert s[|pre|..e] == c[0];
    SegmentEndAt(s, |pre|, e);
    if |c| > 1 {
      var next := pre + c[0] + ".";
      assert s == next + Join(c[1..]);
      SplitJoin(next, c[1..]);
      assert c == [c[0]] + c[1..];
    } else {
      SplitEnd(s, e + 1);
      assert c == [c[0]];
    }
  }

  lemma {:induction false} JoinSplit(s: string, i: nat)
    requires i <= |s|
    ensures SplitFrom(s, i) != [] && Join(SplitFrom(s, i)) == s[i..]
    decreases |s| - i
  {
    hide SegmentEnd, SplitFrom;
    SplitStep(s, i);
    var e := SegmentEnd(s, i);
    if e < |s| {
      JoinSplit(s, e + 1);
      var rest := SplitFrom(s, e + 1);
      var all := SplitFrom(s, i);
      assert Join(all) == all[0] + "." + Join(all[1..]);
      assert s[i..e] + "." + s[e + 1..] == s[i..];
    } else {
      SplitEnd(s, e + 1);
      assert |SplitFrom(s, i)| == 1;
    }
  }
}
