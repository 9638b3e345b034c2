/**
 The response rewriter of the GraphQL mirror: it scans the bytes of a response
 once and inserts a namespace prefix into the values of `__typename` members.
 */
module TypenameScan {
  import opened JsonSyntax

  /** The quoted key the scanner looks for. */
  const TARGET: bytes := [QUOTE] + TYPENAME + [QUOTE]

  // ------------------------------------------------------------------
  // The scanner as functions of the remaining input

  /** What stands between `start` and `i` makes `i` a key position: only white space, or `{` or `,` and white space. */
  predicate KeySlot(s: bytes, start: nat, i: nat)
    requires start <= i <= |s|
  {
    i == start
    || if IsSpace(s[i - 1]) then KeySlot(s, start, i - 1) else s[i - 1] == LBRACE || s[i - 1] == COMMA
  }

  /** The first key position at or after `i` in the slice from `start`, when `i` is outside every string; -1 if none. */
  function FindKey(s: bytes, start: nat, key: bytes, i: nat): (r: int)
    requires start <= i <= |s|
    ensures r == -1 || (i <= r && HasAt(s, r, key))
    decreases |s| - i
  {
    if i == |s| then -1
    else if s[i] != QUOTE then FindKey(s, start, key, i + 1)
    else if KeySlot(s, start, i) && HasAt(s, i, key) then i
    else FindKeyInString(s, start, key, i + 1)
  }

  /** The same, when `i` is inside a string. */
  function FindKeyInString(s: bytes, start: nat, key: bytes, i: nat): (r: int)
    requires start <= i <= |s|
    ensures r == -1 || (i <= r && HasAt(s, r, key))
    decreases |s| - i
  {
    if i == |s| then -1
    else if s[i] == BACKSLASH && i + 1 < |s| then FindKeyInString(s, start, key, i + 2)
    else if s[i] == QUOTE then FindKey(s, start, key, i + 1)
    else FindKeyInString(s, start, key, i + 1)
  }

  /** The index just behind the quote that closes the string around `i`, or the end of the input. */
  function StringEnd(s: bytes, i: nat): (e: nat)
    requires i <= |s|
    ensures i <= e <= |s|
    decreases |s| - i
  {
    if i == |s| then i
    else if s[i] == BACKSLASH && i + 1 < |s| then StringEnd(s, i + 2)
    else if s[i] == QUOTE then i + 1
    else StringEnd(s, i + 1)
  }

  /** Up to where one round of the scan reads, and the output after it. */
  datatype Round = Round(end: nat, out: bytes)

  function NextRound(s: bytes, start: nat, key: bytes, prefix: bytes, out: bytes): (r: Round)
    requires start < |s| && key != []
    ensures start < r.end <= |s|
  {
    var j := FindKey(s, start, key, start);
    if j < 0 then Round(|s|, out + s[start..])
    else RoundAfterKey(s, j + |key|, prefix, out + s[start..j + |key|])
  }

  function RoundAfterKey(s: bytes, k: nat, prefix: bytes, out: bytes): (r: Round)
    requires k <= |s|
    ensures k <= r.end <= |s|
  {
    var w := SkipSpace(s, k);
    if w == |s| || s[w] != COLON then Round(w, out + s[k..w])
    else RoundAfterColon(s, w + 1, prefix, out + s[k..w] + [COLON])
  }

  function RoundAfterColon(s: bytes, k: nat, prefix: bytes, out: bytes): (r: Round)
    requires k <= |s|
    ensures k <= r.end <= |s|
  {
    var v := SkipSpace(s, k);
    if v == |s| || s[v] != QUOTE then Round(v, out + s[k..v])
    else
      var e := StringEnd(s, v + 1);
      Round(e, out + s[k..v] + [QUOTE] + prefix + s[v + 1..e])
  }

  /** The whole scan from `start`: every round starts its key search afresh. */
  function Prefixed(s: bytes, start: nat, key: bytes, prefix: bytes, out: bytes): bytes
    requires start <= |s| && key != []
    decreases |s| - start
  {
    if start == |s| then out
    else
      var r := NextRound(s, start, key, prefix, out);
      Prefixed(s, r.end, key, prefix, r.out)
  }

  // ------------------------------------------------------------------
  // The scanner itself

  method BytesEqual(a: bytes, b: bytes) returns (r: bool)
    ensures r <==> a == b
  {
    if |a| != |b| {
      return false;
    }
    for i := 0 to |a|
      invariant a[..i] == b[..i]
    {
      if a[i] != b[i] {
        return false;
      }
    }
    return true;
  }

  method IndexAtKey(src: bytes, key: bytes) returns (r: int)
    ensures r == FindKey(src, 0, key, 0)
  {
    var inString := false;
    var i := 0;
    while i < |src|
      invariant 0 <= i <= |src|
      invariant FindKey(src, 0, key, 0)
             == if inString then FindKeyInString(src, 0, key, i) else FindKey(src, 0, key, i)
    {
      var c := src[i];
      if inString {
        if c == BACKSLASH && i + 1 < |src| {
          i := i + 2;
          continue;
        }
        if c == QUOTE {
          inString := false;
        }
      } else if c == QUOTE {
        var pos := i - 1;
        while pos >= 0 && IsSpace(src[pos])
          invariant -1 <= pos < i
          invariant KeySlot(src, 0, i) == KeySlot(src, 0, pos + 1)
        {
          pos := pos - 1;
        }
        if pos < 0 || src[pos] == LBRACE || src[pos] == COMMA {
          if i + |key| <= |src| {
            var hit := BytesEqual(src[i..i + |key|], key);
            if hit {
              return i;
            }
          }
        }
        inString := true;
      }
      i := i + 1;
    }
    return -1;
  }

  /** A search in a slice is a search in the whole that does not look before the slice. */
  lemma {:induction false} KeySlotShift(s: bytes, start: nat, i: nat)
    requires start + i <= |s|
    ensures KeySlot(s[start..], 0, i) == KeySlot(s, start, start + i)
    decreases i
  {
    if i > 0 {
      KeySlotShift(s, start, i - 1);
    }
  }

  lemma HasAtShift(s: bytes, start: nat, i: nat, part: bytes)
    requires start + i <= |s|
    ensures HasAt(s[start..], i, part) == HasAt(s, start + i, part)
  {
    if HasAt(s, start + i, part) {
      forall k | 0 <= k < |part| ensures s[start..][i + k] == part[k] {
        assert s[start + i + k] == part[k];
      }
    }
  }

  lemma {:induction false} FindKeyShift(s: bytes, start: nat, key: bytes, i: nat)
    requires start + i <= |s|
    ensures var r, r' := FindKey(s[start..], 0, key, i), FindKey(s, start, key, start + i);
            if r == -1 then r' == -1 else r' == start + r
    ensures var r, r' := FindKeyInString(s[start..], 0, key, i), FindKeyInString(s, start, key, start + i);
            if r == -1 then r' == -1 else r' == start + r
    decreases |s| - i
  {
    if start + i < |s| {
      KeySlotShift(s, start, i);
      HasAtShift(s, start, i, key);
      FindKeyShift(s, start, key, i + 1);
      if s[start + i] == BACKSLASH && start + i + 1 < |s| {
        FindKeyShift(s, start, key, i + 2);
      }
    }
  }

  /** The loop that copies white space. */
  method CopySpace(src: bytes, dst: bytes, from: nat) returns (out: bytes, i: nat)
    requires from <= |src|
    ensures i == SkipSpace(src, from) && out == dst + src[from..i]
  {
    out, i := dst, from;
    while i < |src| && IsSpace(src[i])
      invariant from <= i <= |src|
      invariant SkipSpace(src, from) == SkipSpace(src, i)
      invariant out == dst + src[from..i]
    {
      out := out + [src[i]];
      i := i + 1;
    }
  }

  /** The loop that copies the rest of a string, up to and including its closing quote. */
  method CopyString(src: bytes, dst: bytes, from: nat) returns (out: bytes, i: nat)
    requires from <= |src|
    ensures i == StringEnd(src, from) && out == dst + src[from..i]
  {
    out, i := dst, from;
    while i < |src|
      invariant from <= i <= |src|
      invariant StringEnd(src, from) == StringEnd(src, i)
      invariant out == dst + src[from..i]
    {
      var c := src[i];
      if c == BACKSLASH && i + 1 < |src| {
        out := out + [c, src[i + 1]];
        i := i + 2;
        continue;
      }
      out := out + [c];
      i := i + 1;
      if c == QUOTE {
        return;
      }
    }
  }

  method PrefixResponseTypenames(src: bytes, namespace: bytes) returns (out: bytes)
    ensures out == Prefixed(src, 0, TARGET, namespace + [0x5F], [])
  {
    out := PrefixValues(src, TARGET, namespace + [0x5F]);
  }

  lemma PrefixedStep(s: bytes, start: nat, key: bytes, prefix: bytes, out: bytes)
    requires start <= |s| && key != []
    ensures Prefixed(s, |s|, key, prefix, out) == out
    ensures start < |s| ==>
              var r := NextRound(s, start, key, prefix, out);
              Prefixed(s, start, key, prefix, out) == Prefixed(s, r.end, key, prefix, r.out)
  {
  }

  /** IndexAtKey on what is left of `src` from `i`, as a position in `src`. */
  method IndexInRest(src: bytes, i: nat, key: bytes) returns (j: int)
    requires i <= |src|
    ensures j == FindKey(src, i, key, i)
  {
    var r := IndexAtKey(src[i..], key);
    FindKeyShift(src, i, key, 0);
    j := if r < 0 then -1 else i + r;
  }

  /** `out` is what has been written, `i` what has been read. */
  method PrefixValues(src: bytes, target: bytes, prefix: bytes) returns (out: bytes)
    requires target != []
    ensures out == Prefixed(src, 0, target, prefix, [])
  {
    hide FindKey, FindKeyInString, KeySlot, HasAt, StringEnd, SkipSpace, Prefixed;
    out := [];
    var i := 0;
    while i < |src|
      invariant 0 <= i <= |src|
      invariant Prefixed(src, i, target, prefix, out) == Prefixed(src, 0, target, prefix, [])
      decreases |src| - i
    {
      ghost var r := NextRound(src, i, target, prefix, out);
      PrefixedStep(src, i, target, prefix, out);
      var j := IndexInRest(src, i, target);
      if j < 0 {
        out := out + src[i..];
        PrefixedStep(src, |src|, target, prefix, out);
        return;
      }
      out := out + src[i..j + |target|];
      i := j + |target|;
      assert r == RoundAfterKey(src, i, prefix, out);
      out, i := CopySpace(src, out, i);
      if i >= |src| || src[i] != COLON {
        continue;
      }
      out := out + [src[i]];
      i := i + 1;
      assert r == RoundAfterColon(src, i, prefix, out);
      out, i := CopySpace(src, out, i);
      if i >= |src| || src[i] != QUOTE {
        continue;
      }
      out := out + [QUOTE];
      out := out + prefix;
      i := i + 1;
      out, i := CopyString(src, out, i);
      assert r == Round(i, out);
    }
    PrefixedStep(src, i, target, prefix, out);
  }
}
