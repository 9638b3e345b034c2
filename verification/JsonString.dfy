/**
 The string writer of the append path, `AppendJSONString`, against a decoder of
 JSON strings (RFC 8259, section 7).  Strings are byte strings: the writer takes
 any bytes, valid UTF-8 or not.
 */
module JsonString {
  import opened JsonSyntax
  import opened Options

  // ------------------------------------------------------------------
  // The writer

  predicate IsContinuation(b: byte) {
    0x80 <= b <= 0xBF
  }

  /**
   How many bytes the UTF-8 decoder takes at `i`: those of a well-formed
   sequence (table 3-7 of the Unicode standard), else one.
   */
  function RuneWidth(s: bytes, i: nat): (n: nat)
    requires i < |s|
    ensures 1 <= n <= 4 && i + n <= |s|
    ensures s[i] >= 0x80 ==> forall k | i <= k < i + n :: s[k] >= 0x80
  {
    var b := s[i];
    if 0xC2 <= b <= 0xDF then
      if i + 1 < |s| && IsContinuation(s[i + 1]) then 2 else 1
    else if 0xE0 <= b <= 0xEF then
      var lo: byte := if b == 0xE0 then 0xA0 else 0x80;
      var hi: byte := if b == 0xED then 0x9F else 0xBF;
      if i + 2 < |s| && lo <= s[i + 1] <= hi && IsContinuation(s[i + 2]) then 3 else 1
    else if 0xF0 <= b <= 0xF4 then
      var lo: byte := if b == 0xF0 then 0x90 else 0x80;
      var hi: byte := if b == 0xF4 then 0x8F else 0xBF;
      if i + 3 < |s| && lo <= s[i + 1] <= hi && IsContinuation(s[i + 2]) && IsContinuation(s[i + 3]) then 4 else 1
    else 1
  }

  function HexDigit(b: byte): byte
    requires b < 16
  {
    if b < 10 then 0x30 + b else 0x61 + (b - 10)
  }

  predicate NeedsEscape(b: byte) {
    b == QUOTE || b == BACKSLASH || b < 0x20
  }

  /** What one byte of the string becomes. */
  function EscapeByte(b: byte): bytes {
    if !NeedsEscape(b) then [b]
    else if b == QUOTE then [BACKSLASH, QUOTE]
    else if b == BACKSLASH then [BACKSLASH, BACKSLASH]
    else if b == 0x0A then [BACKSLASH, 0x6E]
    else if b == 0x0D then [BACKSLASH, 0x72]
    else if b == 0x09 then [BACKSLASH, 0x74]
    else if b == 0x08 then [BACKSLASH, 0x62]
    else if b == 0x0C then [BACKSLASH, 0x66]
    else [BACKSLASH, 0x75, 0x30, 0x30, HexDigit(b / 16), HexDigit(b % 16)]
  }

  /** The body of the string literal for `s`. */
  function Escape(s: bytes): bytes {
    if s == [] then [] else EscapeByte(s[0]) + Escape(s[1..])
  }

  /** `out` with the body of the rest of `s`, from `i`, behind it. */
  function EscapeOnto(out: bytes, s: bytes, i: nat): bytes
    requires i <= |s|
    decreases |s| - i
  {
    if i == |s| then out else EscapeOnto(out + EscapeByte(s[i]), s, i + 1)
  }

  lemma {:induction false} EscapeOntoIsEscape(out: bytes, s: bytes, i: nat)
    requires i <= |s|
    ensures EscapeOnto(out, s, i) == out + Escape(s[i..])
    decreases |s| - i
  {
    if i < |s| {
      EscapeOntoIsEscape(out + EscapeByte(s[i]), s, i + 1);
      assert s[i..][1..] == s[i + 1..];
      assert out + EscapeByte(s[i]) + Escape(s[i + 1..]) == out + (EscapeByte(s[i]) + Escape(s[i + 1..]));
    }
  }

  /** Bytes that need no escape can be copied as they are. */
  lemma {:induction false} CopyStretch(out: bytes, s: bytes, i: nat, j: nat)
    requires i <= j <= |s|
    requires forall k | i <= k < j :: !NeedsEscape(s[k])
    ensures EscapeOnto(out, s, i) == EscapeOnto(out + s[i..j], s, j)
    decreases j - i
  {
    if i < j {
      CopyStretch(out + [s[i]], s, i + 1, j);
      assert out + [s[i]] + s[i + 1..j] == out + s[i..j];
    } else {
      assert out + s[i..j] == out;
    }
  }

  /** Everything before `start` is in `out`; the stretch from `start` to `i` needs no escape. */
  method AppendJSONString(dst: bytes, s: bytes) returns (out: bytes)
    ensures out == dst + RenderString(Escape(s))
  {
    out := dst + [QUOTE];
    ghost var open := out;
    var start := 0;
    var i := 0;
    while i < |s|
      invariant start <= i <= |s|
      invariant forall k | start <= k < i :: !NeedsEscape(s[k])
      invariant EscapeOnto(out, s, start) == EscapeOnto(open, s, 0)
      decreases |s| - i
    {
      var b := s[i];
      if b < 0x80 {
        if b == QUOTE || b == BACKSLASH || b < 0x20 {
          CopyStretch(out, s, start, i);
          out := out + s[start..i];
          if b == QUOTE {
            out := out + [BACKSLASH, QUOTE];
          } else if b == BACKSLASH {
            out := out + [BACKSLASH, BACKSLASH];
          } else if b == 0x0A {
            out := out + [BACKSLASH, 0x6E];
          } else if b == 0x0D {
            out := out + [BACKSLASH, 0x72];
          } else if b == 0x09 {
            out := out + [BACKSLASH, 0x74];
          } else if b == 0x08 {
            out := out + [BACKSLASH, 0x62];
          } else if b == 0x0C {
            out := out + [BACKSLASH, 0x66];
          } else {
            out := out + [BACKSLASH, 0x75, 0x30, 0x30, HexDigit(b / 16), HexDigit(b % 16)];
          }
          i := i + 1;
          start := i;
          continue;
        }
        i := i + 1;
        continue;
      }
      i := i + RuneWidth(s, i);
    }
    CopyStretch(out, s, start, |s|);
    EscapeOntoIsEscape(open, s, 0);
    assert s[start..|s|] == s[start..] && s[0..] == s;
    out := out + s[start..];
    out := out + [QUOTE];
    assert dst + [QUOTE] + Escape(s) + [QUOTE] == dst + RenderString(Escape(s));
  }

  // ------------------------------------------------------------------
  // The decoder

  predicate IsHex(b: byte) {
    0x30 <= b <= 0x39 || 0x61 <= b <= 0x66 || 0x41 <= b <= 0x46
  }

  function HexValue(b: byte): nat
    requires IsHex(b)
  {
    if b <= 0x39 then (b - 0x30) as nat else if b >= 0x61 then (b - 0x57) as nat else (b - 0x37) as nat
  }

  /** The number behind `\u` at `i`, if four hexadecimal digits stand there. */
  function CodeUnit(t: bytes, i: nat): (r: Option<nat>)
    ensures r.Some? ==> r.value < 0x1_0000 && i + 4 <= |t|
  {
    if i + 4 <= |t| && IsHex(t[i]) && IsHex(t[i + 1]) && IsHex(t[i + 2]) && IsHex(t[i + 3])
    then Some(((HexValue(t[i]) * 16 + HexValue(t[i + 1])) * 16 + HexValue(t[i + 2])) * 16 + HexValue(t[i + 3]))
    else None
  }

  function Utf8(c: nat): bytes
    requires c < 0x11_0000
  {
    if c < 0x80 then [c as byte]
    else if c < 0x800 then [(0xC0 + c / 0x40) as byte, (0x80 + c % 0x40) as byte]
    else if c < 0x1_0000 then
      [(0xE0 + c / 0x1000) as byte, (0x80 + c / 0x40 % 0x40) as byte, (0x80 + c % 0x40) as byte]
    else
      [(0xF0 + c / 0x4_0000) as byte, (0x80 + c / 0x1000 % 0x40) as byte,
       (0x80 + c / 0x40 % 0x40) as byte, (0x80 + c % 0x40) as byte]
  }

  /** What an escape stands for, and where it ends. */
  datatype Unit = Unit(text: bytes, end: nat)

  /** The escape whose backslash is at `i`.  A surrogate without its partner becomes U+FFFD. */
  function DecodeEscape(t: bytes, i: nat): (r: Option<Unit>)
    requires i < |t|
    ensures r.Some? ==> i < r.value.end <= |t|
  {
    if i + 1 >= |t| then None
    else
      var c := t[i + 1];
      if c == QUOTE || c == BACKSLASH || c == 0x2F then Some(Unit([c], i + 2))
      else if c == 0x62 then Some(Unit([0x08], i + 2))
      else if c == 0x66 then Some(Unit([0x0C], i + 2))
      else if c == 0x6E then Some(Unit([0x0A], i + 2))
      else if c == 0x72 then Some(Unit([0x0D], i + 2))
      else if c == 0x74 then Some(Unit([0x09], i + 2))
      else if c == 0x75 then DecodeCodePoint(t, i)
      else None
  }

  function DecodeCodePoint(t: bytes, i: nat): (r: Option<Unit>)
    ensures r.Some? ==> i < r.value.end <= |t|
  {
    match CodeUnit(t, i + 2)
    case None => None
    case Some(u) =>
      if u < 0xD800 || u > 0xDFFF then Some(Unit(Utf8(u), i + 6))
      else
        var low := if i + 7 < |t| && t[i + 6] == BACKSLASH && t[i + 7] == 0x75 then CodeUnit(t, i + 8) else None;
        if u < 0xDC00 && low.Some? && 0xDC00 <= low.value <= 0xDFFF
        then Some(Unit(Utf8(0x1_0000 + (u - 0xD800) * 0x400 + (low.value - 0xDC00)), i + 12))
        else Some(Unit(Utf8(0xFFFD), i + 6))
  }

  /** The string whose body begins at `i`: its text, and the position behind its closing quote. */
  function Decode(t: bytes, i: nat): (r: Option<Unit>)
    ensures r.Some? ==> i < r.value.end <= |t|
    decreases |t| - i
  {
    if i >= |t| || t[i] < 0x20 then None
    else if t[i] == QUOTE then Some(Unit([], i + 1))
    else if t[i] == BACKSLASH then
      match DecodeEscape(t, i)
      case None => None
      case Some(u) => Prepend(u.text, Decode(t, u.end))
    else Prepend([t[i]], Decode(t, i + 1))
  }

  function Prepend(text: bytes, r: Option<Unit>): Option<Unit> {
    match r
    case None => None
    case Some(u) => Some(Unit(text + u.text, u.end))
  }

  /** The text of the string literal with this body, if it is one. */
  function DecodeBody(body: bytes): Option<bytes> {
    match Decode(body + [QUOTE], 0)
    case None => None
    case Some(u) => if u.end == |body| + 1 then Some(u.text) else None
  }

  // ------------------------------------------------------------------
  // The decoder undoes the writer

  /** The decoder reads back one byte. */
  lemma ByteDecoded(t: bytes, i: nat, b: byte)
    requires HasAt(t, i, EscapeByte(b))
    ensures Decode(t, i) == Prepend([b], Decode(t, i + |EscapeByte(b)|))
  {
    var e := EscapeByte(b);
    assert t[i + 0] == e[0];
    if NeedsEscape(b) {
      assert t[i + 1] == e[1];
      if |e| == 6 {
        assert t[i + 2] == e[2] && t[i + 3] == e[3] && t[i + 4] == e[4] && t[i + 5] == e[5];
        assert CodeUnit(t, i + 2) == Some(b as nat);
      }
    }
  }

  lemma {:induction false} EscapeDecoded(t: bytes, i: nat, s: bytes)
    requires HasAt(t, i, Escape(s) + [QUOTE])
    ensures Decode(t, i) == Some(Unit(s, i + |Escape(s)| + 1))
    decreases |s|
  {
    hide Decode, EscapeByte, HasAt;
    if s == [] {
      assert Escape(s) + [QUOTE] == [QUOTE];
      HasAtByte(t, i, QUOTE);
      QuoteEnds(t, i);
    } else {
      var e, rest := EscapeByte(s[0]), Escape(s[1..]) + [QUOTE];
      assert Escape(s) + [QUOTE] == e + rest;
      HasAtSplit(t, i, e, rest);
      ByteDecoded(t, i, s[0]);
      EscapeDecoded(t, i + |e|, s[1..]);
      assert [s[0]] + s[1..] == s;
    }
  }

  lemma QuoteEnds(t: bytes, i: nat)
    ensures i < |t| && t[i] == QUOTE ==> Decode(t, i) == Some(Unit([], i + 1))
  {
  }

  /**
   Wherever AppendJSONString has written a string, and whatever stands behind
   it, the decoder returns exactly that string and stops behind its quote.
   */
  lemma RoundTrip(dst: bytes, s: bytes, rest: bytes)
    ensures Decode(dst + RenderString(Escape(s)) + rest, |dst| + 1)
            == Some(Unit(s, |dst| + |RenderString(Escape(s))|))
  {
    hide Escape, Decode;
    var t := dst + RenderString(Escape(s)) + rest;
    var part := Escape(s) + [QUOTE];
    forall k | 0 <= k < |part| ensures t[|dst| + 1 + k] == part[k] {
    }
    EscapeDecoded(t, |dst| + 1, s);
  }

  lemma DecodeEscapedBody(s: bytes)
    ensures DecodeBody(Escape(s)) == Some(s)
  {
    EscapeDecoded(Escape(s) + [QUOTE], 0, s);
  }

  /** Hence the writer never maps two strings to one literal. */
  lemma EscapeInjective(s: bytes, s': bytes)
    requires Escape(s) == Escape(s')
    ensures s == s'
  {
    DecodeEscapedBody(s);
    DecodeEscapedBody(s');
  }

  lemma EscapeByteShape(b: byte)
    ensures var e := EscapeByte(b);
            && (|e| == 1 || |e| == 2 || |e| == 6)
            && (forall i | 0 <= i < |e| :: e[i] >= 0x20)
            && if |e| == 1 then e[0] != QUOTE && e[0] != BACKSLASH
               else e[0] == BACKSLASH && forall i | 2 <= i < |e| :: e[i] != QUOTE && e[i] != BACKSLASH
  {
  }

  /** The body is a string token's: no raw control byte, and no quote that is not escaped. */
  lemma {:induction false} EscapeIsBody(s: bytes)
    ensures IsBody(Escape(s))
    ensures forall i | 0 <= i < |Escape(s)| :: Escape(s)[i] >= 0x20
    decreases |s|
  {
    hide EscapeByte;
    if s != [] {
      var e, rest := EscapeByte(s[0]), Escape(s[1..]);
      EscapeByteShape(s[0]);
      EscapeIsBody(s[1..]);
      if |e| == 1 {
        assert (e + rest)[1..] == rest;
      } else {
        assert (e + rest)[2..] == e[2..] + rest;
        PlainBytes(e[2..], rest);
      }
    }
  }

  lemma {:induction false} PlainBytes(a: bytes, rest: bytes)
    requires IsBody(rest)
    requires forall i | 0 <= i < |a| :: a[i] != QUOTE && a[i] != BACKSLASH
    ensures IsBody(a + rest)
    decreases |a|
  {
    if a == [] {
      assert a + rest == rest;
    } else {
      assert (a + rest)[1..] == a[1..] + rest;
      PlainBytes(a[1..], rest);
    }
  }
}
