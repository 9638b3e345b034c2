/**
 JSON as bytes and as concrete syntax trees.

 A tree keeps everything the bytes hold: the text of a number or literal, the
 escaped body of a string, and the white space around every token (RFC 8259,
 section 2).  `Render` is therefore onto the well-formed texts, not just onto
 the compact ones.
 */
module JsonSyntax {

  newtype byte = b: int | 0 <= b < 256

  type bytes = seq<byte>

  const QUOTE: byte := 0x22
  const BACKSLASH: byte := 0x5C
  const COMMA: byte := 0x2C
  const COLON: byte := 0x3A
  const LBRACE: byte := 0x7B
  const RBRACE: byte := 0x7D
  const LBRACKET: byte := 0x5B
  const RBRACKET: byte := 0x5D

  /** The bytes of __typename. */
  const TYPENAME: bytes := [0x5F, 0x5F, 0x74, 0x79, 0x70, 0x65, 0x6E, 0x61, 0x6D, 0x65]

  /** The four white space bytes. */
  predicate IsSpace(b: byte) {
    b == 0x20 || b == 0x09 || b == 0x0A || b == 0x0D
  }

  ghost predicate AllSpace(s: bytes) {
    forall i | 0 <= i < |s| :: IsSpace(s[i])
  }

  /** Bytes of a number, or of true, false and null. */
  predicate IsAtomByte(b: byte) {
    0x30 <= b <= 0x39 || 0x61 <= b <= 0x7A || b == 0x45 || b == 0x2B || b == 0x2D || b == 0x2E
  }

  /** The index of the first byte at or after `i` that is not white space. */
  function SkipSpace(s: bytes, i: nat): (w: nat)
    requires i <= |s|
    ensures i <= w <= |s|
    ensures AllSpace(s[i..w])
    ensures w < |s| ==> !IsSpace(s[w])
    decreases |s| - i
  {
    if i < |s| && IsSpace(s[i]) then SkipSpace(s, i + 1) else i
  }

  /** White space is skipped in full when a non-space byte, or the end, follows. */
  lemma {:induction false} SkipSpaceExact(pre: bytes, ws: bytes, rest: bytes)
    requires AllSpace(ws)
    requires rest != [] ==> !IsSpace(rest[0])
    ensures SkipSpace(pre + ws + rest, |pre|) == |pre| + |ws|
    decreases ws
  {
    if ws != [] {
      SkipSpaceExact(pre + ws[..1], ws[1..], rest);
      assert pre + ws[..1] + ws[1..] + rest == pre + ws + rest;
    }
  }

  /** `part` stands at position `i`. */
  predicate HasAt(s: bytes, i: nat, part: bytes) {
    i + |part| <= |s| && forall k | 0 <= k < |part| :: s[i + k] == part[k]
  }

  lemma HasAtSplit(s: bytes, i: nat, a: bytes, b: bytes)
    requires HasAt(s, i, a + b)
    ensures HasAt(s, i, a) && HasAt(s, i + |a|, b)
  {
    forall k | 0 <= k < |a| ensures s[i + k] == a[k] {
      assert (a + b)[k] == a[k];
    }
    forall k | 0 <= k < |b| ensures s[i + |a| + k] == b[k] {
      assert s[i + (|a| + k)] == (a + b)[|a| + k];
    }
  }

  lemma HasAtByte(s: bytes, i: nat, b: byte)
    requires HasAt(s, i, [b])
    ensures i < |s| && s[i] == b
  {
    assert s[i + 0] == [b][0];
  }

  lemma HasAtTail(s: bytes, i: nat, part: bytes)
    requires HasAt(s, i, part) && part != []
    ensures HasAt(s, i + 1, part[1..])
  {
    forall k | 0 <= k < |part| - 1 ensures s[i + 1 + k] == part[1..][k] {
      assert s[i + (k + 1)] == part[k + 1];
    }
  }

  lemma BracketAt(s: bytes, i: nat, open: byte, gap: bytes, text: bytes, close: byte)
    requires HasAt(s, i, [open] + gap + text + [close])
    ensures i + 1 + |gap| + |text| < |s|
    ensures s[i] == open && s[i + 1 + |gap| + |text|] == close
    ensures HasAt(s, i + 1, gap) && HasAt(s, i + 1 + |gap|, text)
  {
    HasAtSplit(s, i, [open] + gap + text, [close]);
    HasAtSplit(s, i, [open] + gap, text);
    HasAtSplit(s, i, [open], gap);
    HasAtByte(s, i, open);
    HasAtByte(s, i + 1 + |gap| + |text|, close);
  }

  /** The text between the quotes of a string token: every quote is escaped and no escape is cut off. */
  predicate IsBody(body: bytes) {
    |body| == 0
    || if body[0] == BACKSLASH then |body| >= 2 && IsBody(body[2..])
       else body[0] != QUOTE && IsBody(body[1..])
  }

  lemma {:induction false} PlainIsBody(s: bytes, i: nat)
    requires i <= |s| && forall j | 0 <= j < |s| :: s[j] != QUOTE && s[j] != BACKSLASH
    ensures IsBody(s[i..])
    decreases |s| - i
  {
    if i < |s| {
      PlainIsBody(s, i + 1);
      assert s[i..][1..] == s[i + 1..];
    }
  }

  /** A closed body is found once at a place. */
  lemma {:induction false} BodyOnce(s: bytes, i: nat, a: bytes, b: bytes)
    requires IsBody(a) && IsBody(b) && HasAt(s, i, a) && HasAt(s, i, b)
    requires i + |a| < |s| && s[i + |a|] == QUOTE && i + |b| < |s| && s[i + |b|] == QUOTE
    ensures a == b
    decreases |a|
  {
    assert a != [] ==> s[i + 0] == a[0];
    assert b != [] ==> s[i + 0] == b[0];
    if a != [] && b != [] {
      HasAtTail(s, i, a);
      HasAtTail(s, i, b);
      if a[0] == BACKSLASH {
        HasAtTail(s, i + 1, a[1..]);
        HasAtTail(s, i + 1, b[1..]);
        assert s[i + 1] == a[1] == b[1];
        assert a[1..][1..] == a[2..] && b[1..][1..] == b[2..];
        BodyOnce(s, i + 2, a[2..], b[2..]);
        assert a == [a[0], a[1]] + a[2..] && b == [b[0], b[1]] + b[2..];
      } else {
        BodyOnce(s, i + 1, a[1..], b[1..]);
        assert a == [a[0]] + a[1..] && b == [b[0]] + b[1..];
      }
    }
  }

  datatype Value =
    | Atom(text: bytes)
    | Str(body: bytes)
    | Arr(gap: bytes, items: seq<Element>)
    | Obj(gap: bytes, members: seq<Member>)

  /** A value with the white space around it. */
  datatype Element = Element(pre: bytes, value: Value, post: bytes)

  /** A name, the white space before and after it, and the value behind the colon. */
  datatype Member = Member(pre: bytes, name: bytes, mid: bytes, element: Element)

  /** A value with no white space around it. */
  function Bare(v: Value): Element {
    Element([], v, [])
  }

  function RenderString(body: bytes): bytes {
    [QUOTE] + body + [QUOTE]
  }

  lemma QuotedAt(s: bytes, i: nat, body: bytes)
    requires HasAt(s, i, RenderString(body))
    ensures i + 1 + |body| < |s| && s[i] == QUOTE && s[i + 1 + |body|] == QUOTE && HasAt(s, i + 1, body)
  {
    assert RenderString(body) == [QUOTE] + [] + body + [QUOTE];
    BracketAt(s, i, QUOTE, [], body, QUOTE);
  }

  function RenderValue(v: Value): bytes
    decreases v, 1
  {
    match v
    case Atom(text) => text
    case Str(body) => RenderString(body)
    case Arr(gap, items) => [LBRACKET] + gap + RenderItems(items) + [RBRACKET]
    case Obj(gap, members) => [LBRACE] + gap + RenderMembers(members) + [RBRACE]
  }

  function Render(e: Element): bytes
    decreases e, 2
  {
    e.pre + RenderValue(e.value) + e.post
  }

  function RenderMember(m: Member): bytes
    decreases m, 3
  {
    m.pre + RenderString(m.name) + m.mid + [COLON] + Render(m.element)
  }

  /** Elements with commas exactly between them. */
  function RenderItems(items: seq<Element>): bytes
    decreases items, 0
  {
    if |items| == 0 then []
    else if |items| == 1 then Render(items[0])
    else Render(items[0]) + [COMMA] + RenderItems(items[1..])
  }

  /** Members with commas exactly between them. */
  function RenderMembers(members: seq<Member>): bytes
    decreases members, 0
  {
    if |members| == 0 then []
    else if |members| == 1 then RenderMember(members[0])
    else RenderMember(members[0]) + [COMMA] + RenderMembers(members[1..])
  }

  /** White space behind an opening bracket belongs to the first item or member, if there is one. */
  predicate WellFormedValue(v: Value)
    decreases v, 1
  {
    match v
    case Atom(text) => text != [] && forall i | 0 <= i < |text| :: IsAtomByte(text[i])
    case Str(body) => IsBody(body)
    case Arr(gap, items) =>
      (forall i | 0 <= i < |gap| :: IsSpace(gap[i])) && (items != [] ==> gap == [])
      && forall i | 0 <= i < |items| :: WellFormed(items[i])
    case Obj(gap, members) =>
      (forall i | 0 <= i < |gap| :: IsSpace(gap[i])) && (members != [] ==> gap == [])
      && forall i | 0 <= i < |members| :: WellFormedMember(members[i])
  }

  predicate WellFormed(e: Element)
    decreases e, 2
  {
    && (forall i | 0 <= i < |e.pre| :: IsSpace(e.pre[i]))
    && (forall i | 0 <= i < |e.post| :: IsSpace(e.post[i]))
    && WellFormedValue(e.value)
  }

  predicate WellFormedMember(m: Member)
    decreases m, 3
  {
    && (forall i | 0 <= i < |m.pre| :: IsSpace(m.pre[i]))
    && (forall i | 0 <= i < |m.mid| :: IsSpace(m.mid[i]))
    && IsBody(m.name)
    && WellFormed(m.element)
  }
}
