/**
 The trees whose rendering is a JSON text in the sense of RFC 8259: literals and
 numbers follow sections 3 and 6, and strings are ones a decoder reads.
 */
module JsonText {
  import opened JsonSyntax
  import opened JsonString

  const NULL: bytes := [0x6E, 0x75, 0x6C, 0x6C]
  const TRUE: bytes := [0x74, 0x72, 0x75, 0x65]
  const FALSE: bytes := [0x66, 0x61, 0x6C, 0x73, 0x65]

  predicate IsDigit(b: byte) {
    0x30 <= b <= 0x39
  }

  /** The end of the digits that begin at `i`. */
  function DigitsEnd(s: bytes, i: nat): (e: nat)
    requires i <= |s|
    ensures i <= e <= |s|
    decreases |s| - i
  {
    if i < |s| && IsDigit(s[i]) then DigitsEnd(s, i + 1) else i
  }

  predicate IsExponent(s: bytes, i: nat) {
    i == |s|
    || (i + 1 < |s| && (s[i] == 0x65 || s[i] == 0x45)
        && var j := if s[i + 1] == 0x2B || s[i + 1] == 0x2D then i + 2 else i + 1;
           j < |s| && DigitsEnd(s, j) == |s|)
  }

  predicate IsFraction(s: bytes, i: nat)
    requires i <= |s|
  {
    if i < |s| && s[i] == 0x2E then DigitsEnd(s, i + 1) > i + 1 && IsExponent(s, DigitsEnd(s, i + 1))
    else IsExponent(s, i)
  }

  predicate IsNumber(s: bytes) {
    var i := if s != [] && s[0] == 0x2D then 1 else 0;
    i < |s| && IsDigit(s[i]) && IsFraction(s, if s[i] == 0x30 then i + 1 else DigitsEnd(s, i))
  }

  predicate IsLiteral(s: bytes) {
    s == NULL || s == TRUE || s == FALSE || IsNumber(s)
  }

  predicate Decodes(v: Value)
    decreases v
  {
    match v
    case Atom(text) => IsLiteral(text)
    case Str(body) => DecodeBody(body).Some?
    case Arr(_, items) => forall i | 0 <= i < |items| :: Decodes(items[i].value)
    case Obj(_, members) =>
      forall i | 0 <= i < |members| :: DecodeBody(members[i].name).Some? && Decodes(members[i].element.value)
  }

  predicate IsJsonValue(v: Value) {
    WellFormedValue(v) && Decodes(v)
  }

  predicate IsJson(e: Element) {
    WellFormed(e) && Decodes(e.value)
  }

  predicate IsJsonMember(m: Member) {
    WellFormedMember(m) && DecodeBody(m.name).Some? && Decodes(m.element.value)
  }

  lemma MemberOf(obj: Value, i: nat)
    requires obj.Obj? && IsJsonValue(obj) && i < |obj.members|
    ensures IsJsonMember(obj.members[i]) && IsJson(Bare(obj.members[i].element.value))
  {
    assert WellFormedMember(obj.members[i]);
  }

  lemma ItemOf(list: Value, i: nat)
    requires list.Arr? && IsJsonValue(list) && i < |list.items|
    ensures IsJson(list.items[i]) && IsJson(Bare(list.items[i].value))
  {
    assert WellFormed(list.items[i]);
  }

  lemma ObjOf(members: seq<Member>)
    requires forall i | 0 <= i < |members| :: IsJsonMember(members[i])
    ensures IsJson(Bare(Obj([], members)))
  {
    hide DecodeBody;
    assert WellFormedValue(Obj([], members));
  }

  lemma ArrOf(items: seq<Element>)
    requires forall i | 0 <= i < |items| :: IsJson(items[i])
    ensures IsJson(Bare(Arr([], items)))
  {
    assert WellFormedValue(Arr([], items));
  }
}
