/**
 Which subscribers share an upstream: the text behind a fanout key determines
 query and variables, as long as the variables can be encoded at all.
 */
module FanoutKeys {
  import opened CanonicalJson
  import opened Lists

  datatype Tail = End | Then(head: char, tail: Tail)

  function Onto(s: string, rest: Tail): Tail
    decreases |s|
  {
    if s == "" then rest else Then(s[0], Onto(s[1..], rest))
  }

  lemma {:induction false} OntoJoin(a: string, b: string, rest: Tail)
    ensures Onto(a + b, rest) == Onto(a, Onto(b, rest))
    decreases |a|
  {
    if a == "" {
      assert a + b == b;
    } else {
      assert (a + b)[1..] == a[1..] + b;
      OntoJoin(a[1..], b, rest);
    }
  }

  lemma {:induction false} OntoCancel(s: string, a: Tail, b: Tail)
    requires Onto(s, a) == Onto(s, b)
    ensures a == b
    decreases |s|
  {
    if s != "" {
      OntoCancel(s[1..], a, b);
    }
  }

  lemma OntoOne(out: string, c: char, rest: Tail)
    ensures Onto(out + [c], rest) == Onto(out, Then(c, rest))
  {
    OntoJoin(out, [c], rest);
    assert Onto([c], rest) == Then(c, Onto([c][1..], rest));
  }

  // ------------------------------------------------------------------
  // The printer, front to back

  function CharTokens(c: char, rest: Tail): Tail {
    Onto(EscapeChar(c), rest)
  }

  function BodyTokens(s: string, rest: Tail): Tail
    decreases |s|
  {
    if s == "" then Then('"', rest) else CharTokens(s[0], BodyTokens(s[1..], rest))
  }

  function StringTokens(s: string, rest: Tail): Tail {
    Then('"', BodyTokens(s, rest))
  }

  function SeparatorTokens(i: nat, rest: Tail): Tail {
    if i > 0 then Then(',', rest) else rest
  }

  /** Prints a value in front of a remaining text, which proofs can read from its front; where the printer gives up,
      the rest is cut off. */
  ghost function Tokens(v: Value, rest: Tail): Tail
    decreases v, 1, 0
  {
    match v
    case Null => Onto("null", rest)
    case Boolean(b) => Onto(if b then "true" else "false", rest)
    case Number(digits) => Onto(digits, rest)
    case Text(chars) => StringTokens(chars, rest)
    case List(items) => Then('[', ItemTokens(v, 0, rest))
    case Object(entries) => Then('{', MemberTokens(v, Ordered(entries), 0, rest))
    case Unencodable => End
  }

  ghost function ItemTokens(v: Value, i: nat, rest: Tail): Tail
    requires v.List? && i <= |v.items|
    decreases v, 0, |v.items| - i
  {
    if i == |v.items| then Then(']', rest)
    else SeparatorTokens(i, Tokens(v.items[i], ItemTokens(v, i + 1, rest)))
  }

  ghost function MemberTokens(v: Value, keys: seq<string>, i: nat, rest: Tail): Tail
    requires v.Object? && i <= |keys| && forall j | 0 <= j < |keys| :: keys[j] in v.entries
    decreases v, 0, |keys| - i
  {
    if i == |keys| then Then('}', rest)
    else
      SeparatorTokens(i, StringTokens(keys[i], Then(':',
        Tokens(v.entries[keys[i]], MemberTokens(v, keys, i + 1, rest)))))
  }

  lemma {:induction false} EscapeAllTokens(out: string, s: string, rest: Tail)
    ensures Onto(EscapeAll(out, s) + "\"", rest) == Onto(out, BodyTokens(s, rest))
    decreases |s|
  {
    hide EscapeChar;
    if s == "" {
      OntoOne(out, '"', rest);
    } else {
      EscapeAllTokens(out + EscapeChar(s[0]), s[1..], rest);
      OntoJoin(out, EscapeChar(s[0]), BodyTokens(s[1..], rest));
    }
  }

  lemma QuotedTokens(out: string, s: string, rest: Tail)
    ensures Onto(Quoted(out, s), rest) == Onto(out, StringTokens(s, rest))
  {
    hide Onto, EscapeAll, BodyTokens;
    EscapeAllTokens(out + "\"", s, rest);
    OntoOne(out, '"', BodyTokens(s, rest));
  }

  lemma SeparatorTokensMeet(out: string, i: nat, rest: Tail)
    ensures Onto(out + Separator(i), rest) == Onto(out, SeparatorTokens(i, rest))
  {
    OntoOne(out, ',', rest);
    assert out + "" == out;
  }

  /** The remaining text that a printer leaves standing. */
  function Left(r: Outcome, rest: Tail): Tail {
    if r.ok then rest else End
  }

  lemma {:induction false} WriteMeetsTokens(out: string, v: Value, rest: Tail)
    ensures Onto(Write(out, v).text, Left(Write(out, v), rest)) == Onto(out, Tokens(v, rest))
    decreases v, 1, 0
  {
    hide Onto, Ordered, Quoted, StringTokens;
    match v
    case Null => OntoJoin(out, "null", rest);
    case Boolean(b) => OntoJoin(out, if b then "true" else "false", rest);
    case Number(digits) => OntoJoin(out, digits, rest);
    case Text(chars) => QuotedTokens(out, chars, rest);
    case List(items) =>
      ItemsMeetTokens(out + "[", v, 0, rest);
      OntoOne(out, '[', ItemTokens(v, 0, rest));
    case Object(entries) =>
      MembersMeetTokens(out + "{", v, Ordered(entries), 0, rest);
      OntoOne(out, '{', MemberTokens(v, Ordered(entries), 0, rest));
    case Unencodable =>
  }

  lemma {:induction false} ItemsMeetTokens(out: string, v: Value, i: nat, rest: Tail)
    requires v.List? && i <= |v.items|
    ensures Onto(WriteItems(out, v, i).text, Left(WriteItems(out, v, i), rest)) == Onto(out, ItemTokens(v, i, rest))
    decreases v, 0, |v.items| - i
  {
    hide Onto, Separator, SeparatorTokens, Write, Tokens;
    if i == |v.items| {
      OntoOne(out, ']', rest);
    } else {
      var next := ItemTokens(v, i + 1, rest);
      var start := out + Separator(i);
      var r := Write(start, v.items[i]);
      WriteMeetsTokens(start, v.items[i], next);
      SeparatorTokensMeet(out, i, Tokens(v.items[i], next));
      if r.ok {
        ItemsMeetTokens(r.text, v, i + 1, rest);
      }
    }
  }

  lemma {:induction false} MembersMeetTokens(out: string, v: Value, keys: seq<string>, i: nat, rest: Tail)
    requires v.Object? && i <= |keys| && forall j | 0 <= j < |keys| :: keys[j] in v.entries
    ensures Onto(WriteMembers(out, v, keys, i).text, Left(WriteMembers(out, v, keys, i), rest))
            == Onto(out, MemberTokens(v, keys, i, rest))
    decreases v, 0, |keys| - i
  {
    hide Onto, Separator, SeparatorTokens, Write, Tokens, Quoted, StringTokens;
    if i == |keys| {
      OntoOne(out, '}', rest);
    } else {
      var next := MemberTokens(v, keys, i + 1, rest);
      var key, child := keys[i], v.entries[keys[i]];
      var quoted := Quoted(out + Separator(i), key);
      var r := Write(quoted + ":", child);
      WriteMeetsTokens(quoted + ":", child, next);
      OntoOne(quoted, ':', Tokens(child, next));
      QuotedTokens(out + Separator(i), key, Then(':', Tokens(child, next)));
      SeparatorTokensMeet(out, i, StringTokens(key, Then(':', Tokens(child, next))));
      if r.ok {
        MembersMeetTokens(r.text, v, keys, i + 1, rest);
      }
    }
  }

  // ------------------------------------------------------------------
  // Reading the text back

  lemma OntoTwo(x: char, y: char, rest: Tail)
    ensures Onto([x, y], rest) == Then(x, Then(y, rest))
  {
    assert [x, y] == [x] + [y] && [] + [x] == [x];
    OntoOne([x], y, rest);
    OntoOne([], x, Then(y, rest));
  }

  lemma OntoSix(p: char, q: char, r: char, x: char, y: char, z: char, rest: Tail)
    ensures Onto([p, q, r, x, y, z], rest) == Then(p, Then(q, Then(r, Then(x, Then(y, Then(z, rest))))))
  {
    hide Onto;
    assert [p, q, r, x, y, z] == [p, q] + ([r, x] + [y, z]);
    OntoJoin([p, q], [r, x] + [y, z], rest);
    OntoJoin([r, x], [y, z], rest);
    OntoTwo(p, q, Onto([r, x], Onto([y, z], rest)));
    OntoTwo(r, x, Onto([y, z], rest));
    OntoTwo(y, z, rest);
  }

  /** The letter of a two-character escape, or a space. */
  function ShortLetter(c: char): char {
    if c == '"' then '"'
    else if c == '\\' then '\\'
    else if c == '\U{8}' then 'b'
    else if c == '\U{C}' then 'f'
    else if c == '\n' then 'n'
    else if c == '\r' then 'r'
    else if c == '\t' then 't'
    else ' '
  }

  predicate IsHexEscaped(c: char) {
    ShortLetter(c) == ' ' && (c < ' ' || c == '<' || c == '>' || c == '&')
  }

  predicate IsLineSeparator(c: char) {
    c == '\U{2028}' || c == '\U{2029}'
  }

  lemma CharShape(c: char, a: Tail)
    ensures CharTokens(c, a) ==
            if ShortLetter(c) != ' ' then Then('\\', Then(ShortLetter(c), a))
            else if IsHexEscaped(c) then
              var digits := Then(HexDigit(c as int / 16), Then(HexDigit(c as int % 16), a));
              Then('\\', Then('u', Then('0', Then('0', digits))))
            else if IsLineSeparator(c) then
              Then('\\', Then('u', Then('2', Then('0', Then('2', Then(if c == '\U{2028}' then '8' else '9', a))))))
            else Then(c, a)
  {
    hide Onto;
    var e := EscapeChar(c);
    if ShortLetter(c) != ' ' {
      assert e == ['\\', ShortLetter(c)];
      OntoTwo('\\', ShortLetter(c), a);
    } else if IsHexEscaped(c) {
      var x, y := HexDigit(c as int / 16), HexDigit(c as int % 16);
      assert e == ['\\', 'u', '0', '0', x, y];
      OntoSix('\\', 'u', '0', '0', x, y, a);
    } else if IsLineSeparator(c) {
      var z := if c == '\U{2028}' then '8' else '9';
      assert e == ['\\', 'u', '2', '0', '2', z];
      OntoSix('\\', 'u', '2', '0', '2', z, a);
    } else {
      OntoOne([], c, a);
      assert [] + [c] == [c] && Onto([], Then(c, a)) == Then(c, a) by {
        OntoNone(Then(c, a));
      }
    }
  }

  lemma OntoNone(rest: Tail)
    ensures Onto("", rest) == rest
  {
  }

  lemma HexDigitInjective(m: nat, n: nat)
    requires m < 16 && n < 16 && HexDigit(m) == HexDigit(n)
    ensures m == n
  {
    HexDigitValue(m);
    HexDigitValue(n);
  }

  lemma HexDigitValue(n: nat)
    requires n < 16
    ensures HexDigit(n) as int == if n < 10 then '0' as int + n else 'a' as int + n - 10
  {
    var digits := "0123456789abcdef";
    assert digits == ['0', '1', '2', '3', '4', '5', '6', '7', '8', '9', 'a', 'b', 'c', 'd', 'e', 'f'];
  }

  /** Escapes can be told apart, whatever follows them. */
  lemma CharCancel(c: char, d: char, a: Tail, b: Tail)
    requires CharTokens(c, a) == CharTokens(d, b)
    ensures c == d && a == b
  {
    hide CharTokens, HexDigit;
    CharShape(c, a);
    CharShape(d, b);
    if IsHexEscaped(c) && IsHexEscaped(d) {
      HexDigitInjective(c as int / 16, d as int / 16);
      HexDigitInjective(c as int % 16, d as int % 16);
    }
  }

  lemma CharNoQuote(c: char, a: Tail)
    ensures CharTokens(c, a).Then? && CharTokens(c, a).head != '"'
  {
    CharShape(c, a);
  }

  lemma {:induction false} BodyCancel(s: string, t: string, a: Tail, b: Tail)
    requires BodyTokens(s, a) == BodyTokens(t, b)
    ensures s == t && a == b
    decreases |s|
  {
    hide CharTokens;
    if s != "" {
      CharNoQuote(s[0], BodyTokens(s[1..], a));
    }
    if t != "" {
      CharNoQuote(t[0], BodyTokens(t[1..], b));
    }
    if s != "" && t != "" {
      CharCancel(s[0], t[0], BodyTokens(s[1..], a), BodyTokens(t[1..], b));
      BodyCancel(s[1..], t[1..], a, b);
      assert s == [s[0]] + s[1..] && t == [t[0]] + t[1..];
    }
  }

  lemma StringCancel(s: string, t: string, a: Tail, b: Tail)
    requires StringTokens(s, a) == StringTokens(t, b)
    ensures s == t && a == b
  {
    BodyCancel(s, t, a, b);
  }

  /** The text behind a value starts with a comma or a bracket, if it does not end. */
  predicate Delimited(rest: Tail) {
    rest.End? || rest.head == ',' || rest.head == ']' || rest.head == '}'
  }

  predicate AllNumberChars(s: string) {
    forall i | 0 <= i < |s| :: IsNumberChar(s[i])
  }

  lemma {:induction false} NumberCancel(s: string, t: string, a: Tail, b: Tail)
    requires AllNumberChars(s) && AllNumberChars(t) && Delimited(a) && Delimited(b)
    requires Onto(s, a) == Onto(t, b)
    ensures s == t && a == b
    decreases |s|
  {
    if s != "" && t != "" {
      NumberCancel(s[1..], t[1..], a, b);
      assert s == [s[0]] + s[1..] && t == [t[0]] + t[1..];
    }
  }

  /** What a value's text starts with. */
  function Lead(v: Value): char
    requires WellFormed(v) && !v.Unencodable?
  {
    match v
    case Null => 'n'
    case Boolean(b) => if b then 't' else 'f'
    case Number(digits) => digits[0]
    case Text(_) => '"'
    case List(_) => '['
    case Object(_) => '{'
  }

  lemma LeadStarts(v: Value, rest: Tail)
    requires WellFormed(v)
    ensures v.Unencodable? ==> Tokens(v, rest) == End
    ensures !v.Unencodable? ==> Tokens(v, rest).Then? && Tokens(v, rest).head == Lead(v)
  {
  }

  /** The kinds of value differ in their first character. */
  lemma LeadTells(v: Value, w: Value)
    requires WellFormed(v) && WellFormed(w) && !v.Unencodable? && !w.Unencodable?
    requires Lead(v) == Lead(w)
    ensures v.Null? == w.Null? && v.Boolean? == w.Boolean? && v.Number? == w.Number?
    ensures v.Text? == w.Text? && v.List? == w.List? && v.Object? == w.Object?
    ensures v.Boolean? ==> v == w
  {
    hide WellFormed;
    LeadOfNumber(v);
    LeadOfNumber(w);
  }

  lemma LeadOfNumber(v: Value)
    ensures WellFormed(v) && !v.Unencodable? ==> (v.Number? ==> IsNumberChar(Lead(v)))
  {
  }

  /** A printed value can be read back from the front of a text: no other value prints a text that starts the same
      way, not even one on which the printer gives up. */
  lemma {:induction false} ValueCancel(v: Value, w: Value, a: Tail, b: Tail)
    requires WellFormed(v) && WellFormed(w) && Encodable(v) && Delimited(a) && Delimited(b)
    requires Tokens(v, a) == Tokens(w, b)
    ensures v == w && a == b
    decreases v, 1, 0
  {
    hide Onto, Ordered, StringTokens, Lead, Delimited, ItemTokens, MemberTokens, IsNumberChar;
    LeadStarts(v, a);
    LeadStarts(w, b);
    if !w.Unencodable? {
      LeadTells(v, w);
      match v
      case Null => OntoCancel("null", a, b);
      case Boolean(x) => OntoCancel(if x then "true" else "false", a, b);
      case Number(digits) => NumberCancel(digits, w.digits, a, b);
      case Text(chars) => StringCancel(chars, w.chars, a, b);
      case List(items) => ItemsCancel(v, w, 0, a, b);
      case Object(entries) =>
        MembersCancel(v, w, Ordered(entries), Ordered(w.entries), 0, a, b);
        SameEntries(v, w, Ordered(entries), Ordered(w.entries));
    }
  }

  lemma ItemsDelimited(v: Value, i: nat, rest: Tail)
    requires v.List? && 0 < i <= |v.items|
    ensures Delimited(ItemTokens(v, i, rest))
  {
  }

  lemma MembersDelimited(v: Value, keys: seq<string>, i: nat, rest: Tail)
    requires v.Object? && 0 < i <= |keys| && forall j | 0 <= j < |keys| :: keys[j] in v.entries
    ensures Delimited(MemberTokens(v, keys, i, rest))
  {
  }

  lemma NoClosingLead(v: Value, rest: Tail)
    requires WellFormed(v)
    ensures !Tokens(v, rest).Then? || Tokens(v, rest).head !in "]},"
  {
    LeadStarts(v, rest);
    if !v.Unencodable? {
      LeadOfNumber(v);
    }
  }

  lemma {:induction false} ItemsCancel(v: Value, w: Value, i: nat, a: Tail, b: Tail)
    requires v.List? && w.List? && i <= |v.items| && i <= |w.items|
    requires WellFormed(v) && WellFormed(w) && Encodable(v)
    requires v.items[..i] == w.items[..i]
    requires ItemTokens(v, i, a) == ItemTokens(w, i, b)
    ensures v == w && a == b
    decreases v, 0, |v.items| - i
  {
    hide Tokens, Delimited;
    if i < |v.items| {
      NoClosingLead(v.items[i], ItemTokens(v, i + 1, a));
    }
    if i < |w.items| {
      NoClosingLead(w.items[i], ItemTokens(w, i + 1, b));
    }
    if i < |v.items| && i < |w.items| {
      ItemsDelimited(v, i + 1, a);
      ItemsDelimited(w, i + 1, b);
      ValueCancel(v.items[i], w.items[i], ItemTokens(v, i + 1, a), ItemTokens(w, i + 1, b));
      assert v.items[..i + 1] == v.items[..i] + [v.items[i]];
      assert w.items[..i + 1] == w.items[..i] + [w.items[i]];
      ItemsCancel(v, w, i + 1, a, b);
    } else {
      assert i == |v.items| ==> v.items[..i] == v.items;
      assert i == |w.items| ==> w.items[..i] == w.items;
    }
  }

  lemma {:induction false} MembersCancel(
    v: Value, w: Value, keys: seq<string>, others: seq<string>, i: nat, a: Tail, b: Tail)
    requires v.Object? && w.Object? && i <= |keys| && i <= |others|
    requires forall j | 0 <= j < |keys| :: keys[j] in v.entries
    requires forall j | 0 <= j < |others| :: others[j] in w.entries
    requires WellFormed(v) && WellFormed(w) && Encodable(v)
    requires forall j | 0 <= j < i :: keys[j] == others[j] && v.entries[keys[j]] == w.entries[keys[j]]
    requires MemberTokens(v, keys, i, a) == MemberTokens(w, others, i, b)
    ensures |keys| == |others| && a == b
    ensures forall j | 0 <= j < |keys| :: keys[j] == others[j] && v.entries[keys[j]] == w.entries[keys[j]]
    decreases v, 0, |keys| - i
  {
    hide Tokens, Delimited, BodyTokens;
    if i < |keys| && i < |others| {
      var x, y := v.entries[keys[i]], w.entries[others[i]];
      var p, q := MemberTokens(v, keys, i + 1, a), MemberTokens(w, others, i + 1, b);
      StringCancel(keys[i], others[i], Then(':', Tokens(x, p)), Then(':', Tokens(y, q)));
      MembersDelimited(v, keys, i + 1, a);
      MembersDelimited(w, others, i + 1, b);
      ValueCancel(x, y, p, q);
      MembersCancel(v, w, keys, others, i + 1, a, b);
    }
  }

  lemma SameEntries(v: Value, w: Value, keys: seq<string>, others: seq<string>)
    requires v.Object? && w.Object? && keys == Ordered(v.entries) && others == Ordered(w.entries)
    requires |keys| == |others|
    requires forall j | 0 <= j < |keys| :: keys[j] == others[j] && v.entries[keys[j]] == w.entries[keys[j]]
    ensures v == w
  {
    hide Ordered;
    assert keys == others;
    forall k | k in v.entries ensures v.entries[k] == w.entries[k] {
      assert k in Elements(keys);
    }
    assert v.entries == w.entries;
  }

  // ------------------------------------------------------------------
  // The separating NUL

  /** `text` continues `out` without a NUL. */
  predicate Extends(out: string, text: string) {
    && |out| <= |text| && text[..|out|] == out
    && forall i | |out| <= i < |text| :: text[i] != '\0'
  }

  lemma ExtendsTrans(a: string, b: string, c: string)
    requires Extends(a, b) && Extends(b, c)
    ensures Extends(a, c)
  {
    assert c[..|a|] == b[..|a|];
  }

  lemma ExtendsBy(out: string, s: string)
    ensures (forall i | 0 <= i < |s| :: s[i] != '\0') ==> Extends(out, out + s)
  {
  }

  lemma HexDigitPrints(n: nat)
    requires n < 16
    ensures HexDigit(n) != '\0'
  {
    HexDigitValue(n);
  }

  lemma EscapeCharPrints(c: char)
    ensures forall i | 0 <= i < |EscapeChar(c)| :: EscapeChar(c)[i] != '\0'
  {
    hide HexDigit;
    if IsHexEscaped(c) {
      HexDigitPrints(c as int / 16);
      HexDigitPrints(c as int % 16);
    }
  }

  lemma {:induction false} EscapeAllExtends(out: string, s: string)
    ensures Extends(out, EscapeAll(out, s))
    decreases |s|
  {
    hide EscapeChar, Extends;
    ExtendsBy(out, "");
    assert out + "" == out;
    if s != "" {
      EscapeCharPrints(s[0]);
      ExtendsBy(out, EscapeChar(s[0]));
      EscapeAllExtends(out + EscapeChar(s[0]), s[1..]);
      ExtendsTrans(out, out + EscapeChar(s[0]), EscapeAll(out, s));
    }
  }

  lemma QuotedExtends(out: string, s: string)
    ensures Extends(out, Quoted(out, s))
  {
    hide EscapeAll, Extends;
    var open := out + "\"";
    var body := EscapeAll(open, s);
    ExtendsBy(out, "\"");
    EscapeAllExtends(open, s);
    ExtendsBy(body, "\"");
    ExtendsTrans(out, open, body);
    ExtendsTrans(out, body, body + "\"");
  }

  /** Printing a value never writes a NUL. */
  lemma {:induction false} WriteExtends(out: string, v: Value)
    requires WellFormed(v)
    ensures Extends(out, Write(out, v).text)
    decreases v, 1, 0
  {
    hide Quoted, Ordered;
    match v
    case Text(chars) => QuotedExtends(out, chars);
    case List(items) =>
      ExtendsBy(out, "[");
      ItemsExtend(out + "[", v, 0);
      ExtendsTrans(out, out + "[", Write(out, v).text);
    case Object(entries) =>
      ExtendsBy(out, "{");
      MembersExtend(out + "{", v, Ordered(entries), 0);
      ExtendsTrans(out, out + "{", Write(out, v).text);
    case _ =>
  }

  lemma {:induction false} ItemsExtend(out: string, v: Value, i: nat)
    requires v.List? && i <= |v.items| && WellFormed(v)
    ensures Extends(out, WriteItems(out, v, i).text)
    decreases v, 0, |v.items| - i
  {
    hide Extends, Write;
    ExtendsBy(out, "]");
    ExtendsBy(out, Separator(i));
    if i < |v.items| {
      var start := out + Separator(i);
      var r := Write(start, v.items[i]);
      WriteExtends(start, v.items[i]);
      ExtendsTrans(out, start, r.text);
      if r.ok {
        ItemsExtend(r.text, v, i + 1);
        ExtendsTrans(out, r.text, WriteItems(r.text, v, i + 1).text);
      }
    }
  }

  lemma {:induction false} MembersExtend(out: string, v: Value, keys: seq<string>, i: nat)
    requires v.Object? && i <= |keys| && WellFormed(v) && forall j | 0 <= j < |keys| :: keys[j] in v.entries
    ensures Extends(out, WriteMembers(out, v, keys, i).text)
    decreases v, 0, |keys| - i
  {
    hide Extends, Write, Quoted;
    ExtendsBy(out, "}");
    ExtendsBy(out, Separator(i));
    if i < |keys| {
      var start := out + Separator(i);
      var quoted := Quoted(start, keys[i]);
      QuotedExtends(start, keys[i]);
      ExtendsTrans(out, start, quoted);
      ExtendsBy(quoted, ":");
      ExtendsTrans(out, quoted, quoted + ":");
      var r := Write(quoted + ":", v.entries[keys[i]]);
      WriteExtends(quoted + ":", v.entries[keys[i]]);
      ExtendsTrans(out, quoted + ":", r.text);
      if r.ok {
        MembersExtend(r.text, v, keys, i + 1);
        ExtendsTrans(out, r.text, WriteMembers(r.text, v, keys, i + 1).text);
      }
    }
  }

  /** The last NUL ends the query, even if the query holds NULs itself. */
  lemma QueryKnown(p: string, q: string, text: string)
    requires Extends(p + "\0", text) && Extends(q + "\0", text)
    ensures p == q
  {
    assert text[|p|] == (p + "\0")[|p|] == '\0' && text[|q|] == (q + "\0")[|q|] == '\0';
    assert |p| == |q|;
    assert p == (p + "\0")[..|p|] == text[..|p + "\0"|][..|p|];
    assert q == (q + "\0")[..|q|] == text[..|q + "\0"|][..|q|];
  }

  // ------------------------------------------------------------------
  // Sharing an upstream

  predicate WellFormedVariables(m: map<string, Value>) {
    WellFormed(Object(m))
  }

  predicate EncodableVariables(m: map<string, Value>) {
    Encodable(Object(m))
  }

  /** Whoever shares the key of encodable variables sent the same query with the same variables. */
  lemma SameKeySameOperation(q: string, m: map<string, Value>, r: string, n: map<string, Value>)
    requires WellFormedVariables(m) && WellFormedVariables(n) && EncodableVariables(m)
    requires PreHash(q, m) == PreHash(r, n)
    ensures q == r && m == n
  {
    hide Onto, Write, Tokens, Extends, WellFormed, Encodable;
    WriteExtends(q + "\0", Object(m));
    WriteExtends(r + "\0", Object(n));
    QueryKnown(q, r, PreHash(q, m));
    WriteMeetsTokens(q + "\0", Object(m), End);
    WriteMeetsTokens(q + "\0", Object(n), End);
    OntoCancel(q + "\0", Tokens(Object(m), End), Tokens(Object(n), End));
    ValueCancel(Object(m), Object(n), End, End);
  }

  /** The printer comes to the end exactly for the encodable values. */
  lemma {:induction false} WriteOk(out: string, v: Value)
    ensures Write(out, v).ok <==> Encodable(v)
    decreases v, 1, 0
  {
    hide Ordered, Quoted;
    match v
    case List(items) => ItemsOk(out + "[", v, 0);
    case Object(entries) =>
      MembersOk(out + "{", v, Ordered(entries), 0);
      assert forall k | k in entries :: k in Elements(Ordered(entries));
    case _ =>
  }

  lemma {:induction false} ItemsOk(out: string, v: Value, i: nat)
    requires v.List? && i <= |v.items|
    ensures WriteItems(out, v, i).ok <==> forall j | i <= j < |v.items| :: Encodable(v.items[j])
    decreases v, 0, |v.items| - i
  {
    hide Write;
    if i < |v.items| {
      var r := Write(out + Separator(i), v.items[i]);
      WriteOk(out + Separator(i), v.items[i]);
      if r.ok {
        ItemsOk(r.text, v, i + 1);
      }
    }
  }

  lemma {:induction false} MembersOk(out: string, v: Value, keys: seq<string>, i: nat)
    requires v.Object? && i <= |keys| && forall j | 0 <= j < |keys| :: keys[j] in v.entries
    ensures WriteMembers(out, v, keys, i).ok <==> forall j | i <= j < |keys| :: Encodable(v.entries[keys[j]])
    decreases v, 0, |keys| - i
  {
    hide Write, Quoted;
    if i < |keys| {
      var start := Quoted(out + Separator(i), keys[i]) + ":";
      var r := Write(start, v.entries[keys[i]]);
      WriteOk(start, v.entries[keys[i]]);
      if r.ok {
        MembersOk(r.text, v, keys, i + 1);
      }
    }
  }

  /** Keys behind the one the printer gives up on do not count. */
  lemma {:induction false} MoreKeysUnseen(out: string, v: Value, w: Value, keys: seq<string>, more: seq<string>, i: nat)
    requires v.Object? && w.Object? && i <= |keys|
    requires forall j | 0 <= j < |keys| ::
               keys[j] in v.entries && keys[j] in w.entries && v.entries[keys[j]] == w.entries[keys[j]]
    requires forall j | 0 <= j < |keys + more| :: (keys + more)[j] in w.entries
    requires !WriteMembers(out, v, keys, i).ok
    ensures WriteMembers(out, w, keys + more, i) == WriteMembers(out, v, keys, i)
    decreases |keys| - i
  {
    hide Write, Quoted;
    if i < |keys| {
      assert (keys + more)[i] == keys[i];
      var r := Write(Quoted(out + Separator(i), keys[i]) + ":", v.entries[keys[i]]);
      if r.ok {
        MoreKeysUnseen(r.text, v, w, keys, more, i + 1);
      }
    }
  }

  lemma {:induction false} LongerIsGreater(s: string)
    ensures Less(s, s + "a")
    decreases |s|
  {
    if s != "" {
      LongerIsGreater(s[1..]);
      assert (s + "a")[1..] == s[1..] + "a";
    }
  }

  lemma OrderedWithLast(entries: map<string, Value>, k: string, x: Value)
    requires forall j | 0 <= j < |Ordered(entries)| :: Less(Ordered(entries)[j], k)
    ensures k !in entries
    ensures Ordered(entries[k := x]) == Ordered(entries) + [k]
  {
    hide Less, Ordered;
    var keys := Ordered(entries);
    if k in entries {
      assert k in Elements(keys);
      LessIrreflexive(k);
    }
    ElementsSnoc(keys, k);
    IncreasingUnique(Ordered(entries[k := x]), keys + [k]);
  }

  /** Unencodable variables share their key with others, because the printer's error is dropped. */
  lemma UnencodableShares(q: string, m: map<string, Value>) returns (n: map<string, Value>)
    requires WellFormedVariables(m) && !EncodableVariables(m)
    ensures n != m && WellFormedVariables(n) && PreHash(q, n) == PreHash(q, m)
  {
    hide Write, Less, Ordered, Encodable;
    var keys := Ordered(m);
    var out := q + "\0";
    WriteOk(out, Object(m));
    ObjectWrite(out, m);
    MembersOk(out + "{", Object(m), keys, 0);
    var last := keys[|keys| - 1];
    var k := last + "a";
    LongerIsGreater(last);
    forall j | 0 <= j < |keys| ensures Less(keys[j], k) {
      if j < |keys| - 1 {
        LessTransitive(keys[j], last, k);
      }
    }
    OrderedWithLast(m, k, Null);
    n := m[k := Null];
    MoreKeysUnseen(out + "{", Object(m), Object(n), keys, [k], 0);
    ObjectWrite(out, n);
    AddNull(m, k);
    assert k in n && k !in m;
  }

  lemma AddNull(m: map<string, Value>, k: string)
    requires WellFormedVariables(m)
    ensures WellFormedVariables(m[k := Null])
  {
    var n := m[k := Null];
    forall x | x in n ensures WellFormed(n[x]) {
      assert x == k || n[x] == Object(m).entries[x];
    }
  }

  lemma ObjectWrite(out: string, m: map<string, Value>)
    ensures Write(out, Object(m)) == WriteMembers(out + "{", Object(m), Ordered(m), 0)
  {
  }

  /** The key of an operation belongs to that operation alone if and only if its variables can be encoded. */
  lemma KeyIsUniqueExactly(q: string, m: map<string, Value>)
    requires WellFormedVariables(m)
    ensures EncodableVariables(m)
            <==> forall r, n | WellFormedVariables(n) && PreHash(r, n) == PreHash(q, m) :: r == q && n == m
  {
    if EncodableVariables(m) {
      forall r, n | WellFormedVariables(n) && PreHash(r, n) == PreHash(q, m) ensures r == q && n == m {
        SameKeySameOperation(q, m, r, n);
      }
    } else {
      var n := UnencodableShares(q, m);
      assert PreHash(q, n) == PreHash(q, m) && n != m;
    }
  }
}
