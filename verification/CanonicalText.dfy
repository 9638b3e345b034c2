/**
 The printed variables are JSON with sorted keys.
 */
module CanonicalText {
  import opened CanonicalJson
  import opened Lists

  function HexValue(c: char): nat {
    if '0' <= c <= '9' then c as int - '0' as int
    else if 'a' <= c <= 'f' then c as int - 'a' as int + 10
    else 16
  }

  /** A piece of a JSON string stands for a character: for itself, or by an escape (RFC 8259, section 7). */
  predicate StandsFor(piece: string, c: char) {
    if |piece| == 1 then piece[0] == c && c >= ' ' && c != '"' && c != '\\'
    else if |piece| == 2 then
      piece[0] == '\\'
      && ((piece[1] == '"' && c == '"') || (piece[1] == '\\' && c == '\\') || (piece[1] == '/' && c == '/')
          || (piece[1] == 'b' && c == '\U{8}') || (piece[1] == 'f' && c == '\U{C}') || (piece[1] == 'n' && c == '\n')
          || (piece[1] == 'r' && c == '\r') || (piece[1] == 't' && c == '\t'))
    else
      |piece| == 6 && piece[0] == '\\' && piece[1] == 'u'
      && (forall i | 2 <= i < 6 :: HexValue(piece[i]) < 16)
      && c as int == HexValue(piece[2]) * 4096 + HexValue(piece[3]) * 256 + HexValue(piece[4]) * 16 + HexValue(piece[5])
  }

  function Concat(pieces: seq<string>): string {
    if pieces == [] then "" else Concat(pieces[..|pieces| - 1]) + pieces[|pieces| - 1]
  }

  function Commas(parts: seq<string>): string {
    if parts == [] then ""
    else if |parts| == 1 then parts[0]
    else Commas(parts[..|parts| - 1]) + "," + parts[|parts| - 1]
  }

  /** A JSON string in quotes. */
  ghost predicate StringText(text: string, s: string) {
    exists pieces: seq<string> ::
      && |pieces| == |s| && text == "\"" + Concat(pieces) + "\""
      && forall i | 0 <= i < |s| :: StandsFor(pieces[i], s[i])
  }

  /** A member of an object. */
  ghost predicate MemberText(text: string, key: string, v: Value)
    decreases v, 1
  {
    exists k, t :: text == k + ":" + t && StringText(k, key) && ValueText(t, v)
  }

  /** The text is a JSON text of the value, without white space and with the keys of objects in order. */
  ghost predicate ValueText(text: string, v: Value)
    decreases v, 0
  {
    match v
    case Null => text == "null"
    case Boolean(b) => text == if b then "true" else "false"
    case Number(digits) => text == digits
    case Text(chars) => StringText(text, chars)
    case List(items) =>
      exists parts: seq<string> ::
        && |parts| == |items| && text == "[" + Commas(parts) + "]"
        && forall i | 0 <= i < |items| :: ValueText(parts[i], items[i])
    case Object(entries) =>
      exists keys: seq<string>, parts: seq<string> ::
        && Increasing(keys) && Elements(keys) == entries.Keys
        && |parts| == |keys| && text == "{" + Commas(parts) + "}"
        && forall i | 0 <= i < |keys| :: keys[i] in entries && MemberText(parts[i], keys[i], entries[keys[i]])
    case Unencodable => false
  }

  // ------------------------------------------------------------------
  // Strings

  lemma EscapeStands(c: char)
    ensures StandsFor(EscapeChar(c), c)
  {
    if c < ' ' || c == '<' || c == '>' || c == '&' {
      HexStands(c as int / 16);
      HexStands(c as int % 16);
    }
  }

  lemma HexStands(n: nat)
    ensures n < 16 ==> HexValue(HexDigit(n)) == n
  {
  }

  lemma ConcatSnoc(pieces: seq<string>, piece: string)
    ensures Concat(pieces + [piece]) == Concat(pieces) + piece
  {
    assert (pieces + [piece])[..|pieces|] == pieces;
  }

  /** The escaped string, piece by piece, behind the pieces that are there. */
  lemma {:induction false} EscapedPieces(out: string, s: string, before: seq<string>) returns (pieces: seq<string>)
    ensures before <= pieces && |pieces| == |before| + |s|
    ensures forall i | 0 <= i < |s| :: StandsFor(pieces[|before| + i], s[i])
    ensures EscapeAll(out + Concat(before), s) == out + Concat(pieces)
    decreases |s|
  {
    hide EscapeChar, StandsFor, Concat;
    if s == "" {
      pieces := before;
    } else {
      EscapeStands(s[0]);
      ConcatSnoc(before, EscapeChar(s[0]));
      assert out + (Concat(before) + EscapeChar(s[0])) == out + Concat(before) + EscapeChar(s[0]);
      pieces := EscapedPieces(out, s[1..], before + [EscapeChar(s[0])]);
      assert pieces[|before|] == (before + [EscapeChar(s[0])])[|before|];
      forall i | 0 < i < |s| ensures StandsFor(pieces[|before| + i], s[i]) {
        assert StandsFor(pieces[|before + [EscapeChar(s[0])]| + (i - 1)], s[1..][i - 1]);
      }
    }
  }

  lemma QuotedIsText(s: string)
    ensures StringText(Quoted("", s), s)
  {
    hide StandsFor;
    var pieces := EscapedPieces("\"", s, []);
    assert "" + "\"" == "\"" + Concat([]);
  }

  // ------------------------------------------------------------------
  // Values

  /** What is printed does not depend on what stands before it. */
  lemma {:induction false} WriteBehind(out: string, mid: string, v: Value)
    ensures Write(out + mid, v) == Outcome(out + Write(mid, v).text, Write(mid, v).ok)
    decreases v, 1, 0
  {
    hide Ordered, Quoted, WriteItems, WriteMembers;
    match v
    case Text(chars) =>
      QuotedBehind(out + mid, chars);
      QuotedBehind(mid, chars);
      assert out + mid + Quoted("", chars) == out + (mid + Quoted("", chars));
    case List(items) =>
      assert out + mid + "[" == out + (mid + "[");
      ItemsBehind(out, mid + "[", v, 0);
    case Object(entries) =>
      assert out + mid + "{" == out + (mid + "{");
      MembersBehind(out, mid + "{", v, Ordered(entries), 0);
    case Null => assert out + mid + "null" == out + (mid + "null");
    case Boolean(b) =>
      var t := if b then "true" else "false";
      assert out + mid + t == out + (mid + t);
    case Number(digits) => assert out + mid + digits == out + (mid + digits);
    case Unencodable =>
  }

  lemma {:induction false} ItemsBehind(out: string, mid: string, v: Value, i: nat)
    requires v.List? && i <= |v.items|
    ensures WriteItems(out + mid, v, i) == Outcome(out + WriteItems(mid, v, i).text, WriteItems(mid, v, i).ok)
    decreases v, 0, |v.items| - i
  {
    hide Write, Separator;
    if i == |v.items| {
      assert out + mid + "]" == out + (mid + "]");
    } else {
      assert out + mid + Separator(i) == out + (mid + Separator(i));
      WriteBehind(out, mid + Separator(i), v.items[i]);
      var r := Write(mid + Separator(i), v.items[i]);
      if r.ok {
        ItemsBehind(out, r.text, v, i + 1);
      }
    }
  }

  lemma {:induction false} MembersBehind(out: string, mid: string, v: Value, keys: seq<string>, i: nat)
    requires v.Object? && i <= |keys| && forall j | 0 <= j < |keys| :: keys[j] in v.entries
    ensures WriteMembers(out + mid, v, keys, i)
            == Outcome(out + WriteMembers(mid, v, keys, i).text, WriteMembers(mid, v, keys, i).ok)
    decreases v, 0, |keys| - i
  {
    hide Write, Separator, Quoted;
    if i == |keys| {
      assert out + mid + "}" == out + (mid + "}");
    } else {
      var k := MemberHead(mid, i, keys[i]);
      KeyBehind(out, mid, i, keys[i]);
      WriteBehind(out, k, v.entries[keys[i]]);
      var r := Write(k, v.entries[keys[i]]);
      if r.ok {
        MembersBehind(out, r.text, v, keys, i + 1);
      }
    }
  }

  function MemberHead(out: string, i: nat, key: string): string {
    Quoted(out + Separator(i), key) + ":"
  }

  lemma KeyBehind(out: string, mid: string, i: nat, key: string)
    ensures MemberHead(out + mid, i, key) == out + MemberHead(mid, i, key)
  {
    hide Quoted, Separator;
    var sep, q := Separator(i), Quoted("", key);
    QuotedBehind(out + mid + sep, key);
    QuotedBehind(mid + sep, key);
    assert out + mid + sep + q + ":" == out + (mid + sep + q + ":");
  }

  lemma CommasAdd(parts: seq<string>, part: string)
    ensures Commas(parts + [part]) == if parts == [] then part else Commas(parts) + "," + part
  {
    assert (parts + [part])[..|parts|] == parts;
  }

  lemma CommasSnoc(open: string, parts: seq<string>, part: string)
    ensures open + Commas(parts + [part]) == open + Commas(parts) + Separator(|parts|) + part
  {
    CommasAdd(parts, part);
    CommasNone(open);
    hide Commas;
    if parts == [] {
      Alone(open);
    } else {
      Joined(open, Commas(parts), ",", part);
    }
  }

  lemma Joined(a: string, b: string, c: string, d: string)
    ensures a + (b + c + d) == a + b + c + d
  {
  }

  lemma Alone(text: string)
    ensures text + "" == text
  {
  }

  /** Every value that can be encoded is printed as a JSON text of itself. */
  lemma {:induction false} ValueIsText(v: Value)
    requires Encodable(v)
    ensures Write("", v).ok && ValueText(Write("", v).text, v)
    decreases v, 1, 0
  {
    hide Ordered, Quoted, WriteItems, WriteMembers, Commas, Increasing, Elements, StringText, MemberText;
    match v
    case Text(chars) => QuotedIsText(chars);
    case List(items) =>
      CommasNone("[");
      assert "" + "[" == "[";
      var parts := ItemsParts(v, 0, []);
    case Object(entries) =>
      CommasNone("{");
      assert "" + "{" == "{";
      var keys := Ordered(entries);
      var parts := MembersParts(v, keys, 0, []);
      assert Increasing(keys) && Elements(keys) == entries.Keys;
    case Null => assert "" + "null" == "null";
    case Boolean(b) =>
      assert "" + "true" == "true";
      assert "" + "false" == "false";
    case Number(digits) => assert "" + digits == digits;
  }

  lemma CommasNone(open: string)
    ensures open + Commas([]) == open
  {
  }

  lemma {:induction false} ItemsParts(v: Value, i: nat, before: seq<string>) returns (parts: seq<string>)
    requires v.List? && Encodable(v) && |before| == i <= |v.items|
    requires forall j | 0 <= j < i :: ValueText(before[j], v.items[j])
    ensures |parts| == |v.items| && forall j | 0 <= j < |parts| :: ValueText(parts[j], v.items[j])
    ensures WriteItems("[" + Commas(before), v, i) == Outcome("[" + Commas(parts) + "]", true)
    decreases v, 0, |v.items| - i
  {
    hide Write, ValueText, Commas, Separator;
    if i == |v.items| {
      parts := before;
    } else {
      var t := Write("", v.items[i]).text;
      ValueIsText(v.items[i]);
      var out := "[" + Commas(before) + Separator(i);
      Alone(out);
      WriteBehind(out, "", v.items[i]);
      CommasSnoc("[", before, t);
      parts := ItemsParts(v, i + 1, before + [t]);
    }
  }

  lemma {:induction false} MembersParts(v: Value, keys: seq<string>, i: nat, before: seq<string>)
    returns (parts: seq<string>)
    requires v.Object? && Encodable(v) && |before| == i <= |keys|
    requires forall j | 0 <= j < |keys| :: keys[j] in v.entries
    requires forall j | 0 <= j < i :: MemberText(before[j], keys[j], v.entries[keys[j]])
    ensures |parts| == |keys| && forall j | 0 <= j < |parts| :: MemberText(parts[j], keys[j], v.entries[keys[j]])
    ensures WriteMembers("{" + Commas(before), v, keys, i) == Outcome("{" + Commas(parts) + "}", true)
    decreases v, 0, |keys| - i
  {
    hide Write, ValueText, Commas, Separator, Quoted, StringText;
    if i == |keys| {
      parts := before;
    } else {
      var x := v.entries[keys[i]];
      var t := Write("", x).text;
      ValueIsText(x);
      QuotedIsText(keys[i]);
      var part := Quoted("", keys[i]) + ":" + t;
      assert MemberText(part, keys[i], x);
      hide MemberText;
      var out := MemberHead("{" + Commas(before), i, keys[i]);
      Alone(out);
      WriteBehind(out, "", x);
      HeadParts("{" + Commas(before), i, keys[i], t);
      CommasSnoc("{", before, part);
      parts := MembersParts(v, keys, i + 1, before + [part]);
    }
  }

  lemma HeadParts(out: string, i: nat, key: string, t: string)
    ensures MemberHead(out, i, key) + t == out + Separator(i) + (Quoted("", key) + ":" + t)
  {
    hide Quoted, Separator;
    var sep, q := Separator(i), Quoted("", key);
    QuotedBehind(out + sep, key);
    assert out + sep + q + ":" + t == out + sep + (q + ":" + t);
  }

  /** What the key of encodable variables is made from: the query, a NUL, and a JSON text of the variables with the keys
      of all objects in order. */
  lemma PreHashIsJson(query: string, variables: map<string, Value>) returns (text: string)
    requires Encodable(Object(variables))
    ensures PreHash(query, variables) == query + "\0" + text && ValueText(text, Object(variables))
  {
    hide Write, ValueText;
    text := Write("", Object(variables)).text;
    ValueIsText(Object(variables));
    Alone(query + "\0");
    WriteBehind(query + "\0", "", Object(variables));
  }
}
