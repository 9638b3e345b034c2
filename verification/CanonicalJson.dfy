/**
 The key under which subscribers share an upstream subscription: the query, a
 NUL, and the variables as JSON with sorted keys.  Strings are sequences of
 Unicode scalar values; the hash itself is not modelled, only what is fed to it.
 */
module CanonicalJson {
  import opened Lists

  /** A variable's value.  A number is the text its encoder prints for it.  `Unencodable` stands for the leaves the
      encoder refuses, such as an infinite float. */
  datatype Value =
    | Null
    | Boolean(value: bool)
    | Number(digits: string)
    | Text(chars: string)
    | List(items: seq<Value>)
    | Object(entries: map<string, Value>)
    | Unencodable

  predicate IsNumberChar(c: char) {
    '0' <= c <= '9' || c == '-' || c == '+' || c == '.' || c == 'e' || c == 'E'
  }

  /** A number's text is not empty and consists of number characters. */
  predicate WellFormed(v: Value)
    decreases v
  {
    match v
    case Number(digits) => digits != "" && forall i | 0 <= i < |digits| :: IsNumberChar(digits[i])
    case List(items) => forall i | 0 <= i < |items| :: WellFormed(items[i])
    case Object(entries) => forall k | k in entries :: WellFormed(entries[k])
    case _ => true
  }

  predicate Encodable(v: Value)
    decreases v
  {
    match v
    case Unencodable => false
    case List(items) => forall i | 0 <= i < |items| :: Encodable(items[i])
    case Object(entries) => forall k | k in entries :: Encodable(entries[k])
    case _ => true
  }

  // ------------------------------------------------------------------
  // Sorted keys

  predicate Less(a: string, b: string) {
    b != "" && (a == "" || a[0] < b[0] || (a[0] == b[0] && Less(a[1..], b[1..])))
  }

  lemma {:induction false} LessIrreflexive(a: string)
    ensures !Less(a, a)
    decreases |a|
  {
    if a != "" {
      LessIrreflexive(a[1..]);
    }
  }

  lemma {:induction false} LessTransitive(a: string, b: string, c: string)
    requires Less(a, b) && Less(b, c)
    ensures Less(a, c)
    decreases |a|
  {
    if a != "" && a[0] == b[0] && b[0] == c[0] {
      LessTransitive(a[1..], b[1..], c[1..]);
    }
  }

  lemma {:induction false} LessTotal(a: string, b: string)
    ensures Less(a, b) || a == b || Less(b, a)
    decreases |a|
  {
    if a != "" && b != "" && a[0] == b[0] {
      LessTotal(a[1..], b[1..]);
      assert a == [a[0]] + a[1..] && b == [b[0]] + b[1..];
    }
  }

  ghost predicate Increasing(s: seq<string>) {
    forall i, j | 0 <= i < j < |s| :: Less(s[i], s[j])
  }

  function Insert(k: string, s: seq<string>): seq<string> {
    if s == [] || Less(k, s[0]) then [k] + s else [s[0]] + Insert(k, s[1..])
  }

  /** The library sort, as far as it matters here. */
  function Sort(s: seq<string>): seq<string> {
    if s == [] then [] else Insert(s[0], Sort(s[1..]))
  }

  lemma {:induction false} InsertKeeps(k: string, s: seq<string>)
    requires Increasing(s) && k !in Elements(s)
    ensures Increasing(Insert(k, s)) && Elements(Insert(k, s)) == {k} + Elements(s)
    decreases |s|
  {
    hide Less;
    if s == [] {
      assert [k] + s == [k];
      ElementsCons(k, s);
    } else if Less(k, s[0]) {
      ElementsCons(k, s);
      forall j | 0 < j < |s| ensures Less(k, s[j]) {
        LessTransitive(k, s[0], s[j]);
      }
    } else {
      assert s == [s[0]] + s[1..];
      ElementsCons(s[0], s[1..]);
      InsertKeeps(k, s[1..]);
      var rest := Insert(k, s[1..]);
      ElementsCons(s[0], rest);
      LessTotal(k, s[0]);
      forall j | 0 <= j < |rest| ensures Less(s[0], rest[j]) {
        assert rest[j] in {k} + Elements(s[1..]);
        if rest[j] != k {
          var i :| 0 <= i < |s| - 1 && s[1..][i] == rest[j];
          assert Less(s[0], s[i + 1]);
        }
      }
    }
  }

  lemma {:induction false} SortSorts(s: seq<string>)
    requires NoDuplicates(s)
    ensures Increasing(Sort(s)) && Elements(Sort(s)) == Elements(s)
    decreases |s|
  {
    if s != [] {
      SortSorts(s[1..]);
      assert s == [s[0]] + s[1..];
      ElementsCons(s[0], s[1..]);
      InsertKeeps(s[0], Sort(s[1..]));
    }
  }

  /** Only one increasing listing of a set exists. */
  lemma {:induction false} IncreasingUnique(a: seq<string>, b: seq<string>)
    requires Increasing(a) && Increasing(b) && Elements(a) == Elements(b)
    ensures a == b
    decreases |a|
  {
    hide Less;
    assert a != [] ==> a[0] in Elements(a);
    assert b != [] ==> b[0] in Elements(b);
    if a != [] && b != [] {
      assert a == [a[0]] + a[1..] && b == [b[0]] + b[1..];
      ElementsCons(a[0], a[1..]);
      ElementsCons(b[0], b[1..]);
      HeadIsLeast(a, b[0]);
      HeadIsLeast(b, a[0]);
      if a[0] != b[0] {
        LessTransitive(a[0], b[0], a[0]);
        LessIrreflexive(a[0]);
      }
      HeadOnce(a);
      HeadOnce(b);
      assert Elements(a[1..]) == Elements(a) - {a[0]};
      assert Elements(b[1..]) == Elements(b) - {b[0]};
      IncreasingUnique(a[1..], b[1..]);
    }
  }

  lemma HeadIsLeast(a: seq<string>, x: string)
    requires a != [] && Increasing(a) && x in Elements(a)
    ensures x == a[0] || Less(a[0], x)
  {
  }

  lemma HeadOnce(a: seq<string>)
    requires a != [] && Increasing(a)
    ensures a[0] !in Elements(a[1..])
  {
    LessIrreflexive(a[0]);
    forall i | 0 <= i < |a| - 1 ensures a[1..][i] != a[0] {
      assert Less(a[0], a[i + 1]);
    }
  }

  ghost function Listing(keys: set<string>): (s: seq<string>)
    ensures Increasing(s) && Elements(s) == keys
  {
    if keys == {} then [] else
      var k :| k in keys;
      InsertKeeps(k, Listing(keys - {k}));
      Insert(k, Listing(keys - {k}))
  }

  lemma SortIsListing(s: seq<string>)
    requires NoDuplicates(s)
    ensures Sort(s) == Listing(Elements(s))
  {
    SortSorts(s);
    IncreasingUnique(Sort(s), Listing(Elements(s)));
  }

  // ------------------------------------------------------------------
  // The printer

  function HexDigit(n: nat): char
    requires n < 16
  {
    "0123456789abcdef"[n]
  }

  function EscapeChar(c: char): string {
    if c == '"' then "\\\""
    else if c == '\\' then "\\\\"
    else if c == '\U{8}' then "\\b"
    else if c == '\U{C}' then "\\f"
    else if c == '\n' then "\\n"
    else if c == '\r' then "\\r"
    else if c == '\t' then "\\t"
    else if c < ' ' || c == '<' || c == '>' || c == '&' then
      "\\u00" + [HexDigit(c as int / 16), HexDigit(c as int % 16)]
    else if c == '\U{2028}' then "\\u2028"
    else if c == '\U{2029}' then "\\u2029"
    else [c]
  }

  function EscapeAll(out: string, s: string): string
    decreases |s|
  {
    if s == "" then out else EscapeAll(out + EscapeChar(s[0]), s[1..])
  }

  /** The library's encoding of a string, behind `out`. */
  function Quoted(out: string, s: string): string {
    EscapeAll(out + "\"", s) + "\""
  }

  /** What a sink holds after a write, and whether the writer came to the end. */
  datatype Outcome = Outcome(text: string, ok: bool)

  function Separator(i: nat): string {
    if i > 0 then "," else ""
  }

  ghost function Write(out: string, v: Value): Outcome
    decreases v, 1, 0
  {
    match v
    case Null => Outcome(out + "null", true)
    case Boolean(b) => Outcome(out + (if b then "true" else "false"), true)
    case Number(digits) => Outcome(out + digits, true)
    case Text(chars) => Outcome(Quoted(out, chars), true)
    case List(items) => WriteItems(out + "[", v, 0)
    case Object(entries) => WriteMembers(out + "{", v, Ordered(entries), 0)
    case Unencodable => Outcome(out, false)
  }

  ghost function Ordered(entries: map<string, Value>): (s: seq<string>)
    ensures Increasing(s) && Elements(s) == entries.Keys
    ensures forall i | 0 <= i < |s| :: s[i] in entries
  {
    var s := Listing(entries.Keys);
    assert forall i | 0 <= i < |s| :: s[i] in Elements(s);
    s
  }

  ghost function WriteItems(out: string, v: Value, i: nat): Outcome
    requires v.List? && i <= |v.items|
    decreases v, 0, |v.items| - i
  {
    if i == |v.items| then Outcome(out + "]", true)
    else
      var r := Write(out + Separator(i), v.items[i]);
      if r.ok then WriteItems(r.text, v, i + 1) else r
  }

  ghost function WriteMembers(out: string, v: Value, keys: seq<string>, i: nat): Outcome
    requires v.Object? && i <= |keys| && forall j | 0 <= j < |keys| :: keys[j] in v.entries
    decreases v, 0, |keys| - i
  {
    if i == |keys| then Outcome(out + "}", true)
    else
      var r := Write(Quoted(out + Separator(i), keys[i]) + ":", v.entries[keys[i]]);
      if r.ok then WriteMembers(r.text, v, keys, i + 1) else r
  }

  /** What the hash is fed with. */
  class Sink {
    var written: string

    constructor ()
      ensures written == ""
    {
      written := "";
    }

    method Put(s: string)
      modifies this
      ensures written == old(written) + s
    {
      written := written + s;
    }
  }

  method SortedKeys(entries: map<string, Value>) returns (keys: seq<string>)
    ensures keys == Ordered(entries)
  {
    hide Less, Increasing, Sort, Ordered, NoDuplicates, Elements;
    keys := [];
    NoKeys();
    var left := entries.Keys;
    while left != {}
      invariant NoDuplicates(keys) && Elements(keys) == entries.Keys - left && left <= entries.Keys
      decreases |left|
    {
      var k :| k in left;
      ElementsSnoc(keys, k);
      DistinctSnoc(keys, k);
      keys, left := keys + [k], left - {k};
    }
    SortIsOrdered(keys, entries);
    keys := Sort(keys);
  }

  lemma NoKeys()
    ensures NoDuplicates([]) && Elements([]) == {}
  {
  }

  lemma SortIsOrdered(s: seq<string>, entries: map<string, Value>)
    requires NoDuplicates(s) && Elements(s) == entries.Keys
    ensures Sort(s) == Ordered(entries)
  {
    hide Less, Increasing, Sort, Elements;
    SortIsListing(s);
  }

  method CanonicalJSON(w: Sink, v: Value) returns (ok: bool)
    modifies w
    ensures Outcome(w.written, ok) == Write(old(w.written), v)
    decreases v
  {
    hide Less, Ordered, EscapeAll, EscapeChar, Quoted;
    ok := true;
    ghost var before := w.written;
    match v
    case Null => w.Put("null");
    case Object(entries) =>
      var keys := SortedKeys(entries);
      w.Put("{");
      for i := 0 to |keys|
        invariant WriteMembers(w.written, v, keys, i) == WriteMembers(before + "{", v, keys, 0)
      {
        if i > 0 {
          w.Put(",");
        } else {
          assert w.written + "" == w.written;
        }
        QuotedBehind(w.written, keys[i]);
        w.Put(Quoted("", keys[i]));
        w.Put(":");
        ok := CanonicalJSON(w, entries[keys[i]]);
        if !ok {
          return;
        }
      }
      w.Put("}");
    case List(items) =>
      w.Put("[");
      for i := 0 to |items|
        invariant WriteItems(w.written, v, i) == WriteItems(before + "[", v, 0)
      {
        if i > 0 {
          w.Put(",");
        } else {
          assert w.written + "" == w.written;
        }
        ok := CanonicalJSON(w, items[i]);
        if !ok {
          return;
        }
      }
      w.Put("]");
    case Boolean(b) => w.Put(if b then "true" else "false");
    case Number(digits) => w.Put(digits);
    case Text(chars) =>
      QuotedBehind(w.written, chars);
      w.Put(Quoted("", chars));
    case Unencodable =>
      return false;
  }

  lemma {:induction false} EscapeAllBehind(out: string, mid: string, s: string)
    ensures EscapeAll(out + mid, s) == out + EscapeAll(mid, s)
    decreases |s|
  {
    if s != "" {
      assert out + mid + EscapeChar(s[0]) == out + (mid + EscapeChar(s[0]));
      EscapeAllBehind(out, mid + EscapeChar(s[0]), s[1..]);
    }
  }

  lemma QuotedBehind(out: string, s: string)
    ensures Quoted(out, s) == out + Quoted("", s)
  {
    assert "" + "\"" == "\"";
    EscapeAllBehind(out, "\"", s);
    assert out + EscapeAll("\"", s) + "\"" == out + (EscapeAll("\"", s) + "\"");
  }

  method FanoutKey(query: string, variables: map<string, Value>) returns (hashed: string)
    ensures hashed == PreHash(query, variables)
  {
    var h := new Sink();
    h.Put(query);
    h.Put("\0");
    assert "" + query == query;
    var _ := CanonicalJSON(h, Object(variables));
    hashed := h.written;
  }

  /** The bytes behind the key; a printer that gave up halfway is not noticed. */
  ghost function PreHash(query: string, variables: map<string, Value>): string {
    Write(query + "\0", Object(variables)).text
  }
}
