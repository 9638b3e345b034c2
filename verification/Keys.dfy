/**
 The keys of the registry and deprecation buckets, the version names in them,
 and the parsers that take them apart again.
 */
module Keys {
  import opened DotSegments
  import opened Options

  // ------------------------------------------------------------------
  // Registry keys

  function ReplicaKey(ns: string, ver: string, replicaID: string): string {
    "pool." + ns + "." + ver + "." + replicaID
  }

  function ParseReplicaKey(key: string): Option<(string, string, string)> {
    var parts := Split(key);
    if |parts| != 4 || parts[0] != "pool" then None else Some((parts[1], parts[2], parts[3]))
  }

  lemma ReplicaKeyJoins(ns: string, ver: string, id: string)
    ensures ReplicaKey(ns, ver, id) == Join(["pool", ns, ver, id])
  {
    var parts := ["pool", ns, ver, id];
    assert parts[1..] == [ns, ver, id] && [ns, ver, id][1..] == [ver, id] && [ver, id][1..] == [id];
    assert Join([ver, id]) == ver + "." + id;
    assert Join([ns, ver, id]) == ns + "." + Join([ver, id]);
    assert Join(parts) == "pool" + "." + Join([ns, ver, id]);
    assert "pool." == "pool" + ".";
    assert "pool." + (ns + "." + (ver + "." + id)) == "pool." + ns + "." + ver + "." + id;
  }

  /** The parser undoes the printer exactly for parts without a dot; empty parts are no obstacle. */
  lemma ReplicaKeyRoundTrip(ns: string, ver: string, id: string)
    ensures ParseReplicaKey(ReplicaKey(ns, ver, id)) == Some((ns, ver, id))
            <==> '.' !in ns && '.' !in ver && '.' !in id
  {
    hide SplitFrom, Join;
    var parts := ["pool", ns, ver, id];
    var key := ReplicaKey(ns, ver, id);
    ReplicaKeyJoins(ns, ver, id);
    if '.' !in ns && '.' !in ver && '.' !in id {
      SplitJoin("", parts);
      assert "" + Join(parts) == key;
    }
    if ParseReplicaKey(key) == Some((ns, ver, id)) {
      SplitDotFree(key, 0);
      assert ns == Split(key)[1] && ver == Split(key)[2] && id == Split(key)[3];
    }
  }

  /** Every key the parser accepts is the one printed from its parts. */
  lemma ReplicaKeyOnto(key: string)
    ensures ParseReplicaKey(key).Some? ==>
              var p := ParseReplicaKey(key).value; ReplicaKey(p.0, p.1, p.2) == key
  {
    hide SplitFrom, Join;
    if ParseReplicaKey(key).Some? {
      var p := ParseReplicaKey(key).value;
      JoinSplit(key, 0);
      assert Split(key) == ["pool", p.0, p.1, p.2];
      ReplicaKeyJoins(p.0, p.1, p.2);
      assert key[0..] == key;
    }
  }

  predicate Reserved(c: char) {
    c == '.' || c == '*' || c == '>' || c == '/' || c == '$'
  }

  method ValidateNS(ns: string) returns (ok: bool)
    ensures ok <==> ns != "" && forall i | 0 <= i < |ns| :: !Reserved(ns[i])
  {
    if ns == "" {
      return false;
    }
    for i := 0 to |ns|
      invariant forall j | 0 <= j < i :: !Reserved(ns[j])
    {
      if Reserved(ns[i]) {
        return false;
      }
    }
    return true;
  }

  // ------------------------------------------------------------------
  // Deprecation keys

  function DeprecatedKey(ns: string, ver: string): string {
    ns + "_" + ver
  }

  /** Both parts around the last underscore; `ok` says that neither is empty. */
  datatype Parsed = Parsed(ns: string, ver: string, ok: bool)

  predicate SplitsAtLast(key: string, i: nat) {
    i < |key| && key[i] == '_' && '_' !in key[i + 1..]
  }

  predicate IsParse(key: string, r: Parsed) {
    if '_' !in key then r == Parsed("", "", false)
    else exists i | 0 <= i < |key| :: SplitsAtLast(key, i) && r == Parsed(key[..i], key[i + 1..], 0 < i < |key| - 1)
  }

  method ParseDeprecatedKey(key: string) returns (r: Parsed)
    ensures IsParse(key, r)
  {
    var i := |key| - 1;
    while i >= 0
      invariant -1 <= i < |key|
      invariant '_' !in key[i + 1..]
    {
      if key[i] == '_' {
        assert SplitsAtLast(key, i);
        return Parsed(key[..i], key[i + 1..], 0 < i < |key| - 1);
      }
      assert key[i..] == [key[i]] + key[i + 1..];
      i := i - 1;
    }
    assert key[0..] == key;
    return Parsed("", "", false);
  }

  lemma NoneAfter(key: string, i: nat)
    requires SplitsAtLast(key, i)
    ensures forall j | i < j < |key| :: key[j] != '_'
  {
    forall j | i < j < |key| ensures key[j] != '_' {
      assert key[j] == key[i + 1..][j - i - 1];
    }
  }

  lemma LastUnderscore(ns: string, ver: string, i: nat)
    requires SplitsAtLast(DeprecatedKey(ns, ver), i)
    ensures i >= |ns|
    ensures '_' !in ver ==> i == |ns|
  {
    var key := DeprecatedKey(ns, ver);
    assert key[|ns|] == '_';
    NoneAfter(key, i);
    assert i > |ns| ==> key[i] == ver[i - |ns| - 1];
  }

  /** Whatever underscores the namespace has, parsing a printed key gives both parts back if and only if the version has
      none, and then it succeeds unless one of them is empty. */
  lemma DeprecatedKeyRoundTrip(ns: string, ver: string, r: Parsed)
    requires IsParse(DeprecatedKey(ns, ver), r)
    ensures (r.ns == ns && r.ver == ver) <==> '_' !in ver
    ensures '_' !in ver ==> (r.ok <==> ns != "" && ver != "")
  {
    var key := DeprecatedKey(ns, ver);
    assert key[|ns|] == '_';
    var i :| 0 <= i < |key| && SplitsAtLast(key, i) && r == Parsed(key[..i], key[i + 1..], 0 < i < |key| - 1);
    LastUnderscore(ns, ver, i);
    assert key[..|ns|] == ns && key[|ns| + 1..] == ver;
  }

  // ------------------------------------------------------------------
  // Numbers

  /** The platform's int has 64 bits. */
  const MAX_INT: int := 0x7FFF_FFFF_FFFF_FFFF

  predicate IsDigit(c: char) {
    '0' <= c <= '9'
  }

  predicate AllDigits(s: string) {
    forall i | 0 <= i < |s| :: IsDigit(s[i])
  }

  function DigitValue(c: char): nat
    requires IsDigit(c)
  {
    c as int - '0' as int
  }

  function Value(s: string): nat
    requires AllDigits(s)
  {
    if s == "" then 0 else 10 * Value(s[..|s| - 1]) + DigitValue(s[|s| - 1])
  }

  function DigitChar(n: nat): (c: char)
    requires n < 10
    ensures IsDigit(c) && DigitValue(c) == n
  {
    '0' + n as char
  }

  function Itoa(n: nat): (s: string)
    ensures s != "" && AllDigits(s)
  {
    if n < 10 then [DigitChar(n)] else Itoa(n / 10) + [DigitChar(n % 10)]
  }

  /** A sign is allowed in front, and a number that does not fit is refused. */
  function AtoiValue(s: string): Option<int> {
    var signed := s != "" && (s[0] == '+' || s[0] == '-');
    var digits := if signed then s[1..] else s;
    if digits == "" || !AllDigits(digits) then None
    else
      var n: int := if signed && s[0] == '-' then 0 - Value(digits) else Value(digits);
      if -MAX_INT - 1 <= n <= MAX_INT then Some(n) else None
  }

  lemma ValueStep(s: string, i: nat)
    requires AllDigits(s) && i < |s|
    ensures Value(s[..i + 1]) == 10 * Value(s[..i]) + DigitValue(s[i])
  {
    assert s[..i + 1][..i] == s[..i];
  }

  lemma {:induction false} ValueGrows(s: string, i: nat)
    requires AllDigits(s) && i <= |s|
    ensures Value(s[..i]) <= Value(s)
    decreases |s| - i
  {
    if i < |s| {
      ValueStep(s, i);
      ValueGrows(s, i + 1);
    } else {
      assert s[..i] == s;
    }
  }

  method Atoi(s: string) returns (r: Option<int>)
    ensures r == AtoiValue(s)
  {
    hide Value;
    var digits := s;
    var negative := false;
    if |s| > 0 && (s[0] == '+' || s[0] == '-') {
      negative := s[0] == '-';
      digits := s[1..];
    }
    if |digits| == 0 {
      return None;
    }
    NoDigits();
    assert digits[..0] == "";
    var limit := if negative then MAX_INT + 1 else MAX_INT;
    var n := 0;
    for i := 0 to |digits|
      invariant AllDigits(digits[..i])
      invariant n == Value(digits[..i]) <= limit
    {
      if !IsDigit(digits[i]) {
        return None;
      }
      assert digits[..i + 1] == digits[..i] + [digits[i]];
      assert digits[..i + 1][..i] == digits[..i];
      ValueStep(digits[..i + 1], i);
      assert digits[..i + 1][..i + 1] == digits[..i + 1];
      n := n * 10 + DigitValue(digits[i]);
      if n > limit {
        TooLarge(digits, i + 1, limit);
        return None;
      }
    }
    assert digits[..|digits|] == digits;
    return Some(if negative then -n else n);
  }

  lemma NoDigits()
    ensures Value("") == 0
  {
  }

  lemma TooLarge(digits: string, i: nat, limit: int)
    requires i <= |digits| && AllDigits(digits[..i]) && Value(digits[..i]) > limit
    ensures AllDigits(digits) ==> Value(digits) > limit
  {
    if AllDigits(digits) {
      ValueGrows(digits, i);
    }
  }

  lemma {:induction false} ValueOfItoa(n: nat)
    ensures Value(Itoa(n)) == n
    ensures n > 0 ==> Itoa(n)[0] != '0'
    decreases n
  {
    if n >= 10 {
      ValueOfItoa(n / 10);
      assert Itoa(n)[..|Itoa(n)| - 1] == Itoa(n / 10);
    } else {
      assert Itoa(n)[..0] == "";
    }
  }

  lemma {:induction false} ItoaOfValue(s: string)
    requires s != "" && AllDigits(s) && (s[0] != '0' || |s| == 1)
    ensures Itoa(Value(s)) == s
    ensures s[0] != '0' ==> Value(s) > 0
    decreases |s|
  {
    var init, last := s[..|s| - 1], s[|s| - 1];
    assert s == init + [last];
    if |s| > 1 {
      ItoaOfValue(init);
      assert Value(s) == 10 * Value(init) + DigitValue(last);
      assert Value(s) / 10 == Value(init) && Value(s) % 10 == DigitValue(last);
    }
  }

  // ------------------------------------------------------------------
  // Versions

  datatype Version = Version(canonical: string, n: int)

  const UNSTABLE := "unstable"

  method ParseVersion(s: string) returns (r: Option<Version>)
    ensures r == VersionOf(s)
  {
    if s == "" {
      return Some(Version("v1", 1));
    }
    if s == UNSTABLE {
      return Some(Version(UNSTABLE, 0));
    }
    if s == "stable" {
      return None;
    }
    if |s| < 2 || s[0] != 'v' {
      return None;
    }
    var digits := s[1..];
    if digits[0] == '0' {
      return None;
    }
    var n := Atoi(digits);
    if n.None? || n.value < 1 {
      return None;
    }
    return Some(Version("v" + Itoa(n.value), n.value));
  }

  function VersionOf(s: string): Option<Version> {
    if s == "" then Some(Version("v1", 1))
    else if s == UNSTABLE then Some(Version(UNSTABLE, 0))
    else if |s| < 2 || s[0] != 'v' || s[1] == '0' then None
    else
      var n := AtoiValue(s[1..]);
      if n.Some? && n.value >= 1 then Some(Version("v" + Itoa(n.value), n.value)) else None
  }

  /** The canonical names are "unstable", for 0, and "vN" for the numbers from 1 on. */
  function Name(n: nat): string {
    if n == 0 then UNSTABLE else "v" + Itoa(n)
  }

  /** Each number has one canonical name, and parsing that name gives the number and the name back. */
  lemma NameParses(n: nat)
    requires n <= MAX_INT
    ensures VersionOf(Name(n)) == Some(Version(Name(n), n))
  {
    if n > 0 {
      ValueOfItoa(n);
      var s := Name(n);
      assert s[1..] == Itoa(n) && s[1] == Itoa(n)[0];
      assert s[0] == 'v' && UNSTABLE[0] == 'u';
      assert IsDigit(Itoa(n)[0]);
    }
  }

  lemma CanonicalIsName(s: string)
    requires VersionOf(s).Some?
    ensures var v := VersionOf(s).value; 0 <= v.n <= MAX_INT && v.canonical == Name(v.n)
  {
    if s == "" {
      assert Itoa(1) == "1";
      assert "v" + "1" == "v1";
    }
  }

  /** Parsing a canonical name changes nothing any more. */
  lemma ParseIdempotent(s: string)
    requires VersionOf(s).Some?
    ensures VersionOf(VersionOf(s).value.canonical) == VersionOf(s)
  {
    hide VersionOf, Name;
    CanonicalIsName(s);
    NameParses(VersionOf(s).value.n);
  }

  /** Canonical names and numbers correspond one to one. */
  lemma CanonicalOneToOne(s: string, t: string)
    requires VersionOf(s).Some? && VersionOf(t).Some?
    ensures VersionOf(s).value.canonical == VersionOf(t).value.canonical
            <==> VersionOf(s).value.n == VersionOf(t).value.n
  {
    hide VersionOf, Name;
    CanonicalIsName(s);
    CanonicalIsName(t);
    NameParses(VersionOf(s).value.n);
    NameParses(VersionOf(t).value.n);
  }

  function Zeros(z: nat): (r: string)
    ensures |r| == z && AllDigits(r)
  {
    seq(z, i => '0')
  }

  lemma {:induction false} ValueOfZeros(z: nat, t: string)
    requires AllDigits(t)
    ensures Value(Zeros(z) + t) == Value(t)
    decreases |t|, z
  {
    var s := Zeros(z) + t;
    if t != "" {
      var init := t[..|t| - 1];
      ValueOfZeros(z, init);
      assert s[..|s| - 1] == Zeros(z) + init;
    } else if z > 0 {
      ValueOfZeros(z - 1, "");
      assert s[..|s| - 1] == Zeros(z - 1) + "";
    }
  }

  /** A digit string for a positive number is the number's decimal text behind some zeros. */
  lemma {:induction false} DigitsOfValue(s: string) returns (z: nat)
    requires AllDigits(s) && Value(s) > 0
    ensures s == Zeros(z) + Itoa(Value(s))
    decreases |s|
  {
    if s[0] != '0' {
      z := 0;
      ItoaOfValue(s);
    } else {
      ValueOfZeros(1, s[1..]);
      assert s == Zeros(1) + s[1..];
      var rest := DigitsOfValue(s[1..]);
      z := rest + 1;
      assert Zeros(1) + (Zeros(rest) + Itoa(Value(s))) == Zeros(z) + Itoa(Value(s));
    }
  }

  /** The spellings of a version: its canonical name, for v1 also the empty string, and for every number any zeros
      between a plus sign and the digits. */
  ghost predicate Spells(s: string, n: nat) {
    && n <= MAX_INT
    && (s == Name(n) || (n == 1 && s == "") || (n > 0 && exists z: nat :: s == "v+" + Zeros(z) + Itoa(n)))
  }

  /** Exactly these are accepted, with that number. */
  lemma AcceptedExactly(s: string, n: nat)
    ensures VersionOf(s).Some? && VersionOf(s).value.n == n <==> Spells(s, n)
  {
    if VersionOf(s).Some? && VersionOf(s).value.n == n {
      CanonicalIsName(s);
      AcceptedSpells(s, n);
    } else if Spells(s, n) {
      SpelledAccepted(s, n);
    }
  }

  /** What follows "v" decides, if it is neither of the words. */
  lemma VersionOfTail(s: string, tail: string)
    requires s == "v" + tail && tail != ""
    ensures VersionOf(s) ==
            if tail[0] == '0' || AtoiValue(tail).None? || AtoiValue(tail).value < 1 then None
            else Some(Version("v" + Itoa(AtoiValue(tail).value), AtoiValue(tail).value))
  {
    hide AtoiValue, Itoa;
    assert s[1..] == tail && s[0] == 'v' && UNSTABLE[0] == 'u' && s[1] == tail[0];
  }

  lemma AtoiPlus(digits: string)
    requires AllDigits(digits) && digits != ""
    ensures AtoiValue("+" + digits) == if Value(digits) <= MAX_INT then Some(Value(digits)) else None
  {
    hide Value;
    assert ("+" + digits)[1..] == digits;
  }

  lemma AcceptedSpells(s: string, n: nat)
    requires VersionOf(s).Some? && VersionOf(s).value.n == n && n <= MAX_INT
    ensures Spells(s, n)
  {
    hide Value, Itoa, Zeros;
    if s != "" && s != UNSTABLE {
      var tail := s[1..];
      assert s == "v" + tail;
      if tail[0] == '-' {
        NegativeSmall(tail);
      } else if tail[0] == '+' {
        PlusSpells(s, tail[1..], n);
      } else {
        ItoaOfValue(tail);
      }
    }
  }

  lemma PlusSpells(s: string, digits: string, n: nat)
    requires s == "v+" + digits && VersionOf(s).Some? && VersionOf(s).value.n == n && n <= MAX_INT
    ensures Spells(s, n)
  {
    hide Value, Itoa, Zeros, VersionOf;
    var tail := "+" + digits;
    assert s == "v" + tail && tail[1..] == digits;
    VersionOfTail(s, tail);
    AtoiPlus(digits);
    var z := DigitsOfValue(digits);
    assert "v+" + (Zeros(z) + Itoa(n)) == "v+" + Zeros(z) + Itoa(n);
  }

  lemma SpelledAccepted(s: string, n: nat)
    requires Spells(s, n)
    ensures VersionOf(s).Some? && VersionOf(s).value.n == n
  {
    hide Value, Itoa, Zeros, VersionOf, Name;
    NameParses(n);
    if s == "" {
      EmptyVersion();
    } else if s != Name(n) {
      var z: nat :| s == "v+" + Zeros(z) + Itoa(n);
      PlusAccepted(z, n);
    }
  }

  lemma PlusAccepted(z: nat, n: nat)
    requires 0 < n <= MAX_INT
    ensures var v := VersionOf("v+" + Zeros(z) + Itoa(n)); v.Some? && v.value.n == n
  {
    hide Value, Itoa, Zeros, VersionOf, AtoiValue;
    var digits := Zeros(z) + Itoa(n);
    PlusJoin(Zeros(z), Itoa(n));
    ValueOfZeros(z, Itoa(n));
    ValueOfItoa(n);
    AtoiPlus(digits);
    VersionOfTail("v" + ("+" + digits), "+" + digits);
  }

  lemma PlusJoin(s: string, t: string)
    ensures "v+" + s + t == "v" + ("+" + (s + t))
  {
  }

  lemma EmptyVersion()
    ensures VersionOf("") == Some(Version("v1", 1))
  {
  }

  lemma NegativeSmall(s: string)
    ensures s != "" && s[0] == '-' ==> (AtoiValue(s).Some? ==> AtoiValue(s).value <= 0)
  {
  }

  lemma NamePlain(n: nat)
    ensures '_' !in Name(n) && '.' !in Name(n)
  {
  }

  /** Registered versions are canonical, so that the keys of the deprecation bucket are unambiguous. */
  lemma RegisteredVersionsSeparate(ns: string, s: string, ms: string, t: string)
    requires VersionOf(s).Some? && VersionOf(t).Some?
    requires DeprecatedKey(ns, VersionOf(s).value.canonical) == DeprecatedKey(ms, VersionOf(t).value.canonical)
    ensures ns == ms && VersionOf(s).value.n == VersionOf(t).value.n
  {
    hide VersionOf, Name;
    var v, w := VersionOf(s).value.canonical, VersionOf(t).value.canonical;
    CanonicalIsName(s);
    CanonicalIsName(t);
    NamePlain(VersionOf(s).value.n);
    NamePlain(VersionOf(t).value.n);
    var key := DeprecatedKey(ns, v);
    assert key[|ns| + 1..] == v && key[|ms| + 1..] == w && key[|ns|] == key[|ms|] == '_';
    assert SplitsAtLast(key, |ns|) && SplitsAtLast(key, |ms|);
    LastUnderscore(ns, v, |ms|);
    assert key[..|ns|] == ns && key[..|ms|] == ms;
    CanonicalOneToOne(s, t);
  }

  /** The key under which a validated namespace and a registered version are stored is taken apart correctly, whatever
      dot-free replica it is for. */
  lemma RegisteredKeysParse(ns: string, s: string, id: string)
    requires forall i | 0 <= i < |ns| :: !Reserved(ns[i])
    requires VersionOf(s).Some? && '.' !in id
    ensures ParseReplicaKey(ReplicaKey(ns, VersionOf(s).value.canonical, id))
            == Some((ns, VersionOf(s).value.canonical, id))
  {
    hide VersionOf, Name, ParseReplicaKey, ReplicaKey;
    CanonicalIsName(s);
    NamePlain(VersionOf(s).value.n);
    ReplicaKeyRoundTrip(ns, VersionOf(s).value.canonical, id);
  }
}
