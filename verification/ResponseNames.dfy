/**
 The names in a mirrored response against the names in the local schema.
 */
module ResponseNames {
  import opened JsonSyntax
  import opened TypenamePrefix
  import Mirror
  import TypenameScan

  /** Some string is the value of a member named `name`; `under` says that `e` itself is such a value. */
  predicate HasNamed(e: Element, under: bool, name: bytes)
    decreases e, 2
  {
    HasNamedValue(e.value, under, name)
  }

  predicate HasNamedValue(v: Value, under: bool, name: bytes)
    decreases v, 1
  {
    match v
    case Atom(_) => false
    case Str(_) => under
    case Arr(_, items) => HasNamedItems(items, name)
    case Obj(_, members) => HasNamedMembers(members, name)
  }

  predicate HasNamedItems(items: seq<Element>, name: bytes)
    decreases items, 0
  {
    |items| > 0 && (HasNamed(items[0], false, name) || HasNamedItems(items[1..], name))
  }

  predicate HasNamedMembers(members: seq<Member>, name: bytes)
    decreases members, 0
  {
    |members| > 0
    && (HasNamed(members[0].element, members[0].name == name, name) || HasNamedMembers(members[1..], name))
  }

  /** What two rewrites with prefixes of different length have in common: everything if there is nothing to rewrite, and
      else not even the length. */
  predicate Apart(has: bool, a: bytes, b: bytes) {
    if has then |a| < |b| else a == b
  }

  lemma {:induction false} ElementApart(e: Element, under: bool, name: bytes, p: bytes, q: bytes)
    requires |p| < |q|
    ensures Apart(HasNamed(e, under, name), Render(Rewrite(e, under, name, p)), Render(Rewrite(e, under, name, q)))
    decreases e, 2
  {
    hide RewriteValue, RenderValue, HasNamedValue;
    ValueApart(e.value, under, name, p, q);
  }

  lemma {:induction false} ValueApart(v: Value, under: bool, name: bytes, p: bytes, q: bytes)
    requires |p| < |q|
    ensures Apart(HasNamedValue(v, under, name), RenderValue(RewriteValue(v, under, name, p)),
                  RenderValue(RewriteValue(v, under, name, q)))
    decreases v, 1
  {
    match v
    case Atom(_) =>
    case Str(_) =>
    case Arr(_, items) =>
      hide RewriteItems, RenderItems, HasNamedItems;
      ItemsApart(items, name, p, q);
    case Obj(_, members) =>
      hide RewriteMembers, RenderMembers, HasNamedMembers;
      MembersApart(members, name, p, q);
  }

  lemma {:induction false} ItemsApart(items: seq<Element>, name: bytes, p: bytes, q: bytes)
    requires |p| < |q|
    ensures Apart(HasNamedItems(items, name), RenderItems(RewriteItems(items, name, p)),
                  RenderItems(RewriteItems(items, name, q)))
    decreases items, 0
  {
    hide Render, Rewrite, HasNamed;
    if |items| > 0 {
      ElementApart(items[0], false, name, p, q);
      ItemsApart(items[1..], name, p, q);
      var a, b := RewriteItems(items, name, p), RewriteItems(items, name, q);
      assert a[1..] == RewriteItems(items[1..], name, p) && b[1..] == RewriteItems(items[1..], name, q);
    }
  }

  lemma {:induction false} MembersApart(members: seq<Member>, name: bytes, p: bytes, q: bytes)
    requires |p| < |q|
    ensures Apart(HasNamedMembers(members, name), RenderMembers(RewriteMembers(members, name, p)),
                  RenderMembers(RewriteMembers(members, name, q)))
    decreases members, 0
  {
    hide Render, Rewrite, HasNamed;
    if |members| > 0 {
      var m := members[0];
      ElementApart(m.element, m.name == name, name, p, q);
      MembersApart(members[1..], name, p, q);
      var a, b := RewriteMembers(members, name, p), RewriteMembers(members, name, q);
      assert a[1..] == RewriteMembers(members[1..], name, p) && b[1..] == RewriteMembers(members[1..], name, q);
    }
  }

  /** A mirrored response names its types as the local schema does if and only if the source is spelled with the short
      prefix there, being the latest or without a version, or the response names no type. */
  lemma ResponseNamesLocal(m: Mirror.Source, e: Element)
    requires WellFormed(e)
    ensures TypenameScan.Prefixed(Render(e), 0, TypenameScan.TARGET, m.ns + [0x5F], [])
            == Render(Rewrite(e, false, TYPENAME, m.Local()))
            <==> m.isCurrent || m.version == [] || !HasNamed(e, false, TYPENAME)
  {
    hide Render, Rewrite, HasNamed;
    TypenamesPrefixed(e, m.ns);
    assert m.Short() == m.ns + [0x5F];
    ElementApart(e, false, TYPENAME, m.Short(), m.Long());
  }

  /** An object with one member. */
  function Single(name: bytes, body: bytes): Element {
    Bare(Obj([], [Member([], name, [], Bare(Str(body)))]))
  }

  lemma SingleNamed(name: bytes, body: bytes)
    requires IsBody(name) && IsBody(body)
    ensures WellFormed(Single(name, body)) && HasNamed(Single(name, body), false, name)
  {
    var m := Member([], name, [], Bare(Str(body)));
    assert WellFormedValue(Str(body));
    assert WellFormed(m.element);
    assert WellFormedMember(m);
    assert WellFormedValue(Obj([], [m]));
    assert HasNamedValue(Str(body), true, name);
    assert HasNamed(m.element, true, name);
    assert HasNamedMembers([m], name);
    assert HasNamedValue(Obj([], [m]), false, name);
  }

  /** An object of type C from version v1 of namespace a, which is not the latest: the response says a_C where the local
      schema says a_v1_C. */
  lemma ResponseMisnamed()
    ensures var m := Mirror.Source([0x61], [0x76, 0x31], false, false);
            var e := Single(TYPENAME, [0x43]);
            && WellFormed(e)
            && TypenameScan.Prefixed(Render(e), 0, TypenameScan.TARGET, m.ns + [0x5F], [])
               != Render(Rewrite(e, false, TYPENAME, m.Local()))
  {
    hide Render, Rewrite, Single, WellFormed, HasNamed, IsBody;
    var c: bytes := [0x43];
    PlainIsBody(TYPENAME, 0);
    PlainIsBody(c, 0);
    assert TYPENAME[0..] == TYPENAME && c[0..] == c;
    SingleNamed(TYPENAME, c);
    ResponseNamesLocal(Mirror.Source([0x61], [0x76, 0x31], false, false), Single(TYPENAME, c));
  }
}
