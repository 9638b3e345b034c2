/**
 The append path of the OpenAPI dispatcher: a JSON response is projected onto a
 GraphQL selection by splicing bytes.
 */
module OpenApiWalker {
  import opened JsonSyntax
  import opened JsonString
  import opened JsonText
  import opened JsonTrees
  import opened Options
  import Ir

  type Name = Ir.Name

  datatype SelectionSet = Absent | Present(items: seq<Selection>)

  /** A field with its alias ("" if it has none), an inline fragment, or a named fragment spread. */
  datatype Selection =
    | Field(name: Name, alias: Name, sub: SelectionSet)
    | Fragment(condition: Option<Name>, sub: SelectionSet)
    | Spread

  /** The bytes of a JSON text, or bytes that a JSON decoder rejects. */
  datatype RawMessage = Json(element: Element) | NotJson(text: bytes) {
    function Bytes(): bytes {
      match this
      case Json(e) => Render(e)
      case NotJson(text) => text
    }
  }

  datatype Walker = Walker(types: Option<Ir.Types>, prefix: Name)

  // ------------------------------------------------------------------
  // Reading an object

  /** The value the decoder's map holds for a name: of repeated names, the last counts. */
  function Lookup(members: seq<Member>, name: Name): (r: Option<Value>)
    ensures r.Some? ==> exists i | 0 <= i < |members| ::
              members[i].element.value == r.value && DecodeBody(members[i].name) == Some(name)
  {
    if |members| == 0 then None
    else
      var last := members[|members| - 1];
      if DecodeBody(last.name) == Some(name) then Some(last.element.value)
      else Lookup(members[..|members| - 1], name)
  }

  lemma LookupIsJson(obj: Value, name: Name)
    requires obj.Obj? && IsJsonValue(obj)
    ensures Lookup(obj.members, name).Some? ==> IsJson(Bare(Lookup(obj.members, name).value))
  {
    hide Lookup, DecodeBody, IsJson, IsJsonValue;
    var r := Lookup(obj.members, name);
    if r.Some? {
      var i :| 0 <= i < |obj.members| && obj.members[i].element.value == r.value;
      MemberOf(obj, i);
    }
  }

  /** A value decoded into a string: null leaves the empty string. */
  function StringOf(v: Option<Value>): Option<Name> {
    match v
    case Some(Str(body)) => DecodeBody(body)
    case Some(Atom(text)) => if text == NULL then Some([]) else None
    case _ => None
  }

  // ------------------------------------------------------------------
  // Types

  function ResolveType(w: Walker, ref: Option<Ir.TypeRef>): Option<Ir.Type> {
    if ref.None? || w.types.None? || ref.value.named == [] then None
    else if ref.value.named in w.types.value then Some(w.types.value[ref.value.named]) else None
  }

  /** The reference of the first field of that name. */
  function FieldRef(fields: seq<Ir.Field>, name: Name): Option<Ir.TypeRef> {
    if fields == [] then None
    else if fields[0].name == name then Some(fields[0].ref) else FieldRef(fields[1..], name)
  }

  function ChildRef(t: Option<Ir.Type>, name: Name): Option<Ir.TypeRef> {
    if t.None? then None else FieldRef(t.value.fields, name)
  }

  /** The elements of a list inside a list take the inner list's element reference. */
  function ItemRef(ref: Option<Ir.TypeRef>): Option<Ir.TypeRef> {
    if ref.Some? && ref.value.list.ListType? then Some(ref.value.list.elem) else ref
  }

  /** The object type registered under `key`, if it is a variant of the union. */
  function VariantNamed(types: Ir.Types, u: Ir.Type, key: Name): Option<Ir.Type> {
    if key in types && types[key].kind.ObjectType? && types[key].name in u.variants then Some(types[key]) else None
  }

  predicate HasRequired(members: seq<Member>, t: Ir.Type) {
    forall i | 0 <= i < |t.fields| :: t.fields[i].required ==> Lookup(members, t.fields[i].name).Some?
  }

  predicate Fits(types: Ir.Types, members: seq<Member>, variant: Name) {
    variant in types && types[variant].kind.ObjectType? && HasRequired(members, types[variant])
  }

  /** The first variant whose required fields are all there. */
  function FirstFit(types: Ir.Types, members: seq<Member>, variants: seq<Name>): Option<Ir.Type> {
    if variants == [] then None
    else if Fits(types, members, variants[0]) then Some(types[variants[0]])
    else FirstFit(types, members, variants[1..])
  }

  function OrElse<T>(a: Option<T>, b: Option<T>): Option<T> {
    if a.Some? then a else b
  }

  /** The variant an object belongs to: by the discriminator's mapping, by the discriminator as a type name, by
      __typename, and else by the required fields. */
  function UnionVariant(w: Walker, members: seq<Member>, u: Ir.Type): Option<Ir.Type> {
    if w.types.None? then None
    else
      var types := w.types.value;
      var disc := if u.discriminatorProperty == [] then None else StringOf(Lookup(members, u.discriminatorProperty));
      var mapped :=
        if disc.Some? && disc.value in u.discriminatorMapping
        then VariantNamed(types, u, u.discriminatorMapping[disc.value]) else None;
      var same := if disc.Some? then VariantNamed(types, u, disc.value) else None;
      var wire := StringOf(Lookup(members, TYPENAME));
      var named := if wire.Some? then VariantNamed(types, u, wire.value) else None;
      OrElse(mapped, OrElse(same, OrElse(named, FirstFit(types, members, u.variants))))
  }

  /** A condition names the variant, with or without the local prefix. */
  function Unprefixed(w: Walker, condition: Name): Name {
    if w.prefix != [] && |condition| > |w.prefix| && condition[..|w.prefix|] == w.prefix
    then condition[|w.prefix|..] else condition
  }

  // ------------------------------------------------------------------
  // The projection

  function ResponseKey(f: Selection): Name
    requires f.Field?
  {
    if f.alias != [] then f.alias else f.name
  }

  function MakeMember(key: Name, e: Element): Member {
    Member([], Escape(key), [], e)
  }

  /** The value of __typename: the local name of the type, where it is known. */
  function TypenameValue(w: Walker, t: Option<Ir.Type>): Value {
    if t.Some? && w.prefix != [] then Str(Escape(w.prefix + t.value.name)) else Atom(NULL)
  }

  function Project(w: Walker, e: Element, sel: SelectionSet, ref: Option<Ir.TypeRef>): Element
    decreases sel, e.value, 3
  {
    if sel.Absent? then e
    else
      match e.value
      case Obj(_, _) => Bare(Obj([], ProjectObject(w, e.value, sel, ResolveType(w, ref))))
      case Arr(_, items) => Bare(Arr([], ProjectItems(w, items, sel, ItemRef(ref))))
      case _ => e
  }

  function ProjectObject(w: Walker, obj: Value, sel: SelectionSet, t: Option<Ir.Type>): seq<Member>
    requires obj.Obj? && sel.Present?
    decreases sel, obj, 2
  {
    if t.Some? && t.value.kind.UnionType?
    then UnionMembers(w, obj, sel.items, UnionVariant(w, obj.members, t.value))
    else SelectMembers(w, obj, sel.items, t)
  }

  function ProjectItems(w: Walker, items: seq<Element>, sel: SelectionSet, ref: Option<Ir.TypeRef>): (r: seq<Element>)
    ensures |r| == |items|
    decreases sel, items, 0
  {
    if |items| == 0 then []
    else ProjectItems(w, items[..|items| - 1], sel, ref) + [Project(w, Bare(items[|items| - 1].value), sel, ref)]
  }

  /** The members one selection contributes. */
  function SelectOne(w: Walker, obj: Value, s: Selection, t: Option<Ir.Type>): seq<Member>
    requires obj.Obj?
    decreases s, obj, 0
  {
    match s
    case Field(name, _, sub) =>
      if name == TYPENAME then [MakeMember(ResponseKey(s), Bare(TypenameValue(w, t)))]
      else
        var child := Lookup(obj.members, name);
        var e := if child.None? then Bare(Atom(NULL)) else Project(w, Bare(child.value), sub, ChildRef(t, name));
        [MakeMember(ResponseKey(s), e)]
    case Fragment(_, sub) => if sub.Absent? then [] else SelectMembers(w, obj, sub.items, t)
    case Spread => []
  }

  function SelectMembers(w: Walker, obj: Value, sels: seq<Selection>, t: Option<Ir.Type>): seq<Member>
    requires obj.Obj?
    decreases sels, obj, 0
  {
    if |sels| == 0 then []
    else SelectMembers(w, obj, sels[..|sels| - 1], t) + SelectOne(w, obj, sels[|sels| - 1], t)
  }

  /** On a union, only __typename and the fragments of the object's own variant contribute. */
  function UnionOne(w: Walker, obj: Value, s: Selection, variant: Option<Ir.Type>): seq<Member>
    requires obj.Obj?
    decreases s, obj, 1
  {
    match s
    case Field(name, _, _) =>
      if name == TYPENAME then [MakeMember(ResponseKey(s), Bare(TypenameValue(w, variant)))] else []
    case Fragment(condition, sub) =>
      if sub.Absent? || variant.None? then []
      else if condition.Some? && Unprefixed(w, condition.value) != variant.value.name then []
      else SelectMembers(w, obj, sub.items, variant)
    case Spread => []
  }

  function UnionMembers(w: Walker, obj: Value, sels: seq<Selection>, variant: Option<Ir.Type>): seq<Member>
    requires obj.Obj?
    decreases sels, obj, 1
  {
    if |sels| == 0 then []
    else UnionMembers(w, obj, sels[..|sels| - 1], variant) + UnionOne(w, obj, sels[|sels| - 1], variant)
  }

  // ------------------------------------------------------------------
  // Commas

  /** Members spliced into an object: with a comma in front unless they are its first. */
  function Spliced(first: bool, members: seq<Member>): bytes {
    if members == [] then [] else (if first then [] else [COMMA]) + RenderMembers(members)
  }

  lemma {:induction false} RenderMembersAppend(a: seq<Member>, b: seq<Member>)
    requires a != [] && b != []
    ensures RenderMembers(a + b) == RenderMembers(a) + [COMMA] + RenderMembers(b)
    decreases |a|
  {
    hide RenderMember;
    assert (a + b)[1..] == a[1..] + b;
    if |a| > 1 {
      RenderMembersAppend(a[1..], b);
      var x, y, z := RenderMember(a[0]), RenderMembers(a[1..]), RenderMembers(b);
      assert x + [COMMA] + (y + [COMMA] + z) == x + [COMMA] + y + [COMMA] + z;
    }
  }

  lemma SplicedJoin(first: bool, a: seq<Member>, b: seq<Member>)
    ensures Spliced(first, a + b) == Spliced(first, a) + Spliced(first && a == [], b)
  {
    hide RenderMembers;
    if a == [] {
      assert a + b == b;
    } else if b == [] {
      assert a + b == a;
    } else {
      RenderMembersAppend(a, b);
      JoinBytes(if first then [] else [COMMA], RenderMembers(a), [COMMA], RenderMembers(b));
    }
  }

  lemma JoinBytes(sep: bytes, x: bytes, comma: bytes, y: bytes)
    ensures sep + (x + comma + y) == (sep + x) + (comma + y)
  {
  }

  lemma SplicedAppend(dst: bytes, first: bool, a: seq<Member>, b: seq<Member>)
    ensures dst + Spliced(first, a) + Spliced(first && a == [], b) == dst + Spliced(first, a + b)
  {
    hide Spliced;
    SplicedJoin(first, a, b);
    var x, y := Spliced(first, a), Spliced(first && a == [], b);
    assert dst + x + y == dst + (x + y);
  }

  lemma SplicedNone(dst: bytes, first: bool)
    ensures dst + Spliced(first, []) == dst
  {
  }

  lemma {:induction false} RenderItemsAppend(a: seq<Element>, e: Element)
    ensures RenderItems(a + [e]) == RenderItems(a) + (if a == [] then [] else [COMMA]) + Render(e)
    decreases |a|
  {
    hide Render;
    if a == [] {
      assert a + [e] == [e];
    } else {
      assert (a + [e])[1..] == a[1..] + [e];
      RenderItemsAppend(a[1..], e);
      if |a| > 1 {
        var x, y, z := Render(a[0]), RenderItems(a[1..]), Render(e);
        assert x + [COMMA] + (y + [COMMA] + z) == x + [COMMA] + y + [COMMA] + z;
      }
    }
  }

  /** The bytes of one member behind `dst`, in the order in which they are appended. */
  lemma MemberBytes(dst: bytes, first: bool, key: Name, e: Element)
    ensures dst + (if first then [] else [COMMA]) + RenderString(Escape(key)) + [COLON] + Render(e)
            == dst + Spliced(first, [MakeMember(key, e)])
  {
    hide Render, Escape, RenderString;
    var k, sep, r := RenderString(Escape(key)), (if first then [] else [COMMA]), Render(e);
    assert RenderMember(MakeMember(key, e)) == k + [COLON] + r;
    assert sep + (k + [COLON] + r) == sep + k + [COLON] + r;
    assert dst + sep + k + [COLON] + r == dst + (sep + k + [COLON] + r);
  }

  // ------------------------------------------------------------------
  // The appending walker

  /** The first byte that is not white space tells objects and arrays from the rest. */
  lemma FirstByte(e: Element)
    requires WellFormed(e)
    ensures var raw, i := Render(e), SkipSpace(Render(e), 0);
            && i < |raw|
            && (raw[i] == LBRACE <==> e.value.Obj?)
            && (raw[i] == LBRACKET <==> e.value.Arr?)
  {
    hide RenderValue, WellFormedValue;
    var v := RenderValue(e.value);
    ValueStart(e.value);
    SkipSpaceExact([], e.pre, v + e.post);
    assert [] + e.pre + (v + e.post) == Render(e);
    assert Render(e)[|e.pre|] == v[0];
  }

  lemma ValueStart(v: Value)
    requires WellFormedValue(v)
    ensures var text := RenderValue(v);
            && text != [] && !IsSpace(text[0])
            && (text[0] == LBRACE <==> v.Obj?) && (text[0] == LBRACKET <==> v.Arr?)
  {
    hide RenderItems, RenderMembers, WellFormed, WellFormedMember, IsBody;
  }

  /** The bytes of a JSON tree, or bytes that are not those of any. */
  ghost predicate Readable(raw: RawMessage) {
    match raw
    case Json(e) => IsJson(e)
    case NotJson(text) => forall e | IsJson(e) :: Render(e) != text
  }

  /** The bytes decide how a message is read: as the one tree whose rendering they are, or as bytes that are none. */
  lemma BytesDecide(raw: RawMessage, other: RawMessage)
    requires Readable(raw) && Readable(other) && raw.Bytes() == other.Bytes()
    ensures raw == other
  {
    if raw.Json? && other.Json? {
      OneTree(raw.element, other.element);
    }
  }

  /** For the bytes of a tree: the rendered projection.  For anything else: null if blank, the bytes themselves if
      they are not to be looked into, and else an error. */
  predicate Appended(
    w: Walker, dst: bytes, raw: RawMessage, sel: SelectionSet, ref: Option<Ir.TypeRef>, out: Option<bytes>)
  {
    match raw
    case Json(e) => out == Some(dst + Render(Project(w, e, sel, ref)))
    case NotJson(text) =>
      var i := SkipSpace(text, 0);
      if i == |text| then out == Some(dst + NULL)
      else if sel.Present? && (text[i] == LBRACE || text[i] == LBRACKET) then out == None
      else out == Some(dst + text)
  }

  function Measure(raw: RawMessage): Value {
    if raw.Json? then raw.element.value else Atom([])
  }

  method AppendValue(w: Walker, dst: bytes, raw: RawMessage, selSet: SelectionSet, outRef: Option<Ir.TypeRef>)
    returns (out: Option<bytes>)
    requires Readable(raw)
    ensures Appended(w, dst, raw, selSet, outRef, out)
    decreases selSet, Measure(raw), 5
  {
    hide Render, RenderValue;
    var text := raw.Bytes();
    if |text| == 0 {
      if raw.Json? {
        FirstByte(raw.element);
      }
      return Some(dst + NULL);
    }
    var i := 0;
    while i < |text| && IsSpace(text[i])
      invariant 0 <= i <= |text|
      invariant SkipSpace(text, 0) == SkipSpace(text, i)
    {
      i := i + 1;
    }
    if raw.Json? {
      FirstByte(raw.element);
    }
    if i >= |text| {
      return Some(dst + NULL);
    }
    if text[i] == LBRACE {
      if selSet.Absent? {
        return Some(dst + text);
      }
      if raw.NotJson? {
        return None;
      }
      var t := ResolveType(w, outRef);
      var r: bytes;
      if t.Some? && t.value.kind.UnionType? {
        r := AppendUnion(w, dst, raw.element.value, selSet, t.value);
      } else {
        r := AppendObject(w, dst, raw.element.value, selSet, t);
      }
      out := Some(r);
      BareBytes(Obj([], ProjectObject(w, raw.element.value, selSet, t)));
    } else if text[i] == LBRACKET {
      if selSet.Absent? {
        return Some(dst + text);
      }
      if raw.NotJson? {
        return None;
      }
      var r := AppendList(w, dst, raw.element.value, selSet, ItemRef(outRef));
      out := Some(r);
      BareBytes(Arr([], ProjectItems(w, raw.element.value.items, selSet, ItemRef(outRef))));
    } else {
      out := Some(dst + text);
    }
  }

  lemma BareBytes(v: Value)
    ensures Render(Bare(v)) == RenderValue(v)
  {
  }

  method AppendObject(w: Walker, dst: bytes, obj: Value, selSet: SelectionSet, t: Option<Ir.Type>) returns (out: bytes)
    requires obj.Obj? && selSet.Present? && IsJsonValue(obj)
    ensures out == dst + RenderValue(Obj([], SelectMembers(w, obj, selSet.items, t)))
    decreases selSet, obj, 3
  {
    out := dst + [LBRACE];
    var first;
    out, first := AppendSelection(w, out, obj, selSet, true, t);
    out := out + [RBRACE];
    ObjectBytes(dst, SelectMembers(w, obj, selSet.items, t));
  }

  lemma ObjectBytes(dst: bytes, members: seq<Member>)
    ensures dst + [LBRACE] + Spliced(true, members) + [RBRACE] == dst + RenderValue(Obj([], members))
  {
    var text := RenderMembers(members);
    assert Spliced(true, members) == text;
    assert RenderValue(Obj([], members)) == [LBRACE] + text + [RBRACE];
    assert dst + [LBRACE] + text + [RBRACE] == dst + ([LBRACE] + text + [RBRACE]);
  }

  method AppendSelection(w: Walker, dst: bytes, obj: Value, selSet: SelectionSet, atStart: bool, t: Option<Ir.Type>)
    returns (out: bytes, first: bool)
    requires obj.Obj? && IsJsonValue(obj)
    ensures var members := if selSet.Absent? then [] else SelectMembers(w, obj, selSet.items, t);
            out == dst + Spliced(atStart, members) && first == (atStart && members == [])
    decreases selSet, obj, 2
  {
    hide Render, RenderValue, Spliced, SelectOne;
    out, first := dst, atStart;
    SplicedNone(dst, atStart);
    if selSet.Absent? {
      return;
    }
    var items := selSet.items;
    for i := 0 to |items|
      invariant out == dst + Spliced(atStart, SelectMembers(w, obj, items[..i], t))
      invariant first == (atStart && SelectMembers(w, obj, items[..i], t) == [])
    {
      assert items[..i + 1][..i] == items[..i];
      SplicedAppend(dst, atStart, SelectMembers(w, obj, items[..i], t), SelectOne(w, obj, items[i], t));
      out, first := AppendOne(w, out, obj, items[i], first, t);
    }
    assert items[..|items|] == items;
  }

  /** The body of that loop.  A plain field contributes its answer. */
  method AppendOne(w: Walker, dst: bytes, obj: Value, sel: Selection, atStart: bool, t: Option<Ir.Type>)
    returns (out: bytes, first: bool)
    requires obj.Obj? && IsJsonValue(obj)
    ensures out == dst + Spliced(atStart, SelectOne(w, obj, sel, t))
    ensures first == (atStart && SelectOne(w, obj, sel, t) == [])
    ensures sel.Field? ==> exists m :: Answers(w, obj.members, sel, t, m) && out == dst + Spliced(atStart, [m])
    decreases sel, obj, 1
  {
    match sel
    case Field(_, _, _) =>
      hide Answers, SelectOne, Spliced;
      AnswerOf(w, obj, sel, t);
      out := AppendField(w, dst, obj, sel, atStart, t);
      first := false;
    case Fragment(_, sub) =>
      out, first := dst, atStart;
      if sub.Absent? {
        assert dst + [] == dst;
        return;
      }
      out, first := AppendSelection(w, out, obj, sub, first, t);
    case Spread =>
      out, first := dst, atStart;
      assert dst + [] == dst;
  }

  method AppendField(w: Walker, dst: bytes, obj: Value, f: Selection, atStart: bool, t: Option<Ir.Type>)
    returns (out: bytes)
    requires obj.Obj? && IsJsonValue(obj) && f.Field?
    ensures out == dst + Spliced(atStart, SelectOne(w, obj, f, t))
    decreases f, obj, 0
  {
    hide Spliced, Render, RenderValue, MakeMember, Escape, Project;
    out := dst;
    var respKey := f.name;
    if f.alias != [] {
      respKey := f.alias;
    }
    if !atStart {
      out := out + [COMMA];
    } else {
      assert dst + [] == dst;
    }
    out := AppendJSONString(out, respKey);
    out := out + [COLON];
    if f.name == TYPENAME {
      MemberBytes(dst, atStart, respKey, Bare(TypenameValue(w, t)));
      BareBytes(TypenameValue(w, t));
      out := AppendTypename(w, out, t);
      return;
    }
    var child := Lookup(obj.members, f.name);
    if child.None? {
      MemberBytes(dst, atStart, respKey, Bare(Atom(NULL)));
      BareBytes(Atom(NULL));
      AtomBytes(NULL);
      out := out + NULL;
      return;
    }
    LookupIsJson(obj, f.name);
    ghost var e := Project(w, Bare(child.value), f.sub, ChildRef(t, f.name));
    MemberBytes(dst, atStart, respKey, e);
    var r := AppendValue(w, out, Json(Bare(child.value)), f.sub, ChildRef(t, f.name));
    out := r.value;
  }

  lemma AtomBytes(text: bytes)
    ensures RenderValue(Atom(text)) == text
  {
  }

  method AppendTypename(w: Walker, dst: bytes, t: Option<Ir.Type>) returns (out: bytes)
    ensures out == dst + RenderValue(TypenameValue(w, t))
  {
    if t.Some? && w.prefix != [] {
      out := AppendJSONString(dst, w.prefix + t.value.name);
    } else {
      out := dst + NULL;
    }
  }

  method AppendUnion(w: Walker, dst: bytes, obj: Value, selSet: SelectionSet, u: Ir.Type) returns (out: bytes)
    requires obj.Obj? && selSet.Present? && IsJsonValue(obj)
    ensures out == dst + RenderValue(Obj([], UnionMembers(w, obj, selSet.items, UnionVariant(w, obj.members, u))))
    decreases selSet, obj, 4
  {
    hide Render, RenderValue, Spliced, UnionOne;
    var variant := ResolveUnionVariant(w, obj.members, u);
    out := dst + [LBRACE];
    ghost var open := out;
    var first := true;
    var items := selSet.items;
    SplicedNone(open, true);
    for i := 0 to |items|
      invariant out == open + Spliced(true, UnionMembers(w, obj, items[..i], variant))
      invariant first == (UnionMembers(w, obj, items[..i], variant) == [])
    {
      assert items[..i + 1][..i] == items[..i];
      SplicedAppend(open, true, UnionMembers(w, obj, items[..i], variant), UnionOne(w, obj, items[i], variant));
      out, first := AppendUnionOne(w, out, obj, items[i], first, variant);
    }
    assert items[..|items|] == items;
    out := out + [RBRACE];
    ObjectBytes(dst, UnionMembers(w, obj, items, variant));
  }

  /** The body of that loop. */
  method AppendUnionOne(w: Walker, dst: bytes, obj: Value, sel: Selection, atStart: bool, variant: Option<Ir.Type>)
    returns (out: bytes, first: bool)
    requires obj.Obj? && IsJsonValue(obj)
    ensures out == dst + Spliced(atStart, UnionOne(w, obj, sel, variant))
    ensures first == (atStart && UnionOne(w, obj, sel, variant) == [])
    decreases sel, obj, 3
  {
    hide Render, RenderValue, Escape, TypenameValue, Unprefixed;
    out, first := dst, atStart;
    assert dst + [] == dst;
    match sel
    case Field(name, alias, _) =>
      var respKey := name;
      if alias != [] {
        respKey := alias;
      }
      if name != TYPENAME {
        return;
      }
      if !first {
        out := out + [COMMA];
      }
      first := false;
      out := AppendJSONString(out, respKey);
      out := out + [COLON];
      MemberBytes(dst, atStart, respKey, Bare(TypenameValue(w, variant)));
      BareBytes(TypenameValue(w, variant));
      out := AppendTypename(w, out, variant);
    case Fragment(condition, sub) =>
      if sub.Absent? || variant.None? {
        return;
      }
      if condition.Some? {
        var bare := Unprefixed(w, condition.value);
        if bare != variant.value.name {
          return;
        }
      }
      out, first := AppendSelection(w, out, obj, sub, first, variant);
    case Spread =>
  }

  method AppendList(w: Walker, dst: bytes, list: Value, selSet: SelectionSet, outRef: Option<Ir.TypeRef>)
    returns (out: bytes)
    requires list.Arr? && selSet.Present? && IsJsonValue(list)
    ensures out == dst + RenderValue(Arr([], ProjectItems(w, list.items, selSet, outRef)))
    decreases selSet, list, 4
  {
    hide Project, Render, RenderItems, RenderValue;
    var items := list.items;
    out := dst + [LBRACKET];
    ghost var open := out;
    ArrayStart(open);
    for i := 0 to |items|
      invariant out == open + RenderItems(ProjectItems(w, items[..i], selSet, outRef))
    {
      assert items[..i + 1][..i] == items[..i];
      ghost var done := ProjectItems(w, items[..i], selSet, outRef);
      ghost var e := Project(w, Bare(items[i].value), selSet, outRef);
      RenderItemsAppend(done, e);
      ListBytes(open, RenderItems(done), i == 0, Render(e));
      if i > 0 {
        out := out + [COMMA];
      }
      ItemOf(list, i);
      var r := AppendValue(w, out, Json(Bare(items[i].value)), selSet, outRef);
      out := r.value;
    }
    assert items[..|items|] == items;
    out := out + [RBRACKET];
    ArrayBytes(dst, ProjectItems(w, items, selSet, outRef));
  }

  lemma ArrayStart(open: bytes)
    ensures open + RenderItems([]) == open
  {
  }

  lemma ArrayBytes(dst: bytes, items: seq<Element>)
    ensures dst + [LBRACKET] + RenderItems(items) + [RBRACKET] == dst + RenderValue(Arr([], items))
  {
    var text := RenderItems(items);
    assert RenderValue(Arr([], items)) == [LBRACKET] + text + [RBRACKET];
    assert dst + [LBRACKET] + text + [RBRACKET] == dst + ([LBRACKET] + text + [RBRACKET]);
  }

  lemma ListBytes(open: bytes, done: bytes, atStart: bool, e: bytes)
    ensures open + (done + (if atStart then [] else [COMMA]) + e)
            == if atStart then open + done + e else open + done + [COMMA] + e
  {
    if atStart {
      assert done + [] == done;
    }
  }

  method ResolveUnionVariant(w: Walker, obj: seq<Member>, u: Ir.Type) returns (t: Option<Ir.Type>)
    ensures t == UnionVariant(w, obj, u)
  {
    hide Lookup, StringOf, VariantNamed;
    if w.types.None? {
      return None;
    }
    var types := w.types.value;
    if u.discriminatorProperty != [] {
      var disc := StringOf(Lookup(obj, u.discriminatorProperty));
      if disc.Some? {
        if disc.value in u.discriminatorMapping {
          t := VariantNamed(types, u, u.discriminatorMapping[disc.value]);
          if t.Some? {
            return;
          }
        }
        t := VariantNamed(types, u, disc.value);
        if t.Some? {
          return;
        }
      }
    }
    var wire := StringOf(Lookup(obj, TYPENAME));
    if wire.Some? {
      t := VariantNamed(types, u, wire.value);
      if t.Some? {
        return;
      }
    }
    for k := 0 to |u.variants|
      invariant FirstFit(types, obj, u.variants) == FirstFit(types, obj, u.variants[k..])
    {
      var name := u.variants[k];
      assert u.variants[k..][0] == name && u.variants[k..][1..] == u.variants[k + 1..];
      if name !in types || !types[name].kind.ObjectType? {
        continue;
      }
      var fits := true;
      for j := 0 to |types[name].fields|
        invariant fits
        invariant forall i | 0 <= i < j ::
            types[name].fields[i].required ==> Lookup(obj, types[name].fields[i].name).Some?
      {
        if types[name].fields[j].required && Lookup(obj, types[name].fields[j].name).None? {
          fits := false;
          break;
        }
      }
      if fits {
        return Some(types[name]);
      }
    }
    return None;
  }

  // ------------------------------------------------------------------
  // Properties of the projection

  /** The upstream member that answers a name: the last one that decodes to it. */
  ghost predicate LastNamed(members: seq<Member>, name: Name, j: nat) {
    && j < |members| && DecodeBody(members[j].name) == Some(name)
    && forall k | j < k < |members| :: DecodeBody(members[k].name) != Some(name)
  }

  lemma {:induction false} LookupIsLast(members: seq<Member>, name: Name)
    ensures var r := Lookup(members, name);
            if r.None? then forall j | 0 <= j < |members| :: DecodeBody(members[j].name) != Some(name)
            else exists j: nat :: j < |members| && LastNamed(members, name, j) && members[j].element.value == r.value
    decreases |members|
  {
    hide DecodeBody;
    if members != [] {
      var init, n := members[..|members| - 1], |members| - 1;
      LookupIsLast(init, name);
      if DecodeBody(members[n].name) == Some(name) {
        assert LastNamed(members, name, n);
      } else if Lookup(init, name).Some? {
        var j: nat :| j < |init| && LastNamed(init, name, j) && init[j].element.value == Lookup(init, name).value;
        forall k | j < k < |members| ensures DecodeBody(members[k].name) != Some(name) {
          assert k < n ==> members[k] == init[k];
        }
        assert LastNamed(members, name, j);
      }
    }
  }

  /** The variant chosen for an object is an object type of the service and a member of the union, and it is missing
      only if neither the discriminator nor __typename names such a type and no variant has its required fields. */
  lemma VariantIsMember(w: Walker, members: seq<Member>, u: Ir.Type)
    requires w.types.Some? && Ir.Keyed(w.types.value)
    ensures var v := UnionVariant(w, members, u);
            var types := w.types.value;
            && (v.Some? ==> v.value.kind.ObjectType? && v.value.name in types && types[v.value.name] == v.value
                            && v.value.name in u.variants)
            && (v.None? ==> forall k | 0 <= k < |u.variants| :: !Fits(types, members, u.variants[k]))
  {
    hide Lookup, Fits, StringOf;
    FirstFitExact(w.types.value, members, u.variants);
    FitsMeaning(w.types.value, members);
  }

  lemma FitsMeaning(types: Ir.Types, members: seq<Member>)
    ensures forall v :: Fits(types, members, v) ==> v in types && types[v].kind.ObjectType?
  {
    hide Lookup;
  }

  lemma {:induction false} FirstFitExact(types: Ir.Types, members: seq<Member>, variants: seq<Name>)
    ensures var v := FirstFit(types, members, variants);
            if v.None? then forall k | 0 <= k < |variants| :: !Fits(types, members, variants[k])
            else exists k | 0 <= k < |variants| ::
                   Fits(types, members, variants[k]) && types[variants[k]] == v.value
                   && forall j | 0 <= j < k :: !Fits(types, members, variants[j])
    decreases |variants|
  {
    hide Fits;
    FitsMeaning(types, members);
    if variants != [] && !Fits(types, members, variants[0]) {
      FirstFitExact(types, members, variants[1..]);
      if FirstFit(types, members, variants[1..]).Some? {
        var k :| 0 <= k < |variants| - 1 && Fits(types, members, variants[1..][k])
                 && types[variants[1..][k]] == FirstFit(types, members, variants).value
                 && forall j | 0 <= j < k :: !Fits(types, members, variants[1..][j]);
        assert variants[k + 1] == variants[1..][k];
        forall j | 0 <= j < k + 1 ensures !Fits(types, members, variants[j]) {
          if j > 0 {
            assert variants[j] == variants[1..][j - 1];
          }
        }
      } else {
        forall k | 0 <= k < |variants| ensures !Fits(types, members, variants[k]) {
          if k > 0 {
            assert variants[k] == variants[1..][k - 1];
          }
        }
      }
    }
  }

  /** A discriminator that the mapping sends to a variant decides alone, whatever fields the object has. */
  lemma DiscriminatorDecides(w: Walker, members: seq<Member>, u: Ir.Type, disc: Name)
    requires w.types.Some? && Ir.Keyed(w.types.value) && u.discriminatorProperty != []
    requires disc in u.discriminatorMapping
    ensures var key := u.discriminatorMapping[disc];
            && StringOf(Lookup(members, u.discriminatorProperty)) == Some(disc)
            && key in u.variants && key in w.types.value && w.types.value[key].kind.ObjectType?
            ==> UnionVariant(w, members, u) == Some(w.types.value[key])
  {
    hide Lookup, StringOf, FirstFit;
  }

  /** The decoder reads the string `text` under a name; a null reads as the empty string. */
  ghost predicate Reads(members: seq<Member>, name: Name, text: Name) {
    exists j: nat :: j < |members| && LastNamed(members, name, j) && ReadsAs(members[j].element.value, text)
  }

  predicate ReadsAs(v: Value, text: Name) {
    (v.Str? && DecodeBody(v.body) == Some(text)) || (v == Atom(NULL) && text == [])
  }

  lemma LastIsOne(members: seq<Member>, name: Name, i: nat, j: nat)
    ensures LastNamed(members, name, i) && LastNamed(members, name, j) ==> i == j
  {
    hide DecodeBody;
  }

  lemma ReadsExactly(members: seq<Member>, name: Name, text: Name)
    ensures Reads(members, name, text) <==> StringOf(Lookup(members, name)) == Some(text)
  {
    hide DecodeBody, Lookup, LastNamed;
    LookupIsLast(members, name);
    var r := Lookup(members, name);
    if r.Some? {
      var j: nat :| j < |members| && LastNamed(members, name, j) && members[j].element.value == r.value;
      forall i: nat | i < |members| && LastNamed(members, name, i) ensures i == j {
        LastIsOne(members, name, i, j);
      }
    } else {
      forall j: nat | j < |members| ensures !LastNamed(members, name, j) {
        assert DecodeBody(members[j].name) != Some(name);
        LastIs(members, name, j);
      }
    }
  }

  lemma LastIs(members: seq<Member>, name: Name, j: nat)
    ensures LastNamed(members, name, j) ==> j < |members| && DecodeBody(members[j].name) == Some(name)
  {
  }

  /** An object type of the service that is a member of the union. */
  predicate MemberType(types: Ir.Types, u: Ir.Type, key: Name) {
    key in types && types[key].kind.ObjectType? && key in u.variants
  }

  /** The discriminator's value stands for a type: through the mapping first, and else as its name. */
  predicate StandsFor(types: Ir.Types, u: Ir.Type, disc: Name, key: Name) {
    && MemberType(types, u, key)
    && if disc in u.discriminatorMapping && MemberType(types, u, u.discriminatorMapping[disc])
       then key == u.discriminatorMapping[disc] else key == disc
  }

  /** How the variant is found.  The discriminator decides if its value stands for a type; else __typename, if it names
      one; else the first variant whose required fields the object has. */
  lemma VariantExactly(w: Walker, members: seq<Member>, u: Ir.Type)
    requires w.types.Some? && Ir.Keyed(w.types.value)
    ensures var types := w.types.value;
            var v := UnionVariant(w, members, u);
            var byDisc := exists d, k ::
                            u.discriminatorProperty != [] && Reads(members, u.discriminatorProperty, d)
                            && StandsFor(types, u, d, k);
            var byName := exists n :: Reads(members, TYPENAME, n) && MemberType(types, u, n);
            if byDisc then
              exists d, k ::
                Reads(members, u.discriminatorProperty, d) && StandsFor(types, u, d, k) && v == Some(types[k])
            else if byName then
              exists n :: Reads(members, TYPENAME, n) && MemberType(types, u, n) && v == Some(types[n])
            else FirstFitting(types, members, u.variants, v)
  {
    hide Lookup, StringOf, Reads, FirstFit, FirstFitting;
    var types := w.types.value;
    forall d ensures Reads(members, u.discriminatorProperty, d)
                     <==> StringOf(Lookup(members, u.discriminatorProperty)) == Some(d) {
      ReadsExactly(members, u.discriminatorProperty, d);
    }
    forall n ensures Reads(members, TYPENAME, n) <==> StringOf(Lookup(members, TYPENAME)) == Some(n) {
      ReadsExactly(members, TYPENAME, n);
    }
    FirstFitIs(types, members, u.variants);
    var v := UnionVariant(w, members, u);
    var disc := StringOf(Lookup(members, u.discriminatorProperty));
    if d, k :| u.discriminatorProperty != [] && Reads(members, u.discriminatorProperty, d)
               && StandsFor(types, u, d, k) {
      assert disc == Some(d);
      assert v == Some(types[k]);
    } else {
      if u.discriminatorProperty != [] && disc.Some? {
        assert Reads(members, u.discriminatorProperty, disc.value);
        assert !StandsFor(types, u, disc.value, disc.value);
        if disc.value in u.discriminatorMapping {
          assert !StandsFor(types, u, disc.value, u.discriminatorMapping[disc.value]);
        }
      }
      if n :| Reads(members, TYPENAME, n) && MemberType(types, u, n) {
        assert v == Some(types[n]);
      }
    }
  }

  /** The object has all fields that the type requires. */
  ghost predicate HasFieldsOf(members: seq<Member>, t: Ir.Type) {
    forall i | 0 <= i < |t.fields| && t.fields[i].required ::
      exists j :: 0 <= j < |members| && DecodeBody(members[j].name) == Some(t.fields[i].name)
  }

  ghost predicate Fitting(types: Ir.Types, members: seq<Member>, variant: Name) {
    variant in types && types[variant].kind.ObjectType? && HasFieldsOf(members, types[variant])
  }

  ghost predicate FirstFitting(types: Ir.Types, members: seq<Member>, variants: seq<Name>, v: Option<Ir.Type>) {
    if v.None? then forall k | 0 <= k < |variants| :: !Fitting(types, members, variants[k])
    else
      exists k | 0 <= k < |variants| ::
        Fitting(types, members, variants[k]) && types[variants[k]] == v.value
        && forall j | 0 <= j < k :: !Fitting(types, members, variants[j])
  }

  lemma FitsIs(types: Ir.Types, members: seq<Member>, variant: Name)
    ensures Fits(types, members, variant) <==> Fitting(types, members, variant)
  {
    hide DecodeBody, Lookup;
    if variant in types {
      var t := types[variant];
      forall i | 0 <= i < |t.fields|
        ensures Lookup(members, t.fields[i].name).Some?
                <==> exists j :: 0 <= j < |members| && DecodeBody(members[j].name) == Some(t.fields[i].name)
      {
        LookupIsLast(members, t.fields[i].name);
        if Lookup(members, t.fields[i].name).Some? {
          var j: nat :| j < |members| && LastNamed(members, t.fields[i].name, j);
        }
      }
    }
  }

  lemma FirstFitIs(types: Ir.Types, members: seq<Member>, variants: seq<Name>)
    ensures FirstFitting(types, members, variants, FirstFit(types, members, variants))
  {
    hide Fits, Fitting, FirstFit;
    FirstFitExact(types, members, variants);
    forall v ensures Fits(types, members, v) <==> Fitting(types, members, v) {
      FitsIs(types, members, v);
    }
    FitsMeaning(types, members);
  }

  /** A condition names a type with the local prefix in front, or without it.  A bare name that itself begins with the
      prefix is taken for the local spelling of another one. */
  predicate NamesType(w: Walker, condition: Name, name: Name) {
    if w.prefix == [] then condition == name
    else if |condition| > |w.prefix| && condition[..|w.prefix|] == w.prefix then condition == w.prefix + name
    else condition == name
  }

  lemma UnprefixedExactly(w: Walker, condition: Name, name: Name)
    ensures Unprefixed(w, condition) == name <==> NamesType(w, condition, name)
    ensures name != [] ==> NamesType(w, w.prefix + name, name)
    ensures NamesType(w, condition, name) ==> condition == name || condition == w.prefix + name
  {
    if w.prefix != [] && |condition| > |w.prefix| && condition[..|w.prefix|] == w.prefix {
      assert condition == w.prefix + condition[|w.prefix|..];
      assert (w.prefix + name)[|w.prefix|..] == name;
    }
    assert (w.prefix + name)[..|w.prefix|] == w.prefix;
    assert w.prefix == [] ==> w.prefix + name == name;
  }

  lemma NamesExactly(w: Walker, s: Selection, variant: Option<Ir.Type>)
    ensures s.Fragment? && s.condition.Some? && variant.Some? ==>
              (Unprefixed(w, s.condition.value) == variant.value.name
               <==> NamesType(w, s.condition.value, variant.value.name))
  {
    if s.Fragment? && s.condition.Some? && variant.Some? {
      UnprefixedExactly(w, s.condition.value, variant.value.name);
    }
  }

  predicate NamesVariant(w: Walker, s: Selection, variant: Option<Ir.Type>) {
    s.Fragment? && variant.Some? && (s.condition.None? || NamesType(w, s.condition.value, variant.value.name))
  }

  /** What counts in a selection on a union. */
  function Relevant(w: Walker, sels: seq<Selection>, variant: Option<Ir.Type>): (r: seq<Selection>) {
    if sels == [] then []
    else
      var s := sels[|sels| - 1];
      Relevant(w, sels[..|sels| - 1], variant)
      + if (s.Field? && s.name == TYPENAME) || NamesVariant(w, s, variant) then [s] else []
  }

  /** Dropping the fragments of the other variants, the spreads, and the fields other than __typename changes
      nothing. */
  lemma {:induction false} OnlyVariantContributes(
    w: Walker, obj: Value, sels: seq<Selection>, variant: Option<Ir.Type>)
    requires obj.Obj?
    ensures UnionMembers(w, obj, sels, variant) == UnionMembers(w, obj, Relevant(w, sels, variant), variant)
    decreases |sels|
  {
    hide Unprefixed, NamesType;
    if sels != [] {
      var init, s := sels[..|sels| - 1], sels[|sels| - 1];
      NamesExactly(w, s, variant);
      OnlyVariantContributes(w, obj, init, variant);
      var kept := Relevant(w, init, variant);
      if (s.Field? && s.name == TYPENAME) || NamesVariant(w, s, variant) {
        assert (kept + [s])[..|kept|] == kept;
      } else {
        assert kept + [] == kept;
        assert UnionOne(w, obj, s, variant) == [];
      }
    }
  }

  /** The plain fields of a selection in order, those of inline fragments in the fragment's place. */
  function Flat(sels: seq<Selection>): seq<Selection>
    decreases sels, 0
  {
    if |sels| == 0 then [] else Flat(sels[..|sels| - 1]) + FlatOne(sels[|sels| - 1])
  }

  function FlatOne(s: Selection): seq<Selection>
    decreases s, 1
  {
    match s
    case Field(_, _, _) => [s]
    case Fragment(_, sub) => if sub.Absent? then [] else Flat(sub.items)
    case Spread => []
  }

  /** The reference a type has for a field: that of the first field of the name. */
  ghost predicate FieldTyped(t: Option<Ir.Type>, name: Name, ref: Option<Ir.TypeRef>) {
    if ref.None? then t.None? || forall k | 0 <= k < |t.value.fields| :: t.value.fields[k].name != name
    else
      && t.Some?
      && exists k | 0 <= k < |t.value.fields| ::
           t.value.fields[k].name == name && t.value.fields[k].ref == ref.value
           && forall j | 0 <= j < k :: t.value.fields[j].name != name
  }

  lemma {:induction false} FieldRefIsFirst(fields: seq<Ir.Field>, name: Name)
    ensures var ref := FieldRef(fields, name);
            if ref.None? then forall k | 0 <= k < |fields| :: fields[k].name != name
            else exists k | 0 <= k < |fields| ::
                   fields[k].name == name && fields[k].ref == ref.value
                   && forall j | 0 <= j < k :: fields[j].name != name
    decreases |fields|
  {
    if fields != [] && fields[0].name != name {
      FieldRefIsFirst(fields[1..], name);
      if FieldRef(fields, name).Some? {
        var k :| 0 <= k < |fields| - 1 && fields[1..][k].name == name
                 && fields[1..][k].ref == FieldRef(fields, name).value
                 && forall j | 0 <= j < k :: fields[1..][j].name != name;
        assert fields[k + 1] == fields[1..][k];
        forall j | 0 <= j < k + 1 ensures fields[j].name != name {
          if j > 0 {
            assert fields[j] == fields[1..][j - 1];
          }
        }
      } else {
        forall k | 0 <= k < |fields| ensures fields[k].name != name {
          if k > 0 {
            assert fields[k] == fields[1..][k - 1];
          }
        }
      }
    }
  }

  /** The value under a key is that of the upstream member with the field's name, projected onto the field's own
      selection and type, and as it came if the field has none; null if there is no such member. */
  ghost predicate ValueAnswers(w: Walker, members: seq<Member>, f: Selection, t: Option<Ir.Type>, e: Element)
    requires f.Field?
  {
    if forall j | 0 <= j < |members| :: DecodeBody(members[j].name) != Some(f.name) then e == Bare(Atom(NULL))
    else
      exists j: nat, ref ::
        && LastNamed(members, f.name, j) && FieldTyped(t, f.name, ref)
        && e == (if f.sub.Absent? then Bare(members[j].element.value)
                 else Project(w, Bare(members[j].element.value), f.sub, ref))
  }

  /** The local name of the type, or null where it is not known. */
  ghost predicate TypenameAnswers(w: Walker, t: Option<Ir.Type>, e: Element) {
    if t.Some? && w.prefix != []
    then e.pre == e.post == [] && e.value.Str? && DecodeBody(e.value.body) == Some(w.prefix + t.value.name)
    else e == Bare(Atom(NULL))
  }

  /** A member of the response is the one that a plain field asks for: under its alias, or else its name. */
  ghost predicate Answers(w: Walker, members: seq<Member>, f: Selection, t: Option<Ir.Type>, m: Member) {
    && f.Field? && m.pre == m.mid == []
    && DecodeBody(m.name) == Some(if f.alias != [] then f.alias else f.name)
    && if f.name == TYPENAME then TypenameAnswers(w, t, m.element) else ValueAnswers(w, members, f, t, m.element)
  }

  ghost predicate AllAnswer(
    w: Walker, members: seq<Member>, fields: seq<Selection>, t: Option<Ir.Type>, response: seq<Member>)
  {
    |response| == |fields| && forall i | 0 <= i < |fields| :: Answers(w, members, fields[i], t, response[i])
  }

  lemma AllAnswerAppend(
    w: Walker, members: seq<Member>, t: Option<Ir.Type>, a: seq<Selection>, ra: seq<Member>, b: seq<Selection>,
    rb: seq<Member>)
    requires AllAnswer(w, members, a, t, ra) && AllAnswer(w, members, b, t, rb)
    ensures AllAnswer(w, members, a + b, t, ra + rb)
  {
    hide Answers;
  }

  lemma NoneAnswer(w: Walker, members: seq<Member>, t: Option<Ir.Type>)
    ensures AllAnswer(w, members, [], t, [])
  {
  }

  lemma TypenameAnswered(w: Walker, t: Option<Ir.Type>)
    ensures TypenameAnswers(w, t, Bare(TypenameValue(w, t)))
  {
    hide DecodeBody, Escape;
    if t.Some? {
      DecodeEscapedBody(w.prefix + t.value.name);
    }
  }

  lemma FieldAnswered(w: Walker, obj: Value, f: Selection, t: Option<Ir.Type>)
    requires obj.Obj? && f.Field?
    ensures AllAnswer(w, obj.members, [f], t, SelectOne(w, obj, f, t))
  {
    hide DecodeBody, Escape, Lookup, FieldRef, LastNamed, TypenameAnswers;
    DecodeEscapedBody(ResponseKey(f));
    TypenameAnswered(w, t);
    LookupIsLast(obj.members, f.name);
    if t.Some? {
      FieldRefIsFirst(t.value.fields, f.name);
    }
    assert FieldTyped(t, f.name, ChildRef(t, f.name));
    var child := Lookup(obj.members, f.name);
    if child.Some? {
      hide FieldTyped;
      var j: nat :|
        j < |obj.members| && LastNamed(obj.members, f.name, j) && obj.members[j].element.value == child.value;
      NamedSomewhere(obj.members, f.name, j);
    }
  }

  /** What a plain field contributes is its answer. */
  lemma AnswerOf(w: Walker, obj: Value, f: Selection, t: Option<Ir.Type>)
    requires obj.Obj?
    ensures f.Field? ==> exists m :: SelectOne(w, obj, f, t) == [m] && Answers(w, obj.members, f, t, m)
  {
    hide Answers;
    if f.Field? {
      FieldAnswered(w, obj, f, t);
      var ms := SelectOne(w, obj, f, t);
      assert ms == [ms[0]] && Answers(w, obj.members, [f][0], t, ms[0]);
    }
  }

  lemma NamedSomewhere(members: seq<Member>, name: Name, j: nat)
    ensures LastNamed(members, name, j) ==>
              !forall k | 0 <= k < |members| :: DecodeBody(members[k].name) != Some(name)
  {
    hide DecodeBody;
  }

  /** Off unions each plain field, in order, gets exactly its member; a name the upstream object lacks still gets its
      key. */
  lemma {:induction false} SelectionDecides(w: Walker, obj: Value, sels: seq<Selection>, t: Option<Ir.Type>)
    requires obj.Obj?
    ensures AllAnswer(w, obj.members, Flat(sels), t, SelectMembers(w, obj, sels, t))
    decreases sels, 0
  {
    hide AllAnswer, SelectOne;
    NoneAnswer(w, obj.members, t);
    if |sels| > 0 {
      var init, s := sels[..|sels| - 1], sels[|sels| - 1];
      SelectionDecides(w, obj, init, t);
      OneDecides(w, obj, s, t);
      AllAnswerAppend(
        w, obj.members, t, Flat(init), SelectMembers(w, obj, init, t), FlatOne(s), SelectOne(w, obj, s, t));
    }
  }

  lemma {:induction false} OneDecides(w: Walker, obj: Value, s: Selection, t: Option<Ir.Type>)
    requires obj.Obj?
    ensures AllAnswer(w, obj.members, FlatOne(s), t, SelectOne(w, obj, s, t))
    decreases s, 1
  {
    hide AllAnswer;
    NoneAnswer(w, obj.members, t);
    if s.Field? {
      FieldAnswered(w, obj, s, t);
    } else if s.Fragment? && s.sub.Present? {
      SelectionDecides(w, obj, s.sub.items, t);
    }
  }

  /** On a union __typename and the plain fields in the fragments of the object's own variant do. */
  lemma {:induction false} VariantDecides(w: Walker, obj: Value, sels: seq<Selection>, variant: Option<Ir.Type>)
    requires obj.Obj?
    ensures AllAnswer(w, obj.members, Flat(Relevant(w, sels, variant)), variant, UnionMembers(w, obj, sels, variant))
    decreases |sels|
  {
    hide AllAnswer, SelectMembers, SelectOne, Unprefixed, NamesType;
    NoneAnswer(w, obj.members, variant);
    if |sels| > 0 {
      var init, s := sels[..|sels| - 1], sels[|sels| - 1];
      NamesExactly(w, s, variant);
      VariantDecides(w, obj, init, variant);
      var kept := Relevant(w, init, variant);
      if (s.Field? && s.name == TYPENAME) || NamesVariant(w, s, variant) {
        assert (kept + [s])[..|kept|] == kept;
        UnionOneDecides(w, obj, s, variant);
        AllAnswerAppend(
          w, obj.members, variant, Flat(kept), UnionMembers(w, obj, init, variant), FlatOne(s),
          UnionOne(w, obj, s, variant));
      } else {
        assert kept + [] == kept;
        assert UnionOne(w, obj, s, variant) == [];
        assert UnionMembers(w, obj, init, variant) + [] == UnionMembers(w, obj, init, variant);
      }
    }
  }

  lemma UnionOneDecides(w: Walker, obj: Value, s: Selection, variant: Option<Ir.Type>)
    requires obj.Obj? && ((s.Field? && s.name == TYPENAME) || NamesVariant(w, s, variant))
    ensures AllAnswer(w, obj.members, FlatOne(s), variant, UnionOne(w, obj, s, variant))
  {
    hide AllAnswer, SelectMembers, Unprefixed, NamesType;
    NoneAnswer(w, obj.members, variant);
    NamesExactly(w, s, variant);
    if s.Field? {
      FieldAnswered(w, obj, s, variant);
    } else if s.sub.Present? {
      SelectionDecides(w, obj, s.sub.items, variant);
    }
  }

  /** The type a reference names, if it is known. */
  ghost predicate Resolves(w: Walker, ref: Option<Ir.TypeRef>, t: Option<Ir.Type>) {
    if ref.Some? && w.types.Some? && ref.value.named != [] && ref.value.named in w.types.value
    then t == Some(w.types.value[ref.value.named]) else t.None?
  }

  /** What the projection of a value is: scalars, and anything without a selection, as they came; a list, element by
      element; an object, the answers to the plain fields; a union, those to the fields for the object's variant. */
  lemma ProjectionExactly(w: Walker, e: Element, sel: SelectionSet, ref: Option<Ir.TypeRef>)
    ensures var r := Project(w, e, sel, ref);
            if sel.Absent? || e.value.Atom? || e.value.Str? then r == e
            else if e.value.Arr? then
              && r.pre == r.post == [] && r.value.Arr? && r.value.gap == [] && |r.value.items| == |e.value.items|
              && forall i | 0 <= i < |e.value.items| ::
                   r.value.items[i] == Project(w, Bare(e.value.items[i].value), sel,
                                               if ref.Some? && ref.value.list.ListType? then Some(ref.value.list.elem)
                                               else ref)
            else
              && r.pre == r.post == [] && r.value.Obj? && r.value.gap == []
              && exists t :: Resolves(w, ref, t)
                   && if t.Some? && t.value.kind.UnionType?
                      then var v := UnionVariant(w, e.value.members, t.value);
                           AllAnswer(w, e.value.members, Flat(Relevant(w, sel.items, v)), v, r.value.members)
                      else AllAnswer(w, e.value.members, Flat(sel.items), t, r.value.members)
  {
    hide AllAnswer, SelectMembers, UnionMembers, UnionVariant, Relevant, Flat;
    if sel.Present? && e.value.Arr? {
      ItemsPointwise(w, e.value.items, sel, ItemRef(ref));
    } else if sel.Present? && e.value.Obj? {
      var t := ResolveType(w, ref);
      assert Resolves(w, ref, t);
      if t.Some? && t.value.kind.UnionType? {
        VariantDecides(w, e.value, sel.items, UnionVariant(w, e.value.members, t.value));
      } else {
        SelectionDecides(w, e.value, sel.items, t);
      }
    }
  }

  lemma {:induction false} ItemsPointwise(
    w: Walker, items: seq<Element>, sel: SelectionSet, ref: Option<Ir.TypeRef>)
    ensures forall i | 0 <= i < |items| ::
              ProjectItems(w, items, sel, ref)[i] == Project(w, Bare(items[i].value), sel, ref)
    decreases |items|
  {
    hide Project;
    if |items| > 0 {
      ItemsPointwise(w, items[..|items| - 1], sel, ref);
    }
  }

  ghost predicate AllMembers(members: seq<Member>) {
    forall i | 0 <= i < |members| :: IsJsonMember(members[i])
  }

  ghost predicate AllElements(items: seq<Element>) {
    forall i | 0 <= i < |items| :: IsJson(items[i])
  }

  /** What is spliced together is again a JSON text. */
  lemma {:induction false} ProjectionIsJson(w: Walker, e: Element, sel: SelectionSet, ref: Option<Ir.TypeRef>)
    requires IsJson(e)
    ensures IsJson(Project(w, e, sel, ref))
    decreases sel, e.value, 3
  {
    if sel.Present? {
      match e.value
      case Obj(_, _) =>
        var t := ResolveType(w, ref);
        if t.Some? && t.value.kind.UnionType? {
          UnionIsJson(w, e.value, sel.items, UnionVariant(w, e.value.members, t.value));
          ObjOf(UnionMembers(w, e.value, sel.items, UnionVariant(w, e.value.members, t.value)));
        } else {
          SelectIsJson(w, e.value, sel.items, t);
          ObjOf(SelectMembers(w, e.value, sel.items, t));
        }
      case Arr(gap, items) =>
        forall i | 0 <= i < |items| ensures IsJson(items[i]) {
          ItemOf(e.value, i);
        }
        ItemsIsJson(w, items, sel, ItemRef(ref));
        ArrOf(ProjectItems(w, items, sel, ItemRef(ref)));
      case _ =>
    }
  }

  lemma {:induction false} ItemsIsJson(
    w: Walker, items: seq<Element>, sel: SelectionSet, ref: Option<Ir.TypeRef>)
    requires AllElements(items)
    ensures AllElements(ProjectItems(w, items, sel, ref))
    decreases sel, items, 0
  {
    hide Project;
    if |items| > 0 {
      var last := items[|items| - 1];
      assert IsJson(last);
      ItemsIsJson(w, items[..|items| - 1], sel, ref);
      ProjectionIsJson(w, Bare(last.value), sel, ref);
    }
  }

  lemma MadeIsJson(key: Name, e: Element)
    requires IsJson(e)
    ensures AllMembers([MakeMember(key, e)])
  {
    hide DecodeBody, IsBody, Escape;
    EscapeIsBody(key);
    DecodeEscapedBody(key);
    assert IsJsonMember(MakeMember(key, e));
  }

  lemma EscapedIsJson(s: Name)
    ensures IsJson(Bare(Str(Escape(s))))
  {
    hide DecodeBody, IsBody, Escape;
    EscapeIsBody(s);
    DecodeEscapedBody(s);
    assert WellFormedValue(Str(Escape(s))) && Decodes(Str(Escape(s)));
  }

  lemma NullIsJson()
    ensures IsJson(Bare(Atom(NULL)))
  {
  }

  lemma TypenameIsJson(w: Walker, t: Option<Ir.Type>)
    ensures IsJson(Bare(TypenameValue(w, t))) && IsJson(Bare(Atom(NULL)))
  {
    hide IsJson, Escape;
    NullIsJson();
    if t.Some? {
      EscapedIsJson(w.prefix + t.value.name);
    }
  }

  lemma {:induction false} SelectIsJson(w: Walker, obj: Value, sels: seq<Selection>, t: Option<Ir.Type>)
    requires obj.Obj? && IsJsonValue(obj)
    ensures AllMembers(SelectMembers(w, obj, sels, t))
    decreases sels, obj, 0
  {
    if |sels| > 0 {
      SelectIsJson(w, obj, sels[..|sels| - 1], t);
      OneIsJson(w, obj, sels[|sels| - 1], t);
    }
  }

  lemma {:induction false} OneIsJson(w: Walker, obj: Value, s: Selection, t: Option<Ir.Type>)
    requires obj.Obj? && IsJsonValue(obj)
    ensures AllMembers(SelectOne(w, obj, s, t))
    decreases s, obj, 0
  {
    hide Project, Lookup, MakeMember, TypenameValue, IsJson, IsJsonMember, IsJsonValue;
    match s
    case Field(name, _, sub) =>
      TypenameIsJson(w, t);
      if name == TYPENAME {
        MadeIsJson(ResponseKey(s), Bare(TypenameValue(w, t)));
      } else {
        var child := Lookup(obj.members, name);
        if child.None? {
          MadeIsJson(ResponseKey(s), Bare(Atom(NULL)));
        } else {
          LookupIsJson(obj, name);
          ProjectionIsJson(w, Bare(child.value), sub, ChildRef(t, name));
          MadeIsJson(ResponseKey(s), Project(w, Bare(child.value), sub, ChildRef(t, name)));
        }
      }
    case Fragment(_, sub) =>
      if sub.Present? {
        SelectIsJson(w, obj, sub.items, t);
      }
    case Spread =>
  }

  lemma {:induction false} UnionIsJson(w: Walker, obj: Value, sels: seq<Selection>, variant: Option<Ir.Type>)
    requires obj.Obj? && IsJsonValue(obj)
    ensures AllMembers(UnionMembers(w, obj, sels, variant))
    decreases sels, obj, 1
  {
    hide MakeMember, TypenameValue, IsJson, IsJsonMember, IsJsonValue;
    if |sels| > 0 {
      UnionIsJson(w, obj, sels[..|sels| - 1], variant);
      UnionOneIsJson(w, obj, sels[|sels| - 1], variant);
    }
  }

  lemma {:induction false} UnionOneIsJson(w: Walker, obj: Value, s: Selection, variant: Option<Ir.Type>)
    requires obj.Obj? && IsJsonValue(obj)
    ensures AllMembers(UnionOne(w, obj, s, variant))
    decreases s, obj, 1
  {
    hide MakeMember, TypenameValue, IsJson, IsJsonMember, IsJsonValue;
    match s
    case Field(_, _, _) =>
      TypenameIsJson(w, variant);
      MadeIsJson(ResponseKey(s), Bare(TypenameValue(w, variant)));
    case Fragment(_, sub) =>
      if sub.Present? {
        SelectIsJson(w, obj, sub.items, variant);
      }
    case Spread =>
  }
}
