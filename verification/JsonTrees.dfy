/**
 A text is the rendering of one tree at most, so that what is said of a tree is
 said of its bytes.

 Two trees that stand at the same place of a text are compared part by part.
 What ends each part is fixed: white space ends before the first other byte, a
 string at its first bare quote, a literal or number before white space, a comma
 or a closing bracket, and an element before a comma or a closing bracket.
 */
module JsonTrees {
  import opened JsonSyntax

  /** Where an element can end. */
  predicate Stop(s: bytes, k: nat) {
    k == |s| || (k < |s| && (s[k] == COMMA || s[k] == RBRACE || s[k] == RBRACKET))
  }

  /** Where a value can end. */
  predicate ValueStop(s: bytes, k: nat) {
    Stop(s, k) || (k < |s| && IsSpace(s[k]))
  }

  lemma SpacesOf(s: bytes, i: nat, a: bytes)
    requires AllSpace(a) && HasAt(s, i, a)
    ensures forall k | i <= k < i + |a| :: IsSpace(s[k])
  {
    forall k | i <= k < i + |a| ensures IsSpace(s[k]) {
      assert s[i + (k - i)] == a[k - i];
    }
  }

  lemma AtomBytesOf(s: bytes, i: nat, a: bytes)
    requires WellFormedValue(Atom(a)) && HasAt(s, i, a)
    ensures forall k | i <= k < i + |a| :: IsAtomByte(s[k])
  {
    forall k | i <= k < i + |a| ensures IsAtomByte(s[k]) {
      assert s[i + (k - i)] == a[k - i];
    }
  }

  lemma SpaceOnce(s: bytes, i: nat, a: bytes, b: bytes)
    requires AllSpace(a) && AllSpace(b) && HasAt(s, i, a) && HasAt(s, i, b)
    requires i + |a| < |s| ==> !IsSpace(s[i + |a|])
    requires i + |b| < |s| ==> !IsSpace(s[i + |b|])
    ensures a == b
  {
    SpacesOf(s, i, a);
    SpacesOf(s, i, b);
    assert forall k | 0 <= k < |a| && k < |b| :: a[k] == s[i + k] == b[k];
  }

  lemma AtomOnce(s: bytes, i: nat, v: Value, w: Value)
    requires v.Atom? && WellFormedValue(v) && HasAt(s, i, RenderValue(v)) && ValueStop(s, i + |RenderValue(v)|)
    requires w.Atom? && WellFormedValue(w) && HasAt(s, i, RenderValue(w)) && ValueStop(s, i + |RenderValue(w)|)
    ensures v == w
  {
    AtomBytesOf(s, i, v.text);
    AtomBytesOf(s, i, w.text);
    assert forall k | 0 <= k < |v.text| && k < |w.text| :: v.text[k] == s[i + k] == w.text[k];
  }

  lemma StringOnce(s: bytes, i: nat, v: Value, w: Value)
    requires v.Str? && WellFormedValue(v) && HasAt(s, i, RenderValue(v))
    requires w.Str? && WellFormedValue(w) && HasAt(s, i, RenderValue(w))
    ensures v == w
  {
    hide HasAt;
    QuotedAt(s, i, v.body);
    QuotedAt(s, i, w.body);
    BodyOnce(s, i + 1, v.body, w.body);
  }

  /** The first byte of a value tells its kind. */
  lemma FirstOf(s: bytes, i: nat, v: Value)
    requires WellFormedValue(v) && HasAt(s, i, RenderValue(v))
    ensures RenderValue(v) != [] && i < |s| && !IsSpace(s[i]) && !Stop(s, i)
    ensures (s[i] == QUOTE <==> v.Str?) && (s[i] == LBRACKET <==> v.Arr?) && (s[i] == LBRACE <==> v.Obj?)
  {
    hide RenderItems, RenderMembers, WellFormed, WellFormedMember, IsBody;
    assert s[i + 0] == RenderValue(v)[0];
  }

  lemma {:induction false} ElementOnce(s: bytes, i: nat, e: Element, f: Element)
    requires WellFormed(e) && HasAt(s, i, Render(e)) && Stop(s, i + |Render(e)|)
    requires WellFormed(f) && HasAt(s, i, Render(f)) && Stop(s, i + |Render(f)|)
    ensures e == f
    decreases e, 2
  {
    hide HasAt, WellFormedValue, RenderValue;
    HasAtSplit(s, i, e.pre + RenderValue(e.value), e.post);
    HasAtSplit(s, i, e.pre, RenderValue(e.value));
    HasAtSplit(s, i, f.pre + RenderValue(f.value), f.post);
    HasAtSplit(s, i, f.pre, RenderValue(f.value));
    FirstOf(s, i + |e.pre|, e.value);
    FirstOf(s, i + |f.pre|, f.value);
    SpaceOnce(s, i, e.pre, f.pre);
    PostStop(s, i + |e.pre + RenderValue(e.value)|, e.post);
    PostStop(s, i + |f.pre + RenderValue(f.value)|, f.post);
    ValueOnce(s, i + |e.pre|, e.value, f.value);
    SpaceOnce(s, i + |e.pre + RenderValue(e.value)|, e.post, f.post);
  }

  lemma PostStop(s: bytes, k: nat, post: bytes)
    requires HasAt(s, k, post) && AllSpace(post) && Stop(s, k + |post|)
    ensures ValueStop(s, k)
  {
    assert post != [] ==> s[k + 0] == post[0];
  }

  lemma {:induction false} ValueOnce(s: bytes, i: nat, v: Value, w: Value)
    requires WellFormedValue(v) && HasAt(s, i, RenderValue(v)) && ValueStop(s, i + |RenderValue(v)|)
    requires WellFormedValue(w) && HasAt(s, i, RenderValue(w)) && ValueStop(s, i + |RenderValue(w)|)
    ensures v == w
    decreases v, 1
  {
    hide HasAt, WellFormedValue, RenderValue, ValueStop;
    FirstOf(s, i, v);
    FirstOf(s, i, w);
    match v {
      case Atom(_) => AtomOnce(s, i, v, w);
      case Str(_) => StringOnce(s, i, v, w);
      case Arr(gap, items) =>
        ItemsOf(s, i, v);
        ItemsOf(s, i, w);
        ItemsOnce(s, i + 1, gap, items, w.gap, w.items);
      case Obj(gap, members) =>
        MembersOf(s, i, v);
        MembersOf(s, i, w);
        MembersOnce(s, i + 1, gap, members, w.gap, w.members);
    }
  }

  /** Items behind their gap, up to the closing bracket. */
  ghost predicate ItemsAt(s: bytes, i: nat, gap: bytes, items: seq<Element>) {
    && AllSpace(gap) && (items != [] ==> gap == []) && (forall k | 0 <= k < |items| :: WellFormed(items[k]))
    && HasAt(s, i, gap) && HasAt(s, i + |gap|, RenderItems(items))
    && HasAt(s, i + |gap| + |RenderItems(items)|, [RBRACKET])
  }

  lemma ItemsOf(s: bytes, i: nat, v: Value)
    requires v.Arr? && WellFormedValue(v) && HasAt(s, i, RenderValue(v))
    ensures ItemsAt(s, i + 1, v.gap, v.items)
  {
    hide HasAt, RenderItems, WellFormed;
    var text := RenderItems(v.items);
    HasAtSplit(s, i, [LBRACKET] + v.gap + text, [RBRACKET]);
    BracketAt(s, i, LBRACKET, v.gap, text, RBRACKET);
  }

  /** The first item, where it ends, and what comes then. */
  lemma ItemAt(s: bytes, i: nat, items: seq<Element>)
    requires ItemsAt(s, i, [], items) && items != []
    ensures var e, k := items[0], i + |Render(items[0])|;
            && WellFormed(e) && HasAt(s, i, Render(e)) && k < |s| && Stop(s, k)
            && (if |items| == 1 then s[k] == RBRACKET else s[k] == COMMA && ItemsAt(s, k + 1, [], items[1..]))
            && AllSpace(e.pre) && HasAt(s, i, e.pre)
            && i + |e.pre| < |s| && !IsSpace(s[i + |e.pre|]) && !Stop(s, i + |e.pre|)
  {
    hide HasAt, Render, WellFormedValue, RenderValue;
    var e := items[0];
    if |items| == 1 {
      HasAtByte(s, i + |Render(e)|, RBRACKET);
    } else {
      var rest := RenderItems(items[1..]);
      NothingAt(s, i + |Render(e)| + 1);
      assert HasAt(s, i + |Render(e) + [COMMA] + rest|, [RBRACKET]);
      HasAtSplit(s, i, Render(e) + [COMMA], rest);
      HasAtSplit(s, i, Render(e), [COMMA]);
      HasAtByte(s, i + |Render(e)|, COMMA);
    }
    PreAt(s, i, e);
  }

  lemma NothingAt(s: bytes, i: nat)
    ensures i <= |s| ==> HasAt(s, i, [])
  {
  }

  lemma PreAt(s: bytes, i: nat, e: Element)
    requires WellFormed(e) && HasAt(s, i, Render(e))
    ensures HasAt(s, i, e.pre) && i + |e.pre| < |s| && !IsSpace(s[i + |e.pre|]) && !Stop(s, i + |e.pre|)
  {
    hide HasAt, WellFormedValue, RenderValue;
    HasAtSplit(s, i, e.pre + RenderValue(e.value), e.post);
    HasAtSplit(s, i, e.pre, RenderValue(e.value));
    FirstOf(s, i + |e.pre|, e.value);
  }

  lemma {:induction false} ItemsOnce(
    s: bytes, i: nat, gap: bytes, items: seq<Element>, gap': bytes, others: seq<Element>)
    requires ItemsAt(s, i, gap, items) && ItemsAt(s, i, gap', others)
    ensures gap == gap' && items == others
    decreases items, 0
  {
    hide Render, WellFormed;
    if items == [] {
      HasAtByte(s, i + |gap|, RBRACKET);
      hide HasAt;
      if others == [] {
        HasAtByte(s, i + |gap'|, RBRACKET);
        SpaceOnce(s, i, gap, gap');
      } else {
        ItemAt(s, i, others);
        SpaceOnce(s, i, gap, others[0].pre);
        assert false;
      }
    } else if others == [] {
      HasAtByte(s, i + |gap'|, RBRACKET);
      ItemAt(s, i, items);
      SpaceOnce(s, i, gap', items[0].pre);
      assert false;
    } else {
      hide HasAt, ItemsAt;
      ItemAt(s, i, items);
      ItemAt(s, i, others);
      ElementOnce(s, i, items[0], others[0]);
      if |items| > 1 {
        ItemsOnce(s, i + |Render(items[0])| + 1, [], items[1..], [], others[1..]);
        assert items == [items[0]] + items[1..] && others == [others[0]] + others[1..];
      }
    }
  }

  /** Where the parts of a member stand: its name is from `q` on, and its colon at `c`. */
  lemma MemberParts(s: bytes, i: nat, m: Member)
    requires HasAt(s, i, RenderMember(m))
    ensures var q := i + |m.pre|;
            var c := q + |RenderString(m.name)| + |m.mid|;
            && HasAt(s, i, m.pre) && HasAt(s, q + 1, m.name) && HasAt(s, q + |RenderString(m.name)|, m.mid)
            && q + 1 + |m.name| < c < |s| && s[q] == QUOTE && s[q + 1 + |m.name|] == QUOTE && s[c] == COLON
            && HasAt(s, c + 1, Render(m.element)) && |RenderMember(m)| == c + 1 + |Render(m.element)| - i
  {
    hide HasAt, Render;
    var name := RenderString(m.name);
    HasAtSplit(s, i, m.pre + name + m.mid + [COLON], Render(m.element));
    HasAtSplit(s, i, m.pre + name + m.mid, [COLON]);
    HasAtSplit(s, i, m.pre + name, m.mid);
    HasAtSplit(s, i, m.pre, name);
    QuotedAt(s, i + |m.pre|, m.name);
    HasAtByte(s, i + |m.pre + name + m.mid|, COLON);
  }

  lemma {:induction false} MemberOnce(s: bytes, i: nat, m: Member, n: Member)
    requires WellFormedMember(m) && HasAt(s, i, RenderMember(m)) && Stop(s, i + |RenderMember(m)|)
    requires WellFormedMember(n) && HasAt(s, i, RenderMember(n)) && Stop(s, i + |RenderMember(n)|)
    ensures m == n
    decreases m, 3
  {
    hide HasAt, Render, RenderMember, WellFormed, IsBody;
    MemberParts(s, i, m);
    MemberParts(s, i, n);
    SpaceOnce(s, i, m.pre, n.pre);
    BodyOnce(s, i + |m.pre| + 1, m.name, n.name);
    SpaceOnce(s, i + |m.pre| + |RenderString(m.name)|, m.mid, n.mid);
    ElementOnce(s, i + |m.pre| + |RenderString(m.name)| + |m.mid| + 1, m.element, n.element);
  }

  /** Members behind their gap, up to the closing brace. */
  ghost predicate MembersAt(s: bytes, i: nat, gap: bytes, members: seq<Member>) {
    && AllSpace(gap) && (members != [] ==> gap == [])
    && (forall k | 0 <= k < |members| :: WellFormedMember(members[k]))
    && HasAt(s, i, gap) && HasAt(s, i + |gap|, RenderMembers(members))
    && HasAt(s, i + |gap| + |RenderMembers(members)|, [RBRACE])
  }

  lemma MembersOf(s: bytes, i: nat, v: Value)
    requires v.Obj? && WellFormedValue(v) && HasAt(s, i, RenderValue(v))
    ensures MembersAt(s, i + 1, v.gap, v.members)
  {
    hide HasAt, RenderMembers, WellFormedMember;
    var text := RenderMembers(v.members);
    HasAtSplit(s, i, [LBRACE] + v.gap + text, [RBRACE]);
    BracketAt(s, i, LBRACE, v.gap, text, RBRACE);
  }

  lemma MemberAt(s: bytes, i: nat, members: seq<Member>)
    requires MembersAt(s, i, [], members) && members != []
    ensures var m, k := members[0], i + |RenderMember(members[0])|;
            && WellFormedMember(m) && HasAt(s, i, RenderMember(m)) && k < |s| && Stop(s, k)
            && (if |members| == 1 then s[k] == RBRACE else s[k] == COMMA && MembersAt(s, k + 1, [], members[1..]))
            && AllSpace(m.pre) && HasAt(s, i, m.pre) && i + |m.pre| < |s| && s[i + |m.pre|] == QUOTE
  {
    hide HasAt, RenderMember, WellFormed;
    var m := members[0];
    if |members| == 1 {
      HasAtByte(s, i + |RenderMember(m)|, RBRACE);
    } else {
      var rest := RenderMembers(members[1..]);
      NothingAt(s, i + |RenderMember(m)| + 1);
      assert HasAt(s, i + |RenderMember(m) + [COMMA] + rest|, [RBRACE]);
      HasAtSplit(s, i, RenderMember(m) + [COMMA], rest);
      HasAtSplit(s, i, RenderMember(m), [COMMA]);
      HasAtByte(s, i + |RenderMember(m)|, COMMA);
    }
    MemberParts(s, i, m);
  }

  lemma {:induction false} MembersOnce(
    s: bytes, i: nat, gap: bytes, members: seq<Member>, gap': bytes, others: seq<Member>)
    requires MembersAt(s, i, gap, members) && MembersAt(s, i, gap', others)
    ensures gap == gap' && members == others
    decreases members, 0
  {
    hide RenderMember, WellFormedMember;
    if members == [] {
      HasAtByte(s, i + |gap|, RBRACE);
      hide HasAt;
      if others == [] {
        HasAtByte(s, i + |gap'|, RBRACE);
        SpaceOnce(s, i, gap, gap');
      } else {
        MemberAt(s, i, others);
        SpaceOnce(s, i, gap, others[0].pre);
        assert false;
      }
    } else if others == [] {
      HasAtByte(s, i + |gap'|, RBRACE);
      MemberAt(s, i, members);
      SpaceOnce(s, i, gap', members[0].pre);
      assert false;
    } else {
      hide HasAt, MembersAt;
      MemberAt(s, i, members);
      MemberAt(s, i, others);
      MemberOnce(s, i, members[0], others[0]);
      if |members| > 1 {
        MembersOnce(s, i + |RenderMember(members[0])| + 1, [], members[1..], [], others[1..]);
        assert members == [members[0]] + members[1..] && others == [others[0]] + others[1..];
      }
    }
  }

  /** Two well-formed trees with the same bytes are the same tree. */
  lemma OneTree(e: Element, f: Element)
    requires WellFormed(e) && WellFormed(f)
    ensures Render(e) == Render(f) ==> e == f
  {
    if Render(e) == Render(f) {
      ElementOnce(Render(e), 0, e, f);
    }
  }
}
