/**
 What the response rewriter of the GraphQL mirror means.

 On the bytes of a JSON tree, whatever its white space, the scanner is the tree
 rewrite `Rewrite`.
 */
module TypenamePrefix {
  import opened JsonSyntax
  import opened TypenameScan
  import opened Options

  // ------------------------------------------------------------------
  // Texts as lists of tokens

  /** A byte outside every string, or a whole string. */
  datatype Token = Plain(b: byte) | Quoted(body: bytes)

  datatype Text = End | Then(head: Token, rest: Text)

  function TokenBytes(t: Token): bytes {
    match t
    case Plain(b) => [b]
    case Quoted(body) => RenderString(body)
  }

  /** The token `t` stands at position `i`. */
  ghost predicate TokenAt(s: bytes, i: nat, t: Token) {
    match t
    case Plain(b) => b != QUOTE && i < |s| && s[i] == b
    case Quoted(body) =>
      && IsBody(body)
      && i + |body| + 1 < |s|
      && s[i] == QUOTE && HasAt(s, i + 1, body) && s[i + |body| + 1] == QUOTE
  }

  function Length(t: Token): nat {
    match t
    case Plain(_) => 1
    case Quoted(body) => |body| + 2
  }

  /** From position `i` to its end, `s` consists of the tokens `ts`. */
  ghost predicate TextAt(s: bytes, i: nat, ts: Text)
    decreases ts
  {
    match ts
    case End => i == |s|
    case Then(t, rest) => TokenAt(s, i, t) && TextAt(s, i + Length(t), rest)
  }

  /** Two adjoining stretches of `s` behind `out`. */
  lemma Join(out: bytes, s: bytes, a: nat, b: nat, c: nat)
    requires a <= b <= c <= |s|
    ensures out + s[a..b] + s[b..c] == out + s[a..c]
    ensures out + s[a..b] + s[b..] == out + s[a..]
  {
    assert s[a..b] + s[b..c] == s[a..c];
    assert s[a..b] + s[b..] == s[a..];
  }

  // ------------------------------------------------------------------
  // The machine, for the key `name`: it describes the scanner on every text
  // whose strings are closed, JSON or not

  /** A key that its own bytes show: nothing in it is escaped. */
  ghost predicate IsName(name: bytes) {
    forall i | 0 <= i < |name| :: name[i] != QUOTE && name[i] != BACKSLASH
  }

  /** Outside: no key is pending; `slot` says whether a string here would be at a key position. */
  datatype Mode = Outside(slot: bool) | AfterKey | AfterColon

  function Next(m: Mode, t: Token, name: bytes): Mode {
    match t
    case Plain(b) =>
      if IsSpace(b) then m
      else if m.AfterKey? && b == COLON then AfterColon
      else Outside(b == LBRACE || b == COMMA)
    case Quoted(body) =>
      if m.AfterColon? then Outside(true)
      else if body == name && (m.AfterKey? || m.slot) then AfterKey
      else Outside(false)
  }

  function Emit(m: Mode, t: Token, prefix: bytes): bytes {
    if m.AfterColon? && t.Quoted? then RenderString(prefix + t.body) else TokenBytes(t)
  }

  /** What the machine has written when it is through with `ts`: `out`, and its output from mode `m`. */
  function Output(ts: Text, m: Mode, name: bytes, prefix: bytes, out: bytes): bytes
    decreases ts
  {
    match ts
    case End => out
    case Then(t, rest) => Output(rest, Next(m, t, name), name, prefix, out + Emit(m, t, prefix))
  }

  // ------------------------------------------------------------------
  // The scanner is the machine

  /** Inside a string, the scanner does nothing but look for the closing quote. */
  lemma {:induction false} StringSkipped(s: bytes, start: nat, key: bytes, i: nat, body: bytes)
    requires IsBody(body) && start <= i
    requires HasAt(s, i, body) && i + |body| < |s| && s[i + |body|] == QUOTE
    ensures FindKeyInString(s, start, key, i) == FindKey(s, start, key, i + |body| + 1)
    ensures StringEnd(s, i) == i + |body| + 1
    decreases |body|
  {
    if body != [] {
      assert s[i + 0] == body[0];
      HasAtTail(s, i, body);
      if body[0] == BACKSLASH {
        HasAtTail(s, i + 1, body[1..]);
        StringSkipped(s, start, key, i + 2, body[2..]);
      } else {
        StringSkipped(s, start, key, i + 1, body[1..]);
      }
    }
  }

  /** The only string that shows the key's bytes is the key. */
  lemma KeyMatch(s: bytes, i: nat, body: bytes, name: bytes)
    requires IsName(name) && TokenAt(s, i, Quoted(body))
    ensures HasAt(s, i, RenderString(name)) <==> body == name
  {
    var n, key := |name|, RenderString(name);
    if HasAt(s, i, key) {
      assert forall k | 0 <= k < n :: s[i + 1 + k] == s[i + (k + 1)] == key[k + 1] == name[k];
      assert s[i + 1 + n] == s[i + (n + 1)] == key[n + 1] == QUOTE;
      SameString(s, i + 1, body, name);
    }
    if body == name {
      forall k | 0 <= k < |key| ensures s[i + k] == key[k] {
        assert 0 < k <= n ==> s[i + 1 + (k - 1)] == body[k - 1];
      }
    }
  }

  /** Two strings that begin at the same place and are closed by their first bare quote. */
  lemma SameString(s: bytes, i: nat, body: bytes, name: bytes)
    requires IsBody(body) && IsName(name)
    requires i + |body| < |s| && i + |name| < |s|
    requires HasAt(s, i, body) && HasAt(s, i, name)
    requires s[i + |body|] == QUOTE && s[i + |name|] == QUOTE
    ensures body == name
  {
    PlainIsBody(name, 0);
    assert name[0..] == name;
    BodyOnce(s, i, body, name);
  }

  /** The search over one token: it stops there as the machine enters AfterKey, or it goes on in step with the
      machine. */
  lemma SearchStep(s: bytes, start: nat, i: nat, t: Token, name: bytes)
    requires start <= i && TokenAt(s, i, t) && IsName(name)
    ensures i + Length(t) <= |s| && s[i..i + Length(t)] == TokenBytes(t)
    ensures var m, key := Next(Outside(KeySlot(s, start, i)), t, name), RenderString(name);
            if m.AfterKey? then FindKey(s, start, key, i) == i && t == Quoted(name)
            else
              && m == Outside(KeySlot(s, start, i + Length(t)))
              && FindKey(s, start, key, i) == FindKey(s, start, key, i + Length(t))
  {
    if t.Quoted? {
      KeyMatch(s, i, t.body, name);
      StringSkipped(s, start, RenderString(name), i + 1, t.body);
    }
  }

  /** The search finds nothing, and the machine changes nothing; or it stops where the machine enters AfterKey,
      with the tokens `tail` still to come. */
  lemma {:induction false} SearchStops(
    s: bytes, start: nat, i: nat, ts: Text, m: Mode, name: bytes, prefix: bytes, out: bytes)
    returns (tail: Text)
    requires start <= i && TextAt(s, i, ts) && IsName(name)
    requires i <= |s| ==> m == Outside(KeySlot(s, start, i))
    ensures i <= |s|
    ensures FindKey(s, start, RenderString(name), i) == -1 ==> Output(ts, m, name, prefix, out) == out + s[i..]
    ensures FindKey(s, start, RenderString(name), i) != -1 ==>
              var e := FindKey(s, start, RenderString(name), i) + |name| + 2;
              && tail < ts && i <= e <= |s| && TextAt(s, e, tail)
              && Output(ts, m, name, prefix, out) == Output(tail, AfterKey, name, prefix, out + s[i..e])
    decreases ts
  {
    hide IsName, KeySlot, FindKey, TokenAt;
    tail := End;
    if ts.Then? {
      var k := i + Length(ts.head);
      SearchStep(s, start, i, ts.head, name);
      var next := Next(m, ts.head, name);
      if next.AfterKey? {
        return ts.rest;
      }
      tail := SearchStops(s, start, k, ts.rest, next, name, prefix, out + s[i..k]);
      var j := FindKey(s, start, RenderString(name), i);
      Join(out, s, i, k, if j == -1 then k else j + |name| + 2);
    }
  }

  /** White space keeps the machine waiting in any mode; `tail` begins with the first token behind it. */
  lemma {:induction false} SpacesWait(s: bytes, i: nat, ts: Text, m: Mode, name: bytes, prefix: bytes, out: bytes)
    returns (tail: Text)
    requires TextAt(s, i, ts)
    ensures i <= |s|
    ensures tail < ts || tail == ts
    ensures TextAt(s, SkipSpace(s, i), tail)
    ensures tail.Then? ==> !(tail.head.Plain? && IsSpace(tail.head.b))
    ensures Output(ts, m, name, prefix, out) == Output(tail, m, name, prefix, out + s[i..SkipSpace(s, i)])
    decreases ts
  {
    hide IsBody, HasAt;
    tail := ts;
    if ts.Then? && ts.head.Plain? && IsSpace(ts.head.b) {
      assert s[i..i + 1] == [s[i]];
      tail := SpacesWait(s, i + 1, ts.rest, m, name, prefix, out + s[i..i + 1]);
      Join(out, s, i, i + 1, SkipSpace(s, i));
    } else {
      assert SkipSpace(s, i) == i;
      assert out + s[i..i] == out;
    }
  }

  /**
   The scanner on any text whose strings are closed: started at a token, it
   writes what the machine emits, and restarting it after each round loses nothing.
   */
  lemma {:induction false} ScanMeetsMachine(s: bytes, i: nat, ts: Text, name: bytes, prefix: bytes, out: bytes)
    requires TextAt(s, i, ts) && IsName(name)
    ensures i <= |s|
    ensures Prefixed(s, i, RenderString(name), prefix, out) == Output(ts, Outside(true), name, prefix, out)
    decreases ts, 0
  {
    hide IsName, FindKey, TokenAt, Prefixed, RoundAfterKey;
    var key := RenderString(name);
    var tail := SearchStops(s, i, i, ts, Outside(true), name, prefix, out);
    PrefixedStep(s, i, key, prefix, out);
    if ts.Then? {
      var j := FindKey(s, i, key, i);
      if j == -1 {
        PrefixedStep(s, |s|, key, prefix, out + s[i..]);
      } else {
        BehindKey(s, j + |key|, tail, name, prefix, out + s[i..j + |key|]);
      }
    }
  }

  /** What the machine does with the first token behind a key and behind its colon. */
  lemma MachineStep(ts: Text, name: bytes, prefix: bytes, out: bytes)
    requires ts.Then? ==> !(ts.head.Plain? && IsSpace(ts.head.b))
    ensures if ts.Then? && ts.head == Plain(COLON)
            then Output(ts, AfterKey, name, prefix, out) == Output(ts.rest, AfterColon, name, prefix, out + [COLON])
            else Output(ts, AfterKey, name, prefix, out) == Output(ts, Outside(true), name, prefix, out)
    ensures if ts.Then? && ts.head.Quoted?
            then Output(ts, AfterColon, name, prefix, out)
                 == Output(ts.rest, Outside(true), name, prefix, out + RenderString(prefix + ts.head.body))
            else Output(ts, AfterColon, name, prefix, out) == Output(ts, Outside(true), name, prefix, out)
    ensures ts.End? ==> Output(ts, Outside(true), name, prefix, out) == out
  {
  }

  /** The first token at `w` and the byte there. */
  lemma FirstByte(s: bytes, w: nat, ts: Text)
    requires TextAt(s, w, ts)
    ensures ts.End? ==> w == |s|
    ensures ts.Then? ==> w < |s| && TextAt(s, w + Length(ts.head), ts.rest)
    ensures ts.Then? ==> (s[w] == COLON <==> ts.head == Plain(COLON)) && (s[w] == QUOTE <==> ts.head.Quoted?)
  {
  }

  /** The scanner and the machine from `k` behind a key. */
  lemma {:induction false} BehindKey(s: bytes, k: nat, ts: Text, name: bytes, prefix: bytes, out: bytes)
    requires TextAt(s, k, ts) && IsName(name)
    ensures k <= |s|
    ensures var r := RoundAfterKey(s, k, prefix, out);
            Prefixed(s, r.end, RenderString(name), prefix, r.out) == Output(ts, AfterKey, name, prefix, out)
    decreases ts, 1
  {
    hide IsName, Prefixed, SkipSpace, RoundAfterColon, Output, TextAt;
    var tail := SpacesWait(s, k, ts, AfterKey, name, prefix, out);
    var w := SkipSpace(s, k);
    var out' := out + s[k..w];
    FirstByte(s, w, tail);
    MachineStep(tail, name, prefix, out');
    PrefixedStep(s, w, RenderString(name), prefix, out');
    if tail.Then? {
      if tail.head == Plain(COLON) {
        BehindColon(s, w + 1, tail.rest, name, prefix, out' + [COLON]);
      } else {
        ScanMeetsMachine(s, w, tail, name, prefix, out');
      }
    }
  }

  /** The scanner and the machine from `k` behind the colon of a key. */
  lemma {:induction false} BehindColon(s: bytes, k: nat, ts: Text, name: bytes, prefix: bytes, out: bytes)
    requires TextAt(s, k, ts) && IsName(name)
    ensures k <= |s|
    ensures var r := RoundAfterColon(s, k, prefix, out);
            Prefixed(s, r.end, RenderString(name), prefix, r.out) == Output(ts, AfterColon, name, prefix, out)
    decreases ts, 1
  {
    hide HasAt, IsBody, IsName, Prefixed, SkipSpace, StringEnd, Output, TextAt;
    var tail := SpacesWait(s, k, ts, AfterColon, name, prefix, out);
    var v := SkipSpace(s, k);
    var out' := out + s[k..v];
    FirstByte(s, v, tail);
    MachineStep(tail, name, prefix, out');
    PrefixedStep(s, v, RenderString(name), prefix, out');
    if tail.Then? {
      match tail.head
      case Plain(b) =>
        ScanMeetsMachine(s, v, tail, name, prefix, out');
      case Quoted(body) =>
        PrefixedString(s, v, tail, prefix, out');
        ScanMeetsMachine(s, v + Length(tail.head), tail.rest, name, prefix, out' + RenderString(prefix + body));
    }
  }

  /** What the scanner writes for a string value that gains the prefix. */
  lemma PrefixedString(s: bytes, v: nat, ts: Text, prefix: bytes, out: bytes)
    requires TextAt(s, v, ts) && ts.Then? && ts.head.Quoted?
    ensures v < |s| && StringEnd(s, v + 1) == v + Length(ts.head)
    ensures out + [QUOTE] + prefix + s[v + 1..v + Length(ts.head)] == out + RenderString(prefix + ts.head.body)
  {
    var body := ts.head.body;
    StringSkipped(s, v + 1, [], v + 1, body);
    assert s[v + 1..v + |body| + 2] == body + [QUOTE];
  }

  // ------------------------------------------------------------------
  // The rewrite of a tree

  /** The tree with `prefix` in front of every string that is the value of a member named `name`, at any depth;
      `under` says that `e` itself is such a value. */
  function Rewrite(e: Element, under: bool, name: bytes, prefix: bytes): Element
    decreases e, 2
  {
    Element(e.pre, RewriteValue(e.value, under, name, prefix), e.post)
  }

  function RewriteValue(v: Value, under: bool, name: bytes, prefix: bytes): Value
    decreases v, 1
  {
    match v
    case Atom(_) => v
    case Str(body) => if under then Str(prefix + body) else v
    case Arr(gap, items) => Arr(gap, RewriteItems(items, name, prefix))
    case Obj(gap, members) => Obj(gap, RewriteMembers(members, name, prefix))
  }

  function RewriteItems(items: seq<Element>, name: bytes, prefix: bytes): (r: seq<Element>)
    ensures |r| == |items|
    decreases items, 0
  {
    if |items| == 0 then [] else [Rewrite(items[0], false, name, prefix)] + RewriteItems(items[1..], name, prefix)
  }

  function RewriteMember(m: Member, name: bytes, prefix: bytes): Member
    decreases m, 3
  {
    Member(m.pre, m.name, m.mid, Rewrite(m.element, m.name == name, name, prefix))
  }

  function RewriteMembers(members: seq<Member>, name: bytes, prefix: bytes): (r: seq<Member>)
    ensures |r| == |members|
    decreases members, 0
  {
    if |members| == 0 then []
    else [RewriteMember(members[0], name, prefix)] + RewriteMembers(members[1..], name, prefix)
  }

  // ------------------------------------------------------------------
  // What the rewrite changes

  /** The element that a path of positions leads to. */
  function Node(e: Element, path: seq<nat>): Option<Element>
    decreases |path|
  {
    if path == [] then Some(e)
    else
      match e.value
      case Arr(_, items) => if path[0] < |items| then Node(items[path[0]], path[1..]) else None
      case Obj(_, members) => if path[0] < |members| then Node(members[path[0]].element, path[1..]) else None
      case _ => None
  }

  /** The path leads to the value of a member of this name. */
  predicate Named(e: Element, path: seq<nat>, name: bytes) {
    path != []
    && var parent, last := Node(e, path[..|path| - 1]), path[|path| - 1];
       parent.Some? && parent.value.value.Obj? && last < |parent.value.value.members|
       && parent.value.value.members[last].name == name
  }

  /** Two elements that look the same, apart from what stands in strings and inside of items and members. */
  predicate Alike(a: Element, b: Element) {
    && a.pre == b.pre && a.post == b.post
    && match a.value
       case Atom(_) => a.value == b.value
       case Str(_) => b.value.Str?
       case Arr(gap, items) => b.value.Arr? && b.value.gap == gap && |b.value.items| == |items|
       case Obj(gap, members) =>
         && b.value.Obj? && b.value.gap == gap && |b.value.members| == |members|
         && forall i | 0 <= i < |members| ::
              members[i] == b.value.members[i].(element := members[i].element)
  }

  lemma {:induction false} ItemRewritten(items: seq<Element>, i: nat, name: bytes, prefix: bytes)
    requires i < |items|
    ensures RewriteItems(items, name, prefix)[i] == Rewrite(items[i], false, name, prefix)
    decreases i
  {
    hide Rewrite;
    if i > 0 {
      ItemRewritten(items[1..], i - 1, name, prefix);
    }
  }

  lemma {:induction false} MemberRewritten(members: seq<Member>, i: nat, name: bytes, prefix: bytes)
    requires i < |members|
    ensures RewriteMembers(members, name, prefix)[i] == RewriteMember(members[i], name, prefix)
    decreases i
  {
    hide RewriteMember;
    if i > 0 {
      MemberRewritten(members[1..], i - 1, name, prefix);
    }
  }

  lemma AlikeRewritten(e: Element, under: bool, name: bytes, prefix: bytes)
    ensures Alike(e, Rewrite(e, under, name, prefix))
  {
    if e.value.Obj? {
      forall i | 0 <= i < |e.value.members|
        ensures RewriteMembers(e.value.members, name, prefix)[i] == RewriteMember(e.value.members[i], name, prefix)
      {
        MemberRewritten(e.value.members, i, name, prefix);
      }
    }
  }

  lemma NamedStep(e: Element, path: seq<nat>, name: bytes)
    requires |path| > 1 && Node(e, path[..1]).Some?
    ensures Named(e, path, name) <==> Named(Node(e, path[..1]).value, path[1..], name)
  {
    assert path[..|path| - 1][1..] == path[1..][..|path| - 2];
    assert path[..1][1..] == [];
  }

  /** At every place of the tree: the element looks as before, and a string keeps its body, but gains the prefix where
      it is the value of a member of the name. */
  lemma {:induction false} RewriteAt(e: Element, under: bool, name: bytes, prefix: bytes, path: seq<nat>)
    ensures var n, r := Node(e, path), Node(Rewrite(e, under, name, prefix), path);
            && (n.Some? <==> r.Some?)
            && (n.Some? ==> Alike(n.value, r.value))
            && (n.Some? && n.value.value.Str? ==>
                  r.value.value.body == if (if path == [] then under else Named(e, path, name))
                                        then prefix + n.value.value.body else n.value.value.body)
    decreases |path|
  {
    AlikeRewritten(e, under, name, prefix);
    if path != [] && e.value.Arr? && path[0] < |e.value.items| {
      ItemRewritten(e.value.items, path[0], name, prefix);
      RewriteAt(e.value.items[path[0]], false, name, prefix, path[1..]);
      StepNamed(e, path, name);
    } else if path != [] && e.value.Obj? && path[0] < |e.value.members| {
      var m := e.value.members[path[0]];
      MemberRewritten(e.value.members, path[0], name, prefix);
      RewriteAt(m.element, m.name == name, name, prefix, path[1..]);
      StepNamed(e, path, name);
    }
  }

  lemma StepNamed(e: Element, path: seq<nat>, name: bytes)
    requires path != [] && Node(e, path[..1]).Some?
    ensures Named(e, path, name)
            <==> if |path| == 1 then e.value.Obj? && e.value.members[path[0]].name == name
                 else Named(Node(e, path[..1]).value, path[1..], name)
    ensures Node(e, path) == Node(Node(e, path[..1]).value, path[1..])
  {
    assert path[..1][1..] == [];
    if |path| > 1 {
      NamedStep(e, path, name);
    }
  }

  // ------------------------------------------------------------------
  // The tokens of a tree, in front of `rest`

  function LexPlain(bs: bytes, rest: Text): Text {
    if bs == [] then rest else Then(Plain(bs[0]), LexPlain(bs[1..], rest))
  }

  function Lex(e: Element, rest: Text): Text
    decreases e, 2
  {
    LexPlain(e.pre, LexValue(e.value, LexPlain(e.post, rest)))
  }

  function LexValue(v: Value, rest: Text): Text
    decreases v, 1
  {
    match v
    case Atom(text) => LexPlain(text, rest)
    case Str(body) => Then(Quoted(body), rest)
    case Arr(gap, items) =>
      Then(Plain(LBRACKET), LexPlain(gap, LexItems(items, Then(Plain(RBRACKET), rest))))
    case Obj(gap, members) =>
      Then(Plain(LBRACE), LexPlain(gap, LexMembers(members, Then(Plain(RBRACE), rest))))
  }

  function LexItems(items: seq<Element>, rest: Text): Text
    decreases items, 0
  {
    if |items| == 0 then rest
    else if |items| == 1 then Lex(items[0], rest)
    else Lex(items[0], Then(Plain(COMMA), LexItems(items[1..], rest)))
  }

  function LexMember(m: Member, rest: Text): Text
    decreases m, 3
  {
    LexPlain(m.pre, Then(Quoted(m.name), LexPlain(m.mid, Then(Plain(COLON), Lex(m.element, rest)))))
  }

  function LexMembers(members: seq<Member>, rest: Text): Text
    decreases members, 0
  {
    if |members| == 0 then rest
    else if |members| == 1 then LexMember(members[0], rest)
    else LexMember(members[0], Then(Plain(COMMA), LexMembers(members[1..], rest)))
  }

  // ------------------------------------------------------------------
  // The machine on the tokens of a tree

  lemma {:induction false} SpacesRun(ws: bytes, rest: Text, m: Mode, name: bytes, prefix: bytes, out: bytes)
    requires AllSpace(ws)
    ensures Output(LexPlain(ws, rest), m, name, prefix, out) == Output(rest, m, name, prefix, out + ws)
    decreases |ws|
  {
    if ws == [] {
      assert out + ws == out;
    } else {
      assert out + [ws[0]] + ws[1..] == out + ws;
      SpacesRun(ws[1..], rest, m, name, prefix, out + [ws[0]]);
    }
  }

  lemma {:induction false} AtomRun(text: bytes, rest: Text, m: Mode, name: bytes, prefix: bytes, out: bytes)
    requires forall i | 0 <= i < |text| :: IsAtomByte(text[i])
    requires text == [] ==> m == Outside(false)
    ensures Output(LexPlain(text, rest), m, name, prefix, out) == Output(rest, Outside(false), name, prefix, out + text)
    decreases |text|
  {
    if text == [] {
      assert out + text == out;
    } else {
      assert out + [text[0]] + text[1..] == out + text;
      AtomRun(text[1..], rest, Outside(false), name, prefix, out + [text[0]]);
    }
  }

  lemma Concat(out: bytes, a: bytes, b: bytes, c: bytes, d: bytes)
    ensures out + a + b + c + d == out + (a + b + c + d)
    ensures out + a + b + c == out + (a + b + c)
  {
    assert out + a + b + c == out + (a + b + c);
  }

  lemma {:induction false} ElementRun(e: Element, rest: Text, m: Mode, name: bytes, prefix: bytes, out: bytes)
    returns (m': Mode)
    requires WellFormed(e)
    ensures !m'.AfterColon?
    ensures Output(Lex(e, rest), m, name, prefix, out)
            == Output(rest, m', name, prefix, out + Render(Rewrite(e, m.AfterColon?, name, prefix)))
    decreases e, 2
  {
    hide Output, LexValue, RenderValue, RewriteValue, WellFormedValue;
    var tail := LexPlain(e.post, rest);
    SpacesRun(e.pre, LexValue(e.value, tail), m, name, prefix, out);
    m' := ValueRun(e.value, tail, m, name, prefix, out + e.pre);
    var text := RenderValue(RewriteValue(e.value, m.AfterColon?, name, prefix));
    SpacesRun(e.post, rest, m', name, prefix, out + e.pre + text);
    Concat(out, e.pre, text, e.post, []);
  }

  lemma {:induction false} ValueRun(v: Value, rest: Text, m: Mode, name: bytes, prefix: bytes, out: bytes)
    returns (m': Mode)
    requires WellFormedValue(v)
    ensures !m'.AfterColon?
    ensures Output(LexValue(v, rest), m, name, prefix, out)
            == Output(rest, m', name, prefix, out + RenderValue(RewriteValue(v, m.AfterColon?, name, prefix)))
    decreases v, 1
  {
    hide WellFormed, WellFormedMember, LexItems, LexMembers, RenderItems, RenderMembers, RewriteItems, RewriteMembers,
         LexPlain, IsBody;
    match v
    case Atom(text) =>
      AtomRun(text, rest, m, name, prefix, out);
      m' := Outside(false);
    case Str(body) =>
      m' := Next(m, Quoted(body), name);
    case Arr(gap, items) =>
      var close := Then(Plain(RBRACKET), rest);
      SpacesRun(gap, LexItems(items, close), Outside(false), name, prefix, out + [LBRACKET]);
      m' := ItemsRun(items, close, Outside(false), name, prefix, out + [LBRACKET] + gap);
      Concat(out, [LBRACKET], gap, RenderItems(RewriteItems(items, name, prefix)), [RBRACKET]);
      m' := Outside(false);
    case Obj(gap, members) =>
      var close := Then(Plain(RBRACE), rest);
      SpacesRun(gap, LexMembers(members, close), Outside(true), name, prefix, out + [LBRACE]);
      m' := MembersRun(members, close, name, prefix, out + [LBRACE] + gap);
      Concat(out, [LBRACE], gap, RenderMembers(RewriteMembers(members, name, prefix)), [RBRACE]);
      m' := Outside(false);
  }

  lemma {:induction false} ItemsRun(items: seq<Element>, rest: Text, m: Mode, name: bytes, prefix: bytes, out: bytes)
    returns (m': Mode)
    requires forall i | 0 <= i < |items| :: WellFormed(items[i])
    requires !m.AfterColon?
    ensures !m'.AfterColon?
    ensures Output(LexItems(items, rest), m, name, prefix, out)
            == Output(rest, m', name, prefix, out + RenderItems(RewriteItems(items, name, prefix)))
    decreases items, 0
  {
    if |items| == 0 {
      assert out + [] == out;
      m' := m;
    } else if |items| == 1 {
      m' := ElementRun(items[0], rest, m, name, prefix, out);
    } else {
      var tail := LexItems(items[1..], rest);
      var first := Render(Rewrite(items[0], false, name, prefix));
      m' := ElementRun(items[0], Then(Plain(COMMA), tail), m, name, prefix, out);
      m' := ItemsRun(items[1..], rest, Outside(true), name, prefix, out + first + [COMMA]);
      assert RewriteItems(items, name, prefix)[1..] == RewriteItems(items[1..], name, prefix);
      Concat(out, first, [COMMA], RenderItems(RewriteItems(items[1..], name, prefix)), []);
    }
  }

  /** The tokens of a member up to its value. */
  lemma NameRun(pre: bytes, body: bytes, mid: bytes, value: Text, name: bytes, prefix: bytes, out: bytes)
    requires AllSpace(pre) && AllSpace(mid)
    ensures Output(LexPlain(pre, Then(Quoted(body), LexPlain(mid, Then(Plain(COLON), value)))), Outside(true), name,
                   prefix, out)
            == Output(value, if body == name then AfterColon else Outside(false), name, prefix,
                      out + pre + RenderString(body) + mid + [COLON])
  {
    hide LexPlain;
    var key := Next(Outside(true), Quoted(body), name);
    SpacesRun(pre, Then(Quoted(body), LexPlain(mid, Then(Plain(COLON), value))), Outside(true), name, prefix, out);
    SpacesRun(mid, Then(Plain(COLON), value), key, name, prefix, out + pre + RenderString(body));
  }

  lemma MemberBytes(out: bytes, m: Member, name: bytes, prefix: bytes)
    ensures out + m.pre + RenderString(m.name) + m.mid + [COLON]
            + Render(Rewrite(m.element, m.name == name, name, prefix))
            == out + RenderMember(RewriteMember(m, name, prefix))
  {
    hide Render, Rewrite, RenderString;
    var a, text := RenderString(m.name), Render(Rewrite(m.element, m.name == name, name, prefix));
    Concat(out, m.pre, a, m.mid, [COLON]);
    assert out + (m.pre + a + m.mid + [COLON]) + text == out + (m.pre + a + m.mid + [COLON] + text);
  }

  lemma {:induction false} MemberRun(m: Member, rest: Text, name: bytes, prefix: bytes, out: bytes)
    returns (m': Mode)
    requires WellFormedMember(m)
    ensures !m'.AfterColon?
    ensures Output(LexMember(m, rest), Outside(true), name, prefix, out)
            == Output(rest, m', name, prefix, out + RenderMember(RewriteMember(m, name, prefix)))
    decreases m, 3
  {
    hide Lex, Render, Rewrite, LexPlain, WellFormed, IsBody, Output, RenderMember, RewriteMember, RenderString;
    var colon := if m.name == name then AfterColon else Outside(false);
    NameRun(m.pre, m.name, m.mid, Lex(m.element, rest), name, prefix, out);
    m' := ElementRun(m.element, rest, colon, name, prefix, out + m.pre + RenderString(m.name) + m.mid + [COLON]);
    MemberBytes(out, m, name, prefix);
  }

  lemma {:induction false} MembersRun(members: seq<Member>, rest: Text, name: bytes, prefix: bytes, out: bytes)
    returns (m': Mode)
    requires forall i | 0 <= i < |members| :: WellFormedMember(members[i])
    ensures !m'.AfterColon?
    ensures Output(LexMembers(members, rest), Outside(true), name, prefix, out)
            == Output(rest, m', name, prefix, out + RenderMembers(RewriteMembers(members, name, prefix)))
    decreases members, 0
  {
    if |members| == 0 {
      assert out + [] == out;
      m' := Outside(true);
    } else if |members| == 1 {
      m' := MemberRun(members[0], rest, name, prefix, out);
    } else {
      var tail := LexMembers(members[1..], rest);
      var first := RenderMember(RewriteMember(members[0], name, prefix));
      m' := MemberRun(members[0], Then(Plain(COMMA), tail), name, prefix, out);
      m' := MembersRun(members[1..], rest, name, prefix, out + first + [COMMA]);
      assert RewriteMembers(members, name, prefix)[1..] == RewriteMembers(members[1..], name, prefix);
      Concat(out, first, [COMMA], RenderMembers(RewriteMembers(members[1..], name, prefix)), []);
    }
  }

  // ------------------------------------------------------------------
  // The bytes of a tree consist of its tokens

  lemma {:induction false} PlainAt(s: bytes, i: nat, bs: bytes, rest: Text)
    requires HasAt(s, i, bs) && TextAt(s, i + |bs|, rest)
    requires forall k | 0 <= k < |bs| :: bs[k] != QUOTE
    ensures TextAt(s, i, LexPlain(bs, rest))
    decreases |bs|
  {
    if bs != [] {
      assert s[i + 0] == bs[0];
      HasAtTail(s, i, bs);
      PlainAt(s, i + 1, bs[1..], rest);
    }
  }

  lemma {:induction false} ElementAt(s: bytes, i: nat, e: Element, rest: Text)
    requires WellFormed(e) && HasAt(s, i, Render(e)) && TextAt(s, i + |Render(e)|, rest)
    ensures TextAt(s, i, Lex(e, rest))
    decreases e, 2
  {
    hide HasAt, TextAt, RenderValue, WellFormedValue;
    var text := RenderValue(e.value);
    HasAtSplit(s, i, e.pre + text, e.post);
    HasAtSplit(s, i, e.pre, text);
    var j := i + |e.pre|;
    PlainAt(s, j + |text|, e.post, rest);
    ValueAt(s, j, e.value, LexPlain(e.post, rest));
    PlainAt(s, i, e.pre, LexValue(e.value, LexPlain(e.post, rest)));
  }

  lemma {:induction false} ValueAt(s: bytes, i: nat, v: Value, rest: Text)
    requires WellFormedValue(v) && HasAt(s, i, RenderValue(v)) && TextAt(s, i + |RenderValue(v)|, rest)
    ensures TextAt(s, i, LexValue(v, rest))
    decreases v, 1
  {
    hide HasAt, IsBody, WellFormed, WellFormedMember, RenderItems, RenderMembers, LexItems, LexMembers, LexPlain;
    match v
    case Atom(text) =>
      PlainAt(s, i, text, rest);
    case Str(body) =>
      StringAt(s, i, body);
    case Arr(gap, items) =>
      var text := RenderItems(items);
      BracketAt(s, i, LBRACKET, gap, text, RBRACKET);
      var k := i + 1 + |gap|;
      ItemsAt(s, k, items, Then(Plain(RBRACKET), rest));
      PlainAt(s, i + 1, gap, LexItems(items, Then(Plain(RBRACKET), rest)));
    case Obj(gap, members) =>
      var text := RenderMembers(members);
      BracketAt(s, i, LBRACE, gap, text, RBRACE);
      var k := i + 1 + |gap|;
      MembersAt(s, k, members, Then(Plain(RBRACE), rest));
      PlainAt(s, i + 1, gap, LexMembers(members, Then(Plain(RBRACE), rest)));
  }

  lemma StringAt(s: bytes, i: nat, body: bytes)
    requires HasAt(s, i, RenderString(body)) && IsBody(body)
    ensures TokenAt(s, i, Quoted(body))
  {
    QuotedAt(s, i, body);
  }

  lemma {:induction false} ItemsAt(s: bytes, i: nat, items: seq<Element>, rest: Text)
    requires forall k | 0 <= k < |items| :: WellFormed(items[k])
    requires HasAt(s, i, RenderItems(items)) && TextAt(s, i + |RenderItems(items)|, rest)
    ensures TextAt(s, i, LexItems(items, rest))
    decreases items, 0
  {
    hide HasAt, Render, WellFormed;
    if |items| == 1 {
      ElementAt(s, i, items[0], rest);
    } else if |items| > 1 {
      var first, text := Render(items[0]), RenderItems(items[1..]);
      HasAtSplit(s, i, first + [COMMA], text);
      HasAtSplit(s, i, first, [COMMA]);
      HasAtByte(s, i + |first|, COMMA);
      ItemsAt(s, i + |first| + 1, items[1..], rest);
      ElementAt(s, i, items[0], Then(Plain(COMMA), LexItems(items[1..], rest)));
    }
  }

  lemma {:induction false} MemberAt(s: bytes, i: nat, m: Member, rest: Text)
    requires WellFormedMember(m) && HasAt(s, i, RenderMember(m)) && TextAt(s, i + |RenderMember(m)|, rest)
    ensures TextAt(s, i, LexMember(m, rest))
    decreases m, 3
  {
    hide HasAt, Render, WellFormed, RenderString;
    var key, text := RenderString(m.name), Render(m.element);
    HasAtSplit(s, i, m.pre + key + m.mid + [COLON], text);
    HasAtSplit(s, i, m.pre + key + m.mid, [COLON]);
    HasAtSplit(s, i, m.pre + key, m.mid);
    HasAtSplit(s, i, m.pre, key);
    var j := i + |m.pre|;
    var k := j + |key| + |m.mid|;
    HasAtByte(s, k, COLON);
    StringAt(s, j, m.name);
    ElementAt(s, k + 1, m.element, rest);
    var tail := Then(Plain(COLON), Lex(m.element, rest));
    PlainAt(s, j + |key|, m.mid, tail);
    KeyAt(s, j, m.name, LexPlain(m.mid, tail));
    PlainAt(s, i, m.pre, Then(Quoted(m.name), LexPlain(m.mid, tail)));
  }

  lemma KeyAt(s: bytes, j: nat, name: bytes, rest: Text)
    ensures TokenAt(s, j, Quoted(name)) && TextAt(s, j + |RenderString(name)|, rest) ==>
              TextAt(s, j, Then(Quoted(name), rest))
  {
  }

  lemma {:induction false} MembersAt(s: bytes, i: nat, members: seq<Member>, rest: Text)
    requires forall k | 0 <= k < |members| :: WellFormedMember(members[k])
    requires HasAt(s, i, RenderMembers(members)) && TextAt(s, i + |RenderMembers(members)|, rest)
    ensures TextAt(s, i, LexMembers(members, rest))
    decreases members, 0
  {
    hide HasAt, RenderMember, WellFormedMember;
    if |members| == 1 {
      MemberAt(s, i, members[0], rest);
    } else if |members| > 1 {
      var first, text := RenderMember(members[0]), RenderMembers(members[1..]);
      HasAtSplit(s, i, first + [COMMA], text);
      HasAtSplit(s, i, first, [COMMA]);
      HasAtByte(s, i + |first|, COMMA);
      MembersAt(s, i + |first| + 1, members[1..], rest);
      MemberAt(s, i, members[0], Then(Plain(COMMA), LexMembers(members[1..], rest)));
    }
  }

  // ------------------------------------------------------------------

  /**
   On the bytes of any JSON tree, with any white space between the tokens, the
   scan for an unescaped key `name` is the rewrite of the tree.
   */
  lemma ScanIsRewrite(e: Element, name: bytes, prefix: bytes)
    requires WellFormed(e) && IsName(name)
    ensures Prefixed(Render(e), 0, RenderString(name), prefix, []) == Render(Rewrite(e, false, name, prefix))
  {
    var s := Render(e);
    ElementAt(s, 0, e, End);
    ScanMeetsMachine(s, 0, Lex(e, End), name, prefix, []);
    var m := ElementRun(e, End, Outside(true), name, prefix, []);
  }

  /** What PrefixResponseTypenames returns for the bytes of a tree. */
  lemma TypenamesPrefixed(e: Element, namespace: bytes)
    requires WellFormed(e)
    ensures Prefixed(Render(e), 0, TARGET, namespace + [0x5F], [])
            == Render(Rewrite(e, false, TYPENAME, namespace + [0x5F]))
  {
    ScanIsRewrite(e, TYPENAME, namespace + [0x5F]);
  }
}
