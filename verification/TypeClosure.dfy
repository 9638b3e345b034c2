/**
 The closure of types that an operation or a type drags along: a depth-first
 walk over a graph that may have cycles, with a shared visited set.
 */
module TypeClosure {
  import opened Options
  import Ir

  type Name = Ir.Name

  // ------------------------------------------------------------------
  // The graph

  /** The names a reference mentions, through lists and maps. */
  function Mentions(ref: Ir.TypeRef): set<Name> {
    if ref.builtin && ref.named == [] && ref.entries.NoMap? && ref.list.NoList? then {}
    else if ref.list.ListType? then Mentions(ref.list.elem)
    else if ref.entries.MapType? then Mentions(ref.entries.key) + Mentions(ref.entries.value)
    else if ref.named != [] then {ref.named}
    else {}
  }

  function MentionedBy(refs: seq<Ir.TypeRef>): set<Name> {
    set i, n | 0 <= i < |refs| && n in Mentions(refs[i]) :: n
  }

  function FieldRefs(t: Ir.Type): seq<Ir.TypeRef> {
    seq(|t.fields|, i requires 0 <= i < |t.fields| => t.fields[i].ref)
  }

  /** The types next to a type: those its fields mention and its variants. */
  function Next(types: Ir.Types, name: Name): set<Name>
    requires name in types
  {
    set n | n in MentionedBy(FieldRefs(types[name])) + (set v | v in types[name].variants) && n in types
  }

  /** A way through the graph. */
  predicate Path(types: Ir.Types, p: seq<Name>) {
    && p != []
    && (forall i | 0 <= i < |p| :: p[i] in types)
    && forall i | 0 < i < |p| :: p[i] in Next(types, p[i - 1])
  }

  ghost predicate Reachable(types: Ir.Types, roots: set<Name>, name: Name) {
    exists p :: Path(types, p) && p[0] in roots && p[|p| - 1] == name
  }

  lemma ReachNext(types: Ir.Types, roots: set<Name>, name: Name, next: Name)
    requires name in types && next in Next(types, name) && Reachable(types, roots, name)
    ensures Reachable(types, roots, next)
  {
    hide Next;
    var p :| Path(types, p) && p[0] in roots && p[|p| - 1] == name;
    NextIsType(types, name, next);
    var q := p + [next];
    assert forall i | 0 <= i < |p| :: q[i] == p[i];
    assert Path(types, q) && q[0] in roots && q[|q| - 1] == next;
  }

  lemma NextIsType(types: Ir.Types, name: Name, next: Name)
    ensures name in types && next in Next(types, name) ==> next in types
  {
  }

  lemma ReachRoot(types: Ir.Types, roots: set<Name>, name: Name)
    requires name in types && name in roots
    ensures Reachable(types, roots, name)
  {
    assert Path(types, [name]) && [name][0] in roots && [name][|[name]| - 1] == name;
  }

  predicate Closed(types: Ir.Types, visited: set<Name>, done: set<Name>) {
    forall n | n in done && n in types :: Next(types, n) <= visited
  }

  lemma {:induction false} ClosedHoldsPath(types: Ir.Types, visited: set<Name>, p: seq<Name>)
    requires Closed(types, visited, visited) && Path(types, p) && p[0] in visited
    ensures p[|p| - 1] in visited
    decreases |p|
  {
    hide Next;
    if |p| > 1 {
      var q := p[..|p| - 1];
      assert forall i | 0 <= i < |q| :: q[i] == p[i];
      ClosedHoldsPath(types, visited, q);
      assert p[|p| - 1] in Next(types, p[|p| - 2]);
    }
  }

  /** A visited set that is closed and holds the roots holds everything reachable. */
  lemma ClosedHoldsReachable(types: Ir.Types, roots: set<Name>, visited: set<Name>, name: Name)
    requires Closed(types, visited, visited) && Reachable(types, roots, name)
    requires forall r | r in roots && r in types :: r in visited
    ensures name in visited
  {
    hide Next;
    var p :| Path(types, p) && p[0] in roots && p[|p| - 1] == name;
    ClosedHoldsPath(types, visited, p);
  }

  // ------------------------------------------------------------------
  // The walk

  function Names(out: seq<Ir.Type>): set<Name> {
    set i | 0 <= i < |out| :: out[i].name
  }

  /** No name twice, and every entry is the type registered under its name. */
  predicate Emitted(types: Ir.Types, out: seq<Ir.Type>) {
    && (forall i, j | 0 <= i < j < |out| :: out[i].name != out[j].name)
    && forall i | 0 <= i < |out| :: out[i].name in types && types[out[i].name] == out[i]
  }

  lemma EmitOne(types: Ir.Types, out: seq<Ir.Type>, name: Name)
    requires Emitted(types, out) && Ir.Keyed(types) && name in types && name !in Names(out)
    ensures Emitted(types, out + [types[name]]) && Names(out + [types[name]]) == Names(out) + {name}
  {
    var more := out + [types[name]];
    forall i | 0 <= i < |out| ensures out[i].name != name {
      assert out[i].name in Names(out);
    }
    forall n | n in Names(out) + {name} ensures n in Names(more) {
      if n == name {
        assert more[|out|].name == n;
      } else {
        var i :| 0 <= i < |out| && out[i].name == n;
        assert more[i].name == n;
      }
    }
  }

  class Walk {
    const types: Ir.Types
    ghost const roots: set<Name>
    var visited: set<Name>
    var out: seq<Ir.Type>

    constructor (types: Ir.Types, visited: set<Name>, ghost roots: set<Name>)
      ensures this.types == types && this.roots == roots && this.visited == visited && out == []
    {
      this.types := types;
      this.roots := roots;
      this.visited := visited;
      out := [];
    }

    /** `open` holds the types whose walk has begun but not ended. */
    ghost predicate Valid(open: set<Name>)
      reads this
    {
      && Ir.Keyed(types) && visited <= types.Keys
      && Emitted(types, out)
      && Closed(types, visited, visited - open)
      && forall n | n in visited :: Reachable(types, roots, n)
    }

    method WalkTypeRef(ref: Ir.TypeRef, ghost open: set<Name>)
      requires Valid(open) && Names(out) == visited
      requires forall n | n in Mentions(ref) && n in types :: Reachable(types, roots, n)
      modifies this`visited, this`out
      ensures Valid(open) && Names(out) == visited
      ensures old(visited) <= visited
      ensures forall n | n in Mentions(ref) && n in types :: n in visited
      decreases types.Keys - visited, 0, ref
    {
      hide Reachable, Next, Emitted, Ir.Keyed, Closed;
      if ref.builtin && ref.named == [] && ref.entries.NoMap? && ref.list.NoList? {
        return;
      } else if ref.list.ListType? {
        WalkTypeRef(ref.list.elem, open);
      } else if ref.entries.MapType? {
        WalkTypeRef(ref.entries.key, open);
        WalkTypeRef(ref.entries.value, open);
      } else if ref.named != [] {
        if ref.named in visited {
          return;
        }
        if ref.named !in types {
          return;
        }
        ClosedMono(types, visited, visited - open, visited + {ref.named}, visited - open - {ref.named});
        assert visited + {ref.named} - (open + {ref.named}) == visited - open - {ref.named};
        visited := visited + {ref.named};
        WalkType(ref.named, open);
      }
    }

    method WalkType(name: Name, ghost open: set<Name>)
      requires name in types && name in visited && name !in Names(out)
      requires Valid(open + {name}) && Names(out) == visited - {name}
      modifies this`visited, this`out
      ensures Valid(open) && Names(out) == visited
      ensures old(visited) <= visited
      decreases types.Keys - visited, 1
    {
      hide Reachable, Next, Emitted, Ir.Keyed, Closed, Mentions;
      EmitOne(types, out, name);
      out := out + [types[name]];
      var t := types[name];
      NextReachable(types, roots, name);
      for i := 0 to |t.fields|
        invariant Valid(open + {name}) && Names(out) == visited && old(visited) <= visited
        invariant forall j, n | 0 <= j < i && n in Mentions(t.fields[j].ref) && n in types :: n in visited
      {
        WalkTypeRef(t.fields[i].ref, open + {name});
      }
      for i := 0 to |t.variants|
        invariant Valid(open + {name}) && Names(out) == visited && old(visited) <= visited
        invariant forall j, n | 0 <= j < |t.fields| && n in Mentions(t.fields[j].ref) && n in types :: n in visited
        invariant forall j | 0 <= j < i && t.variants[j] in types :: t.variants[j] in visited
      {
        var v := t.variants[i];
        if v in visited {
          continue;
        }
        if v !in types {
          continue;
        }
        ghost var more := open + {name};
        ClosedMono(types, visited, visited - more, visited + {v}, visited - more - {v});
        assert visited + {v} - (more + {v}) == visited - more - {v};
        visited := visited + {v};
        WalkType(v, more);
      }
      NextVisited(types, name, visited);
      CloseOne(types, visited, open, name);
    }
  }

  lemma ClosedMono(types: Ir.Types, visited: set<Name>, done: set<Name>, more: set<Name>, fewer: set<Name>)
    requires Closed(types, visited, done) && visited <= more && fewer <= done
    ensures Closed(types, more, fewer)
  {
    hide Next;
  }

  lemma CloseOne(types: Ir.Types, visited: set<Name>, open: set<Name>, name: Name)
    requires name in types && Closed(types, visited, visited - (open + {name})) && Next(types, name) <= visited
    ensures Closed(types, visited, visited - open)
  {
    hide Next;
  }

  lemma NextReachable(types: Ir.Types, roots: set<Name>, name: Name)
    requires name in types && Reachable(types, roots, name)
    ensures forall i, n | 0 <= i < |types[name].fields| && n in Mentions(types[name].fields[i].ref) && n in types ::
              Reachable(types, roots, n)
    ensures forall i | 0 <= i < |types[name].variants| && types[name].variants[i] in types ::
              Reachable(types, roots, types[name].variants[i])
  {
    hide Reachable, Mentions;
    var t := types[name];
    forall i, n | 0 <= i < |t.fields| && n in Mentions(t.fields[i].ref) && n in types
      ensures Reachable(types, roots, n)
    {
      assert n in Mentions(FieldRefs(t)[i]);
      ReachNext(types, roots, name, n);
    }
    forall i | 0 <= i < |t.variants| && t.variants[i] in types
      ensures Reachable(types, roots, t.variants[i])
    {
      ReachNext(types, roots, name, t.variants[i]);
    }
  }

  lemma NextVisited(types: Ir.Types, name: Name, visited: set<Name>)
    requires name in types
    requires forall j, n | 0 <= j < |types[name].fields| && n in Mentions(types[name].fields[j].ref) && n in types ::
               n in visited
    requires forall j | 0 <= j < |types[name].variants| && types[name].variants[j] in types ::
               types[name].variants[j] in visited
    ensures Next(types, name) <= visited
  {
    hide Mentions;
    var t := types[name];
    forall n | n in Next(types, name) ensures n in visited {
      if n in MentionedBy(FieldRefs(t)) {
        var i :| 0 <= i < |FieldRefs(t)| && n in Mentions(FieldRefs(t)[i]);
        assert n in Mentions(t.fields[i].ref);
      }
    }
  }

  /** Exactly the types reachable from the roots, each once. */
  ghost predicate IsClosure(types: Ir.Types, roots: set<Name>, out: seq<Ir.Type>) {
    && Emitted(types, out)
    && forall n :: n in Names(out) <==> Reachable(types, roots, n)
  }

  method CollectTypeClosureForOp(types: Ir.Types, args: seq<Ir.TypeRef>, output: Option<Ir.TypeRef>)
    returns (out: seq<Ir.Type>)
    requires Ir.Keyed(types)
    ensures IsClosure(types, MentionedBy(args) + (if output.Some? then Mentions(output.value) else {}), out)
  {
    hide Reachable, Next, Emitted, Ir.Keyed, Closed, Mentions;
    ghost var roots := MentionedBy(args) + (if output.Some? then Mentions(output.value) else {});
    RootsReachable(types, roots);
    Nothing(types);
    var w := new Walk(types, {}, roots);
    assert w.visited - {} == {} && w.visited <= types.Keys;
    for i := 0 to |args|
      invariant w.types == types && w.roots == roots && w.Valid({}) && Names(w.out) == w.visited && fresh(w)
      invariant forall j, n | 0 <= j < i && n in Mentions(args[j]) && n in types :: n in w.visited
    {
      assert forall n | n in Mentions(args[i]) :: n in MentionedBy(args);
      w.WalkTypeRef(args[i], {});
    }
    if output.Some? {
      w.WalkTypeRef(output.value, {});
    }
    out := w.out;
    assert w.visited - {} == w.visited;
    Complete(types, roots, w.visited);
  }

  lemma RootsReachable(types: Ir.Types, roots: set<Name>)
    ensures forall n | n in roots && n in types :: Reachable(types, roots, n)
  {
    hide Reachable;
    forall n | n in roots && n in types ensures Reachable(types, roots, n) {
      ReachRoot(types, roots, n);
    }
  }

  lemma Nothing(types: Ir.Types)
    ensures Emitted(types, []) && Names([]) == {} && Closed(types, {}, {})
  {
  }

  lemma Complete(types: Ir.Types, roots: set<Name>, visited: set<Name>)
    requires Closed(types, visited, visited) && forall r | r in roots && r in types :: r in visited
    ensures forall n | Reachable(types, roots, n) :: n in visited
  {
    hide Reachable, Closed;
    forall n | Reachable(types, roots, n) ensures n in visited {
      ClosedHoldsReachable(types, roots, visited, n);
    }
  }

  method CollectTypeClosureFromType(types: Ir.Types, root: Name) returns (out: seq<Ir.Type>)
    requires Ir.Keyed(types) && root in types
    ensures IsClosure(types, {root}, out)
  {
    hide Reachable, Next, Emitted, Closed, Mentions;
    RootsReachable(types, {root});
    Nothing(types);
    var w := new Walk(types, {types[root].name}, {root});
    assert w.visited == {root} && w.visited - ({} + {root}) == {} && Names(w.out) == w.visited - {root};
    ClosedMono(types, {}, {}, {root}, {});
    w.WalkType(root, {});
    out := w.out;
    assert w.visited - {} == w.visited;
    Complete(types, {root}, w.visited);
  }
}
