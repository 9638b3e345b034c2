/**
 The request half of the GraphQL mirror: type conditions of inline fragments
 lose the local prefix before a selection is sent to the remote service.
 */
module Mirror {
  import opened JsonSyntax
  import opened Options
  import Ir

  type Name = Ir.Name

  const UNDERSCORE: byte := 0x5F

  /** `arguments` and `directives` stand for AST parts that are passed on as they are. */
  datatype Selection =
    | Field(alias: Name, name: Name, arguments: string, directives: string, sub: Option<SelectionSet>)
    | Inline(condition: Option<Name>, directives: string, sub: Option<SelectionSet>)
    | Spread(name: Name)

  datatype SelectionSet = SelectionSet(selections: seq<Selection>)

  /** The mirror takes the source for the latest if no GraphQL source of the namespace has a higher version.  The schema
      renderer compares it with the services of every kind: `isCurrent` is its view. */
  datatype Source = Source(ns: Name, version: Name, isLatest: bool, isCurrent: bool) {
    function Short(): Name {
      ns + [UNDERSCORE]
    }

    function Long(): Name {
      ns + [UNDERSCORE] + version + [UNDERSCORE]
    }

    /** The prefix that the schema renderer gives the source's types. */
    function Local(): Name {
      if isCurrent || version == [] then Short() else Long()
    }
  }

  predicate ProperPrefix(p: Name, name: Name) {
    |name| > |p| && name[..|p|] == p
  }

  function UnprefixTypeName(m: Source, name: Name): Name {
    if !m.isLatest && ProperPrefix(m.Long(), name) then name[|m.Long()|..]
    else if ProperPrefix(m.Short(), name) then name[|m.Short()|..]
    else name
  }

  function RewriteSet(m: Source, selSet: SelectionSet): SelectionSet
    decreases selSet
  {
    SelectionSet(RewriteAll(m, selSet.selections))
  }

  function RewriteAll(m: Source, sels: seq<Selection>): seq<Selection>
    decreases sels
  {
    if |sels| == 0 then [] else [RewriteOne(m, sels[0])] + RewriteAll(m, sels[1..])
  }

  function RewriteSub(m: Source, sub: Option<SelectionSet>): Option<SelectionSet>
    decreases sub
  {
    if sub.None? then None else Some(RewriteSet(m, sub.value))
  }

  function RewriteOne(m: Source, s: Selection): Selection
    decreases s
  {
    match s
    case Field(alias, name, arguments, directives, sub) =>
      Field(alias, name, arguments, directives, RewriteSub(m, sub))
    case Inline(condition, directives, sub) =>
      var c := if condition.None? then None else Some(UnprefixTypeName(m, condition.value));
      Inline(c, directives, RewriteSub(m, sub))
    case Spread(_) => s
  }

  /** The field sent to the remote service. */
  function RewriteFieldForRemote(m: Source, field: Selection, remoteName: Name): (r: Selection)
    requires field.Field?
    ensures SkeletonOne(r) == SkeletonOne(field.(name := remoteName))
  {
    SkeletonKeptOne(m, field.(name := remoteName));
    field.(name := remoteName, sub := RewriteSub(m, field.sub))
  }

  // ------------------------------------------------------------------
  // Names

  /** A remote name that the scanner cannot mistake once `<ns>_` is put in front of it. */
  predicate ShortSafe(m: Source, name: Name) {
    name != [] && (m.isLatest || !ProperPrefix(m.version + [UNDERSCORE], name))
  }

  lemma PrefixOfJoin(p: Name, q: Name, name: Name)
    ensures ProperPrefix(p + q, p + name) <==> ProperPrefix(q, name)
  {
    if |name| > |q| {
      assert (p + name)[..|p + q|] == p + name[..|q|];
      assert (p + name[..|q|])[|p|..] == name[..|q|] && (p + q)[|p|..] == q;
    }
  }

  /** Removing the prefix gives the remote name back exactly for the safe names. */
  lemma ShortUndone(m: Source, name: Name)
    ensures UnprefixTypeName(m, m.Short() + name) == name <==> ShortSafe(m, name)
  {
    var local := m.Short() + name;
    var tail := m.version + [UNDERSCORE];
    assert m.Long() == m.Short() + tail;
    PrefixOfJoin(m.Short(), tail, name);
    assert local[..|m.Short()|] == m.Short() && local[|m.Short()|..] == name;
    if !m.isLatest && ProperPrefix(tail, name) {
      assert |UnprefixTypeName(m, local)| == |local| - |m.Long()|;
    }
  }

  /** For a source that is not the latest, the versioned prefix is always undone. */
  lemma LongUndone(m: Source, name: Name)
    requires !m.isLatest
    ensures UnprefixTypeName(m, m.Long() + name) == name <==> name != []
  {
    var local := m.Long() + name;
    assert local[..|m.Long()|] == m.Long() && local[|m.Long()|..] == name;
    if name == [] {
      assert |local| > |m.Short()|;
    }
  }

  // ------------------------------------------------------------------
  // Selections

  /** The local spelling of a remote selection: every type condition gains the prefix. */
  function Localized(prefix: Name, sels: seq<Selection>): seq<Selection>
    decreases sels
  {
    if |sels| == 0 then [] else [LocalizedOne(prefix, sels[0])] + Localized(prefix, sels[1..])
  }

  function LocalizedOne(prefix: Name, s: Selection): Selection
    decreases s
  {
    match s
    case Field(alias, name, arguments, directives, sub) =>
      Field(alias, name, arguments, directives, LocalizedSub(prefix, sub))
    case Inline(condition, directives, sub) =>
      Inline(if condition.None? then None else Some(prefix + condition.value), directives, LocalizedSub(prefix, sub))
    case Spread(_) => s
  }

  function LocalizedSub(prefix: Name, sub: Option<SelectionSet>): Option<SelectionSet>
    decreases sub
  {
    if sub.None? then None else Some(SelectionSet(Localized(prefix, sub.value.selections)))
  }

  /** The type conditions of a selection, at every depth. */
  function Conditions(sels: seq<Selection>): set<Name>
    decreases sels
  {
    if |sels| == 0 then {} else ConditionsOne(sels[0]) + Conditions(sels[1..])
  }

  function ConditionsOne(s: Selection): set<Name>
    decreases s
  {
    match s
    case Field(_, _, _, _, sub) => ConditionsSub(sub)
    case Inline(condition, _, sub) =>
      (if condition.None? then {} else {condition.value}) + ConditionsSub(sub)
    case Spread(_) => {}
  }

  function ConditionsSub(sub: Option<SelectionSet>): set<Name>
    decreases sub
  {
    if sub.None? then {} else Conditions(sub.value.selections)
  }

  ghost predicate Undone(m: Source, prefix: Name, names: set<Name>) {
    forall c | c in names :: UnprefixTypeName(m, prefix + c) == c
  }

  /** Rewriting undoes the local spelling of a whole selection exactly when it does so for each condition in it. */
  lemma {:induction false} RewriteUndoes(m: Source, prefix: Name, sels: seq<Selection>)
    ensures RewriteAll(m, Localized(prefix, sels)) == sels <==> Undone(m, prefix, Conditions(sels))
    decreases sels
  {
    hide UnprefixTypeName;
    if |sels| > 0 {
      RewriteUndoesOne(m, prefix, sels[0]);
      RewriteUndoes(m, prefix, sels[1..]);
      var local := Localized(prefix, sels);
      assert local[1..] == Localized(prefix, sels[1..]);
      var back := RewriteAll(m, local);
      assert back[1..] == RewriteAll(m, local[1..]);
      assert back == [back[0]] + back[1..] && sels == [sels[0]] + sels[1..];
    }
  }

  lemma {:induction false} RewriteUndoesOne(m: Source, prefix: Name, s: Selection)
    ensures RewriteOne(m, LocalizedOne(prefix, s)) == s <==> Undone(m, prefix, ConditionsOne(s))
    decreases s
  {
    hide UnprefixTypeName;
    if !s.Spread? {
      RewriteUndoesSub(m, prefix, s.sub);
    }
  }

  lemma {:induction false} RewriteUndoesSub(m: Source, prefix: Name, sub: Option<SelectionSet>)
    ensures RewriteSub(m, LocalizedSub(prefix, sub)) == sub <==> Undone(m, prefix, ConditionsSub(sub))
    decreases sub
  {
    hide UnprefixTypeName;
    if sub.Some? {
      RewriteUndoes(m, prefix, sub.value.selections);
    }
  }

  /** From the spelling with `<ns>_` the remote service gets back its own selection if and only if every type condition
      in it is a safe name. */
  lemma ShortSpellingRestored(m: Source, sels: seq<Selection>)
    ensures RewriteAll(m, Localized(m.Short(), sels)) == sels
            <==> forall c | c in Conditions(sels) :: ShortSafe(m, c)
  {
    RewriteUndoes(m, m.Short(), sels);
    forall c | c in Conditions(sels)
      ensures UnprefixTypeName(m, m.Short() + c) == c <==> ShortSafe(m, c)
    {
      ShortUndone(m, c);
    }
  }

  /** The same for the spelling with `<ns>_<version>_`. */
  lemma LongSpellingRestored(m: Source, sels: seq<Selection>)
    requires !m.isLatest
    ensures RewriteAll(m, Localized(m.Long(), sels)) == sels <==> [] !in Conditions(sels)
  {
    RewriteUndoes(m, m.Long(), sels);
    forall c | c in Conditions(sels)
      ensures UnprefixTypeName(m, m.Long() + c) == c <==> c != []
    {
      LongUndone(m, c);
    }
  }

  // ------------------------------------------------------------------
  // The versions of a namespace

  datatype Kind = GraphQL | OtherKind

  /** A service of the namespace; `n` is the number of its version. */
  datatype Service = Service(kind: Kind, version: Name, n: nat)

  /** `j` is behind `i` in the renderer's list, which is sorted by version; the sort is stable. */
  predicate Behind(svcs: seq<Service>, i: nat, j: nat)
    requires i < |svcs| && j < |svcs|
  {
    svcs[j].n > svcs[i].n || (svcs[j].n == svcs[i].n && j > i)
  }

  /** The highest version of the GraphQL sources, as the mirrors are told. */
  method LatestGraphQL(svcs: seq<Service>) returns (latest: Option<nat>)
    ensures latest.None? <==> forall i | 0 <= i < |svcs| :: svcs[i].kind != GraphQL
    ensures latest.Some? ==> exists i | 0 <= i < |svcs| :: svcs[i].kind == GraphQL && svcs[i].n == latest.value
    ensures forall i | 0 <= i < |svcs| && svcs[i].kind == GraphQL :: TopGraphQL(svcs, i) <==> latest == Some(svcs[i].n)
  {
    latest := None;
    for k := 0 to |svcs|
      invariant latest.None? <==> forall i | 0 <= i < k :: svcs[i].kind != GraphQL
      invariant latest.Some? ==> exists i | 0 <= i < k :: svcs[i].kind == GraphQL && svcs[i].n == latest.value
      invariant forall i | 0 <= i < k && svcs[i].kind == GraphQL :: latest.Some? && svcs[i].n <= latest.value
    {
      if svcs[k].kind == GraphQL && (latest.None? || svcs[k].n > latest.value) {
        latest := Some(svcs[k].n);
      }
    }
  }

  predicate TopGraphQL(svcs: seq<Service>, i: nat)
    requires i < |svcs|
  {
    forall j | 0 <= j < |svcs| && svcs[j].kind == GraphQL :: svcs[j].n <= svcs[i].n
  }

  predicate Last(svcs: seq<Service>, i: nat)
    requires i < |svcs|
  {
    forall j | 0 <= j < |svcs| :: !Behind(svcs, i, j)
  }

  function SourceOf(ns: Name, svcs: seq<Service>, i: nat): Source
    requires i < |svcs|
  {
    Source(ns, svcs[i].version, TopGraphQL(svcs, i), Last(svcs, i))
  }

  /** The highest GraphQL version of its namespace has a service behind it in the renderer's list; with distinct
      versions that is one of another kind. */
  predicate Overtaken(svcs: seq<Service>, i: nat)
    requires i < |svcs|
  {
    TopGraphQL(svcs, i) && exists j | 0 <= j < |svcs| :: Behind(svcs, i, j)
  }

  // ------------------------------------------------------------------
  // Selections in the local spelling

  /** A remote name that survives being spelled as the local schema spells it, if the source is not overtaken. */
  predicate Survives(m: Source, name: Name) {
    name != [] && (m.isLatest || m.version != [] || !ProperPrefix([UNDERSCORE], name))
  }

  /** Conditions that a selection may have: none at all for a source that was overtaken, and else the names that are not
      empty; a source that has no version and is not the latest must not have names that begin with an underscore
      either. */
  predicate Restorable(ns: Name, svcs: seq<Service>, i: nat, names: set<Name>)
    requires i < |svcs|
  {
    if Overtaken(svcs, i) && svcs[i].version != [] then names == {}
    else forall c | c in names :: Survives(SourceOf(ns, svcs, i), c)
  }

  /** The versioned prefix is never undone by a mirror that takes its source for the latest. */
  lemma LongKept(m: Source, name: Name)
    requires m.isLatest
    ensures UnprefixTypeName(m, m.Long() + name) == m.version + [UNDERSCORE] + name != name
  {
    var local := m.Long() + name;
    assert local == m.Short() + (m.version + [UNDERSCORE] + name);
    assert local[..|m.Short()|] == m.Short() && local[|m.Short()|..] == m.version + [UNDERSCORE] + name;
    assert |m.version + [UNDERSCORE] + name| > |name|;
  }

  /** A selection written against the local schema reaches the remote service in the service's own names if and only if
      its type conditions are restorable. */
  lemma RemoteSeesOwnNames(ns: Name, svcs: seq<Service>, i: nat, sels: seq<Selection>)
    requires i < |svcs| && svcs[i].kind == GraphQL
    ensures var m := SourceOf(ns, svcs, i);
            RewriteAll(m, Localized(m.Local(), sels)) == sels <==> Restorable(ns, svcs, i, Conditions(sels))
  {
    var m := SourceOf(ns, svcs, i);
    forall j | 0 <= j < |svcs| && svcs[j].n > svcs[i].n
      ensures Behind(svcs, i, j)
    {
    }
    if m.isCurrent || m.version == [] {
      ShortSpellingRestored(m, sels);
      assert m.version + [UNDERSCORE] == [UNDERSCORE] || m.version != [];
    } else if m.isLatest {
      RewriteUndoes(m, m.Long(), sels);
      forall c | c in Conditions(sels)
        ensures UnprefixTypeName(m, m.Long() + c) != c
      {
        LongKept(m, c);
      }
    } else {
      LongSpellingRestored(m, sels);
    }
  }

  /** Namespace a has version v1 as GraphQL and v2 as something else: the schema says a_v1_C, and the remote service is
      asked for v1_C. */
  lemma OvertakenMisnamed()
    ensures var m := SourceOf([0x61], [Service(GraphQL, [0x76, 0x31], 1), Service(OtherKind, [0x76, 0x32], 2)], 0);
            && m.Local() + [0x43] == [0x61, 0x5F, 0x76, 0x31, 0x5F, 0x43]
            && UnprefixTypeName(m, m.Local() + [0x43]) == [0x76, 0x31, 0x5F, 0x43]
  {
    var svcs := [Service(GraphQL, [0x76, 0x31], 1), Service(OtherKind, [0x76, 0x32], 2)];
    assert Behind(svcs, 0, 1);
    LongKept(SourceOf([0x61], svcs, 0), [0x43]);
  }

  /** The field sent to the remote service is the service's own field under the name it has there, under the same
      condition. */
  lemma ForwardedField(ns: Name, svcs: seq<Service>, i: nat, field: Selection, localName: Name)
    requires i < |svcs| && svcs[i].kind == GraphQL && field.Field?
    ensures var m := SourceOf(ns, svcs, i);
            var local := LocalizedOne(m.Local(), field.(name := localName));
            && local.Field?
            && (RewriteFieldForRemote(m, local, field.name) == field
                <==> Restorable(ns, svcs, i, ConditionsOne(field)))
  {
    hide Survives, RewriteAll, Localized, Conditions;
    var m := SourceOf(ns, svcs, i);
    var local := LocalizedOne(m.Local(), field.(name := localName));
    assert local == field.(name := localName, sub := LocalizedSub(m.Local(), field.sub));
    if field.sub.Some? {
      var sels := field.sub.value.selections;
      RemoteSeesOwnNames(ns, svcs, i, sels);
      assert RewriteSub(m, local.sub) == Some(SelectionSet(RewriteAll(m, Localized(m.Local(), sels))));
      assert field.sub.value == SelectionSet(sels);
      assert ConditionsOne(field) == Conditions(sels);
    }
  }

  /** Everything but the names in the type conditions. */
  function Skeleton(sels: seq<Selection>): seq<Selection>
    decreases sels
  {
    if |sels| == 0 then [] else [SkeletonOne(sels[0])] + Skeleton(sels[1..])
  }

  function SkeletonOne(s: Selection): Selection
    decreases s
  {
    match s
    case Field(alias, name, arguments, directives, sub) =>
      Field(alias, name, arguments, directives, SkeletonSub(sub))
    case Inline(condition, directives, sub) =>
      Inline(if condition.None? then None else Some([]), directives, SkeletonSub(sub))
    case Spread(_) => s
  }

  function SkeletonSub(sub: Option<SelectionSet>): Option<SelectionSet>
    decreases sub
  {
    if sub.None? then None else Some(SelectionSet(Skeleton(sub.value.selections)))
  }

  /** Aliases, names, arguments, directives, fragments and their order survive. */
  lemma {:induction false} SkeletonKept(m: Source, sels: seq<Selection>)
    ensures Skeleton(RewriteAll(m, sels)) == Skeleton(sels)
    decreases sels
  {
    if |sels| > 0 {
      var r := RewriteAll(m, sels);
      assert r[1..] == RewriteAll(m, sels[1..]);
      SkeletonKept(m, sels[1..]);
      SkeletonKeptOne(m, sels[0]);
    }
  }

  lemma {:induction false} SkeletonKeptOne(m: Source, s: Selection)
    ensures SkeletonOne(RewriteOne(m, s)) == SkeletonOne(s)
    decreases s
  {
    match s
    case Field(_, _, _, _, sub) => SkeletonKeptSub(m, sub);
    case Inline(_, _, sub) => SkeletonKeptSub(m, sub);
    case Spread(_) =>
  }

  lemma {:induction false} SkeletonKeptSub(m: Source, sub: Option<SelectionSet>)
    ensures SkeletonSub(RewriteSub(m, sub)) == SkeletonSub(sub)
    decreases sub
  {
    if sub.Some? {
      SkeletonKept(m, sub.value.selections);
    }
  }
}
