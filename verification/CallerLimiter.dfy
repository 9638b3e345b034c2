/**
 The cap on caller labels.  Its documentation speaks of least-recently-used
 eviction; the code never evicts, so that the first callers to arrive keep their
 labels for good.
 */
module CallerLimiter {
  import opened Lists

  type Caller = string

  const OTHER: Caller := "__other__"

  // ------------------------------------------------------------------
  // Histories

  /** The callers of a history, each once, in the order of their first appearance. */
  function Distinct(history: seq<Caller>): seq<Caller> {
    if history == [] then []
    else
      var before, c := Distinct(history[..|history| - 1]), history[|history| - 1];
      if c in before then before else before + [c]
  }

  function Take(s: seq<Caller>, k: nat): seq<Caller> {
    if |s| <= k then s else s[..k]
  }

  /** The first `k` distinct callers. */
  function FirstCallers(history: seq<Caller>, k: int): seq<Caller> {
    if k <= 0 then [] else Take(Distinct(history), k)
  }

  /** The position of the last use of a caller. */
  function LastUse(history: seq<Caller>, c: Caller): nat
    requires c in history
  {
    if history[|history| - 1] == c then |history| - 1 else LastUse(history[..|history| - 1], c)
  }

  lemma {:induction false} DistinctMeaning(history: seq<Caller>)
    ensures NoDuplicates(Distinct(history))
    ensures forall c :: c in Distinct(history) <==> c in history
    decreases |history|
  {
    if history != [] {
      var init := history[..|history| - 1];
      DistinctMeaning(init);
      assert history == init + [history[|history| - 1]];
    }
  }

  // ------------------------------------------------------------------
  // The limiter

  /** The list, most recently used first, and the keys of the map. */
  datatype State = State(order: seq<Caller>, admitted: set<Caller>)

  function IndexOf(s: seq<Caller>, c: Caller): (i: nat)
    ensures i <= |s| && (i < |s| ==> s[i] == c) && (i == |s| ==> c !in s)
  {
    if s == [] then 0 else if s[0] == c then 0 else IndexOf(s[1..], c) + 1
  }

  /** The list with one element unlinked. */
  function Without(s: seq<Caller>, c: Caller): seq<Caller> {
    var i := IndexOf(s, c);
    if i < |s| then s[..i] + s[i + 1..] else s
  }

  /** Without a positive cap every caller passes and nothing is kept. */
  function After(k: int, s: State, c: Caller): State {
    if k <= 0 then s
    else if c in s.admitted then s.(order := [c] + Without(s.order, c))
    else if |s.admitted| >= k then s
    else State([c] + s.order, s.admitted + {c})
  }

  function Label(k: int, s: State, c: Caller): Caller {
    if k <= 0 || c in s.admitted || |s.admitted| < k then c else OTHER
  }

  class Limiter {
    const k: int
    var order: seq<Caller>
    var admitted: set<Caller>

    function Abs(): State
      reads this
    {
      State(order, admitted)
    }

    constructor (k: int)
      ensures this.k == k && Abs() == State([], {})
    {
      this.k := k;
      order, admitted := [], {};
    }

    method Apply(caller: Caller) returns (shown: Caller)
      modifies this
      ensures shown == Label(k, old(Abs()), caller) && Abs() == After(k, old(Abs()), caller)
    {
      if k <= 0 {
        return caller;
      }
      if caller in admitted {
        order := [caller] + Without(order, caller);
        return caller;
      }
      if |admitted| >= k {
        return OTHER;
      }
      order := [caller] + order;
      admitted := admitted + {caller};
      return caller;
    }

    /** The admitted callers, most recently used first. */
    method Snapshot() returns (out: seq<Caller>)
      ensures out == order
    {
      out := [];
      for i := 0 to |order|
        invariant out == order[..i]
      {
        out := out + [order[i]];
      }
    }
  }

  // ------------------------------------------------------------------
  // Runs

  function Run(k: int, history: seq<Caller>): State {
    if history == [] then State([], {})
    else After(k, Run(k, history[..|history| - 1]), history[|history| - 1])
  }

  /** The label given to the call at position `i`. */
  function LabelAt(k: int, history: seq<Caller>, i: nat): Caller
    requires i < |history|
  {
    Label(k, Run(k, history[..i]), history[i])
  }

  lemma {:induction false} ElementsSize(s: seq<Caller>)
    requires NoDuplicates(s)
    ensures |Elements(s)| == |s|
    decreases |s|
  {
    if s != [] {
      var init := s[..|s| - 1];
      ElementsSize(init);
      assert s == init + [s[|s| - 1]];
      assert Elements(s) == Elements(init) + {s[|s| - 1]};
      assert s[|s| - 1] !in Elements(init);
    }
  }

  lemma TakeNoDuplicates(s: seq<Caller>, k: nat)
    requires NoDuplicates(s)
    ensures NoDuplicates(Take(s, k)) && |Elements(Take(s, k))| == |Take(s, k)|
  {
    ElementsSize(Take(s, k));
  }

  /** Over every history the admitted callers are exactly the first `k` distinct ones. */
  lemma {:induction false} AdmittedAreFirst(k: int, history: seq<Caller>)
    ensures Run(k, history).admitted == Elements(FirstCallers(history, k))
    decreases |history|
  {
    if history != [] {
      var init, c := history[..|history| - 1], history[|history| - 1];
      AdmittedAreFirst(k, init);
      DistinctMeaning(init);
      var d := Distinct(init);
      if k <= 0 {
        return;
      }
      TakeNoDuplicates(d, k);
      if c in d {
        if c !in Take(d, k) {
          assert |Take(d, k)| == k;
        }
      } else {
        assert c !in Take(d, k);
        if |d| < k {
          assert Elements(d + [c]) == Elements(d) + {c} by {
            ElementsSnoc(d, c);
          }
        } else {
          assert (d + [c])[..k] == d[..k];
        }
      }
    }
  }

  /** The list and the map hold the same callers, none twice, and the list is in the order of last use. */
  predicate InOrder(history: seq<Caller>, s: State) {
    && NoDuplicates(s.order)
    && Elements(s.order) == s.admitted
    && (forall i | 0 <= i < |s.order| :: s.order[i] in history)
    && forall i, j | 0 <= i < j < |s.order| :: LastUse(history, s.order[i]) > LastUse(history, s.order[j])
  }

  lemma LastUseSnoc(history: seq<Caller>, c: Caller)
    ensures LastUse(history + [c], c) == |history|
    ensures forall x | x in history && x != c :: LastUse(history + [c], x) == LastUse(history, x)
  {
    assert (history + [c])[..|history|] == history;
  }

  lemma {:induction false} LastUseBound(history: seq<Caller>, c: Caller)
    requires c in history
    ensures LastUse(history, c) < |history|
    decreases |history|
  {
    if history[|history| - 1] != c {
      LastUseBound(history[..|history| - 1], c);
    }
  }

  lemma MovedInOrder(history: seq<Caller>, s: State, c: Caller)
    requires InOrder(history, s) && c in s.admitted
    ensures InOrder(history + [c], s.(order := [c] + Without(s.order, c)))
  {
    var at := IndexOf(s.order, c);
    assert c in s.order;
    FrontInOrder(history, s.order, s.order[..at] + s.order[at + 1..], c, at);
    FrontElements(s.order, at);
  }

  lemma FrontElements(all: seq<Caller>, at: nat)
    requires at < |all|
    ensures Elements([all[at]] + (all[..at] + all[at + 1..])) == Elements(all)
  {
    var order := [all[at]] + (all[..at] + all[at + 1..]);
    forall x | x in Elements(order) ensures x in Elements(all) {
      var i :| 0 <= i < |order| && order[i] == x;
      var j := if i == 0 then at else if i <= at then i - 1 else i;
      assert all[j] == x;
    }
    forall x | x in Elements(all) ensures x in Elements(order) {
      var j :| 0 <= j < |all| && all[j] == x;
      var i := if j == at then 0 else if j < at then j + 1 else j;
      assert order[i] == x;
    }
  }

  /** Taking one element out and putting it first keeps the order of last use, once it is the last caller. */
  lemma FrontInOrder(history: seq<Caller>, all: seq<Caller>, rest: seq<Caller>, c: Caller, at: nat)
    requires at <= |all| && NoDuplicates(all) && (at < |all| ==> all[at] == c) && (at == |all| ==> c !in all)
    requires rest == all[..at] + if at < |all| then all[at + 1..] else []
    requires forall i | 0 <= i < |all| :: all[i] in history
    requires forall i, j | 0 <= i < j < |all| :: LastUse(history, all[i]) > LastUse(history, all[j])
    ensures var order := [c] + rest;
            && NoDuplicates(order)
            && (forall i | 0 <= i < |order| :: order[i] in history + [c])
            && forall i, j | 0 <= i < j < |order| ::
                 LastUse(history + [c], order[i]) > LastUse(history + [c], order[j])
  {
    var order := [c] + rest;
    LastUseSnoc(history, c);
    forall i | 0 <= i < |rest|
      ensures rest[i] in history && rest[i] != c && rest[i] == all[if i < at then i else i + 1]
    {
    }
    forall i | 0 < i < |order|
      ensures order[i] == rest[i - 1] && LastUse(history + [c], order[i]) == LastUse(history, order[i]) < |history|
    {
      LastUseBound(history, rest[i - 1]);
    }
  }

  lemma AddedInOrder(history: seq<Caller>, s: State, c: Caller)
    requires InOrder(history, s) && c !in s.admitted
    ensures InOrder(history + [c], State([c] + s.order, s.admitted + {c}))
  {
    forall i | 0 <= i < |s.order| ensures s.order[i] != c {
      assert s.order[i] in Elements(s.order);
    }
    assert s.order[..|s.order|] + [] == s.order;
    FrontInOrder(history, s.order, s.order, c, |s.order|);
    ElementsCons(c, s.order);
  }

  lemma IgnoredInOrder(history: seq<Caller>, s: State, c: Caller)
    requires InOrder(history, s) && c !in s.admitted
    ensures InOrder(history + [c], s)
  {
    LastUseSnoc(history, c);
    forall i | 0 <= i < |s.order| ensures s.order[i] != c {
      assert s.order[i] in Elements(s.order);
    }
  }

  lemma {:induction false} RunInOrder(k: int, history: seq<Caller>)
    ensures InOrder(history, Run(k, history))
    decreases |history|
  {
    hide InOrder, Without;
    if history == [] {
      NothingInOrder();
    } else {
      var init, c := history[..|history| - 1], history[|history| - 1];
      assert history == init + [c];
      RunInOrder(k, init);
      var s := Run(k, init);
      if k <= 0 {
        RunUncapped(k, init);
        IgnoredInOrder(init, s, c);
      } else if c in s.admitted {
        MovedInOrder(init, s, c);
      } else if |s.admitted| < k {
        AddedInOrder(init, s, c);
      } else {
        IgnoredInOrder(init, s, c);
      }
    }
  }

  lemma {:induction false} RunUncapped(k: int, history: seq<Caller>)
    requires k <= 0
    ensures Run(k, history) == State([], {})
    decreases |history|
  {
    if history != [] {
      RunUncapped(k, history[..|history| - 1]);
    }
  }

  lemma NothingInOrder()
    ensures InOrder([], State([], {}))
  {
  }

  /** A call is labelled with its own caller if and only if there is no cap or that is one of the first `k` distinct
      callers of the whole history, and with the overflow label otherwise. */
  lemma LabelExactly(k: int, history: seq<Caller>, i: nat)
    requires i < |history|
    ensures LabelAt(k, history, i) == if k <= 0 || history[i] in FirstCallers(history, k) then history[i] else OTHER
  {
    var seen := history[..i + 1];
    assert seen[..i] == history[..i];
    AdmittedAreFirst(k, history[..i]);
    AdmittedAreFirst(k, seen);
    assert history[i] in FirstCallers(seen, k) <==> history[i] in Run(k, seen).admitted;
    FirstStays(k, history, i + 1, history[i]);
  }

  lemma {:induction false} DistinctGrows(history: seq<Caller>, n: nat)
    requires n <= |history|
    ensures Distinct(history[..n]) <= Distinct(history)
    decreases |history|
  {
    if n < |history| {
      var init := history[..|history| - 1];
      DistinctGrows(init, n);
      assert init[..n] == history[..n];
    } else {
      assert history[..n] == history;
    }
  }

  /** Whether a caller is among the first is settled by its first call. */
  lemma FirstStays(k: int, history: seq<Caller>, n: nat, c: Caller)
    requires n <= |history| && c in history[..n]
    ensures c in FirstCallers(history[..n], k) <==> c in FirstCallers(history, k)
  {
    var a, b := Distinct(history[..n]), Distinct(history);
    DistinctGrows(history, n);
    DistinctMeaning(history[..n]);
    DistinctMeaning(history);
    assert c in a && a <= b;
    var i :| 0 <= i < |a| && a[i] == c;
    assert b[i] == c;
    if k <= 0 {
      return;
    }
    if i < k {
      assert Take(a, k)[i] == c && Take(b, k)[i] == c;
    } else {
      assert c !in Take(a, k) && c !in Take(b, k);
    }
  }

  function Labels(k: int, history: seq<Caller>): set<Caller> {
    set i | 0 <= i < |history| :: LabelAt(k, history, i)
  }

  /** With a cap a whole run shows at most `k` callers and the overflow label; without one, exactly the callers. */
  lemma LabelsBounded(k: int, history: seq<Caller>)
    ensures k > 0 ==> |Labels(k, history)| <= k + 1
    ensures k <= 0 ==> Labels(k, history) == Elements(history)
  {
    if k > 0 {
      var first := FirstCallers(history, k);
      DistinctMeaning(history);
      TakeNoDuplicates(Distinct(history), k);
      forall x | x in Labels(k, history) ensures x in Elements(first) + {OTHER} {
        var i :| 0 <= i < |history| && LabelAt(k, history, i) == x;
        LabelExactly(k, history, i);
      }
      SubsetSize(Labels(k, history), Elements(first) + {OTHER});
    } else {
      assert forall i | 0 <= i < |history| :: LabelAt(k, history, i) == history[i];
    }
  }

  lemma {:induction false} SubsetSize(a: set<Caller>, b: set<Caller>)
    requires a <= b
    ensures |a| <= |b|
    decreases a
  {
    if a != {} {
      var x :| x in a;
      SubsetSize(a - {x}, b - {x});
    }
  }
}
