/** Sequences of strings as sets. */
module Lists {

  function Elements(s: seq<string>): set<string> {
    set i | 0 <= i < |s| :: s[i]
  }

  predicate NoDuplicates(s: seq<string>) {
    forall i, j | 0 <= i < j < |s| :: s[i] != s[j]
  }

  lemma ElementsCons(k: string, s: seq<string>)
    ensures Elements([k] + s) == {k} + Elements(s)
  {
    forall x | x in {k} + Elements(s) ensures x in Elements([k] + s) {
      if x == k {
        assert ([k] + s)[0] == k;
      } else {
        var i :| 0 <= i < |s| && s[i] == x;
        assert ([k] + s)[i + 1] == x;
      }
    }
    forall x | x in Elements([k] + s) ensures x in {k} + Elements(s) {
      var i :| 0 <= i < |s| + 1 && ([k] + s)[i] == x;
      if i > 0 {
        assert s[i - 1] == x;
      }
    }
  }

  lemma ElementsSnoc(s: seq<string>, k: string)
    ensures Elements(s + [k]) == Elements(s) + {k}
  {
    forall x | x in Elements(s) + {k} ensures x in Elements(s + [k]) {
      if x == k {
        assert (s + [k])[|s|] == k;
      } else {
        var i :| 0 <= i < |s| && s[i] == x;
        assert (s + [k])[i] == x;
      }
    }
  }

  lemma DistinctSnoc(s: seq<string>, k: string)
    requires NoDuplicates(s) && k !in Elements(s)
    ensures NoDuplicates(s + [k])
  {
    assert forall i | 0 <= i < |s| :: s[i] in Elements(s);
  }
}
