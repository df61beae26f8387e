/** What several of the models need. */
module Common {
  datatype Option<T> = None | Some(value: T)

  /**
    Names a pair of positions of a sequence, so that facts about two positions are used only where a proof asks for
    them.
   */
  predicate Pair(i: int, j: int) { i < j }

  predicate NoDup<T(==)>(s: seq<T>) {
    forall i, j {:trigger Pair(i, j)} | 0 <= i < j < |s| && Pair(i, j) :: s[i] != s[j]
  }

  lemma Differ<T>(s: seq<T>, i: nat, j: nat)
    requires NoDup(s) && i < |s| && j < |s| && i != j
    ensures s[i] != s[j]
  {
    assert Pair(i, j) || Pair(j, i);
  }

  lemma NoDupTail<T>(s: seq<T>)
    requires NoDup(s) && s != []
    ensures NoDup(s[1..]) && s[0] !in s[1..]
  {
    forall i | 0 <= i < |s[1..]| ensures s[0] != s[1..][i] { assert Pair(0, i + 1); }
    forall i, j | 0 <= i < j < |s[1..]| && Pair(i, j) ensures s[1..][i] != s[1..][j] { assert Pair(i + 1, j + 1); }
  }

  lemma NoDupParts<T>(a: seq<T>, b: seq<T>)
    requires NoDup(a + b)
    ensures NoDup(a) && NoDup(b) && forall x | x in a :: x !in b
  {
    var s := a + b;
    forall i, j | 0 <= i < j < |a| && Pair(i, j) ensures a[i] != a[j] { assert s[i] == a[i] && s[j] == a[j]; }
    forall i, j | 0 <= i < j < |b| && Pair(i, j) ensures b[i] != b[j] { assert Pair(|a| + i, |a| + j); }
    forall i, j | 0 <= i < |a| && 0 <= j < |b| ensures a[i] != b[j] { assert Pair(i, |a| + j) && s[|a| + j] == b[j]; }
  }

  lemma NoDupJoin<T>(a: seq<T>, b: seq<T>)
    requires NoDup(a) && NoDup(b) && forall x | x in a :: x !in b
    ensures NoDup(a + b)
  {
    var s := a + b;
    forall i, j | 0 <= i < j < |s| && Pair(i, j) ensures s[i] != s[j] {
      if j < |a| {
        assert s[i] == a[i] && s[j] == a[j];
      } else if |a| <= i {
        assert Pair(i - |a|, j - |a|);
      } else {
        assert s[i] in a && s[j] in b;
      }
    }
  }
}
