/** Datatypes and sequence facts shared by the models. */
module Common {

  datatype Option<+T> = None | Some(value: T)

  datatype Result<+T, +E> = Ok(value: T) | Err(error: E)

  /** `sub` can be obtained from `s` by dropping elements. */
  predicate IsSubsequence<T(==)>(sub: seq<T>, s: seq<T>)
    decreases |s|
  {
    |sub| == 0
    || (|s| > 0
        && ((sub[|sub| - 1] == s[|s| - 1] && IsSubsequence(sub[..|sub| - 1], s[..|s| - 1]))
            || IsSubsequence(sub, s[..|s| - 1])))
  }

  lemma SubsequenceGrows<T>(sub: seq<T>, s: seq<T>, x: T)
    requires IsSubsequence(sub, s)
    ensures IsSubsequence(sub, s + [x]) && IsSubsequence(sub + [x], s + [x])
  {
    assert (s + [x])[..|s|] == s && (sub + [x])[..|sub|] == sub;
  }

  lemma {:induction false} SubsequencePrefix<T>(sub: seq<T>, s: seq<T>)
    requires |sub| > 0 && IsSubsequence(sub, s)
    ensures IsSubsequence(sub[..|sub| - 1], s)
    decreases |s|
  {
    var init := s[..|s| - 1];
    if IsSubsequence(sub, init) {
      SubsequencePrefix(sub, init);
    }
    SubsequenceGrows(sub[..|sub| - 1], init, s[|s| - 1]);
    assert init + [s[|s| - 1]] == s;
  }

  function Reversed<T>(s: seq<T>): seq<T> {
    if |s| == 0 then [] else Reversed(s[1..]) + [s[0]]
  }

  lemma SplitAround<T>(s: seq<T>, k: nat)
    requires k < |s|
    ensures s == s[..k] + [s[k]] + s[k + 1..]
  {}

  lemma SeqsAgree<T>(a: seq<T>, b: seq<T>)
    requires |a| == |b|
    ensures a == b <==> forall i :: 0 <= i < |a| ==> a[i] == b[i]
  {}

  lemma SomeMember(s: set<int>)
    ensures s != {} ==> exists x :: x in s
  {
    if forall x :: x !in s { assert s == {}; }
  }

  predicate IsLowest(x: int, ids: set<int>) {
    x in ids && forall y :: y in ids ==> x <= y
  }

  lemma {:induction false} HasLowest(ids: set<int>)
    requires ids != {}
    ensures exists x :: IsLowest(x, ids)
  {
    SomeMember(ids);
    var z :| z in ids;
    if y :| y in ids && y < z {
      var rest := ids - {z};
      assert y in rest;
      HasLowest(rest);
      var x :| IsLowest(x, rest);
      forall w | w in ids ensures x <= w { assert w != z ==> w in rest; }
      assert IsLowest(x, ids);
    } else {
      assert IsLowest(z, ids);
    }
  }
}
