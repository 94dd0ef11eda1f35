/** The vocabulary the tree results are stated in: size, ids, and positions in a tree. */
module FluidTree {
  import opened Common
  import opened FluidExpression

  // ---- Size: the termination measure of every walk over a tree

  ghost function Sum(ns: seq<nat>): nat {
    if |ns| == 0 then 0 else ns[0] + Sum(ns[1..])
  }

  /** The number of nodes of a tree. */
  ghost function Size(e: Expr): nat
    decreases e
  {
    1 + Sum(seq(|Children(e)|, i requires 0 <= i < |Children(e)| => Size(Children(e)[i])))
  }

  ghost function Sizes(es: seq<Expr>): nat {
    if |es| == 0 then 0 else Size(es[0]) + Sizes(es[1..])
  }

  lemma {:induction false} SizesIsSum(es: seq<Expr>)
    ensures Sizes(es) == Sum(seq(|es|, i requires 0 <= i < |es| => Size(es[i])))
  {
    if |es| == 0 {
    } else {
      SizesIsSum(es[1..]);
      assert seq(|es|, i requires 0 <= i < |es| => Size(es[i]))[1..]
          == seq(|es[1..]|, i requires 0 <= i < |es[1..]| => Size(es[1..][i]));
    }
  }

  lemma {:induction false} SizeOfNode(e: Expr)
    ensures Size(e) == 1 + Sizes(Children(e))
  {
    SizesIsSum(Children(e));
    assert seq(|Children(e)|, i requires 0 <= i < |Children(e)| => Size(Children(e)[i]))
        == (var cs := Children(e); seq(|cs|, i requires 0 <= i < |cs| => Size(cs[i])));
  }

  lemma {:induction false} SizeOfMember(es: seq<Expr>, k: nat)
    requires k < |es|
    ensures Size(es[k]) <= Sizes(es)
  {
    if k > 0 { SizeOfMember(es[1..], k - 1); }
  }

  lemma {:induction false} SizeOfChild(e: Expr, k: nat)
    requires k < |Children(e)|
    ensures Size(Children(e)[k]) < Size(e)
  {
    SizeOfNode(e);
    SizeOfMember(Children(e), k);
  }

  // ---- Ids

  /** The expression ids of a tree, with multiplicity. */
  ghost function Ids(e: Expr): multiset<Id>
    decreases Size(e), 0
  {
    SizeOfNode(e);
    multiset{e.id} + IdsOfAll(Children(e))
  }

  ghost function IdsOfAll(es: seq<Expr>): multiset<Id>
    decreases Sizes(es), 1
  {
    if |es| == 0 then multiset{} else Ids(es[0]) + IdsOfAll(es[1..])
  }

  ghost predicate UniqueIds(e: Expr) {
    forall x :: Ids(e)[x] <= 1
  }

  ghost predicate UniqueIdsInAll(es: seq<Expr>) {
    forall x :: IdsOfAll(es)[x] <= 1
  }

  lemma MultisetsRegroup(a: multiset<Id>, b: multiset<Id>, c: multiset<Id>)
    ensures a + (b + c) == (a + b) + c
  {}

  /** Exchanging one part of a sum. */
  lemma MultisetsExchange(
    a: multiset<Id>, m: multiset<Id>, n: multiset<Id>, b: multiset<Id>, out: multiset<Id>, in_: multiset<Id>)
    requires n + out == m + in_
    ensures (a + n + b) + out == (a + m + b) + in_
  {
    forall x ensures ((a + n + b) + out)[x] == ((a + m + b) + in_)[x] {
      assert (n + out)[x] == (m + in_)[x];
    }
  }

  lemma {:induction false} IdsOfConcat(a: seq<Expr>, b: seq<Expr>)
    ensures IdsOfAll(a + b) == IdsOfAll(a) + IdsOfAll(b)
  {
    if |a| == 0 {
      assert a + b == b;
    } else {
      assert (a + b)[0] == a[0] && (a + b)[1..] == a[1..] + b;
      IdsOfConcat(a[1..], b);
      MultisetsRegroup(Ids(a[0]), IdsOfAll(a[1..]), IdsOfAll(b));
    }
  }

  lemma {:induction false} IdsOfMember(es: seq<Expr>, k: nat)
    requires k < |es|
    ensures IdsOfAll(es) == IdsOfAll(es[..k]) + Ids(es[k]) + IdsOfAll(es[k + 1..])
  {
    assert es == es[..k] + ([es[k]] + es[k + 1..]);
    IdsOfConcat(es[..k], [es[k]] + es[k + 1..]);
    assert ([es[k]] + es[k + 1..])[1..] == es[k + 1..];
  }

  lemma {:induction false} IdsOfChild(e: Expr, k: nat)
    requires k < |Children(e)|
    ensures Ids(Children(e)[k]) <= Ids(e)
    ensures UniqueIds(e) ==> UniqueIds(Children(e)[k])
    ensures UniqueIds(e) ==> e.id !in Ids(Children(e)[k])
  {
    IdsOfMember(Children(e), k);
    if UniqueIds(e) {
      assert forall x :: Ids(Children(e)[k])[x] <= Ids(e)[x];
      assert Ids(e)[e.id] <= 1;
    }
  }

  /** Two different subexpressions of a node with unique ids share no id. */
  lemma {:induction false} SiblingsShareNoId(es: seq<Expr>, j: nat, k: nat, x: Id)
    requires j < |es| && k < |es| && j != k
    requires UniqueIdsInAll(es)
    requires x in Ids(es[j])
    ensures x !in Ids(es[k])
  {
    if j > k {
      if x in Ids(es[k]) { SiblingsShareNoId(es, k, j, x); }
    } else {
      IdsOfMember(es, j);
      IdsOfMember(es[j + 1..], k - j - 1);
      assert es[j + 1..][k - j - 1] == es[k];
      assert IdsOfAll(es)[x] <= 1;
    }
  }

  lemma {:induction false} ChildrenUnique(e: Expr)
    requires UniqueIds(e)
    ensures UniqueIdsInAll(Children(e))
  {
    forall x ensures IdsOfAll(Children(e))[x] <= 1 {
      assert Ids(e)[x] <= 1;
    }
  }

  // ---- Positions

  /** A position: the index of the subexpression to descend into, level by level. */
  type Path = seq<nat>

  ghost predicate IsPath(e: Expr, p: Path)
    decreases |p|
  {
    |p| > 0 ==> p[0] < |Children(e)| && IsPath(Children(e)[p[0]], p[1..])
  }

  ghost function SubtreeAt(e: Expr, p: Path): Expr
    requires IsPath(e, p)
    decreases |p|
  {
    if |p| == 0 then e else SubtreeAt(Children(e)[p[0]], p[1..])
  }

  /** `e` with the subtree at `p` exchanged for `x`, everything else untouched. */
  ghost function ReplaceAt(e: Expr, p: Path, x: Expr): Expr
    requires IsPath(e, p)
    decreases |p|
  {
    if |p| == 0 then x
    else WithChildren(e, Children(e)[p[0] := ReplaceAt(Children(e)[p[0]], p[1..], x)])
  }

  lemma {:induction false} IdsAlongPath(e: Expr, p: Path)
    requires IsPath(e, p)
    ensures Ids(SubtreeAt(e, p)) <= Ids(e)
    decreases |p|
  {
    if |p| == 0 {
    } else {
      IdsOfChild(e, p[0]);
      IdsAlongPath(Children(e)[p[0]], p[1..]);
    }
  }

  lemma {:induction false} PrefixIsPath(e: Expr, p: Path, n: nat)
    requires IsPath(e, p) && n <= |p|
    ensures IsPath(e, p[..n])
    decreases |p|
  {
    if n > 0 {
      PrefixIsPath(Children(e)[p[0]], p[1..], n - 1);
      assert p[..n][1..] == p[1..][..n - 1];
    }
  }

  lemma {:induction false} PathExtends(e: Expr, p: Path, k: nat)
    requires IsPath(e, p) && k < |Children(SubtreeAt(e, p))|
    ensures IsPath(e, p + [k]) && SubtreeAt(e, p + [k]) == Children(SubtreeAt(e, p))[k]
    decreases |p|
  {
    if |p| > 0 {
      PathExtends(Children(e)[p[0]], p[1..], k);
      assert (p + [k])[1..] == p[1..] + [k];
    } else {
      assert (p + [k])[1..] == [];
    }
  }

  // ---- Where an id is

  /** The first position, in depth-first order, of a node with id `target`. */
  ghost function Locate(target: Id, e: Expr): (r: Option<Path>)
    ensures r.Some? ==> IsPath(e, r.value) && SubtreeAt(e, r.value).id == target
    ensures r.Some? <==> target in Ids(e)
    decreases Size(e), 0
  {
    SizeOfNode(e);
    if e.id == target then Some([]) else LocateInAll(target, Children(e))
  }

  ghost function LocateInAll(target: Id, es: seq<Expr>): (r: Option<Path>)
    ensures r.Some? ==> |r.value| > 0 && r.value[0] < |es|
                        && IsPath(es[r.value[0]], r.value[1..])
                        && SubtreeAt(es[r.value[0]], r.value[1..]).id == target
    ensures r.Some? <==> target in IdsOfAll(es)
    decreases Sizes(es), 1
  {
    if |es| == 0 then None
    else match Locate(target, es[0])
      case Some(p) =>
        assert ([0] + p)[1..] == p;
        Some([0] + p)
      case None =>
        match LocateInAll(target, es[1..])
        case Some(p) =>
          assert ([p[0] + 1] + p[1..])[1..] == p[1..];
          Some([p[0] + 1] + p[1..])
        case None => None
  }

  /** With unique ids there is only one position for an id. */
  lemma {:induction false} LocateIsUnique(target: Id, e: Expr, p: Path)
    requires UniqueIds(e)
    requires IsPath(e, p) && SubtreeAt(e, p).id == target
    ensures Locate(target, e) == Some(p)
    decreases |p|
  {
    if |p| == 0 {
    } else {
      var k := p[0];
      IdsOfChild(e, k);
      IdsAlongPath(Children(e)[k], p[1..]);
      ChildrenUnique(e);
      LocateIsUnique(target, Children(e)[k], p[1..]);
      LocateInMember(target, Children(e), k);
      assert p == [k] + p[1..];
    }
  }

  lemma {:induction false} LocateInMember(target: Id, es: seq<Expr>, k: nat)
    requires UniqueIdsInAll(es)
    requires k < |es| && Locate(target, es[k]).Some?
    ensures LocateInAll(target, es) == Some([k] + Locate(target, es[k]).value)
  {
    if k > 0 {
      SiblingsShareNoId(es, k, 0, target);
      forall x ensures IdsOfAll(es[1..])[x] <= 1 { assert IdsOfAll(es)[x] <= 1; }
      LocateInMember(target, es[1..], k - 1);
      var q := Locate(target, es[k]).value;
      assert ([k - 1] + q)[1..] == q;
    }
  }

  lemma {:induction false} IdsOfExchange(es: seq<Expr>, k: nat, y: Expr, out: multiset<Id>, in_: multiset<Id>)
    requires k < |es| && Ids(y) + out == Ids(es[k]) + in_
    ensures IdsOfAll(es[k := y]) + out == IdsOfAll(es) + in_
  {
    var fs := es[k := y];
    IdsOfMember(es, k);
    IdsOfMember(fs, k);
    assert fs[..k] == es[..k] && fs[k + 1..] == es[k + 1..];
    MultisetsExchange(IdsOfAll(es[..k]), Ids(es[k]), Ids(y), IdsOfAll(es[k + 1..]), out, in_);
  }

  lemma {:induction false} IdsOfRebuilt(e: Expr, r: Expr, k: nat, y: Expr, out: multiset<Id>, in_: multiset<Id>)
    requires k < |Children(e)| && r.id == e.id && Children(r) == Children(e)[k := y]
    requires Ids(y) + out == Ids(Children(e)[k]) + in_
    ensures Ids(r) + out == Ids(e) + in_
  {
    IdsOfExchange(Children(e), k, y, out, in_);
    MultisetsExchange(multiset{e.id}, IdsOfAll(Children(e)), IdsOfAll(Children(r)), multiset{}, out, in_);
    assert Ids(e) == multiset{e.id} + IdsOfAll(Children(e)) + multiset{};
    assert Ids(r) == multiset{e.id} + IdsOfAll(Children(r)) + multiset{};
  }

  /** Exchanging a subtree exchanges its ids and no others. */
  lemma {:induction false} IdsOfReplaceAt(e: Expr, p: Path, x: Expr)
    requires IsPath(e, p)
    ensures Ids(ReplaceAt(e, p, x)) + Ids(SubtreeAt(e, p)) == Ids(e) + Ids(x)
    decreases |p|
  {
    if |p| == 0 {
    } else {
      var k, cs := p[0], Children(e);
      var y := ReplaceAt(cs[k], p[1..], x);
      IdsOfReplaceAt(cs[k], p[1..], x);
      IdsOfRebuilt(e, WithChildren(e, cs[k := y]), k, y, Ids(SubtreeAt(e, p)), Ids(x));
    }
  }
}
