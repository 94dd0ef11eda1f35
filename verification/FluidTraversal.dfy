/** The whole-tree walks of FluidExpression.ml. */
module FluidTraversal {
  import opened Common
  import opened FluidExpression
  import opened FluidTree
  import opened FluidEdit

  ghost predicate NeverGrows(f: Expr -> Expr) {
    forall e :: Size(f(e)) <= Size(e)
  }

  /** preTraversal calls `f` on a node and then descends into the result, so it ends
      only because `f` never makes a tree larger; neither does the traversal. */
  function PreTraversal(f: Expr -> Expr, e: Expr): (r: Expr)
    requires NeverGrows(f)
    ensures Size(r) <= Size(e)
    decreases Size(e)
  {
    var e' := f(e);
    var cs := Children(e');
    var ds := seq(|cs|, i requires 0 <= i < |cs| =>
                        (SizeOfChild(e', i); assert Size(e') <= Size(e); PreTraversal(f, cs[i])));
    SizesMonotone(ds, cs);
    SizeOfNode(e');
    SizeOfNode(WithChildren(e', ds));
    WithChildren(e', ds)
  }

  lemma {:induction false} SizesMonotone(ds: seq<Expr>, cs: seq<Expr>)
    requires |ds| == |cs| && forall i :: 0 <= i < |cs| ==> Size(ds[i]) <= Size(cs[i])
    ensures Sizes(ds) <= Sizes(cs)
  {
    if |cs| == 0 {
    } else {
      SizesMonotone(ds[1..], cs[1..]);
    }
  }

  /** postTraversal rebuilds the subexpressions first and calls `f` on the result. */
  function PostTraversal(f: Expr -> Expr, e: Expr): Expr
    decreases e
  {
    var cs := Children(e);
    f(WithChildren(e, seq(|cs|, i requires 0 <= i < |cs| => PostTraversal(f, cs[i]))))
  }

  /** `f` only rewrites nodes without subexpressions, and into such nodes. */
  ghost predicate RewritesLeaves(f: Expr -> Expr) {
    forall e :: if |Children(e)| == 0 then |Children(f(e))| == 0 else f(e) == e
  }

  lemma {:induction false} LeafRewritesNeverGrow(f: Expr -> Expr)
    requires RewritesLeaves(f)
    ensures NeverGrows(f)
  {
    forall e ensures Size(f(e)) <= Size(e) {
      SizeOfNode(e);
      SizeOfNode(f(e));
      assert if |Children(e)| == 0 then |Children(f(e))| == 0 else f(e) == e;
    }
  }

  /** For a rewrite of leaves the two traversals give the same tree. */
  lemma {:induction false} TraversalsAgreeOnLeafRewrites(f: Expr -> Expr, e: Expr)
    requires RewritesLeaves(f) && NeverGrows(f)
    ensures PreTraversal(f, e) == PostTraversal(f, e)
    decreases e
  {
    var cs := Children(e);
    if |cs| == 0 {
      LeafOfPre(f, e);
      LeafOfPost(f, e);
    } else {
      forall i | 0 <= i < |cs| ensures PreTraversal(f, cs[i]) == PostTraversal(f, cs[i]) {
        TraversalsAgreeOnLeafRewrites(f, cs[i]);
      }
      var ds := seq(|cs|, i requires 0 <= i < |cs| => PreTraversal(f, cs[i]));
      PreOfInner(f, e);
      assert ds == seq(|cs|, i requires 0 <= i < |cs| => PostTraversal(f, cs[i]));
      InnerIsKept(f, WithChildren(e, ds));
    }
  }

  lemma InnerIsKept(f: Expr -> Expr, e: Expr)
    requires RewritesLeaves(f) && |Children(e)| > 0
    ensures f(e) == e
  {}

  lemma {:induction false} LeafOfPre(f: Expr -> Expr, e: Expr)
    requires RewritesLeaves(f) && NeverGrows(f) && |Children(e)| == 0
    ensures PreTraversal(f, e) == f(e)
  {
    assert |Children(f(e))| == 0;
    WithOwnChildren(f(e));
  }

  lemma {:induction false} LeafOfPost(f: Expr -> Expr, e: Expr)
    requires |Children(e)| == 0
    ensures PostTraversal(f, e) == f(e)
  {
    var cs := Children(e);
    assert seq(|cs|, i requires 0 <= i < |cs| => PostTraversal(f, cs[i])) == cs;
    WithOwnChildren(e);
  }

  lemma {:induction false} PreOfInner(f: Expr -> Expr, e: Expr)
    requires NeverGrows(f) && RewritesLeaves(f) && |Children(e)| > 0
    ensures var cs := Children(e);
            PreTraversal(f, e) == WithChildren(e, seq(|cs|, i requires 0 <= i < |cs| => PreTraversal(f, cs[i])))
  {
    InnerIsKept(f, e);
    var cs := Children(e);
    var r := PreTraversal(f, e);
    assert Children(r) == seq(|cs|, i requires 0 <= i < |cs| => PreTraversal(f, cs[i]));
  }

  // ---- Every node is met

  /** `f` changes a node but not its subexpressions. */
  ghost predicate KeepsSubexpressions(f: Expr -> Expr) {
    forall e :: Children(f(e)) == Children(e)
  }

  lemma {:induction false} KeepersNeverGrow(f: Expr -> Expr)
    requires KeepsSubexpressions(f)
    ensures NeverGrows(f)
  {
    forall e ensures Size(f(e)) <= Size(e) {
      assert Children(f(e)) == Children(e);
      SizeOfNode(e);
      SizeOfNode(f(e));
    }
  }

  /** The node `r` is `node` with other subexpressions. */
  ghost predicate IsNode(r: Expr, node: Expr) {
    |Children(r)| == |Children(node)| && r == WithChildren(node, Children(r))
  }

  /** Pre-order: going down, the result has at each position what `f` makes of the node there. */
  lemma {:induction false} PreTraversalMeetsEveryNode(f: Expr -> Expr, e: Expr, p: Path)
    requires NeverGrows(f) && KeepsSubexpressions(f) && IsPath(e, p)
    ensures IsPath(PreTraversal(f, e), p)
    ensures IsNode(SubtreeAt(PreTraversal(f, e), p), f(SubtreeAt(e, p)))
    decreases |p|
  {
    var r := PreTraversal(f, e);
    assert Children(f(e)) == Children(e);
    assert |Children(r)| == |Children(e)|;
    if |p| == 0 {
    } else {
      assert Children(r)[p[0]] == PreTraversal(f, Children(e)[p[0]]);
      PreTraversalMeetsEveryNode(f, Children(e)[p[0]], p[1..]);
    }
  }

  /** Post-order: coming up, `f` is given the node there with its subexpressions done. */
  lemma {:induction false} PostTraversalMeetsEveryNode(f: Expr -> Expr, e: Expr, p: Path)
    requires KeepsSubexpressions(f) && IsPath(e, p)
    ensures IsPath(PostTraversal(f, e), p)
    ensures var r := SubtreeAt(PostTraversal(f, e), p);
            |Children(r)| == |Children(SubtreeAt(e, p))| && r == f(WithChildren(SubtreeAt(e, p), Children(r)))
    decreases |p|
  {
    var cs := Children(e);
    var ds := seq(|cs|, i requires 0 <= i < |cs| => PostTraversal(f, cs[i]));
    var r := PostTraversal(f, e);
    assert r == f(WithChildren(e, ds)) && Children(r) == ds;
    if |p| == 0 {
    } else {
      PostTraversalMeetsEveryNode(f, cs[p[0]], p[1..]);
    }
  }

  // ---- Walks that collect into a ref

  /** What `f` yields over a tree, with multiplicity. */
  ghost function Yield<A>(f: Expr -> Option<A>, e: Expr): multiset<A>
    decreases Size(e), 0
  {
    SizeOfNode(e);
    (match f(e) case Some(a) => multiset{a} case None => multiset{}) + YieldOfAll(f, Children(e))
  }

  ghost function YieldOfAll<A>(f: Expr -> Option<A>, es: seq<Expr>): multiset<A>
    decreases Sizes(es), 1
  {
    if |es| == 0 then multiset{} else Yield(f, es[0]) + YieldOfAll(f, es[1..])
  }

  /** filterMap's inner walk: results go to the front of the ref, node before children;
      the tree it rebuilds is the tree it was given. */
  method MyWalk<A>(f: Expr -> Option<A>, e: Expr, results: Ref<seq<A>>) returns (r: Expr)
    modifies results
    ensures r == e
    ensures multiset(results.value) == multiset(old(results.value)) + Yield(f, e)
    decreases Size(e), 0
  {
    SizeOfNode(e);
    match f(e) {
      case Some(a) => results.value := [a] + results.value;
      case None =>
    }
    var ds := MyWalkOnAll(f, Children(e), results);
    WithOwnChildren(e);
    r := WithChildren(e, ds);
  }

  method MyWalkOnAll<A>(f: Expr -> Option<A>, es: seq<Expr>, results: Ref<seq<A>>) returns (rs: seq<Expr>)
    modifies results
    ensures rs == es
    ensures multiset(results.value) == multiset(old(results.value)) + YieldOfAll(f, es)
    decreases Sizes(es), 1
  {
    if |es| == 0 {
      rs := [];
    } else {
      var r := MyWalk(f, es[0], results);
      var rest := MyWalkOnAll(f, es[1..], results);
      rs := [r] + rest;
    }
  }

  lemma {:induction false} ReversedKeepsElements<A>(s: seq<A>)
    ensures multiset(Reversed(s)) == multiset(s)
  {
    if |s| == 0 {
    } else {
      ReversedKeepsElements(s[1..]);
      assert s == [s[0]] + s[1..];
    }
  }

  /** filterMap keeps every result of `f` over the tree, once per node. */
  method FilterMap<A>(f: Expr -> Option<A>, e: Expr) returns (collected: seq<A>)
    ensures multiset(collected) == Yield(f, e)
  {
    var results := new Ref([]);
    var _ := MyWalk(f, e, results);
    ReversedKeepsElements(results.value);
    collected := Reversed(results.value);
  }

  /** ids: the id of every node. */
  method IdList(ast: Expr) returns (collected: seq<Id>)
    ensures multiset(collected) == Ids(ast)
  {
    var f := (e: Expr) => Some(e.id);
    YieldOfIds(f, ast);
    collected := FilterMap(f, ast);
  }

  lemma {:induction false} YieldOfIds(f: Expr -> Option<Id>, e: Expr)
    requires forall x :: f(x) == Some(x.id)
    ensures Yield(f, e) == Ids(e)
    decreases Size(e), 0
  {
    SizeOfNode(e);
    YieldOfIdsOfAll(f, Children(e));
  }

  lemma {:induction false} YieldOfIdsOfAll(f: Expr -> Option<Id>, es: seq<Expr>)
    requires forall x :: f(x) == Some(x.id)
    ensures YieldOfAll(f, es) == IdsOfAll(es)
    decreases Sizes(es), 1
  {
    if |es| == 0 {
    } else {
      YieldOfIds(f, es[0]);
      YieldOfIdsOfAll(f, es[1..]);
    }
  }

  /** decendants: a preTraversal whose `f` records the node's id and returns the node.
      It records the root as well, so it collects the same ids as `ids`. */
  method Decendants(e: Expr) returns (res: seq<Id>)
    ensures multiset(res) == Ids(e)
  {
    var ref_ := new Ref([]);
    var _ := RecordIds(e, ref_);
    res := ref_.value;
  }

  method RecordIds(e: Expr, res: Ref<seq<Id>>) returns (r: Expr)
    modifies res
    ensures r == e
    ensures multiset(res.value) == multiset(old(res.value)) + Ids(e)
    decreases Size(e), 0
  {
    SizeOfNode(e);
    res.value := [e.id] + res.value;
    var ds := RecordIdsOfAll(Children(e), res);
    WithOwnChildren(e);
    r := WithChildren(e, ds);
  }

  method RecordIdsOfAll(es: seq<Expr>, res: Ref<seq<Id>>) returns (rs: seq<Expr>)
    modifies res
    ensures rs == es
    ensures multiset(res.value) == multiset(old(res.value)) + IdsOfAll(es)
    decreases Sizes(es), 1
  {
    if |es| == 0 {
      rs := [];
    } else {
      var r := RecordIds(es[0], res);
      var rest := RecordIdsOfAll(es[1..], res);
      rs := [r] + rest;
    }
  }
}
