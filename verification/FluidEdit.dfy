/** update and replace (FluidExpression.ml): targeted edits and what they leave alone. */
module FluidEdit {
  import opened Common
  import opened FluidExpression
  import opened FluidTree
  import opened FluidSearch

  /** An OCaml `ref`. */
  class Ref<T> {
    var value: T

    constructor (v: T)
      ensures value == v
    {
      value := v;
    }
  }

  /** The tree update returns: the outermost nodes with id `target` go through `f`. */
  function Updated(f: Expr -> Expr, target: Id, e: Expr): Expr
    decreases e
  {
    if e.id == target then f(e)
    else
      var cs := Children(e);
      WithChildren(e, seq(|cs|, i requires 0 <= i < |cs| => Updated(f, target, cs[i])))
  }

  /** The recursive walk inside update; it records in `found` whether it met the target. */
  method Run(f: Expr -> Expr, target: Id, e: Expr, found: Ref<bool>) returns (r: Expr)
    modifies found
    ensures r == Updated(f, target, e)
    ensures found.value == (old(found.value) || target in Ids(e))
    decreases Size(e), 0
  {
    SizeOfNode(e);
    if e.id == target {
      found.value := true;
      r := f(e);
    } else {
      var cs := Children(e);
      var ds := RunOnAll(f, target, cs, found);
      assert ds == seq(|cs|, i requires 0 <= i < |cs| => Updated(f, target, cs[i]));
      r := WithChildren(e, ds);
    }
  }

  method RunOnAll(f: Expr -> Expr, target: Id, es: seq<Expr>, found: Ref<bool>) returns (rs: seq<Expr>)
    modifies found
    ensures |rs| == |es| && forall i :: 0 <= i < |es| ==> rs[i] == Updated(f, target, es[i])
    ensures found.value == (old(found.value) || target in IdsOfAll(es))
    decreases Sizes(es), 1
  {
    if |es| == 0 {
      rs := [];
    } else {
      var r := Run(f, target, es[0], found);
      var rest := RunOnAll(f, target, es[1..], found);
      rs := [r] + rest;
    }
  }

  /** update: `reported` tells whether the missing target is reported as an error. */
  method Update(failIfMissing: bool, f: Expr -> Expr, target: Id, ast: Expr)
    returns (finished: Expr, reported: bool)
    ensures finished == Updated(f, target, ast)
    ensures reported <==> failIfMissing && target !in Ids(ast)
  {
    var found := new Ref(false);
    finished := Run(f, target, ast, found);
    reported := failIfMissing && !found.value;
  }

  /** A missing target leaves the tree as it is. */
  lemma {:induction false} UpdateOfMissing(f: Expr -> Expr, target: Id, e: Expr)
    requires target !in Ids(e)
    ensures Updated(f, target, e) == e
    decreases e
  {
    var cs := Children(e);
    forall i | 0 <= i < |cs| ensures Updated(f, target, cs[i]) == cs[i] {
      IdsOfChild(e, i);
      UpdateOfMissing(f, target, cs[i]);
    }
    assert seq(|cs|, i requires 0 <= i < |cs| => Updated(f, target, cs[i])) == cs;
    WithOwnChildren(e);
  }

  /** With unique ids update exchanges exactly the subtree at the target's position. */
  lemma {:induction false} UpdateAtPosition(f: Expr -> Expr, target: Id, e: Expr, p: Path)
    requires UniqueIds(e) && IsPath(e, p) && SubtreeAt(e, p).id == target
    ensures Updated(f, target, e) == ReplaceAt(e, p, f(SubtreeAt(e, p)))
    decreases |p|
  {
    if |p| == 0 {
    } else {
      var cs, k := Children(e), p[0];
      ChildrenUnique(e);
      IdsOfChild(e, k);
      IdsAlongPath(cs[k], p[1..]);
      UpdateAtPosition(f, target, cs[k], p[1..]);
      forall i | 0 <= i < |cs| && i != k ensures Updated(f, target, cs[i]) == cs[i] {
        SiblingsShareNoId(cs, k, i, target);
        UpdateOfMissing(f, target, cs[i]);
      }
      assert seq(|cs|, i requires 0 <= i < |cs| => Updated(f, target, cs[i]))
          == cs[k := ReplaceAt(cs[k], p[1..], f(SubtreeAt(e, p)))];
    }
  }

  // ---- replace

  /** How many leading expressions do not have id `target` (List.splitWhen). */
  function CountBefore(target: Id, es: seq<Expr>): (k: nat)
    ensures k <= |es|
    ensures forall i :: 0 <= i < k ==> es[i].id != target
    ensures k < |es| ==> es[k].id == target
  {
    if |es| == 0 || es[0].id == target then 0 else 1 + CountBefore(target, es[1..])
  }

  /** The elements of a pipe with the element `target` exchanged for `news`. */
  function Spliced(target: Id, olds: seq<Expr>, news: seq<Expr>): seq<Expr> {
    var k := CountBefore(target, olds);
    var elemAndAfter := olds[k..];
    olds[..k] + news + (if |elemAndAfter| == 0 then [] else elemAndAfter[1..])
  }

  function Constantly(x: Expr): Expr -> Expr { _ => x }

  /** replace: a pipe put in a pipe's element place is spliced into the outer pipe. */
  function Replace(replacement: Expr, target: Id, ast: Expr): Expr {
    var (target', newExpr') :=
      match (FindParent(target, ast), replacement)
      case (Some(EPipe(parentID, oldExprs)), EPipe(newID, newExprs)) =>
        (parentID, EPipe(newID, Spliced(target, oldExprs, newExprs)))
      case _ => (target, replacement);
    Updated(Constantly(newExpr'), target', ast)
  }

  /** The outer pipe after splicing at its `k`-th element: the other elements stay in
      place and the new elements stand, in order, where the target was. */
  ghost function SplicedPipe(replacement: Expr, parent: Expr, k: nat): Expr
    requires replacement.EPipe? && parent.EPipe? && k < |parent.exprs|
  {
    EPipe(replacement.id, parent.exprs[..k] + replacement.exprs + parent.exprs[k + 1..])
  }

  lemma {:induction false} OnlyElementWithId(es: seq<Expr>, k: nat, target: Id)
    requires UniqueIdsInAll(es) && k < |es| && es[k].id == target
    ensures CountBefore(target, es) == k
  {
    var j := CountBefore(target, es);
    assert target in Ids(es[k]);
    if j < k {
      assert target in Ids(es[j]);
      SiblingsShareNoId(es, k, j, target);
    }
  }

  lemma {:induction false} UniqueIdsAtPosition(e: Expr, p: Path)
    requires UniqueIds(e) && IsPath(e, p)
    ensures UniqueIds(SubtreeAt(e, p))
  {
    IdsAlongPath(e, p);
    forall x ensures Ids(SubtreeAt(e, p))[x] <= 1 { assert Ids(e)[x] <= 1; }
  }

  /** A missing target leaves any tree unchanged, unique ids or not. */
  lemma ReplaceOfMissing(replacement: Expr, target: Id, ast: Expr)
    requires target !in Ids(ast)
    ensures Replace(replacement, target, ast) == ast
  {
    FindParentReturnsParentOfLocated(target, ast);
    UpdateOfMissing(Constantly(replacement), target, ast);
  }

  /** replace changes the target subtree and nothing else, ... */
  lemma {:induction false} ReplaceExchanges(replacement: Expr, target: Id, ast: Expr, p: Path)
    requires UniqueIds(ast) && IsPath(ast, p) && SubtreeAt(ast, p).id == target
    requires !replacement.EPipe? || |p| == 0 || !ParentAt(ast, p).EPipe?
    ensures Replace(replacement, target, ast) == ReplaceAt(ast, p, replacement)
  {
    LocateIsUnique(target, ast, p);
    FindParentReturnsParentOfLocated(target, ast);
    UpdateAtPosition(Constantly(replacement), target, ast, p);
  }

  /** ... except that a pipe replacing element `k` of the pipe at `q` is spliced in. */
  lemma {:induction false} ReplaceSplices(replacement: Expr, target: Id, ast: Expr, q: Path, k: nat)
    requires UniqueIds(ast) && IsPath(ast, q) && replacement.EPipe?
    requires SubtreeAt(ast, q).EPipe? && k < |SubtreeAt(ast, q).exprs|
    requires SubtreeAt(ast, q).exprs[k].id == target
    ensures Replace(replacement, target, ast)
         == ReplaceAt(ast, q, SplicedPipe(replacement, SubtreeAt(ast, q), k))
  {
    var parent := SubtreeAt(ast, q);
    UniqueIdsAtPosition(ast, q);
    ChildrenUnique(parent);
    OnlyElementWithId(parent.exprs, k, target);
    FindParentReturnsTheParent(target, ast, q, k);
    UpdateAtPosition(Constantly(SplicedPipe(replacement, parent, k)), parent.id, ast, q);
  }

  /** replace conserves ids: the target's ids go and the replacement's ids come; ... */
  lemma {:induction false} ReplaceConservesIds(replacement: Expr, target: Id, ast: Expr, p: Path)
    requires UniqueIds(ast) && IsPath(ast, p) && SubtreeAt(ast, p).id == target
    requires !replacement.EPipe? || |p| == 0 || !ParentAt(ast, p).EPipe?
    ensures Ids(SubtreeAt(ast, p)) <= Ids(ast)
    ensures Ids(Replace(replacement, target, ast)) == Ids(ast) - Ids(SubtreeAt(ast, p)) + Ids(replacement)
  {
    ReplaceExchanges(replacement, target, ast, p);
    IdsAlongPath(ast, p);
    IdsOfReplaceAt(ast, p, replacement);
    Cancel(Ids(ReplaceAt(ast, p, replacement)), Ids(SubtreeAt(ast, p)), Ids(ast), Ids(replacement));
  }

  /** ... when a pipe lands in a pipe, the outer pipe's own id goes as well. */
  lemma {:induction false} SplicingConservesIds(replacement: Expr, target: Id, ast: Expr, q: Path, k: nat)
    requires UniqueIds(ast) && IsPath(ast, q) && replacement.EPipe?
    requires SubtreeAt(ast, q).EPipe? && k < |SubtreeAt(ast, q).exprs|
    requires SubtreeAt(ast, q).exprs[k].id == target
    ensures var removed := Ids(SubtreeAt(ast, q).exprs[k]) + multiset{SubtreeAt(ast, q).id};
            removed <= Ids(ast)
            && Ids(Replace(replacement, target, ast)) == Ids(ast) - removed + Ids(replacement)
  {
    ReplaceSplices(replacement, target, ast, q, k);
    var parent := SubtreeAt(ast, q);
    var removed := Ids(parent.exprs[k]) + multiset{parent.id};
    var rest := IdsOfAll(parent.exprs[..k]) + IdsOfAll(parent.exprs[k + 1..]);
    IdsAlongPath(ast, q);
    IdsOfReplaceAt(ast, q, SplicedPipe(replacement, parent, k));
    IdsOfSplicedPipe(replacement, parent, k);
    CancelRest(Ids(Replace(replacement, target, ast)), removed, Ids(ast), Ids(replacement), rest);
    Cancel(Ids(Replace(replacement, target, ast)), removed, Ids(ast), Ids(replacement));
  }

  lemma {:induction false} IdsOfMiddle(id: Id, before: seq<Expr>, m: seq<Expr>, after: seq<Expr>)
    ensures Ids(EPipe(id, before + m + after)) == Ids(EPipe(id, m)) + (IdsOfAll(before) + IdsOfAll(after))
  {
    IdsOfConcat(before + m, after);
    IdsOfConcat(before, m);
    Regroup(id, IdsOfAll(before), IdsOfAll(m), IdsOfAll(after));
  }

  lemma Regroup(id: Id, before: multiset<Id>, m: multiset<Id>, after: multiset<Id>)
    ensures multiset{id} + ((before + m) + after) == (multiset{id} + m) + (before + after)
  {}

  lemma {:induction false} IdsOfSplicedPipe(replacement: Expr, parent: Expr, k: nat)
    requires replacement.EPipe? && parent.EPipe? && k < |parent.exprs|
    ensures var rest := IdsOfAll(parent.exprs[..k]) + IdsOfAll(parent.exprs[k + 1..]);
            Ids(SplicedPipe(replacement, parent, k)) == Ids(replacement) + rest
            && Ids(parent) == (Ids(parent.exprs[k]) + multiset{parent.id}) + rest
  {
    var before, x, after := parent.exprs[..k], parent.exprs[k], parent.exprs[k + 1..];
    IdsOfMiddle(replacement.id, before, replacement.exprs, after);
    IdsOfMiddle(parent.id, before, [x], after);
    IdsOfSingleton(parent.id, x);
    SplitAround(parent.exprs, k);
    assert parent == EPipe(parent.id, before + [x] + after);
    assert replacement == EPipe(replacement.id, replacement.exprs);
  }

  lemma IdsOfSingleton(id: Id, x: Expr)
    ensures Ids(EPipe(id, [x])) == Ids(x) + multiset{id}
  {
    assert Children(EPipe(id, [x])) == [x];
    assert IdsOfAll([x]) == Ids(x) + IdsOfAll([x][1..]);
  }

  lemma CancelRest(r: multiset<Id>, out: multiset<Id>, a: multiset<Id>, in_: multiset<Id>, rest: multiset<Id>)
    requires r + (out + rest) == a + (in_ + rest)
    ensures r + out == a + in_
  {
    forall x ensures (r + out)[x] == (a + in_)[x] {
      assert (r + (out + rest))[x] == (a + (in_ + rest))[x];
    }
  }

  lemma Cancel(r: multiset<Id>, out: multiset<Id>, a: multiset<Id>, in_: multiset<Id>)
    requires r + out == a + in_ && out <= a
    ensures r == a - out + in_
  {
    forall x ensures r[x] == (a - out + in_)[x] {
      assert (r + out)[x] == (a + in_)[x];
    }
  }
}
