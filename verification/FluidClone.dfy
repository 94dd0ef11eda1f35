/** clone with fresh ids (FluidExpression.ml, FluidPattern.ml). The id generator is a
    sequence `gid(0), gid(1), ...`; the state of the generator is the next index. */
module FluidClone {
  import opened Common
  import opened FluidExpression
  import opened FluidTree
  import opened FluidContent
  import P = FluidPattern

  type Gid = nat -> Id

  function ClonePattern(gid: Gid, matchID: Id, p: P.Pattern, n: nat): (P.Pattern, nat)
    decreases p, 1
  {
    match p
    case FPVariable(_, _, name) => (P.FPVariable(matchID, gid(n), name), n + 1)
    case FPConstructor(_, _, ctor, patterns) =>
      var (ps, m) := ClonePatterns(gid, matchID, patterns, n + 1);
      (P.FPConstructor(matchID, gid(n), ctor, ps), m)
    case FPInteger(_, _, value) => (P.FPInteger(matchID, gid(n), value), n + 1)
    case FPBool(_, _, b) => (P.FPBool(matchID, gid(n), b), n + 1)
    case FPString(_, _, str) => (P.FPString(matchID, gid(n), str), n + 1)
    case FPBlank(_, _) => (P.FPBlank(matchID, gid(n)), n + 1)
    case FPNull(_, _) => (P.FPNull(matchID, gid(n)), n + 1)
    case FPFloat(_, _, whole, fraction) => (P.FPFloat(matchID, gid(n), whole, fraction), n + 1)
  }

  function ClonePatterns(gid: Gid, matchID: Id, ps: seq<P.Pattern>, n: nat): (seq<P.Pattern>, nat)
    decreases ps, 0
  {
    if |ps| == 0 then ([], n)
    else
      var (p, m) := ClonePattern(gid, matchID, ps[0], n);
      var (rest, m') := ClonePatterns(gid, matchID, ps[1..], m);
      ([p] + rest, m')
  }

  function CloneVars(gid: Gid, vars: seq<(Id, string)>, n: nat): seq<(Id, string)> {
    if |vars| == 0 then [] else [(gid(n), vars[0].1)] + CloneVars(gid, vars[1..], n + 1)
  }

  /** The cases of a match with cloned patterns. */
  function CloneCasePatterns(gid: Gid, matchID: Id, cases: seq<(P.Pattern, Expr)>, n: nat)
    : (r: (seq<(P.Pattern, Expr)>, nat))
    ensures |r.0| == |cases|
  {
    if |cases| == 0 then ([], n)
    else
      var (p, m) := ClonePattern(gid, matchID, cases[0].0, n);
      var (rest, m') := CloneCasePatterns(gid, matchID, cases[1..], m);
      ([(p, cases[0].1)] + rest, m')
  }

  /** The node with fresh ids of its own, its subexpressions still the old ones: its id is
      drawn first, then those of its variables or of all its patterns. A left partial keeps
      its id. */
  function FreshNode(gid: Gid, e: Expr, n: nat): (r: (Expr, nat))
    ensures |Children(r.0)| == |Children(e)|
  {
    match e
    case ELeftPartial(_, _, _) => (e, n)
    case ELambda(_, vars, body) => (ELambda(gid(n), CloneVars(gid, vars, n + 1), body), n + 1 + |vars|)
    case EMatch(_, m, cases) =>
      var (cases', n') := CloneCasePatterns(gid, gid(n), cases, n + 1);
      (EMatch(gid(n), m, cases'), n')
    case EInteger(_, value) => (EInteger(gid(n), value), n + 1)
    case EBool(_, b) => (EBool(gid(n), b), n + 1)
    case EString(_, str) => (EString(gid(n), str), n + 1)
    case EFloat(_, whole, fraction) => (EFloat(gid(n), whole, fraction), n + 1)
    case ENull(_) => (ENull(gid(n)), n + 1)
    case EBlank(_) => (EBlank(gid(n)), n + 1)
    case EVariable(_, name) => (EVariable(gid(n), name), n + 1)
    case EPipeTarget(_) => (EPipeTarget(gid(n)), n + 1)
    case ELet(_, lhs, rhs, body) => (ELet(gid(n), lhs, rhs, body), n + 1)
    case EIf(_, cond, thn, els) => (EIf(gid(n), cond, thn, els), n + 1)
    case EBinOp(_, op, left, right, rail) => (EBinOp(gid(n), op, left, right, rail), n + 1)
    case EFieldAccess(_, obj, field) => (EFieldAccess(gid(n), obj, field), n + 1)
    case EFnCall(_, fn, exprs, rail) => (EFnCall(gid(n), fn, exprs, rail), n + 1)
    case EPartial(_, text, old_) => (EPartial(gid(n), text, old_), n + 1)
    case ERightPartial(_, text, old_) => (ERightPartial(gid(n), text, old_), n + 1)
    case EList(_, exprs) => (EList(gid(n), exprs), n + 1)
    case ERecord(_, fields) => (ERecord(gid(n), fields), n + 1)
    case EPipe(_, exprs) => (EPipe(gid(n), exprs), n + 1)
    case EConstructor(_, ctor, exprs) => (EConstructor(gid(n), ctor, exprs), n + 1)
    case EFeatureFlag(_, flag, cond, a, b) => (EFeatureFlag(gid(n), flag, cond, a, b), n + 1)
  }

  function Clone(gid: Gid, e: Expr, n: nat): (Expr, nat)
    decreases Size(e), 0
  {
    SizeOfNode(e);
    var (node, m) := FreshNode(gid, e, n);
    var (cs, m') := CloneAll(gid, Children(e), m);
    (WithChildren(node, cs), m')
  }

  function CloneAll(gid: Gid, es: seq<Expr>, n: nat): (r: (seq<Expr>, nat))
    ensures |r.0| == |es|
    decreases Sizes(es), 1
  {
    if |es| == 0 then ([], n)
    else
      var (c, m) := Clone(gid, es[0], n);
      var (cs, m') := CloneAll(gid, es[1..], m);
      ([c] + cs, m')
  }

  // ---- All ids of a tree, binders and patterns included

  ghost function VarIds(vars: seq<(Id, string)>): multiset<Id> {
    if |vars| == 0 then multiset{} else multiset{vars[0].0} + VarIds(vars[1..])
  }

  ghost function CaseIds(cases: seq<(P.Pattern, Expr)>): multiset<Id> {
    if |cases| == 0 then multiset{} else P.Ids(cases[0].0) + CaseIds(cases[1..])
  }

  /** The ids a node carries itself. */
  ghost function OwnIds(e: Expr): multiset<Id> {
    multiset{e.id}
    + (if e.ELambda? then VarIds(e.vars) else if e.EMatch? then CaseIds(e.cases) else multiset{})
  }

  ghost function AllIds(e: Expr): multiset<Id>
    decreases Size(e), 0
  {
    SizeOfNode(e);
    OwnIds(e) + AllIdsOfAll(Children(e))
  }

  ghost function AllIdsOfAll(es: seq<Expr>): multiset<Id>
    decreases Sizes(es), 1
  {
    if |es| == 0 then multiset{} else AllIds(es[0]) + AllIdsOfAll(es[1..])
  }

  ghost function LeftPartialIds(e: Expr): multiset<Id>
    decreases Size(e), 0
  {
    SizeOfNode(e);
    (if e.ELeftPartial? then multiset{e.id} else multiset{}) + LeftPartialIdsOfAll(Children(e))
  }

  ghost function LeftPartialIdsOfAll(es: seq<Expr>): multiset<Id>
    decreases Sizes(es), 1
  {
    if |es| == 0 then multiset{} else LeftPartialIds(es[0]) + LeftPartialIdsOfAll(es[1..])
  }

  /** The ids drawn from index `lo` up to, not including, index `hi`. */
  ghost function Drawn(gid: Gid, lo: nat, hi: nat): multiset<Id>
    decreases hi - lo
  {
    if lo >= hi then multiset{} else multiset{gid(lo)} + Drawn(gid, lo + 1, hi)
  }

  lemma {:induction false} DrawnConcat(gid: Gid, lo: nat, mid: nat, hi: nat)
    requires lo <= mid <= hi
    ensures Drawn(gid, lo, hi) == Drawn(gid, lo, mid) + Drawn(gid, mid, hi)
    decreases mid - lo
  {
    if lo < mid { DrawnConcat(gid, lo + 1, mid, hi); }
  }

  lemma {:induction false} PatternIdsAreDrawn(gid: Gid, matchID: Id, p: P.Pattern, n: nat)
    ensures var (q, m) := ClonePattern(gid, matchID, p, n); n <= m && P.Ids(q) == Drawn(gid, n, m)
    decreases p, 1
  {
    assert Drawn(gid, n, n + 1) == multiset{gid(n)};
    if p.FPConstructor? {
      PatternsIdsAreDrawn(gid, matchID, p.patterns, n + 1);
      DrawnConcat(gid, n, n + 1, ClonePattern(gid, matchID, p, n).1);
    }
  }

  lemma {:induction false} PatternsIdsAreDrawn(gid: Gid, matchID: Id, ps: seq<P.Pattern>, n: nat)
    ensures var (qs, m) := ClonePatterns(gid, matchID, ps, n); n <= m && P.IdsOfAll(qs) == Drawn(gid, n, m)
    decreases ps, 0
  {
    if |ps| == 0 {
    } else {
      var m := ClonePattern(gid, matchID, ps[0], n).1;
      PatternIdsAreDrawn(gid, matchID, ps[0], n);
      PatternsIdsAreDrawn(gid, matchID, ps[1..], m);
      DrawnConcat(gid, n, m, ClonePatterns(gid, matchID, ps, n).1);
    }
  }

  lemma {:induction false} VarIdsAreDrawn(gid: Gid, vars: seq<(Id, string)>, n: nat)
    ensures VarIds(CloneVars(gid, vars, n)) == Drawn(gid, n, n + |vars|)
  {
    if |vars| == 0 {
    } else {
      VarIdsAreDrawn(gid, vars[1..], n + 1);
    }
  }

  lemma {:induction false} CaseIdsAreDrawn(gid: Gid, matchID: Id, cases: seq<(P.Pattern, Expr)>, n: nat)
    ensures var (cases', m) := CloneCasePatterns(gid, matchID, cases, n);
            n <= m && CaseIds(cases') == Drawn(gid, n, m)
  {
    if |cases| == 0 {
    } else {
      var m := ClonePattern(gid, matchID, cases[0].0, n).1;
      PatternIdsAreDrawn(gid, matchID, cases[0].0, n);
      CaseIdsAreDrawn(gid, matchID, cases[1..], m);
      DrawnConcat(gid, n, m, CloneCasePatterns(gid, matchID, cases, n).1);
    }
  }

  lemma {:induction false} OwnIdsAreDrawn(gid: Gid, e: Expr, n: nat)
    ensures var (node, m) := FreshNode(gid, e, n);
            n <= m
            && OwnIds(node) == Drawn(gid, n, m) + (if e.ELeftPartial? then multiset{e.id} else multiset{})
  {
    if e.ELambda? {
      OwnIdsOfLambda(gid, e, n);
    } else if e.EMatch? {
      OwnIdsOfMatch(gid, e, n);
    } else {
      FreshIdIsDrawn(gid, e, n);
    }
  }

  lemma OwnIdsOfLambda(gid: Gid, e: Expr, n: nat)
    requires e.ELambda?
    ensures var (node, m) := FreshNode(gid, e, n); n <= m && OwnIds(node) == Drawn(gid, n, m)
  {
    VarIdsAreDrawn(gid, e.vars, n + 1);
  }

  lemma OwnIdsOfMatch(gid: Gid, e: Expr, n: nat)
    requires e.EMatch?
    ensures var (node, m) := FreshNode(gid, e, n); n <= m && OwnIds(node) == Drawn(gid, n, m)
  {
    CaseIdsAreDrawn(gid, gid(n), e.cases, n + 1);
  }

  lemma FreshIdIsDrawn(gid: Gid, e: Expr, n: nat)
    requires !e.ELambda? && !e.EMatch?
    ensures var (node, m) := FreshNode(gid, e, n);
            !node.ELambda? && !node.EMatch?
            && if e.ELeftPartial? then node == e && m == n else node.id == gid(n) && m == n + 1
    ensures Drawn(gid, n, n + 1) == multiset{gid(n)}
  {}

  lemma OwnIdsOfRebuilt(e: Expr, cs: seq<Expr>)
    requires |cs| == |Children(e)|
    ensures OwnIds(WithChildren(e, cs)) == OwnIds(e)
  {
    if e.EMatch? { CaseIdsOfRebuilt(e.cases, WithChildren(e, cs).cases); }
  }

  lemma {:induction false} CaseIdsOfRebuilt(a: seq<(P.Pattern, Expr)>, b: seq<(P.Pattern, Expr)>)
    requires |a| == |b| && forall i :: 0 <= i < |a| ==> a[i].0 == b[i].0
    ensures CaseIds(a) == CaseIds(b)
  {
    if |a| == 0 {
    } else {
      CaseIdsOfRebuilt(a[1..], b[1..]);
    }
  }

  /** Every id of a clone was drawn from the generator, once, except the ids of left
      partials, which are the old ones. */
  lemma {:induction false} CloneIdsAccountedFor(gid: Gid, e: Expr, n: nat)
    ensures var (r, m) := Clone(gid, e, n);
            n <= m && AllIds(r) == Drawn(gid, n, m) + LeftPartialIds(e)
    decreases Size(e), 0
  {
    SizeOfNode(e);
    var (node, m) := FreshNode(gid, e, n);
    var (cs, m') := CloneAll(gid, Children(e), m);
    OwnIdsAreDrawn(gid, e, n);
    OwnIdsOfRebuilt(node, cs);
    CloneAllIdsAccountedFor(gid, Children(e), m);
    DrawnConcat(gid, n, m, m');
    AddUp(Drawn(gid, n, m), if e.ELeftPartial? then multiset{e.id} else multiset{},
          Drawn(gid, m, m'), LeftPartialIdsOfAll(Children(e)));
  }

  lemma AddUp(a: multiset<Id>, b: multiset<Id>, c: multiset<Id>, d: multiset<Id>)
    ensures (a + b) + (c + d) == (a + c) + (b + d)
  {}

  lemma {:induction false} CloneAllIdsAccountedFor(gid: Gid, es: seq<Expr>, n: nat)
    ensures var (rs, m) := CloneAll(gid, es, n);
            n <= m && AllIdsOfAll(rs) == Drawn(gid, n, m) + LeftPartialIdsOfAll(es)
    decreases Sizes(es), 1
  {
    if |es| == 0 {
    } else {
      var m := Clone(gid, es[0], n).1;
      var m' := CloneAll(gid, es[1..], m).1;
      CloneIdsAccountedFor(gid, es[0], n);
      CloneAllIdsAccountedFor(gid, es[1..], m);
      DrawnConcat(gid, n, m, m');
      AddUp(Drawn(gid, n, m), LeftPartialIds(es[0]), Drawn(gid, m, m'), LeftPartialIdsOfAll(es[1..]));
    }
  }

  ghost predicate NeverRepeats(gid: Gid) {
    forall i: nat, j: nat :: gid(i) == gid(j) ==> i == j
  }

  ghost predicate NeverDraws(gid: Gid, ids: multiset<Id>) {
    forall i: nat :: gid(i) !in ids
  }

  lemma {:induction false} DrawnOnce(gid: Gid, lo: nat, hi: nat, x: Id)
    requires NeverRepeats(gid)
    ensures Drawn(gid, lo, hi)[x] <= 1
    ensures x in Drawn(gid, lo, hi) ==> exists i: nat :: lo <= i < hi && x == gid(i)
    decreases hi - lo
  {
    if lo < hi { DrawnOnce(gid, lo + 1, hi, x); }
  }

  lemma {:induction false} LeftPartialIdsAreIds(e: Expr)
    ensures LeftPartialIds(e) <= AllIds(e)
    decreases Size(e), 0
  {
    SizeOfNode(e);
    LeftPartialIdsOfAllAreIds(Children(e));
  }

  lemma {:induction false} LeftPartialIdsOfAllAreIds(es: seq<Expr>)
    ensures LeftPartialIdsOfAll(es) <= AllIdsOfAll(es)
    decreases Sizes(es), 1
  {
    if |es| == 0 {
    } else {
      LeftPartialIdsAreIds(es[0]);
      LeftPartialIdsOfAllAreIds(es[1..]);
    }
  }

  lemma {:induction false} DrawnIsNew(gid: Gid, lo: nat, hi: nat, olds: multiset<Id>)
    requires NeverRepeats(gid) && NeverDraws(gid, olds)
    ensures Drawn(gid, lo, hi) !! olds
    ensures forall x :: Drawn(gid, lo, hi)[x] <= 1
  {
    forall x ensures Drawn(gid, lo, hi)[x] <= 1 && !(x in Drawn(gid, lo, hi) && x in olds) {
      DrawnOnce(gid, lo, hi, x);
    }
  }

  lemma DisjointIff(drawn: multiset<Id>, kept: multiset<Id>, olds: multiset<Id>)
    requires drawn !! olds && kept <= olds
    ensures (drawn + kept) !! olds <==> kept == multiset{}
  {
    if (drawn + kept) !! olds {
      forall x ensures kept[x] == 0 {
        assert x in kept ==> x in olds && x in drawn + kept;
      }
      assert kept == multiset{};
    }
  }

  /** A clone shares no id with the original exactly when the tree has no left partial;
      then its ids are also pairwise distinct. */
  lemma {:induction false} CloneIsFreshIff(gid: Gid, e: Expr, n: nat)
    requires NeverRepeats(gid) && NeverDraws(gid, AllIds(e))
    ensures AllIds(Clone(gid, e, n).0) !! AllIds(e) <==> LeftPartialIds(e) == multiset{}
    ensures LeftPartialIds(e) == multiset{} ==> forall x :: AllIds(Clone(gid, e, n).0)[x] <= 1
  {
    var m := Clone(gid, e, n).1;
    CloneIdsAccountedFor(gid, e, n);
    LeftPartialIdsAreIds(e);
    DrawnIsNew(gid, n, m, AllIds(e));
    DisjointIff(Drawn(gid, n, m), LeftPartialIds(e), AllIds(e));
  }

  // ---- Match ids

  predicate PatternBelongsTo(matchID: Id, p: P.Pattern) {
    p.matchID == matchID
    && (p.FPConstructor? ==> forall q | q in p.patterns :: PatternBelongsTo(matchID, q))
  }

  predicate CasesBelongTo(matchID: Id, cases: seq<(P.Pattern, Expr)>) {
    forall i :: 0 <= i < |cases| ==> PatternBelongsTo(matchID, cases[i].0)
  }

  /** Every pattern, at any depth, names the match it is in. */
  predicate PatternsNameTheirMatch(e: Expr)
    decreases e
  {
    (e.EMatch? ==> CasesBelongTo(e.id, e.cases))
    && forall i :: 0 <= i < |Children(e)| ==> PatternsNameTheirMatch(Children(e)[i])
  }

  predicate AllNameTheirMatch(es: seq<Expr>) {
    forall i :: 0 <= i < |es| ==> PatternsNameTheirMatch(es[i])
  }

  lemma {:induction false} ClonedPatternBelongs(gid: Gid, matchID: Id, p: P.Pattern, n: nat)
    ensures PatternBelongsTo(matchID, ClonePattern(gid, matchID, p, n).0)
    decreases p, 1
  {
    if p.FPConstructor? { ClonedPatternsBelong(gid, matchID, p.patterns, n + 1); }
  }

  lemma {:induction false} ClonedPatternsBelong(gid: Gid, matchID: Id, ps: seq<P.Pattern>, n: nat)
    ensures forall q | q in ClonePatterns(gid, matchID, ps, n).0 :: PatternBelongsTo(matchID, q)
    decreases ps, 0
  {
    if |ps| == 0 {
    } else {
      ClonedPatternBelongs(gid, matchID, ps[0], n);
      ClonedPatternsBelong(gid, matchID, ps[1..], ClonePattern(gid, matchID, ps[0], n).1);
    }
  }

  lemma {:induction false} ClonedCasesBelong(gid: Gid, matchID: Id, cases: seq<(P.Pattern, Expr)>, n: nat)
    ensures CasesBelongTo(matchID, CloneCasePatterns(gid, matchID, cases, n).0)
  {
    if |cases| == 0 {
    } else {
      var m := ClonePattern(gid, matchID, cases[0].0, n).1;
      ClonedPatternBelongs(gid, matchID, cases[0].0, n);
      ClonedCasesBelong(gid, matchID, cases[1..], m);
    }
  }

  /** In a clone every pattern carries the id of the new match, whatever the original did. */
  lemma {:induction false} ClonedPatternsNameTheirMatch(gid: Gid, e: Expr, n: nat)
    ensures PatternsNameTheirMatch(Clone(gid, e, n).0)
    decreases Size(e), 0
  {
    SizeOfNode(e);
    var (node, m) := FreshNode(gid, e, n);
    var cs := CloneAll(gid, Children(e), m).0;
    ClonedTreesNameTheirMatch(gid, Children(e), m);
    if e.EMatch? { MatchPatternsBelong(gid, e, n, cs); }
    var r := WithChildren(node, cs);
    assert Children(r) == cs && AllNameTheirMatch(cs);
  }

  lemma MatchPatternsBelong(gid: Gid, e: Expr, n: nat, cs: seq<Expr>)
    requires e.EMatch? && |cs| == |Children(e)|
    ensures var r := WithChildren(FreshNode(gid, e, n).0, cs);
            r.EMatch? && CasesBelongTo(r.id, r.cases)
  {
    ClonedCasesBelong(gid, gid(n), e.cases, n + 1);
    var node := FreshNode(gid, e, n).0;
    var r := WithChildren(node, cs);
    assert node.cases == CloneCasePatterns(gid, gid(n), e.cases, n + 1).0;
    forall i | 0 <= i < |r.cases| ensures PatternBelongsTo(r.id, r.cases[i].0) {
      assert r.cases[i].0 == node.cases[i].0;
    }
  }

  lemma {:induction false} ClonedTreesNameTheirMatch(gid: Gid, es: seq<Expr>, n: nat)
    ensures AllNameTheirMatch(CloneAll(gid, es, n).0)
    decreases Sizes(es), 1
  {
    if |es| == 0 {
    } else {
      ClonedPatternsNameTheirMatch(gid, es[0], n);
      ClonedTreesNameTheirMatch(gid, es[1..], Clone(gid, es[0], n).1);
    }
  }

  // ---- Everything but the ids is kept

  lemma {:induction false} ClonedPatternKeepsContent(gid: Gid, matchID: Id, p: P.Pattern, n: nat)
    ensures PatternWithoutIds(ClonePattern(gid, matchID, p, n).0) == PatternWithoutIds(p)
    decreases p, 1
  {
    if p.FPConstructor? {
      var q := ClonePattern(gid, matchID, p, n).0;
      ClonedPatternsKeepContent(gid, matchID, p.patterns, n + 1);
      assert PatternWithoutIds(q).patterns == PatternWithoutIds(p).patterns;
    }
  }

  lemma {:induction false} ClonedPatternsKeepContent(gid: Gid, matchID: Id, ps: seq<P.Pattern>, n: nat)
    ensures var qs := ClonePatterns(gid, matchID, ps, n).0;
            |qs| == |ps| && forall i :: 0 <= i < |ps| ==> PatternWithoutIds(qs[i]) == PatternWithoutIds(ps[i])
    decreases ps, 0
  {
    if |ps| == 0 {
    } else {
      var (q, m) := ClonePattern(gid, matchID, ps[0], n);
      ClonedPatternKeepsContent(gid, matchID, ps[0], n);
      ClonedPatternsKeepContent(gid, matchID, ps[1..], m);
    }
  }

  lemma {:induction false} ClonedCasesKeepContent(gid: Gid, matchID: Id, cases: seq<(P.Pattern, Expr)>, n: nat)
    ensures CasesWithoutIds(CloneCasePatterns(gid, matchID, cases, n).0) == CasesWithoutIds(cases)
  {
    if |cases| == 0 {
    } else {
      var (p, m) := ClonePattern(gid, matchID, cases[0].0, n);
      ClonedPatternKeepsContent(gid, matchID, cases[0].0, n);
      ClonedCasesKeepContent(gid, matchID, cases[1..], m);
      assert CasesWithoutIds(cases) == [(PatternWithoutIds(cases[0].0), cases[0].1)] + CasesWithoutIds(cases[1..]);
      var new_ := CloneCasePatterns(gid, matchID, cases, n).0;
      assert CasesWithoutIds(new_) == [(PatternWithoutIds(p), cases[0].1)] + CasesWithoutIds(new_[1..]);
    }
  }

  lemma {:induction false} ClonedVarsKeepContent(gid: Gid, vars: seq<(Id, string)>, n: nat)
    ensures VarsWithoutIds(CloneVars(gid, vars, n)) == VarsWithoutIds(vars)
  {
    if |vars| == 0 {
    } else {
      ClonedVarsKeepContent(gid, vars[1..], n + 1);
      var new_ := CloneVars(gid, vars, n);
      assert VarsWithoutIds(vars) == [(0, vars[0].1)] + VarsWithoutIds(vars[1..]);
      assert VarsWithoutIds(new_) == [(0, new_[0].1)] + VarsWithoutIds(new_[1..]);
    }
  }

  lemma FreshNodeKeepsContent(gid: Gid, e: Expr, n: nat)
    ensures NodeWithoutIds(FreshNode(gid, e, n).0) == NodeWithoutIds(e)
  {
    if e.ELambda? {
      ClonedVarsKeepContent(gid, e.vars, n + 1);
    } else if e.EMatch? {
      ClonedCasesKeepContent(gid, gid(n), e.cases, n + 1);
    }
  }

  /** A clone and its original are the same tree once ids are erased: flag names, the order of
      record fields and all other text included. */
  lemma {:induction false} CloneKeepsAllButIds(gid: Gid, e: Expr, n: nat)
    ensures WithoutIds(Clone(gid, e, n).0) == WithoutIds(e)
    decreases Size(e), 0
  {
    SizeOfNode(e);
    var (node, m) := FreshNode(gid, e, n);
    var cs := CloneAll(gid, Children(e), m).0;
    var ds := seq(|cs|, i requires 0 <= i < |cs| => WithoutIds(cs[i]));
    FreshNodeKeepsContent(gid, e, n);
    CloneAllKeepsContent(gid, Children(e), m);
    WithoutIdsOf(WithChildren(node, cs), ds);
    WithoutIdsOf(e, ds);
    NodeOfRebuilt(node, cs, ds);
  }

  lemma {:induction false} CloneAllKeepsContent(gid: Gid, es: seq<Expr>, n: nat)
    ensures var cs := CloneAll(gid, es, n).0;
            |cs| == |es| && forall i :: 0 <= i < |es| ==> WithoutIds(cs[i]) == WithoutIds(es[i])
    decreases Sizes(es), 1
  {
    if |es| == 0 {
    } else {
      var (c, m) := Clone(gid, es[0], n);
      CloneKeepsAllButIds(gid, es[0], n);
      CloneAllKeepsContent(gid, es[1..], m);
    }
  }
}
