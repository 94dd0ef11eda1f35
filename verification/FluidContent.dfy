/** What a tree says apart from its ids. */
module FluidContent {
  import opened Common
  import opened FluidExpression
  import P = FluidPattern

  function PatternWithoutIds(p: P.Pattern): P.Pattern
    decreases p
  {
    match p
    case FPVariable(_, _, name) => P.FPVariable(0, 0, name)
    case FPConstructor(_, _, ctor, patterns) =>
      P.FPConstructor(0, 0, ctor, seq(|patterns|, i requires 0 <= i < |patterns| => PatternWithoutIds(patterns[i])))
    case FPString(_, _, str) => P.FPString(0, 0, str)
    case FPInteger(_, _, value) => P.FPInteger(0, 0, value)
    case FPFloat(_, _, whole, fraction) => P.FPFloat(0, 0, whole, fraction)
    case FPBool(_, _, b) => P.FPBool(0, 0, b)
    case FPNull(_, _) => P.FPNull(0, 0)
    case FPBlank(_, _) => P.FPBlank(0, 0)
  }

  function VarsWithoutIds(vars: seq<(Id, string)>): seq<(Id, string)> {
    seq(|vars|, i requires 0 <= i < |vars| => (0, vars[i].1))
  }

  function CasesWithoutIds(cases: seq<(P.Pattern, Expr)>): seq<(P.Pattern, Expr)> {
    seq(|cases|, i requires 0 <= i < |cases| => (PatternWithoutIds(cases[i].0), cases[i].1))
  }

  /** The node without its own ids; everything else is kept. */
  function NodeWithoutIds(e: Expr): (r: Expr)
    ensures Children(r) == Children(e)
  {
    match e
    case ENull(_) => ENull(0)
    case EBlank(_) => EBlank(0)
    case EPipeTarget(_) => EPipeTarget(0)
    case EInteger(_, value) => EInteger(0, value)
    case EString(_, str) => EString(0, str)
    case EVariable(_, name) => EVariable(0, name)
    case EBool(_, b) => EBool(0, b)
    case EFloat(_, whole, fraction) => EFloat(0, whole, fraction)
    case ELet(_, lhs, rhs, body) => ELet(0, lhs, rhs, body)
    case EIf(_, cond, thn, els) => EIf(0, cond, thn, els)
    case EList(_, exprs) => EList(0, exprs)
    case EFnCall(_, fn, exprs, rail) => EFnCall(0, fn, exprs, rail)
    case EBinOp(_, op, left, right, rail) => EBinOp(0, op, left, right, rail)
    case ERecord(_, fields) => ERecord(0, fields)
    case EFieldAccess(_, obj, field) => EFieldAccess(0, obj, field)
    case EPipe(_, exprs) => EPipe(0, exprs)
    case EFeatureFlag(_, flag, cond, casea, caseb) => EFeatureFlag(0, flag, cond, casea, caseb)
    case EConstructor(_, ctor, exprs) => EConstructor(0, ctor, exprs)
    case ERightPartial(_, text, old_) => ERightPartial(0, text, old_)
    case ELeftPartial(_, text, old_) => ELeftPartial(0, text, old_)
    case EPartial(_, text, old_) => EPartial(0, text, old_)
    case ELambda(_, vars, body) => ELambda(0, VarsWithoutIds(vars), body)
    case EMatch(_, m, cases) =>
      var r := EMatch(0, m, CasesWithoutIds(cases));
      assert Children(r) == Children(e);
      r
  }

  /** The tree without ids. */
  function WithoutIds(e: Expr): Expr
    decreases e
  {
    var cs := Children(e);
    WithChildren(NodeWithoutIds(e), seq(|cs|, i requires 0 <= i < |cs| => WithoutIds(cs[i])))
  }

  lemma WithoutIdsOf(e: Expr, cs: seq<Expr>)
    requires |cs| == |Children(e)| && forall i :: 0 <= i < |cs| ==> cs[i] == WithoutIds(Children(e)[i])
    ensures WithoutIds(e) == WithChildren(NodeWithoutIds(e), cs)
  {
    var es := Children(e);
    assert seq(|es|, i requires 0 <= i < |es| => WithoutIds(es[i])) == cs;
  }

  /** Exchanging the subexpressions of a node does not touch the rest of it. */
  lemma NodeOfRebuilt(e: Expr, cs: seq<Expr>, ds: seq<Expr>)
    requires |cs| == |ds| == |Children(e)|
    ensures WithChildren(NodeWithoutIds(WithChildren(e, cs)), ds) == WithChildren(NodeWithoutIds(e), ds)
  {
    var a, b := WithChildren(NodeWithoutIds(WithChildren(e, cs)), ds), WithChildren(NodeWithoutIds(e), ds);
    if e.EMatch? {
      assert a.cases == b.cases;
    } else if e.ERecord? {
      assert a.fields == b.fields;
    }
  }
}
