/** Fluid expression trees (libshared/FluidExpression.ml): the tree, its direct
    subexpressions and rebuilding a node from new subexpressions. */
module FluidExpression {
  import opened Common
  import P = FluidPattern

  type Id = P.Id

  datatype SendToRail = Rail | NoRail

  datatype Expr =
    | EInteger(id: Id, value: string)
    | EBool(id: Id, b: bool)
    | EString(id: Id, str: string)
    | EFloat(id: Id, whole: string, fraction: string)
    | ENull(id: Id)
    | EBlank(id: Id)
    | ELet(id: Id, lhs: string, rhs: Expr, body: Expr)
    | EIf(id: Id, cond: Expr, thn: Expr, els: Expr)
    | EBinOp(id: Id, op: string, left: Expr, right: Expr, rail: SendToRail)
    | ELambda(id: Id, vars: seq<(Id, string)>, body: Expr)
    | EFieldAccess(id: Id, obj: Expr, field: string)
    | EVariable(id: Id, name: string)
    | EFnCall(id: Id, fn: string, exprs: seq<Expr>, rail: SendToRail)
    | EPartial(id: Id, text: string, old_: Expr)
    | ERightPartial(id: Id, text: string, old_: Expr)
    | ELeftPartial(id: Id, text: string, old_: Expr)
    | EList(id: Id, exprs: seq<Expr>)
    | ERecord(id: Id, fields: seq<(string, Expr)>)
    | EPipe(id: Id, exprs: seq<Expr>)
    | EConstructor(id: Id, ctor: string, exprs: seq<Expr>)
    | EMatch(id: Id, matchExpr: Expr, cases: seq<(P.Pattern, Expr)>)
    | EPipeTarget(id: Id)
    | EFeatureFlag(id: Id, flag: string, cond: Expr, casea: Expr, caseb: Expr)

  /** The direct subexpressions of a node, in source order. */
  function Children(e: Expr): (cs: seq<Expr>)
    ensures forall i :: 0 <= i < |cs| ==> cs[i] < e
  {
    match e
    case EPartial(_, _, c) => [c]
    case ERightPartial(_, _, c) => [c]
    case ELeftPartial(_, _, c) => [c]
    case ELambda(_, _, c) => [c]
    case EFieldAccess(_, c, _) => [c]
    case EBinOp(_, _, c0, c1, _) => [c0, c1]
    case ELet(_, _, c0, c1) => [c0, c1]
    case EFeatureFlag(_, _, c0, c1, c2) => [c0, c1, c2]
    case EIf(_, c0, c1, c2) => [c0, c1, c2]
    case EFnCall(_, _, exprs, _) => exprs
    case EList(_, exprs) => exprs
    case EConstructor(_, _, exprs) => exprs
    case EPipe(_, exprs) => exprs
    case ERecord(_, fields) => seq(|fields|, i requires 0 <= i < |fields| => fields[i].1)
    case EMatch(_, m, cases) => [m] + seq(|cases|, i requires 0 <= i < |cases| => cases[i].1)
    case _ => []
  }

  /** The node `e` with its direct subexpressions replaced by `cs`, in order. Every
      traversal of the source rebuilds a node this way in each of its branches. */
  function WithChildren(e: Expr, cs: seq<Expr>): (r: Expr)
    requires |cs| == |Children(e)|
    ensures r.id == e.id
    ensures Children(r) == cs
  {
    match e
    case EPartial(id, text, _) => EPartial(id, text, cs[0])
    case ERightPartial(id, text, _) => ERightPartial(id, text, cs[0])
    case ELeftPartial(id, text, _) => ELeftPartial(id, text, cs[0])
    case ELambda(id, vars, _) => ELambda(id, vars, cs[0])
    case EFieldAccess(id, _, field) => EFieldAccess(id, cs[0], field)
    case EBinOp(id, op, _, _, rail) => EBinOp(id, op, cs[0], cs[1], rail)
    case ELet(id, lhs, _, _) => ELet(id, lhs, cs[0], cs[1])
    case EFeatureFlag(id, flag, _, _, _) => EFeatureFlag(id, flag, cs[0], cs[1], cs[2])
    case EIf(id, _, _, _) => EIf(id, cs[0], cs[1], cs[2])
    case EFnCall(id, fn, _, rail) => EFnCall(id, fn, cs, rail)
    case EList(id, _) => EList(id, cs)
    case EConstructor(id, ctor, _) => EConstructor(id, ctor, cs)
    case EPipe(id, _) => EPipe(id, cs)
    case ERecord(id, fields) => ERecord(id, seq(|fields|, i requires 0 <= i < |fields| => (fields[i].0, cs[i])))
    case EMatch(id, _, cases) =>
      EMatch(id, cs[0], seq(|cases|, i requires 0 <= i < |cases| => (cases[i].0, cs[i + 1])))
    case _ => e
  }

  /** Rebuilding a node from its own subexpressions changes nothing. */
  lemma WithOwnChildren(e: Expr)
    ensures WithChildren(e, Children(e)) == e
  {
    match e
    case ERecord(id, fields) => assert WithChildren(e, Children(e)).fields == fields;
    case EMatch(id, m, cases) => assert WithChildren(e, Children(e)).cases == cases;
    case _ =>
  }

  /** Only the last set of subexpressions counts. */
  lemma WithChildrenTwice(e: Expr, cs: seq<Expr>, ds: seq<Expr>)
    requires |cs| == |Children(e)| == |ds|
    ensures WithChildren(WithChildren(e, cs), ds) == WithChildren(e, ds)
  {
    match e
    case ERecord(id, fields) =>
      assert WithChildren(WithChildren(e, cs), ds).fields == WithChildren(e, ds).fields;
    case EMatch(id, m, cases) =>
      assert WithChildren(WithChildren(e, cs), ds).cases == WithChildren(e, ds).cases;
    case _ =>
  }
}
