/** The rewrite of string literals that update_hosts_in_op (canvas_clone.ml) runs over an
    expression. `replaceHost` stands for the string replacement. */
module FluidHosts {
  import opened Common
  import opened FluidExpression
  import opened FluidTree
  import opened FluidTraversal
  import opened FluidClone
  import P = FluidPattern

  type Rewrite = string -> string

  function PatternPostTraversal(f: P.Pattern -> P.Pattern, p: P.Pattern): P.Pattern
    decreases p
  {
    f(if p.FPConstructor? then
        P.FPConstructor(p.matchID, p.patternID, p.ctor,
                        seq(|p.patterns|, i requires 0 <= i < |p.patterns| => PatternPostTraversal(f, p.patterns[i])))
      else p)
  }

  function UpdateStringPattern(replaceHost: Rewrite): P.Pattern -> P.Pattern {
    (p: P.Pattern) => if p.FPString? then P.FPString(p.matchID, p.patternID, replaceHost(p.str)) else p
  }

  function UpdatePattern(replaceHost: Rewrite, p: P.Pattern): P.Pattern {
    PatternPostTraversal(UpdateStringPattern(replaceHost), p)
  }

  function UpdateNode(replaceHost: Rewrite): Expr -> Expr {
    (e: Expr) =>
      if e.EString? then EString(e.id, replaceHost(e.str))
      else if e.EMatch? then
        EMatch(e.id, e.matchExpr, seq(|e.cases|, i requires 0 <= i < |e.cases| =>
                                      (UpdatePattern(replaceHost, e.cases[i].0), e.cases[i].1)))
      else e
  }

  function UpdateHosts(replaceHost: Rewrite, e: Expr): Expr {
    PostTraversal(UpdateNode(replaceHost), e)
  }

  // ---- What the rewrite keeps and what it changes

  /** A pattern with its string literals wiped. */
  function PatternWithoutStrings(p: P.Pattern): P.Pattern
    decreases p
  {
    match p
    case FPString(matchID, patternID, _) => P.FPString(matchID, patternID, "")
    case FPConstructor(matchID, patternID, ctor, patterns) =>
      P.FPConstructor(matchID, patternID, ctor,
                      seq(|patterns|, i requires 0 <= i < |patterns| => PatternWithoutStrings(patterns[i])))
    case _ => p
  }

  /** A node with its own string literals wiped, patterns included. */
  function NodeWithoutStrings(e: Expr): (r: Expr)
    ensures Children(r) == Children(e)
  {
    if e.EString? then EString(e.id, "")
    else if e.EMatch? then
      EMatch(e.id, e.matchExpr, seq(|e.cases|, i requires 0 <= i < |e.cases| =>
                                    (PatternWithoutStrings(e.cases[i].0), e.cases[i].1)))
    else e
  }

  /** A tree with its string literals wiped: ids, binders, other literals and shape. */
  function WithoutStrings(e: Expr): Expr
    decreases e
  {
    WithChildren(NodeWithoutStrings(e),
                 seq(|Children(e)|, i requires 0 <= i < |Children(e)| => WithoutStrings(Children(e)[i])))
  }

  lemma {:induction false} PatternKeepsAllButStrings(replaceHost: Rewrite, p: P.Pattern)
    ensures PatternWithoutStrings(UpdatePattern(replaceHost, p)) == PatternWithoutStrings(p)
    decreases p
  {
    if p.FPConstructor? {
      forall i | 0 <= i < |p.patterns|
        ensures PatternWithoutStrings(UpdatePattern(replaceHost, p.patterns[i])) == PatternWithoutStrings(p.patterns[i])
      {
        PatternKeepsAllButStrings(replaceHost, p.patterns[i]);
      }
      assert PatternWithoutStrings(UpdatePattern(replaceHost, p)).patterns == PatternWithoutStrings(p).patterns;
    }
  }

  lemma {:induction false} NodeKeepsAllButStrings(replaceHost: Rewrite, e: Expr)
    ensures NodeWithoutStrings(UpdateNode(replaceHost)(e)) == NodeWithoutStrings(e)
    ensures Children(UpdateNode(replaceHost)(e)) == Children(e)
  {
    var r := UpdateNode(replaceHost)(e);
    if e.EMatch? {
      forall i | 0 <= i < |e.cases|
        ensures NodeWithoutStrings(r).cases[i] == NodeWithoutStrings(e).cases[i]
      {
        PatternKeepsAllButStrings(replaceHost, e.cases[i].0);
      }
      assert NodeWithoutStrings(r).cases == NodeWithoutStrings(e).cases;
    }
  }

  lemma {:induction false} WipeOfRebuilt(e: Expr, cs: seq<Expr>)
    requires |cs| == |Children(e)|
    ensures NodeWithoutStrings(WithChildren(e, cs)) == WithChildren(NodeWithoutStrings(e), cs)
  {
    if e.EMatch? {
      assert NodeWithoutStrings(WithChildren(e, cs)).cases == WithChildren(NodeWithoutStrings(e), cs).cases;
    }
  }

  lemma WipedFromChildren(e: Expr, ws: seq<Expr>)
    requires |ws| == |Children(e)| && forall i :: 0 <= i < |ws| ==> WithoutStrings(Children(e)[i]) == ws[i]
    ensures WithoutStrings(e) == WithChildren(NodeWithoutStrings(e), ws)
  {
    assert seq(|Children(e)|, i requires 0 <= i < |Children(e)| => WithoutStrings(Children(e)[i])) == ws;
  }

  /** The rewrite keeps every expression and pattern id, every binder and the shape: all
      that can change is the text of string literals. */
  lemma {:induction false} UpdateHostsKeepsAllButStrings(replaceHost: Rewrite, e: Expr)
    ensures WithoutStrings(UpdateHosts(replaceHost, e)) == WithoutStrings(e)
    decreases e
  {
    var cs := Children(e);
    var us := seq(|cs|, i requires 0 <= i < |cs| => UpdateHosts(replaceHost, cs[i]));
    UpdateHostsOfNode(replaceHost, e);
    var inner := WithChildren(e, us);
    var r := UpdateNode(replaceHost)(inner);
    NodeKeepsAllButStrings(replaceHost, inner);
    var ws := seq(|cs|, i requires 0 <= i < |cs| => WithoutStrings(cs[i]));
    forall i | 0 <= i < |cs| ensures WithoutStrings(us[i]) == ws[i] {
      UpdateHostsKeepsAllButStrings(replaceHost, cs[i]);
    }
    WipedFromChildren(e, ws);
    WipedFromChildren(r, ws);
    WipeOfRebuilt(e, us);
    WithChildrenTwice(NodeWithoutStrings(e), us, ws);
  }

  lemma UpdateHostsOfNode(replaceHost: Rewrite, e: Expr)
    ensures var cs := Children(e);
            UpdateHosts(replaceHost, e)
            == UpdateNode(replaceHost)(
                 WithChildren(e, seq(|cs|, i requires 0 <= i < |cs| => UpdateHosts(replaceHost, cs[i]))))
  {
    var cs := Children(e);
    assert seq(|cs|, i requires 0 <= i < |cs| => UpdateHosts(replaceHost, cs[i]))
        == seq(|cs|, i requires 0 <= i < |cs| => PostTraversal(UpdateNode(replaceHost), cs[i]));
  }

  // ---- The string literals themselves

  function MapStrings(f: Rewrite, ss: seq<string>): seq<string> {
    seq(|ss|, i requires 0 <= i < |ss| => f(ss[i]))
  }

  function PatternStrings(p: P.Pattern): seq<string>
    decreases p, 1
  {
    match p
    case FPString(_, _, str) => [str]
    case FPConstructor(_, _, _, patterns) => PatternStringsOfAll(patterns)
    case _ => []
  }

  function PatternStringsOfAll(ps: seq<P.Pattern>): seq<string>
    decreases ps, 0
  {
    if |ps| == 0 then [] else PatternStrings(ps[0]) + PatternStringsOfAll(ps[1..])
  }

  function CaseStrings(cases: seq<(P.Pattern, Expr)>): seq<string> {
    if |cases| == 0 then [] else PatternStrings(cases[0].0) + CaseStrings(cases[1..])
  }

  function OwnStrings(e: Expr): seq<string> {
    if e.EString? then [e.str] else if e.EMatch? then CaseStrings(e.cases) else []
  }

  /** The string literals of a tree, a node's own before those of its subexpressions. */
  ghost function Strings(e: Expr): seq<string>
    decreases Size(e), 0
  {
    SizeOfNode(e);
    OwnStrings(e) + StringsOfAll(Children(e))
  }

  ghost function StringsOfAll(es: seq<Expr>): seq<string>
    decreases Sizes(es), 1
  {
    if |es| == 0 then [] else Strings(es[0]) + StringsOfAll(es[1..])
  }

  lemma MapStringsConcat(f: Rewrite, a: seq<string>, b: seq<string>)
    ensures MapStrings(f, a + b) == MapStrings(f, a) + MapStrings(f, b)
  {}

  lemma {:induction false} PatternStringsRewritten(replaceHost: Rewrite, p: P.Pattern)
    ensures PatternStrings(UpdatePattern(replaceHost, p)) == MapStrings(replaceHost, PatternStrings(p))
    decreases p, 1
  {
    if p.FPConstructor? {
      var qs := seq(|p.patterns|, i requires 0 <= i < |p.patterns| => UpdatePattern(replaceHost, p.patterns[i]));
      assert UpdatePattern(replaceHost, p).patterns == qs;
      PatternsStringsRewritten(replaceHost, p.patterns, qs);
    }
  }

  lemma {:induction false} PatternsStringsRewritten(replaceHost: Rewrite, ps: seq<P.Pattern>, qs: seq<P.Pattern>)
    requires |qs| == |ps| && forall i :: 0 <= i < |ps| ==> qs[i] == UpdatePattern(replaceHost, ps[i])
    ensures PatternStringsOfAll(qs) == MapStrings(replaceHost, PatternStringsOfAll(ps))
    decreases ps, 0
  {
    if |ps| == 0 {
    } else {
      PatternStringsRewritten(replaceHost, ps[0]);
      PatternsStringsRewritten(replaceHost, ps[1..], qs[1..]);
      MapStringsConcat(replaceHost, PatternStrings(ps[0]), PatternStringsOfAll(ps[1..]));
    }
  }

  lemma {:induction false} CaseStringsRewritten(
    replaceHost: Rewrite, a: seq<(P.Pattern, Expr)>, b: seq<(P.Pattern, Expr)>)
    requires |a| == |b| && forall i :: 0 <= i < |a| ==> b[i].0 == UpdatePattern(replaceHost, a[i].0)
    ensures CaseStrings(b) == MapStrings(replaceHost, CaseStrings(a))
  {
    if |a| == 0 {
    } else {
      PatternStringsRewritten(replaceHost, a[0].0);
      CaseStringsRewritten(replaceHost, a[1..], b[1..]);
      MapStringsConcat(replaceHost, PatternStrings(a[0].0), CaseStrings(a[1..]));
    }
  }

  lemma {:induction false} OwnStringsRewritten(replaceHost: Rewrite, e: Expr, cs: seq<Expr>)
    requires |cs| == |Children(e)|
    ensures OwnStrings(UpdateNode(replaceHost)(WithChildren(e, cs))) == MapStrings(replaceHost, OwnStrings(e))
    ensures Children(UpdateNode(replaceHost)(WithChildren(e, cs))) == cs
  {
    if e.EMatch? {
      CaseStringsRewritten(replaceHost, e.cases, UpdateNode(replaceHost)(WithChildren(e, cs)).cases);
    }
  }

  /** Every string literal, and only those, went through the replacement exactly once. */
  lemma {:induction false} UpdateHostsRewritesEveryString(replaceHost: Rewrite, e: Expr)
    ensures Strings(UpdateHosts(replaceHost, e)) == MapStrings(replaceHost, Strings(e))
    decreases Size(e), 0
  {
    SizeOfNode(e);
    var cs := Children(e);
    var us := seq(|cs|, i requires 0 <= i < |cs| => UpdateHosts(replaceHost, cs[i]));
    UpdateHostsOfNode(replaceHost, e);
    OwnStringsRewritten(replaceHost, e, us);
    UpdateHostsRewritesAllStrings(replaceHost, cs, us);
    MapStringsConcat(replaceHost, OwnStrings(e), StringsOfAll(cs));
  }

  lemma {:induction false} UpdateHostsRewritesAllStrings(replaceHost: Rewrite, es: seq<Expr>, us: seq<Expr>)
    requires |us| == |es| && forall i :: 0 <= i < |es| ==> us[i] == UpdateHosts(replaceHost, es[i])
    ensures StringsOfAll(us) == MapStrings(replaceHost, StringsOfAll(es))
    decreases Sizes(es), 1
  {
    if |es| == 0 {
    } else {
      UpdateHostsRewritesEveryString(replaceHost, es[0]);
      UpdateHostsRewritesAllStrings(replaceHost, es[1..], us[1..]);
      MapStringsConcat(replaceHost, Strings(es[0]), StringsOfAll(es[1..]));
    }
  }
}
