/** testEqualIgnoringIds (FluidExpression.ml) and the proof that a clone passes it. */
module FluidEquality {
  import opened Common
  import opened FluidExpression
  import opened FluidTree
  import opened FluidContent
  import opened FluidClone
  import P = FluidPattern

  predicate PatternsAgree(p: P.Pattern, q: P.Pattern)
    decreases p
  {
    match p
    case FPVariable(_, _, name) => q.FPVariable? && name == q.name
    case FPConstructor(_, _, ctor, patterns) =>
      q.FPConstructor? && ctor == q.ctor && |patterns| == |q.patterns|
      && forall i :: 0 <= i < |patterns| ==> PatternsAgree(patterns[i], q.patterns[i])
    case FPString(_, _, str) => q.FPString? && str == q.str
    case FPInteger(_, _, value) => q.FPInteger? && value == q.value
    case FPFloat(_, _, whole, fraction) => q.FPFloat? && whole == q.whole && fraction == q.fraction
    case FPBool(_, _, b) => q.FPBool? && b == q.b
    case FPNull(_, _) => q.FPNull?
    case FPBlank(_, _) => q.FPBlank?
  }

  // ---- Records are compared after a stable sort by key

  predicate KeyLeq(a: string, b: string) {
    |a| == 0 || (|b| > 0 && (a[0] < b[0] || (a[0] == b[0] && KeyLeq(a[1..], b[1..]))))
  }

  type Fields = seq<(string, Expr)>

  function Insert(f: (string, Expr), fs: Fields): (r: Fields)
    ensures multiset(r) == multiset{f} + multiset(fs)
  {
    if |fs| == 0 || KeyLeq(f.0, fs[0].0) then [f] + fs
    else
      assert fs == [fs[0]] + fs[1..];
      [fs[0]] + Insert(f, fs[1..])
  }

  function SortByKey(fs: Fields): (r: Fields)
    ensures multiset(r) == multiset(fs)
  {
    if |fs| == 0 then []
    else
      assert fs == [fs[0]] + fs[1..];
      Insert(fs[0], SortByKey(fs[1..]))
  }

  function Keys(fs: Fields): seq<string> {
    seq(|fs|, i requires 0 <= i < |fs| => fs[i].0)
  }

  /** The subexpressions in the order in which they are compared. */
  function ComparedChildren(e: Expr): (cs: seq<Expr>)
    ensures forall i :: 0 <= i < |cs| ==> cs[i] < e
  {
    if e.ERecord? then
      var fs := SortByKey(e.fields);
      assert forall i :: 0 <= i < |fs| ==> fs[i] in multiset(fs);
      seq(|fs|, i requires 0 <= i < |fs| => fs[i].1)
    else Children(e)
  }

  predicate VarsAgree(a: seq<(Id, string)>, b: seq<(Id, string)>) {
    |a| == |b| && forall i :: 0 <= i < |a| ==> a[i].1 == b[i].1
  }

  predicate CasePatternsAgree(a: seq<(P.Pattern, Expr)>, b: seq<(P.Pattern, Expr)>) {
    |a| == |b| && forall i :: 0 <= i < |a| ==> PatternsAgree(a[i].0, b[i].0)
  }

  /** Two nodes agree in everything but ids and subexpressions. The name of a feature
      flag is not compared. */
  predicate NodesAgree(a: Expr, b: Expr) {
    match a
    case ENull(_) => b.ENull?
    case EBlank(_) => b.EBlank?
    case EPipeTarget(_) => b.EPipeTarget?
    case EInteger(_, v) => b.EInteger? && v == b.value
    case EString(_, v) => b.EString? && v == b.str
    case EVariable(_, v) => b.EVariable? && v == b.name
    case EBool(_, v) => b.EBool? && v == b.b
    case EFloat(_, whole, fraction) => b.EFloat? && whole == b.whole && fraction == b.fraction
    case ELet(_, lhs, _, _) => b.ELet? && lhs == b.lhs
    case EIf(_, _, _, _) => b.EIf?
    case EList(_, _) => b.EList?
    case EFnCall(_, fn, _, rail) => b.EFnCall? && fn == b.fn && rail == b.rail
    case EBinOp(_, op, _, _, rail) => b.EBinOp? && op == b.op && rail == b.rail
    case ERecord(_, fields) => b.ERecord? && Keys(SortByKey(fields)) == Keys(SortByKey(b.fields))
    case EFieldAccess(_, _, field) => b.EFieldAccess? && field == b.field
    case EPipe(_, _) => b.EPipe?
    case EFeatureFlag(_, _, _, _, _) => b.EFeatureFlag?
    case EConstructor(_, ctor, _) => b.EConstructor? && ctor == b.ctor
    case ERightPartial(_, text, _) => b.ERightPartial? && text == b.text
    case ELeftPartial(_, text, _) => b.ELeftPartial? && text == b.text
    case EPartial(_, text, _) => b.EPartial? && text == b.text
    case ELambda(_, vars, _) => b.ELambda? && VarsAgree(vars, b.vars)
    case EMatch(_, _, cases) => b.EMatch? && CasePatternsAgree(cases, b.cases)
  }

  predicate TestEqualIgnoringIds(a: Expr, b: Expr)
    decreases a
  {
    var as_, bs := ComparedChildren(a), ComparedChildren(b);
    NodesAgree(a, b) && |as_| == |bs|
    && forall i :: 0 <= i < |as_| ==> TestEqualIgnoringIds(as_[i], bs[i])
  }

  // ---- What the test means

  /** The node without its own ids and flag name, the fields of a record in key order. */
  function ErasedNode(e: Expr): (r: Expr)
    ensures Children(r) == ComparedChildren(e)
  {
    if e.ERecord? then ERecord(0, SortByKey(e.fields))
    else if e.EFeatureFlag? then EFeatureFlag(0, "", e.cond, e.casea, e.caseb)
    else NodeWithoutIds(e)
  }

  /** The tree without ids, records in key order. */
  function Erased(e: Expr): Expr
    decreases e
  {
    var cs := ComparedChildren(e);
    WithChildren(ErasedNode(e), seq(|cs|, i requires 0 <= i < |cs| => Erased(cs[i])))
  }

  lemma {:induction false} PatternsAgreeIff(p: P.Pattern, q: P.Pattern)
    ensures PatternsAgree(p, q) <==> PatternWithoutIds(p) == PatternWithoutIds(q)
    decreases p
  {
    if p.FPConstructor? && q.FPConstructor? && |p.patterns| != |q.patterns| {
      assert |PatternWithoutIds(p).patterns| != |PatternWithoutIds(q).patterns|;
    } else if p.FPConstructor? && q.FPConstructor? {
      forall i | 0 <= i < |p.patterns|
        ensures PatternsAgree(p.patterns[i], q.patterns[i])
            <==> PatternWithoutIds(p.patterns[i]) == PatternWithoutIds(q.patterns[i])
      {
        PatternsAgreeIff(p.patterns[i], q.patterns[i]);
      }
      ErasedSubpatterns(p, q);
    }
  }

  lemma ErasedSubpatterns(p: P.Pattern, q: P.Pattern)
    requires p.FPConstructor? && q.FPConstructor? && |p.patterns| == |q.patterns|
    ensures PatternWithoutIds(p) == PatternWithoutIds(q) <==>
              p.ctor == q.ctor
              && forall i :: 0 <= i < |p.patterns| ==>
                PatternWithoutIds(p.patterns[i]) == PatternWithoutIds(q.patterns[i])
  {
    var a, b := PatternWithoutIds(p).patterns, PatternWithoutIds(q).patterns;
    forall i | 0 <= i < |p.patterns|
      ensures a[i] == PatternWithoutIds(p.patterns[i]) && b[i] == PatternWithoutIds(q.patterns[i])
    {}
    if forall i :: 0 <= i < |p.patterns| ==> PatternWithoutIds(p.patterns[i]) == PatternWithoutIds(q.patterns[i]) {
      forall i | 0 <= i < |a| ensures a[i] == b[i] {
        assert PatternWithoutIds(p.patterns[i]) == PatternWithoutIds(q.patterns[i]);
      }
      assert a == b;
    }
    if a == b {
      forall i | 0 <= i < |p.patterns| ensures PatternWithoutIds(p.patterns[i]) == PatternWithoutIds(q.patterns[i]) {
        assert a[i] == b[i];
      }
    }
  }

  /** Which constructor built the node. */
  function Kind(e: Expr): nat {
    match e
    case EInteger(_, _) => 0
    case EBool(_, _) => 1
    case EString(_, _) => 2
    case EFloat(_, _, _) => 3
    case ENull(_) => 4
    case EBlank(_) => 5
    case ELet(_, _, _, _) => 6
    case EIf(_, _, _, _) => 7
    case EBinOp(_, _, _, _, _) => 8
    case ELambda(_, _, _) => 9
    case EFieldAccess(_, _, _) => 10
    case EVariable(_, _) => 11
    case EFnCall(_, _, _, _) => 12
    case EPartial(_, _, _) => 13
    case ERightPartial(_, _, _) => 14
    case ELeftPartial(_, _, _) => 15
    case EList(_, _) => 16
    case ERecord(_, _) => 17
    case EPipe(_, _) => 18
    case EConstructor(_, _, _) => 19
    case EMatch(_, _, _) => 20
    case EPipeTarget(_) => 21
    case EFeatureFlag(_, _, _, _, _) => 22
  }

  lemma KindOfErased(e: Expr)
    ensures Kind(ErasedNode(e)) == Kind(e)
  {}

  lemma KindOfRebuilt(e: Expr, cs: seq<Expr>)
    requires |cs| == |Children(e)|
    ensures Kind(WithChildren(e, cs)) == Kind(e)
  {}

  lemma ErasedKind(e: Expr, cs: seq<Expr>)
    requires |cs| == |ComparedChildren(e)|
    ensures Kind(WithChildren(ErasedNode(e), cs)) == Kind(e)
  {
    KindOfErased(e);
    KindOfRebuilt(ErasedNode(e), cs);
  }

  lemma AgreeingKind(a: Expr, b: Expr)
    ensures NodesAgree(a, b) ==> Kind(a) == Kind(b)
  {}

  /** Two nodes of one kind: erasing tells them apart exactly when the test does. */
  ghost predicate ErasureIsExact(a: Expr, b: Expr, cs: seq<Expr>, ds: seq<Expr>)
    requires |cs| == |ComparedChildren(a)| && |ds| == |ComparedChildren(b)|
  {
    WithChildren(ErasedNode(a), cs) == WithChildren(ErasedNode(b), ds) <==> NodesAgree(a, b) && cs == ds
  }

  lemma PairsAgree<A, B>(fs: seq<(A, B)>, gs: seq<(A, B)>, ks: seq<A>, ls: seq<A>, cs: seq<B>, ds: seq<B>)
    requires |fs| == |ks| == |cs| && |gs| == |ls| == |ds|
    requires forall i :: 0 <= i < |fs| ==> fs[i] == (ks[i], cs[i])
    requires forall i :: 0 <= i < |gs| ==> gs[i] == (ls[i], ds[i])
    ensures fs == gs <==> ks == ls && cs == ds
  {
    if fs == gs {
      forall i | 0 <= i < |ks| ensures ks[i] == ls[i] && cs[i] == ds[i] { assert fs[i] == gs[i]; }
    }
  }

  lemma RecordsAgreeIff(a: Expr, b: Expr, cs: seq<Expr>, ds: seq<Expr>)
    requires a.ERecord? && b.ERecord?
    requires |cs| == |ComparedChildren(a)| && |ds| == |ComparedChildren(b)|
    ensures ErasureIsExact(a, b, cs, ds)
  {
    var fs, gs := WithChildren(ErasedNode(a), cs).fields, WithChildren(ErasedNode(b), ds).fields;
    PairsAgree(fs, gs, Keys(SortByKey(a.fields)), Keys(SortByKey(b.fields)), cs, ds);
  }

  function ErasedPatterns(cases: seq<(P.Pattern, Expr)>): seq<P.Pattern> {
    seq(|cases|, i requires 0 <= i < |cases| => PatternWithoutIds(cases[i].0))
  }

  lemma CasePatternsAgreeIff(a: seq<(P.Pattern, Expr)>, b: seq<(P.Pattern, Expr)>)
    ensures CasePatternsAgree(a, b) <==> ErasedPatterns(a) == ErasedPatterns(b)
  {
    if |a| == |b| {
      forall i | 0 <= i < |a| ensures PatternsAgree(a[i].0, b[i].0) <==> ErasedPatterns(a)[i] == ErasedPatterns(b)[i] {
        PatternsAgreeIff(a[i].0, b[i].0);
      }
      SeqsAgree(ErasedPatterns(a), ErasedPatterns(b));
    }
  }

  lemma ConsAgree<T>(cs: seq<T>, ds: seq<T>)
    requires |cs| > 0 && |ds| > 0
    ensures cs == ds <==> cs[0] == ds[0] && cs[1..] == ds[1..]
  {
    assert cs == [cs[0]] + cs[1..] && ds == [ds[0]] + ds[1..];
  }

  lemma MatchesAgreeIff(a: Expr, b: Expr, cs: seq<Expr>, ds: seq<Expr>)
    requires a.EMatch? && b.EMatch?
    requires |cs| == |ComparedChildren(a)| && |ds| == |ComparedChildren(b)|
    ensures ErasureIsExact(a, b, cs, ds)
  {
    var ms, ns := WithChildren(ErasedNode(a), cs).cases, WithChildren(ErasedNode(b), ds).cases;
    PairsAgree(ms, ns, ErasedPatterns(a.cases), ErasedPatterns(b.cases), cs[1..], ds[1..]);
    CasePatternsAgreeIff(a.cases, b.cases);
    ConsAgree(cs, ds);
  }

  lemma LambdasAgreeIff(a: Expr, b: Expr, cs: seq<Expr>, ds: seq<Expr>)
    requires a.ELambda? && b.ELambda? && |cs| == |ds| == 1
    ensures ErasureIsExact(a, b, cs, ds)
  {
    var us, vs := VarsWithoutIds(a.vars), VarsWithoutIds(b.vars);
    if us == vs {
      forall i | 0 <= i < |a.vars| ensures a.vars[i].1 == b.vars[i].1 { assert us[i] == vs[i]; }
    }
  }

  lemma LeavesAgreeIff(a: Expr, b: Expr, cs: seq<Expr>, ds: seq<Expr>)
    requires Kind(a) == Kind(b) && (Kind(a) <= 5 || Kind(a) == 11 || Kind(a) == 21) && cs == ds == []
    ensures ErasureIsExact(a, b, cs, ds)
  {}

  lemma BranchesAgreeIff(a: Expr, b: Expr, cs: seq<Expr>, ds: seq<Expr>)
    requires Kind(a) == Kind(b) && (Kind(a) in {6, 7, 8, 22})
    requires |cs| == |ComparedChildren(a)| && |ds| == |ComparedChildren(b)|
    ensures ErasureIsExact(a, b, cs, ds)
  {}

  lemma UnariesAgreeIff(a: Expr, b: Expr, cs: seq<Expr>, ds: seq<Expr>)
    requires Kind(a) == Kind(b) && (Kind(a) in {10, 13, 14, 15})
    requires |cs| == |ComparedChildren(a)| && |ds| == |ComparedChildren(b)|
    ensures ErasureIsExact(a, b, cs, ds)
  {}

  lemma ListsAgreeIff(a: Expr, b: Expr, cs: seq<Expr>, ds: seq<Expr>)
    requires Kind(a) == Kind(b) && (Kind(a) in {12, 16, 18, 19})
    requires |cs| == |ComparedChildren(a)| && |ds| == |ComparedChildren(b)|
    ensures ErasureIsExact(a, b, cs, ds)
  {}

  lemma NodesAgreeIff(a: Expr, b: Expr, cs: seq<Expr>, ds: seq<Expr>)
    requires |cs| == |ComparedChildren(a)| && |ds| == |ComparedChildren(b)|
    ensures ErasureIsExact(a, b, cs, ds)
  {
    ErasedKind(a, cs);
    ErasedKind(b, ds);
    AgreeingKind(a, b);
    var k := Kind(a);
    if k == Kind(b) {
      if k == 17 {
        RecordsAgreeIff(a, b, cs, ds);
      } else if k == 20 {
        MatchesAgreeIff(a, b, cs, ds);
      } else if k == 9 {
        LambdasAgreeIff(a, b, cs, ds);
      } else if k in {6, 7, 8, 22} {
        BranchesAgreeIff(a, b, cs, ds);
      } else if k in {10, 13, 14, 15} {
        UnariesAgreeIff(a, b, cs, ds);
      } else if k in {12, 16, 18, 19} {
        ListsAgreeIff(a, b, cs, ds);
      } else {
        LeavesAgreeIff(a, b, cs, ds);
      }
    }
  }

  lemma ErasedOf(e: Expr, cs: seq<Expr>)
    requires |cs| == |ComparedChildren(e)|
    requires forall i :: 0 <= i < |cs| ==> cs[i] == Erased(ComparedChildren(e)[i])
    ensures Erased(e) == WithChildren(ErasedNode(e), cs)
  {
    var as_ := ComparedChildren(e);
    assert seq(|as_|, i requires 0 <= i < |as_| => Erased(as_[i])) == cs;
  }

  function ErasedAll(es: seq<Expr>): seq<Expr> {
    seq(|es|, i requires 0 <= i < |es| => Erased(es[i]))
  }

  lemma TestOfNode(a: Expr, b: Expr)
    ensures TestEqualIgnoringIds(a, b) <==> NodesAgree(a, b) && AllEqual(ComparedChildren(a), ComparedChildren(b))
  {}

  /** The test accepts two trees exactly when they are the same tree once ids are erased,
      feature flags are left unnamed and records are put in key order. */
  lemma {:induction false} EqualIffSameErased(a: Expr, b: Expr)
    ensures TestEqualIgnoringIds(a, b) <==> Erased(a) == Erased(b)
    decreases a
  {
    var as_, bs := ComparedChildren(a), ComparedChildren(b);
    var cs, ds := ErasedAll(as_), ErasedAll(bs);
    assert AllEqual(as_, bs) <==> cs == ds by {
      if |as_| == |bs| {
        forall i | 0 <= i < |as_| ensures TestEqualIgnoringIds(as_[i], bs[i]) <==> cs[i] == ds[i] {
          EqualIffSameErased(as_[i], bs[i]);
        }
        SeqsAgree(cs, ds);
      }
    }
    ErasedOf(a, cs);
    ErasedOf(b, ds);
    NodesAgreeIff(a, b, cs, ds);
    TestOfNode(a, b);
  }

  /** So the test is an equivalence. */
  lemma EqualIsEquivalence(a: Expr, b: Expr, c: Expr)
    ensures TestEqualIgnoringIds(a, a)
    ensures TestEqualIgnoringIds(a, b) ==> TestEqualIgnoringIds(b, a)
    ensures TestEqualIgnoringIds(a, b) && TestEqualIgnoringIds(b, c) ==> TestEqualIgnoringIds(a, c)
  {
    EqualIffSameErased(a, a);
    EqualIffSameErased(a, b);
    EqualIffSameErased(b, a);
    EqualIffSameErased(b, c);
    EqualIffSameErased(a, c);
  }

  // ---- The order of record fields does not matter

  lemma {:induction false} KeyLeqReflexive(a: string)
    ensures KeyLeq(a, a)
  {
    if |a| == 0 {
    } else {
      KeyLeqReflexive(a[1..]);
    }
  }

  lemma {:induction false} KeyLeqTotal(a: string, b: string)
    ensures KeyLeq(a, b) || KeyLeq(b, a)
  {
    if |a| == 0 || |b| == 0 {
    } else {
      KeyLeqTotal(a[1..], b[1..]);
    }
  }

  lemma {:induction false} KeyLeqAntisymmetric(a: string, b: string)
    requires KeyLeq(a, b) && KeyLeq(b, a)
    ensures a == b
  {
    if |a| == 0 {
    } else {
      KeyLeqAntisymmetric(a[1..], b[1..]);
      assert a == [a[0]] + a[1..] && b == [b[0]] + b[1..];
    }
  }

  lemma {:induction false} KeyLeqTransitive(a: string, b: string, c: string)
    requires KeyLeq(a, b) && KeyLeq(b, c)
    ensures KeyLeq(a, c)
  {
    if |a| == 0 {
    } else if a[0] == b[0] && b[0] == c[0] {
      KeyLeqTransitive(a[1..], b[1..], c[1..]);
    }
  }

  ghost predicate Sorted(fs: Fields) {
    forall i, j :: 0 <= i < j < |fs| ==> KeyLeq(fs[i].0, fs[j].0)
  }

  lemma {:induction false} InsertSorts(f: (string, Expr), fs: Fields)
    requires Sorted(fs)
    ensures Sorted(Insert(f, fs))
  {
    var r := Insert(f, fs);
    if |fs| == 0 {
    } else if KeyLeq(f.0, fs[0].0) {
      forall j | 0 < j < |r| ensures KeyLeq(f.0, r[j].0) {
        if j > 1 { KeyLeqTransitive(f.0, fs[0].0, fs[j - 1].0); }
      }
    } else {
      var rest := Insert(f, fs[1..]);
      InsertSorts(f, fs[1..]);
      KeyLeqTotal(f.0, fs[0].0);
      forall j | 0 <= j < |rest| ensures KeyLeq(fs[0].0, rest[j].0) {
        assert rest[j] in multiset(rest) && multiset(rest) == multiset{f} + multiset(fs[1..]);
        if rest[j] != f {
          assert rest[j] in fs[1..];
          var k :| 0 <= k < |fs[1..]| && fs[1..][k] == rest[j];
          assert fs[k + 1] == rest[j];
        }
      }
    }
  }

  lemma {:induction false} SortSorts(fs: Fields)
    ensures Sorted(SortByKey(fs))
  {
    if |fs| == 0 {
    } else {
      SortSorts(fs[1..]);
      InsertSorts(fs[0], SortByKey(fs[1..]));
    }
  }

  function OfKey(fs: Fields, key: string): Fields {
    if |fs| == 0 then []
    else if fs[0].0 == key then [fs[0]] + OfKey(fs[1..], key)
    else OfKey(fs[1..], key)
  }

  lemma {:induction false} InsertIsStable(f: (string, Expr), fs: Fields, key: string)
    ensures OfKey(Insert(f, fs), key) == OfKey([f] + fs, key)
  {
    assert ([f] + fs)[1..] == fs;
    if |fs| == 0 || KeyLeq(f.0, fs[0].0) {
    } else {
      KeyLeqReflexive(f.0);
      InsertIsStable(f, fs[1..], key);
      assert ([f] + fs[1..])[1..] == fs[1..];
      assert Insert(f, fs)[1..] == Insert(f, fs[1..]);
    }
  }

  /** The sort is by key, and fields of one key keep their order. */
  lemma {:induction false} SortIsStable(fs: Fields, key: string)
    ensures Sorted(SortByKey(fs)) && multiset(SortByKey(fs)) == multiset(fs)
    ensures OfKey(SortByKey(fs), key) == OfKey(fs, key)
  {
    SortSorts(fs);
    if |fs| == 0 {
    } else {
      SortIsStable(fs[1..], key);
      InsertIsStable(fs[0], SortByKey(fs[1..]), key);
      assert ([fs[0]] + SortByKey(fs[1..]))[1..] == SortByKey(fs[1..]);
    }
  }

  ghost predicate DistinctKeys(fs: Fields) {
    forall i, j :: 0 <= i < |fs| && 0 <= j < |fs| && fs[i].0 == fs[j].0 ==> fs[i] == fs[j]
  }

  lemma SameFirst(fs: Fields, gs: Fields)
    requires Sorted(fs) && Sorted(gs) && multiset(fs) == multiset(gs) && DistinctKeys(fs) && |fs| > 0
    ensures |gs| > 0 && fs[0] == gs[0]
  {
    assert fs[0] in multiset(gs);
    var j :| 0 <= j < |gs| && gs[j] == fs[0];
    assert gs[0] in multiset(fs);
    var i :| 0 <= i < |fs| && fs[i] == gs[0];
    KeyLeqReflexive(fs[0].0);
    KeyLeqReflexive(gs[0].0);
    KeyLeqAntisymmetric(fs[0].0, gs[0].0);
    assert fs[0].0 == fs[i].0;
  }

  lemma SameRest(fs: Fields, gs: Fields)
    requires |fs| > 0 && |gs| > 0 && fs[0] == gs[0] && multiset(fs) == multiset(gs)
    ensures multiset(fs[1..]) == multiset(gs[1..])
  {
    assert fs == [fs[0]] + fs[1..] && gs == [gs[0]] + gs[1..];
    assert multiset(fs[1..]) == multiset(fs) - multiset{fs[0]};
  }

  lemma {:induction false} OneSortedOrder(fs: Fields, gs: Fields)
    requires Sorted(fs) && Sorted(gs) && multiset(fs) == multiset(gs) && DistinctKeys(fs)
    ensures fs == gs
  {
    if |fs| == 0 {
      assert |multiset(gs)| == 0;
    } else {
      SameFirst(fs, gs);
      SameRest(fs, gs);
      OneSortedOrder(fs[1..], gs[1..]);
      assert fs == [fs[0]] + fs[1..] && gs == [gs[0]] + gs[1..];
    }
  }

  /** Two records with the same fields in another order are the same to the test. */
  lemma {:induction false} FieldOrderIsIgnored(id: Id, id': Id, fs: Fields, gs: Fields)
    requires multiset(fs) == multiset(gs) && DistinctKeys(fs)
    ensures TestEqualIgnoringIds(ERecord(id, fs), ERecord(id', gs))
  {
    var a, b := ERecord(id, fs), ERecord(id', gs);
    SortIsStable(fs, "");
    SortIsStable(gs, "");
    KeysStayDistinct(fs);
    OneSortedOrder(SortByKey(fs), SortByKey(gs));
    EqualIffSameErased(a, a);
    TestOfNode(a, a);
    TestOfNode(a, b);
  }

  lemma {:induction false} KeysStayDistinct(fs: Fields)
    requires DistinctKeys(fs)
    ensures DistinctKeys(SortByKey(fs))
  {
    var r := SortByKey(fs);
    forall i, j | 0 <= i < |r| && 0 <= j < |r| && r[i].0 == r[j].0 ensures r[i] == r[j] {
      assert r[i] in multiset(fs) && r[j] in multiset(fs);
      var a :| 0 <= a < |fs| && fs[a] == r[i];
      var b :| 0 <= b < |fs| && fs[b] == r[j];
    }
  }

  // ---- A clone passes the test

  predicate AllEqual(as_: seq<Expr>, bs: seq<Expr>) {
    |as_| == |bs| && forall i :: 0 <= i < |as_| ==> TestEqualIgnoringIds(as_[i], bs[i])
  }

  predicate FieldsCorrespond(fs: Fields, gs: Fields) {
    |fs| == |gs| && forall i :: 0 <= i < |fs| ==> fs[i].0 == gs[i].0 && TestEqualIgnoringIds(fs[i].1, gs[i].1)
  }

  lemma ConsCorresponds(f: (string, Expr), g: (string, Expr), fs: Fields, gs: Fields)
    requires f.0 == g.0 && TestEqualIgnoringIds(f.1, g.1) && FieldsCorrespond(fs, gs)
    ensures FieldsCorrespond([f] + fs, [g] + gs)
  {
    forall i | 0 <= i < |fs| + 1
      ensures ([f] + fs)[i].0 == ([g] + gs)[i].0 && TestEqualIgnoringIds(([f] + fs)[i].1, ([g] + gs)[i].1)
    {
      if i > 0 { assert fs[i - 1].0 == gs[i - 1].0; }
    }
  }

  lemma TailCorresponds(fs: Fields, gs: Fields)
    requires |fs| > 0 && FieldsCorrespond(fs, gs)
    ensures FieldsCorrespond(fs[1..], gs[1..])
  {}

  lemma {:induction false} InsertCorresponds(f: (string, Expr), g: (string, Expr), fs: Fields, gs: Fields)
    requires f.0 == g.0 && TestEqualIgnoringIds(f.1, g.1) && FieldsCorrespond(fs, gs)
    ensures FieldsCorrespond(Insert(f, fs), Insert(g, gs))
  {
    if |fs| == 0 || KeyLeq(f.0, fs[0].0) {
      ConsCorresponds(f, g, fs, gs);
    } else {
      TailCorresponds(fs, gs);
      InsertCorresponds(f, g, fs[1..], gs[1..]);
      ConsCorresponds(fs[0], gs[0], Insert(f, fs[1..]), Insert(g, gs[1..]));
    }
  }

  /** The sort looks at keys only, so fields that correspond still do when sorted. */
  lemma {:induction false} SortCorresponds(fs: Fields, gs: Fields)
    requires FieldsCorrespond(fs, gs)
    ensures FieldsCorrespond(SortByKey(fs), SortByKey(gs))
  {
    if |fs| == 0 {
    } else {
      SortCorresponds(fs[1..], gs[1..]);
      InsertCorresponds(fs[0], gs[0], SortByKey(fs[1..]), SortByKey(gs[1..]));
    }
  }

  lemma {:induction false} ClonedPatternAgrees(gid: Gid, matchID: Id, p: P.Pattern, n: nat)
    ensures PatternsAgree(p, ClonePattern(gid, matchID, p, n).0)
    decreases p, 1
  {
    if p.FPConstructor? { ClonedPatternsAgree(gid, matchID, p.patterns, n + 1); }
  }

  predicate AllPatternsAgree(ps: seq<P.Pattern>, qs: seq<P.Pattern>) {
    |ps| == |qs| && forall i :: 0 <= i < |ps| ==> PatternsAgree(ps[i], qs[i])
  }

  lemma {:induction false} ClonedPatternsAgree(gid: Gid, matchID: Id, ps: seq<P.Pattern>, n: nat)
    ensures AllPatternsAgree(ps, ClonePatterns(gid, matchID, ps, n).0)
    decreases ps, 0
  {
    if |ps| == 0 {
    } else {
      ClonedPatternAgrees(gid, matchID, ps[0], n);
      ClonedPatternsAgree(gid, matchID, ps[1..], ClonePattern(gid, matchID, ps[0], n).1);
    }
  }

  lemma {:induction false} ClonedCasesAgree(gid: Gid, matchID: Id, cases: seq<(P.Pattern, Expr)>, n: nat)
    ensures CasePatternsAgree(cases, CloneCasePatterns(gid, matchID, cases, n).0)
  {
    if |cases| == 0 {
    } else {
      ClonedPatternAgrees(gid, matchID, cases[0].0, n);
      ClonedCasesAgree(gid, matchID, cases[1..], ClonePattern(gid, matchID, cases[0].0, n).1);
    }
  }

  lemma {:induction false} ClonedVarsAgree(gid: Gid, vars: seq<(Id, string)>, n: nat)
    ensures VarsAgree(vars, CloneVars(gid, vars, n))
  {
    if |vars| == 0 {
    } else {
      ClonedVarsAgree(gid, vars[1..], n + 1);
    }
  }

  lemma {:induction false} FreshNodeAgrees(gid: Gid, e: Expr, n: nat, cs: seq<Expr>)
    requires |cs| == |Children(e)| && !e.ERecord?
    ensures NodesAgree(e, WithChildren(FreshNode(gid, e, n).0, cs))
  {
    if e.ELambda? {
      ClonedVarsAgree(gid, e.vars, n + 1);
    } else if e.EMatch? {
      ClonedCasesAgree(gid, gid(n), e.cases, n + 1);
    }
  }

  /** For every tree the clone is equal to it up to ids. */
  lemma {:induction false} CloneIsEqualIgnoringIds(gid: Gid, e: Expr, n: nat)
    ensures TestEqualIgnoringIds(e, Clone(gid, e, n).0)
    decreases Size(e), 0
  {
    SizeOfNode(e);
    var (node, m) := FreshNode(gid, e, n);
    var cs := CloneAll(gid, Children(e), m).0;
    ClonesAreEqualIgnoringIds(gid, Children(e), m);
    var r := WithChildren(node, cs);
    if e.ERecord? {
      RecordsCorrespond(e, r);
    } else {
      FreshNodeAgrees(gid, e, n, cs);
      assert ComparedChildren(r) == cs && AllEqual(Children(e), cs);
    }
  }

  lemma {:induction false} RecordsCorrespond(e: Expr, r: Expr)
    requires e.ERecord? && r.ERecord? && FieldsCorrespond(e.fields, r.fields)
    ensures TestEqualIgnoringIds(e, r)
  {
    SortCorresponds(e.fields, r.fields);
    assert Keys(SortByKey(e.fields)) == Keys(SortByKey(r.fields));
    assert AllEqual(ComparedChildren(e), ComparedChildren(r));
  }

  lemma {:induction false} ClonesAreEqualIgnoringIds(gid: Gid, es: seq<Expr>, n: nat)
    ensures AllEqual(es, CloneAll(gid, es, n).0)
    decreases Sizes(es), 1
  {
    if |es| == 0 {
    } else {
      CloneIsEqualIgnoringIds(gid, es[0], n);
      ClonesAreEqualIgnoringIds(gid, es[1..], Clone(gid, es[0], n).1);
    }
  }
}
