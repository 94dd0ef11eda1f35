/** Scoped renaming of variable uses (FluidExpression.ml) and its effect on binding. */
module FluidRename {
  import opened Common
  import opened FluidExpression
  import opened FluidTree
  import P = FluidPattern

  function VarNames(vars: seq<(Id, string)>): seq<string> {
    seq(|vars|, i requires 0 <= i < |vars| => vars[i].1)
  }

  /** updateVariableUses: `f` on every use of `oldName`, except where it is rebound. */
  function UpdateVariableUses(oldName: string, f: Expr -> Expr, ast: Expr): Expr
    decreases ast
  {
    if ast.EVariable? then
      if ast.name == oldName then f(ast) else ast
    else if ast.ELet? then
      var rhs := UpdateVariableUses(oldName, f, ast.rhs);
      if oldName == ast.lhs then ELet(ast.id, ast.lhs, rhs, ast.body)
      else ELet(ast.id, ast.lhs, rhs, UpdateVariableUses(oldName, f, ast.body))
    else if ast.ELambda? then
      if oldName in VarNames(ast.vars) then ast
      else ELambda(ast.id, ast.vars, UpdateVariableUses(oldName, f, ast.body))
    else if ast.EMatch? then
      EMatch(ast.id, UpdateVariableUses(oldName, f, ast.matchExpr),
             seq(|ast.cases|, i requires 0 <= i < |ast.cases| =>
               if P.HasVariableNamed(oldName, ast.cases[i].0) then ast.cases[i]
               else (ast.cases[i].0, UpdateVariableUses(oldName, f, ast.cases[i].1))))
    else
      var cs := Children(ast);
      WithChildren(ast, seq(|cs|, i requires 0 <= i < |cs| => UpdateVariableUses(oldName, f, cs[i])))
  }

  function RenameTo(newName: string): Expr -> Expr {
    (e: Expr) => match e case EVariable(id, _) => EVariable(id, newName) case _ => e
  }

  function Rename(oldName: string, newName: string, ast: Expr): Expr {
    UpdateVariableUses(oldName, RenameTo(newName), ast)
  }

  // ---- Scopes

  /** The names a node binds in its `i`-th subexpression. */
  function Binders(e: Expr, i: nat): seq<string> {
    match e
    case ELet(_, lhs, _, _) => if i == 1 then [lhs] else []
    case ELambda(_, vars, _) => VarNames(vars)
    case EMatch(_, _, cases) => if 1 <= i <= |cases| then P.VariableNames(cases[i - 1].0) else []
    case _ => []
  }

  lemma BindersOfRebuilt(e: Expr, cs: seq<Expr>, i: nat)
    requires |cs| == |Children(e)|
    ensures Binders(WithChildren(e, cs), i) == Binders(e, i)
  {}

  /** The new subexpressions of a node: a subexpression in which `oldName` is rebound is
      left alone. */
  function RenamedChildren(oldName: string, newName: string, e: Expr): (cs: seq<Expr>)
    ensures |cs| == |Children(e)|
  {
    seq(|Children(e)|, i requires 0 <= i < |Children(e)| =>
      if oldName in Binders(e, i) then Children(e)[i] else Rename(oldName, newName, Children(e)[i]))
  }

  /** One rule for all branches of the source. */
  lemma {:induction false} RenameOfNode(oldName: string, newName: string, e: Expr)
    requires !e.EVariable?
    ensures Rename(oldName, newName, e) == WithChildren(e, RenamedChildren(oldName, newName, e))
  {
    if e.EMatch? {
      RenameOfMatch(oldName, newName, e);
    } else if e.ELet? || e.ELambda? {
    } else {
      RenameOfOther(oldName, newName, e);
    }
  }

  lemma {:induction false} RenameOfMatch(oldName: string, newName: string, e: Expr)
    requires e.EMatch?
    ensures Rename(oldName, newName, e) == WithChildren(e, RenamedChildren(oldName, newName, e))
  {
    var r, w := Rename(oldName, newName, e), WithChildren(e, RenamedChildren(oldName, newName, e));
    assert |r.cases| == |w.cases| == |e.cases|;
    forall i | 0 <= i < |e.cases| ensures r.cases[i] == w.cases[i] { RenameOfCase(oldName, newName, e, i); }
    assert r.cases == w.cases;
  }

  lemma {:induction false} RenameOfCase(oldName: string, newName: string, e: Expr, i: nat)
    requires e.EMatch? && i < |e.cases|
    ensures Rename(oldName, newName, e).cases[i] == (e.cases[i].0, RenamedChildren(oldName, newName, e)[i + 1])
  {
    var c := Children(e)[i + 1];
    assert c == e.cases[i].1;
    assert Binders(e, i + 1) == P.VariableNames(e.cases[i].0);
    assert RenamedChildren(oldName, newName, e)[i + 1]
        == if oldName in Binders(e, i + 1) then c else Rename(oldName, newName, c);
  }

  lemma {:induction false} RenameOfOther(oldName: string, newName: string, e: Expr)
    requires !e.EVariable? && !e.ELet? && !e.ELambda? && !e.EMatch?
    ensures Rename(oldName, newName, e) == WithChildren(e, RenamedChildren(oldName, newName, e))
  {
    var cs := Children(e);
    assert RenamedChildren(oldName, newName, e)
        == seq(|cs|, i requires 0 <= i < |cs| => UpdateVariableUses(oldName, RenameTo(newName), cs[i]));
  }

  // ---- Nameless form

  datatype Ref = Bound(index: nat) | Free(name: string)

  /** A tree in which a variable is the distance to its binder, or a free name. The shell
      keeps everything else of a node: constructor, ids, literals, names it binds. */
  datatype Nameless = Var(id: Id, ref: Ref) | Node(shell: Expr, kids: seq<Nameless>)

  ghost function Shell(e: Expr): Expr {
    WithChildren(e, seq(|Children(e)|, _ => EBlank(0)))
  }

  function IndexOf(name: string, env: seq<string>): nat
    requires name in env
  {
    if env[0] == name then 0 else 1 + IndexOf(name, env[1..])
  }

  ghost function ToNameless(e: Expr, env: seq<string>): Nameless
    decreases e
  {
    if e.EVariable? then Var(e.id, if e.name in env then Bound(IndexOf(e.name, env)) else Free(e.name))
    else Node(Shell(e), seq(|Children(e)|, i requires 0 <= i < |Children(e)| =>
                            ToNameless(Children(e)[i], Binders(e, i) + env)))
  }

  /** Free `oldName` read as free `newName`. */
  ghost function SubstFree(oldName: string, newName: string, n: Nameless): Nameless
    decreases n
  {
    match n
    case Var(id, ref) => Var(id, if ref == Free(oldName) then Free(newName) else ref)
    case Node(shell, kids) =>
      Node(shell, seq(|kids|, i requires 0 <= i < |kids| => SubstFree(oldName, newName, kids[i])))
  }

  /** A free use of `oldName` lies in the scope of a binder of `newName`. */
  predicate Captures(oldName: string, newName: string, e: Expr, inScope: bool)
    decreases e, 1
  {
    if e.EVariable? then e.name == oldName && inScope
    else exists i: nat :: i < |Children(e)| && CapturesInChild(oldName, newName, e, i, inScope)
  }

  predicate CapturesInChild(oldName: string, newName: string, e: Expr, i: nat, inScope: bool)
    requires i < |Children(e)|
    decreases e, 0
  {
    oldName !in Binders(e, i) && Captures(oldName, newName, Children(e)[i], inScope || newName in Binders(e, i))
  }

  predicate IsFree(name: string, e: Expr)
    decreases e, 1
  {
    if e.EVariable? then e.name == name
    else exists i: nat :: i < |Children(e)| && IsFreeInChild(name, e, i)
  }

  predicate IsFreeInChild(name: string, e: Expr, i: nat)
    requires i < |Children(e)|
    decreases e, 0
  {
    name !in Binders(e, i) && IsFree(name, Children(e)[i])
  }

  /** Nothing in a subtree where `oldName` is bound reads as free `oldName`. */
  lemma {:induction false} NothingToSubstitute(oldName: string, newName: string, e: Expr, env: seq<string>)
    requires oldName in env
    ensures SubstFree(oldName, newName, ToNameless(e, env)) == ToNameless(e, env)
    decreases e
  {
    if !e.EVariable? {
      var n := ToNameless(e, env);
      forall i | 0 <= i < |Children(e)|
        ensures SubstFree(oldName, newName, n.kids[i]) == n.kids[i]
      {
        NothingToSubstitute(oldName, newName, Children(e)[i], Binders(e, i) + env);
      }
      assert SubstFree(oldName, newName, n).kids == n.kids;
    }
  }

  lemma {:induction false} ShellOfRebuilt(e: Expr, cs: seq<Expr>)
    requires |cs| == |Children(e)|
    ensures Shell(WithChildren(e, cs)) == Shell(e)
  {
    WithChildrenTwice(e, cs, seq(|cs|, _ => EBlank(0)));
    assert seq(|Children(e)|, _ => EBlank(0)) == seq(|cs|, _ => EBlank(0));
  }

  /** The nameless form of the renamed tree, kid by kid. */
  lemma {:induction false} NamelessOfRenamed(oldName: string, newName: string, e: Expr, env: seq<string>)
    requires !e.EVariable?
    ensures var n := ToNameless(Rename(oldName, newName, e), env);
            n.Node? && n.shell == Shell(e) && |n.kids| == |Children(e)|
            && forall i :: 0 <= i < |n.kids| ==>
                 n.kids[i] == ToNameless(RenamedChildren(oldName, newName, e)[i], Binders(e, i) + env)
  {
    var cs := RenamedChildren(oldName, newName, e);
    RenameOfNode(oldName, newName, e);
    ShellOfRebuilt(e, cs);
    var r := WithChildren(e, cs);
    forall i | 0 <= i < |cs| ensures Binders(r, i) == Binders(e, i) { BindersOfRebuilt(e, cs, i); }
    assert !r.EVariable?;
  }

  ghost function KidsLeft(oldName: string, newName: string, e: Expr, env: seq<string>): seq<Nameless> {
    seq(|Children(e)|, i requires 0 <= i < |Children(e)| =>
      ToNameless(RenamedChildren(oldName, newName, e)[i], Binders(e, i) + env))
  }

  ghost function KidsRight(oldName: string, newName: string, e: Expr, env: seq<string>): seq<Nameless> {
    seq(|Children(e)|, i requires 0 <= i < |Children(e)| =>
      SubstFree(oldName, newName, ToNameless(Children(e)[i], Binders(e, i) + env)))
  }

  lemma {:induction false} BothSidesAreNodes(oldName: string, newName: string, e: Expr, env: seq<string>)
    requires !e.EVariable?
    ensures ToNameless(Rename(oldName, newName, e), env) == Node(Shell(e), KidsLeft(oldName, newName, e, env))
    ensures SubstFree(oldName, newName, ToNameless(e, env)) == Node(Shell(e), KidsRight(oldName, newName, e, env))
  {
    NamelessOfRenamed(oldName, newName, e, env);
    assert ToNameless(Rename(oldName, newName, e), env).kids == KidsLeft(oldName, newName, e, env);
    assert SubstFree(oldName, newName, ToNameless(e, env)).kids == KidsRight(oldName, newName, e, env);
  }

  /** Renaming keeps the binding structure exactly when it captures nothing. */
  lemma {:induction false} RenameKeepsBindingIff(oldName: string, newName: string, e: Expr, env: seq<string>)
    requires oldName !in env && oldName != newName
    ensures ToNameless(Rename(oldName, newName, e), env) == SubstFree(oldName, newName, ToNameless(e, env))
        <==> !Captures(oldName, newName, e, newName in env)
    decreases e, 1
  {
    if !e.EVariable? {
      BothSidesAreNodes(oldName, newName, e, env);
      var left, right := KidsLeft(oldName, newName, e, env), KidsRight(oldName, newName, e, env);
      forall i: nat | i < |Children(e)|
        ensures left[i] == right[i] <==> !CapturesInChild(oldName, newName, e, i, newName in env)
      {
        RenameKeepsBindingInChild(oldName, newName, e, i, env);
      }
      SeqsAgree(left, right);
    }
  }

  lemma {:induction false} RenameKeepsBindingInChild(
    oldName: string, newName: string, e: Expr, i: nat, env: seq<string>)
    requires oldName !in env && oldName != newName && i < |Children(e)|
    ensures ToNameless(RenamedChildren(oldName, newName, e)[i], Binders(e, i) + env)
         == SubstFree(oldName, newName, ToNameless(Children(e)[i], Binders(e, i) + env))
        <==> !CapturesInChild(oldName, newName, e, i, newName in env)
    decreases e, 0
  {
    if oldName in Binders(e, i) {
      NothingToSubstitute(oldName, newName, Children(e)[i], Binders(e, i) + env);
    } else {
      RenameKeepsBindingIff(oldName, newName, Children(e)[i], Binders(e, i) + env);
    }
  }

  // ---- Free variables

  lemma {:induction false} CapturesInScopeIsFree(oldName: string, newName: string, e: Expr)
    ensures Captures(oldName, newName, e, true) <==> IsFree(oldName, e)
    decreases e
  {
    if !e.EVariable? {
      forall i: nat | i < |Children(e)|
        ensures CapturesInChild(oldName, newName, e, i, true) <==> IsFreeInChild(oldName, e, i)
      {
        CapturesInScopeIsFree(oldName, newName, Children(e)[i]);
      }
    }
  }

  /** Renaming changes a tree exactly when the name is free in it. */
  lemma {:induction false} RenameIsIdentityIff(oldName: string, newName: string, e: Expr)
    requires oldName != newName
    ensures Rename(oldName, newName, e) == e <==> !IsFree(oldName, e)
    decreases e
  {
    if !e.EVariable? {
      var cs, rs := Children(e), RenamedChildren(oldName, newName, e);
      RenameOfNode(oldName, newName, e);
      WithOwnChildren(e);
      forall i | 0 <= i < |cs|
        ensures rs[i] == cs[i] <==> !IsFreeInChild(oldName, e, i)
      {
        RenameIsIdentityIff(oldName, newName, cs[i]);
      }
      assert WithChildren(e, rs) == e <==> rs == cs;
      SeqsAgree(rs, cs);
    }
  }

  /** Without capture the free variables are the old ones with `oldName` replaced. */
  lemma {:induction false} FreeVariablesOfRenamed(oldName: string, newName: string, e: Expr, x: string)
    requires oldName != newName && !Captures(oldName, newName, e, false)
    ensures IsFree(x, Rename(oldName, newName, e))
        <==> (IsFree(x, e) && x != oldName) || (x == newName && IsFree(oldName, e))
    decreases e, 1
  {
    if !e.EVariable? {
      RenameOfNode(oldName, newName, e);
      var r := WithChildren(e, RenamedChildren(oldName, newName, e));
      forall i: nat | i < |Children(e)|
        ensures IsFreeInChild(x, r, i)
            <==> (IsFreeInChild(x, e, i) && x != oldName) || (x == newName && IsFreeInChild(oldName, e, i))
      {
        FreeVariablesOfRenamedChild(oldName, newName, e, i, x);
      }
      FreeByChildren(oldName, newName, e, r, x);
    }
  }

  ghost predicate FreeLike(oldName: string, newName: string, e: Expr, r: Expr, x: string) {
    && !e.EVariable? && !r.EVariable? && |Children(r)| == |Children(e)|
    && forall i: nat :: i < |Children(e)| ==>
         (IsFreeInChild(x, r, i)
          <==> (IsFreeInChild(x, e, i) && x != oldName) || (x == newName && IsFreeInChild(oldName, e, i)))
  }

  lemma FreeByChildren(oldName: string, newName: string, e: Expr, r: Expr, x: string)
    requires FreeLike(oldName, newName, e, r, x)
    ensures IsFree(x, r) <==> (IsFree(x, e) && x != oldName) || (x == newName && IsFree(oldName, e))
  {
    if x != oldName { FreeIfInChildren(x, x, e, r); }
    if x == newName { FreeIfInChildren(oldName, x, e, r); }
    NotFreeByChildren(oldName, newName, e, r, x);
  }

  lemma NotFreeByChildren(oldName: string, newName: string, e: Expr, r: Expr, x: string)
    requires FreeLike(oldName, newName, e, r, x)
    ensures !(IsFree(x, e) && x != oldName) && !(x == newName && IsFree(oldName, e)) ==> !IsFree(x, r)
  {
    if !(IsFree(x, e) && x != oldName) && !(x == newName && IsFree(oldName, e)) {
      forall i: nat | i < |Children(e)| ensures !IsFreeInChild(x, r, i) {
        if x != oldName { FreeInChildIsFree(x, e, i); }
        if x == newName { FreeInChildIsFree(oldName, e, i); }
      }
      NotFreeInChildren(x, r);
    }
  }

  lemma FreeInChildIsFree(name: string, e: Expr, i: nat)
    requires !e.EVariable? && i < |Children(e)|
    ensures IsFreeInChild(name, e, i) ==> IsFree(name, e)
  {}

  lemma FreeIfInChildren(name: string, x: string, e: Expr, r: Expr)
    requires !e.EVariable? && !r.EVariable? && |Children(r)| == |Children(e)|
    requires forall i: nat :: i < |Children(e)| && IsFreeInChild(name, e, i) ==> IsFreeInChild(x, r, i)
    ensures IsFree(name, e) ==> IsFree(x, r)
  {
    if !IsFree(x, r) {
      forall i: nat | i < |Children(e)| ensures !IsFreeInChild(name, e, i) { FreeInChildIsFree(x, r, i); }
      NotFreeInChildren(name, e);
    }
  }

  lemma {:induction false} FreeVariablesOfRenamedChild(oldName: string, newName: string, e: Expr, i: nat, x: string)
    requires oldName != newName && i < |Children(e)| && !CapturesInChild(oldName, newName, e, i, false)
    ensures IsFreeInChild(x, WithChildren(e, RenamedChildren(oldName, newName, e)), i)
        <==> (IsFreeInChild(x, e, i) && x != oldName) || (x == newName && IsFreeInChild(oldName, e, i))
    decreases e, 0
  {
    var c := Children(e)[i];
    BindersOfRebuilt(e, RenamedChildren(oldName, newName, e), i);
    if oldName in Binders(e, i) {
    } else if newName in Binders(e, i) {
      CapturesInScopeIsFree(oldName, newName, c);
      RenameIsIdentityIff(oldName, newName, c);
    } else {
      FreeVariablesOfRenamed(oldName, newName, c, x);
    }
  }

  /** Renaming back restores the tree exactly when `newName` was not free in it and
      nothing was captured. */
  lemma {:induction false} RenamingBackRestoresIff(oldName: string, newName: string, e: Expr)
    requires oldName != newName
    ensures Rename(newName, oldName, Rename(oldName, newName, e)) == e
        <==> !IsFree(newName, e) && !Captures(oldName, newName, e, false)
    decreases e, 1
  {
    if !e.EVariable? {
      var r := WithChildren(e, RenamedChildren(oldName, newName, e));
      var bs := RenamedChildren(newName, oldName, r);
      RenameTwiceOfNode(oldName, newName, e);
      forall i | 0 <= i < |Children(e)|
        ensures bs[i] == Children(e)[i]
            <==> !IsFreeInChild(newName, e, i) && !CapturesInChild(oldName, newName, e, i, false)
      {
        BackInOneChild(oldName, newName, e, i);
      }
      SeqsAgree(bs, Children(e));
      if bs == Children(e) {
        forall i: nat | i < |Children(e)|
          ensures !IsFreeInChild(newName, e, i) && !CapturesInChild(oldName, newName, e, i, false)
        {
          assert bs[i] == Children(e)[i];
        }
        NotFreeInChildren(newName, e);
        NoCaptureInChildren(oldName, newName, e);
      }
    }
  }

  lemma NotFreeInChildren(name: string, e: Expr)
    requires !e.EVariable? && forall i: nat :: i < |Children(e)| ==> !IsFreeInChild(name, e, i)
    ensures !IsFree(name, e)
  {}

  lemma NoCaptureInChildren(oldName: string, newName: string, e: Expr)
    requires !e.EVariable?
    requires forall i: nat :: i < |Children(e)| ==> !CapturesInChild(oldName, newName, e, i, false)
    ensures !Captures(oldName, newName, e, false)
  {}

  lemma {:induction false} RenameTwiceOfNode(oldName: string, newName: string, e: Expr)
    requires !e.EVariable?
    ensures var bs := RenamedChildren(newName, oldName, WithChildren(e, RenamedChildren(oldName, newName, e)));
            |bs| == |Children(e)|
            && (Rename(newName, oldName, Rename(oldName, newName, e)) == e <==> bs == Children(e))
  {
    var rs := RenamedChildren(oldName, newName, e);
    RenameOfNode(oldName, newName, e);
    var r := WithChildren(e, rs);
    assert !r.EVariable?;
    RenameOfNode(newName, oldName, r);
    var bs := RenamedChildren(newName, oldName, r);
    WithChildrenTwice(e, rs, bs);
    WithOwnChildren(e);
  }

  lemma {:induction false} BackInOneChild(oldName: string, newName: string, e: Expr, i: nat)
    requires oldName != newName && i < |Children(e)|
    ensures var r := WithChildren(e, RenamedChildren(oldName, newName, e));
            RenamedChildren(newName, oldName, r)[i] == Children(e)[i]
            <==> !IsFreeInChild(newName, e, i) && !CapturesInChild(oldName, newName, e, i, false)
    decreases e, 0
  {
    var c, rs := Children(e)[i], RenamedChildren(oldName, newName, e);
    BindersOfRebuilt(e, rs, i);
    if oldName in Binders(e, i) {
      RenameIsIdentityIff(newName, oldName, c);
    } else if newName in Binders(e, i) {
      RenameIsIdentityIff(oldName, newName, c);
      CapturesInScopeIsFree(oldName, newName, c);
    } else {
      RenamingBackRestoresIff(oldName, newName, c);
    }
  }

  // ---- A name that does not occur

  /** `name` is used or bound somewhere in the tree. */
  predicate Occurs(name: string, e: Expr)
    decreases e
  {
    if e.EVariable? then e.name == name
    else exists i :: 0 <= i < |Children(e)| && (name in Binders(e, i) || Occurs(name, Children(e)[i]))
  }

  lemma {:induction false} FreshNameIsSafe(oldName: string, newName: string, e: Expr)
    requires !Occurs(newName, e)
    ensures !Captures(oldName, newName, e, false) && !IsFree(newName, e)
    decreases e
  {
    if !e.EVariable? {
      forall i | 0 <= i < |Children(e)|
        ensures !CapturesInChild(oldName, newName, e, i, false) && !IsFreeInChild(newName, e, i)
      {
        FreshNameIsSafe(oldName, newName, Children(e)[i]);
      }
    }
  }

  /** Renaming to a name that does not occur keeps the binding structure, replaces the
      name among the free variables, and can be undone. */
  lemma {:induction false} RenameToFreshName(oldName: string, newName: string, e: Expr)
    requires !Occurs(newName, e) && oldName != newName
    ensures ToNameless(Rename(oldName, newName, e), []) == SubstFree(oldName, newName, ToNameless(e, []))
    ensures forall x :: IsFree(x, Rename(oldName, newName, e))
                        <==> (IsFree(x, e) && x != oldName) || (x == newName && IsFree(oldName, e))
    ensures Rename(newName, oldName, Rename(oldName, newName, e)) == e
  {
    FreshNameIsSafe(oldName, newName, e);
    RenameKeepsBindingIff(oldName, newName, e, []);
    RenamingBackRestoresIff(oldName, newName, e);
    forall x ensures IsFree(x, Rename(oldName, newName, e))
                     <==> (IsFree(x, e) && x != oldName) || (x == newName && IsFree(oldName, e))
    {
      FreeVariablesOfRenamed(oldName, newName, e, x);
    }
  }

  // ---- What renaming never touches

  /** The tree with the names of its variable uses wiped. */
  function WithoutUses(e: Expr): Expr
    decreases e
  {
    if e.EVariable? then EVariable(e.id, "")
    else WithChildren(e, seq(|Children(e)|, i requires 0 <= i < |Children(e)| => WithoutUses(Children(e)[i])))
  }

  lemma {:induction false} WithoutUsesOfRebuilt(e: Expr, rs: seq<Expr>)
    requires !e.EVariable? && |rs| == |Children(e)|
    requires forall i :: 0 <= i < |rs| ==> WithoutUses(rs[i]) == WithoutUses(Children(e)[i])
    ensures WithoutUses(WithChildren(e, rs)) == WithoutUses(e)
  {
    var r := WithChildren(e, rs);
    var ws := seq(|Children(e)|, i requires 0 <= i < |Children(e)| => WithoutUses(Children(e)[i]));
    assert seq(|Children(r)|, i requires 0 <= i < |Children(r)| => WithoutUses(Children(r)[i])) == ws;
    WithChildrenTwice(e, rs, ws);
  }

  /** Whatever the names, renaming leaves every id, binder, literal and the shape alone. */
  lemma {:induction false} RenameTouchesOnlyUses(oldName: string, newName: string, e: Expr)
    ensures WithoutUses(Rename(oldName, newName, e)) == WithoutUses(e)
    ensures Ids(Rename(oldName, newName, e)) == Ids(e)
    decreases e
  {
    if !e.EVariable? {
      var cs, rs := Children(e), RenamedChildren(oldName, newName, e);
      RenameOfNode(oldName, newName, e);
      forall i | 0 <= i < |cs| ensures WithoutUses(rs[i]) == WithoutUses(cs[i]) && Ids(rs[i]) == Ids(cs[i]) {
        RenameTouchesOnlyUses(oldName, newName, cs[i]);
      }
      SameIdsPointwise(rs, cs);
      WithoutUsesOfRebuilt(e, rs);
    }
  }

  lemma {:induction false} SameIdsPointwise(rs: seq<Expr>, cs: seq<Expr>)
    requires |rs| == |cs| && forall i :: 0 <= i < |cs| ==> Ids(rs[i]) == Ids(cs[i])
    ensures IdsOfAll(rs) == IdsOfAll(cs)
  {
    if |cs| == 0 {
    } else {
      SameIdsPointwise(rs[1..], cs[1..]);
    }
  }
}
