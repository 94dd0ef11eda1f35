/** The search functions of FluidExpression.ml and the proof that they agree: each is
    described by the position at which `FluidTree.Locate` finds the id. */
module FluidSearch {
  import opened Common
  import opened FluidExpression
  import opened FluidTree

  // ---- find

  function Find(target: Id, e: Expr): Option<Expr>
    decreases Size(e), 0
  {
    SizeOfNode(e);
    if e.id == target then Some(e) else FindInAll(target, Children(e))
  }

  function FindInAll(target: Id, es: seq<Expr>): Option<Expr>
    decreases Sizes(es), 1
  {
    if |es| == 0 then None
    else match Find(target, es[0])
      case Some(x) => Some(x)
      case None => FindInAll(target, es[1..])
  }

  /** find returns the subtree at the id's position, and succeeds for exactly the ids
      of the tree. */
  lemma {:induction false} FindReturnsLocated(target: Id, e: Expr)
    ensures Find(target, e) == match Locate(target, e)
                               case Some(p) => Some(SubtreeAt(e, p))
                               case None => None
    ensures Find(target, e).Some? <==> target in Ids(e)
    decreases Size(e), 0
  {
    SizeOfNode(e);
    if e.id != target { FindInAllReturnsLocated(target, Children(e)); }
  }

  lemma {:induction false} FindInAllReturnsLocated(target: Id, es: seq<Expr>)
    ensures FindInAll(target, es) == match LocateInAll(target, es)
                                     case Some(p) => Some(SubtreeAt(es[p[0]], p[1..]))
                                     case None => None
    decreases Sizes(es), 1
  {
    if |es| == 0 {
    } else {
      FindReturnsLocated(target, es[0]);
      FindInAllReturnsLocated(target, es[1..]);
      match Locate(target, es[0])
      case Some(p) => assert ([0] + p)[1..] == p;
      case None =>
        match LocateInAll(target, es[1..])
        case Some(p) => assert ([p[0] + 1] + p[1..])[1..] == p[1..];
        case None =>
    }
  }

  // ---- findParent

  function FindParent(target: Id, e: Expr): Option<Expr> {
    FindParentFrom(None, target, e)
  }

  function FindParentFrom(parent: Option<Expr>, target: Id, e: Expr): Option<Expr>
    decreases Size(e), 0
  {
    SizeOfNode(e);
    if e.id == target then parent else FindParentInAll(e, target, Children(e))
  }

  function FindParentInAll(parent: Expr, target: Id, es: seq<Expr>): Option<Expr>
    decreases Sizes(es), 1
  {
    if |es| == 0 then None
    else match FindParentFrom(Some(parent), target, es[0])
      case Some(x) => Some(x)
      case None => FindParentInAll(parent, target, es[1..])
  }

  /** The node one level above a position. */
  ghost function ParentAt(e: Expr, p: Path): Expr
    requires IsPath(e, p) && |p| > 0
  {
    PrefixIsPath(e, p, |p| - 1);
    SubtreeAt(e, p[..|p| - 1])
  }

  /** findParent returns the node above the id's position; the root has none. */
  lemma {:induction false} FindParentReturnsParentOfLocated(target: Id, e: Expr)
    ensures FindParent(target, e) == match Locate(target, e)
                                     case Some(p) => if |p| == 0 then None else Some(ParentAt(e, p))
                                     case None => None
  {
    FindParentFromIsAbove(None, target, e);
  }

  lemma {:induction false} FindParentFromIsAbove(parent: Option<Expr>, target: Id, e: Expr)
    ensures FindParentFrom(parent, target, e)
         == match Locate(target, e)
            case Some(p) => if |p| == 0 then parent else Some(ParentAt(e, p))
            case None => None
    decreases Size(e), 0
  {
    SizeOfNode(e);
    if e.id != target {
      FindParentInAllIsAbove(e, target, Children(e));
      match Locate(target, e)
      case Some(p) => ParentOneLevelDown(e, p);
      case None =>
    }
  }

  lemma {:induction false} ParentOneLevelDown(e: Expr, p: Path)
    requires IsPath(e, p) && |p| > 0
    ensures ParentAt(e, p) == if |p| == 1 then e else ParentAt(Children(e)[p[0]], p[1..])
  {
    if |p| > 1 {
      PrefixIsPath(e, p, |p| - 1);
      assert p[..|p| - 1][1..] == p[1..][..|p| - 2];
    }
  }

  lemma {:induction false} FindParentInAllIsAbove(parent: Expr, target: Id, es: seq<Expr>)
    ensures FindParentInAll(parent, target, es)
         == match LocateInAll(target, es)
            case Some(p) => Some(if |p| == 1 then parent else ParentAt(es[p[0]], p[1..]))
            case None => None
    decreases Sizes(es), 1
  {
    if |es| == 0 {
    } else {
      FindParentFromIsAbove(Some(parent), target, es[0]);
      FindParentInAllIsAbove(parent, target, es[1..]);
      match Locate(target, es[0])
      case Some(p) => assert ([0] + p)[1..] == p;
      case None =>
        match LocateInAll(target, es[1..])
        case Some(p) => assert ([p[0] + 1] + p[1..])[1..] == p[1..];
        case None =>
    }
  }

  /** On a tree with unique ids, findParent returns the node that has the target among
      its direct subexpressions, whichever node of the tree that is. */
  lemma {:induction false} FindParentReturnsTheParent(target: Id, e: Expr, p: Path, k: nat)
    requires UniqueIds(e)
    requires IsPath(e, p) && k < |Children(SubtreeAt(e, p))|
    requires Children(SubtreeAt(e, p))[k].id == target
    ensures FindParent(target, e) == Some(SubtreeAt(e, p))
  {
    PathExtends(e, p, k);
    LocateIsUnique(target, e, p + [k]);
    FindParentReturnsParentOfLocated(target, e);
    assert (p + [k])[..|p|] == p;
  }

  // ---- ancestors

  /** The source's inner function: `walk` is the path so far, nearest ancestor first.
      Under a list or a record it pushes the root instead of the node itself. */
  function AncestorsFrom(root: Expr, target: Id, walk: seq<Expr>, e: Expr): seq<Expr>
    decreases Size(e), 0
  {
    SizeOfNode(e);
    if e.id == target then walk
    else AncestorsInAll(root, target, [Pushed(root, e)] + walk, Children(e))
  }

  function AncestorsInAll(root: Expr, target: Id, walk: seq<Expr>, es: seq<Expr>): seq<Expr>
    decreases Sizes(es), 1
  {
    if |es| == 0 then []
    else AncestorsFrom(root, target, walk, es[0]) + AncestorsInAll(root, target, walk, es[1..])
  }

  function Pushed(root: Expr, e: Expr): Expr {
    if e.EList? || e.ERecord? then root else e
  }

  function Ancestors(target: Id, e: Expr): seq<Expr> {
    AncestorsFrom(e, target, [], e)
  }

  /** The nodes above a position, nearest first. */
  ghost function NodesAbove(e: Expr, p: Path): seq<Expr>
    requires IsPath(e, p)
    decreases |p|
  {
    if |p| == 0 then [] else NodesAbove(Children(e)[p[0]], p[1..]) + [e]
  }

  /** The same, as the source records them. */
  ghost function RecordedAbove(root: Expr, e: Expr, p: Path): seq<Expr>
    requires IsPath(e, p)
    decreases |p|
  {
    if |p| == 0 then [] else RecordedAbove(root, Children(e)[p[0]], p[1..]) + [Pushed(root, e)]
  }

  lemma {:induction false} AncestorsOfMissing(root: Expr, target: Id, walk: seq<Expr>, e: Expr)
    requires target !in Ids(e)
    ensures AncestorsFrom(root, target, walk, e) == []
    decreases Size(e), 0
  {
    SizeOfNode(e);
    AncestorsInAllOfMissing(root, target, [Pushed(root, e)] + walk, Children(e));
  }

  lemma {:induction false} AncestorsInAllOfMissing(root: Expr, target: Id, walk: seq<Expr>, es: seq<Expr>)
    requires target !in IdsOfAll(es)
    ensures AncestorsInAll(root, target, walk, es) == []
    decreases Sizes(es), 1
  {
    if |es| == 0 {
    } else {
      AncestorsOfMissing(root, target, walk, es[0]);
      AncestorsInAllOfMissing(root, target, walk, es[1..]);
    }
  }

  lemma {:induction false} AncestorsAreRecorded(root: Expr, target: Id, walk: seq<Expr>, e: Expr, p: Path)
    requires UniqueIds(e) && Locate(target, e) == Some(p)
    ensures AncestorsFrom(root, target, walk, e) == RecordedAbove(root, e, p) + walk
    decreases Size(e), 0
  {
    SizeOfNode(e);
    if e.id != target {
      ChildrenUnique(e);
      var walk' := [Pushed(root, e)] + walk;
      AncestorsInAllAreRecorded(root, target, walk', Children(e), p);
      PushOnto(RecordedAbove(root, Children(e)[p[0]], p[1..]), Pushed(root, e), walk);
    }
  }

  lemma PushOnto(a: seq<Expr>, x: Expr, walk: seq<Expr>)
    ensures a + ([x] + walk) == (a + [x]) + walk
  {}

  lemma {:induction false} AncestorsInAllAreRecorded(root: Expr, target: Id, walk: seq<Expr>, es: seq<Expr>, p: Path)
    requires UniqueIdsInAll(es) && LocateInAll(target, es) == Some(p)
    ensures AncestorsInAll(root, target, walk, es) == RecordedAbove(root, es[p[0]], p[1..]) + walk
    decreases Sizes(es), 1
  {
    forall x ensures IdsOfAll(es[1..])[x] <= 1 && Ids(es[0])[x] <= 1 { assert IdsOfAll(es)[x] <= 1; }
    match Locate(target, es[0])
    case Some(q) =>
      assert p == [0] + q && p[1..] == q;
      AncestorsAreRecorded(root, target, walk, es[0], q);
      assert IdsOfAll(es)[target] <= 1;
      AncestorsInAllOfMissing(root, target, walk, es[1..]);
    case None =>
      var q := LocateInAll(target, es[1..]).value;
      assert p == [q[0] + 1] + q[1..] && p[1..] == q[1..];
      AncestorsOfMissing(root, target, walk, es[0]);
      AncestorsInAllAreRecorded(root, target, walk, es[1..], q);
  }

  /** No list or record lies strictly between the root and the position. */
  ghost predicate NoListOrRecordBelowRoot(e: Expr, p: Path)
    requires IsPath(e, p)
  {
    |p| > 0 ==> NoListOrRecordFrom(Children(e)[p[0]], p[1..])
  }

  ghost predicate NoListOrRecordFrom(e: Expr, p: Path)
    requires IsPath(e, p)
    decreases |p|
  {
    |p| > 0 ==> !e.EList? && !e.ERecord? && NoListOrRecordFrom(Children(e)[p[0]], p[1..])
  }

  lemma {:induction false} RecordedIsTrueIff(root: Expr, e: Expr, p: Path)
    requires IsPath(e, p) && root.id !in Ids(e)
    ensures RecordedAbove(root, e, p) == NodesAbove(e, p) <==> NoListOrRecordFrom(e, p)
    decreases |p|
  {
    if |p| == 0 {
    } else {
      var c := Children(e)[p[0]];
      IdsOfChild(e, p[0]);
      RecordedIsTrueIff(root, c, p[1..]);
      var r, n := RecordedAbove(root, e, p), NodesAbove(e, p);
      assert r[|r| - 1] == Pushed(root, e) && n[|n| - 1] == e;
      assert r[..|r| - 1] == RecordedAbove(root, c, p[1..]);
      assert n[..|n| - 1] == NodesAbove(c, p[1..]);
      assert e.id in Ids(e);
    }
  }

  /** On a tree with unique ids, ancestors is the list of nodes from the parent up to
      the root exactly when no list or record lies below the root on the way. */
  lemma {:induction false} AncestorsArePathToRoot(target: Id, e: Expr)
    requires UniqueIds(e)
    ensures match Locate(target, e)
            case None => Ancestors(target, e) == []
            case Some(p) => Ancestors(target, e) == NodesAbove(e, p) <==> NoListOrRecordBelowRoot(e, p)
  {
    match Locate(target, e)
    case None => AncestorsOfMissing(e, target, [], e);
    case Some(p) =>
      AncestorsAreRecorded(e, target, [], e, p);
      assert RecordedAbove(e, e, p) + [] == RecordedAbove(e, e, p);
      if |p| > 0 {
        var c := Children(e)[p[0]];
        IdsOfChild(e, p[0]);
        RecordedIsTrueIff(e, c, p[1..]);
        var r, n := RecordedAbove(e, e, p), NodesAbove(e, p);
        assert Pushed(e, e) == e;
        assert r[..|r| - 1] == RecordedAbove(e, c, p[1..]);
        assert n[..|n| - 1] == NodesAbove(c, p[1..]);
      }
  }

  lemma {:induction false} NearestRecorded(root: Expr, e: Expr, p: Path)
    requires IsPath(e, p) && |p| > 0
    ensures |RecordedAbove(root, e, p)| == |p| && RecordedAbove(root, e, p)[0] == Pushed(root, ParentAt(e, p))
    decreases |p|
  {
    ParentOneLevelDown(e, p);
    if |p| > 1 { NearestRecorded(root, Children(e)[p[0]], p[1..]); }
  }

  lemma {:induction false} ParentIsInside(e: Expr, p: Path)
    requires IsPath(e, p) && |p| > 0
    ensures ParentAt(e, p).id in Ids(e)
    decreases |p|
  {
    ParentOneLevelDown(e, p);
    if |p| > 1 {
      ParentIsInside(Children(e)[p[0]], p[1..]);
      IdsOfChild(e, p[0]);
    }
  }

  /** Below the root, the parent of a position is not the root. */
  lemma {:induction false} ParentIsNotRoot(e: Expr, p: Path)
    requires UniqueIds(e) && IsPath(e, p) && |p| > 1
    ensures ParentAt(e, p) != e
  {
    var c := Children(e)[p[0]];
    ParentOneLevelDown(e, p);
    ParentIsInside(c, p[1..]);
    IdsOfChild(e, p[0]);
    assert Ids(e)[e.id] <= 1;
  }

  /** The head of ancestors is findParent's answer exactly when the parent is the root or is
      neither a list nor a record. */
  lemma {:induction false} ParentIsNearestAncestorIff(target: Id, e: Expr, p: Path)
    requires UniqueIds(e) && Locate(target, e) == Some(p) && |p| > 0
    ensures |Ancestors(target, e)| == |p|
    ensures var parent := ParentAt(e, p);
            FindParent(target, e) == Some(Ancestors(target, e)[0])
            <==> |p| == 1 || (!parent.EList? && !parent.ERecord?)
  {
    AncestorsAreRecorded(e, target, [], e, p);
    assert RecordedAbove(e, e, p) + [] == RecordedAbove(e, e, p);
    NearestRecorded(e, e, p);
    FindParentReturnsParentOfLocated(target, e);
    ParentOneLevelDown(e, p);
    if |p| > 1 { ParentIsNotRoot(e, p); }
  }
}
