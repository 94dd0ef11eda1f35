/** Building a canvas by replaying an oplist (canvas.ml, op.ml): replay acts on each
    toplevel id by itself, so the grouped oplists that are stored rebuild the canvas. */
module CanvasReplay {
  import opened Common
  import opened CanvasTypes
  import opened CanvasOps
  import opened Undo

  function Replay(ops: seq<FlaggedOp>, c: Toplevels): Outcome
    decreases |ops|
  {
    if |ops| == 0 then Ok(c)
    else match ApplyOp(ops[0].0, ops[0].1, c)
      case Err(e) => Err(e)
      case Ok(d) => Replay(ops[1..], d)
  }

  function Flag(isNew: bool, ops: seq<Op>): seq<FlaggedOp> {
    if |ops| == 0 then [] else [(isNew, ops[0])] + Flag(isNew, ops[1..])
  }

  /** The canvas add_ops builds on top of `c`. */
  function Build(c: Toplevels, oldops: seq<Op>, newops: seq<Op>): Outcome {
    match Preprocess(Flag(false, oldops) + Flag(true, newops))
    case Err(e) => Err(e)
    case Ok(reduced) => Replay(reduced, c)
  }

  /** The canvas a saved oplist stands for. */
  function BuildOf(ops: seq<Op>): Outcome {
    Build(EMPTY, ops, [])
  }

  // ---- Grouping by id

  type Group = (Tlid, seq<Op>)

  function OfTlid(ops: seq<Op>, t: Tlid): seq<Op> {
    if |ops| == 0 then []
    else if TlidOf(ops[0]) == t then [ops[0]] + OfTlid(ops[1..], t)
    else OfTlid(ops[1..], t)
  }

  predicate AllOf(ops: seq<Op>, t: Tlid) {
    forall i :: 0 <= i < |ops| ==> TlidOf(ops[i]) == t
  }

  /** The ids of the ops, each once, in the order of their first op. */
  function Tlids(ops: seq<Op>, seen: set<Tlid>): seq<Tlid> {
    if |ops| == 0 then []
    else if TlidOf(ops[0]) in seen then Tlids(ops[1..], seen)
    else [TlidOf(ops[0])] + Tlids(ops[1..], seen + {TlidOf(ops[0])})
  }

  /** oplist2tlid_oplists. */
  function GroupByTlid(ops: seq<Op>): seq<Group> {
    var ts := Tlids(ops, {});
    seq(|ts|, i requires 0 <= i < |ts| => (ts[i], OfTlid(ops, ts[i])))
  }

  /** tlid_oplists2oplist. */
  function Flatten(groups: seq<Group>): seq<Op> {
    if |groups| == 0 then [] else groups[0].1 + Flatten(groups[1..])
  }

  ghost predicate DistinctTlids(groups: seq<Group>) {
    forall i, j :: 0 <= i < j < |groups| ==> groups[i].0 != groups[j].0
  }

  ghost predicate EachGroupIsOf(groups: seq<Group>, ops: seq<Op>) {
    forall i :: 0 <= i < |groups| ==> groups[i].1 == OfTlid(ops, groups[i].0)
  }

  ghost predicate HasGroup(groups: seq<Group>, t: Tlid) {
    exists i :: 0 <= i < |groups| && groups[i].0 == t
  }

  /** The ops grouped by id, the groups in any order: what a load of all rows returns. */
  ghost predicate IsGrouping(groups: seq<Group>, ops: seq<Op>) {
    DistinctTlids(groups) && EachGroupIsOf(groups, ops)
    && forall t :: |OfTlid(ops, t)| > 0 ==> HasGroup(groups, t)
  }

  // ---- The canvas as a ref

  class CanvasRef {
    var tls: Toplevels
    var ops: seq<Group>

    constructor ()
      ensures tls == EMPTY && ops == []
    {
      tls := EMPTY;
      ops := [];
    }

    /** apply_op: a failing op leaves the canvas as it was. */
    method ApplyOp(isNew: bool, op: Op) returns (error: Option<Error>)
      modifies this`tls
      ensures match CanvasOps.ApplyOp(isNew, op, old(tls))
              case Ok(c) => error == None && tls == c
              case Err(e) => error == Some(e) && tls == old(tls)
    {
      match CanvasOps.ApplyOp(isNew, op, tls) {
        case Ok(c) => tls := c; error := None;
        case Err(e) => error := Some(e);
      }
    }

    /** add_ops: the first failing op ends it, and then the oplists are not replaced. */
    method AddOps(oldops: seq<Op>, newops: seq<Op>) returns (error: Option<Error>)
      modifies this
      ensures match Build(old(tls), oldops, newops)
              case Ok(c) => error == None && tls == c && ops == GroupByTlid(oldops + newops)
              case Err(e) => error == Some(e) && ops == old(ops)
    {
      var flagged := Flag(false, oldops) + Flag(true, newops);
      match Preprocess(flagged) {
        case Err(e) => error := Some(e);
        case Ok(reduced) =>
          for i := 0 to |reduced|
            invariant ops == old(ops)
            invariant Replay(reduced, old(tls)) == Replay(reduced[i..], tls)
          {
            error := ApplyOp(reduced[i].0, reduced[i].1);
            assert reduced[i..][1..] == reduced[i + 1..];
            if error.Some? { return; }
          }
          ops := GroupByTlid(oldops + newops);
          error := None;
      }
    }
  }

  // ---- Replay acts on each id by itself

  /** If a replay succeeds, then the ops of one id alone, on any canvas with the same slot
      for that id, succeed and lead to the same slot. */
  lemma {:induction false} ReplayIsLocal(ops: seq<FlaggedOp>, c: Toplevels, d: Toplevels, t: Tlid)
    requires SlotOf(c, t) == SlotOf(d, t) && Replay(ops, c).Ok?
    ensures Replay(OpsOf(ops, t), d).Ok?
    ensures SlotOf(Replay(ops, c).value, t) == SlotOf(Replay(OpsOf(ops, t), d).value, t)
    decreases |ops|
  {
    if |ops| == 0 {
    } else {
      var isNew, op := ops[0].0, ops[0].1;
      var c' := CanvasOps.ApplyOp(isNew, op, c).value;
      if TlidOf(op) == t {
        OpIsLocal(isNew, op, c, d);
        var d' := CanvasOps.ApplyOp(isNew, op, d).value;
        ReplayIsLocal(ops[1..], c', d', t);
        assert OpsOf(ops, t)[1..] == OpsOf(ops[1..], t);
      } else {
        OpIsLocal(isNew, op, c, c);
        ReplayIsLocal(ops[1..], c', d, t);
      }
    }
  }

  /** A replay succeeds if it succeeds for each id. */
  lemma {:induction false} ReplaySucceeds(ops: seq<FlaggedOp>, c: Toplevels)
    requires forall t :: Replay(OpsOf(ops, t), c).Ok?
    ensures Replay(ops, c).Ok?
    decreases |ops|
  {
    if |ops| == 0 {
    } else {
      var isNew, op := ops[0].0, ops[0].1;
      var u := TlidOf(op);
      assert Replay(OpsOf(ops, u), c).Ok?;
      assert OpsOf(ops, u)[1..] == OpsOf(ops[1..], u);
      var c' := CanvasOps.ApplyOp(isNew, op, c).value;
      forall t ensures Replay(OpsOf(ops[1..], t), c').Ok? {
        assert Replay(OpsOf(ops, t), c).Ok?;
        if t != u {
          OpIsLocal(isNew, op, c, c);
          ReplayIsLocal(OpsOf(ops[1..], t), c, c', t);
          OpsOfOpsOf(ops[1..], t, t);
        }
      }
      ReplaySucceeds(ops[1..], c');
    }
  }

  // ---- The newness of an op only ever makes it fail

  function AsOld(): FlaggedOp -> FlaggedOp { (x: FlaggedOp) => (false, x.1) }

  function AsNew(): FlaggedOp -> FlaggedOp { (x: FlaggedOp) => (true, x.1) }

  lemma OldAndNewAreTransparent()
    ensures Transparent(AsOld()) && Transparent(AsNew())
  {}

  lemma {:induction false} ReplayAsOld(ops: seq<FlaggedOp>, c: Toplevels)
    requires Replay(ops, c).Ok?
    ensures Replay(MapOps(AsOld(), ops), c) == Replay(ops, c)
    decreases |ops|
  {
    if |ops| == 0 {
    } else {
      var c' := CanvasOps.ApplyOp(ops[0].0, ops[0].1, c).value;
      OldOpAppliesAlike(ops[0], c);
      ReplayAsOld(ops[1..], c');
    }
  }

  lemma OldOpAppliesAlike(op: FlaggedOp, c: Toplevels)
    requires CanvasOps.ApplyOp(op.0, op.1, c).Ok?
    ensures CanvasOps.ApplyOp(false, op.1, c) == CanvasOps.ApplyOp(op.0, op.1, c)
  {
    if op.1.CreateDB? {
    } else {
      assert CanvasOps.ApplyOp(false, op.1, c) == CanvasOps.ApplyOp(true, op.1, c);
    }
  }

  predicate Nameless(op: Op) {
    op.CreateDB? && op.name == ""
  }

  predicate NoNameless(ops: seq<FlaggedOp>) {
    forall i :: 0 <= i < |ops| ==> !Nameless(ops[i].1)
  }

  /** Ops that replay as old replay as new exactly when none creates a nameless DB. */
  lemma {:induction false} ReplayAsNewIff(ops: seq<FlaggedOp>, c: Toplevels)
    requires Replay(MapOps(AsOld(), ops), c).Ok?
    ensures Replay(MapOps(AsNew(), ops), c).Ok? <==> NoNameless(ops)
    ensures NoNameless(ops) ==> Replay(MapOps(AsNew(), ops), c) == Replay(MapOps(AsOld(), ops), c)
    decreases |ops|
  {
    if |ops| == 0 {
    } else {
      NewOpAppliesIff(ops[0].1, c);
      if !Nameless(ops[0].1) {
        var c' := CanvasOps.ApplyOp(false, ops[0].1, c).value;
        ReplayAsNewIff(ops[1..], c');
        assert NoNameless(ops) <==> NoNameless(ops[1..]) by {
          if NoNameless(ops[1..]) {
            forall i | 0 <= i < |ops| ensures !Nameless(ops[i].1) { assert i > 0 ==> ops[i] == ops[1..][i - 1]; }
          }
        }
      }
    }
  }

  lemma NewOpAppliesIff(op: Op, c: Toplevels)
    requires CanvasOps.ApplyOp(false, op, c).Ok?
    ensures CanvasOps.ApplyOp(true, op, c).Ok? <==> !Nameless(op)
    ensures !Nameless(op) ==> CanvasOps.ApplyOp(true, op, c) == CanvasOps.ApplyOp(false, op, c)
  {}

  lemma {:induction false} MapFlag(f: FlaggedOp -> FlaggedOp, isNew: bool, asNew: bool, ops: seq<Op>)
    requires forall x: FlaggedOp :: f(x) == (asNew, x.1)
    ensures MapOps(f, Flag(isNew, ops)) == Flag(asNew, ops)
  {
    if |ops| == 0 {
    } else {
      MapFlag(f, isNew, asNew, ops[1..]);
    }
  }

  lemma {:induction false} FlagConcat(a: seq<Op>, b: seq<Op>)
    ensures Flag(false, a + b) == Flag(false, a) + Flag(false, b)
  {
    if |a| == 0 {
      assert a + b == b;
    } else {
      assert (a + b)[0] == a[0] && (a + b)[1..] == a[1..] + b;
      FlagConcat(a[1..], b);
    }
  }

  lemma {:induction false} FlagOfTlid(ops: seq<Op>, t: Tlid)
    ensures OpsOf(Flag(false, ops), t) == Flag(false, OfTlid(ops, t))
  {
    if |ops| == 0 {
    } else {
      assert Flag(false, ops)[1..] == Flag(false, ops[1..]);
      FlagOfTlid(ops[1..], t);
    }
  }

  /** Ops that could be added as new can be replayed as old. */
  lemma {:induction false} NewOpsReplayAsOld(oldops: seq<Op>, newops: seq<Op>)
    requires Build(EMPTY, oldops, newops).Ok?
    ensures BuildOf(oldops + newops) == Build(EMPTY, oldops, newops)
  {
    var all := Flag(false, oldops) + Flag(true, newops);
    OldAndNewAreTransparent();
    MapOpsConcat(AsOld(), Flag(false, oldops), Flag(true, newops));
    MapFlag(AsOld(), false, false, oldops);
    MapFlag(AsOld(), true, false, newops);
    FlagConcat(oldops, newops);
    MapPreprocess(AsOld(), all);
    ReplayAsOld(Preprocess(all).value, EMPTY);
    assert Flag(false, oldops + newops) + Flag(true, []) == MapOps(AsOld(), all);
  }

  // ---- The main results

  /** The slot an oplist leaves for an id is the slot the ops of that id leave alone. */
  lemma {:induction false} BuildPerId(ops: seq<Op>, t: Tlid)
    requires BuildOf(ops).Ok?
    ensures BuildOf(OfTlid(ops, t)).Ok?
    ensures SlotOf(BuildOf(OfTlid(ops, t)).value, t) == SlotOf(BuildOf(ops).value, t)
  {
    var flagged, mine := Flag(false, ops), Flag(false, OfTlid(ops, t));
    assert flagged + Flag(true, []) == flagged && mine + Flag(true, []) == mine;
    FlagOfTlid(ops, t);
    PreprocessPerId(flagged, t);
    ReplayIsLocal(Preprocess(flagged).value, EMPTY, EMPTY, t);
  }

  /** An oplist that preprocesses builds if the ops of each id build. */
  lemma {:induction false} BuildSucceeds(ops: seq<Op>)
    requires Preprocess(Flag(false, ops)).Ok?
    requires forall t :: BuildOf(OfTlid(ops, t)).Ok?
    ensures BuildOf(ops).Ok?
  {
    var flagged := Flag(false, ops);
    assert flagged + Flag(true, []) == flagged;
    forall t ensures Replay(OpsOf(Preprocess(flagged).value, t), EMPTY).Ok? {
      assert BuildOf(OfTlid(ops, t)).Ok?;
      var mine := Flag(false, OfTlid(ops, t));
      assert mine + Flag(true, []) == mine;
      FlagOfTlid(ops, t);
      PreprocessPerId(flagged, t);
    }
    ReplaySucceeds(Preprocess(flagged).value, EMPTY);
  }

  /** A redo that no undo precedes is left at the front after preprocessing step 1. */
  predicate LeadingRedo(ops: seq<Op>) {
    var r := CancelRedos(Flag(false, ops));
    r.Ok? && |r.value| > 0 && r.value[0].1.RedoTL?
  }

  lemma {:induction false} CancelRedosConcat(a: seq<FlaggedOp>, b: seq<FlaggedOp>)
    requires CancelRedos(b).Ok? && NoRedo(CancelRedos(b).value)
    ensures CancelRedos(a + b).Ok? <==> CancelRedos(a).Ok?
    ensures CancelRedos(a).Ok? ==> CancelRedos(a + b).value == CancelRedos(a).value + CancelRedos(b).value
  {
    if |a| == 0 {
      assert a + b == b;
      assert [] + CancelRedos(b).value == CancelRedos(b).value;
    } else {
      assert (a + b)[0] == a[0] && (a + b)[1..] == a[1..] + b;
      CancelRedosConcat(a[1..], b);
      if CancelRedos(a[1..]).Ok? {
        CombineConcat(a[0], CancelRedos(a[1..]).value, CancelRedos(b).value);
      }
    }
  }

  lemma CombineConcat(op: FlaggedOp, ra: seq<FlaggedOp>, rb: seq<FlaggedOp>)
    requires NoRedo(rb)
    ensures Combine(op, ra + rb).Ok? <==> Combine(op, ra).Ok?
    ensures Combine(op, ra).Ok? ==> Combine(op, ra + rb).value == Combine(op, ra).value + rb
  {
    if |ra| > 0 {
      assert (ra + rb)[0] == ra[0] && (ra + rb)[1..] == ra[1..] + rb;
    } else {
      assert ra + rb == rb && [op] + [] == [op];
    }
    assert [op] + (ra + rb) == ([op] + ra) + rb;
  }

  lemma {:induction false} GroupCancels(ops: seq<Op>, t: Tlid)
    requires CancelRedos(Flag(false, ops)).Ok? && !LeadingRedo(ops)
    ensures CancelsCleanly(OfTlid(ops, t))
  {
    FlagOfTlid(ops, t);
    CancelRedosPerId(Flag(false, ops), t);
    RedosEndUpInFront(Flag(false, ops));
    OpsOfNoRedo(CancelRedos(Flag(false, ops)).value, t);
  }

  /** Step 1 of preprocessing leaves no redo in the group. */
  predicate CancelsCleanly(ops: seq<Op>) {
    var r := CancelRedos(Flag(false, ops));
    r.Ok? && NoRedo(r.value)
  }

  lemma {:induction false} GroupsCancel(groups: seq<Group>)
    requires forall i :: 0 <= i < |groups| ==> CancelsCleanly(groups[i].1)
    ensures CancelsCleanly(Flatten(groups))
  {
    if |groups| == 0 {
    } else {
      GroupsCancel(groups[1..]);
      FlagConcat(groups[0].1, Flatten(groups[1..]));
      CancelRedosConcat(Flag(false, groups[0].1), Flag(false, Flatten(groups[1..])));
    }
  }

  lemma {:induction false} OfTlidConcat(a: seq<Op>, b: seq<Op>, t: Tlid)
    ensures OfTlid(a + b, t) == OfTlid(a, t) + OfTlid(b, t)
  {
    if |a| == 0 {
      assert a + b == b;
    } else {
      assert (a + b)[0] == a[0] && (a + b)[1..] == a[1..] + b;
      OfTlidConcat(a[1..], b, t);
    }
  }

  lemma {:induction false} OfTlidOwn(ops: seq<Op>, t: Tlid, u: Tlid)
    requires AllOf(ops, t)
    ensures OfTlid(ops, u) == if u == t then ops else []
  {
    if |ops| == 0 {
    } else {
      OfTlidOwn(ops[1..], t, u);
      assert ops == [ops[0]] + ops[1..];
    }
  }

  lemma {:induction false} OfTlidTwice(ops: seq<Op>, t: Tlid, u: Tlid)
    ensures OfTlid(OfTlid(ops, t), u) == if u == t then OfTlid(ops, t) else []
  {
    if |ops| == 0 {
    } else {
      OfTlidTwice(ops[1..], t, u);
    }
  }

  lemma {:induction false} OfTlidOfFlatten(groups: seq<Group>, ops: seq<Op>, t: Tlid)
    requires DistinctTlids(groups) && EachGroupIsOf(groups, ops)
    ensures OfTlid(Flatten(groups), t) == if HasGroup(groups, t) then OfTlid(ops, t) else []
  {
    if |groups| == 0 {
    } else {
      var rest := groups[1..];
      OfTlidOfFlatten(rest, ops, t);
      OfTlidConcat(groups[0].1, Flatten(rest), t);
      OfTlidTwice(ops, groups[0].0, t);
      assert HasGroup(rest, t) ==> HasGroup(groups, t) by {
        if HasGroup(rest, t) {
          var i :| 0 <= i < |rest| && rest[i].0 == t;
          assert groups[i + 1].0 == t;
        }
      }
      if HasGroup(groups, t) && groups[0].0 != t {
        var i :| 0 <= i < |groups| && groups[i].0 == t;
        assert rest[i - 1].0 == t;
      }
      forall i | 0 <= i < |rest| ensures rest[i].0 != groups[0].0 {
        assert rest[i] == groups[i + 1];
      }
    }
  }

  /** Replay locality: if add_ops succeeds, then replaying the same ops grouped by id, the
      groups in any order, gives the same eight maps. */
  lemma {:induction false} GroupedReplayAgrees(oldops: seq<Op>, newops: seq<Op>, groups: seq<Group>)
    requires Build(EMPTY, oldops, newops).Ok? && !LeadingRedo(oldops + newops)
    requires IsGrouping(groups, oldops + newops)
    ensures BuildOf(Flatten(groups)) == Build(EMPTY, oldops, newops)
  {
    var ops := oldops + newops;
    var flat := Flatten(groups);
    NewOpsReplayAsOld(oldops, newops);
    assert Flag(false, ops) + Flag(true, []) == Flag(false, ops);
    forall i | 0 <= i < |groups| ensures CancelsCleanly(groups[i].1) { GroupCancels(ops, groups[i].0); }
    GroupsCancel(groups);
    forall t ensures BuildOf(OfTlid(flat, t)).Ok? && OfTlid(flat, t) == OfTlid(ops, t) {
      OfTlidOfFlatten(groups, ops, t);
      BuildPerId(ops, t);
      assert |OfTlid(ops, t)| > 0 ==> HasGroup(groups, t);
    }
    BuildSucceeds(flat);
    forall t ensures SlotOf(BuildOf(flat).value, t) == SlotOf(BuildOf(ops).value, t) {
      assert OfTlid(flat, t) == OfTlid(ops, t);
      BuildPerId(flat, t);
      BuildPerId(ops, t);
    }
    SameSlotsSameMaps(BuildOf(flat).value, BuildOf(ops).value);
  }

  /** The `ops` that add_ops records is such a grouping. */
  lemma {:induction false} GroupByTlidIsGrouping(ops: seq<Op>)
    ensures IsGrouping(GroupByTlid(ops), ops)
  {
    var groups, ts := GroupByTlid(ops), Tlids(ops, {});
    TlidsDistinct(ops, {});
    assert DistinctTlids(groups);
    forall t | |OfTlid(ops, t)| > 0 ensures HasGroup(groups, t) {
      TlidsComplete(ops, {}, t);
      var i :| 0 <= i < |ts| && ts[i] == t;
      assert groups[i].0 == t;
    }
  }

  lemma {:induction false} TlidsDistinct(ops: seq<Op>, seen: set<Tlid>)
    ensures forall t :: t in Tlids(ops, seen) ==> t !in seen
    ensures forall i, j :: 0 <= i < j < |Tlids(ops, seen)| ==> Tlids(ops, seen)[i] != Tlids(ops, seen)[j]
  {
    if |ops| == 0 {
    } else {
      TlidsDistinct(ops[1..], seen);
      TlidsDistinct(ops[1..], seen + {TlidOf(ops[0])});
    }
  }

  lemma {:induction false} TlidsComplete(ops: seq<Op>, seen: set<Tlid>, t: Tlid)
    requires |OfTlid(ops, t)| > 0 && t !in seen
    ensures t in Tlids(ops, seen)
  {
    if TlidOf(ops[0]) != t {
      TlidsComplete(ops[1..], if TlidOf(ops[0]) in seen then seen else seen + {TlidOf(ops[0])}, t);
    }
  }

  /** The precondition on redos is needed: with an unmatched redo at the front and ops of
      another id, some order of the groups cannot be loaded. */
  lemma {:induction false} LeadingRedoBreaksSomeOrder(before: seq<FlaggedOp>, group: seq<FlaggedOp>, t: Tlid)
    requires |before| > 0 && forall i :: 0 <= i < |before| ==> TlidOf(before[i].1) != t
    requires CancelRedos(group).Ok? && |CancelRedos(group).value| > 0
    requires CancelRedos(group).value[0].1 == RedoTL(t)
    ensures Preprocess(before + group).Err?
  {
    RedoStaysBehind(before, group, t);
  }

  lemma {:induction false} RedoStaysBehind(before: seq<FlaggedOp>, group: seq<FlaggedOp>, t: Tlid)
    requires |before| > 0 && forall i :: 0 <= i < |before| ==> TlidOf(before[i].1) != t
    requires CancelRedos(group).Ok? && |CancelRedos(group).value| > 0
    requires CancelRedos(group).value[0].1 == RedoTL(t)
    ensures CancelRedos(before + group).Err?
  {
    var rest := before[1..];
    assert (before + group)[0] == before[0] && (before + group)[1..] == rest + group;
    if |before| > 1 {
      RedoStaysBehind(rest, group, t);
    } else {
      assert rest + group == group;
    }
  }

  lemma {:induction false} FlattenLast(groups: seq<Group>)
    requires |groups| > 0
    ensures Flatten(groups) == Flatten(groups[..|groups| - 1]) + groups[|groups| - 1].1
  {
    var n := |groups| - 1;
    if n == 0 {
      assert Flatten(groups[1..]) == [];
      assert groups[0].1 + [] == groups[0].1 && [] + groups[0].1 == groups[0].1;
    } else {
      FlattenLast(groups[1..]);
      assert groups[..n][1..] == groups[1..][..n - 1];
    }
  }

  lemma {:induction false} FlagIndex(isNew: bool, ops: seq<Op>)
    ensures |Flag(isNew, ops)| == |ops| && forall i :: 0 <= i < |ops| ==> Flag(isNew, ops)[i] == (isNew, ops[i])
  {
    if |ops| == 0 {
    } else {
      FlagIndex(isNew, ops[1..]);
    }
  }

  lemma {:induction false} OtherGroupsAreOfOthers(groups: seq<Group>, ops: seq<Op>, t: Tlid)
    requires EachGroupIsOf(groups, ops) && forall i :: 0 <= i < |groups| ==> groups[i].0 != t
    ensures forall i :: 0 <= i < |Flatten(groups)| ==> TlidOf(Flatten(groups)[i]) != t
  {
    if |groups| == 0 {
    } else {
      OtherGroupsAreOfOthers(groups[1..], ops, t);
      OfTlidAreOwn(ops, groups[0].0);
    }
  }

  lemma {:induction false} OfTlidAreOwn(ops: seq<Op>, t: Tlid)
    ensures AllOf(OfTlid(ops, t), t)
  {
    if |ops| == 0 {
    } else {
      OfTlidAreOwn(ops[1..], t);
    }
  }

  /** So without that condition the grouped form need not load: with the redo's group last
      and any op before it, the load fails. */
  lemma {:induction false} LeadingRedoFailsWhenLast(ops: seq<Op>, groups: seq<Group>)
    requires IsGrouping(groups, ops) && LeadingRedo(ops) && |groups| > 0
    requires groups[|groups| - 1].0 == CancelRedos(Flag(false, ops)).value[0].1.tlid
    requires |Flatten(groups[..|groups| - 1])| > 0
    ensures BuildOf(Flatten(groups)).Err?
  {
    var n := |groups| - 1;
    var t, before, group := groups[n].0, Flatten(groups[..n]), groups[n].1;
    FlattenLast(groups);
    FlagConcat(before, group);
    FlagOfTlid(ops, t);
    CancelRedosPerId(Flag(false, ops), t);
    OtherGroupsAreOfOthers(groups[..n], ops, t);
    FlagIndex(false, before);
    LeadingRedoBreaksSomeOrder(Flag(false, before), Flag(false, group), t);
    assert Flag(false, Flatten(groups)) + Flag(true, []) == Flag(false, Flatten(groups));
  }
}
