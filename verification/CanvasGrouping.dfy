/** When a canvas can be stored as one oplist per id and loaded back in any order of the ids
    (canvas.ml add_ops and load_from, undo.ml): the exact condition. */
module CanvasGrouping {
  import opened Common
  import opened CanvasTypes
  import opened CanvasReplay
  import opened Undo
  import K = CanvasKinds

  predicate OneId(ops: seq<Op>) {
    forall i :: 0 <= i < |ops| ==> TlidOf(ops[i]) == TlidOf(ops[0])
  }

  /** Every grouping of the ops by id loads as the same canvas. */
  ghost predicate OrderFree(oldops: seq<Op>, newops: seq<Op>) {
    forall groups :: IsGrouping(groups, oldops + newops) ==>
      BuildOf(Flatten(groups)) == Build(EMPTY, oldops, newops)
  }

  // ---- Ops of one id have one non-empty group

  lemma {:induction false} FlattenOneId(groups: seq<Group>, ops: seq<Op>, t: Tlid)
    requires DistinctTlids(groups) && EachGroupIsOf(groups, ops) && AllOf(ops, t)
    ensures Flatten(groups) == if HasGroup(groups, t) then ops else []
  {
    if |groups| == 0 {
    } else {
      var rest := groups[1..];
      OfTlidOwn(ops, t, groups[0].0);
      FlattenOneId(rest, ops, t);
      if groups[0].0 == t {
        assert !HasGroup(rest, t);
        assert HasGroup(groups, t);
        assert ops + [] == ops;
      } else {
        HasGroupTail(groups, t);
        assert [] + Flatten(rest) == Flatten(rest);
      }
    }
  }

  lemma HasGroupTail(groups: seq<Group>, t: Tlid)
    requires |groups| > 0 && groups[0].0 != t
    ensures HasGroup(groups, t) <==> HasGroup(groups[1..], t)
  {
    if HasGroup(groups, t) {
      var i :| 0 <= i < |groups| && groups[i].0 == t;
      assert groups[1..][i - 1].0 == t;
    }
    if HasGroup(groups[1..], t) {
      var i :| 0 <= i < |groups[1..]| && groups[1..][i].0 == t;
      assert groups[i + 1].0 == t;
    }
  }

  lemma {:induction false} OneIdIsOrderFree(oldops: seq<Op>, newops: seq<Op>)
    requires Build(EMPTY, oldops, newops).Ok? && OneId(oldops + newops)
    ensures OrderFree(oldops, newops)
  {
    var ops := oldops + newops;
    NewOpsReplayAsOld(oldops, newops);
    var t := if |ops| == 0 then 0 else TlidOf(ops[0]);
    OfTlidOwn(ops, t, t);
    forall groups | IsGrouping(groups, ops) ensures Flatten(groups) == ops {
      FlattenOneId(groups, ops, t);
      assert |OfTlid(ops, t)| > 0 ==> HasGroup(groups, t);
    }
  }

  // ---- An unmatched redo at the front, and ops of another id

  /** Group `k` goes last. */
  function MovedLast(groups: seq<Group>, k: nat): seq<Group>
    requires k < |groups|
  {
    groups[..k] + groups[k + 1..] + [groups[k]]
  }

  lemma MovedIndex(groups: seq<Group>, k: nat, i: nat)
    requires k < |groups| && i < |groups|
    ensures |MovedLast(groups, k)| == |groups|
    ensures MovedLast(groups, k)[i] == groups[if i < k then i else if i < |groups| - 1 then i + 1 else k]
  {}

  lemma {:induction false} MovedIsGrouping(groups: seq<Group>, ops: seq<Op>, k: nat)
    requires IsGrouping(groups, ops) && k < |groups|
    ensures IsGrouping(MovedLast(groups, k), ops)
  {
    var moved := MovedLast(groups, k);
    forall i | 0 <= i < |moved| ensures moved[i].1 == OfTlid(ops, moved[i].0) { MovedIndex(groups, k, i); }
    forall i, j | 0 <= i < j < |moved| ensures moved[i].0 != moved[j].0 {
      MovedIndex(groups, k, i);
      MovedIndex(groups, k, j);
    }
    forall t | |OfTlid(ops, t)| > 0 ensures HasGroup(moved, t) {
      assert HasGroup(groups, t);
      var i :| 0 <= i < |groups| && groups[i].0 == t;
      var j := if i < k then i else if i == k then |groups| - 1 else i - 1;
      MovedIndex(groups, k, j);
      assert moved[j].0 == t;
    }
  }

  lemma {:induction false} FlattenHas(groups: seq<Group>, i: nat)
    requires i < |groups| && |groups[i].1| > 0
    ensures |Flatten(groups)| > 0
  {
    if i > 0 { FlattenHas(groups[1..], i - 1); }
  }

  lemma {:induction false} OpIsInOfTlid(ops: seq<Op>, i: nat)
    requires i < |ops|
    ensures |OfTlid(ops, TlidOf(ops[i]))| > 0
  {
    if i > 0 { OpIsInOfTlid(ops[1..], i - 1); }
  }

  /** The redo that leads is one of the ops. */
  lemma {:induction false} LeadingRedoIsAnOp(ops: seq<Op>) returns (i: nat)
    requires LeadingRedo(ops)
    ensures i < |ops| && ops[i] == CancelRedos(Flag(false, ops)).value[0].1
  {
    var x := CancelRedos(Flag(false, ops)).value[0];
    K.CancelRedosInvents(Flag(false, ops), x);
    FlagIndex(false, ops);
    i :| 0 <= i < |Flag(false, ops)| && Flag(false, ops)[i] == x;
  }

  lemma {:induction false} LeadingRedoIsNotOrderFree(oldops: seq<Op>, newops: seq<Op>)
    requires Build(EMPTY, oldops, newops).Ok? && LeadingRedo(oldops + newops) && !OneId(oldops + newops)
    ensures !OrderFree(oldops, newops)
  {
    var ops := oldops + newops;
    var groups := GroupByTlid(ops);
    GroupByTlidIsGrouping(ops);
    var r := LeadingRedoIsAnOp(ops);
    var t := TlidOf(ops[r]);
    var o :| 0 <= o < |ops| && TlidOf(ops[o]) != t;
    OpIsInOfTlid(ops, r);
    assert HasGroup(groups, t);
    var k :| 0 <= k < |groups| && groups[k].0 == t;
    var moved, n := MovedLast(groups, k), |groups| - 1;
    MovedIsGrouping(groups, ops, k);
    MovedIndex(groups, k, n);
    OtherGroupIsBefore(moved, ops, TlidOf(ops[o]), o);
    LeadingRedoFailsWhenLast(ops, moved);
  }

  lemma {:induction false} OtherGroupIsBefore(groups: seq<Group>, ops: seq<Op>, u: Tlid, o: nat)
    requires IsGrouping(groups, ops) && |groups| > 0 && groups[|groups| - 1].0 != u
    requires o < |ops| && TlidOf(ops[o]) == u
    ensures |Flatten(groups[..|groups| - 1])| > 0
  {
    OpIsInOfTlid(ops, o);
    assert HasGroup(groups, u);
    var i :| 0 <= i < |groups| && groups[i].0 == u;
    FlattenHas(groups[..|groups| - 1], i);
  }

  /** Storing ops by id loses nothing, whatever the order of loading, exactly when no
      unmatched redo leads the oplist or all its ops are of one id. */
  lemma {:induction false} OrderFreeIff(oldops: seq<Op>, newops: seq<Op>)
    requires Build(EMPTY, oldops, newops).Ok?
    ensures OrderFree(oldops, newops) <==> !LeadingRedo(oldops + newops) || OneId(oldops + newops)
  {
    if OneId(oldops + newops) {
      OneIdIsOrderFree(oldops, newops);
    } else if LeadingRedo(oldops + newops) {
      LeadingRedoIsNotOrderFree(oldops, newops);
    } else {
      forall groups | IsGrouping(groups, oldops + newops)
        ensures BuildOf(Flatten(groups)) == Build(EMPTY, oldops, newops)
      {
        GroupedReplayAgrees(oldops, newops, groups);
      }
    }
  }
}
