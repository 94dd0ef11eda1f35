/** Cloning a canvas (canvas_clone.ml): dropping history before the last creating op and
    rewriting hosts in string literals, and what both mean for the canvas that is built. */
module CanvasClone {
  import opened Common
  import opened CanvasTypes
  import opened CanvasOps
  import opened CanvasReplay
  import opened CanvasKinds
  import opened Undo

  predicate IsOpThatCreatesToplevel(op: Op) {
    op.SetHandler? || op.CreateDB? || op.SetFunction? || op.CreateDBWithBlankOr? || op.SetType?
  }

  /** Where the kept history starts. */
  function TrimStart(ops: seq<Op>): (k: nat)
    ensures if |ops| == 0 then k == 0 else k < |ops|
    ensures forall j :: k < j < |ops| ==> !IsOpThatCreatesToplevel(ops[j])
    ensures k == 0 || IsOpThatCreatesToplevel(ops[k])
  {
    if |ops| == 0 then 0
    else if IsOpThatCreatesToplevel(ops[|ops| - 1]) then |ops| - 1
    else TrimStart(ops[..|ops| - 1])
  }

  function Trimmed(ops: seq<Op>): seq<Op> {
    ops[TrimStart(ops)..]
  }

  /** only_ops_since_last_savepoint: the suffix from the last creating op on, or the whole
      list if nothing in it creates a toplevel. */
  method OnlyOpsSinceLastSavepoint(ops: seq<Op>) returns (r: seq<Op>)
    ensures r == Trimmed(ops)
    ensures r <= ops[|ops| - |r|..]
    ensures |r| < |ops| ==> IsOpThatCreatesToplevel(r[0])
    ensures forall j :: 0 < j < |r| ==> !IsOpThatCreatesToplevel(r[j])
  {
    var encounteredCreateOp := false;
    var i := |ops|;
    r := [];
    while i > 0 && !encounteredCreateOp
      invariant 0 <= i <= |ops| && r == ops[i..]
      invariant encounteredCreateOp ==> i < |ops| && IsOpThatCreatesToplevel(ops[i])
      invariant forall j :: i < j < |ops| ==> !IsOpThatCreatesToplevel(ops[j])
      invariant !encounteredCreateOp && i < |ops| ==> !IsOpThatCreatesToplevel(ops[i])
    {
      i := i - 1;
      encounteredCreateOp := IsOpThatCreatesToplevel(ops[i]);
      r := [ops[i]] + r;
    }
    TrimStartIsLastCreate(ops, i);
  }

  lemma {:induction false} TrimStartIsLastCreate(ops: seq<Op>, i: nat)
    requires i == 0 || (i < |ops| && IsOpThatCreatesToplevel(ops[i]))
    requires forall j :: i < j < |ops| ==> !IsOpThatCreatesToplevel(ops[j])
    ensures TrimStart(ops) == i
  {
  }

  // ---- Trimming keeps the meaning

  predicate UndoFree(ops: seq<Op>) {
    forall i :: 0 <= i < |ops| ==> !ops[i].UndoTL? && !ops[i].RedoTL?
  }

  /** Ops without undos come out of preprocessing unchanged behind whatever precedes them. */
  lemma {:induction false} PreprocessWithUndoFreeTail(a: seq<FlaggedOp>, b: seq<FlaggedOp>)
    requires forall i :: 0 <= i < |b| ==> !b[i].1.UndoTL? && !b[i].1.RedoTL?
    requires Preprocess(a + b).Ok?
    ensures Preprocess(a).Ok? && Preprocess(a + b).value == Preprocess(a).value + b
  {
    CancelNothing(b);
    CancelRedosConcat(a, b);
    var ra := CancelRedos(a).value;
    DropUndoneConcat([], ra, b);
    DropNothing(DropUndone([], ra), b);
    ReversedConcat(Reversed(b), DropUndone([], ra));
    ReversedTwice(b);
  }

  lemma {:induction false} DropUndoneConcat(acc: seq<FlaggedOp>, a: seq<FlaggedOp>, b: seq<FlaggedOp>)
    ensures DropUndone(acc, a + b) == DropUndone(DropUndone(acc, a), b)
    decreases |a|
  {
    if |a| == 0 {
      assert a + b == b;
    } else {
      assert (a + b)[0] == a[0] && (a + b)[1..] == a[1..] + b;
      DropUndoneConcat(Undone(acc, a[0]), a[1..], b);
    }
  }

  lemma {:induction false} ReplayConcat(a: seq<FlaggedOp>, b: seq<FlaggedOp>, c: Toplevels)
    requires Replay(a + b, c).Ok?
    ensures Replay(a, c).Ok? && Replay(a + b, c) == Replay(b, Replay(a, c).value)
    decreases |a|
  {
    if |a| == 0 {
      assert a + b == b;
    } else {
      assert (a + b)[0] == a[0] && (a + b)[1..] == a[1..] + b;
      ReplayConcat(a[1..], b, ApplyOp(a[0].0, a[0].1, c).value);
    }
  }

  /** A creating op erases what was there of its kind. */
  lemma CreatingOpResets(op: Op, c: Toplevels, d: Toplevels, k: Kind)
    requires OnlyKind(SlotOf(c, TlidOf(op)), k) && OnlyKind(SlotOf(d, TlidOf(op)), k)
    requires CreatedKind(op) == Some(k)
    ensures ApplyOp(false, op, c).Ok? && ApplyOp(false, op, d).Ok?
    ensures SlotOf(ApplyOp(false, op, c).value, TlidOf(op)) == SlotOf(ApplyOp(false, op, d).value, TlidOf(op))
  {}

  lemma {:induction false} ReplayLeavesOthers(ops: seq<FlaggedOp>, c: Toplevels, u: Tlid)
    requires Replay(ops, c).Ok? && forall i :: 0 <= i < |ops| ==> TlidOf(ops[i].1) != u
    ensures SlotOf(Replay(ops, c).value, u) == SlotOf(c, u)
    decreases |ops|
  {
    if |ops| == 0 {
    } else {
      OpIsLocal(ops[0].0, ops[0].1, c, c);
      ReplayLeavesOthers(ops[1..], ApplyOp(ops[0].0, ops[0].1, c).value, u);
    }
  }

  lemma {:induction false} BuildLeavesOthers(ops: seq<Op>, t: Tlid, u: Tlid)
    requires AllOf(ops, t) && u != t && BuildOf(ops).Ok?
    ensures SlotOf(BuildOf(ops).value, u) == NOTHING
  {
    var flagged := Flag(false, ops);
    assert flagged + Flag(true, []) == flagged;
    FlagIndex(false, ops);
    var reduced := Preprocess(flagged).value;
    forall i | 0 <= i < |reduced| ensures TlidOf(reduced[i].1) != u { PreprocessInvents(flagged, reduced[i]); }
    ReplayLeavesOthers(reduced, EMPTY, u);
    assert SlotOf(EMPTY, u) == NOTHING;
  }

  lemma {:induction false} OpsOfOwn(ops: seq<FlaggedOp>, t: Tlid)
    requires forall i :: 0 <= i < |ops| ==> TlidOf(ops[i].1) == t
    ensures OpsOf(ops, t) == ops
  {
    if |ops| == 0 {
    } else {
      OpsOfOwn(ops[1..], t);
      assert ops == [ops[0]] + ops[1..];
    }
  }

  /** A list that begins with a creating op builds the same slot on top of anything of the
      same kind as on the empty canvas. */
  lemma {:induction false} HistoryIsErased(b: seq<FlaggedOp>, c: Toplevels, t: Tlid, k: Kind)
    requires |b| > 0 && CreatedKind(b[0].1) == Some(k) && !b[0].0
    requires forall i :: 0 <= i < |b| ==> TlidOf(b[i].1) == t
    requires OnlyKind(SlotOf(c, t), k) && Replay(b, c).Ok?
    ensures Replay(b, EMPTY).Ok?
    ensures SlotOf(Replay(b, EMPTY).value, t) == SlotOf(Replay(b, c).value, t)
  {
    assert SlotOf(EMPTY, t) == NOTHING;
    CreatingOpResets(b[0].1, c, EMPTY, k);
    ReplayIsLocal(b[1..], ApplyOp(false, b[0].1, c).value, ApplyOp(false, b[0].1, EMPTY).value, t);
    OpsOfOwn(b[1..], t);
  }

  /** The replay of an undo-free suffix starts from what the preceding ops build. */
  lemma {:induction false} BuildInTwoParts(a: seq<Op>, b: seq<Op>)
    requires UndoFree(b) && BuildOf(a + b).Ok?
    ensures BuildOf(a).Ok? && BuildOf(a + b) == Replay(Flag(false, b), BuildOf(a).value)
    ensures BuildOf(b) == Replay(Flag(false, b), EMPTY)
  {
    var fa, fb := Flag(false, a), Flag(false, b);
    FlagConcat(a, b);
    FlagIndex(false, b);
    assert (fa + fb) + Flag(true, []) == fa + fb && fb + Flag(true, []) == fb && fa + Flag(true, []) == fa;
    PreprocessWithUndoFreeTail(fa, fb);
    PreprocessOfUndoFree(fb);
    ReplayConcat(Preprocess(fa).value, fb, EMPTY);
  }

  lemma {:induction false} TrimKeepsSlot(ops: seq<Op>, t: Tlid, k: Kind)
    requires AllOf(ops, t) && CreatesOnly(ops, k) && UndoFree(Trimmed(ops)) && BuildOf(ops).Ok?
    requires TrimStart(ops) > 0
    ensures BuildOf(Trimmed(ops)).Ok?
    ensures SlotOf(BuildOf(Trimmed(ops)).value, t) == SlotOf(BuildOf(ops).value, t)
  {
    var a, b := ops[..TrimStart(ops)], Trimmed(ops);
    assert ops == a + b;
    assert MayCreate(ops[TrimStart(ops)], k);
    SuffixKeepsSlot(a, b, t, k);
  }

  lemma {:induction false} SuffixKeepsSlot(a: seq<Op>, b: seq<Op>, t: Tlid, k: Kind)
    requires AllOf(a, t) && AllOf(b, t) && CreatesOnly(a, k) && UndoFree(b) && BuildOf(a + b).Ok?
    requires |b| > 0 && CreatedKind(b[0]) == Some(k)
    ensures BuildOf(b).Ok?
    ensures SlotOf(BuildOf(b).value, t) == SlotOf(BuildOf(a + b).value, t)
  {
    BuildInTwoParts(a, b);
    BuildLeavesOnlyKind(a, t, k);
    FlagIndex(false, b);
    HistoryIsErased(Flag(false, b), BuildOf(a).value, t, k);
  }

  /** History trimming preserves meaning: the kept ops of an id build exactly the canvas all
      its ops build, live and deleted entries alike, if they create one kind of toplevel and
      no undo or redo is among the kept ops. */
  lemma {:induction false} TrimPreservesMeaning(ops: seq<Op>, t: Tlid)
    requires AllOf(ops, t) && SingleKind(ops) && UndoFree(Trimmed(ops)) && BuildOf(ops).Ok?
    ensures BuildOf(Trimmed(ops)) == BuildOf(ops)
  {
    if TrimStart(ops) == 0 {
      assert Trimmed(ops) == ops;
    } else {
      var k :| CreatesOnly(ops, k);
      TrimKeepsSlot(ops, t, k);
      var c, d := BuildOf(ops).value, BuildOf(Trimmed(ops)).value;
      forall u ensures SlotOf(c, u) == SlotOf(d, u) {
        if u != t {
          BuildLeavesOthers(ops, t, u);
          BuildLeavesOthers(Trimmed(ops), t, u);
        }
      }
      SameSlotsSameMaps(c, d);
    }
  }

  /** The condition on undos is needed: an undo among the kept ops can reach back into the
      dropped ones. Here the full oplist restores the first version of the handler, the
      trimmed one builds nothing. */
  lemma TrimCanLoseAnUndo(t: Tlid, pos: Pos, h1: Handler, h2: Handler)
    ensures var ops := [SetHandler(t, pos, h1), TLSavepoint(t), SetHandler(t, pos, h2), UndoTL(t)];
            Trimmed(ops) == [SetHandler(t, pos, h2), UndoTL(t)]
            && BuildOf(ops) == Ok(SetHandlerTl(t, pos, HandlerData(h1), EMPTY))
            && BuildOf(Trimmed(ops)) == Ok(EMPTY)
  {
    var s1, sp, s2, un := SetHandler(t, pos, h1), TLSavepoint(t), SetHandler(t, pos, h2), UndoTL(t);
    var ops, kept := [s1, sp, s2, un], [s2, un];
    TrimStartIsLastCreate(ops, 2);
    assert Trimmed(ops) == kept;
    var f, g := Flag(false, ops), Flag(false, kept);
    FlagIndex(false, ops);
    FlagIndex(false, kept);
    assert f == [(false, s1), (false, sp), (false, s2), (false, un)] && g == [(false, s2), (false, un)];
    CancelNothing(f);
    CancelNothing(g);
    UndoExamples((false, s1), (false, sp), (false, s2), (false, un), t);
    UndoneAlone((false, s2), (false, un), t);
    assert f + Flag(true, []) == f && g + Flag(true, []) == g;
    assert [(false, s1)][1..] == [];
    assert Replay([(false, s1)], EMPTY) == Replay([], SetHandlerTl(t, pos, HandlerData(h1), EMPTY));
  }

  lemma UndoExamples(s1: FlaggedOp, sp: FlaggedOp, s2: FlaggedOp, un: FlaggedOp, t: Tlid)
    requires s1.1.SetHandler? && s1.1.tlid == t && s2.1.SetHandler? && s2.1.tlid == t
    requires sp.1 == TLSavepoint(t) && un.1 == UndoTL(t)
    ensures Reversed(DropUndone([], [s1, sp, s2, un])) == [s1]
  {
    var acc := [s2, sp, s1];
    UndoneToSavepoint(s1, sp, s2, un, t);
    KeptThree(s1, sp, s2, [un]);
    Unfold(acc, un, []);
    assert [s1, sp, s2] + [un] == [s1, sp, s2, un] && [un] + [] == [un];
    assert Reversed([s1]) == [s1];
  }

  /** An op that is no undo is kept for now. */
  lemma Kept(op: FlaggedOp, acc: seq<FlaggedOp>, rest: seq<FlaggedOp>)
    requires !op.1.UndoTL?
    ensures DropUndone(acc, [op] + rest) == DropUndone([op] + acc, rest)
  {
    Unfold(acc, op, rest);
  }

  lemma KeptThree(a: FlaggedOp, b: FlaggedOp, c: FlaggedOp, rest: seq<FlaggedOp>)
    requires !a.1.UndoTL? && !b.1.UndoTL? && !c.1.UndoTL?
    ensures DropUndone([], [a, b, c] + rest) == DropUndone([c, b, a], rest)
  {
    Kept(a, [], [b, c] + rest);
    Kept(b, [a], [c] + rest);
    Kept(c, [b, a], rest);
    assert [a] + [] == [a] && [b] + [a] == [b, a] && [c] + [b, a] == [c, b, a];
    assert [a, b, c] + rest == [a] + ([b, c] + rest) && [b, c] + rest == [b] + ([c] + rest);
  }

  lemma UndoneToSavepoint(s1: FlaggedOp, sp: FlaggedOp, s2: FlaggedOp, un: FlaggedOp, t: Tlid)
    requires s1.1.SetHandler? && s1.1.tlid == t && s2.1.SetHandler? && s2.1.tlid == t
    requires sp.1 == TLSavepoint(t) && un.1 == UndoTL(t)
    ensures Undone([s2, sp, s1], un) == [s1]
  {
    var acc := [s2, sp, s1];
    assert acc[1..] == [sp, s1] && CountToSavepoint([sp, s1], t) == 0;
    assert CountToSavepoint(acc, t) == 1;
    assert acc[..1] == [s2] && acc[1..][1..] == [s1];
    OpsNotOfOwn([s2], t);
  }

  lemma UndoneAlone(s2: FlaggedOp, un: FlaggedOp, t: Tlid)
    requires s2.1.SetHandler? && s2.1.tlid == t && un.1 == UndoTL(t)
    ensures Reversed(DropUndone([], [s2, un])) == []
  {
    OpsNotOfOwn([s2], t);
    assert [s2][1..] == [] && CountToSavepoint([s2], t) == 1;
    assert [s2][..1] == [s2] && [s2][1..] == [];
    assert Undone([s2], un) == [];
    Unfold([], s2, [un]);
    Unfold([s2], un, []);
    assert [s2] + [] == [s2] && [s2] + [un] == [s2, un] && [un] + [] == [un];
  }

  lemma Unfold(acc: seq<FlaggedOp>, op: FlaggedOp, rest: seq<FlaggedOp>)
    ensures DropUndone(acc, [op] + rest) == DropUndone(Undone(acc, op), rest)
  {
    assert ([op] + rest)[1..] == rest;
  }
}
