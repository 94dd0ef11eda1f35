/** When dropping history before the last creating op (canvas_clone.ml) changes nothing, undos
    and redos included: the exact condition. */
module CanvasTrim {
  import opened Common
  import opened CanvasTypes
  import opened CanvasOps
  import opened CanvasReplay
  import opened CanvasKinds
  import opened CanvasClone
  import opened Undo
  import R = UndoRedo

  predicate Creates(ops: seq<FlaggedOp>) {
    exists i :: 0 <= i < |ops| && IsOpThatCreatesToplevel(ops[i].1)
  }

  predicate Owned(ops: seq<FlaggedOp>, t: Tlid) {
    forall i :: 0 <= i < |ops| ==> TlidOf(ops[i].1) == t
  }

  /** No undo drops the op that creates the toplevel. */
  predicate CreationKept(kept: seq<Op>) {
    var r := Preprocess(Flag(false, kept));
    r.Ok? && Creates(r.value)
  }

  /** There is nothing to drop, or the creation is kept, or there is nothing to build. */
  predicate TrimIsExact(ops: seq<Op>) {
    TrimStart(ops) == 0 || CreationKept(Trimmed(ops)) || BuildOf(ops) == Ok(EMPTY)
  }

  // ---- Step 1 of preprocessing

  lemma CreatingOpStopsRedos(b: seq<FlaggedOp>)
    requires |b| > 0 && IsOpThatCreatesToplevel(b[0].1) && CancelRedos(b).Ok?
    ensures CancelRedos(b[1..]).Ok? && NoRedo(CancelRedos(b).value)
    ensures CancelRedos(b).value == [b[0]] + CancelRedos(b[1..]).value
  {
    RedosEndUpInFront(b[1..]);
  }

  // ---- Step 2

  lemma {:induction false} CountWithin(acc: seq<FlaggedOp>, p: seq<FlaggedOp>, t: Tlid)
    ensures CountToSavepoint(acc, t) < |acc| ==> CountToSavepoint(acc + p, t) == CountToSavepoint(acc, t)
    ensures CountToSavepoint(acc, t) == |acc| ==> CountToSavepoint(acc + p, t) == |acc| + CountToSavepoint(p, t)
  {
    if |acc| == 0 {
      assert acc + p == p;
    } else {
      assert (acc + p)[1..] == acc[1..] + p;
      CountWithin(acc[1..], p, t);
    }
  }

  /** An undo that finds a savepoint among the recent ops stays within them ... */
  lemma UndoneWithin(acc: seq<FlaggedOp>, p: seq<FlaggedOp>, op: FlaggedOp, t: Tlid)
    requires op.1 == UndoTL(t) && Owned(acc, t) && CountToSavepoint(acc, t) < |acc|
    ensures var k := CountToSavepoint(acc, t);
            Undone(acc, op) == acc[k + 1..] && Undone(acc + p, op) == Undone(acc, op) + p
  {
    var k := CountToSavepoint(acc, t);
    CountWithin(acc, p, t);
    OpsNotOfOwn(acc[..k], t);
    CutWithin(acc, p, k);
    UndoneByCount(acc, op, t);
    UndoneByCount(acc + p, op, t);
  }

  lemma CutWithin<T>(a: seq<T>, b: seq<T>, k: nat)
    requires k < |a|
    ensures (a + b)[..k] == a[..k] && (a + b)[k + 1..] == a[k + 1..] + b
  {}

  /** What an undo keeps when it finds a savepoint. */
  lemma UndoneByCount(acc: seq<FlaggedOp>, op: FlaggedOp, t: Tlid)
    requires op.1 == UndoTL(t) && CountToSavepoint(acc, t) < |acc|
    ensures var k := CountToSavepoint(acc, t);
            OpsNotOf(acc[..k], t) == [] ==> Undone(acc, op) == acc[k + 1..]
  {
    var k := CountToSavepoint(acc, t);
    assert acc[k..][1..] == acc[k + 1..];
    assert [] + acc[k + 1..] == acc[k + 1..];
  }

  /** ... and otherwise drops them all and reaches further back. */
  lemma UndoneBeyond(acc: seq<FlaggedOp>, p: seq<FlaggedOp>, op: FlaggedOp, t: Tlid)
    requires op.1 == UndoTL(t) && Owned(acc, t) && CountToSavepoint(acc, t) == |acc|
    ensures Undone(acc, op) == [] && Undone(acc + p, op) == Undone(p, op)
  {
    var k, n := |acc|, CountToSavepoint(p, t);
    CountWithin(acc, p, t);
    OpsNotOfOwn(acc, t);
    assert (acc + p)[..k + n] == acc + p[..n] && (acc + p)[k + n..] == p[n..];
    assert acc[..k] == acc && acc[k..] == [];
    R.OpsNotOfConcat(acc, p[..n], t);
    assert [] + OpsNotOf(p[..n], t) == OpsNotOf(p[..n], t);
  }

  /** Only the oldest of the recent ops may create a toplevel. */
  predicate CreatesAtMostLast(acc: seq<FlaggedOp>) {
    forall i :: 0 <= i < |acc| - 1 ==> !IsOpThatCreatesToplevel(acc[i].1)
  }

  /** The oldest of the recent ops is still there. */
  predicate SameLast(acc: seq<FlaggedOp>, r: seq<FlaggedOp>) {
    |acc| > 0 && |r| > 0 && r[|r| - 1] == acc[|acc| - 1]
  }

  lemma SplitStep(acc: seq<FlaggedOp>, p: seq<FlaggedOp>, op: FlaggedOp, t: Tlid) returns (p': seq<FlaggedOp>)
    requires Owned(acc, t) && CreatesAtMostLast(acc) && TlidOf(op.1) == t && !IsOpThatCreatesToplevel(op.1)
    ensures var acc' := Undone(acc, op);
            Undone(acc + p, op) == acc' + p' && Owned(acc', t) && CreatesAtMostLast(acc')
            && (Creates(acc') ==> p' == p && SameLast(acc, acc'))
  {
    if !op.1.UndoTL? {
      p' := p;
      assert [op] + (acc + p) == Undone(acc, op) + p;
      assert |acc| == 0 ==> Undone(acc, op) == [op];
    } else {
      if CountToSavepoint(acc, t) < |acc| {
        UndoneWithin(acc, p, op, t);
        p' := p;
      } else {
        UndoneBeyond(acc, p, op, t);
        p' := Undone(p, op);
        assert [] + p' == p';
      }
    }
  }

  /** What the recent ops leave does not depend on older ones, and if their creating op is
      left then the older ones are untouched. */
  lemma {:induction false} SplitDrop(acc: seq<FlaggedOp>, p: seq<FlaggedOp>, ops: seq<FlaggedOp>, t: Tlid)
    returns (p': seq<FlaggedOp>)
    requires Owned(acc, t) && Owned(ops, t) && CreatesAtMostLast(acc) && !Creates(ops)
    ensures DropUndone(acc + p, ops) == DropUndone(acc, ops) + p'
    ensures Creates(DropUndone(acc, ops)) ==> p' == p && SameLast(acc, DropUndone(acc, ops))
    decreases |ops|
  {
    if |ops| == 0 {
      p' := p;
    } else {
      assert !IsOpThatCreatesToplevel(ops[0].1);
      RestIsLikewise(ops, t);
      var acc' := Undone(acc, ops[0]);
      var p1 := SplitStep(acc, p, ops[0], t);
      p' := SplitDrop(acc', p1, ops[1..], t);
      if !Creates(acc') { NothingCreated(acc', ops[1..]); }
    }
  }

  lemma RestIsLikewise(ops: seq<FlaggedOp>, t: Tlid)
    requires |ops| > 0 && Owned(ops, t) && !Creates(ops)
    ensures Owned(ops[1..], t) && !Creates(ops[1..])
  {
    forall i | 0 <= i < |ops[1..]| ensures !IsOpThatCreatesToplevel(ops[1..][i].1) {
      assert ops[1..][i] == ops[i + 1];
    }
  }

  lemma {:induction false} NothingCreated(acc: seq<FlaggedOp>, ops: seq<FlaggedOp>)
    requires !Creates(acc) && !Creates(ops)
    ensures !Creates(DropUndone(acc, ops))
  {
    var r := DropUndone(acc, ops);
    forall i | 0 <= i < |r| ensures !IsOpThatCreatesToplevel(r[i].1) {
      DropUndoneInvents(acc, ops, r[i]);
      if r[i] in acc {
        var j :| 0 <= j < |acc| && acc[j] == r[i];
      } else {
        var j :| 0 <= j < |ops| && ops[j] == r[i];
      }
    }
  }

  // ---- The kept ops behind the dropped ones

  lemma {:induction false} MembersLikewise(ops: seq<FlaggedOp>, t: Tlid)
    requires Owned(ops, t) && CancelRedos(ops).Ok?
    ensures Owned(CancelRedos(ops).value, t)
    ensures !Creates(ops) ==> !Creates(CancelRedos(ops).value)
  {
    var r := CancelRedos(ops).value;
    forall i | 0 <= i < |r|
      ensures TlidOf(r[i].1) == t && (!Creates(ops) ==> !IsOpThatCreatesToplevel(r[i].1))
    {
      CancelRedosInvents(ops, r[i]);
      var j :| 0 <= j < |ops| && ops[j] == r[i];
    }
  }

  /** Preprocessing all ops gives some older ops followed by what the kept ones give alone;
      if their creating op is among these, then all that the older ones give alone. */
  lemma {:induction false} PreprocessSplits(a: seq<FlaggedOp>, b: seq<FlaggedOp>, t: Tlid)
    returns (older: seq<FlaggedOp>)
    requires Preprocess(a + b).Ok? && |b| > 0 && IsOpThatCreatesToplevel(b[0].1) && Owned(b, t) && !Creates(b[1..])
    ensures Preprocess(a).Ok? && Preprocess(b).Ok?
    ensures Preprocess(a + b).value == older + Preprocess(b).value
    ensures Creates(Preprocess(b).value) ==> older == Preprocess(a).value && Preprocess(b).value[0] == b[0]
  {
    SuffixCancels(a, b);
    CreatingOpStopsRedos(b);
    CancelRedosConcat(a, b);
    var ca, rest := CancelRedos(a).value, CancelRedos(b[1..]).value;
    MembersLikewise(b[1..], t);
    var p := DropUndone([], ca);
    DropUndoneConcat([], ca, [b[0]] + rest);
    Kept(b[0], p, rest);
    Kept(b[0], [], rest);
    var p' := SplitDrop([b[0]], p, rest, t);
    var r := DropUndone([b[0]], rest);
    assert [b[0]] + [] == [b[0]];
    ReversedConcat(r, p');
    older := Reversed(p');
    if Creates(Reversed(r)) {
      ReversedCreates(r);
      assert r == r[..|r| - 1] + [b[0]];
      ReversedConcat(r[..|r| - 1], [b[0]]);
    }
  }

  lemma ReversedCreates(ops: seq<FlaggedOp>)
    requires Creates(Reversed(ops))
    ensures Creates(ops)
  {
    var r := Reversed(ops);
    var i :| 0 <= i < |r| && IsOpThatCreatesToplevel(r[i].1);
    ReversedInvents(ops, r[i]);
    var j :| 0 <= j < |ops| && ops[j] == r[i];
  }

  // ---- What the kept ops build without their creating op: nothing

  lemma InertOp(op: Op, d: Toplevels)
    requires !IsOpThatCreatesToplevel(op) && ApplyOp(false, op, d).Ok?
    ensures ApplyOp(false, op, EMPTY) == Ok(EMPTY)
  {
    if EditsDb(op) {
      DbOpApplies(false, op, d);
      DbOpApplies(false, op, EMPTY);
    }
  }

  lemma {:induction false} InertOps(ops: seq<FlaggedOp>, d: Toplevels)
    requires !Creates(ops) && Replay(ops, d).Ok? && forall i :: 0 <= i < |ops| ==> !ops[i].0
    ensures Replay(ops, EMPTY) == Ok(EMPTY)
    decreases |ops|
  {
    if |ops| == 0 {
    } else {
      InertOp(ops[0].1, d);
      assert !Creates(ops[1..]) by {
        forall i | 0 <= i < |ops[1..]| ensures !IsOpThatCreatesToplevel(ops[1..][i].1) {
          assert ops[1..][i] == ops[i + 1];
        }
      }
      InertOps(ops[1..], ApplyOp(false, ops[0].1, d).value);
    }
  }

  // ---- The exact condition

  lemma KeptShape(ops: seq<Op>, t: Tlid)
    requires AllOf(ops, t) && TrimStart(ops) > 0
    ensures var b := Flag(false, Trimmed(ops));
            |b| > 0 && IsOpThatCreatesToplevel(b[0].1) && Owned(b, t) && !Creates(b[1..])
            && forall i :: 0 <= i < |b| ==> !b[i].0
  {
    var kept := Trimmed(ops);
    FlagIndex(false, kept);
    var rest := Flag(false, kept)[1..];
    forall i | 0 <= i < |rest| ensures !IsOpThatCreatesToplevel(rest[i].1) {
      assert rest[i].1 == ops[TrimStart(ops) + i + 1];
    }
  }

  lemma {:induction false} PreprocessedAreOwned(ops: seq<FlaggedOp>, t: Tlid)
    requires Preprocess(ops).Ok? && Owned(ops, t) && forall i :: 0 <= i < |ops| ==> !ops[i].0
    ensures Owned(Preprocess(ops).value, t)
    ensures forall i :: 0 <= i < |Preprocess(ops).value| ==> !Preprocess(ops).value[i].0
  {
    var r := Preprocess(ops).value;
    forall i | 0 <= i < |r| ensures TlidOf(r[i].1) == t && !r[i].0 {
      PreprocessInvents(ops, r[i]);
      var j :| 0 <= j < |ops| && ops[j] == r[i];
    }
  }

  /** If the creating op is left, the dropped history makes no difference. */
  lemma {:induction false} SurvivorErases(a: seq<Op>, b: seq<Op>, t: Tlid, k: Kind)
    requires AllOf(a, t) && AllOf(b, t) && CreatesOnly(a, k) && |b| > 0 && CreatedKind(b[0]) == Some(k)
    requires BuildOf(a + b).Ok? && Preprocess(Flag(false, a)).Ok? && CreationKept(b)
    requires Preprocess(Flag(false, b)).value[0] == (false, b[0])
    requires Preprocess(Flag(false, a + b)) == Ok(Preprocess(Flag(false, a)).value + Preprocess(Flag(false, b)).value)
    ensures BuildOf(b).Ok? && SlotOf(BuildOf(b).value, t) == SlotOf(BuildOf(a + b).value, t)
  {
    var fa, fb, fab := Flag(false, a), Flag(false, b), Flag(false, a + b);
    assert fa + Flag(true, []) == fa && fb + Flag(true, []) == fb && fab + Flag(true, []) == fab;
    FlagIndex(false, b);
    PreprocessedAreOwned(fb, t);
    ReplayConcat(Preprocess(fa).value, Preprocess(fb).value, EMPTY);
    BuildLeavesOnlyKind(a, t, k);
    HistoryIsErased(Preprocess(fb).value, BuildOf(a).value, t, k);
  }

  /** If it is not, the kept ops build nothing. */
  lemma {:induction false} WithoutCreationNothing(a: seq<Op>, b: seq<Op>, older: seq<FlaggedOp>, t: Tlid)
    requires AllOf(b, t) && BuildOf(a + b).Ok? && Preprocess(Flag(false, b)).Ok? && !CreationKept(b)
    requires Preprocess(Flag(false, a + b)) == Ok(older + Preprocess(Flag(false, b)).value)
    ensures BuildOf(b) == Ok(EMPTY)
  {
    var fb, fab := Flag(false, b), Flag(false, a + b);
    assert fb + Flag(true, []) == fb && fab + Flag(true, []) == fab;
    FlagIndex(false, b);
    PreprocessedAreOwned(fb, t);
    ReplayConcat(older, Preprocess(fb).value, EMPTY);
    InertOps(Preprocess(fb).value, Replay(older, EMPTY).value);
  }

  lemma {:induction false} SuffixIsExactIff(a: seq<Op>, b: seq<Op>, t: Tlid, k: Kind)
    requires AllOf(a + b, t) && AllOf(b, t) && CreatesOnly(a, k) && |b| > 0 && CreatedKind(b[0]) == Some(k)
    requires BuildOf(a + b).Ok? && Owned(Flag(false, b), t) && !Creates(Flag(false, b)[1..])
    ensures BuildOf(b) == BuildOf(a + b) <==> CreationKept(b) || BuildOf(a + b) == Ok(EMPTY)
    ensures BuildOf(b) == BuildOf(a + b) || BuildOf(b) == Ok(EMPTY)
  {
    var fa, fb := Flag(false, a), Flag(false, b);
    FlagConcat(a, b);
    assert fa + fb + Flag(true, []) == fa + fb;
    FlagIndex(false, b);
    var older := PreprocessSplits(fa, fb, t);
    if CreationKept(b) {
      forall i | 0 <= i < |a| ensures TlidOf(a[i]) == t { assert (a + b)[i] == a[i]; }
      SurvivorErases(a, b, t, k);
      SameOutsideToo(a + b, b, t);
    } else {
      WithoutCreationNothing(a, b, older, t);
    }
  }

  /** Trimming a single-kind oplist of one id keeps what it builds exactly when there is
      nothing to drop, or no undo drops the op that creates the toplevel, or the oplist builds
      nothing. Otherwise the trimmed oplist builds nothing. */
  lemma {:induction false} TrimIsExactIff(ops: seq<Op>, t: Tlid)
    requires AllOf(ops, t) && SingleKind(ops) && BuildOf(ops).Ok?
    ensures BuildOf(Trimmed(ops)) == BuildOf(ops) <==> TrimIsExact(ops)
    ensures !TrimIsExact(ops) ==> BuildOf(Trimmed(ops)) == Ok(EMPTY)
  {
    if TrimStart(ops) == 0 {
      assert Trimmed(ops) == ops;
    } else {
      var a, b := ops[..TrimStart(ops)], Trimmed(ops);
      assert ops == a + b;
      var k :| CreatesOnly(ops, k);
      assert MayCreate(ops[TrimStart(ops)], k);
      KeptShape(ops, t);
      SuffixIsExactIff(a, b, t, k);
    }
  }

  lemma {:induction false} SameOutsideToo(ops: seq<Op>, b: seq<Op>, t: Tlid)
    requires AllOf(ops, t) && AllOf(b, t) && BuildOf(ops).Ok? && BuildOf(b).Ok?
    requires SlotOf(BuildOf(b).value, t) == SlotOf(BuildOf(ops).value, t)
    ensures BuildOf(b) == BuildOf(ops)
  {
    var c, d := BuildOf(ops).value, BuildOf(b).value;
    forall u ensures SlotOf(c, u) == SlotOf(d, u) {
      if u != t {
        BuildLeavesOthers(ops, t, u);
        BuildLeavesOthers(b, t, u);
      }
    }
    SameSlotsSameMaps(c, d);
  }
}
