/** The kind of toplevel an oplist creates, and that ops never leave it. */
module CanvasKinds {
  import opened Common
  import opened CanvasTypes
  import opened CanvasOps
  import opened CanvasReplay
  import opened Undo
  import U = UserDb

  datatype Kind = HandlerKind | DbKind | FnKind | TipeKind

  /** What the op creates, if anything. */
  function CreatedKind(op: Op): Option<Kind> {
    match op
    case SetHandler(_, _, _) => Some(HandlerKind)
    case CreateDB(_, _, _) => Some(DbKind)
    case CreateDBWithBlankOr(_, _, _, _) => Some(DbKind)
    case SetFunction(_) => Some(FnKind)
    case SetType(_) => Some(TipeKind)
    case _ => None
  }

  predicate MayCreate(op: Op, k: Kind) {
    CreatedKind(op) == None || CreatedKind(op) == Some(k)
  }

  /** Everything the ops create is of kind `k`. */
  predicate CreatesOnly(ops: seq<Op>, k: Kind) {
    forall i :: 0 <= i < |ops| ==> MayCreate(ops[i], k)
  }

  predicate FlaggedCreatesOnly(ops: seq<FlaggedOp>, k: Kind) {
    forall i :: 0 <= i < |ops| ==> MayCreate(ops[i].1, k)
  }

  ghost predicate SingleKind(ops: seq<Op>) {
    exists k :: CreatesOnly(ops, k)
  }

  /** Only the entries of kind `k` are there. */
  predicate OnlyKind(s: Slot, k: Kind) {
    (k != HandlerKind ==> s.handler == None && s.deletedHandler == None)
    && (k != DbKind ==> s.db == None && s.deletedDb == None)
    && (k != FnKind ==> s.fn == None && s.deletedFn == None)
    && (k != TipeKind ==> s.tipe == None && s.deletedTipe == None)
  }

  lemma EditKeepsKind(edit: TlEdit, t: Tlid, c: Toplevels, k: Kind)
    requires OnlyKind(SlotOf(c, t), k) && ApplyToAllToplevels(edit, t, c).Ok?
    ensures OnlyKind(SlotOf(ApplyToAllToplevels(edit, t, c).value, t), k)
  {}

  lemma EditDbKeepsKind(edit: U.Edit, t: Tlid, c: Toplevels, k: Kind)
    requires OnlyKind(SlotOf(c, t), k) && ApplyToDb(edit, t, c).Ok?
    ensures OnlyKind(SlotOf(ApplyToDb(edit, t, c).value, t), k)
  {}

  lemma DeleteTlKeepsKind(t: Tlid, c: Toplevels, k: Kind)
    requires OnlyKind(SlotOf(c, t), k)
    ensures OnlyKind(SlotOf(DeleteToplevel(t, c), t), k)
  {}

  lemma DeleteFnKeepsKind(t: Tlid, c: Toplevels, k: Kind)
    requires OnlyKind(SlotOf(c, t), k)
    ensures OnlyKind(SlotOf(DeleteFn(t, c), t), k)
    ensures OnlyKind(SlotOf(DeleteTipe(t, c), t), k)
  {}

  lemma OtherOpKeepsKind(isNew: bool, op: Op, c: Toplevels, k: Kind)
    requires OnlyKind(SlotOf(c, TlidOf(op)), k) && MayCreate(op, k) && ApplyOp(isNew, op, c).Ok?
    requires !EditsDb(op) && !op.SetExpr? && !op.MoveTL? && !op.DeleteTL? && !op.DeleteFunction? && !op.DeleteType?
    ensures OnlyKind(SlotOf(ApplyOp(isNew, op, c).value, TlidOf(op)), k)
  {}

  lemma OpKeepsKind(isNew: bool, op: Op, c: Toplevels, k: Kind)
    requires OnlyKind(SlotOf(c, TlidOf(op)), k) && MayCreate(op, k) && ApplyOp(isNew, op, c).Ok?
    ensures OnlyKind(SlotOf(ApplyOp(isNew, op, c).value, TlidOf(op)), k)
  {
    var t := TlidOf(op);
    if EditsDb(op) {
      DbOpApplies(isNew, op, c);
      EditDbKeepsKind(DbEditOf(op).value, t, c, k);
    } else if op.SetExpr? {
      EditKeepsKind(SetTlExpr(op.id, op.expr), t, c, k);
    } else if op.MoveTL? {
      EditKeepsKind(Move(op.pos), t, c, k);
    } else if op.DeleteTL? {
      DeleteTlKeepsKind(t, c, k);
    } else if op.DeleteFunction? || op.DeleteType? {
      DeleteFnKeepsKind(t, c, k);
    } else {
      OtherOpKeepsKind(isNew, op, c, k);
    }
  }

  lemma {:induction false} ReplayKeepsKind(ops: seq<FlaggedOp>, c: Toplevels, t: Tlid, k: Kind)
    requires OnlyKind(SlotOf(c, t), k) && FlaggedCreatesOnly(ops, k) && Replay(ops, c).Ok?
    ensures OnlyKind(SlotOf(Replay(ops, c).value, t), k)
    decreases |ops|
  {
    if |ops| == 0 {
    } else {
      var d := ApplyOp(ops[0].0, ops[0].1, c).value;
      if TlidOf(ops[0].1) == t {
        OpKeepsKind(ops[0].0, ops[0].1, c, k);
      } else {
        OpIsLocal(ops[0].0, ops[0].1, c, c);
      }
      ReplayKeepsKind(ops[1..], d, t, k);
    }
  }

  // ---- Preprocessing invents no op

  lemma {:induction false} CancelRedosInvents(ops: seq<FlaggedOp>, x: FlaggedOp)
    requires CancelRedos(ops).Ok? && x in CancelRedos(ops).value
    ensures x in ops
  {
    var rest := CancelRedos(ops[1..]).value;
    if x in rest { CancelRedosInvents(ops[1..], x); }
  }

  lemma {:induction false} OpsNotOfInvents(ops: seq<FlaggedOp>, t: Tlid, x: FlaggedOp)
    requires x in OpsNotOf(ops, t)
    ensures x in ops
  {
    if |ops| > 0 && x in OpsNotOf(ops[1..], t) { OpsNotOfInvents(ops[1..], t, x); }
  }

  lemma {:induction false} DropUndoneInvents(acc: seq<FlaggedOp>, ops: seq<FlaggedOp>, x: FlaggedOp)
    requires x in DropUndone(acc, ops)
    ensures x in acc || x in ops
    decreases |ops|
  {
    if |ops| == 0 {
    } else {
      DropUndoneInvents(Undone(acc, ops[0]), ops[1..], x);
      if x in Undone(acc, ops[0]) && ops[0].1.UndoTL? {
        var k := CountToSavepoint(acc, ops[0].1.tlid);
        if x in OpsNotOf(acc[..k], ops[0].1.tlid) { OpsNotOfInvents(acc[..k], ops[0].1.tlid, x); }
      }
    }
  }

  lemma {:induction false} ReversedInvents(ops: seq<FlaggedOp>, x: FlaggedOp)
    requires x in Reversed(ops)
    ensures x in ops
  {
    if |ops| > 0 && x in Reversed(ops[1..]) { ReversedInvents(ops[1..], x); }
  }

  lemma {:induction false} PreprocessInvents(ops: seq<FlaggedOp>, x: FlaggedOp)
    requires Preprocess(ops).Ok? && x in Preprocess(ops).value
    ensures x in ops
  {
    var cancelled := CancelRedos(ops).value;
    ReversedInvents(DropUndone([], cancelled), x);
    DropUndoneInvents([], cancelled, x);
    CancelRedosInvents(ops, x);
  }

  /** An oplist that creates one kind of toplevel leaves entries of that kind only. */
  lemma {:induction false} BuildLeavesOnlyKind(ops: seq<Op>, t: Tlid, k: Kind)
    requires CreatesOnly(ops, k) && BuildOf(ops).Ok?
    ensures OnlyKind(SlotOf(BuildOf(ops).value, t), k)
  {
    var flagged := Flag(false, ops);
    assert flagged + Flag(true, []) == flagged;
    FlagIndex(false, ops);
    var reduced := Preprocess(flagged).value;
    forall i | 0 <= i < |reduced| ensures MayCreate(reduced[i].1, k) {
      PreprocessInvents(flagged, reduced[i]);
    }
    ReplayKeepsKind(reduced, EMPTY, t, k);
  }
}
