/** What holds of every canvas that ops can build (canvas.ml). */
module CanvasInvariant {
  import opened Common
  import opened CanvasTypes
  import opened CanvasOps
  import opened CanvasReplay
  import opened Undo
  import U = UserDb

  predicate HandlerEntryOk(e: Option<Toplevel>, t: Tlid) {
    e.Some? ==> e.value.tlid == t && e.value.data.HandlerData?
  }

  predicate DbEntryOk(e: Option<Toplevel>, t: Tlid) {
    e.Some? ==> e.value.tlid == t && e.value.data.DBData? && e.value.data.db.tlid == t
  }

  /** An id's share of the maps: never live and deleted within a kind, handlers among the
      handlers, DBs among the DBs, every entry under its own id. */
  predicate SlotOk(s: Slot, t: Tlid) {
    && !(s.handler.Some? && s.deletedHandler.Some?)
    && !(s.db.Some? && s.deletedDb.Some?)
    && !(s.fn.Some? && s.deletedFn.Some?)
    && !(s.tipe.Some? && s.deletedTipe.Some?)
    && HandlerEntryOk(s.handler, t) && HandlerEntryOk(s.deletedHandler, t)
    && DbEntryOk(s.db, t) && DbEntryOk(s.deletedDb, t)
    && (s.fn.Some? ==> s.fn.value.tlid == t) && (s.deletedFn.Some? ==> s.deletedFn.value.tlid == t)
    && (s.tipe.Some? ==> s.tipe.value.tlid == t) && (s.deletedTipe.Some? ==> s.deletedTipe.value.tlid == t)
  }

  ghost predicate WellFormed(c: Toplevels) {
    forall t :: SlotOk(SlotOf(c, t), t)
  }

  lemma EditDbKeepsSlot(edit: U.Edit, t: Tlid, c: Toplevels)
    requires SlotOk(SlotOf(c, t), t)
    ensures ApplyToDb(edit, t, c).Ok? && SlotOk(SlotOf(ApplyToDb(edit, t, c).value, t), t)
  {
    assert DbEntryOk(Lookup(c.dbs, t), t);
  }

  lemma EditHandlersKeeps(edit: TlEdit, t: Tlid, m: map<Tlid, Toplevel>)
    requires HandlerEntryOk(Lookup(m, t), t)
    ensures match ApplyToToplevel(edit, t, m)
            case Ok(n) => HandlerEntryOk(Lookup(n, t), t) && (Lookup(n, t).Some? <==> Lookup(m, t).Some?)
            case Err(e) => e == SetExprOnHandler
  {}

  lemma EditDbsKeeps(edit: TlEdit, t: Tlid, m: map<Tlid, Toplevel>)
    requires DbEntryOk(Lookup(m, t), t)
    ensures match ApplyToToplevel(edit, t, m)
            case Ok(n) => DbEntryOk(Lookup(n, t), t) && (Lookup(n, t).Some? <==> Lookup(m, t).Some?)
            case Err(e) => e == SetExprOnHandler
  {}

  lemma EditToplevelsKeepsSlot(edit: TlEdit, t: Tlid, c: Toplevels)
    requires SlotOk(SlotOf(c, t), t)
    ensures match ApplyToAllToplevels(edit, t, c)
            case Ok(d) => SlotOk(SlotOf(d, t), t)
            case Err(e) => e == SetExprOnHandler
  {
    EditHandlersKeeps(edit, t, c.handlers);
    EditDbsKeeps(edit, t, c.dbs);
  }

  lemma DeleteTlKeepsSlot(t: Tlid, c: Toplevels)
    requires SlotOk(SlotOf(c, t), t)
    ensures SlotOk(SlotOf(DeleteToplevel(t, c), t), t)
  {}

  lemma DeleteFnKeepsSlot(t: Tlid, c: Toplevels)
    requires SlotOk(SlotOf(c, t), t)
    ensures SlotOk(SlotOf(DeleteFn(t, c), t), t)
  {}

  lemma DeleteTipeKeepsSlot(t: Tlid, c: Toplevels)
    requires SlotOk(SlotOf(c, t), t)
    ensures SlotOk(SlotOf(DeleteTipe(t, c), t), t)
  {}

  lemma SetterKeepsSlot(isNew: bool, op: Op, c: Toplevels)
    requires SlotOk(SlotOf(c, TlidOf(op)), TlidOf(op))
    requires !EditsDb(op) && !op.SetExpr? && !op.MoveTL? && !op.DeleteTL? && !op.DeleteFunction? && !op.DeleteType?
    ensures match ApplyOp(isNew, op, c)
            case Ok(d) => SlotOk(SlotOf(d, TlidOf(op)), TlidOf(op))
            case Err(e) => e != NotForADb
  {}

  lemma OpKeepsOwnSlot(isNew: bool, op: Op, c: Toplevels)
    requires SlotOk(SlotOf(c, TlidOf(op)), TlidOf(op))
    ensures match ApplyOp(isNew, op, c)
            case Ok(d) => SlotOk(SlotOf(d, TlidOf(op)), TlidOf(op))
            case Err(e) => e != NotForADb
  {
    var t := TlidOf(op);
    if EditsDb(op) {
      DbOpApplies(isNew, op, c);
      if DbEditOf(op).Some? { EditDbKeepsSlot(DbEditOf(op).value, t, c); }
    } else if op.SetExpr? {
      EditToplevelsKeepsSlot(SetTlExpr(op.id, op.expr), t, c);
    } else if op.MoveTL? {
      EditToplevelsKeepsSlot(Move(op.pos), t, c);
    } else if op.DeleteTL? {
      DeleteTlKeepsSlot(t, c);
    } else if op.DeleteFunction? {
      DeleteFnKeepsSlot(t, c);
    } else if op.DeleteType? {
      DeleteTipeKeepsSlot(t, c);
    } else {
      SetterKeepsSlot(isNew, op, c);
    }
  }

  /** Every op keeps a canvas well formed, and on a well-formed canvas no op meets a
      non-DB among the DBs. */
  lemma OpKeepsWellFormed(isNew: bool, op: Op, c: Toplevels)
    requires WellFormed(c)
    ensures match ApplyOp(isNew, op, c)
            case Ok(d) => WellFormed(d)
            case Err(e) => e != NotForADb
  {
    var t := TlidOf(op);
    assert SlotOk(SlotOf(c, t), t);
    OpKeepsOwnSlot(isNew, op, c);
    match ApplyOp(isNew, op, c)
    case Err(_) =>
    case Ok(d) =>
      OpIsLocal(isNew, op, c, c);
      forall u ensures SlotOk(SlotOf(d, u), u) {
        assert SlotOk(SlotOf(c, u), u);
        assert u != t ==> SlotOf(d, u) == SlotOf(c, u);
      }
  }

  lemma {:induction false} ReplayKeepsWellFormed(ops: seq<FlaggedOp>, c: Toplevels)
    requires WellFormed(c)
    ensures match Replay(ops, c)
            case Ok(d) => WellFormed(d)
            case Err(e) => e != NotForADb
    decreases |ops|
  {
    if |ops| == 0 {
    } else {
      OpKeepsWellFormed(ops[0].0, ops[0].1, c);
      match ApplyOp(ops[0].0, ops[0].1, c)
      case Ok(d) => ReplayKeepsWellFormed(ops[1..], d);
      case Err(_) =>
    }
  }

  lemma {:induction false} CancelRedosFailure(ops: seq<FlaggedOp>)
    ensures CancelRedos(ops).Err? ==> CancelRedos(ops).error == AlreadyAtLatestRedo
  {
    if |ops| == 0 {
    } else {
      CancelRedosFailure(ops[1..]);
    }
  }

  /** Every canvas any oplist builds is well formed, and the "not for a DB" exception is
      never what stops a build. */
  lemma {:induction false} EveryBuiltCanvasIsWellFormed(oldops: seq<Op>, newops: seq<Op>)
    ensures match Build(EMPTY, oldops, newops)
            case Ok(c) => WellFormed(c)
            case Err(e) => e != NotForADb
  {
    match Preprocess(Flag(false, oldops) + Flag(true, newops))
    case Err(_) => CancelRedosFailure(Flag(false, oldops) + Flag(true, newops));
    case Ok(reduced) => ReplayKeepsWellFormed(reduced, EMPTY);
  }
}
