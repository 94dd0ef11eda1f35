/** Applying one op to a canvas (canvas.ml). Errors stand for the exceptions raised. */
module CanvasOps {
  import opened Common
  import opened CanvasTypes
  import U = UserDb
  import F = FluidExpression

  type Outcome = Result<Toplevels, Error>

  /** IDMap.change with a function that ignores the old value. */
  function Store<T>(m: map<Tlid, T>, t: Tlid, v: Option<T>): map<Tlid, T> {
    match v case Some(x) => m[t := x] case None => m - {t}
  }

  function SetDb(tlid: Tlid, pos: Pos, data: TlData, c: Toplevels): Toplevels {
    c.(dbs := c.dbs[tlid := Toplevel(tlid, pos, data)], deletedDbs := c.deletedDbs - {tlid})
  }

  function SetHandlerTl(tlid: Tlid, pos: Pos, data: TlData, c: Toplevels): Toplevels {
    c.(handlers := c.handlers[tlid := Toplevel(tlid, pos, data)], deletedHandlers := c.deletedHandlers - {tlid})
  }

  function SetFn(fn: UserFn, c: Toplevels): Toplevels {
    c.(userFunctions := c.userFunctions[fn.tlid := fn], deletedUserFunctions := c.deletedUserFunctions - {fn.tlid})
  }

  function SetTipe(ut: UserTipe, c: Toplevels): Toplevels {
    c.(userTipes := c.userTipes[ut.tlid := ut], deletedUserTipes := c.deletedUserTipes - {ut.tlid})
  }

  function DeleteFn(tlid: Tlid, c: Toplevels): Toplevels {
    if tlid !in c.userFunctions then c
    else c.(userFunctions := c.userFunctions - {tlid},
            deletedUserFunctions := c.deletedUserFunctions[tlid := c.userFunctions[tlid]])
  }

  function DeleteFnForever(tlid: Tlid, c: Toplevels): Toplevels {
    c.(userFunctions := c.userFunctions - {tlid}, deletedUserFunctions := c.deletedUserFunctions - {tlid})
  }

  function DeleteTipe(tlid: Tlid, c: Toplevels): Toplevels {
    if tlid !in c.userTipes then c
    else c.(userTipes := c.userTipes - {tlid},
            deletedUserTipes := c.deletedUserTipes[tlid := c.userTipes[tlid]])
  }

  function DeleteTipeForever(tlid: Tlid, c: Toplevels): Toplevels {
    c.(userTipes := c.userTipes - {tlid}, deletedUserTipes := c.deletedUserTipes - {tlid})
  }

  function DeleteTlForever(tlid: Tlid, c: Toplevels): Toplevels {
    c.(dbs := c.dbs - {tlid}, handlers := c.handlers - {tlid},
       deletedDbs := c.deletedDbs - {tlid}, deletedHandlers := c.deletedHandlers - {tlid})
  }

  /** A toplevel that is not live replaces the deleted one too: deleting twice forgets it. */
  function DeleteToplevel(tlid: Tlid, c: Toplevels): Toplevels {
    c.(dbs := c.dbs - {tlid}, handlers := c.handlers - {tlid},
       deletedDbs := Store(c.deletedDbs, tlid, Lookup(c.dbs, tlid)),
       deletedHandlers := Store(c.deletedHandlers, tlid, Lookup(c.handlers, tlid)))
  }

  function ApplyToDb(edit: U.Edit, tlid: Tlid, c: Toplevels): Outcome {
    if tlid !in c.dbs then Ok(c)
    else match c.dbs[tlid].data
      case DBData(db) => Ok(c.(dbs := c.dbs[tlid := c.dbs[tlid].(data := DBData(U.EditDb(edit, db)))]))
      case HandlerData(_) => Err(NotForADb)
  }

  /** The two edits apply_to_all_toplevels runs. */
  datatype TlEdit = Move(pos: Pos) | SetTlExpr(id: Id, expr: F.Expr)

  function EditToplevel(edit: TlEdit, tl: Toplevel): Result<Toplevel, Error> {
    match edit
    case Move(pos) => Ok(tl.(pos := pos))
    case SetTlExpr(id, expr) =>
      match tl.data
      case DBData(db) => Ok(tl.(data := DBData(U.SetExprInDb(id, expr, db))))
      case HandlerData(_) => Err(SetExprOnHandler)
  }

  function ApplyToToplevel(edit: TlEdit, tlid: Tlid, tls: map<Tlid, Toplevel>): Result<map<Tlid, Toplevel>, Error> {
    if tlid !in tls then Ok(tls)
    else match EditToplevel(edit, tls[tlid])
      case Ok(tl) => Ok(tls[tlid := tl])
      case Err(e) => Err(e)
  }

  function ApplyToAllToplevels(edit: TlEdit, tlid: Tlid, c: Toplevels): Outcome {
    match ApplyToToplevel(edit, tlid, c.handlers)
    case Err(e) => Err(e)
    case Ok(handlers) =>
      match ApplyToToplevel(edit, tlid, c.dbs)
      case Err(e) => Err(e)
      case Ok(dbs) => Ok(c.(handlers := handlers, dbs := dbs))
  }

  /** The column types of a new migration, if all parse. */
  function TypedCols(raw: seq<(OrBlank<string>, OrBlank<ParsedTipe>)>): Option<seq<Col>> {
    if |raw| == 0 then Some([])
    else match TypedCols(raw[1..])
      case None => None
      case Some(rest) =>
        match raw[0].1
        case Filled(id, Some(tipe)) => Some([(raw[0].0, Filled(id, tipe))] + rest)
        case Filled(_, None) => None
        case Partial(id, text) => Some([(raw[0].0, Partial(id, text))] + rest)
        case Blank(id) => Some([(raw[0].0, Blank(id))] + rest)
  }

  /** apply_op. */
  function ApplyOp(isNew: bool, op: Op, c: Toplevels): Outcome {
    match op
    case SetHandler(tlid, pos, handler) => Ok(SetHandlerTl(tlid, pos, HandlerData(handler), c))
    case CreateDB(tlid, pos, name) =>
      if isNew && name == "" then Err(DbMustHaveName)
      else Ok(SetDb(tlid, pos, DBData(U.Create(name, tlid)), c))
    case AddDBCol(tlid, colid, typeid) => ApplyToDb(U.AddCol(colid, typeid), tlid, c)
    case SetDBColName(tlid, id, name) => ApplyToDb(U.SetColName(id, name), tlid, c)
    case ChangeDBColName(tlid, id, name) => ApplyToDb(U.ChangeColName(id, name), tlid, c)
    case SetDBColType(tlid, id, tipe) =>
      if tipe.None? then Err(BadTipe) else ApplyToDb(U.SetColType(id, tipe.value), tlid, c)
    case ChangeDBColType(tlid, id, tipe) =>
      if tipe.None? then Err(BadTipe) else ApplyToDb(U.ChangeColType(id, tipe.value), tlid, c)
    case DeleteDBCol(tlid, id) => ApplyToDb(U.DeleteCol(id), tlid, c)
    case DeprecatedInitDbm(_, _, _, _) => Ok(c)
    case CreateDBMigration(tlid, rbid, rfid, rawCols) =>
      var cols := TypedCols(rawCols);
      if cols.None? then Err(BadTipe) else ApplyToDb(U.CreateMigration(rbid, rfid, cols.value), tlid, c)
    case AddDBColToDBMigration(tlid, colid, typeid) => ApplyToDb(U.AddColToMigration(colid, typeid), tlid, c)
    case SetDBColNameInDBMigration(tlid, id, name) => ApplyToDb(U.SetColNameInMigration(id, name), tlid, c)
    case SetDBColTypeInDBMigration(tlid, id, tipe) =>
      if tipe.None? then Err(BadTipe) else ApplyToDb(U.SetColTypeInMigration(id, tipe.value), tlid, c)
    case AbandonDBMigration(tlid) => ApplyToDb(U.AbandonMigration, tlid, c)
    case DeleteColInDBMigration(tlid, id) => ApplyToDb(U.DeleteColInMigration(id), tlid, c)
    case SetExpr(tlid, id, expr) => ApplyToAllToplevels(SetTlExpr(id, expr), tlid, c)
    case DeleteTL(tlid) => Ok(DeleteToplevel(tlid, c))
    case MoveTL(tlid, pos) => ApplyToAllToplevels(Move(pos), tlid, c)
    case SetFunction(fn) => Ok(SetFn(fn, c))
    case DeleteFunction(tlid) => Ok(DeleteFn(tlid, c))
    case TLSavepoint(_) => Ok(c)
    case UndoTL(_) => Err(NotPreprocessed)
    case RedoTL(_) => Err(NotPreprocessed)
    case RenameDBname(tlid, name) => ApplyToDb(U.RenameDb(name), tlid, c)
    case CreateDBWithBlankOr(tlid, pos, id, name) => Ok(SetDb(tlid, pos, DBData(U.Create2(name, tlid, id)), c))
    case DeleteTLForever(tlid) => Ok(DeleteTlForever(tlid, c))
    case DeleteFunctionForever(tlid) => Ok(DeleteFnForever(tlid, c))
    case SetType(ut) => Ok(SetTipe(ut, c))
    case DeleteType(tlid) => Ok(DeleteTipe(tlid, c))
    case DeleteTypeForever(tlid) => Ok(DeleteTipeForever(tlid, c))
  }

  // ---- An op acts on the slot of its own toplevel id, and on nothing else

  /** `r` and `s` come from canvases that agree on the slot `t`: either both fail or both
      succeed with the same slot. */
  ghost predicate SameEffect(r: Outcome, s: Outcome, t: Tlid) {
    (r.Ok? <==> s.Ok?) && (r.Ok? ==> SlotOf(r.value, t) == SlotOf(s.value, t))
  }

  /** Other slots stay as they were. */
  ghost predicate Frames(r: Outcome, c: Toplevels, t: Tlid) {
    r.Ok? ==> forall u :: u != t ==> SlotOf(r.value, u) == SlotOf(c, u)
  }

  lemma EditDbIsLocal(edit: U.Edit, t: Tlid, c: Toplevels, d: Toplevels)
    requires SlotOf(c, t) == SlotOf(d, t)
    ensures SameEffect(ApplyToDb(edit, t, c), ApplyToDb(edit, t, d), t)
    ensures Frames(ApplyToDb(edit, t, c), c, t)
  {
    assert Lookup(c.dbs, t) == Lookup(d.dbs, t);
  }

  lemma EditInMapIsLocal(edit: TlEdit, t: Tlid, m: map<Tlid, Toplevel>, n: map<Tlid, Toplevel>)
    requires Lookup(m, t) == Lookup(n, t)
    ensures var r, s := ApplyToToplevel(edit, t, m), ApplyToToplevel(edit, t, n);
            (r.Ok? <==> s.Ok?)
            && (r.Ok? ==> Lookup(r.value, t) == Lookup(s.value, t)
                          && forall u :: u != t ==> Lookup(r.value, u) == Lookup(m, u))
  {}

  lemma EditToplevelsIsLocal(edit: TlEdit, t: Tlid, c: Toplevels, d: Toplevels)
    requires SlotOf(c, t) == SlotOf(d, t)
    ensures SameEffect(ApplyToAllToplevels(edit, t, c), ApplyToAllToplevels(edit, t, d), t)
    ensures Frames(ApplyToAllToplevels(edit, t, c), c, t)
  {
    EditInMapIsLocal(edit, t, c.handlers, d.handlers);
    EditInMapIsLocal(edit, t, c.dbs, d.dbs);
  }

  lemma DeleteIsLocal(t: Tlid, c: Toplevels, d: Toplevels)
    requires SlotOf(c, t) == SlotOf(d, t)
    ensures SameEffect(Ok(DeleteToplevel(t, c)), Ok(DeleteToplevel(t, d)), t)
    ensures Frames(Ok(DeleteToplevel(t, c)), c, t)
  {
    assert Lookup(c.dbs, t) == Lookup(d.dbs, t) && Lookup(c.handlers, t) == Lookup(d.handlers, t);
  }

  lemma DeleteFnIsLocal(t: Tlid, c: Toplevels, d: Toplevels)
    requires SlotOf(c, t) == SlotOf(d, t)
    ensures SameEffect(Ok(DeleteFn(t, c)), Ok(DeleteFn(t, d)), t)
    ensures Frames(Ok(DeleteFn(t, c)), c, t)
  {
    assert Lookup(c.userFunctions, t) == Lookup(d.userFunctions, t);
  }

  lemma DeleteTipeIsLocal(t: Tlid, c: Toplevels, d: Toplevels)
    requires SlotOf(c, t) == SlotOf(d, t)
    ensures SameEffect(Ok(DeleteTipe(t, c)), Ok(DeleteTipe(t, d)), t)
    ensures Frames(Ok(DeleteTipe(t, c)), c, t)
  {
    assert Lookup(c.userTipes, t) == Lookup(d.userTipes, t);
  }

  predicate EditsDb(op: Op) {
    op.AddDBCol? || op.SetDBColName? || op.ChangeDBColName? || op.SetDBColType? || op.ChangeDBColType?
    || op.DeleteDBCol? || op.CreateDBMigration? || op.AddDBColToDBMigration? || op.SetDBColNameInDBMigration?
    || op.SetDBColTypeInDBMigration? || op.AbandonDBMigration? || op.DeleteColInDBMigration? || op.RenameDBname?
  }

  /** The edit such an op stands for; None if a column type in it does not parse. */
  function DbEditOf(op: Op): Option<U.Edit>
    requires EditsDb(op)
  {
    match op
    case AddDBCol(_, colid, typeid) => Some(U.AddCol(colid, typeid))
    case SetDBColName(_, id, name) => Some(U.SetColName(id, name))
    case ChangeDBColName(_, id, name) => Some(U.ChangeColName(id, name))
    case SetDBColType(_, id, tipe) => if tipe.None? then None else Some(U.SetColType(id, tipe.value))
    case ChangeDBColType(_, id, tipe) => if tipe.None? then None else Some(U.ChangeColType(id, tipe.value))
    case DeleteDBCol(_, id) => Some(U.DeleteCol(id))
    case CreateDBMigration(_, rbid, rfid, rawCols) =>
      var cols := TypedCols(rawCols);
      if cols.None? then None else Some(U.CreateMigration(rbid, rfid, cols.value))
    case AddDBColToDBMigration(_, colid, typeid) => Some(U.AddColToMigration(colid, typeid))
    case SetDBColNameInDBMigration(_, id, name) => Some(U.SetColNameInMigration(id, name))
    case SetDBColTypeInDBMigration(_, id, tipe) =>
      if tipe.None? then None else Some(U.SetColTypeInMigration(id, tipe.value))
    case AbandonDBMigration(_) => Some(U.AbandonMigration)
    case DeleteColInDBMigration(_, id) => Some(U.DeleteColInMigration(id))
    case RenameDBname(_, name) => Some(U.RenameDb(name))
  }

  lemma DbOpApplies(isNew: bool, op: Op, c: Toplevels)
    requires EditsDb(op)
    ensures ApplyOp(isNew, op, c)
         == match DbEditOf(op) case None => Err(BadTipe) case Some(edit) => ApplyToDb(edit, TlidOf(op), c)
  {}

  /** The effect of an op on its own slot is a function of that slot alone, whether it
      fails included, and it leaves every other slot as it was. */
  lemma OpIsLocal(isNew: bool, op: Op, c: Toplevels, d: Toplevels)
    requires SlotOf(c, TlidOf(op)) == SlotOf(d, TlidOf(op))
    ensures SameEffect(ApplyOp(isNew, op, c), ApplyOp(isNew, op, d), TlidOf(op))
    ensures Frames(ApplyOp(isNew, op, c), c, TlidOf(op))
  {
    var t := TlidOf(op);
    if EditsDb(op) {
      DbOpApplies(isNew, op, c);
      DbOpApplies(isNew, op, d);
      if DbEditOf(op).Some? { EditDbIsLocal(DbEditOf(op).value, t, c, d); }
    } else if op.SetExpr? {
      EditToplevelsIsLocal(SetTlExpr(op.id, op.expr), t, c, d);
    } else if op.MoveTL? {
      EditToplevelsIsLocal(Move(op.pos), t, c, d);
    } else if op.DeleteTL? {
      DeleteIsLocal(t, c, d);
    } else if op.DeleteFunction? {
      DeleteFnIsLocal(t, c, d);
    } else if op.DeleteType? {
      DeleteTipeIsLocal(t, c, d);
    } else if op.SetFunction? {
      SetFnIsLocal(op.fn, c, d);
    } else if op.SetType? {
      SetTipeIsLocal(op.ut, c, d);
    } else if op.DeleteTLForever? {
      ForgetTlIsLocal(t, c, d);
    } else if op.DeleteFunctionForever? {
      ForgetFnIsLocal(t, c, d);
    } else if op.DeleteTypeForever? {
      ForgetTipeIsLocal(t, c, d);
    } else {
      TlSetterIsLocal(isNew, op, c, d);
    }
  }

  lemma SetFnIsLocal(fn: UserFn, c: Toplevels, d: Toplevels)
    requires SlotOf(c, fn.tlid) == SlotOf(d, fn.tlid)
    ensures SameEffect(Ok(SetFn(fn, c)), Ok(SetFn(fn, d)), fn.tlid)
    ensures Frames(Ok(SetFn(fn, c)), c, fn.tlid)
  {}

  lemma SetTipeIsLocal(ut: UserTipe, c: Toplevels, d: Toplevels)
    requires SlotOf(c, ut.tlid) == SlotOf(d, ut.tlid)
    ensures SameEffect(Ok(SetTipe(ut, c)), Ok(SetTipe(ut, d)), ut.tlid)
    ensures Frames(Ok(SetTipe(ut, c)), c, ut.tlid)
  {}

  lemma ForgetTlIsLocal(t: Tlid, c: Toplevels, d: Toplevels)
    requires SlotOf(c, t) == SlotOf(d, t)
    ensures SameEffect(Ok(DeleteTlForever(t, c)), Ok(DeleteTlForever(t, d)), t)
    ensures Frames(Ok(DeleteTlForever(t, c)), c, t)
  {}

  lemma ForgetFnIsLocal(t: Tlid, c: Toplevels, d: Toplevels)
    requires SlotOf(c, t) == SlotOf(d, t)
    ensures SameEffect(Ok(DeleteFnForever(t, c)), Ok(DeleteFnForever(t, d)), t)
    ensures Frames(Ok(DeleteFnForever(t, c)), c, t)
  {}

  lemma ForgetTipeIsLocal(t: Tlid, c: Toplevels, d: Toplevels)
    requires SlotOf(c, t) == SlotOf(d, t)
    ensures SameEffect(Ok(DeleteTipeForever(t, c)), Ok(DeleteTipeForever(t, d)), t)
    ensures Frames(Ok(DeleteTipeForever(t, c)), c, t)
  {}

  lemma TlSetterIsLocal(isNew: bool, op: Op, c: Toplevels, d: Toplevels)
    requires SlotOf(c, TlidOf(op)) == SlotOf(d, TlidOf(op))
    requires op.SetHandler? || op.CreateDB? || op.CreateDBWithBlankOr? || op.DeprecatedInitDbm?
             || op.TLSavepoint? || op.UndoTL? || op.RedoTL?
    ensures SameEffect(ApplyOp(isNew, op, c), ApplyOp(isNew, op, d), TlidOf(op))
    ensures Frames(ApplyOp(isNew, op, c), c, TlidOf(op))
  {
    if op.SetHandler? {
      SetHandlerIsLocal(op.tlid, op.pos, HandlerData(op.handler), c, d);
    } else if op.CreateDB? {
      SetDbIsLocal(op.tlid, op.pos, DBData(U.Create(op.name, op.tlid)), c, d);
    } else if op.CreateDBWithBlankOr? {
      SetDbIsLocal(op.tlid, op.pos, DBData(U.Create2(op.name, op.tlid, op.id)), c, d);
    }
  }

  lemma SetHandlerIsLocal(t: Tlid, pos: Pos, data: TlData, c: Toplevels, d: Toplevels)
    requires SlotOf(c, t) == SlotOf(d, t)
    ensures SameEffect(Ok(SetHandlerTl(t, pos, data, c)), Ok(SetHandlerTl(t, pos, data, d)), t)
    ensures Frames(Ok(SetHandlerTl(t, pos, data, c)), c, t)
  {}

  lemma SetDbIsLocal(t: Tlid, pos: Pos, data: TlData, c: Toplevels, d: Toplevels)
    requires SlotOf(c, t) == SlotOf(d, t)
    ensures SameEffect(Ok(SetDb(t, pos, data, c)), Ok(SetDb(t, pos, data, d)), t)
    ensures Frames(Ok(SetDb(t, pos, data, c)), c, t)
  {}
}
