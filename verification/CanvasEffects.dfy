/** What each op does to the entries of its own id (canvas.ml, apply_op; user_db.ml), stated
    as relations between the entries before and after. */
module CanvasEffects {
  import opened Common
  import opened CanvasTypes
  import opened CanvasOps
  import opened CanvasReplay
  import opened CanvasInvariant
  import opened Undo
  import C = CanvasClone
  import E = FluidEdit
  import F = FluidExpression
  import U = UserDb

  // ---- Columns

  /** Name cells with the id that are blank or filled, as asked, get the name. */
  predicate CellNamed(c: Col, d: Col, id: Id, name: string, blank: bool, filled: bool) {
    d.1 == c.1
    && d.0 == if ((blank && c.0.Blank?) || (filled && c.0.Filled?)) && c.0.id == id then Filled(id, name) else c.0
  }

  ghost predicate Named(cols: seq<Col>, new_: seq<Col>, id: Id, name: string, blank: bool, filled: bool) {
    |new_| == |cols| && forall i :: 0 <= i < |cols| ==> CellNamed(cols[i], new_[i], id, name, blank, filled)
  }

  /** Type cells likewise; `named` asks for a filled name as well. */
  predicate CellTyped(c: Col, d: Col, id: Id, tipe: Tipe, blank: bool, filled: bool, named: bool) {
    d.0 == c.0
    && d.1 == if ((blank && c.1.Blank?) || (filled && c.1.Filled?)) && c.1.id == id && (named ==> c.0.Filled?)
              then Filled(id, tipe) else c.1
  }

  ghost predicate Typed(
    cols: seq<Col>, new_: seq<Col>, id: Id, tipe: Tipe, blank: bool, filled: bool, named: bool)
  {
    |new_| == |cols| && forall i :: 0 <= i < |cols| ==> CellTyped(cols[i], new_[i], id, tipe, blank, filled, named)
  }

  predicate HasNameId(c: Col, id: Id) {
    !c.0.Partial? && c.0.id == id
  }

  function CountOthers(cols: seq<Col>, id: Id): nat {
    if |cols| == 0 then 0
    else CountOthers(cols[..|cols| - 1], id) + if HasNameId(cols[|cols| - 1], id) then 0 else 1
  }

  /** Every column without the id is kept, in order, and nothing else. */
  ghost predicate Dropped(cols: seq<Col>, new_: seq<Col>, id: Id) {
    |new_| == CountOthers(cols, id)
    && forall i :: 0 <= i < |cols| && !HasNameId(cols[i], id) ==>
         CountOthers(cols[..i], id) < |new_| && new_[CountOthers(cols[..i], id)] == cols[i]
  }

  lemma {:induction false} CountOthersCons(cols: seq<Col>, id: Id)
    requires |cols| > 0
    ensures CountOthers(cols, id) == (if HasNameId(cols[0], id) then 0 else 1) + CountOthers(cols[1..], id)
  {
    var n := |cols|;
    if n == 1 {
      assert cols[..0] == [] && cols[1..] == [];
    } else {
      CountOthersCons(cols[..n - 1], id);
      assert cols[..n - 1][1..] == cols[1..][..n - 2];
    }
  }

  lemma {:induction false} DropColsDrops(cols: seq<Col>, id: Id)
    ensures Dropped(cols, U.DropCols(id, cols), id)
  {
    if |cols| == 0 {
    } else {
      var rest, new_ := cols[1..], U.DropCols(id, cols);
      DropColsDrops(rest, id);
      CountOthersCons(cols, id);
      forall i | 0 <= i < |cols| && !HasNameId(cols[i], id)
        ensures CountOthers(cols[..i], id) < |new_| && new_[CountOthers(cols[..i], id)] == cols[i]
      {
        if i == 0 {
          assert cols[..0] == [];
        } else {
          CountOthersCons(cols[..i], id);
          assert cols[..i][1..] == rest[..i - 1];
          assert rest[i - 1] == cols[i];
        }
      }
    }
  }

  // ---- Migrations

  /** One more than the highest version there was. */
  ghost predicate NextVersion(v: int, ms: seq<Migration>) {
    && v >= 1
    && (forall i :: 0 <= i < |ms| ==> ms[i].version < v)
    && (v == 1 || exists i :: 0 <= i < |ms| && ms[i].version == v - 1)
  }

  lemma {:induction false} MaxVersionIsHighest(ms: seq<Migration>, acc: int)
    ensures var v := U.MaxVersion(ms, acc);
            && v >= acc && (forall i :: 0 <= i < |ms| ==> ms[i].version <= v)
            && (v == acc || exists i :: 0 <= i < |ms| && ms[i].version == v)
  {
    if |ms| == 0 {
    } else {
      var acc' := if acc < ms[0].version then ms[0].version else acc;
      MaxVersionIsHighest(ms[1..], acc');
      var v := U.MaxVersion(ms, acc);
      if v != acc {
        if v == acc' {
          assert ms[0].version == v;
        } else {
          var i :| 0 <= i < |ms[1..]| && ms[1..][i].version == v;
          assert ms[i + 1].version == v;
        }
      }
      forall i | 0 <= i < |ms| ensures ms[i].version <= v { assert i > 0 ==> ms[i] == ms[1..][i - 1]; }
    }
  }

  type RawCol = (OrBlank<string>, OrBlank<ParsedTipe>)

  predicate BadCol(c: RawCol) {
    c.1.Filled? && c.1.value.None?
  }

  predicate CellParsed(c: RawCol, d: Col) {
    d.0 == c.0
    && match c.1
       case Filled(id, tipe) => tipe.Some? && d.1 == Filled(id, tipe.value)
       case Partial(id, text) => d.1 == Partial(id, text)
       case Blank(id) => d.1 == Blank(id)
  }

  ghost predicate Parsed(raw: seq<RawCol>, cols: seq<Col>) {
    |cols| == |raw| && forall i :: 0 <= i < |raw| ==> CellParsed(raw[i], cols[i])
  }

  lemma {:induction false} TypedColsParse(raw: seq<RawCol>)
    ensures TypedCols(raw).None? <==> exists i :: 0 <= i < |raw| && BadCol(raw[i])
    ensures TypedCols(raw).Some? ==> Parsed(raw, TypedCols(raw).value)
  {
    if |raw| == 0 {
    } else {
      var rest := raw[1..];
      TypedColsParse(rest);
      assert forall i :: 0 < i < |raw| ==> raw[i] == rest[i - 1];
      if BadCol(raw[0]) {
      } else if TypedCols(rest).None? {
        var i :| 0 <= i < |rest| && BadCol(rest[i]);
        assert BadCol(raw[i + 1]);
      } else {
        forall i | 0 <= i < |raw| ensures !BadCol(raw[i]) { assert i > 0 ==> !BadCol(rest[i - 1]); }
        var cols := TypedCols(raw).value;
        forall i | 0 <= i < |raw| ensures CellParsed(raw[i], cols[i]) {
          if i > 0 { assert CellParsed(rest[i - 1], TypedCols(rest).value[i - 1]); }
        }
      }
    }
  }

  /** The active migration changes in its columns only. */
  ghost predicate MigrationCols(db: Db, new_: Db) {
    db.activeMigration.Some? && new_.activeMigration.Some?
    && new_ == db.(activeMigration := Some(db.activeMigration.value.(cols := new_.activeMigration.value.cols)))
  }

  // ---- Datastores

  /** What an op does to a datastore. */
  ghost predicate DbEffect(op: Op, db: Db, new_: Db)
    requires EditsDb(op)
  {
    match op
    case AddDBCol(_, colid, typeid) => new_ == db.(cols := db.cols + [(Blank(colid), Blank(typeid))])
    case SetDBColName(_, id, name) => new_ == db.(cols := new_.cols) && Named(db.cols, new_.cols, id, name, true, false)
    case ChangeDBColName(_, id, name) =>
      new_ == db.(cols := new_.cols) && Named(db.cols, new_.cols, id, name, false, true)
    case SetDBColType(_, id, tipe) =>
      tipe.Some? && new_ == db.(cols := new_.cols) && Typed(db.cols, new_.cols, id, tipe.value, true, false, false)
    case ChangeDBColType(_, id, tipe) =>
      tipe.Some? && new_ == db.(cols := new_.cols) && Typed(db.cols, new_.cols, id, tipe.value, false, true, true)
    case DeleteDBCol(_, id) => new_ == db.(cols := new_.cols) && Dropped(db.cols, new_.cols, id)
    case RenameDBname(_, name) => new_ == db.(name := Filled(db.name.id, name))
    case CreateDBMigration(_, rbid, rfid, raw) =>
      if db.activeMigration.Some? then new_ == db
      else
        new_.activeMigration.Some? && new_ == db.(activeMigration := new_.activeMigration)
        && var m := new_.activeMigration.value;
           && m.startingVersion == db.version && NextVersion(m.version, db.oldMigrations)
           && m.state == DBMigrationInitialized && Parsed(raw, m.cols)
           && m.rollback == F.EBlank(rbid) && m.rollforward == F.EBlank(rfid)
    case AbandonDBMigration(_) =>
      if db.activeMigration.None? then new_ == db
      else new_ == db.(oldMigrations := db.oldMigrations + [db.activeMigration.value.(state := DBMigrationAbandoned)],
                       activeMigration := None)
    case AddDBColToDBMigration(_, colid, typeid) =>
      if db.activeMigration.None? then new_ == db
      else MigrationCols(db, new_)
           && new_.activeMigration.value.cols == db.activeMigration.value.cols + [(Blank(colid), Blank(typeid))]
    case SetDBColNameInDBMigration(_, id, name) =>
      if db.activeMigration.None? then new_ == db
      else MigrationCols(db, new_)
           && Named(db.activeMigration.value.cols, new_.activeMigration.value.cols, id, name, true, true)
    case SetDBColTypeInDBMigration(_, id, tipe) =>
      if db.activeMigration.None? then new_ == db
      else MigrationCols(db, new_) && tipe.Some?
           && Typed(db.activeMigration.value.cols, new_.activeMigration.value.cols, id, tipe.value, true, true, false)
    case DeleteColInDBMigration(_, id) =>
      if db.activeMigration.None? then new_ == db
      else MigrationCols(db, new_)
           && Dropped(db.activeMigration.value.cols, new_.activeMigration.value.cols, id)
  }

  lemma ColsEffect(op: Op, db: Db)
    requires op.AddDBCol? || op.SetDBColName? || op.ChangeDBColName? || op.SetDBColType? || op.ChangeDBColType?
             || op.DeleteDBCol? || op.RenameDBname?
    requires DbEditOf(op).Some?
    ensures DbEffect(op, db, U.EditDb(DbEditOf(op).value, db))
  {
    if op.DeleteDBCol? { DropColsDrops(db.cols, op.id); }
  }

  lemma MigrationColsEffect(op: Op, db: Db)
    requires op.AddDBColToDBMigration? || op.SetDBColNameInDBMigration? || op.SetDBColTypeInDBMigration?
             || op.DeleteColInDBMigration?
    requires DbEditOf(op).Some?
    ensures DbEffect(op, db, U.EditDb(DbEditOf(op).value, db))
  {
    if op.DeleteColInDBMigration? && db.activeMigration.Some? { DropColsDrops(db.activeMigration.value.cols, op.id); }
  }

  lemma MigrationEffect(op: Op, db: Db)
    requires (op.CreateDBMigration? || op.AbandonDBMigration?) && DbEditOf(op).Some?
    ensures DbEffect(op, db, U.EditDb(DbEditOf(op).value, db))
  {
    if op.CreateDBMigration? {
      TypedColsParse(op.rawCols);
      MaxVersionIsHighest(db.oldMigrations, 0);
    }
  }

  lemma DbEditHasEffect(op: Op, db: Db)
    requires EditsDb(op) && DbEditOf(op).Some?
    ensures DbEffect(op, db, U.EditDb(DbEditOf(op).value, db))
  {
    if op.CreateDBMigration? || op.AbandonDBMigration? {
      MigrationEffect(op, db);
    } else if op.AddDBColToDBMigration? || op.SetDBColNameInDBMigration? || op.SetDBColTypeInDBMigration?
              || op.DeleteColInDBMigration? {
      MigrationColsEffect(op, db);
    } else {
      ColsEffect(op, db);
    }
  }

  // ---- The entries of an id

  /** A datastore, if there is one, changes as the op says; nothing else does. */
  ghost predicate DbChanged(op: Op, s: Slot, r: Slot)
    requires EditsDb(op)
  {
    if s.db.None? then r == s
    else
      && s.db.value.data.DBData? && r.db.Some? && r.db.value.data.DBData?
      && r == s.(db := Some(s.db.value.(data := r.db.value.data)))
      && DbEffect(op, s.db.value.data.db, r.db.value.data.db)
  }

  function MovedTo(e: Option<Toplevel>, pos: Pos): Option<Toplevel> {
    if e.None? then None else Some(Toplevel(e.value.tlid, pos, e.value.data))
  }

  /** The expressions of the active migration are updated at the id. */
  ghost predicate ExprSet(id: Id, expr: F.Expr, s: Slot, r: Slot) {
    if s.db.None? || !s.db.value.data.DBData? || s.db.value.data.db.activeMigration.None? then r == s
    else
      var db := s.db.value.data.db;
      var m := db.activeMigration.value;
      var m' := m.(rollback := E.Updated(E.Constantly(expr), id, m.rollback),
                   rollforward := E.Updated(E.Constantly(expr), id, m.rollforward));
      r == s.(db := Some(s.db.value.(data := DBData(db.(activeMigration := Some(m'))))))
  }

  ghost predicate Effect(op: Op, s: Slot, r: Slot) {
    match op
    case SetHandler(t, pos, h) => r == s.(handler := Some(Toplevel(t, pos, HandlerData(h))), deletedHandler := None)
    case CreateDB(t, pos, name) =>
      r == s.(db := Some(Toplevel(t, pos, DBData(Db(t, Filled(t, name), [], 0, [], None)))), deletedDb := None)
    case CreateDBWithBlankOr(t, pos, id, name) =>
      r == s.(db := Some(Toplevel(t, pos, DBData(Db(t, Filled(id, name), [], 0, [], None)))), deletedDb := None)
    case SetFunction(fn) => r == s.(fn := Some(fn), deletedFn := None)
    case SetType(ut) => r == s.(tipe := Some(ut), deletedTipe := None)
    case DeleteTL(_) => r == s.(handler := None, db := None, deletedHandler := s.handler, deletedDb := s.db)
    case DeleteFunction(_) => r == if s.fn.None? then s else s.(fn := None, deletedFn := s.fn)
    case DeleteType(_) => r == if s.tipe.None? then s else s.(tipe := None, deletedTipe := s.tipe)
    case DeleteTLForever(_) => r == s.(handler := None, db := None, deletedHandler := None, deletedDb := None)
    case DeleteFunctionForever(_) => r == s.(fn := None, deletedFn := None)
    case DeleteTypeForever(_) => r == s.(tipe := None, deletedTipe := None)
    case MoveTL(_, pos) => r == s.(handler := MovedTo(s.handler, pos), db := MovedTo(s.db, pos))
    case SetExpr(_, id, expr) => ExprSet(id, expr, s, r)
    case TLSavepoint(_) => r == s
    case DeprecatedInitDbm(_, _, _, _) => r == s
    case UndoTL(_) => false
    case RedoTL(_) => false
    case AddDBCol(_, _, _) => DbChanged(op, s, r)
    case SetDBColName(_, _, _) => DbChanged(op, s, r)
    case SetDBColType(_, _, _) => DbChanged(op, s, r)
    case ChangeDBColName(_, _, _) => DbChanged(op, s, r)
    case ChangeDBColType(_, _, _) => DbChanged(op, s, r)
    case DeleteDBCol(_, _) => DbChanged(op, s, r)
    case RenameDBname(_, _) => DbChanged(op, s, r)
    case CreateDBMigration(_, _, _, _) => DbChanged(op, s, r)
    case AbandonDBMigration(_) => DbChanged(op, s, r)
    case AddDBColToDBMigration(_, _, _) => DbChanged(op, s, r)
    case SetDBColNameInDBMigration(_, _, _) => DbChanged(op, s, r)
    case SetDBColTypeInDBMigration(_, _, _) => DbChanged(op, s, r)
    case DeleteColInDBMigration(_, _) => DbChanged(op, s, r)
  }

  /** When an op is refused. */
  predicate Refused(isNew: bool, op: Op, s: Slot) {
    || op.UndoTL? || op.RedoTL?
    || (op.CreateDB? && isNew && op.name == "")
    || (op.SetExpr? && s.handler.Some?)
    || ((op.SetDBColType? || op.ChangeDBColType? || op.SetDBColTypeInDBMigration?) && op.tipe.None?)
    || (op.CreateDBMigration? && exists i :: 0 <= i < |op.rawCols| && BadCol(op.rawCols[i]))
  }

  ghost predicate Does(isNew: bool, op: Op, c: Toplevels) {
    var s, r := SlotOf(c, TlidOf(op)), ApplyOp(isNew, op, c);
    (r.Ok? <==> !Refused(isNew, op, s)) && (r.Ok? ==> Effect(op, s, SlotOf(r.value, TlidOf(op))))
  }

  lemma DbOpRefused(op: Op)
    requires EditsDb(op)
    ensures DbEditOf(op).None? <==>
              ((op.SetDBColType? || op.ChangeDBColType? || op.SetDBColTypeInDBMigration?) && op.tipe.None?)
              || (op.CreateDBMigration? && exists i :: 0 <= i < |op.rawCols| && BadCol(op.rawCols[i]))
  {
    if op.CreateDBMigration? { TypedColsParse(op.rawCols); }
  }

  lemma DbEditOnSlot(edit: U.Edit, t: Tlid, c: Toplevels)
    requires SlotOk(SlotOf(c, t), t)
    ensures ApplyToDb(edit, t, c).Ok?
    ensures var s, r := SlotOf(c, t), SlotOf(ApplyToDb(edit, t, c).value, t);
            if s.db.None? then r == s
            else s.db.value.data.DBData?
                 && r == s.(db := Some(s.db.value.(data := DBData(U.EditDb(edit, s.db.value.data.db)))))
  {
    assert SlotOf(c, t).db == Lookup(c.dbs, t);
  }

  lemma DbOpDoes(isNew: bool, op: Op, c: Toplevels)
    requires EditsDb(op) && SlotOk(SlotOf(c, TlidOf(op)), TlidOf(op))
    ensures Does(isNew, op, c)
  {
    var t := TlidOf(op);
    DbOpApplies(isNew, op, c);
    DbOpRefused(op);
    DbRefusals(isNew, op, SlotOf(c, t));
    if DbEditOf(op).Some? {
      DbEditChanges(op, DbEditOf(op).value, t, c);
      DbEffectOnSlot(op, SlotOf(c, t), SlotOf(ApplyToDb(DbEditOf(op).value, t, c).value, t));
    }
  }

  lemma DbRefusals(isNew: bool, op: Op, s: Slot)
    requires EditsDb(op)
    ensures Refused(isNew, op, s) <==>
              ((op.SetDBColType? || op.ChangeDBColType? || op.SetDBColTypeInDBMigration?) && op.tipe.None?)
              || (op.CreateDBMigration? && exists i :: 0 <= i < |op.rawCols| && BadCol(op.rawCols[i]))
  {}

  lemma DbEditChanges(op: Op, edit: U.Edit, t: Tlid, c: Toplevels)
    requires EditsDb(op) && DbEditOf(op) == Some(edit) && SlotOk(SlotOf(c, t), t)
    ensures ApplyToDb(edit, t, c).Ok? && DbChanged(op, SlotOf(c, t), SlotOf(ApplyToDb(edit, t, c).value, t))
  {
    DbEditOnSlot(edit, t, c);
    if t in c.dbs {
      assert SlotOf(c, t).db == Some(c.dbs[t]);
      DbEditHasEffect(op, c.dbs[t].data.db);
    }
  }

  lemma DbEffectOnSlot(op: Op, s: Slot, r: Slot)
    requires EditsDb(op) && DbChanged(op, s, r)
    ensures Effect(op, s, r)
  {}

  lemma MoveOnSlot(t: Tlid, pos: Pos, c: Toplevels)
    ensures var s, r := SlotOf(c, t), ApplyToAllToplevels(Move(pos), t, c);
            r.Ok? && SlotOf(r.value, t) == s.(handler := MovedTo(s.handler, pos), db := MovedTo(s.db, pos))
  {
    assert SlotOf(c, t).db == Lookup(c.dbs, t) && SlotOf(c, t).handler == Lookup(c.handlers, t);
  }

  lemma MoveDoes(isNew: bool, op: Op, c: Toplevels)
    requires op.MoveTL?
    ensures Does(isNew, op, c)
  {
    MoveOnSlot(op.tlid, op.pos, c);
    assert ApplyOp(isNew, op, c) == ApplyToAllToplevels(Move(op.pos), op.tlid, c);
  }

  lemma SetExprOnSlot(t: Tlid, id: Id, expr: F.Expr, c: Toplevels)
    requires SlotOk(SlotOf(c, t), t)
    ensures var s, r := SlotOf(c, t), ApplyToAllToplevels(SetTlExpr(id, expr), t, c);
            (r.Ok? <==> s.handler.None?) && (r.Ok? ==> ExprSet(id, expr, s, SlotOf(r.value, t)))
  {
    assert SlotOf(c, t).db == Lookup(c.dbs, t) && SlotOf(c, t).handler == Lookup(c.handlers, t);
  }

  lemma SetExprDoes(isNew: bool, op: Op, c: Toplevels)
    requires op.SetExpr? && SlotOk(SlotOf(c, op.tlid), op.tlid)
    ensures Does(isNew, op, c)
  {
    SetExprOnSlot(op.tlid, op.id, op.expr, c);
    assert ApplyOp(isNew, op, c) == ApplyToAllToplevels(SetTlExpr(op.id, op.expr), op.tlid, c);
  }

  lemma DeleteOnSlot(t: Tlid, c: Toplevels)
    ensures var s := SlotOf(c, t);
            SlotOf(DeleteToplevel(t, c), t)
            == s.(handler := None, db := None, deletedHandler := s.handler, deletedDb := s.db)
  {
    assert SlotOf(c, t).db == Lookup(c.dbs, t) && SlotOf(c, t).handler == Lookup(c.handlers, t);
  }

  lemma DeleteDoes(isNew: bool, op: Op, c: Toplevels)
    requires op.DeleteTL? || op.DeleteTLForever?
    ensures Does(isNew, op, c)
  {
    DeleteOnSlot(op.tlid, c);
  }

  lemma OtherOpDoes(isNew: bool, op: Op, c: Toplevels)
    requires !EditsDb(op) && !op.MoveTL? && !op.SetExpr? && !op.DeleteTL? && !op.DeleteTLForever?
    ensures Does(isNew, op, c)
  {
    var t := TlidOf(op);
    assert SlotOf(c, t).fn == Lookup(c.userFunctions, t) && SlotOf(c, t).tipe == Lookup(c.userTipes, t);
  }

  /** Every op is refused exactly when it should be, and otherwise has its effect. */
  lemma OpDoes(isNew: bool, op: Op, c: Toplevels)
    requires SlotOk(SlotOf(c, TlidOf(op)), TlidOf(op))
    ensures Does(isNew, op, c)
  {
    if EditsDb(op) {
      DbOpDoes(isNew, op, c);
    } else if op.MoveTL? {
      MoveDoes(isNew, op, c);
    } else if op.SetExpr? {
      SetExprDoes(isNew, op, c);
    } else if op.DeleteTL? || op.DeleteTLForever? {
      DeleteDoes(isNew, op, c);
    } else {
      OtherOpDoes(isNew, op, c);
    }
  }

  // ---- The last op of an oplist

  lemma {:induction false} BuildThenOp(ops: seq<Op>, op: Op)
    requires BuildOf(ops).Ok? && !op.UndoTL? && !op.RedoTL?
    ensures BuildOf(ops + [op]) == ApplyOp(false, op, BuildOf(ops).value)
  {
    var before, last := Flag(false, ops), [(false, op)];
    assert before + Flag(true, []) == before && (before + last) + Flag(true, []) == before + last;
    FlagConcat(ops, [op]);
    assert Flag(false, [op]) == last;
    CancelNothing(last);
    CancelRedosConcat(before, last);
    C.PreprocessWithUndoFreeTail(before, last);
    ReplayLast(Preprocess(before).value, (false, op), EMPTY);
  }

  lemma {:induction false} ReplayLast(ops: seq<FlaggedOp>, op: FlaggedOp, c: Toplevels)
    requires Replay(ops, c).Ok?
    ensures Replay(ops + [op], c) == ApplyOp(op.0, op.1, Replay(ops, c).value)
    decreases |ops|
  {
    if |ops| == 0 {
      assert ops + [op] == [op] && [op][1..] == [];
    } else {
      assert (ops + [op])[0] == ops[0] && (ops + [op])[1..] == ops[1..] + [op];
      ReplayLast(ops[1..], op, ApplyOp(ops[0].0, ops[0].1, c).value);
    }
  }

  /** On what any oplist builds, one more op is refused exactly when it should be, and
      otherwise has its effect on the entries of its id and no other. */
  lemma {:induction false} LastOpDoes(ops: seq<Op>, op: Op)
    requires BuildOf(ops).Ok? && !op.UndoTL? && !op.RedoTL?
    ensures var t, before, after := TlidOf(op), BuildOf(ops).value, BuildOf(ops + [op]);
            && (after.Ok? <==> !Refused(false, op, SlotOf(before, t)))
            && (after.Ok? ==> Effect(op, SlotOf(before, t), SlotOf(after.value, t)))
            && (after.Ok? ==> forall u :: u != t ==> SlotOf(after.value, u) == SlotOf(before, u))
  {
    var c := BuildOf(ops).value;
    BuildThenOp(ops, op);
    EveryBuiltCanvasIsWellFormed(ops, []);
    assert SlotOk(SlotOf(c, TlidOf(op)), TlidOf(op));
    OpDoes(false, op, c);
    OpIsLocal(false, op, c, c);
  }
}
