/** What clone_canvas (canvas_clone.ml) builds: the original canvas with the hosts in its
    string literals rewritten. */
module CloneMeaning {
  import opened Common
  import opened CanvasTypes
  import opened CanvasOps
  import opened CanvasReplay
  import opened CanvasKinds
  import opened CanvasClone
  import opened Undo
  import U = UserDb
  import F = FluidExpression
  import E = FluidEdit
  import H = FluidHosts
  import S = CanvasStore
  import T = CanvasTrim
  import V = CanvasVerify

  type Rewrite = H.Rewrite

  // ---- The rewrite on ops and on what a canvas holds

  /** update_hosts_in_op: only three ops carry an expression. */
  function UpdateOp(rh: Rewrite, op: Op): Op {
    match op
    case SetFunction(fn) => SetFunction(fn.(ast := H.UpdateHosts(rh, fn.ast)))
    case SetExpr(tlid, id, expr) => SetExpr(tlid, id, H.UpdateHosts(rh, expr))
    case SetHandler(tlid, pos, handler) => SetHandler(tlid, pos, handler.(ast := H.UpdateHosts(rh, handler.ast)))
    case _ => op
  }

  function UpdateFn(rh: Rewrite, fn: UserFn): UserFn {
    fn.(ast := H.UpdateHosts(rh, fn.ast))
  }

  function UpdateMigration(rh: Rewrite, m: Migration): Migration {
    m.(rollforward := H.UpdateHosts(rh, m.rollforward), rollback := H.UpdateHosts(rh, m.rollback))
  }

  function UpdateMigrations(rh: Rewrite, ms: seq<Migration>): seq<Migration> {
    if |ms| == 0 then [] else [UpdateMigration(rh, ms[0])] + UpdateMigrations(rh, ms[1..])
  }

  function UpdateDb(rh: Rewrite, db: Db): Db {
    db.(oldMigrations := UpdateMigrations(rh, db.oldMigrations),
        activeMigration := match db.activeMigration
                           case None => None
                           case Some(m) => Some(UpdateMigration(rh, m)))
  }

  function UpdateTl(rh: Rewrite, tl: Toplevel): Toplevel {
    tl.(data := match tl.data
                case HandlerData(h) => HandlerData(h.(ast := H.UpdateHosts(rh, h.ast)))
                case DBData(db) => DBData(UpdateDb(rh, db)))
  }

  function UpdateOptionTl(rh: Rewrite, e: Option<Toplevel>): Option<Toplevel> {
    match e case None => None case Some(tl) => Some(UpdateTl(rh, tl))
  }

  function UpdateOptionFn(rh: Rewrite, e: Option<UserFn>): Option<UserFn> {
    match e case None => None case Some(fn) => Some(UpdateFn(rh, fn))
  }

  /** The entries of an id with every string literal rewritten. */
  function UpdateSlot(rh: Rewrite, s: Slot): Slot {
    Slot(UpdateOptionTl(rh, s.handler), UpdateOptionTl(rh, s.db), UpdateOptionFn(rh, s.fn), s.tipe,
         UpdateOptionTl(rh, s.deletedHandler), UpdateOptionTl(rh, s.deletedDb),
         UpdateOptionFn(rh, s.deletedFn), s.deletedTipe)
  }

  // ---- The rewrite commutes with targeted updates of an expression

  lemma {:induction false} HostsKeepId(rh: Rewrite, e: F.Expr)
    ensures H.UpdateHosts(rh, e).id == e.id
  {
    H.UpdateHostsOfNode(rh, e);
  }

  lemma {:induction false} UpdateNodeOfRebuilt(rh: Rewrite, e: F.Expr, cs: seq<F.Expr>, ds: seq<F.Expr>)
    requires |cs| == |ds| == |F.Children(e)|
    ensures var r := H.UpdateNode(rh)(F.WithChildren(e, cs));
            F.Children(r) == cs && r.id == e.id && F.WithChildren(r, ds) == H.UpdateNode(rh)(F.WithChildren(e, ds))
  {
    var r := H.UpdateNode(rh)(F.WithChildren(e, cs));
    if e.EMatch? {
      assert F.Children(r) == cs;
      assert F.WithChildren(r, ds).cases == H.UpdateNode(rh)(F.WithChildren(e, ds)).cases;
    } else {
      F.WithChildrenTwice(e, cs, ds);
    }
  }

  lemma {:induction false} HostsCommuteWithUpdate(rh: Rewrite, x: F.Expr, id: Id, e: F.Expr)
    ensures H.UpdateHosts(rh, E.Updated(E.Constantly(x), id, e))
         == E.Updated(E.Constantly(H.UpdateHosts(rh, x)), id, H.UpdateHosts(rh, e))
    decreases e
  {
    var f, g := E.Constantly(x), E.Constantly(H.UpdateHosts(rh, x));
    HostsKeepId(rh, e);
    if e.id != id {
      var cs := F.Children(e);
      var us := seq(|cs|, i requires 0 <= i < |cs| => H.UpdateHosts(rh, cs[i]));
      var ws := seq(|cs|, i requires 0 <= i < |cs| => E.Updated(f, id, cs[i]));
      var hw := seq(|ws|, i requires 0 <= i < |ws| => H.UpdateHosts(rh, ws[i]));
      var wu := seq(|us|, i requires 0 <= i < |us| => E.Updated(g, id, us[i]));
      forall i | 0 <= i < |cs| ensures hw[i] == wu[i] { HostsCommuteWithUpdate(rh, x, id, cs[i]); }
      assert hw == wu;
      H.UpdateHostsOfNode(rh, e);
      H.UpdateHostsOfNode(rh, F.WithChildren(e, ws));
      F.WithChildrenTwice(e, ws, hw);
      UpdateNodeOfRebuilt(rh, e, us, wu);
    }
  }

  // ---- The rewrite commutes with edits of a DB

  lemma {:induction false} MigrationsConcat(rh: Rewrite, a: seq<Migration>, m: Migration)
    ensures UpdateMigrations(rh, a + [m]) == UpdateMigrations(rh, a) + [UpdateMigration(rh, m)]
  {
    if |a| == 0 {
      assert a + [m] == [m];
    } else {
      assert (a + [m])[0] == a[0] && (a + [m])[1..] == a[1..] + [m];
      MigrationsConcat(rh, a[1..], m);
    }
  }

  lemma {:induction false} MaxVersionUnchanged(rh: Rewrite, ms: seq<Migration>, acc: int)
    ensures U.MaxVersion(UpdateMigrations(rh, ms), acc) == U.MaxVersion(ms, acc)
  {
    if |ms| == 0 {
    } else {
      MaxVersionUnchanged(rh, ms[1..], if acc < ms[0].version then ms[0].version else acc);
    }
  }

  lemma BlankUnchanged(rh: Rewrite, id: Id)
    ensures H.UpdateHosts(rh, F.EBlank(id)) == F.EBlank(id)
  {
    H.UpdateHostsOfNode(rh, F.EBlank(id));
    F.WithOwnChildren(F.EBlank(id));
  }

  lemma ColEditCommutes(rh: Rewrite, edit: U.Edit, db: Db)
    requires edit.AddCol? || edit.SetColName? || edit.ChangeColName? || edit.SetColType? || edit.ChangeColType?
             || edit.DeleteCol? || edit.RenameDb?
    ensures U.EditDb(edit, UpdateDb(rh, db)) == UpdateDb(rh, U.EditDb(edit, db))
  {}

  lemma MigrationEditCommutes(rh: Rewrite, edit: U.Edit, db: Db)
    requires edit.AddColToMigration? || edit.SetColNameInMigration? || edit.SetColTypeInMigration?
             || edit.DeleteColInMigration?
    ensures U.EditDb(edit, UpdateDb(rh, db)) == UpdateDb(rh, U.EditDb(edit, db))
  {}

  lemma NewMigrationUnchanged(rh: Rewrite, start: int, version: int, rbid: Id, rfid: Id, cols: seq<Col>)
    ensures UpdateMigration(rh, NewMigration(rbid, rfid, cols, start, version))
         == NewMigration(rbid, rfid, cols, start, version)
  {
    BlankUnchanged(rh, rbid);
    BlankUnchanged(rh, rfid);
  }

  lemma StartMigrationCommutes(rh: Rewrite, m: Migration, db: Db)
    requires UpdateMigration(rh, m) == m && db.activeMigration.None?
    ensures UpdateDb(rh, db.(activeMigration := Some(m))) == UpdateDb(rh, db).(activeMigration := Some(m))
  {}

  lemma CreateMigrationEdit(rbid: Id, rfid: Id, cols: seq<Col>, db: Db)
    ensures U.EditDb(U.CreateMigration(rbid, rfid, cols), db)
         == if db.activeMigration.Some? then db
            else db.(activeMigration := Some(NewMigration(rbid, rfid, cols, db.version,
                                                          U.MaxVersion(db.oldMigrations, 0) + 1)))
  {}

  function NewMigration(rbid: Id, rfid: Id, cols: seq<Col>, start: int, version: int): Migration {
    Migration(start, version, DBMigrationInitialized, F.EBlank(rfid), F.EBlank(rbid), cols)
  }

  lemma CreateMigrationCommutes(rh: Rewrite, rbid: Id, rfid: Id, cols: seq<Col>, db: Db)
    ensures U.EditDb(U.CreateMigration(rbid, rfid, cols), UpdateDb(rh, db))
         == UpdateDb(rh, U.EditDb(U.CreateMigration(rbid, rfid, cols), db))
  {
    CreateMigrationEdit(rbid, rfid, cols, db);
    CreateMigrationEdit(rbid, rfid, cols, UpdateDb(rh, db));
    if db.activeMigration.None? {
      var version := U.MaxVersion(db.oldMigrations, 0) + 1;
      var m := NewMigration(rbid, rfid, cols, db.version, version);
      MaxVersionUnchanged(rh, db.oldMigrations, 0);
      assert UpdateMigration(rh, m) == m by { NewMigrationUnchanged(rh, db.version, version, rbid, rfid, cols); }
      StartedCommutes(rh, U.CreateMigration(rbid, rfid, cols), m, db);
    }
  }

  lemma StartedCommutes(rh: Rewrite, edit: U.Edit, m: Migration, db: Db)
    requires UpdateMigration(rh, m) == m && db.activeMigration.None?
    requires U.EditDb(edit, db) == db.(activeMigration := Some(m))
    requires U.EditDb(edit, UpdateDb(rh, db)) == UpdateDb(rh, db).(activeMigration := Some(m))
    ensures U.EditDb(edit, UpdateDb(rh, db)) == UpdateDb(rh, U.EditDb(edit, db))
  {
    StartMigrationCommutes(rh, m, db);
  }

  lemma AbandonMigrationCommutes(rh: Rewrite, db: Db)
    ensures U.EditDb(U.AbandonMigration, UpdateDb(rh, db)) == UpdateDb(rh, U.EditDb(U.AbandonMigration, db))
  {
    if db.activeMigration.Some? {
      AbandonActiveCommutes(rh, db, db.activeMigration.value);
    }
  }

  lemma AbandonActiveCommutes(rh: Rewrite, db: Db, m: Migration)
    requires db.activeMigration == Some(m)
    ensures U.EditDb(U.AbandonMigration, UpdateDb(rh, db)) == UpdateDb(rh, U.EditDb(U.AbandonMigration, db))
  {
    var m' := m.(state := DBMigrationAbandoned);
    MigrationsConcat(rh, db.oldMigrations, m');
    assert UpdateMigration(rh, m') == UpdateMigration(rh, m).(state := DBMigrationAbandoned);
    assert U.EditDb(U.AbandonMigration, db) == db.(oldMigrations := db.oldMigrations + [m'], activeMigration := None);
  }

  lemma EditDbCommutes(rh: Rewrite, edit: U.Edit, db: Db)
    ensures U.EditDb(edit, UpdateDb(rh, db)) == UpdateDb(rh, U.EditDb(edit, db))
  {
    if edit.CreateMigration? {
      CreateMigrationCommutes(rh, edit.rbid, edit.rfid, edit.cols, db);
    } else if edit.AbandonMigration? {
      AbandonMigrationCommutes(rh, db);
    } else if edit.AddColToMigration? || edit.SetColNameInMigration? || edit.SetColTypeInMigration?
              || edit.DeleteColInMigration? {
      MigrationEditCommutes(rh, edit, db);
    } else {
      ColEditCommutes(rh, edit, db);
    }
  }

  lemma SetExprCommutes(rh: Rewrite, id: Id, expr: F.Expr, db: Db)
    ensures U.SetExprInDb(id, H.UpdateHosts(rh, expr), UpdateDb(rh, db)) == UpdateDb(rh, U.SetExprInDb(id, expr, db))
  {
    if db.activeMigration.Some? {
      HostsCommuteWithUpdate(rh, expr, id, db.activeMigration.value.rollback);
      HostsCommuteWithUpdate(rh, expr, id, db.activeMigration.value.rollforward);
    }
  }

  // ---- One op

  /** The rewritten op does to the rewritten slot what the op does to the slot. */
  ghost predicate Tracks(rh: Rewrite, r: Outcome, s: Outcome, t: Tlid) {
    (r.Ok? <==> s.Ok?) && (r.Ok? ==> SlotOf(s.value, t) == UpdateSlot(rh, SlotOf(r.value, t)))
  }

  lemma DbEditTracks(rh: Rewrite, edit: U.Edit, t: Tlid, c: Toplevels, d: Toplevels)
    requires SlotOf(d, t) == UpdateSlot(rh, SlotOf(c, t))
    ensures Tracks(rh, ApplyToDb(edit, t, c), ApplyToDb(edit, t, d), t)
  {
    assert Lookup(d.dbs, t) == UpdateOptionTl(rh, Lookup(c.dbs, t));
    if t in c.dbs && c.dbs[t].data.DBData? { EditDbCommutes(rh, edit, c.dbs[t].data.db); }
  }

  function UpdateEdit(rh: Rewrite, edit: TlEdit): TlEdit {
    match edit case Move(pos) => edit case SetTlExpr(id, expr) => SetTlExpr(id, H.UpdateHosts(rh, expr))
  }

  lemma EditInMapTracks(rh: Rewrite, edit: TlEdit, t: Tlid, m: map<Tlid, Toplevel>, n: map<Tlid, Toplevel>)
    requires Lookup(n, t) == UpdateOptionTl(rh, Lookup(m, t))
    ensures var r, s := ApplyToToplevel(edit, t, m), ApplyToToplevel(UpdateEdit(rh, edit), t, n);
            (r.Ok? <==> s.Ok?) && (r.Ok? ==> Lookup(s.value, t) == UpdateOptionTl(rh, Lookup(r.value, t)))
  {
    if t in m && m[t].data.DBData? && edit.SetTlExpr? { SetExprCommutes(rh, edit.id, edit.expr, m[t].data.db); }
  }

  lemma EditTracks(rh: Rewrite, edit: TlEdit, t: Tlid, c: Toplevels, d: Toplevels)
    requires SlotOf(d, t) == UpdateSlot(rh, SlotOf(c, t))
    ensures Tracks(rh, ApplyToAllToplevels(edit, t, c), ApplyToAllToplevels(UpdateEdit(rh, edit), t, d), t)
  {
    EditInMapTracks(rh, edit, t, c.handlers, d.handlers);
    EditInMapTracks(rh, edit, t, c.dbs, d.dbs);
  }

  lemma DeleteTracks(rh: Rewrite, t: Tlid, c: Toplevels, d: Toplevels)
    requires SlotOf(d, t) == UpdateSlot(rh, SlotOf(c, t))
    ensures Tracks(rh, Ok(DeleteToplevel(t, c)), Ok(DeleteToplevel(t, d)), t)
  {
    assert Lookup(d.dbs, t) == UpdateOptionTl(rh, Lookup(c.dbs, t));
    assert Lookup(d.handlers, t) == UpdateOptionTl(rh, Lookup(c.handlers, t));
  }

  lemma DeleteFnTracks(rh: Rewrite, t: Tlid, c: Toplevels, d: Toplevels)
    requires SlotOf(d, t) == UpdateSlot(rh, SlotOf(c, t))
    ensures Tracks(rh, Ok(DeleteFn(t, c)), Ok(DeleteFn(t, d)), t)
  {
    assert Lookup(d.userFunctions, t) == UpdateOptionFn(rh, Lookup(c.userFunctions, t));
  }

  lemma DeleteTipeTracks(rh: Rewrite, t: Tlid, c: Toplevels, d: Toplevels)
    requires SlotOf(d, t) == UpdateSlot(rh, SlotOf(c, t))
    ensures Tracks(rh, Ok(DeleteTipe(t, c)), Ok(DeleteTipe(t, d)), t)
  {
    assert Lookup(d.userTipes, t) == Lookup(c.userTipes, t);
  }

  lemma SetterTracks(rh: Rewrite, isNew: bool, op: Op, c: Toplevels, d: Toplevels)
    requires SlotOf(d, TlidOf(op)) == UpdateSlot(rh, SlotOf(c, TlidOf(op)))
    requires op.SetHandler? || op.SetFunction? || op.SetType? || op.CreateDB? || op.CreateDBWithBlankOr?
    ensures Tracks(rh, ApplyOp(isNew, op, c), ApplyOp(isNew, UpdateOp(rh, op), d), TlidOf(op))
  {}

  lemma ForgetterTracks(rh: Rewrite, isNew: bool, op: Op, c: Toplevels, d: Toplevels)
    requires SlotOf(d, TlidOf(op)) == UpdateSlot(rh, SlotOf(c, TlidOf(op)))
    requires op.DeleteTLForever? || op.DeleteFunctionForever? || op.DeleteTypeForever? || op.DeprecatedInitDbm?
             || op.TLSavepoint? || op.UndoTL? || op.RedoTL?
    ensures Tracks(rh, ApplyOp(isNew, op, c), ApplyOp(isNew, UpdateOp(rh, op), d), TlidOf(op))
  {}

  lemma OpTracks(rh: Rewrite, isNew: bool, op: Op, c: Toplevels, d: Toplevels)
    requires SlotOf(d, TlidOf(op)) == UpdateSlot(rh, SlotOf(c, TlidOf(op)))
    ensures Tracks(rh, ApplyOp(isNew, op, c), ApplyOp(isNew, UpdateOp(rh, op), d), TlidOf(op))
  {
    var t := TlidOf(op);
    if EditsDb(op) {
      DbOpApplies(isNew, op, c);
      DbOpApplies(isNew, op, d);
      if DbEditOf(op).Some? { DbEditTracks(rh, DbEditOf(op).value, t, c, d); }
    } else if op.SetExpr? {
      EditTracks(rh, SetTlExpr(op.id, op.expr), t, c, d);
    } else if op.MoveTL? {
      EditTracks(rh, Move(op.pos), t, c, d);
    } else if op.DeleteTL? {
      DeleteTracks(rh, t, c, d);
    } else if op.DeleteFunction? {
      DeleteFnTracks(rh, t, c, d);
    } else if op.DeleteType? {
      DeleteTipeTracks(rh, t, c, d);
    } else if op.SetHandler? || op.SetFunction? || op.SetType? || op.CreateDB? || op.CreateDBWithBlankOr? {
      SetterTracks(rh, isNew, op, c, d);
    } else {
      ForgetterTracks(rh, isNew, op, c, d);
    }
  }

  // ---- Whole oplists

  function AsUpdated(rh: Rewrite): FlaggedOp -> FlaggedOp { (x: FlaggedOp) => (x.0, UpdateOp(rh, x.1)) }

  lemma UpdateIsTransparent(rh: Rewrite)
    ensures Transparent(AsUpdated(rh))
  {}

  lemma AllSlotsTrack(rh: Rewrite, isNew: bool, op: Op, c: Toplevels, d: Toplevels, u: Tlid)
    requires SlotOf(d, TlidOf(op)) == UpdateSlot(rh, SlotOf(c, TlidOf(op)))
    requires SlotOf(d, u) == UpdateSlot(rh, SlotOf(c, u)) && ApplyOp(isNew, op, c).Ok?
    ensures Tracks(rh, ApplyOp(isNew, op, c), ApplyOp(isNew, UpdateOp(rh, op), d), u)
  {
    OpTracks(rh, isNew, op, c, d);
    OpIsLocal(isNew, op, c, c);
    OpIsLocal(isNew, UpdateOp(rh, op), d, d);
  }

  lemma {:induction false} ReplayTracks(rh: Rewrite, ops: seq<FlaggedOp>, c: Toplevels, d: Toplevels, t: Tlid)
    requires forall u :: SlotOf(d, u) == UpdateSlot(rh, SlotOf(c, u))
    ensures Tracks(rh, Replay(ops, c), Replay(MapOps(AsUpdated(rh), ops), d), t)
    decreases |ops|
  {
    if |ops| > 0 {
      var isNew, op := ops[0].0, ops[0].1;
      OpTracks(rh, isNew, op, c, d);
      if ApplyOp(isNew, op, c).Ok? {
        var c', d' := ApplyOp(isNew, op, c).value, ApplyOp(isNew, UpdateOp(rh, op), d).value;
        forall u ensures SlotOf(d', u) == UpdateSlot(rh, SlotOf(c', u)) { AllSlotsTrack(rh, isNew, op, c, d, u); }
        ReplayTracks(rh, ops[1..], c', d', t);
      }
    } else {
      assert SlotOf(d, t) == UpdateSlot(rh, SlotOf(c, t));
    }
  }

  function UpdateOps(rh: Rewrite, ops: seq<Op>): seq<Op> {
    seq(|ops|, i requires 0 <= i < |ops| => UpdateOp(rh, ops[i]))
  }

  lemma {:induction false} FlagOfUpdated(rh: Rewrite, isNew: bool, ops: seq<Op>)
    ensures Flag(isNew, UpdateOps(rh, ops)) == MapOps(AsUpdated(rh), Flag(isNew, ops))
  {
    FlagIndex(isNew, ops);
    FlagIndex(isNew, UpdateOps(rh, ops));
    MapOpsIndex(AsUpdated(rh), Flag(isNew, ops));
  }

  /** A saved oplist with its hosts rewritten builds the same canvas with its hosts rewritten. */
  lemma {:induction false} UpdatedOplistBuilds(rh: Rewrite, ops: seq<Op>, t: Tlid)
    requires BuildOf(ops).Ok?
    ensures Tracks(rh, BuildOf(ops), BuildOf(UpdateOps(rh, ops)), t)
  {
    var flagged, updated := Flag(false, ops), Flag(false, UpdateOps(rh, ops));
    assert flagged + Flag(true, []) == flagged && updated + Flag(true, []) == updated;
    FlagOfUpdated(rh, false, ops);
    UpdateIsTransparent(rh);
    MapPreprocess(AsUpdated(rh), flagged);
    assert forall u :: SlotOf(EMPTY, u) == UpdateSlot(rh, SlotOf(EMPTY, u));
    ReplayTracks(rh, Preprocess(flagged).value, EMPTY, EMPTY, t);
  }

  // ---- clone_canvas

  /** The ops of an id that are copied: DBs keep their history. */
  function KeptOps(preserveHistory: bool, c: Toplevels, g: Group): seq<Op> {
    if preserveHistory || g.0 in c.dbs || g.0 in c.deletedDbs then g.1 else Trimmed(g.1)
  }

  function KeptGroups(preserveHistory: bool, c: Toplevels, groups: seq<Group>): (r: seq<Group>)
    ensures |r| == |groups|
    ensures forall i :: 0 <= i < |groups| ==> r[i] == (groups[i].0, KeptOps(preserveHistory, c, groups[i]))
  {
    seq(|groups|, i requires 0 <= i < |groups| => (groups[i].0, KeptOps(preserveHistory, c, groups[i])))
  }

  function UpdateGroups(rh: Rewrite, groups: seq<Group>): (r: seq<Group>)
    ensures |r| == |groups|
    ensures forall i :: 0 <= i < |groups| ==> r[i] == (groups[i].0, UpdateOps(rh, groups[i].1))
  {
    seq(|groups|, i requires 0 <= i < |groups| => (groups[i].0, UpdateOps(rh, groups[i].1)))
  }

  /** clone_canvas up to saving: the copied ops are added to an empty canvas as new ops. */
  function CloneCanvas(rh: Rewrite, preserveHistory: bool, c: Toplevels, groups: seq<Group>): Outcome {
    Build(EMPTY, [], Flatten(UpdateGroups(rh, KeptGroups(preserveHistory, c, groups))))
  }

  /** A loaded canvas: each id's ops create one kind of toplevel and begin with no unmatched
      redo. */
  ghost predicate Cloneable(preserveHistory: bool, c: Toplevels, groups: seq<Group>) {
    && DistinctTlids(groups)
    && BuildOf(Flatten(groups)) == Ok(c)
    && forall i :: 0 <= i < |groups| ==> GroupCloneable(preserveHistory, c, groups[i])
  }

  ghost predicate GroupCloneable(preserveHistory: bool, c: Toplevels, g: Group) {
    && AllOf(g.1, g.0) && CancelsCleanly(g.1)
    && (KeptOps(preserveHistory, c, g) == g.1 || SingleKind(g.1))
  }

  /** What is copied of an id is all of it, or is trimmed without loss. */
  predicate CopiedExactly(preserveHistory: bool, c: Toplevels, g: Group) {
    KeptOps(preserveHistory, c, g) == g.1 || T.TrimIsExact(g.1)
  }

  predicate AllCopiedExactly(preserveHistory: bool, c: Toplevels, groups: seq<Group>) {
    forall i :: 0 <= i < |groups| ==> CopiedExactly(preserveHistory, c, groups[i])
  }

  lemma {:induction false} TrimmedCancelsCleanly(ops: seq<Op>)
    requires CancelsCleanly(ops)
    ensures CancelsCleanly(Trimmed(ops))
  {
    var k := TrimStart(ops);
    if k == 0 {
      assert Trimmed(ops) == ops;
    } else {
      assert ops == ops[..k] + Trimmed(ops);
      FlagConcat(ops[..k], Trimmed(ops));
      FlagIndex(false, Trimmed(ops));
      SuffixCancels(Flag(false, ops[..k]), Flag(false, Trimmed(ops)));
      T.CreatingOpStopsRedos(Flag(false, Trimmed(ops)));
    }
  }

  lemma {:induction false} KeptGroupBuilds(preserveHistory: bool, c: Toplevels, g: Group)
    requires GroupCloneable(preserveHistory, c, g) && BuildOf(g.1).Ok?
    ensures var kept := KeptOps(preserveHistory, c, g);
            AllOf(kept, g.0) && CancelsCleanly(kept) && BuildOf(kept).Ok?
            && (CopiedExactly(preserveHistory, c, g) ==> BuildOf(kept) == BuildOf(g.1))
            && (!CopiedExactly(preserveHistory, c, g) ==> BuildOf(kept) == Ok(EMPTY) && BuildOf(g.1) != Ok(EMPTY))
  {
    var kept := KeptOps(preserveHistory, c, g);
    if kept != g.1 {
      TrimmedCancelsCleanly(g.1);
      T.TrimIsExactIff(g.1, g.0);
    }
  }

  /** Groups that each belong to their id and build. */
  ghost predicate GoodGroups(groups: seq<Group>) {
    && DistinctTlids(groups)
    && forall i :: 0 <= i < |groups| ==> AllOf(groups[i].1, groups[i].0) && BuildOf(groups[i].1).Ok?
  }

  /** Such groups build, id by id, what each of them builds alone. */
  lemma {:induction false} GroupSlot(groups: seq<Group>, k: nat)
    requires GoodGroups(groups) && BuildOf(Flatten(groups)).Ok? && k < |groups|
    ensures SlotOf(BuildOf(Flatten(groups)).value, groups[k].0) == SlotOf(BuildOf(groups[k].1).value, groups[k].0)
  {
    S.OfTlidOfOwnGroup(groups, k);
    BuildPerId(Flatten(groups), groups[k].0);
  }

  lemma {:induction false} MissingSlot(groups: seq<Group>, t: Tlid)
    requires GoodGroups(groups) && BuildOf(Flatten(groups)).Ok? && !HasGroup(groups, t)
    ensures SlotOf(BuildOf(Flatten(groups)).value, t) == NOTHING
  {
    S.OfTlidOfMissing(groups, t);
    BuildPerId(Flatten(groups), t);
    S.EmptyBuilds();
  }

  lemma {:induction false} GroupsAreGood(preserveHistory: bool, c: Toplevels, groups: seq<Group>)
    requires Cloneable(preserveHistory, c, groups)
    ensures GoodGroups(groups)
  {
    forall i | 0 <= i < |groups| ensures AllOf(groups[i].1, groups[i].0) {
      assert GroupCloneable(preserveHistory, c, groups[i]);
    }
    forall i | 0 <= i < |groups| ensures BuildOf(groups[i].1).Ok? {
      S.OfTlidOfOwnGroup(groups, i);
      BuildPerId(Flatten(groups), groups[i].0);
    }
  }

  /** The copied ops always build. */
  lemma {:induction false} KeptGroupsAreGood(preserveHistory: bool, c: Toplevels, groups: seq<Group>)
    requires Cloneable(preserveHistory, c, groups)
    ensures var kept := KeptGroups(preserveHistory, c, groups); GoodGroups(kept) && BuildOf(Flatten(kept)).Ok?
  {
    var kept := KeptGroups(preserveHistory, c, groups);
    GroupsAreGood(preserveHistory, c, groups);
    forall i | 0 <= i < |groups|
      ensures AllOf(kept[i].1, kept[i].0) && CancelsCleanly(kept[i].1) && BuildOf(kept[i].1).Ok?
    {
      assert GroupCloneable(preserveHistory, c, groups[i]);
      KeptGroupBuilds(preserveHistory, c, groups[i]);
    }
    GroupsCancel(kept);
    forall t ensures BuildOf(OfTlid(Flatten(kept), t)).Ok? {
      if k :| 0 <= k < |kept| && kept[k].0 == t {
        S.OfTlidOfOwnGroup(kept, k);
      } else {
        S.OfTlidOfMissing(kept, t);
        S.EmptyBuilds();
      }
    }
    BuildSucceeds(Flatten(kept));
  }

  lemma {:induction false} SomethingWasBuilt(ops: seq<Op>, t: Tlid)
    requires AllOf(ops, t) && BuildOf(ops).Ok? && BuildOf(ops) != Ok(EMPTY)
    ensures SlotOf(BuildOf(ops).value, t) != NOTHING
  {
    if SlotOf(BuildOf(ops).value, t) == NOTHING {
      forall u ensures SlotOf(BuildOf(ops).value, u) == SlotOf(EMPTY, u) {
        if u != t { BuildLeavesOthers(ops, t, u); }
        S.EmptyBuilds();
      }
      SameSlotsSameMaps(BuildOf(ops).value, EMPTY);
    }
  }

  /** An id whose ops are not copied exactly has an entry in the original and none in the copy. */
  lemma {:induction false} InexactSlot(preserveHistory: bool, c: Toplevels, groups: seq<Group>, k: nat)
    requires Cloneable(preserveHistory, c, groups) && k < |groups|
    requires !CopiedExactly(preserveHistory, c, groups[k])
    ensures var kept := BuildOf(Flatten(KeptGroups(preserveHistory, c, groups)));
            kept.Ok? && SlotOf(kept.value, groups[k].0) == NOTHING && SlotOf(c, groups[k].0) != NOTHING
  {
    var kept := KeptGroups(preserveHistory, c, groups);
    GroupsAreGood(preserveHistory, c, groups);
    KeptGroupsAreGood(preserveHistory, c, groups);
    assert GroupCloneable(preserveHistory, c, groups[k]);
    KeptGroupBuilds(preserveHistory, c, groups[k]);
    GroupSlot(groups, k);
    GroupSlot(kept, k);
    SomethingWasBuilt(groups[k].1, groups[k].0);
    S.EmptyBuilds();
  }

  lemma {:induction false} ExactSlot(preserveHistory: bool, c: Toplevels, groups: seq<Group>, t: Tlid)
    requires Cloneable(preserveHistory, c, groups) && AllCopiedExactly(preserveHistory, c, groups)
    ensures var kept := BuildOf(Flatten(KeptGroups(preserveHistory, c, groups)));
            kept.Ok? && SlotOf(kept.value, t) == SlotOf(c, t)
  {
    var kept := KeptGroups(preserveHistory, c, groups);
    GroupsAreGood(preserveHistory, c, groups);
    KeptGroupsAreGood(preserveHistory, c, groups);
    if k :| 0 <= k < |groups| && groups[k].0 == t {
      assert GroupCloneable(preserveHistory, c, groups[k]) && CopiedExactly(preserveHistory, c, groups[k]);
      KeptGroupBuilds(preserveHistory, c, groups[k]);
      GroupSlot(groups, k);
      GroupSlot(kept, k);
    } else {
      MissingSlot(groups, t);
      MissingSlot(kept, t);
    }
  }

  /** The copied ops, hosts aside, build the canvas they were copied from exactly when each
      id's ops are copied exactly. */
  lemma {:induction false} KeptGroupsBuildIff(preserveHistory: bool, c: Toplevels, groups: seq<Group>)
    requires Cloneable(preserveHistory, c, groups)
    ensures BuildOf(Flatten(KeptGroups(preserveHistory, c, groups))) == Ok(c)
        <==> AllCopiedExactly(preserveHistory, c, groups)
  {
    KeptGroupsAreGood(preserveHistory, c, groups);
    if AllCopiedExactly(preserveHistory, c, groups) {
      var built := BuildOf(Flatten(KeptGroups(preserveHistory, c, groups))).value;
      forall t ensures SlotOf(built, t) == SlotOf(c, t) { ExactSlot(preserveHistory, c, groups, t); }
      SameSlotsSameMaps(built, c);
    } else {
      var k :| 0 <= k < |groups| && !CopiedExactly(preserveHistory, c, groups[k]);
      InexactSlot(preserveHistory, c, groups, k);
    }
  }

  lemma {:induction false} FlattenUpdated(rh: Rewrite, groups: seq<Group>)
    ensures Flatten(UpdateGroups(rh, groups)) == UpdateOps(rh, Flatten(groups))
  {
    if |groups| == 0 {
    } else {
      FlattenUpdated(rh, groups[1..]);
      assert UpdateGroups(rh, groups)[1..] == UpdateGroups(rh, groups[1..]);
      assert UpdateOps(rh, groups[0].1 + Flatten(groups[1..]))
          == UpdateOps(rh, groups[0].1) + UpdateOps(rh, Flatten(groups[1..]));
    }
  }

  /** Adding saved ops as new ops succeeds, with the same result, exactly when no op that
      survives preprocessing creates a nameless DB. */
  lemma {:induction false} AddAsNewIff(ops: seq<Op>)
    requires BuildOf(ops).Ok?
    ensures Preprocess(Flag(false, ops)).Ok?
    ensures Build(EMPTY, [], ops).Ok? <==> NoNameless(Preprocess(Flag(false, ops)).value)
    ensures Build(EMPTY, [], ops).Ok? ==> Build(EMPTY, [], ops) == BuildOf(ops)
  {
    var old_, new_ := Flag(false, ops), Flag(true, ops);
    assert old_ + Flag(true, []) == old_ && Flag(false, []) + new_ == new_;
    OldAndNewAreTransparent();
    MapFlag(AsNew(), false, true, ops);
    MapFlag(AsOld(), false, false, ops);
    MapPreprocess(AsNew(), old_);
    MapPreprocess(AsOld(), old_);
    ReplayAsNewIff(Preprocess(old_).value, EMPTY);
  }

  lemma {:induction false} UpdatedSurvivorsNameless(rh: Rewrite, ops: seq<FlaggedOp>)
    ensures NoNameless(MapOps(AsUpdated(rh), ops)) <==> NoNameless(ops)
  {
    MapOpsIndex(AsUpdated(rh), ops);
    forall i | 0 <= i < |ops| ensures Nameless(MapOps(AsUpdated(rh), ops)[i].1) <==> Nameless(ops[i].1) {}
    if NoNameless(MapOps(AsUpdated(rh), ops)) {
      forall i | 0 <= i < |ops| ensures !Nameless(ops[i].1) {
        assert !Nameless(MapOps(AsUpdated(rh), ops)[i].1);
      }
    }
  }

  /** The clone of the copied ops is what they build with hosts rewritten; adding them as new
      ops succeeds exactly when none of them creates a nameless DB. */
  lemma {:induction false} CloneBuildsCopied(rh: Rewrite, preserveHistory: bool, c: Toplevels, groups: seq<Group>)
    requires Cloneable(preserveHistory, c, groups)
    ensures var copied := Flatten(KeptGroups(preserveHistory, c, groups));
            && Preprocess(Flag(false, copied)).Ok? && BuildOf(copied).Ok?
            && (CloneCanvas(rh, preserveHistory, c, groups).Ok?
                <==> NoNameless(Preprocess(Flag(false, copied)).value))
    ensures CloneCanvas(rh, preserveHistory, c, groups).Ok? ==>
              forall t :: SlotOf(CloneCanvas(rh, preserveHistory, c, groups).value, t)
                       == UpdateSlot(rh, SlotOf(BuildOf(Flatten(KeptGroups(preserveHistory, c, groups))).value, t))
  {
    var kept := KeptGroups(preserveHistory, c, groups);
    var copied := Flatten(kept);
    KeptGroupsAreGood(preserveHistory, c, groups);
    FlattenUpdated(rh, kept);
    UpdatedOplistBuilds(rh, copied, 0);
    AddAsNewIff(UpdateOps(rh, copied));
    var flagged := Flag(false, copied);
    assert flagged + Flag(true, []) == flagged;
    FlagOfUpdated(rh, false, copied);
    UpdateIsTransparent(rh);
    MapPreprocess(AsUpdated(rh), flagged);
    UpdatedSurvivorsNameless(rh, Preprocess(flagged).value);
    forall t
      ensures SlotOf(BuildOf(UpdateOps(rh, copied)).value, t) == UpdateSlot(rh, SlotOf(BuildOf(copied).value, t))
    {
      UpdatedOplistBuilds(rh, copied, t);
    }
  }

  /** Every entry of the clone, live or deleted, is the original's with hosts rewritten. */
  ghost predicate Renders(rh: Rewrite, clone: Toplevels, c: Toplevels) {
    forall t :: SlotOf(clone, t) == UpdateSlot(rh, SlotOf(c, t))
  }

  /** Cloning succeeds exactly when no copied op creates a nameless DB. */
  lemma {:induction false} CloneSucceedsIff(rh: Rewrite, preserveHistory: bool, c: Toplevels, groups: seq<Group>)
    requires Cloneable(preserveHistory, c, groups)
    ensures var copied := Flag(false, Flatten(KeptGroups(preserveHistory, c, groups)));
            Preprocess(copied).Ok?
            && (CloneCanvas(rh, preserveHistory, c, groups).Ok? <==> NoNameless(Preprocess(copied).value))
  {
    CloneBuildsCopied(rh, preserveHistory, c, groups);
  }

  /** If it does, the clone has the meaning of the original, hosts in string literals
      rewritten, exactly when each id's ops are copied exactly. */
  lemma {:induction false} CloneRendersOriginal(rh: Rewrite, preserveHistory: bool, c: Toplevels, groups: seq<Group>)
    requires Cloneable(preserveHistory, c, groups) && CloneCanvas(rh, preserveHistory, c, groups).Ok?
    ensures Renders(rh, CloneCanvas(rh, preserveHistory, c, groups).value, c)
        <==> AllCopiedExactly(preserveHistory, c, groups)
  {
    var clone := CloneCanvas(rh, preserveHistory, c, groups).value;
    CloneBuildsCopied(rh, preserveHistory, c, groups);
    if AllCopiedExactly(preserveHistory, c, groups) {
      KeptGroupsBuildIff(preserveHistory, c, groups);
    } else {
      var k :| 0 <= k < |groups| && !CopiedExactly(preserveHistory, c, groups[k]);
      InexactSlot(preserveHistory, c, groups, k);
      assert SlotOf(clone, groups[k].0) != UpdateSlot(rh, SlotOf(c, groups[k].0));
    }
  }

  /** What is copied: everything if history is preserved, else everything of a datastore and
      the ops from the last creating op on of anything else. */
  lemma CopiedOps(preserveHistory: bool, c: Toplevels, groups: seq<Group>, k: nat)
    requires k < |groups|
    ensures |KeptGroups(preserveHistory, c, groups)| == |groups|
    ensures var g, kept := groups[k], KeptGroups(preserveHistory, c, groups)[k];
            && kept.0 == g.0
            && kept.1 == g.1[|g.1| - |kept.1|..]
            && (preserveHistory || g.0 in c.dbs || g.0 in c.deletedDbs ==> kept.1 == g.1)
            && (!preserveHistory && g.0 !in c.dbs && g.0 !in c.deletedDbs ==>
                  (forall j :: 0 < j < |kept.1| ==> !IsOpThatCreatesToplevel(kept.1[j]))
                  && (kept.1 == g.1 || (|kept.1| > 0 && IsOpThatCreatesToplevel(kept.1[0]))))
  {}

  /** With its history preserved a canvas is always cloned faithfully. */
  lemma {:induction false} PreservedHistoryRenders(rh: Rewrite, c: Toplevels, groups: seq<Group>)
    requires Cloneable(true, c, groups) && CloneCanvas(rh, true, c, groups).Ok?
    ensures Renders(rh, CloneCanvas(rh, true, c, groups).value, c)
  {
    CloneRendersOriginal(rh, true, c, groups);
  }

  /** Datastores are never trimmed. */
  lemma {:induction false} SameDbs(rh: Rewrite, preserveHistory: bool, c: Toplevels, groups: seq<Group>, t: Tlid)
    requires Cloneable(preserveHistory, c, groups) && CloneCanvas(rh, preserveHistory, c, groups).Ok?
    ensures Lookup(CloneCanvas(rh, preserveHistory, c, groups).value.dbs, t) == UpdateOptionTl(rh, Lookup(c.dbs, t))
  {
    CloneBuildsCopied(rh, preserveHistory, c, groups);
    KeptDb(preserveHistory, c, groups, t);
    var clone := CloneCanvas(rh, preserveHistory, c, groups).value;
    assert SlotOf(clone, t).db == Lookup(clone.dbs, t);
  }

  lemma {:induction false} KeptDb(preserveHistory: bool, c: Toplevels, groups: seq<Group>, t: Tlid)
    requires Cloneable(preserveHistory, c, groups)
    ensures var kept := BuildOf(Flatten(KeptGroups(preserveHistory, c, groups)));
            kept.Ok? && SlotOf(kept.value, t).db == Lookup(c.dbs, t)
  {
    var kept := KeptGroups(preserveHistory, c, groups);
    GroupsAreGood(preserveHistory, c, groups);
    KeptGroupsAreGood(preserveHistory, c, groups);
    if k :| 0 <= k < |groups| && groups[k].0 == t {
      if CopiedExactly(preserveHistory, c, groups[k]) {
        assert GroupCloneable(preserveHistory, c, groups[k]);
        KeptGroupBuilds(preserveHistory, c, groups[k]);
        GroupSlot(groups, k);
        GroupSlot(kept, k);
        assert SlotOf(c, t).db == Lookup(c.dbs, t);
      } else {
        InexactSlot(preserveHistory, c, groups, k);
      }
    } else {
      MissingSlot(groups, t);
      MissingSlot(kept, t);
      assert SlotOf(c, t).db == Lookup(c.dbs, t);
    }
  }

  /** The clone passes the check of duplicate datastore names exactly when the original does. */
  lemma {:induction false} CloneVerifiesAlike(rh: Rewrite, preserveHistory: bool, c: Toplevels, groups: seq<Group>)
    requires Cloneable(preserveHistory, c, groups) && CloneCanvas(rh, preserveHistory, c, groups).Ok?
    ensures V.Verified(CloneCanvas(rh, preserveHistory, c, groups).value) <==> V.Verified(c)
  {
    var clone := CloneCanvas(rh, preserveHistory, c, groups).value;
    forall t ensures (t in clone.dbs <==> t in c.dbs)
                     && V.DbName(Lookup(clone.dbs, t)) == V.DbName(Lookup(c.dbs, t))
    {
      SameDbs(rh, preserveHistory, c, groups, t);
    }
    V.VerifiedAlike(clone, c);
  }
}
