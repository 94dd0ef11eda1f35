/** What a canvas holds and the operations that build it (libexecution/types.ml,
    toplevel.ml, canvas.ml). */
module CanvasTypes {
  import opened Common
  import F = FluidExpression

  type Tlid = int
  type Id = F.Id

  datatype Pos = Pos(x: int, y: int)

  datatype OrBlank<+T> = Blank(id: Id) | Filled(id: Id, value: T) | Partial(id: Id, text: string)

  /** A column type; the strings in ops are represented by the outcome of parsing them. */
  type Tipe = string
  type ParsedTipe = Option<Tipe>

  type Col = (OrBlank<string>, OrBlank<Tipe>)

  datatype MigrationState = DBMigrationAbandoned | DBMigrationInitialized

  datatype Migration = Migration(
    startingVersion: int, version: int, state: MigrationState,
    rollforward: F.Expr, rollback: F.Expr, cols: seq<Col>)

  datatype Db = Db(
    tlid: Tlid, name: OrBlank<string>, cols: seq<Col>, version: int,
    oldMigrations: seq<Migration>, activeMigration: Option<Migration>)

  datatype HandlerSpec = HandlerSpec(module_: OrBlank<string>, name: OrBlank<string>, modifier: OrBlank<string>)

  datatype Handler = Handler(tlid: Tlid, ast: F.Expr, spec: HandlerSpec)

  datatype UserFn = UserFn(tlid: Tlid, metadata: string, ast: F.Expr)

  datatype UserTipe = UserTipe(tlid: Tlid, name: OrBlank<string>, version: int, definition: seq<Col>)

  datatype TlData = HandlerData(handler: Handler) | DBData(db: Db)

  datatype Toplevel = Toplevel(tlid: Tlid, pos: Pos, data: TlData)

  /** The eight maps of a canvas. */
  datatype Toplevels = Toplevels(
    handlers: map<Tlid, Toplevel>,
    dbs: map<Tlid, Toplevel>,
    userFunctions: map<Tlid, UserFn>,
    userTipes: map<Tlid, UserTipe>,
    deletedHandlers: map<Tlid, Toplevel>,
    deletedDbs: map<Tlid, Toplevel>,
    deletedUserFunctions: map<Tlid, UserFn>,
    deletedUserTipes: map<Tlid, UserTipe>)

  const EMPTY := Toplevels(map[], map[], map[], map[], map[], map[], map[], map[])

  datatype Op =
    | SetHandler(tlid: Tlid, pos: Pos, handler: Handler)
    | CreateDB(tlid: Tlid, pos: Pos, name: string)
    | AddDBCol(tlid: Tlid, colid: Id, typeid: Id)
    | SetDBColName(tlid: Tlid, id: Id, name: string)
    | SetDBColType(tlid: Tlid, id: Id, tipe: ParsedTipe)
    | DeleteTL(tlid: Tlid)
    | MoveTL(tlid: Tlid, pos: Pos)
    | SetFunction(fn: UserFn)
    | ChangeDBColName(tlid: Tlid, id: Id, name: string)
    | ChangeDBColType(tlid: Tlid, id: Id, tipe: ParsedTipe)
    | UndoTL(tlid: Tlid)
    | RedoTL(tlid: Tlid)
    | DeprecatedInitDbm(tlid: Tlid, id: Id, rbid: Id, rfid: Id)
    | SetExpr(tlid: Tlid, id: Id, expr: F.Expr)
    | TLSavepoint(tlid: Tlid)
    | DeleteFunction(tlid: Tlid)
    | CreateDBMigration(tlid: Tlid, rbid: Id, rfid: Id, rawCols: seq<(OrBlank<string>, OrBlank<ParsedTipe>)>)
    | AddDBColToDBMigration(tlid: Tlid, colid: Id, typeid: Id)
    | SetDBColNameInDBMigration(tlid: Tlid, id: Id, name: string)
    | SetDBColTypeInDBMigration(tlid: Tlid, id: Id, tipe: ParsedTipe)
    | AbandonDBMigration(tlid: Tlid)
    | DeleteColInDBMigration(tlid: Tlid, id: Id)
    | DeleteDBCol(tlid: Tlid, id: Id)
    | RenameDBname(tlid: Tlid, name: string)
    | CreateDBWithBlankOr(tlid: Tlid, pos: Pos, id: Id, name: string)
    | DeleteTLForever(tlid: Tlid)
    | DeleteFunctionForever(tlid: Tlid)
    | SetType(ut: UserTipe)
    | DeleteType(tlid: Tlid)
    | DeleteTypeForever(tlid: Tlid)

  function TlidOf(op: Op): Tlid {
    if op.SetFunction? then op.fn.tlid
    else if op.SetType? then op.ut.tlid
    else op.tlid
  }

  /** An op and whether it is new in this request. */
  type FlaggedOp = (bool, Op)

  datatype Error =
    | DbMustHaveName | NotForADb | SetExprOnHandler | NotPreprocessed | BadTipe | AlreadyAtLatestRedo

  // ---- One toplevel id's share of the eight maps

  function Lookup<T>(m: map<Tlid, T>, t: Tlid): Option<T> {
    if t in m then Some(m[t]) else None
  }

  datatype Slot = Slot(
    handler: Option<Toplevel>, db: Option<Toplevel>, fn: Option<UserFn>, tipe: Option<UserTipe>,
    deletedHandler: Option<Toplevel>, deletedDb: Option<Toplevel>,
    deletedFn: Option<UserFn>, deletedTipe: Option<UserTipe>)

  const NOTHING := Slot(None, None, None, None, None, None, None, None)

  function SlotOf(c: Toplevels, t: Tlid): Slot {
    Slot(Lookup(c.handlers, t), Lookup(c.dbs, t), Lookup(c.userFunctions, t), Lookup(c.userTipes, t),
         Lookup(c.deletedHandlers, t), Lookup(c.deletedDbs, t),
         Lookup(c.deletedUserFunctions, t), Lookup(c.deletedUserTipes, t))
  }

  lemma SameMap<T>(m: map<Tlid, T>, n: map<Tlid, T>)
    requires forall t :: Lookup(m, t) == Lookup(n, t)
    ensures m == n
  {
    forall t ensures t in m <==> t in n { assert Lookup(m, t) == Lookup(n, t); }
    forall t | t in m ensures m[t] == n[t] { assert Lookup(m, t) == Lookup(n, t); }
  }

  /** Two canvases with the same slots have the same eight maps. */
  lemma SameSlotsSameMaps(c: Toplevels, d: Toplevels)
    requires forall t :: SlotOf(c, t) == SlotOf(d, t)
    ensures c == d
  {
    forall t
      ensures Lookup(c.handlers, t) == Lookup(d.handlers, t) && Lookup(c.dbs, t) == Lookup(d.dbs, t)
      ensures Lookup(c.userFunctions, t) == Lookup(d.userFunctions, t)
      ensures Lookup(c.userTipes, t) == Lookup(d.userTipes, t)
      ensures Lookup(c.deletedHandlers, t) == Lookup(d.deletedHandlers, t)
      ensures Lookup(c.deletedDbs, t) == Lookup(d.deletedDbs, t)
      ensures Lookup(c.deletedUserFunctions, t) == Lookup(d.deletedUserFunctions, t)
      ensures Lookup(c.deletedUserTipes, t) == Lookup(d.deletedUserTipes, t)
    {
      assert SlotOf(c, t) == SlotOf(d, t);
    }
    SameMap(c.handlers, d.handlers);
    SameMap(c.dbs, d.dbs);
    SameMap(c.userFunctions, d.userFunctions);
    SameMap(c.userTipes, d.userTipes);
    SameMap(c.deletedHandlers, d.deletedHandlers);
    SameMap(c.deletedDbs, d.deletedDbs);
    SameMap(c.deletedUserFunctions, d.deletedUserFunctions);
    SameMap(c.deletedUserTipes, d.deletedUserTipes);
  }
}
