/** Edits of a datastore's schema (user_db.ml). */
module UserDb {
  import opened Common
  import opened CanvasTypes
  import F = FluidExpression
  import E = FluidEdit

  function Create(name: string, tlid: Tlid): Db {
    Db(tlid, Filled(tlid, name), [], 0, [], None)
  }

  function Create2(name: string, tlid: Tlid, nameId: Id): Db {
    Db(tlid, Filled(nameId, name), [], 0, [], None)
  }

  /** The edits apply_to_db runs. */
  datatype Edit =
    | AddCol(colid: Id, typeid: Id)
    | SetColName(id: Id, name: string)
    | ChangeColName(id: Id, name: string)
    | SetColType(id: Id, tipe: Tipe)
    | ChangeColType(id: Id, tipe: Tipe)
    | DeleteCol(id: Id)
    | CreateMigration(rbid: Id, rfid: Id, cols: seq<Col>)
    | AddColToMigration(colid: Id, typeid: Id)
    | SetColNameInMigration(id: Id, name: string)
    | SetColTypeInMigration(id: Id, tipe: Tipe)
    | AbandonMigration
    | DeleteColInMigration(id: Id)
    | RenameDb(name: string)

  function MapCols(f: Col -> Col, cols: seq<Col>): seq<Col> {
    seq(|cols|, i requires 0 <= i < |cols| => f(cols[i]))
  }

  function DropCols(id: Id, cols: seq<Col>): seq<Col> {
    if |cols| == 0 then []
    else if (cols[0].0.Blank? || cols[0].0.Filled?) && cols[0].0.id == id then DropCols(id, cols[1..])
    else [cols[0]] + DropCols(id, cols[1..])
  }

  function MaxVersion(ms: seq<Migration>, acc: int): int {
    if |ms| == 0 then acc
    else MaxVersion(ms[1..], if acc < ms[0].version then ms[0].version else acc)
  }

  function MapMigrationCols(f: Col -> Col, db: Db): Db {
    match db.activeMigration
    case None => db
    case Some(m) => db.(activeMigration := Some(m.(cols := MapCols(f, m.cols))))
  }

  function EditDb(edit: Edit, db: Db): (r: Db)
    ensures r.tlid == db.tlid
  {
    match edit
    case AddCol(colid, typeid) => db.(cols := db.cols + [(Blank(colid), Blank(typeid))])
    case SetColName(id, name) =>
      db.(cols := MapCols((c: Col) => if c.0.Blank? && c.0.id == id then (Filled(id, name), c.1) else c, db.cols))
    case ChangeColName(id, name) =>
      db.(cols := MapCols((c: Col) => if c.0.Filled? && c.0.id == id then (Filled(id, name), c.1) else c, db.cols))
    case SetColType(id, tipe) =>
      db.(cols := MapCols((c: Col) => if c.1.Blank? && c.1.id == id then (c.0, Filled(id, tipe)) else c, db.cols))
    case ChangeColType(id, tipe) =>
      db.(cols := MapCols((c: Col) => if c.0.Filled? && c.1.Filled? && c.1.id == id
                                      then (c.0, Filled(id, tipe)) else c, db.cols))
    case DeleteCol(id) => db.(cols := DropCols(id, db.cols))
    case CreateMigration(rbid, rfid, cols) =>
      if db.activeMigration.Some? then db
      else db.(activeMigration := Some(Migration(db.version, MaxVersion(db.oldMigrations, 0) + 1,
                                                 DBMigrationInitialized, F.EBlank(rfid), F.EBlank(rbid), cols)))
    case AddColToMigration(colid, typeid) =>
      (match db.activeMigration
       case None => db
       case Some(m) => db.(activeMigration := Some(m.(cols := m.cols + [(Blank(colid), Blank(typeid))]))))
    case SetColNameInMigration(id, name) =>
      MapMigrationCols((c: Col) => if !c.0.Partial? && c.0.id == id then (Filled(id, name), c.1) else c, db)
    case SetColTypeInMigration(id, tipe) =>
      MapMigrationCols((c: Col) => if !c.1.Partial? && c.1.id == id then (c.0, Filled(id, tipe)) else c, db)
    case AbandonMigration =>
      (match db.activeMigration
       case None => db
       case Some(m) => db.(oldMigrations := db.oldMigrations + [m.(state := DBMigrationAbandoned)],
                           activeMigration := None))
    case DeleteColInMigration(id) =>
      (match db.activeMigration
       case None => db
       case Some(m) => db.(activeMigration := Some(m.(cols := DropCols(id, m.cols)))))
    case RenameDb(name) => db.(name := Filled(db.name.id, name))
  }

  /** TL.set_expr on a datastore: the expression lands in the active migration. */
  function SetExprInDb(id: Id, expr: F.Expr, db: Db): (r: Db)
    ensures r.tlid == db.tlid
  {
    match db.activeMigration
    case None => db
    case Some(m) =>
      var replace := (e: F.Expr) => E.Updated(E.Constantly(expr), id, e);
      db.(activeMigration := Some(m.(rollback := replace(m.rollback), rollforward := replace(m.rollforward))))
  }
}
