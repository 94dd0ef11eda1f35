/** load_from_cache (canvas.ml): live toplevels come from the rendered copies where these
    can be read, the rest from oplists; the result agrees with a full replay. */
module CanvasCache {
  import opened Common
  import opened CanvasTypes
  import opened CanvasOps
  import opened CanvasReplay
  import opened CanvasInvariant
  import opened CanvasKinds
  import opened CanvasStore
  import opened Undo

  // ---- The fast loader

  datatype FastLoaded = FastLoaded(
    handlers: map<Tlid, (Handler, Pos)>,
    dbs: map<Tlid, (Db, Pos)>,
    fns: map<Tlid, UserFn>,
    tipes: map<Tlid, UserTipe>)

  /** The rows load_only_rendered_tlids selects. */
  predicate FastSelectable(rows: Rows, tlids: seq<Tlid>, t: Tlid) {
    t in tlids && t in rows && rows[t].deleted == Some(false)
    && (((rows[t].tipe.TLHandler? || rows[t].tipe.TLDB?) && rows[t].pos.Some?)
        || rows[t].tipe.TLUserFunction? || rows[t].tipe.TLUserTipe?)
  }

  /** Adds a decoded row under the id inside it; a second entry for an id is an error. */
  function AddFast(row: Row, acc: FastLoaded): Option<FastLoaded> {
    match row.rendered
    case Some(RenderedFn(fn)) =>
      if fn.tlid in acc.fns then None else Some(acc.(fns := acc.fns[fn.tlid := fn]))
    case Some(RenderedDb(db)) =>
      if row.pos.None? then Some(acc)
      else if db.tlid in acc.dbs then None
      else Some(acc.(dbs := acc.dbs[db.tlid := (db, row.pos.value)]))
    case Some(RenderedHandler(h)) =>
      if row.pos.None? then Some(acc)
      else if h.tlid in acc.handlers then None
      else Some(acc.(handlers := acc.handlers[h.tlid := (h, row.pos.value)]))
    case Some(RenderedTipe(ut)) =>
      if ut.tlid in acc.tipes then None else Some(acc.(tipes := acc.tipes[ut.tlid := ut]))
    case None => Some(acc)
  }

  /** The rows of `fetched`, those that could be decoded, in the order they came. */
  function FastLoad(rows: Rows, fetched: seq<Tlid>, acc: FastLoaded): Option<FastLoaded> {
    if |fetched| == 0 then Some(acc)
    else if fetched[0] !in rows then FastLoad(rows, fetched[1..], acc)
    else match AddFast(rows[fetched[0]], acc)
      case None => None
      case Some(acc') => FastLoad(rows, fetched[1..], acc')
  }

  const NO_FAST := FastLoaded(map[], map[], map[], map[])

  function FastTlids(f: FastLoaded): set<Tlid> {
    f.handlers.Keys + f.dbs.Keys + f.fns.Keys + f.tipes.Keys
  }

  function NotLoaded(tlids: seq<Tlid>, f: FastLoaded): seq<Tlid> {
    if |tlids| == 0 then []
    else if tlids[0] in FastTlids(f) then NotLoaded(tlids[1..], f)
    else [tlids[0]] + NotLoaded(tlids[1..], f)
  }

  // ---- Merging into the canvas

  function HandlerTls(m: map<Tlid, (Handler, Pos)>): map<Tlid, Toplevel> {
    map t | t in m :: Toplevel(t, m[t].1, HandlerData(m[t].0))
  }

  function DbTls(m: map<Tlid, (Db, Pos)>): map<Tlid, Toplevel> {
    map t | t in m :: Toplevel(t, m[t].1, DBData(m[t].0))
  }

  function Merge(c: Toplevels, f: FastLoaded): Toplevels {
    c.(handlers := c.handlers + HandlerTls(f.handlers),
       dbs := c.dbs + DbTls(f.dbs),
       userFunctions := c.userFunctions + f.fns,
       userTipes := c.userTipes + f.tipes)
  }

  /** load_from_cache. `fetched` are the ids whose rendered copy was read, `uncached` what
      the uncached loader found for the others; `verify` may reject that canvas. */
  method LoadFromCache(rows: Rows, tlids: seq<Tlid>, fetched: seq<Tlid>, undeletedOnly: bool,
                       uncached: seq<Group>, verify: Toplevels -> bool)
    returns (canvas: Option<CanvasRef>)
    requires AllFastSelectable(rows, tlids, fetched)
    requires var fast := FastLoad(rows, fetched, NO_FAST);
             fast.Some? ==> IsSelection(uncached, rows, SelectedBy(rows, NotLoaded(tlids, fast.value), undeletedOnly))
    ensures var fast, c := FastLoad(rows, fetched, NO_FAST), BuildOf(Flatten(uncached));
            if fast.Some? && c.Ok? && verify(c.value) then
              canvas.Some? && canvas.value.tls == Merge(c.value, fast.value) && canvas.value.ops == []
            else canvas == None
  {
    canvas := None;
    var fast := FastLoad(rows, fetched, NO_FAST);
    if fast.None? { return; }
    var f := fast.value;
    var c := new CanvasRef();
    var error := c.AddOps(Flatten(uncached), []);
    if error.Some? || !verify(c.tls) { return; }
    SetHandlers(c, f.handlers);
    SetDbs(c, f.dbs);
    SetFns(c, f.fns);
    SetTipes(c, f.tipes);
    c.ops := [];
    canvas := Some(c);
  }

  method SetHandlers(c: CanvasRef, fast: map<Tlid, (Handler, Pos)>)
    modifies c`tls
    ensures c.tls == old(c.tls).(handlers := old(c.tls).handlers + HandlerTls(fast))
  {
    var todo := fast.Keys;
    while todo != {}
      invariant todo <= fast.Keys
      invariant c.tls == old(c.tls).(handlers := c.tls.handlers)
      invariant forall t :: Lookup(c.tls.handlers, t)
                            == Lookup(if t in fast && t !in todo then HandlerTls(fast) else old(c.tls).handlers, t)
    {
      SomeMember(todo);
      var t :| t in todo;
      c.tls := c.tls.(handlers := c.tls.handlers[t := Toplevel(t, fast[t].1, HandlerData(fast[t].0))]);
      todo := todo - {t};
    }
    SameMap(c.tls.handlers, old(c.tls).handlers + HandlerTls(fast));
  }

  method SetDbs(c: CanvasRef, fast: map<Tlid, (Db, Pos)>)
    modifies c`tls
    ensures c.tls == old(c.tls).(dbs := old(c.tls).dbs + DbTls(fast))
  {
    var todo := fast.Keys;
    while todo != {}
      invariant todo <= fast.Keys
      invariant c.tls == old(c.tls).(dbs := c.tls.dbs)
      invariant forall t :: Lookup(c.tls.dbs, t)
                            == Lookup(if t in fast && t !in todo then DbTls(fast) else old(c.tls).dbs, t)
    {
      SomeMember(todo);
      var t :| t in todo;
      c.tls := c.tls.(dbs := c.tls.dbs[t := Toplevel(t, fast[t].1, DBData(fast[t].0))]);
      todo := todo - {t};
    }
    SameMap(c.tls.dbs, old(c.tls).dbs + DbTls(fast));
  }

  method SetFns(c: CanvasRef, fast: map<Tlid, UserFn>)
    modifies c`tls
    ensures c.tls == old(c.tls).(userFunctions := old(c.tls).userFunctions + fast)
  {
    var todo := fast.Keys;
    while todo != {}
      invariant todo <= fast.Keys
      invariant c.tls == old(c.tls).(userFunctions := c.tls.userFunctions)
      invariant forall t :: Lookup(c.tls.userFunctions, t)
                            == Lookup(if t in fast && t !in todo then fast else old(c.tls).userFunctions, t)
    {
      SomeMember(todo);
      var t :| t in todo;
      c.tls := c.tls.(userFunctions := c.tls.userFunctions[t := fast[t]]);
      todo := todo - {t};
    }
    SameMap(c.tls.userFunctions, old(c.tls).userFunctions + fast);
  }

  method SetTipes(c: CanvasRef, fast: map<Tlid, UserTipe>)
    modifies c`tls
    ensures c.tls == old(c.tls).(userTipes := old(c.tls).userTipes + fast)
  {
    var todo := fast.Keys;
    while todo != {}
      invariant todo <= fast.Keys
      invariant c.tls == old(c.tls).(userTipes := c.tls.userTipes)
      invariant forall t :: Lookup(c.tls.userTipes, t)
                            == Lookup(if t in fast && t !in todo then fast else old(c.tls).userTipes, t)
    {
      SomeMember(todo);
      var t :| t in todo;
      c.tls := c.tls.(userTipes := c.tls.userTipes[t := fast[t]]);
      todo := todo - {t};
    }
    SameMap(c.tls.userTipes, old(c.tls).userTipes + fast);
  }

  // ---- The live entries of an id

  datatype Live = Live(handler: Option<Toplevel>, db: Option<Toplevel>, fn: Option<UserFn>, tipe: Option<UserTipe>)

  const NOT_LIVE := Live(None, None, None, None)

  function LiveIn(s: Slot): Live {
    Live(s.handler, s.db, s.fn, s.tipe)
  }

  function FastLive(f: FastLoaded, t: Tlid): Live {
    Live(Lookup(HandlerTls(f.handlers), t), Lookup(DbTls(f.dbs), t), Lookup(f.fns, t), Lookup(f.tipes, t))
  }

  // ---- Handlers are stored under their own id

  predicate KeyOk(e: Option<Toplevel>, t: Tlid) {
    e.Some? && e.value.data.HandlerData? ==> e.value.data.handler.tlid == t
  }

  predicate KeysOk(s: Slot, t: Tlid) {
    KeyOk(s.handler, t) && KeyOk(s.deletedHandler, t)
  }

  lemma EditKeepsKeys(edit: TlEdit, t: Tlid, c: Toplevels)
    requires KeysOk(SlotOf(c, t), t) && ApplyToAllToplevels(edit, t, c).Ok?
    ensures KeysOk(SlotOf(ApplyToAllToplevels(edit, t, c).value, t), t)
  {
    var c' := ApplyToAllToplevels(edit, t, c).value;
    assert c'.deletedHandlers == c.deletedHandlers;
    assert KeyOk(Lookup(c.handlers, t), t);
    assert KeyOk(Lookup(c'.handlers, t), t);
  }

  lemma DbEditKeepsKeys(isNew: bool, op: Op, c: Toplevels)
    requires KeysOk(SlotOf(c, TlidOf(op)), TlidOf(op)) && EditsDb(op) && ApplyOp(isNew, op, c).Ok?
    ensures KeysOk(SlotOf(ApplyOp(isNew, op, c).value, TlidOf(op)), TlidOf(op))
  {
    DbOpApplies(isNew, op, c);
  }

  lemma DeleteKeepsKeys(t: Tlid, c: Toplevels)
    requires KeysOk(SlotOf(c, t), t)
    ensures KeysOk(SlotOf(DeleteToplevel(t, c), t), t)
  {
    assert KeyOk(Lookup(c.handlers, t), t);
  }

  lemma OtherOpKeepsKeys(isNew: bool, op: Op, c: Toplevels)
    requires KeysOk(SlotOf(c, TlidOf(op)), TlidOf(op)) && ApplyOp(isNew, op, c).Ok?
    requires op.SetHandler? ==> op.handler.tlid == op.tlid
    requires !EditsDb(op) && !op.SetExpr? && !op.MoveTL? && !op.DeleteTL?
    ensures KeysOk(SlotOf(ApplyOp(isNew, op, c).value, TlidOf(op)), TlidOf(op))
  {}

  lemma OpKeepsKeys(isNew: bool, op: Op, c: Toplevels)
    requires KeysOk(SlotOf(c, TlidOf(op)), TlidOf(op)) && ApplyOp(isNew, op, c).Ok?
    requires op.SetHandler? ==> op.handler.tlid == op.tlid
    ensures KeysOk(SlotOf(ApplyOp(isNew, op, c).value, TlidOf(op)), TlidOf(op))
  {
    var t := TlidOf(op);
    if EditsDb(op) {
      DbEditKeepsKeys(isNew, op, c);
    } else if op.SetExpr? {
      EditKeepsKeys(SetTlExpr(op.id, op.expr), t, c);
    } else if op.MoveTL? {
      EditKeepsKeys(Move(op.pos), t, c);
    } else if op.DeleteTL? {
      DeleteKeepsKeys(t, c);
    } else {
      OtherOpKeepsKeys(isNew, op, c);
    }
  }

  lemma {:induction false} ReplayKeepsKeys(ops: seq<FlaggedOp>, c: Toplevels, t: Tlid)
    requires KeysOk(SlotOf(c, t), t) && Replay(ops, c).Ok?
    requires forall i :: 0 <= i < |ops| && ops[i].1.SetHandler? ==> ops[i].1.handler.tlid == ops[i].1.tlid
    ensures KeysOk(SlotOf(Replay(ops, c).value, t), t)
    decreases |ops|
  {
    if |ops| == 0 {
    } else {
      if TlidOf(ops[0].1) == t {
        OpKeepsKeys(ops[0].0, ops[0].1, c);
      } else {
        OpIsLocal(ops[0].0, ops[0].1, c, c);
      }
      ReplayKeepsKeys(ops[1..], ApplyOp(ops[0].0, ops[0].1, c).value, t);
    }
  }

  lemma {:induction false} BuiltKeysOk(ops: seq<Op>, t: Tlid)
    requires WellKeyed(ops) && BuildOf(ops).Ok?
    ensures KeysOk(SlotOf(BuildOf(ops).value, t), t)
  {
    var flagged := Flag(false, ops);
    assert flagged + Flag(true, []) == flagged;
    FlagIndex(false, ops);
    var reduced := Preprocess(flagged).value;
    forall i | 0 <= i < |reduced| && reduced[i].1.SetHandler?
      ensures reduced[i].1.handler.tlid == reduced[i].1.tlid
    {
      PreprocessInvents(flagged, reduced[i]);
    }
    ReplayKeepsKeys(reduced, EMPTY, t);
  }

  // ---- A row serves what its oplist builds

  /** The slot the oplist of a good row builds. */
  ghost function SlotOfRow(t: Tlid, row: Row): Slot
    requires RowOk(t, row)
  {
    SlotOf(BuildOf(row.oplist).value, t)
  }

  lemma {:induction false} SlotOfRowIsGood(t: Tlid, row: Row) returns (k: Kind)
    requires RowOk(t, row)
    ensures SlotOk(SlotOfRow(t, row), t) && KeysOk(SlotOfRow(t, row), t) && OnlyKind(SlotOfRow(t, row), k)
  {
    k :| CreatesOnly(row.oplist, k);
    BuildLeavesOnlyKind(row.oplist, t, k);
    EveryBuiltCanvasIsWellFormed(row.oplist, []);
    BuiltKeysOk(row.oplist, t);
  }

  /** The fast loader's reading of one row on its own. */
  function RowLive(t: Tlid, row: Row): Live {
    match AddFast(row, NO_FAST) case Some(f) => FastLive(f, t) case None => NOT_LIVE
  }

  /** If a row is marked live, its rendered copy is the one live entry its oplist builds,
      and it is filed under the row's id; if it is marked deleted, nothing is live. */
  lemma RowServesItsOplist(t: Tlid, row: Row, s: Slot, k: Kind)
    requires SlotOk(s, t) && KeysOk(s, t) && OnlyKind(s, k) && row == RowFor(row.oplist, s)
    ensures row.deleted == Some(false) ==> RowLive(t, row) == LiveIn(s)
    ensures row.deleted == Some(false) ==> row.rendered.Some? && RenderedTlid(row.rendered.value) == t
                                           && (row.tipe.TLHandler? || row.tipe.TLDB? ==> row.pos.Some?)
    ensures row.deleted != Some(false) ==> LiveIn(s) == NOT_LIVE
  {}

  function RenderedTlid(r: Rendered): Tlid {
    match r
    case RenderedHandler(h) => h.tlid
    case RenderedDb(db) => db.tlid
    case RenderedFn(fn) => fn.tlid
    case RenderedTipe(ut) => ut.tlid
  }

  /** Adding a live row to what was already loaded adds the entries of its own id only. */
  lemma AddFastAddsRow(t: Tlid, row: Row, acc: FastLoaded)
    requires row.rendered.Some? && RenderedTlid(row.rendered.value) == t
    requires FastLive(acc, t) == NOT_LIVE
    ensures AddFast(row, acc).Some?
    ensures FastLive(AddFast(row, acc).value, t) == RowLive(t, row)
    ensures forall u :: u != t ==> FastLive(AddFast(row, acc).value, u) == FastLive(acc, u)
  {
    assert Lookup(HandlerTls(acc.handlers), t) == None && Lookup(DbTls(acc.dbs), t) == None;
    assert Lookup(acc.fns, t) == None && Lookup(acc.tipes, t) == None;
  }

  ghost predicate Distinct(ts: seq<Tlid>) {
    forall i, j :: 0 <= i < j < |ts| ==> ts[i] != ts[j]
  }

  ghost predicate AllFastSelectable(rows: Rows, tlids: seq<Tlid>, fetched: seq<Tlid>) {
    forall t :: t in fetched ==> FastSelectable(rows, tlids, t)
  }

  lemma {:induction false} FastLoadAddsRows(rows: Rows, tlids: seq<Tlid>, fetched: seq<Tlid>, acc: FastLoaded, t: Tlid)
    requires StoreOk(rows) && AllFastSelectable(rows, tlids, fetched) && Distinct(fetched)
    requires forall u :: u in fetched ==> FastLive(acc, u) == NOT_LIVE
    ensures FastLoad(rows, fetched, acc).Some?
    ensures FastLive(FastLoad(rows, fetched, acc).value, t)
         == if t in fetched then LiveIn(SlotOfRow(t, rows[t])) else FastLive(acc, t)
  {
    if |fetched| == 0 {
    } else {
      var u := fetched[0];
      assert FastSelectable(rows, tlids, u) && RowOk(u, rows[u]);
      var k := SlotOfRowIsGood(u, rows[u]);
      RowServesItsOplist(u, rows[u], SlotOfRow(u, rows[u]), k);
      AddFastAddsRow(u, rows[u], acc);
      forall v | v in fetched[1..] ensures v != u {
        var i :| 0 <= i < |fetched[1..]| && fetched[1..][i] == v;
        assert fetched[i + 1] == v;
      }
      FastLoadAddsRows(rows, tlids, fetched[1..], AddFast(rows[u], acc).value, t);
    }
  }

  /** Over a good store the fast loader never fails, and what it finds live of an id is what
      the id's oplist builds, for the ids it read. */
  lemma {:induction false} FastLoadIsExact(rows: Rows, tlids: seq<Tlid>, fetched: seq<Tlid>, t: Tlid)
    requires StoreOk(rows) && AllFastSelectable(rows, tlids, fetched) && Distinct(fetched)
    ensures FastLoad(rows, fetched, NO_FAST).Some?
    ensures FastLive(FastLoad(rows, fetched, NO_FAST).value, t)
         == if t in fetched then LiveIn(SlotOfRow(t, rows[t])) else NOT_LIVE
  {
    assert forall u :: FastLive(NO_FAST, u) == NOT_LIVE;
    FastLoadAddsRows(rows, tlids, fetched, NO_FAST, t);
  }

  lemma LiveMeansLoaded(f: FastLoaded, t: Tlid)
    ensures FastLive(f, t) != NOT_LIVE <==> t in FastTlids(f)
  {}

  lemma {:induction false} NotLoadedMembers(tlids: seq<Tlid>, f: FastLoaded, t: Tlid)
    ensures t in NotLoaded(tlids, f) <==> t in tlids && t !in FastTlids(f)
  {
    if |tlids| == 0 {
    } else {
      NotLoadedMembers(tlids[1..], f, t);
    }
  }

  lemma {:induction false} LiveRowIsNotEmpty(t: Tlid, row: Row)
    requires RowOk(t, row) && row.deleted == Some(false)
    ensures LiveIn(SlotOfRow(t, row)) != NOT_LIVE
  {
    var k := SlotOfRowIsGood(t, row);
    RowServesItsOplist(t, row, SlotOfRow(t, row), k);
    LiveRowShape(row.oplist, SlotOfRow(t, row));
  }

  lemma LiveRowShape(oplist: seq<Op>, s: Slot)
    requires RowFor(oplist, s).deleted == Some(false)
    ensures LiveIn(s) != NOT_LIVE
  {}

  /** The slot of an id in the merged canvas: live entries as loaded fast, or, if the id
      was not, as the uncached canvas has them; deleted entries as the latter has them. */
  lemma MergedSlot(c: Toplevels, f: FastLoaded, t: Tlid)
    requires FastLive(f, t) == NOT_LIVE || LiveIn(SlotOf(c, t)) == NOT_LIVE
    ensures var s := SlotOf(Merge(c, f), t);
            LiveIn(s) == (if FastLive(f, t) == NOT_LIVE then LiveIn(SlotOf(c, t)) else FastLive(f, t))
            && s.deletedHandler == Lookup(c.deletedHandlers, t) && s.deletedDb == Lookup(c.deletedDbs, t)
            && s.deletedFn == Lookup(c.deletedUserFunctions, t) && s.deletedTipe == Lookup(c.deletedUserTipes, t)
  {
    assert Lookup(HandlerTls(f.handlers), t) == FastLive(f, t).handler;
    assert Lookup(DbTls(f.dbs), t) == FastLive(f, t).db;
    assert Lookup(f.fns, t) == FastLive(f, t).fn && Lookup(f.tipes, t) == FastLive(f, t).tipe;
    assert Lookup(c.handlers, t) == SlotOf(c, t).handler && Lookup(c.dbs, t) == SlotOf(c, t).db;
    assert Lookup(c.userFunctions, t) == SlotOf(c, t).fn && Lookup(c.userTipes, t) == SlotOf(c, t).tipe;
  }

  ghost predicate CacheLoads(rows: Rows, tlids: seq<Tlid>, fetched: seq<Tlid>, undeletedOnly: bool,
                             uncached: seq<Group>)
  {
    && StoreOk(rows) && AllFastSelectable(rows, tlids, fetched) && Distinct(fetched)
    && FastLoad(rows, fetched, NO_FAST).Some?
    && IsSelection(uncached, rows,
                   SelectedBy(rows, NotLoaded(tlids, FastLoad(rows, fetched, NO_FAST).value), undeletedOnly))
  }

  /** What load_from_cache has for an id against what its oplist builds. */
  lemma {:induction false} CacheAgreesPerId(rows: Rows, tlids: seq<Tlid>, fetched: seq<Tlid>, undeletedOnly: bool,
                                            uncached: seq<Group>, t: Tlid)
    requires CacheLoads(rows, tlids, fetched, undeletedOnly, uncached)
    ensures BuildOf(Flatten(uncached)).Ok?
    ensures var merged := SlotOf(Merge(BuildOf(Flatten(uncached)).value, FastLoad(rows, fetched, NO_FAST).value), t);
            var full := if t in tlids && t in rows then SlotOf(BuildOf(rows[t].oplist).value, t) else NOTHING;
            LiveIn(merged) == LiveIn(full) && (!undeletedOnly ==> merged == full)
  {
    var f := FastLoad(rows, fetched, NO_FAST).value;
    var selected := SelectedBy(rows, NotLoaded(tlids, f), undeletedOnly);
    LoadBuildsSlots(rows, uncached, selected, t);
    var c := BuildOf(Flatten(uncached)).value;
    FastLoadIsExact(rows, tlids, fetched, t);
    NotLoadedMembers(tlids, f, t);
    LiveMeansLoaded(f, t);
    MergedSlot(c, f, t);
    if t in tlids && t in rows {
      var k := SlotOfRowIsGood(t, rows[t]);
      RowServesItsOplist(t, rows[t], SlotOfRow(t, rows[t]), k);
      if t in fetched {
        assert FastSelectable(rows, tlids, t);
        LiveRowIsNotEmpty(t, rows[t]);
        OneKindOneState(SlotOfRow(t, rows[t]), t, k);
      }
    } else {
      assert t in fetched ==> FastSelectable(rows, tlids, t);
    }
  }

  lemma OneKindOneState(s: Slot, t: Tlid, k: Kind)
    requires SlotOk(s, t) && OnlyKind(s, k) && LiveIn(s) != NOT_LIVE
    ensures s.deletedHandler == None && s.deletedDb == None && s.deletedFn == None && s.deletedTipe == None
  {}

  /** Cache agreement. Over any store that saves can reach, whichever of the live rows the
      fast loader could read, the canvas load_from_cache returns has the live handlers, dbs,
      functions and types of a full replay of the requested rows; with load_only_tlids as
      the uncached loader it is that canvas altogether. */
  lemma {:induction false} CacheAgreement(rows: Rows, tlids: seq<Tlid>, fetched: seq<Tlid>, undeletedOnly: bool,
                                          uncached: seq<Group>, all: seq<Group>)
    requires CacheLoads(rows, tlids, fetched, undeletedOnly, uncached)
    requires IsSelection(all, rows, SelectedBy(rows, tlids, false))
    ensures BuildOf(Flatten(uncached)).Ok? && BuildOf(Flatten(all)).Ok?
    ensures var cached := Merge(BuildOf(Flatten(uncached)).value, FastLoad(rows, fetched, NO_FAST).value);
            var full := BuildOf(Flatten(all)).value;
            && cached.handlers == full.handlers && cached.dbs == full.dbs
            && cached.userFunctions == full.userFunctions && cached.userTipes == full.userTipes
            && (!undeletedOnly ==> cached == full)
  {
    CacheAgreesPerId(rows, tlids, fetched, undeletedOnly, uncached, 0);
    LoadBuildsSlots(rows, all, SelectedBy(rows, tlids, false), 0);
    var cached := Merge(BuildOf(Flatten(uncached)).value, FastLoad(rows, fetched, NO_FAST).value);
    var full := BuildOf(Flatten(all)).value;
    forall t
      ensures LiveIn(SlotOf(cached, t)) == LiveIn(SlotOf(full, t))
      ensures !undeletedOnly ==> SlotOf(cached, t) == SlotOf(full, t)
    {
      CacheAgreesPerId(rows, tlids, fetched, undeletedOnly, uncached, t);
      LoadBuildsSlots(rows, all, SelectedBy(rows, tlids, false), t);
    }
    SameLiveMaps(cached, full);
    if !undeletedOnly { SameSlotsSameMaps(cached, full); }
  }

  lemma SameLiveMaps(c: Toplevels, d: Toplevels)
    requires forall t :: LiveIn(SlotOf(c, t)) == LiveIn(SlotOf(d, t))
    ensures c.handlers == d.handlers && c.dbs == d.dbs
    ensures c.userFunctions == d.userFunctions && c.userTipes == d.userTipes
  {
    forall t
      ensures Lookup(c.handlers, t) == Lookup(d.handlers, t) && Lookup(c.dbs, t) == Lookup(d.dbs, t)
      ensures Lookup(c.userFunctions, t) == Lookup(d.userFunctions, t)
      ensures Lookup(c.userTipes, t) == Lookup(d.userTipes, t)
    {
      assert LiveIn(SlotOf(c, t)) == LiveIn(SlotOf(d, t));
    }
    SameMap(c.handlers, d.handlers);
    SameMap(c.dbs, d.dbs);
    SameMap(c.userFunctions, d.userFunctions);
    SameMap(c.userTipes, d.userTipes);
  }

  // ---- The conditions on stored oplists are needed

  function LiveCount(s: Slot): nat {
    (if s.handler.Some? then 1 else 0) + (if s.db.Some? then 1 else 0)
    + (if s.fn.Some? then 1 else 0) + (if s.tipe.Some? then 1 else 0)
  }

  /** The row written for `s` leads a cached load of it to the entries live in `s`: a row
      marked live by what is decoded from it, any other row by contributing nothing. */
  predicate RowAgrees(t: Tlid, row: Row, s: Slot) {
    LiveIn(s) == if row.deleted == Some(false) then RowLive(t, row) else NOT_LIVE
  }

  /** It does so exactly when the entry it renders is the only live one of the id, and a
      handler is kept under its own id. Oplists that create one kind of toplevel with the
      handler's own id are such; a handler and a DB under one id are not. */
  lemma RowAgreesIff(t: Tlid, oplist: seq<Op>, s: Slot)
    requires SlotOk(s, t)
    ensures RowAgrees(t, RowFor(oplist, s), s)
        <==> LiveCount(s) == (if RowFor(oplist, s).deleted == Some(false) then 1 else 0)
             && (s.handler.Some? ==> s.handler.value.data.handler.tlid == t)
  {
    var row := RowFor(oplist, s);
    if s.handler.Some? {
      var h := s.handler.value.data.handler;
      assert row.rendered == Some(RenderedHandler(h));
    }
  }
}
