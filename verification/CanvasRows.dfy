/** What a stored row says about its toplevel (canvas.ml, serialize_only), and what the loads
    that skip deleted rows return (serialize.ml). */
module CanvasRows {
  import opened Common
  import opened CanvasTypes
  import opened CanvasReplay
  import opened CanvasInvariant
  import opened CanvasKinds
  import opened CanvasStore
  import opened CanvasCache

  predicate HasLive(s: Slot) {
    s.handler.Some? || s.db.Some? || s.fn.Some? || s.tipe.Some?
  }

  predicate HasDeleted(s: Slot) {
    s.deletedHandler.Some? || s.deletedDb.Some? || s.deletedFn.Some? || s.deletedTipe.Some?
  }

  /** The rendered copy, position and type of a row are those of the entry. */
  predicate Shows(row: Row, rendered: Rendered, deleted: bool, pos: Option<Pos>, tipe: TlTipe) {
    row.rendered == Some(rendered) && row.deleted == Some(deleted) && row.pos == pos && row.tipe == tipe
  }

  /** The row shows the one entry the id has, live or deleted; if it has none the row is marked
      neither and shows nothing. */
  ghost predicate ShowsSlot(row: Row, s: Slot) {
    && (row.deleted == Some(false) <==> HasLive(s))
    && (row.deleted == Some(true) <==> HasDeleted(s))
    && (row.deleted == None <==> s == NOTHING)
    && ShowsHandler(row, s.handler, false) && ShowsHandler(row, s.deletedHandler, true)
    && ShowsDb(row, s.db, false) && ShowsDb(row, s.deletedDb, true)
    && (s.fn.Some? ==> Shows(row, RenderedFn(s.fn.value), false, None, TLUserFunction))
    && (s.deletedFn.Some? ==> Shows(row, RenderedFn(s.deletedFn.value), true, None, TLUserFunction))
    && (s.tipe.Some? ==> Shows(row, RenderedTipe(s.tipe.value), false, None, TLUserTipe))
    && (s.deletedTipe.Some? ==> Shows(row, RenderedTipe(s.deletedTipe.value), true, None, TLUserTipe))
    && (s == NOTHING ==> row.rendered == None && row.pos == None && row.tipe == TLHandler)
  }

  ghost predicate ShowsHandler(row: Row, e: Option<Toplevel>, deleted: bool) {
    e.Some? ==>
      e.value.data.HandlerData?
      && Shows(row, RenderedHandler(e.value.data.handler), deleted, Some(e.value.pos), TLHandler)
  }

  ghost predicate ShowsDb(row: Row, e: Option<Toplevel>, deleted: bool) {
    e.Some? ==>
      e.value.data.DBData? && Shows(row, RenderedDb(e.value.data.db), deleted, Some(e.value.pos), TLDB)
  }

  lemma RowForShowsSlot(t: Tlid, oplist: seq<Op>, s: Slot, k: Kind)
    requires SlotOk(s, t) && OnlyKind(s, k)
    ensures RowFor(oplist, s).oplist == oplist && ShowsSlot(RowFor(oplist, s), s)
  {
    match k
    case HandlerKind =>
    case DbKind =>
    case FnKind =>
    case TipeKind =>
  }

  /** A good row shows what its oplist builds. */
  lemma {:induction false} RowShowsItsSlot(t: Tlid, row: Row)
    requires RowOk(t, row)
    ensures ShowsSlot(row, SlotOfRow(t, row))
  {
    var k := SlotOfRowIsGood(t, row);
    RowForShowsSlot(t, row.oplist, SlotOfRow(t, row), k);
  }

  /** load_only_undeleted_tlids over a good store builds, of the requested ids, exactly the
      slots without a deleted entry. */
  lemma {:induction false} UndeletedLoadBuilds(rows: Rows, tlids: seq<Tlid>, groups: seq<Group>, t: Tlid)
    requires StoreOk(rows) && IsSelection(groups, rows, SelectedBy(rows, tlids, true))
    ensures BuildOf(Flatten(groups)).Ok?
    ensures SlotOf(BuildOf(Flatten(groups)).value, t)
         == if t in tlids && t in rows && !HasDeleted(SlotOf(BuildOf(rows[t].oplist).value, t))
            then SlotOf(BuildOf(rows[t].oplist).value, t) else NOTHING
  {
    LoadBuildsSlots(rows, groups, SelectedBy(rows, tlids, true), t);
    if t in rows {
      assert RowOk(t, rows[t]);
      RowShowsItsSlot(t, rows[t]);
    }
  }

  /** The fast loader selects exactly the requested rows whose id has a live entry. */
  lemma {:induction false} FastSelectableIffLive(rows: Rows, tlids: seq<Tlid>, t: Tlid)
    requires StoreOk(rows)
    ensures FastSelectable(rows, tlids, t)
        <==> t in tlids && t in rows && HasLive(SlotOf(BuildOf(rows[t].oplist).value, t))
  {
    if t in rows {
      assert RowOk(t, rows[t]);
      RowShowsItsSlot(t, rows[t]);
    }
  }
}
