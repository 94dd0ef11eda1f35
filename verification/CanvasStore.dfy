/** The stored rows of a canvas: saving them (serialize_only) and loading their oplists
    (canvas.ml, serialize.ml). */
module CanvasStore {
  import opened Common
  import opened CanvasTypes
  import opened CanvasOps
  import opened CanvasReplay
  import opened CanvasInvariant
  import opened CanvasKinds
  import opened Undo

  /** The copy of a toplevel kept beside its oplist. */
  datatype Rendered =
    | RenderedHandler(handler: Handler)
    | RenderedDb(db: Db)
    | RenderedFn(fn: UserFn)
    | RenderedTipe(ut: UserTipe)

  datatype TlTipe = TLHandler | TLDB | TLUserFunction | TLUserTipe

  datatype Row = Row(
    oplist: seq<Op>, rendered: Option<Rendered>, deleted: Option<bool>, pos: Option<Pos>, tipe: TlTipe)

  type Rows = map<Tlid, Row>

  // ---- Saving

  function RenderHandler(e: Option<Toplevel>, deleted: bool, oplist: seq<Op>): Option<Row> {
    if e.Some? && e.value.data.HandlerData? then
      Some(Row(oplist, Some(RenderedHandler(e.value.data.handler)), Some(deleted), Some(e.value.pos), TLHandler))
    else None
  }

  function RenderDb(e: Option<Toplevel>, deleted: bool, oplist: seq<Op>): Option<Row> {
    if e.Some? && e.value.data.DBData? then
      Some(Row(oplist, Some(RenderedDb(e.value.data.db)), Some(deleted), Some(e.value.pos), TLDB))
    else None
  }

  function RenderFn(e: Option<UserFn>, deleted: bool, oplist: seq<Op>): Option<Row> {
    if e.Some? then Some(Row(oplist, Some(RenderedFn(e.value)), Some(deleted), None, TLUserFunction)) else None
  }

  function RenderTipe(e: Option<UserTipe>, deleted: bool, oplist: seq<Op>): Option<Row> {
    if e.Some? then Some(Row(oplist, Some(RenderedTipe(e.value)), Some(deleted), None, TLUserTipe)) else None
  }

  function OrElse(a: Option<Row>, b: Option<Row>): Option<Row> {
    if a.Some? then a else b
  }

  /** The row written for an id: the first entry found, kind by kind, live before deleted.
      If there is none the row has only its oplist. */
  function RowFor(oplist: seq<Op>, s: Slot): Row {
    var found :=
      OrElse(RenderHandler(s.handler, false, oplist),
      OrElse(RenderHandler(s.deletedHandler, true, oplist),
      OrElse(RenderDb(s.db, false, oplist),
      OrElse(RenderDb(s.deletedDb, true, oplist),
      OrElse(RenderFn(s.fn, false, oplist),
      OrElse(RenderFn(s.deletedFn, true, oplist),
      OrElse(RenderTipe(s.tipe, false, oplist),
             RenderTipe(s.deletedTipe, true, oplist))))))));
    if found.Some? then found.value else Row(oplist, None, None, None, TLHandler)
  }

  /** The rows after serialize_only has gone through `groups`. */
  function Saved(rows: Rows, tlids: seq<Tlid>, groups: seq<Group>, c: Toplevels): Rows
    decreases |groups|
  {
    if |groups| == 0 then rows
    else
      var (t, oplist) := groups[0];
      Saved(if t in tlids then rows[t := RowFor(oplist, SlotOf(c, t))] else rows, tlids, groups[1..], c)
  }

  class ToplevelTable {
    var rows: Rows

    constructor ()
      ensures rows == map[]
    {
      rows := map[];
    }

    /** serialize_only. */
    method SerializeOnly(tlids: seq<Tlid>, groups: seq<Group>, c: Toplevels)
      modifies this
      ensures rows == Saved(old(rows), tlids, groups, c)
    {
      for i := 0 to |groups|
        invariant Saved(old(rows), tlids, groups, c) == Saved(rows, tlids, groups[i..], c)
      {
        var (t, oplist) := groups[i];
        assert groups[i..][1..] == groups[i + 1..];
        if t in tlids {
          rows := rows[t := RowFor(oplist, SlotOf(c, t))];
        }
      }
    }
  }

  lemma {:induction false} SavedRow(rows: Rows, tlids: seq<Tlid>, groups: seq<Group>, c: Toplevels, t: Tlid)
    ensures var after := Saved(rows, tlids, groups, c);
            (t in after && (t !in rows || after[t] != rows[t])
             ==> exists i :: 0 <= i < |groups| && groups[i].0 == t && after[t] == RowFor(groups[i].1, SlotOf(c, t)))
            && (t in rows ==> t in after)
    decreases |groups|
  {
    if |groups| == 0 {
    } else {
      var (u, oplist) := groups[0];
      var rows' := if u in tlids then rows[u := RowFor(oplist, SlotOf(c, u))] else rows;
      SavedRow(rows', tlids, groups[1..], c, t);
      var after := Saved(rows, tlids, groups, c);
      if t in after && (t !in rows' || after[t] != rows'[t]) {
        var i :| 0 <= i < |groups[1..]| && groups[1..][i].0 == t && after[t] == RowFor(groups[1..][i].1, SlotOf(c, t));
        assert groups[i + 1] == groups[1..][i];
      } else if t in after && (t !in rows || after[t] != rows[t]) {
        assert u == t;
      }
    }
  }

  /** A saved row is written from its own group ... */
  lemma {:induction false} SavedRequested(rows: Rows, tlids: seq<Tlid>, groups: seq<Group>, c: Toplevels, k: nat)
    requires DistinctTlids(groups) && k < |groups| && groups[k].0 in tlids
    ensures Lookup(Saved(rows, tlids, groups, c), groups[k].0) == Some(RowFor(groups[k].1, SlotOf(c, groups[k].0)))
    decreases |groups|
  {
    var (t, oplist) := groups[0];
    var rows' := if t in tlids then rows[t := RowFor(oplist, SlotOf(c, t))] else rows;
    if k == 0 {
      SavedOthers(rows', tlids, groups[1..], c, t);
    } else {
      SavedRequested(rows', tlids, groups[1..], c, k - 1);
    }
  }

  /** ... and every other row stays as it was. */
  lemma {:induction false} SavedOthers(rows: Rows, tlids: seq<Tlid>, groups: seq<Group>, c: Toplevels, t: Tlid)
    requires t !in tlids || forall i :: 0 <= i < |groups| ==> groups[i].0 != t
    ensures Lookup(Saved(rows, tlids, groups, c), t) == Lookup(rows, t)
    decreases |groups|
  {
    if |groups| == 0 {
    } else {
      var (u, oplist) := groups[0];
      SavedOthers(if u in tlids then rows[u := RowFor(oplist, SlotOf(c, u))] else rows, tlids, groups[1..], c, t);
    }
  }

  // ---- What every stored row is

  predicate WellKeyed(ops: seq<Op>) {
    forall i :: 0 <= i < |ops| ==> ops[i].SetHandler? ==> ops[i].handler.tlid == ops[i].tlid
  }

  /** The row of `t` is the rendering of its own oplist. */
  ghost predicate RowOk(t: Tlid, row: Row) {
    && AllOf(row.oplist, t) && WellKeyed(row.oplist) && SingleKind(row.oplist) && CancelsCleanly(row.oplist)
    && BuildOf(row.oplist).Ok?
    && row == RowFor(row.oplist, SlotOf(BuildOf(row.oplist).value, t))
  }

  ghost predicate StoreOk(rows: Rows) {
    forall t :: t in rows ==> RowOk(t, rows[t])
  }

  /** The ops of a request and of the rows it loaded can be saved: they build, and each id's
      oplist creates one kind of toplevel, under its own id, with no unmatched redo. */
  ghost predicate CanSave(oldops: seq<Op>, newops: seq<Op>) {
    && Build(EMPTY, oldops, newops).Ok?
    && !LeadingRedo(oldops + newops)
    && WellKeyed(oldops + newops)
    && forall t :: SingleKind(OfTlid(oldops + newops, t))
  }

  lemma {:induction false} OfTlidKeepsKeys(ops: seq<Op>, t: Tlid)
    requires WellKeyed(ops)
    ensures WellKeyed(OfTlid(ops, t))
  {
    if |ops| == 0 {
    } else {
      assert WellKeyed(ops[1..]);
      OfTlidKeepsKeys(ops[1..], t);
    }
  }

  /** The slot add_ops leaves for an id is what that id's oplist alone builds, so the row
      written for it is the rendering of its own oplist, whatever else was loaded. */
  lemma {:induction false} WrittenRowOk(oldops: seq<Op>, newops: seq<Op>, t: Tlid)
    requires CanSave(oldops, newops)
    ensures RowOk(t, RowFor(OfTlid(oldops + newops, t), SlotOf(Build(EMPTY, oldops, newops).value, t)))
  {
    var ops := oldops + newops;
    NewOpsReplayAsOld(oldops, newops);
    BuildPerId(ops, t);
    OfTlidAreOwn(ops, t);
    OfTlidKeepsKeys(ops, t);
    assert Flag(false, ops) + Flag(true, []) == Flag(false, ops);
    GroupCancels(ops, t);
    assert SingleKind(OfTlid(ops, t));
  }

  /** Saving, of any ids, keeps every row the rendering of its own oplist. */
  lemma {:induction false} SaveKeepsStoreOk(rows: Rows, tlids: seq<Tlid>, oldops: seq<Op>, newops: seq<Op>)
    requires StoreOk(rows) && CanSave(oldops, newops)
    ensures StoreOk(Saved(rows, tlids, GroupByTlid(oldops + newops), Build(EMPTY, oldops, newops).value))
  {
    var groups, c := GroupByTlid(oldops + newops), Build(EMPTY, oldops, newops).value;
    var after := Saved(rows, tlids, groups, c);
    forall t | t in after ensures RowOk(t, after[t]) {
      SavedRow(rows, tlids, groups, c, t);
      WrittenRowOk(oldops, newops, t);
    }
  }

  /** One request: some ids of a canvas built from any ops are saved. Loads change no row;
      the ops may come from any earlier load, by this or any other request. */
  ghost predicate SaveStep(before: Rows, after: Rows) {
    exists tlids: seq<Tlid>, oldops: seq<Op>, newops: seq<Op> ::
      CanSave(oldops, newops)
      && after == Saved(before, tlids, GroupByTlid(oldops + newops), Build(EMPTY, oldops, newops).value)
  }

  /** After any sequence of saves, every row is the rendering of its own oplist. */
  lemma {:induction false} EveryReachableStoreIsOk(history: seq<Rows>)
    requires |history| > 0 && history[0] == map[]
    requires forall i :: 0 <= i < |history| - 1 ==> SaveStep(history[i], history[i + 1])
    ensures StoreOk(history[|history| - 1])
  {
    var n := |history| - 1;
    if n > 0 {
      EveryReachableStoreIsOk(history[..n]);
      assert SaveStep(history[n - 1], history[n]);
      var tlids, oldops, newops :|
        CanSave(oldops, newops)
        && history[n] == Saved(history[n - 1], tlids, GroupByTlid(oldops + newops), Build(EMPTY, oldops, newops).value);
      SaveKeepsStoreOk(history[n - 1], tlids, oldops, newops);
    }
  }

  // ---- Loading oplists

  /** A load by SQL: the oplists of the rows of `selected`, in any order. */
  ghost predicate IsSelection(groups: seq<Group>, rows: Rows, selected: set<Tlid>) {
    && DistinctTlids(groups)
    && (forall i :: 0 <= i < |groups| ==> groups[i].0 in selected && groups[i].0 in rows
                                          && groups[i].1 == rows[groups[i].0].oplist)
    && (forall t :: t in selected && t in rows ==> HasGroup(groups, t))
  }

  function Requested(tlids: seq<Tlid>): set<Tlid> {
    set t | t in tlids
  }

  /** load_only_tlids and load_only_undeleted_tlids: which rows they select. */
  function SelectedBy(rows: Rows, tlids: seq<Tlid>, undeletedOnly: bool): set<Tlid> {
    set t | t in tlids && t in rows && (undeletedOnly ==> rows[t].deleted != Some(true))
  }

  lemma {:induction false} OfTlidOfMissing(groups: seq<Group>, t: Tlid)
    requires forall i :: 0 <= i < |groups| ==> AllOf(groups[i].1, groups[i].0) && groups[i].0 != t
    ensures OfTlid(Flatten(groups), t) == []
  {
    if |groups| == 0 {
    } else {
      OfTlidOfMissing(groups[1..], t);
      OfTlidConcat(groups[0].1, Flatten(groups[1..]), t);
      OfTlidOwn(groups[0].1, groups[0].0, t);
    }
  }

  lemma {:induction false} OfTlidOfOwnGroup(groups: seq<Group>, k: nat)
    requires DistinctTlids(groups) && k < |groups|
    requires forall i :: 0 <= i < |groups| ==> AllOf(groups[i].1, groups[i].0)
    ensures OfTlid(Flatten(groups), groups[k].0) == groups[k].1
  {
    OfTlidConcat(groups[0].1, Flatten(groups[1..]), groups[k].0);
    OfTlidOwn(groups[0].1, groups[0].0, groups[k].0);
    if k == 0 {
      OfTlidOfMissing(groups[1..], groups[0].0);
      assert groups[0].1 + [] == groups[0].1;
    } else {
      OfTlidOfOwnGroup(groups[1..], k - 1);
      assert [] + groups[k].1 == groups[k].1;
    }
  }

  /** Loading rows of a good store builds, id by id, what each row's oplist builds. */
  lemma {:induction false} LoadBuildsSlots(rows: Rows, groups: seq<Group>, selected: set<Tlid>, t: Tlid)
    requires StoreOk(rows) && IsSelection(groups, rows, selected)
    ensures BuildOf(Flatten(groups)).Ok?
    ensures SlotOf(BuildOf(Flatten(groups)).value, t)
         == if t in selected && t in rows then SlotOf(BuildOf(rows[t].oplist).value, t) else NOTHING
  {
    var flat := Flatten(groups);
    forall i | 0 <= i < |groups| ensures CancelsCleanly(groups[i].1) && AllOf(groups[i].1, groups[i].0) {
      assert RowOk(groups[i].0, rows[groups[i].0]);
    }
    GroupsCancel(groups);
    forall u ensures BuildOf(OfTlid(flat, u)).Ok? {
      OplistOfId(rows, groups, selected, u);
      EmptyBuilds();
    }
    BuildSucceeds(flat);
    BuildPerId(flat, t);
    OplistOfId(rows, groups, selected, t);
    EmptyBuilds();
  }

  lemma {:induction false} OplistOfId(rows: Rows, groups: seq<Group>, selected: set<Tlid>, t: Tlid)
    requires StoreOk(rows) && IsSelection(groups, rows, selected)
    requires forall i :: 0 <= i < |groups| ==> AllOf(groups[i].1, groups[i].0)
    ensures OfTlid(Flatten(groups), t) == if t in selected && t in rows then rows[t].oplist else []
    ensures t in selected && t in rows ==> BuildOf(rows[t].oplist).Ok?
  {
    if t in selected && t in rows {
      assert HasGroup(groups, t);
      var k :| 0 <= k < |groups| && groups[k].0 == t;
      OfTlidOfOwnGroup(groups, k);
      assert RowOk(t, rows[t]);
    } else {
      OfTlidOfMissing(groups, t);
    }
  }

  lemma EmptyBuilds()
    ensures BuildOf([]) == Ok(EMPTY)
    ensures forall t :: SlotOf(EMPTY, t) == NOTHING
  {
    assert Flag(false, []) + Flag(true, []) == [];
  }

  // ---- Saving and loading back

  lemma {:induction false} SavedOplist(rows: Rows, tlids: seq<Tlid>, ops: seq<Op>, c: Toplevels, t: Tlid)
    requires (forall u :: u in Tlids(ops, {}) ==> u in tlids) && t in Tlids(ops, {})
    ensures var after := Saved(rows, tlids, GroupByTlid(ops), c);
            t in after && after[t].oplist == OfTlid(ops, t)
  {
    var groups, ts := GroupByTlid(ops), Tlids(ops, {});
    GroupByTlidIsGrouping(ops);
    var k :| 0 <= k < |ts| && ts[k] == t;
    SavedRequested(rows, tlids, groups, c, k);
    assert groups[k] == (t, OfTlid(ops, t));
    RowKeepsOplist(OfTlid(ops, t), SlotOf(c, t));
  }

  lemma RowKeepsOplist(oplist: seq<Op>, s: Slot)
    ensures RowFor(oplist, s).oplist == oplist
  {}

  /** A canvas that was saved whole is loaded back as it was, whatever else the store holds. */
  lemma {:induction false} SaveThenLoad(rows: Rows, tlids: seq<Tlid>, oldops: seq<Op>, newops: seq<Op>,
                                        loaded: seq<Group>)
    requires StoreOk(rows) && CanSave(oldops, newops)
    requires forall t :: t in Tlids(oldops + newops, {}) ==> t in tlids
    requires var after := Saved(rows, tlids, GroupByTlid(oldops + newops), Build(EMPTY, oldops, newops).value);
             IsSelection(loaded, after, Requested(Tlids(oldops + newops, {})))
    ensures BuildOf(Flatten(loaded)) == Build(EMPTY, oldops, newops)
  {
    var ops, c := oldops + newops, Build(EMPTY, oldops, newops).value;
    var after := Saved(rows, tlids, GroupByTlid(ops), c);
    SaveKeepsStoreOk(rows, tlids, oldops, newops);
    NewOpsReplayAsOld(oldops, newops);
    LoadBuildsSlots(after, loaded, Requested(Tlids(ops, {})), 0);
    forall t ensures SlotOf(BuildOf(Flatten(loaded)).value, t) == SlotOf(c, t) {
      LoadBuildsSlots(after, loaded, Requested(Tlids(ops, {})), t);
      BuildPerId(ops, t);
      if t in Tlids(ops, {}) {
        SavedOplist(rows, tlids, ops, c, t);
      } else {
        if |OfTlid(ops, t)| > 0 { TlidsComplete(ops, {}, t); }
        EmptyBuilds();
      }
    }
    SameSlotsSameMaps(BuildOf(Flatten(loaded)).value, c);
  }
}
