/** The check that ends every load (canvas.ml, verify): no two neighbouring datastores, in the
    order of their ids, share a name. */
module CanvasVerify {
  import opened Common
  import opened CanvasTypes

  /** The ids of a map as IDMap lists them. */
  function Ascending(ids: set<Tlid>): seq<Tlid> {
    if ids == {} then []
    else
      HasLowest(ids);
      var x :| x in ids && IsLowest(x, ids);
      [x] + Ascending(ids - {x})
  }

  function DbName(e: Option<Toplevel>): Option<string> {
    if e.Some? && e.value.data.DBData? && e.value.data.db.name.Filled? then Some(e.value.data.db.name.value) else None
  }

  /** The names of the datastores that have one. */
  function DbNames(dbs: map<Tlid, Toplevel>, ids: seq<Tlid>): seq<string> {
    if |ids| == 0 then []
    else
      match DbName(Lookup(dbs, ids[0]))
      case None => DbNames(dbs, ids[1..])
      case Some(name) => [name] + DbNames(dbs, ids[1..])
  }

  predicate Verified(c: Toplevels) {
    var names := DbNames(c.dbs, Ascending(c.dbs.Keys));
    forall i :: 0 <= i < |names| - 1 ==> names[i] != names[i + 1]
  }

  lemma {:induction false} SameDbNames(m: map<Tlid, Toplevel>, n: map<Tlid, Toplevel>, ids: seq<Tlid>)
    requires forall t :: DbName(Lookup(m, t)) == DbName(Lookup(n, t))
    ensures DbNames(m, ids) == DbNames(n, ids)
  {
    if |ids| == 0 {
    } else {
      SameDbNames(m, n, ids[1..]);
    }
  }

  /** verify looks at nothing but which datastores there are and their names. */
  lemma VerifiedAlike(c: Toplevels, d: Toplevels)
    requires forall t :: (t in c.dbs <==> t in d.dbs) && DbName(Lookup(c.dbs, t)) == DbName(Lookup(d.dbs, t))
    ensures Verified(c) <==> Verified(d)
  {
    forall t ensures t in c.dbs.Keys <==> t in d.dbs.Keys { assert t in c.dbs <==> t in d.dbs; }
    assert c.dbs.Keys == d.dbs.Keys;
    SameDbNames(c.dbs, d.dbs, Ascending(c.dbs.Keys));
  }

  // ---- Which canvases are refused

  predicate Nameless(dbs: map<Tlid, Toplevel>, t: Tlid) {
    DbName(Lookup(dbs, t)).None?
  }

  /** `t` and `u` have one name and no named datastore lies between them. */
  ghost predicate Neighbours(dbs: map<Tlid, Toplevel>, t: Tlid, u: Tlid) {
    t < u && !Nameless(dbs, t) && DbName(Lookup(dbs, t)) == DbName(Lookup(dbs, u))
    && forall v :: t < v < u ==> Nameless(dbs, v)
  }

  ghost predicate IsAscending(ids: seq<Tlid>) {
    forall i, j :: 0 <= i < j < |ids| ==> ids[i] < ids[j]
  }

  lemma {:induction false} AscendingAscends(ids: set<Tlid>)
    ensures IsAscending(Ascending(ids))
    ensures forall t :: t in Ascending(ids) <==> t in ids
  {
    if ids == {} {
    } else {
      HasLowest(ids);
      var r := Ascending(ids);
      var x, rest := r[0], r[1..];
      assert IsLowest(x, ids) && rest == Ascending(ids - {x});
      AscendingAscends(ids - {x});
      ConsAscends(x, rest);
      assert r == [x] + rest;
    }
  }

  lemma ConsAscends(x: Tlid, rest: seq<Tlid>)
    requires IsAscending(rest) && forall t :: t in rest ==> x < t
    ensures IsAscending([x] + rest)
  {
    forall i, j | 0 <= i < j < |rest| + 1 ensures ([x] + rest)[i] < ([x] + rest)[j] {
      assert rest[j - 1] in rest;
    }
  }

  /** The ids that have a name, in order. */
  function NamedIds(dbs: map<Tlid, Toplevel>, ids: seq<Tlid>): seq<Tlid> {
    if |ids| == 0 then []
    else if Nameless(dbs, ids[0]) then NamedIds(dbs, ids[1..])
    else [ids[0]] + NamedIds(dbs, ids[1..])
  }

  lemma {:induction false} NamedIdsAreNamed(dbs: map<Tlid, Toplevel>, ids: seq<Tlid>)
    requires IsAscending(ids)
    ensures IsAscending(NamedIds(dbs, ids))
    ensures forall t :: t in NamedIds(dbs, ids) <==> t in ids && !Nameless(dbs, t)
  {
    if |ids| == 0 {
    } else {
      NamedIdsAreNamed(dbs, ids[1..]);
      assert ids == [ids[0]] + ids[1..];
      forall t | t in ids[1..] ensures ids[0] < t {
        var i :| 0 <= i < |ids[1..]| && ids[1..][i] == t;
        assert ids[i + 1] == t;
      }
      ConsAscends(ids[0], NamedIds(dbs, ids[1..]));
    }
  }

  lemma {:induction false} NamesOfNamedIds(dbs: map<Tlid, Toplevel>, ids: seq<Tlid>)
    ensures |DbNames(dbs, ids)| == |NamedIds(dbs, ids)|
    ensures forall i :: 0 <= i < |NamedIds(dbs, ids)| ==>
              DbName(Lookup(dbs, NamedIds(dbs, ids)[i])) == Some(DbNames(dbs, ids)[i])
  {
    if |ids| == 0 {
    } else {
      NamesOfNamedIds(dbs, ids[1..]);
    }
  }

  /** All named ids in order, with their names. */
  ghost predicate Listed(dbs: map<Tlid, Toplevel>, ns: seq<Tlid>, names: seq<string>) {
    && IsAscending(ns) && (forall t :: t in ns <==> !Nameless(dbs, t))
    && |names| == |ns| && forall i :: 0 <= i < |ns| ==> DbName(Lookup(dbs, ns[i])) == Some(names[i])
  }

  lemma AllAreListed(c: Toplevels)
    ensures var ids := Ascending(c.dbs.Keys); Listed(c.dbs, NamedIds(c.dbs, ids), DbNames(c.dbs, ids))
  {
    AscendingAscends(c.dbs.Keys);
    NamedIdsAreNamed(c.dbs, Ascending(c.dbs.Keys));
    NamesOfNamedIds(c.dbs, Ascending(c.dbs.Keys));
  }

  lemma SameNameMeansNeighbours(dbs: map<Tlid, Toplevel>, ns: seq<Tlid>, names: seq<string>, i: nat)
    requires Listed(dbs, ns, names) && i + 1 < |ns| && names[i] == names[i + 1]
    ensures Neighbours(dbs, ns[i], ns[i + 1])
  {
    NextNamed(dbs, ns, i);
    assert ns[i] in ns;
  }

  lemma NeighboursHaveSameName(
    dbs: map<Tlid, Toplevel>, ns: seq<Tlid>, names: seq<string>, t: Tlid, u: Tlid) returns (i: nat)
    requires Listed(dbs, ns, names) && Neighbours(dbs, t, u)
    ensures i + 1 < |names| && names[i] == names[i + 1]
  {
    i := PlaceOf(dbs, ns, t, u);
  }

  /** A canvas is refused exactly when two datastores of one name are neighbours among the
      named ones, in the order of their ids. */
  lemma {:induction false} RefusedIffNeighbours(c: Toplevels)
    ensures !Verified(c) <==> exists t, u :: Neighbours(c.dbs, t, u)
  {
    var ids := Ascending(c.dbs.Keys);
    var ns, names := NamedIds(c.dbs, ids), DbNames(c.dbs, ids);
    AllAreListed(c);
    if !Verified(c) {
      var i :| 0 <= i < |names| - 1 && names[i] == names[i + 1];
      SameNameMeansNeighbours(c.dbs, ns, names, i);
    }
    if t, u :| Neighbours(c.dbs, t, u) { var i := NeighboursHaveSameName(c.dbs, ns, names, t, u); }
  }

  lemma NextNamed(dbs: map<Tlid, Toplevel>, ns: seq<Tlid>, i: nat)
    requires IsAscending(ns) && (forall t :: !Nameless(dbs, t) ==> t in ns) && i + 1 < |ns|
    ensures forall v :: ns[i] < v < ns[i + 1] ==> Nameless(dbs, v)
  {
    forall k | 0 <= k < |ns| ensures !(ns[i] < ns[k] < ns[i + 1]) {
      assert k < i ==> ns[k] < ns[i];
      assert k > i + 1 ==> ns[i + 1] < ns[k];
    }
    forall v | ns[i] < v < ns[i + 1] ensures Nameless(dbs, v) { assert v !in ns; }
  }

  lemma PlaceOf(dbs: map<Tlid, Toplevel>, ns: seq<Tlid>, t: Tlid, u: Tlid) returns (i: nat)
    requires IsAscending(ns) && (forall v :: v in ns <==> !Nameless(dbs, v)) && Neighbours(dbs, t, u)
    ensures i + 1 < |ns| && ns[i] == t && ns[i + 1] == u
  {
    i :| 0 <= i < |ns| && ns[i] == t;
    assert !Nameless(dbs, u);
    var j :| 0 <= j < |ns| && ns[j] == u;
    InOrder(ns, i, j);
    forall k | 0 <= k < |ns| ensures !(t < ns[k] < u) { assert ns[k] in ns; }
  }

  lemma InOrder(ns: seq<Tlid>, i: nat, j: nat)
    requires IsAscending(ns) && i < |ns| && j < |ns|
    ensures j <= i ==> ns[j] <= ns[i]
    ensures i + 1 < j ==> ns[i] < ns[i + 1] < ns[j]
  {}
}
