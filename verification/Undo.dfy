/** Undo preprocessing (undo.ml), and the proof that it works on each toplevel id by
    itself: the ops it keeps for an id depend only on the ops of that id. */
module Undo {
  import opened Common
  import opened CanvasTypes

  // ---- The ops of one id

  function OpsOf(ops: seq<FlaggedOp>, t: Tlid): seq<FlaggedOp> {
    if |ops| == 0 then []
    else if TlidOf(ops[0].1) == t then [ops[0]] + OpsOf(ops[1..], t)
    else OpsOf(ops[1..], t)
  }

  function OpsNotOf(ops: seq<FlaggedOp>, t: Tlid): seq<FlaggedOp> {
    if |ops| == 0 then []
    else if TlidOf(ops[0].1) != t then [ops[0]] + OpsNotOf(ops[1..], t)
    else OpsNotOf(ops[1..], t)
  }

  lemma {:induction false} OpsOfConcat(a: seq<FlaggedOp>, b: seq<FlaggedOp>, t: Tlid)
    ensures OpsOf(a + b, t) == OpsOf(a, t) + OpsOf(b, t)
  {
    if |a| == 0 {
      assert a + b == b;
    } else {
      assert (a + b)[0] == a[0] && (a + b)[1..] == a[1..] + b;
      OpsOfConcat(a[1..], b, t);
    }
  }

  lemma {:induction false} OpsOfOpsNotOf(ops: seq<FlaggedOp>, t: Tlid, u: Tlid)
    ensures OpsOf(OpsNotOf(ops, t), u) == if u == t then [] else OpsOf(ops, u)
  {
    if |ops| == 0 {
    } else {
      OpsOfOpsNotOf(ops[1..], t, u);
    }
  }

  lemma {:induction false} OpsOfOpsOf(ops: seq<FlaggedOp>, t: Tlid, u: Tlid)
    ensures OpsOf(OpsOf(ops, t), u) == if u == t then OpsOf(ops, t) else []
  {
    if |ops| == 0 {
    } else {
      OpsOfOpsOf(ops[1..], t, u);
    }
  }

  // ---- Step 1: remove undo-redo pairs, from the back

  function Combine(op: FlaggedOp, rest: seq<FlaggedOp>): Result<seq<FlaggedOp>, Error> {
    if |rest| == 0 then Ok([op])
    else if op.1.UndoTL? && rest[0].1.RedoTL? && op.1.tlid == rest[0].1.tlid then Ok(rest[1..])
    else if op.1.RedoTL? && rest[0].1.RedoTL? && op.1.tlid == rest[0].1.tlid then Ok([op] + rest)
    else if rest[0].1.RedoTL? then Err(AlreadyAtLatestRedo)
    else Ok([op] + rest)
  }

  function CancelRedos(ops: seq<FlaggedOp>): Result<seq<FlaggedOp>, Error> {
    if |ops| == 0 then Ok([])
    else match CancelRedos(ops[1..])
      case Err(e) => Err(e)
      case Ok(rest) => Combine(ops[0], rest)
  }

  lemma {:induction false} SuffixCancels(a: seq<FlaggedOp>, b: seq<FlaggedOp>)
    requires CancelRedos(a + b).Ok?
    ensures CancelRedos(b).Ok?
  {
    if |a| == 0 {
      assert a + b == b;
    } else {
      assert (a + b)[1..] == a[1..] + b;
      SuffixCancels(a[1..], b);
    }
  }

  // ---- Step 2: each undo removes the ops of its id back to the last savepoint. The
  // list is built in reverse, most recent op first.

  predicate IsSavepoint(op: FlaggedOp, t: Tlid) {
    op.1.TLSavepoint? && op.1.tlid == t
  }

  function CountToSavepoint(acc: seq<FlaggedOp>, t: Tlid): (k: nat)
    ensures k <= |acc|
  {
    if |acc| == 0 || IsSavepoint(acc[0], t) then 0 else 1 + CountToSavepoint(acc[1..], t)
  }

  function Undone(acc: seq<FlaggedOp>, op: FlaggedOp): seq<FlaggedOp> {
    if op.1.UndoTL? then
      var k := CountToSavepoint(acc, op.1.tlid);
      var after := acc[k..];
      OpsNotOf(acc[..k], op.1.tlid) + (if |after| == 0 then [] else after[1..])
    else [op] + acc
  }

  function DropUndone(acc: seq<FlaggedOp>, ops: seq<FlaggedOp>): seq<FlaggedOp>
    decreases |ops|
  {
    if |ops| == 0 then acc else DropUndone(Undone(acc, ops[0]), ops[1..])
  }

  function Preprocess(ops: seq<FlaggedOp>): Result<seq<FlaggedOp>, Error> {
    match CancelRedos(ops)
    case Err(e) => Err(e)
    case Ok(cancelled) => Ok(Reversed(DropUndone([], cancelled)))
  }

  // ---- Step 1 acts on each id by itself

  predicate NoRedo(ops: seq<FlaggedOp>) {
    forall i :: 0 <= i < |ops| ==> !ops[i].1.RedoTL?
  }

  /** Redos survive step 1 only at the very front. */
  predicate RedosInFront(ops: seq<FlaggedOp>)
    decreases |ops|
  {
    |ops| > 0 ==> if ops[0].1.RedoTL? then RedosInFront(ops[1..]) else NoRedo(ops)
  }

  lemma {:induction false} RedosEndUpInFront(ops: seq<FlaggedOp>)
    requires CancelRedos(ops).Ok?
    ensures RedosInFront(CancelRedos(ops).value)
  {
    if |ops| == 0 {
    } else {
      RedosEndUpInFront(ops[1..]);
      var rest := CancelRedos(ops[1..]).value;
      var r := CancelRedos(ops).value;
      if r == [ops[0]] + rest { assert r[1..] == rest; }
    }
  }

  lemma {:induction false} OpsOfNoRedo(ops: seq<FlaggedOp>, t: Tlid)
    requires NoRedo(ops)
    ensures NoRedo(OpsOf(ops, t))
  {
    if |ops| == 0 {
    } else {
      assert NoRedo(ops[1..]);
      OpsOfNoRedo(ops[1..], t);
    }
  }

  lemma {:induction false} CancelRedosPerId(ops: seq<FlaggedOp>, t: Tlid)
    requires CancelRedos(ops).Ok?
    ensures CancelRedos(OpsOf(ops, t)) == Ok(OpsOf(CancelRedos(ops).value, t))
  {
    if |ops| == 0 {
    } else {
      CancelRedosPerId(ops[1..], t);
      RedosEndUpInFront(ops[1..]);
      var rest := CancelRedos(ops[1..]).value;
      CombinePerId(ops[0], rest, t);
      if TlidOf(ops[0].1) == t {
        assert OpsOf(ops, t)[1..] == OpsOf(ops[1..], t);
      }
    }
  }

  lemma {:induction false} CombinePerId(op: FlaggedOp, rest: seq<FlaggedOp>, t: Tlid)
    requires RedosInFront(rest) && Combine(op, rest).Ok?
    ensures TlidOf(op.1) != t ==> OpsOf(Combine(op, rest).value, t) == OpsOf(rest, t)
    ensures TlidOf(op.1) == t ==> Combine(op, OpsOf(rest, t)) == Ok(OpsOf(Combine(op, rest).value, t))
  {
    assert ([op] + rest)[1..] == rest;
    assert [op] + [] == [op];
    if |rest| > 0 && TlidOf(op.1) == t {
      if rest[0].1.RedoTL? {
        assert OpsOf(rest, t)[0] == rest[0] && OpsOf(rest, t)[1..] == OpsOf(rest[1..], t);
      } else {
        OpsOfNoRedo(rest, t);
      }
    }
  }

  // ---- Step 2 acts on each id by itself

  lemma {:induction false} CountPerId(acc: seq<FlaggedOp>, t: Tlid)
    ensures var k := CountToSavepoint(acc, t);
            OpsOf(acc, t)[CountToSavepoint(OpsOf(acc, t), t)..] == OpsOf(acc[k..], t)
  {
    if |acc| > 0 && !IsSavepoint(acc[0], t) {
      CountPerId(acc[1..], t);
      var k := CountToSavepoint(acc[1..], t);
      assert acc[1..][k..] == acc[1 + k..];
      if TlidOf(acc[0].1) == t {
        var o := OpsOf(acc, t);
        assert o[1..] == OpsOf(acc[1..], t);
        assert o[1 + CountToSavepoint(o[1..], t)..] == o[1..][CountToSavepoint(o[1..], t)..];
      }
    } else {
      assert acc[0..] == acc;
      assert OpsOf(acc, t)[0..] == OpsOf(acc, t);
    }
  }

  lemma {:induction false} OpsNotOfOwn(ops: seq<FlaggedOp>, t: Tlid)
    requires forall i :: 0 <= i < |ops| ==> TlidOf(ops[i].1) == t
    ensures OpsNotOf(ops, t) == []
  {
    if |ops| == 0 {
    } else {
      OpsNotOfOwn(ops[1..], t);
    }
  }

  lemma {:induction false} OpsOfAreOwn(ops: seq<FlaggedOp>, t: Tlid)
    ensures forall i :: 0 <= i < |OpsOf(ops, t)| ==> TlidOf(OpsOf(ops, t)[i].1) == t
  {
    if |ops| == 0 {
    } else {
      OpsOfAreOwn(ops[1..], t);
    }
  }

  lemma {:induction false} CountSplits(acc: seq<FlaggedOp>, t: Tlid)
    ensures var k := CountToSavepoint(acc, t); k < |acc| ==> IsSavepoint(acc[k], t)
  {
    if |acc| > 0 && !IsSavepoint(acc[0], t) { CountSplits(acc[1..], t); }
  }

  /** An undo of `t` changes the ops of `t` as it would change them alone, ... */
  lemma {:induction false} UndonePerOwnId(acc: seq<FlaggedOp>, op: FlaggedOp)
    requires op.1.UndoTL?
    ensures OpsOf(Undone(acc, op), op.1.tlid) == Undone(OpsOf(acc, op.1.tlid), op)
  {
    var t := op.1.tlid;
    var k, o := CountToSavepoint(acc, t), OpsOf(acc, t);
    var j := CountToSavepoint(o, t);
    var tail := if |acc[k..]| == 0 then [] else acc[k..][1..];
    OpsOfConcat(OpsNotOf(acc[..k], t), tail, t);
    OpsOfOpsNotOf(acc[..k], t, t);
    CountPerId(acc, t);
    CountSplits(acc, t);
    OpsOfAreOwn(acc, t);
    OpsNotOfOwn(o[..j], t);
    if k < |acc| {
      assert TlidOf(acc[k].1) == t;
      assert OpsOf(acc[k..], t) == [acc[k]] + OpsOf(tail, t);
    }
  }

  /** ... and leaves the ops of other ids alone. */
  lemma {:induction false} UndonePerOtherId(acc: seq<FlaggedOp>, op: FlaggedOp, u: Tlid)
    requires op.1.UndoTL? && u != op.1.tlid
    ensures OpsOf(Undone(acc, op), u) == OpsOf(acc, u)
  {
    var t := op.1.tlid;
    var k := CountToSavepoint(acc, t);
    var tail := if |acc[k..]| == 0 then [] else acc[k..][1..];
    OpsOfConcat(OpsNotOf(acc[..k], t), tail, u);
    OpsOfOpsNotOf(acc[..k], t, u);
    CountSplits(acc, t);
    assert acc == acc[..k] + acc[k..];
    OpsOfConcat(acc[..k], acc[k..], u);
  }

  lemma {:induction false} DropUndonePerId(acc: seq<FlaggedOp>, ops: seq<FlaggedOp>, t: Tlid)
    ensures OpsOf(DropUndone(acc, ops), t) == DropUndone(OpsOf(acc, t), OpsOf(ops, t))
    decreases |ops|
  {
    if |ops| == 0 {
    } else {
      DropUndonePerId(Undone(acc, ops[0]), ops[1..], t);
      if TlidOf(ops[0].1) == t {
        assert OpsOf(ops, t)[0] == ops[0] && OpsOf(ops, t)[1..] == OpsOf(ops[1..], t);
        if ops[0].1.UndoTL? {
          UndonePerOwnId(acc, ops[0]);
        } else {
          assert ([ops[0]] + acc)[1..] == acc;
        }
      } else if ops[0].1.UndoTL? {
        UndonePerOtherId(acc, ops[0], t);
      } else {
        assert ([ops[0]] + acc)[1..] == acc;
      }
    }
  }

  lemma {:induction false} ReversedPerId(ops: seq<FlaggedOp>, t: Tlid)
    ensures OpsOf(Reversed(ops), t) == Reversed(OpsOf(ops, t))
  {
    if |ops| == 0 {
    } else {
      ReversedPerId(ops[1..], t);
      OpsOfConcat(Reversed(ops[1..]), [ops[0]], t);
    }
  }

  /** If preprocessing succeeds, then what it keeps for an id is what it keeps of that
      id's ops alone. */
  lemma {:induction false} PreprocessPerId(ops: seq<FlaggedOp>, t: Tlid)
    requires Preprocess(ops).Ok?
    ensures Preprocess(OpsOf(ops, t)) == Ok(OpsOf(Preprocess(ops).value, t))
  {
    var cancelled := CancelRedos(ops).value;
    CancelRedosPerId(ops, t);
    DropUndonePerId([], cancelled, t);
    ReversedPerId(DropUndone([], cancelled), t);
  }

  /** Without undos and redos preprocessing changes nothing. */
  lemma {:induction false} PreprocessOfUndoFree(ops: seq<FlaggedOp>)
    requires forall i :: 0 <= i < |ops| ==> !ops[i].1.UndoTL? && !ops[i].1.RedoTL?
    ensures Preprocess(ops) == Ok(ops)
  {
    CancelNothing(ops);
    DropNothing([], ops);
    assert Reversed(ops) + [] == Reversed(ops);
    ReversedTwice(ops);
  }

  lemma {:induction false} CancelNothing(ops: seq<FlaggedOp>)
    requires NoRedo(ops)
    ensures CancelRedos(ops) == Ok(ops)
  {
    if |ops| == 0 {
    } else {
      assert NoRedo(ops[1..]);
      CancelNothing(ops[1..]);
      assert ops == [ops[0]] + ops[1..];
      assert |ops| == 1 ==> ops == [ops[0]];
    }
  }

  lemma {:induction false} DropNothing(acc: seq<FlaggedOp>, ops: seq<FlaggedOp>)
    requires forall i :: 0 <= i < |ops| ==> !ops[i].1.UndoTL?
    ensures DropUndone(acc, ops) == Reversed(ops) + acc
    decreases |ops|
  {
    if |ops| == 0 {
    } else {
      DropNothing([ops[0]] + acc, ops[1..]);
      assert Reversed(ops[1..]) + ([ops[0]] + acc) == Reversed(ops) + acc;
    }
  }

  lemma {:induction false} ReversedConcat(a: seq<FlaggedOp>, b: seq<FlaggedOp>)
    ensures Reversed(a + b) == Reversed(b) + Reversed(a)
  {
    if |a| == 0 {
      assert a + b == b;
    } else {
      assert (a + b)[0] == a[0] && (a + b)[1..] == a[1..] + b;
      ReversedConcat(a[1..], b);
    }
  }

  lemma {:induction false} ReversedTwice(a: seq<FlaggedOp>)
    ensures Reversed(Reversed(a)) == a
  {
    if |a| == 0 {
    } else {
      ReversedTwice(a[1..]);
      ReversedConcat(Reversed(a[1..]), [a[0]]);
      assert Reversed([a[0]]) == [a[0]];
      assert a == [a[0]] + a[1..];
    }
  }

  // ---- Preprocessing sees of an op only its id and whether it is an undo, a redo or a
  // savepoint, so it commutes with any rewrite of ops that keeps these

  predicate SameRole(op: Op, op': Op) {
    TlidOf(op) == TlidOf(op') && (op.UndoTL? <==> op'.UndoTL?) && (op.RedoTL? <==> op'.RedoTL?)
    && (op.TLSavepoint? <==> op'.TLSavepoint?)
  }

  ghost predicate Transparent(f: FlaggedOp -> FlaggedOp) {
    forall x: FlaggedOp :: SameRole(x.1, f(x).1)
  }

  function MapOps(f: FlaggedOp -> FlaggedOp, ops: seq<FlaggedOp>): seq<FlaggedOp> {
    if |ops| == 0 then [] else [f(ops[0])] + MapOps(f, ops[1..])
  }

  lemma {:induction false} MapOpsIndex(f: FlaggedOp -> FlaggedOp, ops: seq<FlaggedOp>)
    ensures |MapOps(f, ops)| == |ops|
    ensures forall i :: 0 <= i < |ops| ==> MapOps(f, ops)[i] == f(ops[i])
  {
    if |ops| == 0 {
    } else {
      MapOpsIndex(f, ops[1..]);
    }
  }

  lemma {:induction false} MapOpsConcat(f: FlaggedOp -> FlaggedOp, a: seq<FlaggedOp>, b: seq<FlaggedOp>)
    ensures MapOps(f, a + b) == MapOps(f, a) + MapOps(f, b)
  {
    MapOpsIndex(f, a);
    MapOpsIndex(f, b);
    MapOpsIndex(f, a + b);
  }

  lemma {:induction false} MapOpsSlices(f: FlaggedOp -> FlaggedOp, a: seq<FlaggedOp>, k: nat)
    requires k <= |a|
    ensures |MapOps(f, a)| == |a|
    ensures MapOps(f, a[k..]) == MapOps(f, a)[k..] && MapOps(f, a[..k]) == MapOps(f, a)[..k]
  {
    MapOpsIndex(f, a);
    MapOpsIndex(f, a[k..]);
    MapOpsIndex(f, a[..k]);
  }

  lemma {:induction false} MapOpsNotOf(f: FlaggedOp -> FlaggedOp, ops: seq<FlaggedOp>, t: Tlid)
    requires Transparent(f)
    ensures OpsNotOf(MapOps(f, ops), t) == MapOps(f, OpsNotOf(ops, t))
  {
    if |ops| == 0 {
    } else {
      assert SameRole(ops[0].1, f(ops[0]).1);
      MapOpsNotOf(f, ops[1..], t);
    }
  }

  lemma {:induction false} MapCombine(f: FlaggedOp -> FlaggedOp, op: FlaggedOp, rest: seq<FlaggedOp>)
    requires Transparent(f) && Combine(op, rest).Ok?
    ensures Combine(f(op), MapOps(f, rest)) == Ok(MapOps(f, Combine(op, rest).value))
  {
    MapOpsIndex(f, rest);
    assert SameRole(op.1, f(op).1);
    assert ([op] + rest)[1..] == rest;
    assert [op][1..] == [];
    assert MapOps(f, [op]) == [f(op)];
    assert MapOps(f, [op] + rest) == [f(op)] + MapOps(f, rest);
    if |rest| == 0 {
    } else {
      assert SameRole(rest[0].1, f(rest[0]).1);
      MapOpsSlices(f, rest, 1);
    }
  }

  lemma {:induction false} MapCancelRedos(f: FlaggedOp -> FlaggedOp, ops: seq<FlaggedOp>)
    requires Transparent(f) && CancelRedos(ops).Ok?
    ensures CancelRedos(MapOps(f, ops)) == Ok(MapOps(f, CancelRedos(ops).value))
  {
    if |ops| == 0 {
    } else {
      MapCancelRedos(f, ops[1..]);
      MapCombine(f, ops[0], CancelRedos(ops[1..]).value);
      assert MapOps(f, ops)[1..] == MapOps(f, ops[1..]);
    }
  }

  lemma {:induction false} MapCount(f: FlaggedOp -> FlaggedOp, acc: seq<FlaggedOp>, t: Tlid)
    requires Transparent(f)
    ensures CountToSavepoint(MapOps(f, acc), t) == CountToSavepoint(acc, t)
  {
    if |acc| == 0 {
    } else {
      assert SameRole(acc[0].1, f(acc[0]).1);
      MapCount(f, acc[1..], t);
    }
  }

  lemma {:induction false} MapUndone(f: FlaggedOp -> FlaggedOp, acc: seq<FlaggedOp>, op: FlaggedOp)
    requires Transparent(f)
    ensures MapOps(f, Undone(acc, op)) == Undone(MapOps(f, acc), f(op))
  {
    assert SameRole(op.1, f(op).1);
    if op.1.UndoTL? {
      var t := op.1.tlid;
      var k := CountToSavepoint(acc, t);
      MapCount(f, acc, t);
      MapOpsSlices(f, acc, k);
      MapOpsNotOf(f, acc[..k], t);
      var after := acc[k..];
      if |after| > 0 { MapOpsSlices(f, after, 1); }
      MapOpsIndex(f, after);
      MapOpsConcat(f, OpsNotOf(acc[..k], t), if |after| == 0 then [] else after[1..]);
    } else {
      assert ([op] + acc)[1..] == acc;
    }
  }

  lemma {:induction false} MapDropUndone(f: FlaggedOp -> FlaggedOp, acc: seq<FlaggedOp>, ops: seq<FlaggedOp>)
    requires Transparent(f)
    ensures MapOps(f, DropUndone(acc, ops)) == DropUndone(MapOps(f, acc), MapOps(f, ops))
    decreases |ops|
  {
    if |ops| == 0 {
    } else {
      MapUndone(f, acc, ops[0]);
      MapDropUndone(f, Undone(acc, ops[0]), ops[1..]);
    }
  }

  lemma {:induction false} MapReversed(f: FlaggedOp -> FlaggedOp, ops: seq<FlaggedOp>)
    ensures MapOps(f, Reversed(ops)) == Reversed(MapOps(f, ops))
  {
    if |ops| == 0 {
    } else {
      MapReversed(f, ops[1..]);
      MapOpsConcat(f, Reversed(ops[1..]), [ops[0]]);
      assert [ops[0]][1..] == [];
      assert MapOps(f, [ops[0]]) == [f(ops[0])];
    }
  }

  lemma {:induction false} MapPreprocess(f: FlaggedOp -> FlaggedOp, ops: seq<FlaggedOp>)
    requires Transparent(f) && Preprocess(ops).Ok?
    ensures Preprocess(MapOps(f, ops)) == Ok(MapOps(f, Preprocess(ops).value))
  {
    var cancelled := CancelRedos(ops).value;
    MapCancelRedos(f, ops);
    MapDropUndone(f, [], cancelled);
    MapReversed(f, DropUndone([], cancelled));
  }
}
