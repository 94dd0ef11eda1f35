/** What an undo and a redo mean for the canvas (undo.ml): an undo takes its toplevel back to
    the last savepoint and touches no other; a redo right after it takes the undo back. */
module UndoRedo {
  import opened Common
  import opened CanvasTypes
  import opened Undo
  import opened CanvasReplay
  import C = CanvasClone

  /** Ops after the last savepoint of `t`, none of them an undo or a redo. */
  predicate PlainSince(ops: seq<FlaggedOp>, t: Tlid) {
    forall i :: 0 <= i < |ops| ==> !ops[i].1.UndoTL? && !ops[i].1.RedoTL? && !IsSavepoint(ops[i], t)
  }

  lemma {:induction false} OpsNotOfConcat(a: seq<FlaggedOp>, b: seq<FlaggedOp>, t: Tlid)
    ensures OpsNotOf(a + b, t) == OpsNotOf(a, t) + OpsNotOf(b, t)
  {
    if |a| == 0 {
      assert a + b == b;
    } else {
      assert (a + b)[0] == a[0] && (a + b)[1..] == a[1..] + b;
      OpsNotOfConcat(a[1..], b, t);
    }
  }

  lemma {:induction false} ReversedNotOf(ops: seq<FlaggedOp>, t: Tlid)
    ensures OpsNotOf(Reversed(ops), t) == Reversed(OpsNotOf(ops, t))
  {
    if |ops| == 0 {
    } else {
      ReversedNotOf(ops[1..], t);
      OpsNotOfConcat(Reversed(ops[1..]), [ops[0]], t);
    }
  }

  lemma {:induction false} ReversedMembers(ops: seq<FlaggedOp>, x: FlaggedOp)
    ensures x in Reversed(ops) <==> x in ops
  {
    if |ops| == 0 {
    } else {
      ReversedMembers(ops[1..], x);
      assert ops == [ops[0]] + ops[1..];
    }
  }

  lemma {:induction false} CountPastPlain(newer: seq<FlaggedOp>, sp: FlaggedOp, acc: seq<FlaggedOp>, t: Tlid)
    requires IsSavepoint(sp, t) && forall i :: 0 <= i < |newer| ==> !IsSavepoint(newer[i], t)
    ensures CountToSavepoint(newer + ([sp] + acc), t) == |newer|
  {
    if |newer| > 0 {
      assert (newer + ([sp] + acc))[1..] == newer[1..] + ([sp] + acc);
      CountPastPlain(newer[1..], sp, acc, t);
    } else {
      assert newer + ([sp] + acc) == [sp] + acc;
    }
  }

  lemma {:induction false} UndoneToSavepoint(
    newer: seq<FlaggedOp>, sp: FlaggedOp, acc: seq<FlaggedOp>, un: FlaggedOp, t: Tlid)
    requires un.1 == UndoTL(t) && IsSavepoint(sp, t)
    requires forall i :: 0 <= i < |newer| ==> !IsSavepoint(newer[i], t)
    ensures Undone(newer + ([sp] + acc), un) == OpsNotOf(newer, t) + acc
  {
    var all := newer + ([sp] + acc);
    CountPastPlain(newer, sp, acc, t);
    assert all[..|newer|] == newer && all[|newer|..] == [sp] + acc && all[|newer|..][1..] == acc;
  }

  lemma {:induction false} DropBackToSavepoint(
    acc: seq<FlaggedOp>, sp: FlaggedOp, body: seq<FlaggedOp>, un: FlaggedOp, t: Tlid)
    requires un.1 == UndoTL(t) && IsSavepoint(sp, t) && PlainSince(body, t)
    ensures DropUndone(acc, ([sp] + body) + [un]) == Reversed(OpsNotOf(body, t)) + acc
  {
    var newer := Reversed(body);
    C.DropUndoneConcat(acc, [sp] + body, [un]);
    C.DropUndoneConcat(acc, [sp], body);
    assert [sp][1..] == [] && DropUndone(acc, [sp]) == [sp] + acc;
    DropNothing([sp] + acc, body);
    forall i | 0 <= i < |newer| ensures !IsSavepoint(newer[i], t) {
      ReversedMembers(body, newer[i]);
      var j :| 0 <= j < |body| && body[j] == newer[i];
    }
    UndoneToSavepoint(newer, sp, acc, un, t);
    assert [un][1..] == [];
    ReversedNotOf(body, t);
  }

  /** An undo drops the ops of its toplevel back to the last savepoint, with it, and keeps
      what other toplevels did since. */
  lemma {:induction false} UndoReturnsToSavepoint(
    before: seq<FlaggedOp>, sp: FlaggedOp, body: seq<FlaggedOp>, un: FlaggedOp, t: Tlid)
    requires Preprocess(before).Ok? && un.1 == UndoTL(t) && IsSavepoint(sp, t) && PlainSince(body, t)
    ensures Preprocess(before + (([sp] + body) + [un])) == Ok(Preprocess(before).value + OpsNotOf(body, t))
  {
    var tail := ([sp] + body) + [un];
    var kept := CancelRedos(before).value;
    assert NoRedo(tail);
    CancelNothing(tail);
    CancelRedosConcat(before, tail);
    C.DropUndoneConcat([], kept, tail);
    DropBackToSavepoint(DropUndone([], kept), sp, body, un, t);
    ReversedConcat(Reversed(OpsNotOf(body, t)), DropUndone([], kept));
    ReversedTwice(OpsNotOf(body, t));
  }

  /** A redo right after an undo takes the undo back. */
  lemma {:induction false} RedoTakesUndoBack(before: seq<FlaggedOp>, un: FlaggedOp, re: FlaggedOp, t: Tlid)
    requires un.1 == UndoTL(t) && re.1 == RedoTL(t) && Preprocess(before).Ok?
    ensures Preprocess(before + [un, re]) == Preprocess(before)
  {
    var tail := [un, re];
    assert tail[1..] == [re] && [re][1..] == [];
    assert CancelRedos([re]) == Ok([re]);
    assert Combine(un, [re]) == Ok([re][1..]);
    assert CancelRedos(tail) == Ok([]);
    CancelRedosConcat(before, tail);
    assert CancelRedos(before).value + [] == CancelRedos(before).value;
  }

  // ---- Several undos, several redos

  predicate AllUndo(ops: seq<FlaggedOp>, t: Tlid) {
    forall i :: 0 <= i < |ops| ==> ops[i].1 == UndoTL(t)
  }

  predicate AllRedo(ops: seq<FlaggedOp>, t: Tlid) {
    forall i :: 0 <= i < |ops| ==> ops[i].1 == RedoTL(t)
  }

  lemma {:induction false} RedosStay(redos: seq<FlaggedOp>, t: Tlid)
    requires AllRedo(redos, t)
    ensures CancelRedos(redos) == Ok(redos)
  {
    if |redos| == 0 {
    } else {
      RedosStay(redos[1..], t);
      assert redos == [redos[0]] + redos[1..];
      assert |redos| == 1 ==> redos == [redos[0]];
    }
  }

  /** Each undo meets the redo that was made for it, if there is one. */
  lemma {:induction false} UndosMeetRedos(undos: seq<FlaggedOp>, redos: seq<FlaggedOp>, t: Tlid)
    requires AllUndo(undos, t) && AllRedo(redos, t)
    ensures CancelRedos(undos + redos)
         == Ok(if |redos| <= |undos| then undos[..|undos| - |redos|] else redos[|undos|..])
  {
    if |undos| == 0 {
      assert undos + redos == redos;
      RedosStay(redos, t);
    } else {
      var rest := undos[1..];
      assert (undos + redos)[0] == undos[0] && (undos + redos)[1..] == rest + redos;
      UndosMeetRedos(rest, redos, t);
      if |redos| < |undos| {
        assert [undos[0]] + rest[..|rest| - |redos|] == undos[..|undos| - |redos|];
        assert |redos| == |rest| ==> undos[..1] == [undos[0]];
      } else {
        assert redos[|rest|..][1..] == redos[|undos|..];
      }
    }
  }

  /** Redos take back the latest undos, one each, and leave the earlier ones in force. */
  lemma {:induction false} RedosTakeUndosBack(
    before: seq<FlaggedOp>, undos: seq<FlaggedOp>, redos: seq<FlaggedOp>, t: Tlid)
    requires Preprocess(before).Ok? && AllUndo(undos, t) && AllRedo(redos, t) && |redos| <= |undos|
    ensures Preprocess(before + (undos + redos)) == Preprocess(before + undos[..|undos| - |redos|])
    ensures Preprocess(before + (undos + redos)).Ok?
  {
    var left := undos[..|undos| - |redos|];
    UndosMeetRedos(undos, redos, t);
    CancelNothing(left);
    CancelRedosConcat(before, undos + redos);
    CancelRedosConcat(before, left);
  }

  /** One redo too many after an op that is no undo of its toplevel is refused. */
  lemma {:induction false} ExcessRedoIsRefused(
    before: seq<FlaggedOp>, op: FlaggedOp, undos: seq<FlaggedOp>, redos: seq<FlaggedOp>, t: Tlid)
    requires AllUndo(undos, t) && AllRedo(redos, t) && |undos| < |redos|
    requires op.1 != UndoTL(t) && op.1 != RedoTL(t)
    ensures Preprocess(before + ([op] + (undos + redos))).Err?
  {
    var tail := [op] + (undos + redos);
    UndosMeetRedos(undos, redos, t);
    assert tail[0] == op && tail[1..] == undos + redos;
    assert CancelRedos(tail).Err?;
    if CancelRedos(before + tail).Ok? { SuffixCancels(before, tail); }
  }

  // ---- One more undo

  /** An undo takes what was in force back to the last savepoint of its toplevel, ... */
  lemma {:induction false} UndoStep(
    before: seq<FlaggedOp>, older: seq<FlaggedOp>, sp: FlaggedOp, since: seq<FlaggedOp>, un: FlaggedOp, t: Tlid)
    requires Preprocess(before) == Ok(older + ([sp] + since)) && un.1 == UndoTL(t) && IsSavepoint(sp, t)
    requires forall i :: 0 <= i < |since| ==> !IsSavepoint(since[i], t)
    ensures Preprocess(before + [un]) == Ok(older + OpsNotOf(since, t))
  {
    var acc, newer := Reversed(older), Reversed(since);
    OneMoreUndo(before, un);
    ReversedConcat(older, [sp] + since);
    ReversedConcat([sp], since);
    assert Reversed([sp]) == [sp];
    assert (newer + [sp]) + acc == newer + ([sp] + acc);
    forall i | 0 <= i < |newer| ensures !IsSavepoint(newer[i], t) {
      ReversedMembers(since, newer[i]);
      var j :| 0 <= j < |since| && since[j] == newer[i];
    }
    UndoneToSavepoint(newer, sp, acc, un, t);
    ReversedNotOf(since, t);
    ReversedConcat(Reversed(OpsNotOf(since, t)), acc);
    ReversedTwice(OpsNotOf(since, t));
    ReversedTwice(older);
  }

  /** ... or, if it has none, drops all its ops. */
  lemma {:induction false} UndoWithoutSavepoint(before: seq<FlaggedOp>, since: seq<FlaggedOp>, un: FlaggedOp, t: Tlid)
    requires Preprocess(before) == Ok(since) && un.1 == UndoTL(t)
    requires forall i :: 0 <= i < |since| ==> !IsSavepoint(since[i], t)
    ensures Preprocess(before + [un]) == Ok(OpsNotOf(since, t))
  {
    var newer := Reversed(since);
    OneMoreUndo(before, un);
    forall i | 0 <= i < |newer| ensures !IsSavepoint(newer[i], t) {
      ReversedMembers(since, newer[i]);
      var j :| 0 <= j < |since| && since[j] == newer[i];
    }
    CountToEnd(newer, t);
    assert newer[..|newer|] == newer && newer[|newer|..] == [];
    assert OpsNotOf(newer, t) + [] == OpsNotOf(newer, t);
    ReversedNotOf(since, t);
    ReversedTwice(OpsNotOf(since, t));
  }

  lemma {:induction false} CountToEnd(acc: seq<FlaggedOp>, t: Tlid)
    requires forall i :: 0 <= i < |acc| ==> !IsSavepoint(acc[i], t)
    ensures CountToSavepoint(acc, t) == |acc|
  {
    if |acc| == 0 {
    } else {
      CountToEnd(acc[1..], t);
    }
  }

  lemma {:induction false} OneMoreUndo(before: seq<FlaggedOp>, un: FlaggedOp)
    requires Preprocess(before).Ok? && un.1.UndoTL?
    ensures Preprocess(before + [un]) == Ok(Reversed(Undone(Reversed(Preprocess(before).value), un)))
  {
    var kept := CancelRedos(before).value;
    assert [un][1..] == [] && CancelRedos([un]) == Ok([un]);
    CancelRedosConcat(before, [un]);
    C.DropUndoneConcat([], kept, [un]);
    ReversedTwice(DropUndone([], kept));
  }

  /** On the canvas: edits of a toplevel since its savepoint, then an undo, build the canvas
      there was at the savepoint. */
  lemma {:induction false} UndoRestoresCanvas(ops: seq<Op>, edits: seq<Op>, t: Tlid)
    requires BuildOf(ops).Ok? && AllOf(edits, t)
    requires forall i :: 0 <= i < |edits| ==> !edits[i].UndoTL? && !edits[i].RedoTL? && !edits[i].TLSavepoint?
    ensures BuildOf(ops + ([TLSavepoint(t)] + edits + [UndoTL(t)])) == BuildOf(ops)
  {
    var tail := [TLSavepoint(t)] + edits + [UndoTL(t)];
    var before, body := Flag(false, ops), Flag(false, edits);
    FlagIndex(false, edits);
    FlagConcat(ops, tail);
    FlagConcat([TLSavepoint(t)] + edits, [UndoTL(t)]);
    FlagConcat([TLSavepoint(t)], edits);
    assert before + Flag(true, []) == before;
    assert Flag(false, ops + tail) + Flag(true, []) == Flag(false, ops + tail);
    assert Flag(false, [TLSavepoint(t)]) == [(false, TLSavepoint(t))];
    assert Flag(false, [UndoTL(t)]) == [(false, UndoTL(t))];
    UndoReturnsToSavepoint(before, (false, TLSavepoint(t)), body, (false, UndoTL(t)), t);
    OpsNotOfOwn(body, t);
    assert Preprocess(before).value + [] == Preprocess(before).value;
  }

  lemma {:induction false} RedoRestoresCanvas(ops: seq<Op>, t: Tlid)
    requires BuildOf(ops).Ok?
    ensures BuildOf(ops + [UndoTL(t), RedoTL(t)]) == BuildOf(ops)
  {
    var before := Flag(false, ops);
    FlagConcat(ops, [UndoTL(t), RedoTL(t)]);
    FlagIndex(false, [UndoTL(t), RedoTL(t)]);
    assert before + Flag(true, []) == before;
    var flagged := Flag(false, ops + [UndoTL(t), RedoTL(t)]);
    assert flagged + Flag(true, []) == flagged;
    assert flagged == before + [(false, UndoTL(t)), (false, RedoTL(t))];
    RedoTakesUndoBack(before, (false, UndoTL(t)), (false, RedoTL(t)), t);
  }

  function Undos(k: nat, t: Tlid): seq<Op> {
    seq(k, _ => UndoTL(t))
  }

  function Redos(m: nat, t: Tlid): seq<Op> {
    seq(m, _ => RedoTL(t))
  }

  /** On the canvas: redos take back the latest undos; as many of them as there were undos
      bring back the canvas there was before. */
  lemma {:induction false} RedosRestoreCanvas(ops: seq<Op>, k: nat, m: nat, t: Tlid)
    requires BuildOf(ops).Ok? && m <= k
    ensures BuildOf(ops + (Undos(k, t) + Redos(m, t))) == BuildOf(ops + Undos(k - m, t))
    ensures BuildOf(ops + (Undos(k, t) + Redos(k, t))) == BuildOf(ops)
  {
    RedosOnCanvas(ops, k, m, t);
    RedosOnCanvas(ops, k, k, t);
    assert ops + Undos(0, t) == ops;
  }

  lemma {:induction false} RedosOnCanvas(ops: seq<Op>, k: nat, m: nat, t: Tlid)
    requires BuildOf(ops).Ok? && m <= k
    ensures BuildOf(ops + (Undos(k, t) + Redos(m, t))) == BuildOf(ops + Undos(k - m, t))
  {
    var before, undos, redos := Flag(false, ops), Flag(false, Undos(k, t)), Flag(false, Redos(m, t));
    FlagIndex(false, Undos(k, t));
    FlagIndex(false, Redos(m, t));
    FlagIndex(false, Undos(k - m, t));
    FlagConcat(Undos(k, t), Redos(m, t));
    FlagConcat(ops, Undos(k, t) + Redos(m, t));
    FlagConcat(ops, Undos(k - m, t));
    assert Flag(false, Undos(k - m, t)) == undos[..k - m];
    NoNewOps(before);
    RedosTakeUndosBack(before, undos, redos, t);
    NoNewOps(before + (undos + redos));
    NoNewOps(before + undos[..k - m]);
  }

  lemma NoNewOps(ops: seq<FlaggedOp>)
    ensures ops + Flag(true, []) == ops
  {}
}
