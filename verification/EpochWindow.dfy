/**
 The key epoch the walk carries forward against the epoch rows written afterwards, for POSTs that do not overlap.
 Source: backend/app/sync/routes.py.
 */
module EpochWindow {
  import opened Wrappers
  import opened ByteStrings
  import opened Payloads
  import opened OpLog
  import opened OpLogFacts
  import opened LogInvariant
  import opened Serial
  import opened AuthorityProofs

  /** The window: the epoch in force or the one before it. */
  predicate InWindow(keyEpoch: nat, current: nat) {
    current <= keyEpoch + 1 && keyEpoch <= current
  }

  /** The epochs whose rotate lies before a seq. */
  function RotatedBefore(epochs: map<nat, EpochRow>, seqNo: nat): set<nat> {
    set e | e in epochs && epochs[e].rotateSeq.Some? && epochs[e].rotateSeq.value < seqNo
  }

  ghost predicate Fresh(epochs: map<nat, EpochRow>, row: OpRow) {
    var rotated := RotatedBefore(epochs, row.seqNo);
    rotated != {} ==> InWindow(row.op.header.keyEpoch, CurrentKeyEpoch(rotated).value)
  }

  /** Every content op was sealed under the epoch the rotates before it put in force, or the one before that. */
  ghost predicate LogFresh(epochs: map<nat, EpochRow>, rows: seq<OpRow>) {
    forall i | 0 <= i < |rows| && !rows[i].op.IsControl() :: Fresh(epochs, rows[i])
  }

  /** Epoch 0 is nobody's rotate; every other epoch is one, below `bound`, in transport order. */
  ghost predicate RotatesInOrder(epochs: map<nat, EpochRow>, bound: nat) {
    && (forall e | e in epochs :: e == 0 <==> epochs[e].rotateSeq.None?)
    && (forall e | e in epochs && e > 0 :: epochs[e].rotateSeq.value < bound)
    && (forall e, f | e in epochs && f in epochs && 0 < e < f ::
          epochs[e].rotateSeq.value < epochs[f].rotateSeq.value)
  }

  ghost predicate EpochInv(epochs: map<nat, EpochRow>, rows: seq<OpRow>) {
    RotatesInOrder(epochs, Top(rows) + 1)
  }

  // --- The walk's epoch is the rows' epoch ---

  ghost predicate EpochAgrees(db: Db, p: Post, results: seq<OpResult>, n: nat)
    requires Served(db, p, results) && n <= |p.ops|
  {
    var epochs := TablesAt(db, p, results, n).epochs.Keys;
    && WalkAt(db, p, results, n).epoch == CurrentKeyEpoch(epochs)
    && db.epochs.Keys <= epochs
    && forall j | 0 <= j < n && p.ops[j].IsRotate() :: p.ops[j].RotateOf().toEpoch in epochs
  }

  /** What starts from the current epoch and is one step goes to no epoch that is already there. */
  lemma RepeatIsNoRotate(epochs: set<nat>, op: Op)
    requires op.IsRotate() ==>
               && op.RotateOf().toEpoch in epochs
               && op.RotateOf().fromEpoch == CurrentKeyEpoch(epochs).GetOr(0)
               && op.RotateOf().toEpoch == op.RotateOf().fromEpoch + 1
    ensures !op.IsRotate()
  {
  }

  /** No rotate that reaches the append is a replay or a repeat: the walk has refused those. */
  lemma RotateIsNew(db: Db, p: Post, results: seq<OpResult>, i: nat)
    requires Served(db, p, results) && NoReuse(db, p) && i < |p.ops| && p.ops[i].IsRotate()
    requires RotatesMaterialised(db.ops, db.epochs.Keys) && EpochAgrees(db, p, results, i)
    ensures |results| == |p.ops| && !results[i].duplicate
    ensures p.ops[i].RotateOf().toEpoch == CurrentKeyEpoch(TablesAt(db, p, results, i).epochs.Keys).GetOr(0) + 1
  {
    hide Served, TablesAt, WalkAt, WalkStep, NoReuse;
    ClassOf(db, p, results, i);
    hide IsRepeat;
    WalkAtStep(db, p, results, i);
    StepEpoch(p, ViewOf(db, p), WalkAt(db, p, results, i), i);
    if results[i].duplicate {
      RepeatIsVerbatim(db, p, i);
      if p.ops[i] in OpsOf(db.ops) {
        StoredRotateIsThere(db, p.ops[i]);
      }
      RepeatIsNoRotate(TablesAt(db, p, results, i).epochs.Keys, p.ops[i]);
    }
  }

  lemma StoredRotateIsThere(db: Db, op: Op)
    requires RotatesMaterialised(db.ops, db.epochs.Keys) && op in OpsOf(db.ops) && op.IsRotate()
    ensures op.RotateOf().toEpoch in db.epochs
  {
    var q :| 0 <= q < |db.ops| && OpsOf(db.ops)[q] == op;
    assert db.ops[q].op == op;
  }

  lemma {:induction false} WalkEpochIsCurrent(db: Db, p: Post, results: seq<OpResult>, n: nat)
    requires Served(db, p, results) && NoReuse(db, p) && n <= |p.ops|
    requires RotatesMaterialised(db.ops, db.epochs.Keys)
    ensures EpochAgrees(db, p, results, n)
  {
    hide Served, TablesAt, WalkAt, WalkStep, EffectStep, NoReuse;
    if n == 0 {
      WalkStarts(db, p, results);
    } else {
      var i := n - 1;
      WalkEpochIsCurrent(db, p, results, i);
      ServedInOrder(db, p, results);
      hide InOrder;
      WalkAtStep(db, p, results, i);
      TablesAtStep(db, p, results, i);
      StepEpoch(p, ViewOf(db, p), WalkAt(db, p, results, i), i);
      EffectStepEpochs(TablesAt(db, p, results, i), p.ops[i], results[i]);
      var epochs := TablesAt(db, p, results, i).epochs.Keys;
      if p.ops[i].IsRotate() {
        RotateIsNew(db, p, results, i);
        NextIsLargest(epochs, p.ops[i].RotateOf().toEpoch);
      } else {
        assert epochs + {} == epochs;
      }
    }
  }

  lemma NextIsLargest(epochs: set<nat>, next: nat)
    requires next == CurrentKeyEpoch(epochs).GetOr(0) + 1
    ensures CurrentKeyEpoch(epochs + {next}) == Some(next)
  {
  }

  /** The epochs that exist before op n: those of the tables, and those the batch has rotated to by then. */
  function EpochsBefore(db: Db, p: Post, n: nat): set<nat>
    requires n <= |p.ops|
  {
    db.epochs.Keys + set j | 0 <= j < n && p.ops[j].IsRotate() :: p.ops[j].RotateOf().toEpoch
  }

  lemma {:induction false} RowsAreEpochsBefore(db: Db, p: Post, results: seq<OpResult>, n: nat)
    requires Served(db, p, results) && NoReuse(db, p) && n <= |p.ops|
    requires RotatesMaterialised(db.ops, db.epochs.Keys)
    ensures TablesAt(db, p, results, n).epochs.Keys == EpochsBefore(db, p, n)
  {
    hide Served, TablesAt, WalkAt, EffectStep, NoReuse, RotatesMaterialised, EpochAgrees;
    if n == 0 {
      WalkStarts(db, p, results);
    } else {
      var i := n - 1;
      RowsAreEpochsBefore(db, p, results, i);
      ServedInOrder(db, p, results);
      TablesAtStep(db, p, results, i);
      EffectStepEpochs(TablesAt(db, p, results, i), p.ops[i], results[i]);
      if p.ops[i].IsRotate() {
        WalkEpochIsCurrent(db, p, results, i);
        RotateIsNew(db, p, results, i);
      }
      assert EpochsBefore(db, p, n)
          == EpochsBefore(db, p, i) + if p.ops[i].IsRotate() then {p.ops[i].RotateOf().toEpoch} else {};
    }
  }

  /** Every content op the walk admits is sealed inside the window at its own batch index. */
  lemma AdmittedInWindow(db: Db, p: Post, results: seq<OpResult>, i: nat)
    requires Served(db, p, results) && NoReuse(db, p) && i < |p.ops| && !p.ops[i].IsControl()
    requires RotatesMaterialised(db.ops, db.epochs.Keys)
    ensures TablesAt(db, p, results, i).epochs.Keys == EpochsBefore(db, p, i)
    ensures var current := CurrentKeyEpoch(EpochsBefore(db, p, i));
            current.Some? ==> InWindow(p.ops[i].header.keyEpoch, current.value)
  {
    hide Served, TablesAt, WalkAt, WalkStep, NoReuse, EpochsBefore;
    WalkEpochIsCurrent(db, p, results, i);
    RowsAreEpochsBefore(db, p, results, i);
    WalkAtStep(db, p, results, i);
    StepWindow(p, ViewOf(db, p), WalkAt(db, p, results, i), i);
  }

  lemma StepWindow(p: Post, v: View, w: Walk, i: nat)
    requires i < |p.ops| == |v.logs| && WalkStep(p, v, w, i).Success? && !p.ops[i].IsControl()
    ensures RequireFreshKeyEpoch(p.ops[i].header.keyEpoch, w.epoch).None?
  {
    hide RequireRole, VerifyPrune, RequireFreshKeyEpoch;
  }

  // --- The rows of a batch ---

  lemma EffectEpochs(t: Tables, op: Op, r: OpResult)
    requires EffectStep(t, op, r).Success?
    ensures EffectStep(t, op, r).value.epochs
         == if op.IsRotate() && !r.duplicate
            then t.epochs[op.RotateOf().toEpoch := EpochRow(op.RotateOf().keywrapDigest, [], Some(r.seqNo))]
            else t.epochs
    ensures op.IsRotate() && !r.duplicate ==> op.RotateOf().toEpoch !in t.epochs
  {
  }

  ghost predicate RotatedBetween(a: map<nat, EpochRow>, b: map<nat, EpochRow>, results: seq<OpResult>, m: nat, n: nat)
    requires n <= |results|
  {
    && (forall e | e in a :: e in b && b[e] == a[e])
    && forall e | e in b && e !in a ::
        exists j | m <= j < n :: !results[j].duplicate && b[e].rotateSeq == Some(results[j].seqNo)
  }

  lemma {:induction false} EpochRowsBetween(db: Db, p: Post, results: seq<OpResult>, m: nat, n: nat)
    requires Served(db, p, results) && m <= n <= |p.ops| == |results|
    ensures RotatedBetween(TablesAt(db, p, results, m).epochs, TablesAt(db, p, results, n).epochs, results, m, n)
    decreases n
  {
    hide Served, TablesAt, EffectStep;
    if m < n {
      EpochRowsBetween(db, p, results, m, n - 1);
      TablesAtStep(db, p, results, n - 1);
      EffectEpochs(TablesAt(db, p, results, n - 1), p.ops[n - 1], results[n - 1]);
    }
  }

  lemma LooserBound(epochs: map<nat, EpochRow>, bound: nat, bound': nat)
    requires RotatesInOrder(epochs, bound) && bound <= bound'
    ensures RotatesInOrder(epochs, bound')
  {
  }

  /** One more rotate, a step past the largest epoch and at a higher seq than any rotate before it. */
  lemma RotateInOrder(epochs: map<nat, EpochRow>, rotate: RotateStatement, seqNo: nat, bound: nat)
    requires RotatesInOrder(epochs, seqNo) && seqNo < bound
    requires rotate.toEpoch == CurrentKeyEpoch(epochs.Keys).GetOr(0) + 1
    ensures RotatesInOrder(epochs[rotate.toEpoch := EpochRow(rotate.keywrapDigest, [], Some(seqNo))], bound)
  {
    forall e | e in epochs
      ensures e < rotate.toEpoch
    {
      assert e in epochs.Keys;
    }
  }

  lemma {:induction false} EpochRowsInOrder(db: Db, p: Post, results: seq<OpResult>, n: nat, bound: nat)
    requires Served(db, p, results) && n <= |p.ops| == |results|
    requires NoReuse(db, p)
    requires RotatesMaterialised(db.ops, db.epochs.Keys) && EpochInv(db.epochs, db.ops) && Top(db.ops) < bound
    requires forall j | 0 <= j < n && !results[j].duplicate :: results[j].seqNo < bound
    ensures RotatesInOrder(TablesAt(db, p, results, n).epochs, bound)
  {
    hide Served, TablesAt, WalkAt, EffectStep, NoReuse, RotatesInOrder, InOrder, RotatesMaterialised, CurrentKeyEpoch;
    if n == 0 {
      WalkStarts(db, p, results);
      LooserBound(db.epochs, Top(db.ops) + 1, bound);
    } else {
      var i := n - 1;
      EpochRowsInOrder(db, p, results, i, bound);
      TablesAtStep(db, p, results, i);
      EffectEpochs(TablesAt(db, p, results, i), p.ops[i], results[i]);
      if p.ops[i].IsRotate() {
        WalkEpochIsCurrent(db, p, results, i);
        RotateIsNew(db, p, results, i);
        ServedInOrder(db, p, results);
        OrderedBefore(results, i);
        NewSeqIsAbove(db, p, results, i);
        EpochRowsInOrder(db, p, results, i, results[i].seqNo);
        hide EpochAgrees;
        RotateInOrder(TablesAt(db, p, results, i).epochs, p.ops[i].RotateOf(), results[i].seqNo, bound);
      }
    }
  }

  /** A new content op lies in the window of the rows written afterwards. */
  lemma NewRowIsFresh(db: Db, p: Post, results: seq<OpResult>, i: nat, row: OpRow)
    requires Served(db, p, results) && i < |p.ops| == |results| && !results[i].duplicate && !p.ops[i].IsControl()
    requires NoReuse(db, p) && RotatesMaterialised(db.ops, db.epochs.Keys) && EpochInv(db.epochs, db.ops)
    requires row.op == p.ops[i] && row.seqNo == results[i].seqNo
    ensures Fresh(TablesAt(db, p, results, |p.ops|).epochs, row)
  {
    hide Served, TablesAt, RotatesMaterialised, EpochInv, InOrder, NoReuse;
    var n := |p.ops|;
    var a, b := TablesAt(db, p, results, i).epochs, TablesAt(db, p, results, n).epochs;
    AdmittedInWindow(db, p, results, i);
    ServedInOrder(db, p, results);
    OrderedBefore(results, i);
    NewSeqIsAbove(db, p, results, i);
    EpochRowsInOrder(db, p, results, i, row.seqNo);
    EpochRowsBetween(db, p, results, i, n);
    RotatedByThen(a, b, results, i, n, row.seqNo);
  }

  /** The rotates before a seq are those materialised before its index. */
  lemma RotatedByThen(a: map<nat, EpochRow>, b: map<nat, EpochRow>, results: seq<OpResult>, i: nat, n: nat, seqNo: nat)
    requires n <= |results| && RotatedBetween(a, b, results, i, n) && RotatesInOrder(a, seqNo)
    requires forall j | i <= j < n && !results[j].duplicate :: seqNo <= results[j].seqNo
    ensures RotatedBefore(b, seqNo) == a.Keys - {0}
    ensures RotatedBefore(b, seqNo) != {} ==> CurrentKeyEpoch(RotatedBefore(b, seqNo)) == CurrentKeyEpoch(a.Keys)
  {
    forall e
      ensures e in RotatedBefore(b, seqNo) <==> e in a.Keys - {0}
    {
      if e in a {
        assert b[e] == a[e];
      }
    }
    var rotated := RotatedBefore(b, seqNo);
    if rotated != {} {
      var top := CurrentKeyEpoch(a.Keys).value;
      var e :| e in rotated;
      assert e <= top && top in rotated;
    }
  }

  lemma OldRowStaysFresh(db: Db, p: Post, results: seq<OpResult>, row: OpRow, row': OpRow)
    requires Served(db, p, results) && |results| == |p.ops| && Fresh(db.epochs, row) && row.seqNo <= Top(db.ops)
    requires row'.op == row.op && row'.seqNo == row.seqNo
    ensures Fresh(TablesAt(db, p, results, |p.ops|).epochs, row')
  {
    hide Served, TablesAt;
    var n := |p.ops|;
    WalkStarts(db, p, results);
    EpochRowsBetween(db, p, results, 0, n);
    var b := TablesAt(db, p, results, n).epochs;
    forall j | 0 <= j < n && !results[j].duplicate
      ensures row.seqNo < results[j].seqNo
    {
      NewSeqIsAbove(db, p, results, j);
    }
    forall e
      ensures e in RotatedBefore(b, row.seqNo) <==> e in RotatedBefore(db.epochs, row.seqNo)
    {
      if e in db.epochs {
        assert b[e] == db.epochs[e];
      }
    }
    assert RotatedBefore(b, row.seqNo) == RotatedBefore(db.epochs, row.seqNo);
  }

  /** One POST keeps every content op inside the window that was in force at its position. */
  lemma PostKeepsFresh(db: Db, p: Post, results: seq<OpResult>, db': Db)
    requires Increasing(db.ops) && RotatesMaterialised(db.ops, db.epochs.Keys) && NoReuse(db, p)
    requires EpochInv(db.epochs, db.ops) && LogFresh(db.epochs, db.ops)
    requires Recorded(db, p, results, db')
    ensures EpochInv(db'.epochs, db'.ops) && LogFresh(db'.epochs, db'.ops)
  {
    hide Served, TablesAt, NewOpsStored, Fresh, EpochInv, RotatesMaterialised, NoReuse, Increasing;
    TopBounds(db.ops);
    TopBounds(db'.ops);
    forall q | 0 <= q < |db'.ops| && !db'.ops[q].op.IsControl()
      ensures Fresh(db'.epochs, db'.ops[q])
    {
      if q < |db.ops| {
        OldRowStaysFresh(db, p, results, db.ops[q], db'.ops[q]);
      } else {
        assert RowAnswered(db'.ops[q], p.ops, results);
        var i :| 0 <= i < |p.ops| && !results[i].duplicate && results[i].seqNo == db'.ops[q].seqNo
                 && db'.ops[q].op == p.ops[i];
        NewRowIsFresh(db, p, results, i, db'.ops[q]);
      }
    }
    TopGrows(db.ops, db'.ops);
    forall j | 0 <= j < |p.ops| && !results[j].duplicate
      ensures results[j].seqNo < Top(db'.ops) + 1
    {
      var q := NewOpHasRow(db'.ops, |db.ops|, p.ops, results, j);
    }
    EpochRowsInOrder(db, p, results, |p.ops|, Top(db'.ops) + 1);
    OrderIsInv(db'.epochs, db'.ops);
  }

  lemma OrderIsInv(epochs: map<nat, EpochRow>, rows: seq<OpRow>)
    ensures RotatesInOrder(epochs, Top(rows) + 1) <==> EpochInv(epochs, rows)
  {
  }
}
