/**
 What every committed POST keeps true of the op table and the epoch rows, even when the walk and the append read
 tables that other requests have changed since.
 */
module LogInvariant {
  import opened Wrappers
  import opened ByteStrings
  import opened Envelope
  import opened Payloads
  import opened OpLog
  import opened OpLogFacts

  /** One author never uses one op id for two envelopes: the book says which op each `(author, op_id)` names. */
  type Book = (Uuid, Uuid) -> Op

  ghost predicate InBook(book: Book, op: Op) {
    book(op.Author(), op.header.opId) == op && WellDecoded(op)
  }

  ghost predicate Honest(book: Book, ops: seq<Op>) {
    forall op | op in ops :: InBook(book, op)
  }

  // --- Growth ---

  /** `b` is `a` with rows appended and unstamped rows possibly stamped: nothing is deleted, edited or restamped. */
  ghost predicate Extends(a: seq<OpRow>, b: seq<OpRow>) {
    && |a| <= |b|
    && forall i | 0 <= i < |a| ::
        a[i].seqNo == b[i].seqNo && a[i].op == b[i].op
          && (a[i].compactedBy.Some? ==> b[i].compactedBy == a[i].compactedBy)
  }

  // --- The invariant ---

  ghost predicate Increasing(rows: seq<OpRow>) {
    && (forall i | 0 <= i < |rows| :: 0 < rows[i].seqNo)
    && (forall i, j | 0 <= i < j < |rows| :: rows[i].seqNo < rows[j].seqNo)
  }

  ghost predicate UniqueKeys(ops: seq<Op>) {
    forall i, j | 0 <= i < j < |ops| :: ops[i].Key() != ops[j].Key()
  }

  predicate IsExempt(op: Op) {
    op.header.opClass in COMPACTION_EXEMPT_OP_CLASSES
  }

  /** `t` attests the row: its seq, its author position and its envelope hash. */
  predicate Names(t: PruneTarget, row: OpRow) {
    && t.seqNo == row.seqNo
    && t.authorMemberId == row.op.Author()
    && t.authorSeq == row.op.header.authorSeq
    && t.envelopeHash == row.op.hash
  }

  predicate Attests(prune: Op, row: OpRow) {
    prune.IsDecodedPrune() && exists t | t in prune.TargetsOf() :: Names(t, row)
  }

  /** The row at `i` is unstamped, or stamped with the later seq of a prune that attests exactly it. */
  ghost predicate StampSound(rows: seq<OpRow>, i: nat)
    requires i < |rows|
  {
    && (IsExempt(rows[i].op) ==> rows[i].compactedBy.None?)
    && (rows[i].compactedBy.Some? ==>
          exists j | i < j < |rows| :: rows[j].seqNo == rows[i].compactedBy.value && Attests(rows[j].op, rows[i]))
  }

  ghost predicate StampsSound(rows: seq<OpRow>) {
    forall i | 0 <= i < |rows| :: StampSound(rows, i)
  }

  /** Every stored rotate has its epoch row. */
  ghost predicate RotatesMaterialised(rows: seq<OpRow>, epochs: set<nat>) {
    forall i | 0 <= i < |rows| && rows[i].op.IsRotate() :: rows[i].op.RotateOf().toEpoch in epochs
  }

  /** No gap above epoch 1: the rows are empty or a contiguous range starting at 0 or 1. */
  ghost predicate NoEpochGap(epochs: set<nat>) {
    forall e | e in epochs && e >= 2 :: e - 1 in epochs
  }

  ghost predicate LogInv(book: Book, rows: seq<OpRow>, epochs: set<nat>) {
    && Increasing(rows)
    && Chained(OpsOf(rows))
    && UniqueKeys(OpsOf(rows))
    && Honest(book, OpsOf(rows))
    && StampsSound(rows)
    && RotatesMaterialised(rows, epochs)
    && NoEpochGap(epochs)
  }

  /** What a POST may rely on: each table it read is one the committed tables have grown from. */
  ghost predicate ReadsAreStale(db: Db, p: Post, v: View, existing: seq<OpRow>, heads: seq<OpRow>) {
    && |v.logs| == |p.ops|
    && (forall i | 0 <= i < |v.logs| :: Extends(v.logs[i], db.ops))
    && (v.epoch.Some? ==> v.epoch.value in db.epochs)
    && Extends(existing, db.ops)
    && Extends(heads, db.ops) && Chained(OpsOf(heads))
    && (forall op | op in p.ops :: op.Author() == p.caller.memberId)
    && (forall op | op in p.ops && op.header.opId in v.replayed :: exists r | r in existing :: r.op.Key() == op.Key())
  }

  // --- Chains ---

  lemma {:induction false} PositionsAppend(a: seq<Op>, b: seq<Op>, author: Uuid)
    ensures Positions(a + b, author) == Positions(a, author) + Positions(b, author)
  {
    if b == [] {
      assert a + b == a;
    } else {
      PositionsAppend(a, b[..|b| - 1], author);
      assert (a + b)[..|a + b| - 1] == a + b[..|b| - 1];
    }
  }

  lemma {:induction false} FirstOfAuthor(ops: seq<Op>, k: nat)
    requires k < |ops|
    ensures exists f | 0 <= f <= k :: ops[f].Author() == ops[k].Author() && Positions(ops[..f], ops[k].Author()) == 0
  {
    var author := ops[k].Author();
    if Positions(ops[..k], author) > 0 {
      assert exists j | 0 <= j < k :: ops[j].Author() == author by {
        SomeOfAuthor(ops[..k], author);
        var j :| 0 <= j < k && ops[..k][j].Author() == author;
        assert ops[j].Author() == author;
      }
      var j :| 0 <= j < k && ops[j].Author() == author;
      FirstOfAuthor(ops, j);
    }
  }

  lemma {:induction false} SomeOfAuthor(ops: seq<Op>, author: Uuid)
    requires Positions(ops, author) > 0
    ensures exists j | 0 <= j < |ops| :: ops[j].Author() == author
  {
    var n := |ops| - 1;
    if ops[n].Author() != author {
      SomeOfAuthor(ops[..n], author);
      var j :| 0 <= j < n && ops[..n][j].Author() == author;
      assert ops[j].Author() == author;
    }
  }

  /** No op of `added` violates a uniqueness constraint against `stored`. */
  ghost predicate Apart(stored: seq<Op>, added: seq<Op>) {
    forall i, j | 0 <= i < |stored| && 0 <= j < |added| :: !Collide(stored[i], added[j])
  }

  lemma InsertedApart(rows: seq<OpRow>, ops: seq<Op>, freshAt: seq<nat>, seqs: seq<nat>)
    requires FreshWithin(ops, freshAt) && |freshAt| <= |seqs|
    requires !AnyCollision(rows, NewRows(ops, freshAt, seqs))
    ensures Apart(OpsOf(rows), FreshOps(ops, freshAt))
    ensures OpsOf(rows + NewRows(ops, freshAt, seqs)) == OpsOf(rows) + FreshOps(ops, freshAt)
  {
    hide Collide;
    var added := NewRows(ops, freshAt, seqs);
    forall i, j | 0 <= i < |rows| && 0 <= j < |added|
      ensures !Collide(OpsOf(rows)[i], FreshOps(ops, freshAt)[j])
    {
      assert OpsOf(rows)[i] == rows[i].op && FreshOps(ops, freshAt)[j] == added[j].op;
    }
  }

  /**
   The next-slot check read a possibly stale maximum; the uniqueness constraint is what makes it safe. An author's
   slot that was the next one then and is still free now is the next one now.
   */
  lemma StaleHeadIsCurrent(stored: seq<Op>, seen: nat, heads: map<Uuid, nat>, added: seq<Op>, k: nat)
    requires seen <= |stored| && Chained(stored) && Chained(stored[..seen])
    requires k < |added| && Continues(heads, added)
    requires HeadOf(heads, added[k].Author()) == Positions(stored[..seen], added[k].Author())
    requires Apart(stored, added)
    ensures Positions(stored, added[k].Author()) == HeadOf(heads, added[k].Author())
  {
    var author := added[k].Author();
    PositionsGrow(stored, author, seen, |stored|);
    assert stored[..|stored|] == stored;
    FirstOfAuthor(added, k);
    var f :| 0 <= f <= k && added[f].Author() == author && Positions(added[..f], author) == 0;
    assert ContinuesAt(heads, added, f);
    var slot := added[f].header.authorSeq;
    forall i | 0 <= i < |stored|
      ensures !(stored[i].Author() == author && stored[i].header.authorSeq == slot)
    {
      assert !Collide(stored[i], added[f]);
    }
    if slot <= Positions(stored, author) {
      PositionFilled(stored, author, slot);
      assert false;
    }
  }

  lemma AppendKeepsChains(stored: seq<Op>, seen: nat, heads: map<Uuid, nat>, added: seq<Op>)
    requires seen <= |stored| && Chained(stored) && Chained(stored[..seen])
    requires Continues(heads, added)
    requires forall k | 0 <= k < |added| ::
               HeadOf(heads, added[k].Author()) == Positions(stored[..seen], added[k].Author())
    requires Apart(stored, added)
    ensures Chained(stored + added)
  {
    hide Positions, Collide, HeadOf;
    var all := stored + added;
    forall i | 0 <= i < |all|
      ensures all[i].header.authorSeq == Positions(all[..i], all[i].Author()) + 1
    {
      if i < |stored| {
        assert all[..i] == stored[..i];
      } else {
        var k := i - |stored|;
        StaleHeadIsCurrent(stored, seen, heads, added, k);
        assert ContinuesAt(heads, added, k);
        assert all[..i] == stored + added[..k];
        PositionsAppend(stored, added[..k], all[i].Author());
      }
    }
  }

  // --- One insert ---

  /** The insert of a plan made from stale reads, before anything is stamped. */
  lemma InsertKeepsChains(db: Db, p: Post, existing: seq<OpRow>, headRows: seq<OpRow>, plan: Plan, seqs: seq<nat>)
    requires Chained(OpsOf(db.ops)) && Chained(OpsOf(headRows)) && Extends(headRows, db.ops)
    requires PlanUpTo(ExistingSeqs(existing, OpIds(p.ops)), Heads(headRows, Authors(p.ops)), p.ops, |p.ops|)
          == Success(plan)
    requires FreshWithin(p.ops, plan.freshAt) && |seqs| == |p.ops| && |plan.freshAt| <= |seqs|
    requires !AnyCollision(db.ops, NewRows(p.ops, plan.freshAt, seqs))
    ensures Chained(OpsOf(db.ops + NewRows(p.ops, plan.freshAt, seqs)))
  {
    hide PlanUpTo, Heads, ExistingSeqs, Collide, AnyCollision;
    var heads := Heads(headRows, Authors(p.ops));
    PlanContinues(ExistingSeqs(existing, OpIds(p.ops)), heads, p.ops, |p.ops|);
    InsertedApart(db.ops, p.ops, plan.freshAt, seqs);
    var stored, added := OpsOf(db.ops), FreshOps(p.ops, plan.freshAt);
    assert OpsOf(headRows) == stored[..|headRows|];
    forall k | 0 <= k < |added|
      ensures HeadOf(heads, added[k].Author()) == Positions(stored[..|headRows|], added[k].Author())
    {
      assert p.ops[plan.freshAt[k]] in p.ops;
      HeadIsCount(headRows, Authors(p.ops), added[k].Author());
    }
    AppendKeepsChains(stored, |headRows|, heads, added);
  }

  lemma InsertKeepsOrder(rows: seq<OpRow>, ops: seq<Op>, freshAt: seq<nat>, seqs: seq<nat>)
    requires Increasing(rows) && FreshSeqs(rows, seqs)
    requires FreshWithin(ops, freshAt) && |freshAt| <= |seqs|
    ensures Increasing(rows + NewRows(ops, freshAt, seqs))
  {
  }

  lemma InsertKeepsKeys(existing: map<Key, nat>, rows: seq<OpRow>, ops: seq<Op>, plan: Plan, seqs: seq<nat>)
    requires UniqueKeys(OpsOf(rows)) && FreshFacts(existing, ops, plan)
    requires FreshWithin(ops, plan.freshAt) && |plan.freshAt| <= |seqs|
    requires !AnyCollision(rows, NewRows(ops, plan.freshAt, seqs))
    ensures UniqueKeys(OpsOf(rows + NewRows(ops, plan.freshAt, seqs)))
  {
    InsertedApart(rows, ops, plan.freshAt, seqs);
    var stored, added := OpsOf(rows), FreshOps(ops, plan.freshAt);
    forall i, j | 0 <= i < |stored| && 0 <= j < |added|
      ensures stored[i].Key() != added[j].Key()
    {
      assert !Collide(stored[i], added[j]);
    }
  }

  /** Keys of stored rows, and nothing else, are in the replay lookup. */
  lemma {:induction false} ExistingExactly(rows: seq<OpRow>, opIds: set<Uuid>, key: Key)
    ensures key in ExistingSeqs(rows, opIds)
            <==> key.1 in opIds && exists i | 0 <= i < |rows| :: rows[i].op.Key() == key
    ensures key in ExistingSeqs(rows, opIds) ==>
              exists i | 0 <= i < |rows| :: rows[i].op.Key() == key && rows[i].seqNo == ExistingSeqs(rows, opIds)[key]
  {
    if rows != [] {
      var n := |rows| - 1;
      ExistingExactly(rows[..n], opIds, key);
      assert forall i | 0 <= i < n :: rows[..n][i] == rows[i];
    }
  }

  // --- Stamps ---

  lemma TargetVerified(rows: seq<OpRow>, compactionOpId: Uuid, claimed: set<nat>, isReplay: bool, t: PruneTarget)
    requires CheckTarget(rows, compactionOpId, claimed, isReplay, t).None?
    ensures exists q | 0 <= q < |rows| :: Names(t, rows[q]) && !IsExempt(rows[q].op)
                                          && (!isReplay ==> rows[q].compactedBy.None?)
    ensures !isReplay ==> t.seqNo !in claimed
  {
  }

  lemma PruneStepVerified(p: Post, v: View, w: Walk, i: nat, t: PruneTarget)
    requires i < |p.ops| == |v.logs|
    requires WalkStep(p, v, w, i).Success? && p.ops[i].IsDecodedPrune() && t in p.ops[i].TargetsOf()
    ensures CheckTarget(v.logs[i], p.ops[i].body.prune.value.compactionOpId, w.claimedSeqs,
                        p.ops[i].header.opId in v.replayed, t).None?
  {
  }

  /** The prune row at `j` stands behind every one of its targets: an earlier, stampable row that it names exactly. */
  ghost predicate StandsBehind(rows: seq<OpRow>, j: nat)
    requires j < |rows|
  {
    && rows[j].op.IsDecodedPrune()
    && forall t | t in rows[j].op.TargetsOf() :: exists q | 0 <= q < j :: Names(t, rows[q]) && !IsExempt(rows[q].op)
  }

  lemma SameRowsStand(a: seq<OpRow>, b: seq<OpRow>, j: nat)
    requires SameRows(a, b) && j < |a| && StandsBehind(a, j)
    ensures StandsBehind(b, j)
  {
  }

  lemma SameRowsIncrease(a: seq<OpRow>, b: seq<OpRow>)
    requires SameRows(a, b) && Increasing(a)
    ensures Increasing(b)
  {
  }

  lemma StampKeepsSound(rows: seq<OpRow>, j: nat)
    requires Increasing(rows) && StampsSound(rows) && j < |rows| && StandsBehind(rows, j)
    ensures StampsSound(Stamp(rows, TargetSeqs(rows[j].op.TargetsOf()), rows[j].seqNo))
  {
    var targets := rows[j].op.TargetsOf();
    var stamped := Stamp(rows, TargetSeqs(targets), rows[j].seqNo);
    forall i | 0 <= i < |rows|
      ensures StampSound(stamped, i)
    {
      assert StampSound(rows, i);
      if stamped[i].compactedBy == rows[i].compactedBy {
        if rows[i].compactedBy.Some? {
          var k :| i < k < |rows| && rows[k].seqNo == rows[i].compactedBy.value && Attests(rows[k].op, rows[i]);
          assert stamped[k].seqNo == rows[i].compactedBy.value && Attests(stamped[k].op, stamped[i]);
        }
      } else {
        var t :| t in targets && t.seqNo == rows[i].seqNo;
        var q :| 0 <= q < j && Names(t, rows[q]) && !IsExempt(rows[q].op);
        assert q == i;
        assert Names(t, stamped[i]) && Attests(stamped[j].op, stamped[i]);
      }
    }
  }

  /** Every op of the batch that stamps anything is a stored prune that stands behind its targets. */
  ghost predicate Vouched(base: seq<OpRow>, op: Op, r: OpResult) {
    op.IsDecodedPrune() && !r.duplicate ==>
      exists j | 0 <= j < |base| :: base[j].seqNo == r.seqNo && base[j].op == op && StandsBehind(base, j)
  }

  lemma {:induction false} StampsAfterSound(base: seq<OpRow>, ops: seq<Op>, results: seq<OpResult>, n: nat)
    requires n <= |ops| == |results|
    requires Increasing(base) && StampsSound(base)
    requires forall i | 0 <= i < n :: Vouched(base, ops[i], results[i])
    requires StampsAfter(base, ops, results, n).Success?
    ensures StampsSound(StampsAfter(base, ops, results, n).value)
    ensures Extends(base, StampsAfter(base, ops, results, n).value)
    ensures SameRows(base, StampsAfter(base, ops, results, n).value)
  {
    if n > 0 {
      hide StampsSound, Extends, Vouched, PruneStep;
      StampsAfterSound(base, ops, results, n - 1);
      PruneKeepsSound(base, StampsAfter(base, ops, results, n - 1).value, ops[n - 1], results[n - 1], n - 1);
    }
  }

  lemma PruneKeepsSound(base: seq<OpRow>, rows: seq<OpRow>, op: Op, r: OpResult, i: nat)
    requires Increasing(base) && StampsSound(rows) && Extends(base, rows) && SameRows(base, rows)
    requires Vouched(base, op, r) && PruneStep(rows, op, r, i).Success?
    ensures var rows' := PruneStep(rows, op, r, i).value;
            StampsSound(rows') && Extends(base, rows') && SameRows(base, rows')
  {
    hide StampsSound, StandsBehind;
    SameRowsIncrease(base, rows);
    if op.IsDecodedPrune() && !r.duplicate {
      var j :| 0 <= j < |base| && base[j].seqNo == r.seqNo && base[j].op == op && StandsBehind(base, j);
      SameRowsStand(base, rows, j);
      StampKeepsSound(rows, j);
    }
  }

  lemma ExtendsTransitive(a: seq<OpRow>, b: seq<OpRow>, c: seq<OpRow>)
    requires Extends(a, b) && Extends(b, c)
    ensures Extends(a, c)
  {
  }

  lemma AppendExtends(rows: seq<OpRow>, added: seq<OpRow>)
    ensures Extends(rows, rows + added)
  {
  }

  lemma AppendKeepsStamps(rows: seq<OpRow>, added: seq<OpRow>)
    requires StampsSound(rows) && forall k | 0 <= k < |added| :: added[k].compactedBy.None?
    ensures StampsSound(rows + added)
  {
    var all := rows + added;
    forall i | 0 <= i < |all|
      ensures StampSound(all, i)
    {
      if i < |rows| {
        assert StampSound(rows, i);
        if rows[i].compactedBy.Some? {
          var j :| i < j < |rows| && rows[j].seqNo == rows[i].compactedBy.value && Attests(rows[j].op, rows[i]);
          assert all[j] == rows[j] && all[i] == rows[i];
        }
      }
    }
  }

  // --- Epoch rows ---

  lemma EffectKinds(op: Op)
    ensures EffectOf(op).Some? && EffectOf(op).value.Rotated? <==> op.IsRotate()
    ensures op.IsRotate() ==> EffectOf(op) == Some(Rotated(op.RotateOf()))
    ensures EffectOf(op).Some? && EffectOf(op).value.Granted? <==> op.IsGrant()
    ensures op.IsGrant() ==> EffectOf(op) == Some(Granted(op.GrantOf()))
    ensures EffectOf(op).Some? && EffectOf(op).value.Revoked? <==> op.IsRevoke()
    ensures op.IsRevoke() ==> EffectOf(op) == Some(Revoked(op.RevokeOf()))
  {
  }

  /** A rotate moves the walk's epoch one step from where it was; nothing else moves it. */
  lemma StepEpoch(p: Post, v: View, w: Walk, i: nat)
    requires i < |p.ops| == |v.logs|
    requires WalkStep(p, v, w, i).Success?
    ensures var w' := WalkStep(p, v, w, i).value;
            if p.ops[i].IsRotate()
            then p.ops[i].RotateOf().fromEpoch == w.epoch.GetOr(0) && w'.epoch == Some(p.ops[i].RotateOf().toEpoch)
            else w'.epoch == w.epoch
  {
    hide RequireRole, RequireFreshKeyEpoch, VerifyPrune, VerifyGenesis, VerifyMemberRegister, VerifyGrant,
      VerifyRevoke;
  }

  /** What `TablesAfter` does to the epoch rows, op by op. */
  lemma EffectStepEpochs(t: Tables, op: Op, r: OpResult)
    requires EffectStep(t, op, r).Success?
    ensures var t' := EffectStep(t, op, r).value;
            t'.epochs.Keys == t.epochs.Keys + if op.IsRotate() && !r.duplicate then {op.RotateOf().toEpoch} else {}
  {
  }

  /** The epochs of a duplicate rotate are already there, in the tables or from earlier in the batch. */
  ghost predicate DuplicatesMaterialised(epochs: set<nat>, ops: seq<Op>, results: seq<OpResult>) {
    && |ops| == |results|
    && forall i | 0 <= i < |ops| && ops[i].IsRotate() && results[i].duplicate ::
        ops[i].RotateOf().toEpoch in epochs || exists j | 0 <= j < i :: ops[j] == ops[i] && !results[j].duplicate
  }

  lemma {:induction false} EpochsAfter(p: Post, v: View, t: Tables, results: seq<OpResult>, n: nat)
    requires n <= |p.ops| == |results| == |v.logs|
    requires forall op | op in p.ops :: WellDecoded(op)
    requires WalkUpTo(p, v, n).Success? && TablesAfter(t, p.ops, results, n).Success?
    requires NoEpochGap(t.epochs.Keys) && (v.epoch.Some? ==> v.epoch.value in t.epochs)
    requires DuplicatesMaterialised(t.epochs.Keys, p.ops, results)
    ensures var epochs := TablesAfter(t, p.ops, results, n).value.epochs.Keys;
            && t.epochs.Keys <= epochs && NoEpochGap(epochs)
            && (forall i | 0 <= i < n && p.ops[i].IsRotate() :: p.ops[i].RotateOf().toEpoch in epochs)
            && (WalkUpTo(p, v, n).value.epoch.Some? ==> WalkUpTo(p, v, n).value.epoch.value in epochs)
  {
    hide WalkStep, EffectStep;
    if n > 0 {
      WalkLast(p, v, n);
      EpochsAfter(p, v, t, results, n - 1);
      StepEpoch(p, v, WalkUpTo(p, v, n - 1).value, n - 1);
      var t' := TablesAfter(t, p.ops, results, n - 1).value;
      EffectStepEpochs(t', p.ops[n - 1], results[n - 1]);
      assert p.ops[n - 1] in p.ops;
    }
  }

  // --- One whole commit ---

  /** The pieces of an answered append, materialised position by position. */
  ghost predicate Committed(
    db: Db, p: Post, existing: seq<OpRow>, headRows: seq<OpRow>, seqs: seq<nat>, plan: Plan,
    results: seq<OpResult>, db': Db)
  {
    var keys, heads := ExistingSeqs(existing, OpIds(p.ops)), Heads(headRows, Authors(p.ops));
    && PlanUpTo(keys, heads, p.ops, |p.ops|) == Success(plan)
    && PlanWithin(plan, p.ops) && |seqs| == |p.ops|
    && !AnyCollision(db.ops, NewRows(p.ops, plan.freshAt, seqs))
    && results == ResultsOf(plan.entries, seqs)
    && TablesAfter(TablesOf(db), p.ops, results, |p.ops|).Success?
    && StampsAfter(db.ops + NewRows(p.ops, plan.freshAt, seqs), p.ops, results, |p.ops|).Success?
    && db' == WithTables(db, StampsAfter(db.ops + NewRows(p.ops, plan.freshAt, seqs), p.ops, results, |p.ops|).value,
                         TablesAfter(TablesOf(db), p.ops, results, |p.ops|).value)
  }

  lemma AppendCommits(
    db: Db, p: Post, v: View, existing: seq<OpRow>, headRows: seq<OpRow>, seqs: seq<nat>, results: seq<OpResult>,
    db': Db)
    returns (plan: Plan)
    requires |p.ops| == |v.logs| == |seqs|
    requires WalkUpTo(p, v, |p.ops|).Success?
    requires AdmissionsWithin(WalkUpTo(p, v, |p.ops|).value, |p.ops|)
    requires Append(db, p, WalkUpTo(p, v, |p.ops|).value, existing, headRows, seqs) == Answered(results, db')
    ensures Committed(db, p, existing, headRows, seqs, plan, results, db')
  {
    hide WalkUpTo, PlanUpTo, ExistingSeqs, Heads, MaterialiseUpTo, StampUpTo, TablesAfter, StampsAfter, AnyCollision;
    var keys, heads := ExistingSeqs(existing, OpIds(p.ops)), Heads(headRows, Authors(p.ops));
    plan := PlanUpTo(keys, heads, p.ops, |p.ops|).value;
    PlanIsWithin(keys, heads, p.ops, |p.ops|);
    assert p.ops[..|p.ops|] == p.ops;
    WalkAdmits(p, v, |p.ops|);
    MaterialiseByPosition(TablesOf(db), p.ops, results, |p.ops|);
    StampByPosition(db.ops + NewRows(p.ops, plan.freshAt, seqs), p.ops, v.replayed, results, |p.ops|);
  }

  /** Where a result's seq points: the row of its op, new in this transaction exactly when it is no duplicate. */
  ghost predicate Accounted(stored: nat, base: seq<OpRow>, ops: seq<Op>, results: seq<OpResult>, i: nat)
    requires i < |ops| == |results|
  {
    && (exists j | 0 <= j < |base| :: base[j].op == ops[i] && base[j].seqNo == results[i].seqNo
                                      && (!results[i].duplicate ==> stored <= j))
    && (!results[i].duplicate ==> forall j | 0 <= j < i :: ops[j] != ops[i])
    && (results[i].duplicate ==>
          || (exists j | 0 <= j < stored && j < |base| :: base[j].op == ops[i] && base[j].seqNo == results[i].seqNo)
          || (exists j | 0 <= j < i ::
              ops[j] == ops[i] && !results[j].duplicate && results[j].seqNo == results[i].seqNo))
  }

  lemma ResultsAccounted(
    book: Book, db: Db, ops: seq<Op>, existing: seq<OpRow>, seqs: seq<nat>, plan: Plan, results: seq<OpResult>, i: nat)
    requires Honest(book, OpsOf(db.ops)) && Honest(book, ops) && Extends(existing, db.ops)
    requires PlanFacts(ExistingSeqs(existing, OpIds(ops)), ops, plan)
    requires PlanWithin(plan, ops) && |seqs| == |ops| && results == ResultsOf(plan.entries, seqs)
    requires i < |ops|
    ensures Accounted(|db.ops|, db.ops + NewRows(ops, plan.freshAt, seqs), ops, results, i)
  {
    hide ExistingSeqs, Honest, Extends, Accounted, OpIds, FreshFacts, StagedFacts;
    var added := NewRows(ops, plan.freshAt, seqs);
    var keys := ExistingSeqs(existing, OpIds(ops));
    var e := plan.entries[i];
    assert EntryFacts(keys, ops[i], e, plan.freshAt, ops, i);
    match e.source
    case Stored(s) =>
      StoredAccounted(book, db.ops, ops, existing, added, results, i);
    case Staged(k) =>
      if !e.duplicate {
        FreshIsFirst(keys, ops, plan, i, k);
      }
      assert plan.entries[plan.freshAt[k]].source == Staged(k);
      StagedAccounted(book, db.ops, ops, added, results, i, plan.freshAt[k], k);
  }

  lemma StoredAccounted(
    book: Book, stored: seq<OpRow>, ops: seq<Op>, existing: seq<OpRow>, added: seq<OpRow>, results: seq<OpResult>,
    i: nat)
    requires Honest(book, OpsOf(stored)) && Honest(book, ops) && Extends(existing, stored)
    requires i < |ops| == |results| && results[i].duplicate
    requires ops[i].Key() in ExistingSeqs(existing, OpIds(ops))
    requires ExistingSeqs(existing, OpIds(ops))[ops[i].Key()] == results[i].seqNo
    ensures Accounted(|stored|, stored + added, ops, results, i)
  {
    hide ExistingSeqs, OpIds;
    ExistingExactly(existing, OpIds(ops), ops[i].Key());
    var j :| 0 <= j < |existing| && existing[j].op.Key() == ops[i].Key() && existing[j].seqNo == results[i].seqNo;
    assert ops[i] in ops && OpsOf(stored)[j] in OpsOf(stored);
    assert (stored + added)[j] == stored[j] && stored[j].op == ops[i];
  }

  lemma StagedAccounted(
    book: Book, stored: seq<OpRow>, ops: seq<Op>, added: seq<OpRow>, results: seq<OpResult>, i: nat, f: nat, k: nat)
    requires Honest(book, ops) && f <= i < |ops| == |results| && ops[f].Key() == ops[i].Key()
    requires k < |added| && added[k].op == ops[f] && added[k].seqNo == results[i].seqNo
    requires !results[f].duplicate && results[f].seqNo == results[i].seqNo && (!results[i].duplicate <==> f == i)
    requires !results[i].duplicate ==> forall j | 0 <= j < i :: ops[j] != ops[i]
    ensures Accounted(|stored|, stored + added, ops, results, i)
  {
    assert ops[i] in ops && ops[f] in ops && ops[f] == ops[i];
    assert (stored + added)[|stored| + k] == added[k];
  }

  lemma FreshIsFirst(existing: map<Key, nat>, ops: seq<Op>, plan: Plan, i: nat, k: nat)
    requires PlanFacts(existing, ops, plan) && k < |plan.freshAt| && plan.freshAt[k] == i < |ops|
    requires |plan.entries| == |ops|
    ensures forall j | 0 <= j < i :: ops[j] != ops[i]
  {
    hide StagedFacts;
    forall j | 0 <= j < i
      ensures ops[j] != ops[i]
    {
      assert EntryFacts(existing, ops[j], plan.entries[j], plan.freshAt, ops, j);
      KeysDiffer(existing, ops, plan, j, k);
    }
  }

  lemma KeysDiffer(existing: map<Key, nat>, ops: seq<Op>, plan: Plan, j: nat, k: nat)
    requires FreshFacts(existing, ops, plan) && k < |plan.freshAt| && j < plan.freshAt[k] < |ops|
    requires j < |plan.entries| && EntryFacts(existing, ops[j], plan.entries[j], plan.freshAt, ops, j)
    ensures ops[j] != ops[plan.freshAt[k]]
  {
  }

  /** Every answer accounted for. */
  ghost predicate AllAccounted(stored: nat, rows: seq<OpRow>, ops: seq<Op>, results: seq<OpResult>) {
    |results| == |ops| && forall i | 0 <= i < |ops| :: Accounted(stored, rows, ops, results, i)
  }

  lemma ResultsVouched(
    book: Book, db: Db, p: Post, v: View, existing: seq<OpRow>, headRows: seq<OpRow>, seqs: seq<nat>,
    plan: Plan, results: seq<OpResult>, i: nat)
    requires ReadsAreStale(db, p, v, existing, headRows) && Honest(book, OpsOf(db.ops)) && Honest(book, p.ops)
    requires WalkUpTo(p, v, |p.ops|).Success?
    requires PlanFacts(ExistingSeqs(existing, OpIds(p.ops)), p.ops, plan)
    requires PlanWithin(plan, p.ops) && |seqs| == |p.ops| && results == ResultsOf(plan.entries, seqs)
    requires i < |p.ops|
    ensures Vouched(db.ops + NewRows(p.ops, plan.freshAt, seqs), p.ops[i], results[i])
  {
    hide CheckTarget, OpIds, WalkUpTo, WalkStep, ExistingSeqs, PlanFacts;
    var base := db.ops + NewRows(p.ops, plan.freshAt, seqs);
    var op := p.ops[i];
    if op.IsDecodedPrune() && !results[i].duplicate {
      ResultsAccounted(book, db, p.ops, existing, seqs, plan, results, i);
      var j :| 0 <= j < |base| && base[j].op == op && base[j].seqNo == results[i].seqNo && |db.ops| <= j;
      WalkPrefix(p, v, i + 1, |p.ops|);
      WalkLast(p, v, i + 1);
      var w := WalkUpTo(p, v, i).value;
      forall t | t in op.TargetsOf()
        ensures exists q | 0 <= q < j :: Names(t, base[q]) && !IsExempt(base[q].op)
      {
        PruneStepVerified(p, v, w, i, t);
        TargetVerified(v.logs[i], op.body.prune.value.compactionOpId, w.claimedSeqs, op.header.opId in v.replayed, t);
        var q :| 0 <= q < |v.logs[i]| && Names(t, v.logs[i][q]) && !IsExempt(v.logs[i][q].op);
        assert base[q] == db.ops[q] && Names(t, base[q]);
      }
      assert StandsBehind(base, j);
    }
  }

  lemma DuplicateRotates(
    db: Db, ops: seq<Op>, base: seq<OpRow>, results: seq<OpResult>)
    requires |ops| == |results| && |db.ops| <= |base| && base[..|db.ops|] == db.ops
    requires RotatesMaterialised(db.ops, db.epochs.Keys)
    requires forall i | 0 <= i < |ops| :: Accounted(|db.ops|, base, ops, results, i)
    ensures DuplicatesMaterialised(db.epochs.Keys, ops, results)
  {
    forall i | 0 <= i < |ops| && ops[i].IsRotate() && results[i].duplicate
      ensures ops[i].RotateOf().toEpoch in db.epochs.Keys
              || exists j | 0 <= j < i :: ops[j] == ops[i] && !results[j].duplicate
    {
      assert Accounted(|db.ops|, base, ops, results, i);
      if j :| 0 <= j < |db.ops| && base[j].op == ops[i] && base[j].seqNo == results[i].seqNo {
        assert db.ops[j] == base[j];
      }
    }
  }

  /** A commit that read stale tables still keeps the log: no fork, no gap, no false stamp, no missing epoch. */
  lemma CommitKeepsLog(
    book: Book, db: Db, p: Post, v: View, existing: seq<OpRow>, headRows: seq<OpRow>, seqs: seq<nat>,
    results: seq<OpResult>, db': Db)
    requires LogInv(book, db.ops, db.epochs.Keys) && ReadsAreStale(db, p, v, existing, headRows) && Honest(book, p.ops)
    requires |seqs| == |p.ops| && FreshSeqs(db.ops, seqs)
    requires WalkUpTo(p, v, |p.ops|).Success?
    requires AdmissionsWithin(WalkUpTo(p, v, |p.ops|).value, |p.ops|)
    requires Append(db, p, WalkUpTo(p, v, |p.ops|).value, existing, headRows, seqs) == Answered(results, db')
    ensures LogInv(book, db'.ops, db'.epochs.Keys)
    ensures Extends(db.ops, db'.ops) && db.epochs.Keys <= db'.epochs.Keys
    ensures AllAccounted(|db.ops|, db'.ops, p.ops, results)
  {
    hide WalkUpTo, PlanUpTo, ExistingSeqs, Heads, TablesAfter, StampsAfter, AnyCollision, PlanFacts, Append, EffectOf;
    var plan := AppendCommits(db, p, v, existing, headRows, seqs, results, db');
    var keys := ExistingSeqs(existing, OpIds(p.ops));
    PlanHolds(keys, Heads(headRows, Authors(p.ops)), p.ops, |p.ops|);
    var added := NewRows(p.ops, plan.freshAt, seqs);
    var base := db.ops + added;
    InsertKeepsChains(db, p, existing, headRows, plan, seqs);
    InsertKeepsOrder(db.ops, p.ops, plan.freshAt, seqs);
    assert FreshFacts(keys, p.ops, plan) by { FactsOfPlan(keys, p.ops, plan); }
    InsertKeepsKeys(keys, db.ops, p.ops, plan, seqs);
    InsertKeepsHonest(book, db.ops, p.ops, plan.freshAt, seqs);
    AppendKeepsStamps(db.ops, added);
    forall i | 0 <= i < |p.ops|
      ensures Vouched(base, p.ops[i], results[i]) && Accounted(|db.ops|, base, p.ops, results, i)
    {
      ResultsVouched(book, db, p, v, existing, headRows, seqs, plan, results, i);
      ResultsAccounted(book, db, p.ops, existing, seqs, plan, results, i);
    }
    StampsAfterSound(base, p.ops, results, |p.ops|);
    AppendExtends(db.ops, added);
    ExtendsTransitive(db.ops, base, db'.ops);
    SameRowsIncrease(base, db'.ops);
    assert OpsOf(db'.ops) == OpsOf(base);
    DuplicateRotates(db, p.ops, base, results);
    forall op | op in p.ops ensures WellDecoded(op) {}
    EpochsAfter(p, v, TablesOf(db), results, |p.ops|);
    RotatesStayMaterialised(db, p.ops, plan.freshAt, seqs, db'.ops, db'.epochs.Keys);
    forall i | 0 <= i < |p.ops|
      ensures Accounted(|db.ops|, db'.ops, p.ops, results, i)
    {
      AccountedSame(|db.ops|, base, db'.ops, p.ops, results, i);
    }
  }

  lemma FactsOfPlan(existing: map<Key, nat>, ops: seq<Op>, plan: Plan)
    requires PlanFacts(existing, ops, plan)
    ensures FreshFacts(existing, ops, plan)
  {
  }

  lemma InsertKeepsHonest(book: Book, rows: seq<OpRow>, ops: seq<Op>, freshAt: seq<nat>, seqs: seq<nat>)
    requires Honest(book, OpsOf(rows)) && Honest(book, ops)
    requires FreshWithin(ops, freshAt) && |freshAt| <= |seqs|
    ensures Honest(book, OpsOf(rows + NewRows(ops, freshAt, seqs)))
  {
    var added := NewRows(ops, freshAt, seqs);
    var all := OpsOf(rows + added);
    forall op | op in all
      ensures InBook(book, op)
    {
      var i :| 0 <= i < |all| && all[i] == op;
      if i < |rows| {
        assert OpsOf(rows)[i] in OpsOf(rows);
      } else {
        assert op == ops[freshAt[i - |rows|]];
      }
    }
  }

  lemma RotatesStayMaterialised(
    db: Db, ops: seq<Op>, freshAt: seq<nat>, seqs: seq<nat>, rows: seq<OpRow>, epochs: set<nat>)
    requires FreshWithin(ops, freshAt) && |freshAt| <= |seqs|
    requires SameRows(db.ops + NewRows(ops, freshAt, seqs), rows)
    requires RotatesMaterialised(db.ops, db.epochs.Keys) && db.epochs.Keys <= epochs
    requires forall i | 0 <= i < |ops| && ops[i].IsRotate() :: ops[i].RotateOf().toEpoch in epochs
    ensures RotatesMaterialised(rows, epochs)
  {
  }

  lemma AccountedSame(stored: nat, a: seq<OpRow>, b: seq<OpRow>, ops: seq<Op>, results: seq<OpResult>, i: nat)
    requires i < |ops| == |results| && SameRows(a, b) && Accounted(stored, a, ops, results, i)
    ensures Accounted(stored, b, ops, results, i)
  {
  }
}
