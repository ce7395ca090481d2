/**
 The guarded `UPDATE` of a prune stamps as many rows as it has targets unless another transaction stamped one of
 them after this one's verification. No collision inside one batch can be mistaken for that race.
 */
module PruneRaces {
  import opened Wrappers
  import opened ByteStrings
  import opened Envelope
  import opened Payloads
  import opened OpLog
  import opened OpLogFacts
  import opened LogInvariant

  // --- Claims ---

  /** A verified prune claims its targets, and a fresh one claims nothing already claimed. */
  lemma StepClaims(p: Post, v: View, w: Walk, i: nat)
    requires i < |p.ops| == |v.logs|
    requires WalkStep(p, v, w, i).Success?
    ensures WalkStep(p, v, w, i).value.claimedSeqs
         == w.claimedSeqs + if p.ops[i].IsDecodedPrune() then TargetSeqs(p.ops[i].TargetsOf()) else {}
  {
    hide RequireRole, RequireFreshKeyEpoch, CheckTargets, StoredCompaction, VerifyGenesis, VerifyMemberRegister,
      VerifyGrant, VerifyRevoke, VerifyRotate, TargetSeqs;
  }

  lemma {:induction false} ClaimsGrow(p: Post, v: View, n: nat, m: nat)
    requires n <= m <= |p.ops| == |v.logs|
    requires WalkUpTo(p, v, m).Success? && WalkUpTo(p, v, n).Success?
    ensures WalkUpTo(p, v, n).value.claimedSeqs <= WalkUpTo(p, v, m).value.claimedSeqs
    decreases m
  {
    hide WalkStep;
    if n < m {
      WalkLast(p, v, m);
      StepClaims(p, v, WalkUpTo(p, v, m - 1).value, m - 1);
      ClaimsGrow(p, v, n, m - 1);
    }
  }

  /** Only claimed rows have been stamped. */
  lemma {:induction false} StampedWereClaimed(
    p: Post, v: View, base: seq<OpRow>, results: seq<OpResult>, n: nat, q: nat)
    requires n <= |p.ops| == |v.logs| == |results| && q < |base|
    requires WalkUpTo(p, v, n).Success? && StampsAfter(base, p.ops, results, n).Success?
    ensures q < |StampsAfter(base, p.ops, results, n).value|
    ensures base[q].compactedBy.None? && base[q].seqNo !in WalkUpTo(p, v, n).value.claimedSeqs ==>
              StampsAfter(base, p.ops, results, n).value[q] == base[q]
  {
    hide WalkStep, TargetSeqs;
    if n > 0 {
      WalkLast(p, v, n);
      StampedWereClaimed(p, v, base, results, n - 1, q);
      StepClaims(p, v, WalkUpTo(p, v, n - 1).value, n - 1);
    }
  }

  // --- Counting ---

  /** The seqs of unstamped rows. */
  ghost function UnstampedSeqs(rows: seq<OpRow>): set<nat> {
    if rows == [] then {}
    else
      var row := rows[|rows| - 1];
      UnstampedSeqs(rows[..|rows| - 1]) + if row.compactedBy.None? then {row.seqNo} else {}
  }

  lemma {:induction false} UnstampedExactly(rows: seq<OpRow>, s: nat)
    ensures s in UnstampedSeqs(rows) <==> exists i | 0 <= i < |rows| :: rows[i].seqNo == s && rows[i].compactedBy.None?
  {
    if rows != [] {
      var n := |rows| - 1;
      UnstampedExactly(rows[..n], s);
      assert forall i | 0 <= i < n :: rows[..n][i] == rows[i];
    }
  }

  lemma {:induction false} StampableCounts(rows: seq<OpRow>, seqs: set<nat>)
    requires Increasing(rows)
    ensures Stampable(rows, seqs) == |seqs * UnstampedSeqs(rows)|
  {
    hide Increasing;
    if rows == [] {
      assert seqs * UnstampedSeqs(rows) == {};
    } else {
      var front, row := rows[..|rows| - 1], rows[|rows| - 1];
      NewestIsApart(rows);
      StampableCounts(front, seqs);
      AddingOne(seqs, UnstampedSeqs(front), row.seqNo);
      assert UnstampedSeqs(front) + {} == UnstampedSeqs(front);
    }
  }

  lemma NewestIsApart(rows: seq<OpRow>)
    requires Increasing(rows) && rows != []
    ensures Increasing(rows[..|rows| - 1]) && rows[|rows| - 1].seqNo !in UnstampedSeqs(rows[..|rows| - 1])
  {
    hide UnstampedSeqs;
    UnstampedExactly(rows[..|rows| - 1], rows[|rows| - 1].seqNo);
  }

  lemma AddingOne(seqs: set<nat>, free: set<nat>, s: nat)
    requires s !in free
    ensures |seqs * (free + {s})| == |seqs * free| + if s in seqs then 1 else 0
  {
    assert seqs * (free + {s}) == seqs * free + if s in seqs then {s} else {};
  }

  lemma {:induction false} TargetSeqsCount(targets: seq<PruneTarget>)
    requires DistinctTargets(targets)
    ensures |TargetSeqs(targets)| == |targets|
  {
    hide DistinctTargets, TargetSeqs;
    if targets == [] {
      assert TargetSeqs(targets) == {} by { NoTargetSeqs(); }
    } else {
      LastTargetIsNew(targets);
      TargetSeqsCount(targets[..|targets| - 1]);
    }
  }

  lemma NoTargetSeqs()
    ensures TargetSeqs([]) == {}
  {
  }

  lemma LastTargetIsNew(targets: seq<PruneTarget>)
    requires DistinctTargets(targets) && targets != []
    ensures var front, last := targets[..|targets| - 1], targets[|targets| - 1];
            DistinctTargets(front) && last.seqNo !in TargetSeqs(front)
              && TargetSeqs(targets) == TargetSeqs(front) + {last.seqNo}
  {
    var front, last := targets[..|targets| - 1], targets[|targets| - 1];
    assert targets == front + [last];
    assert forall i | 0 <= i < |front| :: front[i] == targets[i];
  }

  /** The `UPDATE` misses a row exactly when a target has no unstamped row. */
  lemma RowcountExactly(rows: seq<OpRow>, targets: seq<PruneTarget>)
    requires Increasing(rows) && DistinctTargets(targets)
    ensures Stampable(rows, TargetSeqs(targets)) == |targets| <==>
              forall t | t in targets :: t.seqNo in UnstampedSeqs(rows)
  {
    var seqs, free := TargetSeqs(targets), UnstampedSeqs(rows);
    StampableCounts(rows, seqs);
    TargetSeqsCount(targets);
    if |seqs * free| == |seqs| {
      SubsetOfSameSize(seqs * free, seqs);
      forall t | t in targets
        ensures t.seqNo in free
      {
        assert t.seqNo in seqs * free;
      }
    }
    if forall t | t in targets :: t.seqNo in free {
      assert seqs * free == seqs;
    }
  }

  lemma {:induction false} SubsetOfSameSize(a: set<nat>, b: set<nat>)
    requires a <= b && |a| == |b|
    ensures a == b
  {
    if x :| x in b && x !in a {
      assert a <= b - {x};
      SubsetIsSmaller(a, b - {x});
    }
  }

  lemma {:induction false} SubsetIsSmaller(a: set<nat>, b: set<nat>)
    requires a <= b
    ensures |a| <= |b|
  {
    if a != {} {
      var x :| x in a;
      SubsetIsSmaller(a - {x}, b - {x});
    }
  }

  // --- The one cause of a mismatch ---

  /** A target of op i was unstamped when op i was verified and is stamped in the tables it commits against. */
  ghost predicate StampedSince(p: Post, v: View, db: Db, i: nat)
    requires i < |p.ops| == |v.logs|
  {
    p.ops[i].IsDecodedPrune() &&
    exists t, q :: t in p.ops[i].TargetsOf() && 0 <= q < |v.logs[i]| && q < |db.ops| && Names(t, v.logs[i][q])
                   && v.logs[i][q].compactedBy.None? && db.ops[q].compactedBy.Some?
  }

  lemma MismatchIsARace(
    p: Post, v: View, db: Db, added: seq<OpRow>, results: seq<OpResult>, i: nat)
    requires i < |p.ops| == |v.logs| == |results| && WellDecoded(p.ops[i])
    requires WalkUpTo(p, v, i + 1).Success? && p.ops[i].IsDecodedPrune() && !results[i].duplicate
    requires Extends(v.logs[i], db.ops) && Increasing(db.ops + added)
    requires p.ops[i].header.opId !in v.replayed
    requires StampsAfter(db.ops + added, p.ops, results, i).Success?
    requires StampsAfter(db.ops + added, p.ops, results, i + 1).Failure?
    ensures StampedSince(p, v, db, i)
  {
    hide WalkUpTo, WalkStep, CheckTarget;
    var base := db.ops + added;
    var op := p.ops[i];
    var targets := op.TargetsOf();
    var rows := StampsAfter(base, p.ops, results, i).value;
    WalkLast(p, v, i + 1);
    var w := WalkUpTo(p, v, i).value;
    StampsKeepRows(base, p.ops, results, i);
    SameRowsIncrease(base, rows);
    RowcountExactly(rows, targets);
    if !StampedSince(p, v, db, i) {
      forall t | t in targets
        ensures t.seqNo in UnstampedSeqs(rows)
      {
        PruneStepVerified(p, v, w, i, t);
        TargetVerified(v.logs[i], op.body.prune.value.compactionOpId, w.claimedSeqs, false, t);
        var q :| 0 <= q < |v.logs[i]| && Names(t, v.logs[i][q]) && !IsExempt(v.logs[i][q].op)
                 && v.logs[i][q].compactedBy.None?;
        assert base[q] == db.ops[q];
        StampedWereClaimed(p, v, base, results, i, q);
        UnstampedExactly(rows, t.seqNo);
      }
      assert false;
    }
  }

  /** The first op whose stamp fails, when the batch's stamps fail. */
  lemma {:induction false} FirstFailingStamp(base: seq<OpRow>, ops: seq<Op>, results: seq<OpResult>, n: nat)
    returns (i: nat)
    requires n <= |ops| == |results| && StampsAfter(base, ops, results, n).Failure?
    ensures i < n && StampsAfter(base, ops, results, i).Success? && StampsAfter(base, ops, results, i + 1).Failure?
    ensures ops[i].IsDecodedPrune() && !results[i].duplicate
    ensures StampsAfter(base, ops, results, n) == Failure(Refusal(PruneTargetAlreadyCompacted(None), Some(i)))
  {
    if StampsAfter(base, ops, results, n - 1).Failure? {
      i := FirstFailingStamp(base, ops, results, n - 1);
    } else {
      i := n - 1;
    }
  }

  /**
   A POST refused at the guarded `UPDATE` lost a race: another transaction stamped one of its targets between its
   verification and its commit.
   */
  lemma RowcountMismatchMeansRace(
    book: Book, db: Db, p: Post, v: View, existing: seq<OpRow>, headRows: seq<OpRow>, seqs: seq<nat>, plan: Plan,
    results: seq<OpResult>, t: Tables)
    returns (i: nat)
    requires LogInv(book, db.ops, db.epochs.Keys) && ReadsAreStale(db, p, v, existing, headRows) && Honest(book, p.ops)
    requires |seqs| == |p.ops| && FreshSeqs(db.ops, seqs) && WalkUpTo(p, v, |p.ops|).Success?
    requires PlanUpTo(ExistingSeqs(existing, OpIds(p.ops)), Heads(headRows, Authors(p.ops)), p.ops, |p.ops|)
          == Success(plan)
    requires PlanWithin(plan, p.ops) && results == ResultsOf(plan.entries, seqs)
    requires StampsAfter(db.ops + NewRows(p.ops, plan.freshAt, seqs), p.ops, results, |p.ops|).Failure?
    ensures i < |p.ops| && StampedSince(p, v, db, i)
    ensures StampsAfter(db.ops + NewRows(p.ops, plan.freshAt, seqs), p.ops, results, |p.ops|)
         == Failure(Refusal(PruneTargetAlreadyCompacted(None), Some(i)))
  {
    hide PlanUpTo, Heads, ExistingSeqs, WalkUpTo, StampsAfter, StampedSince, WellDecoded, OpIds, ReadsAreStale,
      LogInv, Honest, FreshSeqs, NewRows, PlanFacts, ResultsOf;
    var keys := ExistingSeqs(existing, OpIds(p.ops));
    var added := NewRows(p.ops, plan.freshAt, seqs);
    i := FirstFailingStamp(db.ops + added, p.ops, results, |p.ops|);
    PlanHolds(keys, Heads(headRows, Authors(p.ops)), p.ops, |p.ops|);
    LogInvIncreases(book, db);
    InsertKeepsOrder(db.ops, p.ops, plan.freshAt, seqs);
    HonestIsDecoded(book, p.ops, i);
    StaleLog(db, p, v, existing, headRows, i);
    WalkPrefix(p, v, i + 1, |p.ops|);
    ResultFlag(plan, seqs, results, i);
    FreshIsNoReplay(db, p, v, existing, headRows, plan, i);
    MismatchIsARace(p, v, db, added, results, i);
  }

  /** A plan is refused for a chain conflict and nothing else. */
  lemma {:induction false} PlanRefusesOtherwise(existing: map<Key, nat>, heads: map<Uuid, nat>, ops: seq<Op>, n: nat)
    requires n <= |ops|
    ensures PlanUpTo(existing, heads, ops, n).Failure?
            ==> PlanUpTo(existing, heads, ops, n).error.code.AuthorChainConflict?
  {
    if n > 0 {
      PlanRefusesOtherwise(existing, heads, ops, n - 1);
    }
  }

  /** The same, from what the requester is told. */
  lemma ShortRowcountMeansRace(
    book: Book, db: Db, p: Post, v: View, existing: seq<OpRow>, headRows: seq<OpRow>, seqs: seq<nat>,
    index: Option<nat>)
    returns (i: nat)
    requires LogInv(book, db.ops, db.epochs.Keys) && ReadsAreStale(db, p, v, existing, headRows) && Honest(book, p.ops)
    requires |seqs| == |p.ops| == |v.logs| && FreshSeqs(db.ops, seqs) && WalkUpTo(p, v, |p.ops|).Success?
    requires AdmissionsWithin(WalkUpTo(p, v, |p.ops|).value, |p.ops|)
    requires Append(db, p, WalkUpTo(p, v, |p.ops|).value, existing, headRows, seqs)
          == Refused(Refusal(PruneTargetAlreadyCompacted(None), index))
    ensures index == Some(i) && i < |p.ops| && StampedSince(p, v, db, i)
  {
    hide LogInv, ReadsAreStale, Honest, FreshSeqs, WalkUpTo, PlanUpTo, ExistingSeqs, Heads, StampsAfter,
      MaterialiseUpTo, StampUpTo, AnyCollision, StampedSince;
    var keys, heads := ExistingSeqs(existing, OpIds(p.ops)), Heads(headRows, Authors(p.ops));
    PlanRefusesOtherwise(keys, heads, p.ops, |p.ops|);
    var plan := PlanUpTo(keys, heads, p.ops, |p.ops|).value;
    PlanIsWithin(keys, heads, p.ops, |p.ops|);
    assert p.ops[..|p.ops|] == p.ops;
    var results := ResultsOf(plan.entries, seqs);
    WalkAdmits(p, v, |p.ops|);
    StampByPosition(db.ops + NewRows(p.ops, plan.freshAt, seqs), p.ops, v.replayed, results, |p.ops|);
    i := RowcountMismatchMeansRace(book, db, p, v, existing, headRows, seqs, plan, results, TablesOf(db));
  }

  lemma LogInvIncreases(book: Book, db: Db)
    requires LogInv(book, db.ops, db.epochs.Keys)
    ensures Increasing(db.ops)
  {
  }

  lemma HonestIsDecoded(book: Book, ops: seq<Op>, i: nat)
    requires i < |ops| && Honest(book, ops)
    ensures WellDecoded(ops[i])
  {
    assert InBook(book, ops[i]);
  }

  lemma StaleLog(db: Db, p: Post, v: View, existing: seq<OpRow>, headRows: seq<OpRow>, i: nat)
    requires ReadsAreStale(db, p, v, existing, headRows) && i < |p.ops|
    ensures |v.logs| == |p.ops| && Extends(v.logs[i], db.ops)
  {
  }

  lemma ResultFlag(plan: Plan, seqs: seq<nat>, results: seq<OpResult>, i: nat)
    requires forall e | e in plan.entries :: e.source.Staged? ==> e.source.k < |seqs|
    requires results == ResultsOf(plan.entries, seqs) && i < |results|
    ensures results[i].duplicate == plan.entries[i].duplicate
  {
  }

  /** What the walk saw stored, the append sees stored: a replay is never inserted again. */
  lemma FreshIsNoReplay(
    db: Db, p: Post, v: View, existing: seq<OpRow>, headRows: seq<OpRow>, plan: Plan, i: nat)
    requires ReadsAreStale(db, p, v, existing, headRows)
    requires PlanFacts(ExistingSeqs(existing, OpIds(p.ops)), p.ops, plan) && |plan.entries| == |p.ops|
    requires i < |p.ops| && !plan.entries[i].duplicate
    ensures p.ops[i].header.opId !in v.replayed
  {
    var keys := ExistingSeqs(existing, OpIds(p.ops));
    var op := p.ops[i];
    assert EntryFacts(keys, op, plan.entries[i], plan.freshAt, p.ops, i);
    assert op.Key() !in keys;
    ExistingExactly(existing, OpIds(p.ops), op.Key());
    assert op in p.ops && op.header.opId in OpIds(p.ops);
    assert forall r | r in existing :: exists j | 0 <= j < |existing| :: existing[j] == r;
  }

  /** A POST no other request overlaps never misses a row. */
  lemma SerialPruneNeverMisses(p: Post, v: View, db: Db, i: nat)
    requires i < |p.ops| == |v.logs| && v.logs[i] == db.ops
    ensures !StampedSince(p, v, db, i)
  {
  }
}
