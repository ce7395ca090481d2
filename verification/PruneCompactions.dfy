/**
 A prune vouches for a Compaction of its own author: one the log holds, or one before it in its batch, and never one
 of its own targets. Source: backend/app/sync/routes.py.
 */
module PruneCompactions {
  import opened Wrappers
  import opened ByteStrings
  import opened Envelope
  import opened Payloads
  import opened OpLog
  import opened OpLogFacts
  import opened LogInvariant
  import opened GrantWalk
  import opened EpochWindow
  import opened Admission
  import opened KeyWraps
  import KeyPlane
  import opened Interleaving
  import opened Races

  // --- One batch ---

  /** The Compaction op a decoded prune names, by its author and op id. */
  function CompactionKey(prune: Op): Key
    requires prune.IsDecodedPrune()
  {
    (prune.Author(), prune.body.prune.value.compactionOpId)
  }

  predicate IsCompaction(op: Op, key: Key) {
    op.Key() == key && op.header.opClass == OP_CLASS_COMPACTION
  }

  /** Some row is the content row that the target names, and not the Compaction itself. */
  ghost predicate IsAttested(rows: seq<OpRow>, key: Key, t: PruneTarget) {
    exists q | 0 <= q < |rows| ::
      Names(t, rows[q]) && !rows[q].op.IsControl() && !rows[q].op.IsPrune() && rows[q].op.header.opId != key.1
  }

  /** The rows before op i of the batch, or the ops before it, hold the Compaction it names. */
  ghost predicate CompactionBefore(p: Post, rows: seq<OpRow>, i: nat)
    requires i < |p.ops| && p.ops[i].IsDecodedPrune()
  {
    || (exists q | 0 <= q < |rows| :: IsCompaction(rows[q].op, CompactionKey(p.ops[i])))
    || exists j | 0 <= j < i :: IsCompaction(p.ops[j], CompactionKey(p.ops[i]))
  }

  lemma {:induction false} CompactionsSaid(p: Post, v: View, n: nat, opId: Uuid)
    requires n <= |p.ops|
    ensures opId in SaidBefore(p, v, n).stagedCompactions
       <==> exists j | 0 <= j < n :: p.ops[j].header.opId == opId && p.ops[j].header.opClass == OP_CLASS_COMPACTION
  {
    hide Asserted, Certified, ControlOf, PruneOf, TargetSeqs;
    if n > 0 {
      CompactionsSaid(p, v, n - 1, opId);
    }
  }

  /** Each prune of a batch that passes the walk has its Compaction before it, and none of its targets is that one. */
  lemma AdmittedPruneHasItsCompaction(p: Post, v: View, i: nat)
    requires |v.logs| == |p.ops| && LogsIncrease(v) && WalkUpTo(p, v, |p.ops|).Success?
    requires forall op | op in p.ops :: op.Author() == p.caller.memberId
    requires i < |p.ops| && p.ops[i].IsPrune()
    ensures p.ops[i].IsDecodedPrune() && CompactionBefore(p, v.logs[i], i)
    ensures forall t | t in p.ops[i].TargetsOf() :: IsAttested(v.logs[i], CompactionKey(p.ops[i]), t)
  {
    hide WalkUpTo, SaidBefore, MayAuthor, InWindow, Increasing;
    WalkExactly(p, v, |p.ops|);
    assert StandsAt(p, v, i);
    var key := CompactionKey(p.ops[i]);
    assert p.ops[i] in p.ops;
    CompactionsSaid(p, v, i, key.1);
    if key.1 in SaidBefore(p, v, i).stagedCompactions {
      var j :| 0 <= j < i && p.ops[j].header.opId == key.1 && p.ops[j].header.opClass == OP_CLASS_COMPACTION;
      assert p.ops[j] in p.ops && IsCompaction(p.ops[j], key);
    } else {
      var r :| r in v.logs[i] && r.op.Key() == key && r.op.header.opClass == OP_CLASS_COMPACTION;
      var q :| 0 <= q < |v.logs[i]| && v.logs[i][q] == r;
      assert IsCompaction(v.logs[i][q].op, key);
    }
    forall t | t in p.ops[i].TargetsOf()
      ensures IsAttested(v.logs[i], key, t)
    {
      TargetIsAttested(v.logs[i], key, SaidBefore(p, v, i).claimedSeqs, p.ops[i].header.opId in v.replayed, t);
    }
  }

  lemma TargetIsAttested(rows: seq<OpRow>, key: Key, claimed: set<nat>, isReplay: bool, t: PruneTarget)
    requires TargetStands(rows, key.1, claimed, isReplay, t)
    ensures IsAttested(rows, key, t)
  {
    var r :| r in rows && Names(t, r) && !r.op.IsControl() && !r.op.IsPrune() && r.op.header.opId != key.1;
    var q :| 0 <= q < |rows| && rows[q] == r;
  }

  // --- The log ---

  /** The prune at `i` has its Compaction below it, and attests content rows below it, none of them that one. */
  ghost predicate PruneStandsOn(rows: seq<OpRow>, i: nat)
    requires i < |rows|
  {
    rows[i].op.IsPrune() ==>
      && rows[i].op.IsDecodedPrune()
      && (exists j | 0 <= j < i :: IsCompaction(rows[j].op, CompactionKey(rows[i].op)))
      && forall t | t in rows[i].op.TargetsOf() :: IsAttested(rows[..i], CompactionKey(rows[i].op), t)
  }

  ghost predicate PrunesStand(rows: seq<OpRow>) {
    forall i | 0 <= i < |rows| :: PruneStandsOn(rows, i)
  }

  lemma AttestedStays(a: seq<OpRow>, b: seq<OpRow>, key: Key, t: PruneTarget)
    requires |a| <= |b| && forall q | 0 <= q < |a| :: b[q].op == a[q].op && b[q].seqNo == a[q].seqNo
    requires IsAttested(a, key, t)
    ensures IsAttested(b, key, t)
  {
    var q :| 0 <= q < |a| && Names(t, a[q]) && !a[q].op.IsControl() && !a[q].op.IsPrune()
             && a[q].op.header.opId != key.1;
    assert Names(t, b[q]);
  }

  /** A prune goes on standing when rows are stamped or added. */
  lemma StandsOnStays(a: seq<OpRow>, b: seq<OpRow>, i: nat)
    requires i < |a| <= |b| && forall q | 0 <= q < |a| :: b[q].op == a[q].op && b[q].seqNo == a[q].seqNo
    requires PruneStandsOn(a, i)
    ensures PruneStandsOn(b, i)
  {
    if a[i].op.IsPrune() {
      var key := CompactionKey(a[i].op);
      var j :| 0 <= j < i && IsCompaction(a[j].op, key);
      assert IsCompaction(b[j].op, key);
      forall t | t in a[i].op.TargetsOf()
        ensures IsAttested(b[..i], key, t)
      {
        AttestedStays(a[..i], b[..i], key, t);
      }
    }
  }

  /** The row of the k-th staged op, if that op is a prune, stands on the rows it is inserted behind. */
  lemma NewPruneStands(
    book: Book, db: Db, p: Post, v: View, existing: seq<OpRow>, headRows: seq<OpRow>, seqs: seq<nat>, plan: Plan,
    k: nat)
    requires ReadsAreStale(db, p, v, existing, headRows) && Honest(book, OpsOf(db.ops)) && Honest(book, p.ops)
    requires LogsIncrease(v) && WalkUpTo(p, v, |p.ops|).Success?
    requires PlanFacts(ExistingSeqs(existing, OpIds(p.ops)), p.ops, plan)
    requires PlanWithin(plan, p.ops) && |seqs| == |p.ops| && k < |plan.freshAt|
    ensures PruneStandsOn(db.ops + NewRows(p.ops, plan.freshAt, seqs), |db.ops| + k)
  {
    hide WalkUpTo, PlanFacts, ExistingSeqs, OpIds, LogsIncrease, IsAttested, Honest;
    var base, f := db.ops + NewRows(p.ops, plan.freshAt, seqs), plan.freshAt[k];
    var row := |db.ops| + k;
    assert base[row].op == p.ops[f];
    if p.ops[f].IsPrune() {
      AdmittedPruneHasItsCompaction(p, v, f);
      var key := CompactionKey(p.ops[f]);
      if j :| 0 <= j < f && IsCompaction(p.ops[j], key) {
        var m := EarlierOpIsBelow(book, db, p, existing, seqs, plan, k, j);
        assert IsCompaction(base[m].op, key);
      } else {
        var q :| 0 <= q < |v.logs[f]| && IsCompaction(v.logs[f][q].op, key);
        assert base[q].op == db.ops[q].op == v.logs[f][q].op;
      }
      forall t | t in p.ops[f].TargetsOf()
        ensures IsAttested(base[..row], key, t)
      {
        AttestedStays(v.logs[f], base[..row], key, t);
      }
    }
  }

  /** An op before the k-th staged one in the batch is stored below it. */
  lemma EarlierOpIsBelow(
    book: Book, db: Db, p: Post, existing: seq<OpRow>, seqs: seq<nat>, plan: Plan, k: nat, j: nat)
    returns (m: nat)
    requires Extends(existing, db.ops) && Honest(book, OpsOf(db.ops)) && Honest(book, p.ops)
    requires PlanFacts(ExistingSeqs(existing, OpIds(p.ops)), p.ops, plan)
    requires PlanWithin(plan, p.ops) && |seqs| == |p.ops| && k < |plan.freshAt| && j < plan.freshAt[k]
    ensures m < |db.ops| + k && (db.ops + NewRows(p.ops, plan.freshAt, seqs))[m].op == p.ops[j]
  {
    hide ExistingSeqs, OpIds, StagedFacts;
    var keys := ExistingSeqs(existing, OpIds(p.ops));
    assert EntryFacts(keys, p.ops[j], plan.entries[j], plan.freshAt, p.ops, j);
    assert p.ops[j] in p.ops;
    match plan.entries[j].source
    case Stored(s) =>
      ExistingExactly(existing, OpIds(p.ops), p.ops[j].Key());
      m :| 0 <= m < |existing| && existing[m].op.Key() == p.ops[j].Key();
      assert OpsOf(db.ops)[m] in OpsOf(db.ops);
    case Staged(l) =>
      assert p.ops[plan.freshAt[l]] in p.ops;
      assert l < k;
      m := |db.ops| + l;
  }

  /** A commit decided on stale reads leaves every stored prune standing on its Compaction. */
  lemma CommitKeepsPrunes(
    book: Book, db: Db, p: Post, v: View, existing: seq<OpRow>, headRows: seq<OpRow>, seqs: seq<nat>,
    results: seq<OpResult>, db': Db)
    requires LogInv(book, db.ops, db.epochs.Keys) && ReadsAreStale(db, p, v, existing, headRows) && Honest(book, p.ops)
    requires |seqs| == |p.ops| == |v.logs| && LogsIncrease(v) && WalkUpTo(p, v, |p.ops|).Success?
    requires AdmissionsWithin(WalkUpTo(p, v, |p.ops|).value, |p.ops|)
    requires Append(db, p, WalkUpTo(p, v, |p.ops|).value, existing, headRows, seqs) == Answered(results, db')
    requires PrunesStand(db.ops)
    ensures PrunesStand(db'.ops)
  {
    hide WalkUpTo, PlanUpTo, ExistingSeqs, Heads, TablesAfter, StampsAfter, AnyCollision, PlanFacts, Append,
      PruneStandsOn, LogsIncrease, ReadsAreStale, Honest;
    var plan := AppendCommits(db, p, v, existing, headRows, seqs, results, db');
    PlanHolds(ExistingSeqs(existing, OpIds(p.ops)), Heads(headRows, Authors(p.ops)), p.ops, |p.ops|);
    var base := db.ops + NewRows(p.ops, plan.freshAt, seqs);
    StampsKeepRows(base, p.ops, results, |p.ops|);
    forall i | 0 <= i < |db'.ops|
      ensures PruneStandsOn(db'.ops, i)
    {
      if i < |db.ops| {
        StandsOnStays(db.ops, db'.ops, i);
      } else {
        NewPruneStands(book, db, p, v, existing, headRows, seqs, plan, i - |db.ops|);
        StandsOnStays(base, db'.ops, i);
      }
    }
  }

  // --- Every run ---

  lemma StepKeepsPrunes(site: Site, book: Book, strings: set<Bytes>, hist: seq<Db>, t: Txn)
    requires GoodHistory(book, hist) && Legal(site, book, strings, hist, t)
    requires PrunesStand(hist[|hist| - 1].ops)
    ensures PrunesStand(Perform(site, book, strings, hist, t).0.ops)
  {
    hide LogInv, WalkUpTo, Append, KeyPlane.Decide, KeyPlane.Validate, KeyPlane.Recheck, PrunesStand, ReadsAreStale,
      Grows;
    var db := hist[|hist| - 1];
    assert Good(book, db);
    if t.PostTxn? && Walked(hist, t.post, t.walk).Success? {
      var p, v := t.post, ViewAt(hist, t.post, t.walk);
      var existing, headRows := hist[t.append.existing].ops, hist[t.append.heads].ops;
      var outcome := AppendAt(hist, |hist| - 1, p, Walked(hist, p, t.walk).value, t.append, t.seqs);
      if outcome.Answered? {
        EarlierReadsAreStale(book, hist, p, t.walk, t.append);
        VersionsIncrease(book, hist, p, t.walk);
        CommitKeepsPrunes(book, db, p, v, existing, headRows, t.seqs, outcome.results, outcome.db);
      }
    }
  }

  lemma VersionsIncrease(book: Book, hist: seq<Db>, p: Post, walk: WalkReads)
    requires GoodHistory(book, hist) && ReadsWithin(walk, |hist|, |p.ops|)
    ensures LogsIncrease(ViewAt(hist, p, walk))
  {
    hide Increasing, Chained, UniqueKeys, Honest, StampsSound, RotatesMaterialised, NoEpochGap, Grows;
    var v := ViewAt(hist, p, walk);
    forall i | 0 <= i < |v.logs|
      ensures Increasing(v.logs[i])
    {
      assert Good(book, hist[walk.logs[i]]);
    }
  }

  lemma {:induction false} PrunesStandInRuns(
    site: Site, book: Book, strings: set<Bytes>, hist: seq<Db>, txns: seq<Txn>, k: nat)
    requires Run(site, book, strings, hist, txns) && k < |hist|
    ensures PrunesStand(hist[k].ops)
  {
    hide Legal, Perform, GoodHistory, PruneStandsOn;
    if k > 0 {
      PrunesStandInRuns(site, book, strings, hist, txns, k - 1);
      RunIsGood(site, book, strings, hist, txns, k - 1);
      assert RunStep(site, book, strings, hist, txns, k - 1);
      StepKeepsPrunes(site, book, strings, hist[..k], txns[k - 1]);
    }
  }

  /**
   In every state of every run each stored prune has a Compaction of its author, under the op id it names, at a lower
   seq, and each of its targets is a content row at a lower seq that is not that Compaction.
   */
  lemma EveryPruneHasItsCompaction(
    site: Site, book: Book, strings: set<Bytes>, hist: seq<Db>, txns: seq<Txn>, k: nat, i: nat)
    returns (j: nat)
    requires Run(site, book, strings, hist, txns) && k < |hist| && i < |hist[k].ops| && hist[k].ops[i].op.IsPrune()
    ensures hist[k].ops[i].op.IsDecodedPrune() && j < |hist[k].ops|
    ensures hist[k].ops[j].seqNo < hist[k].ops[i].seqNo && hist[k].ops[j].op.header.opClass == OP_CLASS_COMPACTION
    ensures hist[k].ops[j].op.Author() == hist[k].ops[i].op.Author()
    ensures hist[k].ops[j].op.header.opId == hist[k].ops[i].op.body.prune.value.compactionOpId
    ensures forall t | t in hist[k].ops[i].op.TargetsOf() :: exists q | 0 <= q < i ::
              && Names(t, hist[k].ops[q]) && hist[k].ops[q].seqNo < hist[k].ops[i].seqNo && q != j
              && hist[k].ops[q].op.header.opClass !in {OP_CLASS_CONTROL, OP_CLASS_PRUNE}
  {
    hide Run, Names, Grows, Chained, UniqueKeys, Honest, StampsSound, RotatesMaterialised, NoEpochGap;
    var rows := hist[k].ops;
    VersionIsGood(site, book, strings, hist, txns, k, k);
    PrunesStandInRuns(site, book, strings, hist, txns, k);
    assert PruneStandsOn(rows, i);
    j :| 0 <= j < i && IsCompaction(rows[j].op, CompactionKey(rows[i].op));
    forall t | t in rows[i].op.TargetsOf()
      ensures exists q | 0 <= q < i :: Names(t, rows[q]) && rows[q].seqNo < rows[i].seqNo && q != j
                                       && rows[q].op.header.opClass !in {OP_CLASS_CONTROL, OP_CLASS_PRUNE}
    {
      assert IsAttested(rows[..i], CompactionKey(rows[i].op), t);
      var q :| 0 <= q < |rows[..i]| && Names(t, rows[..i][q])
               && !rows[..i][q].op.IsControl() && !rows[..i][q].op.IsPrune()
               && rows[..i][q].op.header.opId != CompactionKey(rows[i].op).1;
      assert rows[..i][q] == rows[q];
    }
  }
}
