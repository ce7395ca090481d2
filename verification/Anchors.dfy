/**
 What stamps and epoch rows stand on, in every run of overlapping requests: a row is stamped exactly by the stored
 prune that attests it, and an epoch row past 0 carries the digest of a stored rotate.
 Source: backend/app/sync/routes.py and models.py.
 */
module Anchors {
  import opened Wrappers
  import opened ByteStrings
  import opened Payloads
  import opened OpLog
  import opened OpLogFacts
  import opened LogInvariant
  import opened PruneRaces
  import opened Serial
  import opened KeyWraps
  import opened KeyPlane
  import opened Interleaving
  import opened Races

  // --- Prunes stamp all they attest ---

  /** Some row is the one that the target names, stamped with the seq. */
  ghost predicate IsStamped(rows: seq<OpRow>, t: PruneTarget, pruneSeq: nat) {
    exists q | 0 <= q < |rows| :: Names(t, rows[q]) && rows[q].compactedBy == Some(pruneSeq)
  }

  /** The prune at `i` has stamped every row it attests. */
  ghost predicate HasStamped(rows: seq<OpRow>, i: nat)
    requires i < |rows|
  {
    rows[i].op.IsDecodedPrune() ==> forall t | t in rows[i].op.TargetsOf() :: IsStamped(rows, t, rows[i].seqNo)
  }

  ghost predicate AllStamped(rows: seq<OpRow>) {
    forall i | 0 <= i < |rows| :: HasStamped(rows, i)
  }

  lemma StampedStays(a: seq<OpRow>, b: seq<OpRow>, t: PruneTarget, pruneSeq: nat)
    requires Extends(a, b) && IsStamped(a, t, pruneSeq)
    ensures IsStamped(b, t, pruneSeq)
  {
    var q :| 0 <= q < |a| && Names(t, a[q]) && a[q].compactedBy == Some(pruneSeq);
    assert Names(t, b[q]) && b[q].compactedBy == Some(pruneSeq);
  }

  lemma {:induction false} StampsGrow(base: seq<OpRow>, ops: seq<Op>, results: seq<OpResult>, n: nat, m: nat)
    requires n <= m <= |ops| == |results| && StampsAfter(base, ops, results, m).Success?
    ensures StampsAfter(base, ops, results, n).Success?
    ensures Extends(StampsAfter(base, ops, results, n).value, StampsAfter(base, ops, results, m).value)
    decreases m
  {
    hide PruneStep, Extends;
    if n < m {
      StampsGrow(base, ops, results, n, m - 1);
      var before := StampsAfter(base, ops, results, m - 1).value;
      PruneStepGrows(before, ops[m - 1], results[m - 1], m - 1);
      ExtendsTransitive(StampsAfter(base, ops, results, n).value, before, StampsAfter(base, ops, results, m).value);
    } else {
      ExtendsSelf(StampsAfter(base, ops, results, n).value);
    }
  }

  lemma PruneStepGrows(rows: seq<OpRow>, op: Op, r: OpResult, i: nat)
    requires PruneStep(rows, op, r, i).Success?
    ensures Extends(rows, PruneStep(rows, op, r, i).value)
  {
  }

  /** A new prune that is let through stamps each of its targets. */
  lemma PruneStepStamps(base: seq<OpRow>, rows: seq<OpRow>, op: Op, r: OpResult, i: nat, t: PruneTarget)
    requires PruneStep(rows, op, r, i).Success? && op.IsDecodedPrune() && !r.duplicate
    requires Increasing(base) && SameRows(base, rows) && DistinctTargets(op.TargetsOf()) && t in op.TargetsOf()
    requires exists q | 0 <= q < |base| :: Names(t, base[q])
    ensures IsStamped(PruneStep(rows, op, r, i).value, t, r.seqNo)
  {
    hide Stampable, Increasing, DistinctTargets;
    var targets := op.TargetsOf();
    SameRowsIncrease(base, rows);
    RowcountExactly(rows, targets);
    UnstampedRow(rows, t.seqNo);
    var u :| 0 <= u < |rows| && rows[u].seqNo == t.seqNo && rows[u].compactedBy.None?;
    var q :| 0 <= q < |base| && Names(t, base[q]);
    SameSeq(rows, u, q);
    var stamped := Stamp(rows, TargetSeqs(targets), r.seqNo);
    assert Names(t, stamped[q]) && stamped[q].compactedBy == Some(r.seqNo);
  }

  lemma UnstampedRow(rows: seq<OpRow>, s: nat)
    requires s in UnstampedSeqs(rows)
    ensures exists u | 0 <= u < |rows| :: rows[u].seqNo == s && rows[u].compactedBy.None?
  {
    UnstampedExactly(rows, s);
  }

  lemma SameSeq(rows: seq<OpRow>, u: nat, q: nat)
    requires Increasing(rows) && u < |rows| && q < |rows| && rows[u].seqNo == rows[q].seqNo
    ensures u == q
  {
  }

  // --- One commit ---

  /** The prune at batch index `f` ends up with every target stamped. */
  lemma NewPruneStamps(
    book: Book, db: Db, p: Post, v: View, existing: seq<OpRow>, headRows: seq<OpRow>, seqs: seq<nat>, plan: Plan,
    results: seq<OpResult>, f: nat)
    requires LogInv(book, db.ops, db.epochs.Keys) && ReadsAreStale(db, p, v, existing, headRows) && Honest(book, p.ops)
    requires |seqs| == |p.ops| == |v.logs| == |results| && FreshSeqs(db.ops, seqs) && WalkUpTo(p, v, |p.ops|).Success?
    requires PlanFacts(ExistingSeqs(existing, OpIds(p.ops)), p.ops, plan) && PlanWithin(plan, p.ops)
    requires results == ResultsOf(plan.entries, seqs)
    requires var base := db.ops + NewRows(p.ops, plan.freshAt, seqs);
             StampsAfter(base, p.ops, results, |p.ops|).Success?
    requires f < |p.ops| && p.ops[f].IsDecodedPrune() && !results[f].duplicate
    ensures var base := db.ops + NewRows(p.ops, plan.freshAt, seqs);
            forall t | t in p.ops[f].TargetsOf() ::
              IsStamped(StampsAfter(base, p.ops, results, |p.ops|).value, t, results[f].seqNo)
  {
    hide WalkUpTo, PlanFacts, ExistingSeqs, StampsAfter, PruneStep, LogInv, ReadsAreStale, Honest, IsStamped, Extends,
      FreshSeqs, Increasing, Names;
    var base := db.ops + NewRows(p.ops, plan.freshAt, seqs);
    LogInvParts(book, db, p, v, existing, headRows);
    ResultsVouched(book, db, p, v, existing, headRows, seqs, plan, results, f);
    var j :| 0 <= j < |base| && base[j].op == p.ops[f] && StandsBehind(base, j);
    FreshIsOrdered(ExistingSeqs(existing, OpIds(p.ops)), p.ops, plan);
    InsertKeepsOrder(db.ops, p.ops, plan.freshAt, seqs);
    HonestIsDecoded(book, p.ops, f);
    StampsGrow(base, p.ops, results, f, |p.ops|);
    StampsGrow(base, p.ops, results, f + 1, |p.ops|);
    StampsKeepRows(base, p.ops, results, f);
    var rows := StampsAfter(base, p.ops, results, f).value;
    StampsLast(base, p.ops, results, f);
    forall t | t in p.ops[f].TargetsOf()
      ensures IsStamped(StampsAfter(base, p.ops, results, |p.ops|).value, t, results[f].seqNo)
    {
      PruneStepStamps(base, rows, p.ops[f], results[f], f, t);
      StampedStays(StampsAfter(base, p.ops, results, f + 1).value, StampsAfter(base, p.ops, results, |p.ops|).value, t,
                   results[f].seqNo);
    }
  }

  lemma LogInvParts(book: Book, db: Db, p: Post, v: View, existing: seq<OpRow>, headRows: seq<OpRow>)
    requires LogInv(book, db.ops, db.epochs.Keys) && ReadsAreStale(db, p, v, existing, headRows)
    ensures Increasing(db.ops) && Honest(book, OpsOf(db.ops)) && Extends(existing, db.ops)
  {
  }

  lemma StampsLast(base: seq<OpRow>, ops: seq<Op>, results: seq<OpResult>, f: nat)
    requires f < |ops| == |results| && StampsAfter(base, ops, results, f).Success?
    ensures StampsAfter(base, ops, results, f + 1)
         == PruneStep(StampsAfter(base, ops, results, f).value, ops[f], results[f], f)
  {
    hide PruneStep;
  }

  lemma FreshIsOrdered(existing: map<Key, nat>, ops: seq<Op>, plan: Plan)
    requires PlanFacts(existing, ops, plan)
    ensures FreshWithin(ops, plan.freshAt)
  {
  }

  lemma CommitStamps(
    book: Book, db: Db, p: Post, v: View, existing: seq<OpRow>, headRows: seq<OpRow>, seqs: seq<nat>,
    results: seq<OpResult>, db': Db)
    requires LogInv(book, db.ops, db.epochs.Keys) && ReadsAreStale(db, p, v, existing, headRows) && Honest(book, p.ops)
    requires |seqs| == |p.ops| == |v.logs| && FreshSeqs(db.ops, seqs) && WalkUpTo(p, v, |p.ops|).Success?
    requires AdmissionsWithin(WalkUpTo(p, v, |p.ops|).value, |p.ops|)
    requires Append(db, p, WalkUpTo(p, v, |p.ops|).value, existing, headRows, seqs) == Answered(results, db')
    requires AllStamped(db.ops) && Extends(db.ops, db'.ops)
    ensures AllStamped(db'.ops)
  {
    hide WalkUpTo, PlanUpTo, ExistingSeqs, Heads, TablesAfter, StampsAfter, AnyCollision, PlanFacts, Append,
      IsStamped, LogInv, ReadsAreStale, Honest, FreshSeqs;
    var plan := AppendCommits(db, p, v, existing, headRows, seqs, results, db');
    var keys := ExistingSeqs(existing, OpIds(p.ops));
    PlanHolds(keys, Heads(headRows, Authors(p.ops)), p.ops, |p.ops|);
    var base := db.ops + NewRows(p.ops, plan.freshAt, seqs);
    StampsKeepRows(base, p.ops, results, |p.ops|);
    forall i | 0 <= i < |db'.ops|
      ensures HasStamped(db'.ops, i)
    {
      if i < |db.ops| {
        assert HasStamped(db.ops, i);
        OldPruneHasStamped(db.ops, db'.ops, i);
      } else {
        var k := i - |db.ops|;
        var f := plan.freshAt[k];
        FreshAnswer(keys, p.ops, plan, seqs, results, k);
        if p.ops[f].IsDecodedPrune() {
          NewPruneStamps(book, db, p, v, existing, headRows, seqs, plan, results, f);
        }
      }
    }
  }

  lemma OldPruneHasStamped(a: seq<OpRow>, b: seq<OpRow>, i: nat)
    requires i < |a| <= |b| && Extends(a, b) && HasStamped(a, i)
    ensures HasStamped(b, i)
  {
    hide IsStamped;
    if a[i].op.IsDecodedPrune() {
      forall t | t in a[i].op.TargetsOf()
        ensures IsStamped(b, t, b[i].seqNo)
      {
        StampedStays(a, b, t, a[i].seqNo);
      }
    }
  }

  lemma FreshAnswer(existing: map<Key, nat>, ops: seq<Op>, plan: Plan, seqs: seq<nat>, results: seq<OpResult>, k: nat)
    requires PlanFacts(existing, ops, plan) && PlanWithin(plan, ops) && |seqs| == |ops|
    requires results == ResultsOf(plan.entries, seqs) && k < |plan.freshAt|
    ensures var f := plan.freshAt[k]; f < |ops| && !results[f].duplicate && results[f].seqNo == seqs[k]
  {
    hide StagedFacts;
    assert plan.entries[plan.freshAt[k]].source == Staged(k);
  }

  // --- Epoch rows ---

  /** The epoch's row is that of the stored rotate to it, but for its escrow wrap; of epoch 0 there is none. */
  ghost predicate EpochAnchored(epochs: map<nat, EpochRow>, rows: seq<OpRow>, e: nat)
    requires e in epochs
  {
    if e == 0 then epochs[e].rotateSeq.None?
    else
      exists i | 0 <= i < |rows| ::
        && rows[i].op.IsRotate() && rows[i].op.RotateOf().toEpoch == e
        && epochs[e].keywrapDigest == rows[i].op.RotateOf().keywrapDigest && epochs[e].rotateSeq == Some(rows[i].seqNo)
  }

  ghost predicate EpochsAnchored(epochs: map<nat, EpochRow>, rows: seq<OpRow>) {
    forall e | e in epochs :: EpochAnchored(epochs, rows, e)
  }

  /** An epoch row after n ops was there before, or a new rotate of the batch wrote it. */
  ghost predicate EpochWritten(
    before: map<nat, EpochRow>, after: map<nat, EpochRow>, ops: seq<Op>, results: seq<OpResult>, n: nat, e: nat)
    requires n <= |ops| == |results| && e in after
  {
    || (e in before && after[e] == before[e])
    || exists j | 0 <= j < n :: !results[j].duplicate && ops[j].IsRotate() && ops[j].RotateOf().toEpoch == e
                                && after[e] == EpochRow(ops[j].RotateOf().keywrapDigest, [], Some(results[j].seqNo))
  }

  lemma {:induction false} EpochsWritten(t: Tables, ops: seq<Op>, results: seq<OpResult>, n: nat)
    requires n <= |ops| == |results| && TablesAfter(t, ops, results, n).Success?
    ensures var after := TablesAfter(t, ops, results, n).value.epochs;
            forall e | e in after :: EpochWritten(t.epochs, after, ops, results, n, e)
  {
    hide EffectStep;
    if n > 0 {
      EpochsWritten(t, ops, results, n - 1);
      var middle := TablesAfter(t, ops, results, n - 1).value;
      var after := TablesAfter(t, ops, results, n).value.epochs;
      EpochStep(middle, ops[n - 1], results[n - 1]);
      forall e | e in after
        ensures EpochWritten(t.epochs, after, ops, results, n, e)
      {
        if e in middle.epochs && after[e] == middle.epochs[e] {
          assert EpochWritten(t.epochs, middle.epochs, ops, results, n - 1, e);
        }
      }
    }
  }

  lemma EpochStep(t: Tables, op: Op, r: OpResult)
    requires EffectStep(t, op, r).Success?
    ensures EffectStep(t, op, r).value.epochs
         == if op.IsRotate() && !r.duplicate
            then t.epochs[op.RotateOf().toEpoch := EpochRow(op.RotateOf().keywrapDigest, [], Some(r.seqNo))]
            else t.epochs
  {
  }

  lemma CommitAnchorsEpochs(
    book: Book, db: Db, p: Post, v: View, existing: seq<OpRow>, headRows: seq<OpRow>, seqs: seq<nat>,
    results: seq<OpResult>, db': Db)
    requires |seqs| == |p.ops| == |v.logs| && WalkUpTo(p, v, |p.ops|).Success? && Honest(book, p.ops)
    requires AdmissionsWithin(WalkUpTo(p, v, |p.ops|).value, |p.ops|)
    requires Append(db, p, WalkUpTo(p, v, |p.ops|).value, existing, headRows, seqs) == Answered(results, db')
    requires Extends(db.ops, db'.ops) && AllAccounted(|db.ops|, db'.ops, p.ops, results)
    requires EpochsAnchored(db.epochs, db.ops)
    ensures EpochsAnchored(db'.epochs, db'.ops)
  {
    hide WalkUpTo, PlanUpTo, ExistingSeqs, Heads, TablesAfter, StampsAfter, AnyCollision, Append, AllAccounted,
      Extends, EpochAnchored, EpochWritten, Honest;
    var plan := AppendCommits(db, p, v, existing, headRows, seqs, results, db');
    EpochsWritten(TablesOf(db), p.ops, results, |p.ops|);
    forall e | e in db'.epochs
      ensures EpochAnchored(db'.epochs, db'.ops, e)
    {
      WrittenIsAnchored(book, db, p.ops, results, db', e);
    }
  }

  lemma WrittenIsAnchored(book: Book, db: Db, ops: seq<Op>, results: seq<OpResult>, db': Db, e: nat)
    requires Extends(db.ops, db'.ops) && AllAccounted(|db.ops|, db'.ops, ops, results) && Honest(book, ops)
    requires |ops| == |results| && e in db'.epochs && EpochWritten(db.epochs, db'.epochs, ops, results, |ops|, e)
    requires EpochsAnchored(db.epochs, db.ops)
    ensures EpochAnchored(db'.epochs, db'.ops, e)
  {
    hide AllAccounted, EpochsAnchored;
    if e in db.epochs && db'.epochs[e] == db.epochs[e] {
      EpochOf(db.epochs, db.ops, e);
      if e > 0 {
        var i :| 0 <= i < |db.ops| && db.ops[i].op.IsRotate() && db.ops[i].op.RotateOf().toEpoch == e
                 && db.epochs[e].keywrapDigest == db.ops[i].op.RotateOf().keywrapDigest
                 && db.epochs[e].rotateSeq == Some(db.ops[i].seqNo);
        assert db'.ops[i].op == db.ops[i].op && db'.ops[i].seqNo == db.ops[i].seqNo;
      }
    } else {
      var j :| 0 <= j < |ops| && !results[j].duplicate && ops[j].IsRotate() && ops[j].RotateOf().toEpoch == e
               && db'.epochs[e] == EpochRow(ops[j].RotateOf().keywrapDigest, [], Some(results[j].seqNo));
      var q := RowOf(|db.ops|, db'.ops, ops, results, j);
      assert ops[j] in ops;
    }
  }

  lemma EpochOf(epochs: map<nat, EpochRow>, rows: seq<OpRow>, e: nat)
    requires EpochsAnchored(epochs, rows) && e in epochs
    ensures EpochAnchored(epochs, rows, e)
  {
  }

  lemma UploadAnchorsEpochs(seen: Seen, db: Db, r: KeywrapRequest, computed: Bytes, writes: Writes, db': Db)
    requires r.epoch >= 0 && Decide(seen, r, computed) == Success(writes) && Apply(db, r, writes) == Some(db')
    requires EpochsAnchored(db.epochs, db.ops)
    ensures EpochsAnchored(db'.epochs, db'.ops) && db'.ops == db.ops
  {
    hide Missing, AnyDiffers, AddWraps;
    forall e | e in db'.epochs
      ensures EpochAnchored(db'.epochs, db'.ops, e)
    {
      if e in db.epochs {
        assert EpochAnchored(db.epochs, db.ops, e);
      }
    }
  }

  // --- Every run ---

  ghost predicate Anchored(db: Db) {
    AllStamped(db.ops) && EpochsAnchored(db.epochs, db.ops)
  }

  lemma PostKeepsAnchors(
    site: Site, book: Book, strings: set<Bytes>, hist: seq<Db>, t: Txn, w: Walk, results: seq<OpResult>, db': Db)
    requires GoodHistory(book, hist) && Legal(site, book, strings, hist, t) && t.PostTxn?
    requires Walked(hist, t.post, t.walk) == Success(w)
    requires AppendAt(hist, |hist| - 1, t.post, w, t.append, t.seqs) == Answered(results, db')
    requires Anchored(hist[|hist| - 1])
    ensures Anchored(db')
  {
    hide LogInv, WalkUpTo, Append, AllStamped, EpochsAnchored, ReadsAreStale, Extends, AllAccounted, FreshSeqs;
    var db, p, v := hist[|hist| - 1], t.post, ViewAt(hist, t.post, t.walk);
    var existing, headRows := hist[t.append.existing].ops, hist[t.append.heads].ops;
    assert Good(book, db);
    EarlierReadsAreStale(book, hist, p, t.walk, t.append);
    PostKeepsGood(site, book, strings, hist, t, w, results, db');
    CommitStamps(book, db, p, v, existing, headRows, t.seqs, results, db');
    CommitAnchorsEpochs(book, db, p, v, existing, headRows, t.seqs, results, db');
  }

  lemma StepKeepsAnchors(site: Site, book: Book, strings: set<Bytes>, hist: seq<Db>, t: Txn)
    requires GoodHistory(book, hist) && Legal(site, book, strings, hist, t) && Anchored(hist[|hist| - 1])
    ensures Anchored(Perform(site, book, strings, hist, t).0)
  {
    hide Walked, AppendAt, Uploading, Anchored, GoodHistory;
    var db := hist[|hist| - 1];
    match t
    case PostTxn(p, walk, lost, append, seqs) =>
      var walked := Walked(hist, p, walk);
      if walked.Success? {
        var outcome := AppendAt(hist, |hist| - 1, p, walked.value, append, seqs);
        if outcome.Answered? {
          PostKeepsAnchors(site, book, strings, hist, t, walked.value, outcome.results, outcome.db);
        }
      }
    case KeywrapTxn(_, _, _, _, _, _) =>
      var outcome := Uploading(site, hist, t);
      if outcome.Uploaded? {
        UploadKeepsAnchors(site, book, strings, hist, t, outcome.db);
      }
    case OtherTables(grants, members, escrows) =>
      OthersKeepAnchors(db, db.(grants := grants, members := members, escrows := escrows));
  }

  lemma OthersKeepAnchors(db: Db, db': Db)
    requires Anchored(db) && db'.ops == db.ops && db'.epochs == db.epochs
    ensures Anchored(db')
  {
  }

  lemma UploadKeepsAnchors(site: Site, book: Book, strings: set<Bytes>, hist: seq<Db>, t: Txn, db': Db)
    requires Legal(site, book, strings, hist, t) && t.KeywrapTxn? && Anchored(hist[|hist| - 1])
    requires Uploading(site, hist, t) == Uploaded(db')
    ensures Anchored(db')
  {
    hide Decide, Apply, Hashed, Validate, Recheck, AllStamped, EpochsAnchored;
    var db, r := hist[t.commitAt], t.request;
    var computed := Validate(site, hist[t.grantsAt].grants, hist[t.membersAt].members, r).value;
    ValidEpoch(site, hist[t.grantsAt].grants, hist[t.membersAt].members, r);
    var seen := SeenAt(hist, t);
    UploadAnchorsEpochs(seen, db, r, computed, Decide(seen, r, computed).value, db');
  }

  lemma {:induction false} RunIsAnchored(
    site: Site, book: Book, strings: set<Bytes>, hist: seq<Db>, txns: seq<Txn>, k: nat)
    requires Run(site, book, strings, hist, txns) && k < |hist|
    ensures Anchored(hist[k])
  {
    hide Legal, Perform, GoodHistory, HasStamped, EpochAnchored;
    if k > 0 {
      RunIsAnchored(site, book, strings, hist, txns, k - 1);
      RunIsGood(site, book, strings, hist, txns, k - 1);
      assert RunStep(site, book, strings, hist, txns, k - 1);
      StepKeepsAnchors(site, book, strings, hist[..k], txns[k - 1]);
    }
  }

  /** In every state of every run a row carries a stored prune's seq if and only if that prune attests it. */
  lemma StampedExactly(
    site: Site, book: Book, strings: set<Bytes>, hist: seq<Db>, txns: seq<Txn>, k: nat, m: nat, q: nat)
    requires Run(site, book, strings, hist, txns) && k < |hist| && m < |hist[k].ops| && q < |hist[k].ops|
    ensures hist[k].ops[q].compactedBy == Some(hist[k].ops[m].seqNo) <==> Attests(hist[k].ops[m].op, hist[k].ops[q])
  {
    hide Run, Names, Grows, Chained, UniqueKeys, Honest, RotatesMaterialised, NoEpochGap, EpochsAnchored;
    var rows := hist[k].ops;
    VersionIsGood(site, book, strings, hist, txns, k, k);
    RunIsAnchored(site, book, strings, hist, txns, k);
    assert StampSound(rows, q) && HasStamped(rows, m);
    if rows[q].compactedBy == Some(rows[m].seqNo) {
      var j :| q < j < |rows| && rows[j].seqNo == rows[q].compactedBy.value && Attests(rows[j].op, rows[q]);
      assert j == m;
    }
    if Attests(rows[m].op, rows[q]) {
      var t :| t in rows[m].op.TargetsOf() && Names(t, rows[q]);
      AttestedIsStamped(rows, t, q, rows[m].seqNo);
    }
  }

  lemma AttestedIsStamped(rows: seq<OpRow>, t: PruneTarget, q: nat, pruneSeq: nat)
    requires Increasing(rows) && q < |rows| && Names(t, rows[q]) && IsStamped(rows, t, pruneSeq)
    ensures rows[q].compactedBy == Some(pruneSeq)
  {
    var u :| 0 <= u < |rows| && Names(t, rows[u]) && rows[u].compactedBy == Some(pruneSeq);
    assert u == q;
  }

  /** In every state of every run, the digest an epoch past 0 is uploaded against is that of the stored rotate to it. */
  lemma EpochDigestIsTheRotates(
    site: Site, book: Book, strings: set<Bytes>, hist: seq<Db>, txns: seq<Txn>, k: nat, e: nat)
    returns (i: nat)
    requires Run(site, book, strings, hist, txns) && k < |hist| && e in hist[k].epochs && e > 0
    ensures i < |hist[k].ops| && hist[k].ops[i].op.IsRotate() && hist[k].ops[i].op.RotateOf().toEpoch == e
    ensures hist[k].epochs[e].keywrapDigest == hist[k].ops[i].op.RotateOf().keywrapDigest
    ensures hist[k].epochs[e].rotateSeq == Some(hist[k].ops[i].seqNo)
  {
    hide Run, AllStamped, EpochsAnchored;
    RunIsAnchored(site, book, strings, hist, txns, k);
    EpochOf(hist[k].epochs, hist[k].ops, e);
    i :| 0 <= i < |hist[k].ops| && hist[k].ops[i].op.IsRotate() && hist[k].ops[i].op.RotateOf().toEpoch == e
         && hist[k].epochs[e].keywrapDigest == hist[k].ops[i].op.RotateOf().keywrapDigest
         && hist[k].epochs[e].rotateSeq == Some(hist[k].ops[i].seqNo);
  }
}
