/** What holds of every run of overlapping requests. */
module Races {
  import opened Wrappers
  import opened ByteStrings
  import opened Payloads
  import opened OpLog
  import opened OpLogFacts
  import opened LogInvariant
  import opened PruneRaces
  import opened KeyWraps
  import opened KeyPlane
  import opened Interleaving

  lemma VersionIsGood(site: Site, book: Book, strings: set<Bytes>, hist: seq<Db>, txns: seq<Txn>, j: nat, k: nat)
    requires Run(site, book, strings, hist, txns) && j <= k < |hist|
    ensures Good(book, hist[j]) && Good(book, hist[k]) && Grows(hist[j], hist[k])
  {
    hide Run, Good, Grows;
    RunIsGood(site, book, strings, hist, txns, k);
    assert hist[..k + 1][j] == hist[j] && hist[..k + 1][k] == hist[k];
  }

  // --- Author chains ---

  /** Some row is the author's q-th op. */
  ghost predicate HoldsPosition(rows: seq<OpRow>, author: Uuid, q: nat) {
    exists i | 0 <= i < |rows| :: rows[i].op.Author() == author && rows[i].op.header.authorSeq == q
  }

  /** Every author's committed positions are exactly 1, 2, ..., n, once each, in transport order. */
  lemma AuthorChainsNeverForkOrGap(
    site: Site, book: Book, strings: set<Bytes>, hist: seq<Db>, txns: seq<Txn>, k: nat, author: Uuid)
    requires Run(site, book, strings, hist, txns) && k < |hist|
    ensures var rows := hist[k].ops;
            var n := Positions(OpsOf(rows), author);
            && (forall q | 1 <= q <= n :: HoldsPosition(rows, author, q))
            && (forall i | 0 <= i < |rows| && rows[i].op.Author() == author :: 1 <= rows[i].op.header.authorSeq <= n)
            && (forall i, j | 0 <= i < j < |rows| && rows[i].op.Author() == author == rows[j].op.Author() ::
                  rows[i].seqNo < rows[j].seqNo && rows[i].op.header.authorSeq < rows[j].op.header.authorSeq)
  {
    hide Run, Grows, Positions;
    VersionIsGood(site, book, strings, hist, txns, k, k);
    var rows := hist[k].ops;
    var ops := OpsOf(rows);
    forall q | 1 <= q <= Positions(ops, author)
      ensures HoldsPosition(rows, author, q)
    {
      PositionFilled(ops, author, q);
      var i :| 0 <= i < |ops| && ops[i].Author() == author && ops[i].header.authorSeq == q;
      assert rows[i].op == ops[i];
    }
    forall i | 0 <= i < |rows| && rows[i].op.Author() == author
      ensures 1 <= rows[i].op.header.authorSeq <= Positions(ops, author)
    {
      PositionBounds(ops, i);
    }
    forall i, j | 0 <= i < j < |rows| && rows[i].op.Author() == author == rows[j].op.Author()
      ensures rows[i].seqNo < rows[j].seqNo && rows[i].op.header.authorSeq < rows[j].op.header.authorSeq
    {
      PositionsIncrease(ops, i, j);
    }
  }

  // --- Copies of one batch ---

  /** The results a POST was answered with at step k of a run. */
  ghost predicate AnsweredAt(
    site: Site, book: Book, strings: set<Bytes>, hist: seq<Db>, txns: seq<Txn>, k: nat, results: seq<OpResult>)
    requires Run(site, book, strings, hist, txns)
  {
    k < |txns| && txns[k].PostTxn? && AnswerAt(site, book, strings, hist, txns, k) == Results(results)
  }

  lemma AnswersAreAccounted(
    site: Site, book: Book, strings: set<Bytes>, hist: seq<Db>, txns: seq<Txn>, k: nat, results: seq<OpResult>)
    requires Run(site, book, strings, hist, txns) && AnsweredAt(site, book, strings, hist, txns, k, results)
    ensures AllAccounted(|hist[k].ops|, hist[k + 1].ops, txns[k].post.ops, results)
  {
    hide LogInv, AllAccounted, AppendAt, Walked, Good, Grows, Run;
    RunAt(site, book, strings, hist, txns, k);
    var before, t := hist[..k + 1], txns[k];
    RunIsGood(site, book, strings, hist, txns, k);
    var w := Walked(before, t.post, t.walk).value;
    PostKeepsGood(site, book, strings, before, t, w, results, hist[k + 1]);
    assert before[|before| - 1] == hist[k];
  }

  lemma RunAt(site: Site, book: Book, strings: set<Bytes>, hist: seq<Db>, txns: seq<Txn>, k: nat)
    requires Run(site, book, strings, hist, txns) && k < |txns|
    ensures |hist| == |txns| + 1 && RunStep(site, book, strings, hist, txns, k)
  {
    hide RunStep;
  }

  /** One row stores the op, at that seq, and no other row carries its key. */
  ghost predicate StoredOnce(rows: seq<OpRow>, op: Op, seqNo: nat) {
    exists q | 0 <= q < |rows| :: rows[q].op == op && rows[q].seqNo == seqNo && SoleKey(rows, q)
  }

  ghost predicate SoleKey(rows: seq<OpRow>, q: nat)
    requires q < |rows|
  {
    forall r | 0 <= r < |rows| && r != q :: rows[r].op.Key() != rows[q].op.Key()
  }

  /**
   However often and however concurrently an op is posted: one row stores it, every answer names that row's seq,
   and at most one answer calls it new. Materialisation skips every other one.
   */
  lemma CopiesAreOneOp(
    site: Site, book: Book, strings: set<Bytes>, hist: seq<Db>, txns: seq<Txn>,
    k: nat, i: nat, ks: seq<OpResult>, l: nat, j: nat, ls: seq<OpResult>)
    requires Run(site, book, strings, hist, txns) && k <= l
    requires AnsweredAt(site, book, strings, hist, txns, k, ks) && AnsweredAt(site, book, strings, hist, txns, l, ls)
    requires i < |txns[k].post.ops| && j < |txns[l].post.ops| && txns[k].post.ops[i] == txns[l].post.ops[j]
    ensures |ks| == |txns[k].post.ops| && |ls| == |txns[l].post.ops|
    ensures ks[i].seqNo == ls[j].seqNo
    ensures (k, i) != (l, j) ==> ks[i].duplicate || ls[j].duplicate
    ensures k < l ==> ls[j].duplicate
    ensures StoredOnce(hist[l + 1].ops, txns[k].post.ops[i], ks[i].seqNo)
  {
    hide Good, Run, AnsweredAt;
    RunCovers(site, book, strings, hist, txns, k, ks);
    RunCovers(site, book, strings, hist, txns, l, ls);
    AnswersAreAccounted(site, book, strings, hist, txns, k, ks);
    AnswersAreAccounted(site, book, strings, hist, txns, l, ls);
    VersionIsGood(site, book, strings, hist, txns, k + 1, l + 1);
    if k < l {
      VersionIsGood(site, book, strings, hist, txns, k + 1, l);
    }
    var earlier, rows := hist[k + 1].ops, hist[l + 1].ops;
    var q := RowOf(|hist[k].ops|, earlier, txns[k].post.ops, ks, i);
    var s := RowOf(|hist[l].ops|, rows, txns[l].post.ops, ls, j);
    assert rows[q].op == earlier[q].op && rows[q].seqNo == earlier[q].seqNo;
    OneRowPerKey(site, book, strings, hist[l + 1], q);
    assert s == q;
    if k == l && i != j {
      OneAnswer(site, book, strings, hist, txns, k, ks, ls);
      NewOnlyOnce(|hist[k].ops|, rows, txns[k].post.ops, ks, i, j);
    }
  }

  /** A second POST of a stored batch answers with the first one's seqs and changes nothing. */
  lemma LaterCopyChangesNothing(
    site: Site, book: Book, strings: set<Bytes>, hist: seq<Db>, txns: seq<Txn>,
    k: nat, ks: seq<OpResult>, l: nat, ls: seq<OpResult>)
    requires Run(site, book, strings, hist, txns) && k < l
    requires AnsweredAt(site, book, strings, hist, txns, k, ks) && AnsweredAt(site, book, strings, hist, txns, l, ls)
    requires txns[k].post.ops == txns[l].post.ops
    ensures |ks| == |ls| && forall i | 0 <= i < |ks| :: ks[i].seqNo == ls[i].seqNo && ls[i].duplicate
    ensures hist[l + 1] == hist[l]
  {
    hide Run, AnsweredAt;
    RunCovers(site, book, strings, hist, txns, k, ks);
    RunCovers(site, book, strings, hist, txns, l, ls);
    AnswersAreAccounted(site, book, strings, hist, txns, k, ks);
    AnswersAreAccounted(site, book, strings, hist, txns, l, ls);
    forall i | 0 <= i < |ks|
      ensures ks[i].seqNo == ls[i].seqNo && ls[i].duplicate
    {
      CopiesAreOneOp(site, book, strings, hist, txns, k, i, ks, l, i, ls);
    }
    PureReplayChangesNothing(site, book, strings, hist, txns, l, ls);
  }

  lemma OneAnswer(
    site: Site, book: Book, strings: set<Bytes>, hist: seq<Db>, txns: seq<Txn>, k: nat, a: seq<OpResult>,
    b: seq<OpResult>)
    requires Run(site, book, strings, hist, txns)
    requires AnsweredAt(site, book, strings, hist, txns, k, a) && AnsweredAt(site, book, strings, hist, txns, k, b)
    ensures a == b
  {
    hide AnswerAt;
  }

  lemma NewOnlyOnce(stored: nat, rows: seq<OpRow>, ops: seq<Op>, results: seq<OpResult>, i: nat, j: nat)
    requires AllAccounted(stored, rows, ops, results) && i < |ops| && j < |ops| && i != j && ops[i] == ops[j]
    ensures results[i].duplicate || results[j].duplicate
  {
    assert Accounted(stored, rows, ops, results, i) && Accounted(stored, rows, ops, results, j);
  }

  lemma RowOf(stored: nat, rows: seq<OpRow>, ops: seq<Op>, results: seq<OpResult>, i: nat) returns (q: nat)
    requires AllAccounted(stored, rows, ops, results) && i < |ops|
    ensures q < |rows| && rows[q].op == ops[i] && rows[q].seqNo == results[i].seqNo
    ensures !results[i].duplicate ==> stored <= q
  {
    assert Accounted(stored, rows, ops, results, i);
    q :| 0 <= q < |rows| && rows[q].op == ops[i] && rows[q].seqNo == results[i].seqNo
         && (!results[i].duplicate ==> stored <= q);
  }

  lemma RunCovers(
    site: Site, book: Book, strings: set<Bytes>, hist: seq<Db>, txns: seq<Txn>, k: nat, results: seq<OpResult>)
    requires Run(site, book, strings, hist, txns) && AnsweredAt(site, book, strings, hist, txns, k, results)
    ensures k < |txns| && txns[k].PostTxn? && |hist| == |txns| + 1
  {
    hide AnswerAt, RunStep;
  }

  lemma OneRowPerKey(site: Site, book: Book, strings: set<Bytes>, db: Db, q: nat)
    requires Good(book, db) && q < |db.ops|
    ensures SoleKey(db.ops, q)
  {
    hide StampsSound, Chained, Honest, RotatesMaterialised, NoEpochGap, Increasing;
    var ops := OpsOf(db.ops);
    forall r | 0 <= r < |db.ops| && r != q
      ensures db.ops[r].op.Key() != db.ops[q].op.Key()
    {
      assert ops[r] == db.ops[r].op && ops[q] == db.ops[q].op;
    }
  }

  lemma {:induction false} DuplicatesChangeNothing(
    t: Tables, rows: seq<OpRow>, ops: seq<Op>, results: seq<OpResult>, n: nat)
    requires n <= |ops| == |results| && forall i | 0 <= i < n :: results[i].duplicate
    ensures TablesAfter(t, ops, results, n) == Success(t) && StampsAfter(rows, ops, results, n) == Success(rows)
  {
    hide EffectOf;
    if n > 0 {
      DuplicatesChangeNothing(t, rows, ops, results, n - 1);
    }
  }

  /** A POST answered with nothing but duplicates leaves every table as it was. */
  lemma PureReplayChangesNothing(
    site: Site, book: Book, strings: set<Bytes>, hist: seq<Db>, txns: seq<Txn>, k: nat, results: seq<OpResult>)
    requires Run(site, book, strings, hist, txns) && AnsweredAt(site, book, strings, hist, txns, k, results)
    requires forall i | 0 <= i < |results| :: results[i].duplicate
    ensures hist[k + 1] == hist[k]
  {
    hide LogInv, WalkUpTo, Append, PlanUpTo, ExistingSeqs, Heads, AnyCollision, TablesAfter, StampsAfter, FreshSeqs,
      Honest, Run;
    RunAt(site, book, strings, hist, txns, k);
    var before, t := hist[..k + 1], txns[k];
    assert before[k] == hist[k];
    var v := ViewAt(before, t.post, t.walk);
    var existing, heads := before[t.append.existing].ops, before[t.append.heads].ops;
    var plan := AppendCommits(hist[k], t.post, v, existing, heads, t.seqs, results, hist[k + 1]);
    PlanHolds(ExistingSeqs(existing, OpIds(t.post.ops)), Heads(heads, Authors(t.post.ops)), t.post.ops, |t.post.ops|);
    NoFreshEntries(ExistingSeqs(existing, OpIds(t.post.ops)), t.post.ops, plan, t.seqs, results);
    assert hist[k].ops + NewRows(t.post.ops, plan.freshAt, t.seqs) == hist[k].ops;
    DuplicatesChangeNothing(TablesOf(hist[k]), hist[k].ops, t.post.ops, results, |results|);
  }

  lemma NoFreshEntries(existing: map<Key, nat>, ops: seq<Op>, plan: Plan, seqs: seq<nat>, results: seq<OpResult>)
    requires PlanFacts(existing, ops, plan) && PlanWithin(plan, ops) && |seqs| == |ops|
    requires results == ResultsOf(plan.entries, seqs) && forall i | 0 <= i < |results| :: results[i].duplicate
    ensures plan.freshAt == []
  {
    if plan.freshAt != [] {
      FreshIsNew(existing, ops, plan, seqs, results, 0);
      assert false;
    }
  }

  lemma FreshIsNew(existing: map<Key, nat>, ops: seq<Op>, plan: Plan, seqs: seq<nat>, results: seq<OpResult>, k: nat)
    requires PlanFacts(existing, ops, plan) && PlanWithin(plan, ops) && |seqs| == |ops|
    requires results == ResultsOf(plan.entries, seqs) && k < |plan.freshAt|
    ensures exists i | 0 <= i < |results| :: !results[i].duplicate
  {
    assert plan.entries[plan.freshAt[k]].source == Staged(k);
    assert !results[plan.freshAt[k]].duplicate;
  }

  lemma {:induction false} StoredOpsPlanAsDuplicates(
    existing: map<Key, nat>, heads: map<Uuid, nat>, ops: seq<Op>, n: nat)
    requires n <= |ops| && forall i | 0 <= i < n :: ops[i].Key() in existing
    ensures PlanUpTo(existing, heads, ops, n).Success?
    ensures PlanUpTo(existing, heads, ops, n).value.freshAt == []
    ensures forall e | e in PlanUpTo(existing, heads, ops, n).value.entries :: e.duplicate
  {
    if n > 0 {
      StoredOpsPlanAsDuplicates(existing, heads, ops, n - 1);
    }
  }

  /**
   The one retry is enough for a replay: when the append that follows a lost insert sees the whole batch stored,
   the POST is answered, with nothing but duplicates, and changes nothing.
   */
  lemma RetriedReplayIsAnswered(site: Site, book: Book, strings: set<Bytes>, hist: seq<Db>, t: Txn)
    requires Legal(site, book, strings, hist, t) && t.PostTxn? && Walked(hist, t.post, t.walk).Success?
    requires forall op | op in t.post.ops :: exists j | 0 <= j < |hist[t.append.existing].ops| ::
                 hist[t.append.existing].ops[j].op == op
    ensures var (db', answer) := Perform(site, book, strings, hist, t);
            && db' == hist[|hist| - 1]
            && answer.Results? && |answer.results| == |t.post.ops|
            && forall r | r in answer.results :: r.duplicate
  {
    hide WalkUpTo, PlanUpTo, ExistingSeqs, Heads, TablesAfter, StampsAfter, EffectOf, Honest, FreshSeqs,
      ControlAdmissions, PruneAdmissions;
    var p, db := t.post, hist[|hist| - 1];
    var rows, headRows := hist[t.append.existing].ops, hist[t.append.heads].ops;
    var existing, heads := ExistingSeqs(rows, OpIds(p.ops)), Heads(headRows, Authors(p.ops));
    forall i | 0 <= i < |p.ops|
      ensures p.ops[i].Key() in existing
    {
      assert p.ops[i] in p.ops;
      ExistingExactly(rows, OpIds(p.ops), p.ops[i].Key());
    }
    StoredOpsPlanAsDuplicates(existing, heads, p.ops, |p.ops|);
    var plan := PlanUpTo(existing, heads, p.ops, |p.ops|).value;
    PlanIsWithin(existing, heads, p.ops, |p.ops|);
    assert p.ops[..|p.ops|] == p.ops;
    var results := ResultsOf(plan.entries, t.seqs);
    assert forall i | 0 <= i < |results| :: plan.entries[i] in plan.entries;
    DuplicatesChangeNothing(TablesOf(db), db.ops, p.ops, results, |p.ops|);
    var v := ViewAt(hist, p, t.walk);
    WalkAdmits(p, v, |p.ops|);
    MaterialiseByPosition(TablesOf(db), p.ops, results, |p.ops|);
    StampByPosition(db.ops, p.ops, v.replayed, results, |p.ops|);
    assert db.ops + NewRows(p.ops, plan.freshAt, t.seqs) == db.ops;
  }

  // --- Soft deletes ---

  /**
   `compacted_by` moves from null to a value at most once, and the value is the later seq of a stored, itself
   unstamped prune that attests exactly this row; control and prune rows are never stamped.
   */
  lemma StampsAreSoundAndFinal(
    site: Site, book: Book, strings: set<Bytes>, hist: seq<Db>, txns: seq<Txn>, j: nat, k: nat, i: nat)
    requires Run(site, book, strings, hist, txns) && j <= k < |hist| && i < |hist[j].ops|
    ensures i < |hist[k].ops| && hist[k].ops[i].op == hist[j].ops[i].op && hist[k].ops[i].seqNo == hist[j].ops[i].seqNo
    ensures hist[j].ops[i].compactedBy.Some? ==> hist[k].ops[i].compactedBy == hist[j].ops[i].compactedBy
    ensures IsExempt(hist[k].ops[i].op) ==> hist[k].ops[i].compactedBy.None?
    ensures hist[k].ops[i].compactedBy.Some? ==>
              exists m | i < m < |hist[k].ops| ::
                && hist[k].ops[m].seqNo == hist[k].ops[i].compactedBy.value > hist[k].ops[i].seqNo
                && hist[k].ops[m].compactedBy.None? && Attests(hist[k].ops[m].op, hist[k].ops[i])
  {
    hide Run, Chained, UniqueKeys, Honest, RotatesMaterialised, NoEpochGap, Attests;
    VersionIsGood(site, book, strings, hist, txns, j, k);
    var rows := hist[k].ops;
    assert StampSound(rows, i);
    if rows[i].compactedBy.Some? {
      var m :| i < m < |rows| && rows[m].seqNo == rows[i].compactedBy.value && Attests(rows[m].op, rows[i]);
      AttestorIsExempt(rows[m].op, rows[i]);
      assert StampSound(rows, m);
    }
  }

  lemma AttestorIsExempt(prune: Op, row: OpRow)
    requires Attests(prune, row)
    ensures IsExempt(prune)
  {
  }

  /** A prune refused at the guarded `UPDATE` lost one of its targets to a transaction in between. */
  lemma PruneRefusedOnlyByARace(
    site: Site, book: Book, strings: set<Bytes>, hist: seq<Db>, txns: seq<Txn>, k: nat, index: Option<nat>)
    returns (i: nat, q: nat, m: nat)
    requires Run(site, book, strings, hist, txns) && k < |txns| && txns[k].PostTxn?
    requires AnswerAt(site, book, strings, hist, txns, k) == Refusing(Refusal(PruneTargetAlreadyCompacted(None), index))
    requires ReadsWithin(txns[k].walk, k + 1, |txns[k].post.ops|)
    requires Walked(hist[..k + 1], txns[k].post, txns[k].walk).Success?
    ensures index == Some(i) && i < |txns[k].post.ops| && txns[k].post.ops[i].IsDecodedPrune()
    ensures txns[k].walk.logs[i] <= m < k && q < |hist[m].ops| && q < |hist[m + 1].ops|
    ensures exists t | t in txns[k].post.ops[i].TargetsOf() :: Names(t, hist[m].ops[q])
    ensures hist[m].ops[q].compactedBy.None? && hist[m + 1].ops[q].compactedBy.Some?
  {
    hide LogInv, WalkUpTo, Append, Grows, ReadsAreStale, Honest, FreshSeqs, Run, Names;
    RunAt(site, book, strings, hist, txns, k);
    var before, t := hist[..k + 1], txns[k];
    var v := ViewAt(before, t.post, t.walk);
    var existing, headRows := before[t.append.existing].ops, before[t.append.heads].ops;
    RunIsGood(site, book, strings, hist, txns, k);
    EarlierReadsAreStale(book, before, t.post, t.walk, t.append);
    assert Good(book, before[k]);
    i := ShortRowcountMeansRace(book, before[k], t.post, v, existing, headRows, t.seqs, index);
    var target;
    target, q :| target in t.post.ops[i].TargetsOf() && 0 <= q < |v.logs[i]| && q < |before[k].ops|
                 && Names(target, v.logs[i][q])
                 && v.logs[i][q].compactedBy.None? && before[k].ops[q].compactedBy.Some?;
    m := StampedBetween(site, book, strings, hist, txns, t.walk.logs[i], k, q);
    RowsStay(site, book, strings, hist, txns, t.walk.logs[i], m, q);
    NamesStay(target, hist[t.walk.logs[i]].ops[q], hist[m].ops[q]);
  }

  lemma NamesStay(t: PruneTarget, a: OpRow, b: OpRow)
    requires Names(t, a) && a.op == b.op && a.seqNo == b.seqNo
    ensures Names(t, b)
  {
  }

  lemma RowsStay(site: Site, book: Book, strings: set<Bytes>, hist: seq<Db>, txns: seq<Txn>, j: nat, k: nat, q: nat)
    requires Run(site, book, strings, hist, txns) && j <= k < |hist| && q < |hist[j].ops|
    ensures q < |hist[k].ops| && hist[k].ops[q].op == hist[j].ops[q].op && hist[k].ops[q].seqNo == hist[j].ops[q].seqNo
  {
    hide Run, Good;
    VersionIsGood(site, book, strings, hist, txns, j, k);
  }

  lemma {:induction false} StampedBetween(
    site: Site, book: Book, strings: set<Bytes>, hist: seq<Db>, txns: seq<Txn>, a: nat, b: nat, q: nat)
    returns (m: nat)
    requires Run(site, book, strings, hist, txns) && a <= b < |hist| && q < |hist[a].ops| && q < |hist[b].ops|
    requires hist[a].ops[q].compactedBy.None? && hist[b].ops[q].compactedBy.Some?
    ensures a <= m < b && q < |hist[m].ops| && q < |hist[m + 1].ops|
    ensures hist[m].ops[q].compactedBy.None? && hist[m + 1].ops[q].compactedBy.Some?
    decreases b
  {
    hide Run;
    RowsStay(site, book, strings, hist, txns, a, b - 1, q);
    if hist[b - 1].ops[q].compactedBy.Some? {
      m := StampedBetween(site, book, strings, hist, txns, a, b - 1, q);
    } else {
      m := b - 1;
    }
  }

  // --- Key epochs ---

  lemma {:induction false} EpochsDownFrom(epochs: set<nat>, e: nat, d: nat)
    requires NoEpochGap(epochs) && e in epochs && 1 <= d <= e
    ensures d in epochs
    decreases e
  {
    if d < e {
      EpochsDownFrom(epochs, e - 1, d);
    }
  }

  /** The epoch rows are always a contiguous range starting at 0 or 1. */
  lemma EpochsAreContiguous(site: Site, book: Book, strings: set<Bytes>, hist: seq<Db>, txns: seq<Txn>, k: nat)
    returns (low: nat, high: nat)
    requires Run(site, book, strings, hist, txns) && k < |hist|
    ensures low <= 1 && forall e: nat :: e in hist[k].epochs <==> low <= e < high
  {
    hide Run, StampsSound, Chained, Honest, RotatesMaterialised, UniqueKeys, Increasing, Grows;
    VersionIsGood(site, book, strings, hist, txns, k, k);
    var epochs := hist[k].epochs.Keys;
    low := if 0 in epochs then 0 else 1;
    if epochs == {} {
      high := 1;
    } else {
      var top := CurrentKeyEpoch(epochs).value;
      high := top + 1;
      forall e: nat
        ensures e in epochs <==> low <= e < high
      {
        if 1 <= e <= top {
          EpochsDownFrom(epochs, top, e);
        }
      }
    }
  }

  // --- Key wraps ---

  /** Each epoch holds nothing yet, or exactly the wrap set and escrow wrap its digest commits to. */
  lemma KeysAreTheCommittedSet(
    site: Site, book: Book, strings: set<Bytes>, hist: seq<Db>, txns: seq<Txn>, k: nat, e: nat)
    requires HashWidth(site.sha256) && CollisionFree(site.sha256, strings)
    requires Run(site, book, strings, hist, txns) && k < |hist| && e in hist[k].epochs
    ensures IsUnfilled(hist[k], e) || IsFilled(site.sha256, strings, hist[k], e)
  {
    hide Run, IsUnfilled, IsFilled, KeysGrow, HashWidth, CollisionFree;
    RunIsKeyed(site, book, strings, hist, txns, k);
    assert KeyInv(site.sha256, strings, hist[..k + 1][k]);
  }

  /** An upload that is acknowledged, by its own commit or after losing a race to a copy, left its own set stored. */
  lemma AcknowledgedUploadIsStored(
    site: Site, book: Book, strings: set<Bytes>, hist: seq<Db>, txns: seq<Txn>, k: nat)
    requires HashWidth(site.sha256) && CollisionFree(site.sha256, strings)
    requires Run(site, book, strings, hist, txns) && k < |txns| && txns[k].KeywrapTxn?
    requires AnswerAt(site, book, strings, hist, txns, k) == KeywrapsStored
    ensures var r := txns[k].request;
            && r.epoch >= 0 && r.epoch in hist[k + 1].epochs
            && hist[k + 1].epochs[r.epoch].escrowWrap == r.escrowWrap && Holds(hist[k + 1].wraps, r.epoch, r.wraps)
            && hist[k + 1].epochs[r.epoch].keywrapDigest == Digest(site.sha256, r.epoch, r.wraps, r.escrowWrap)
  {
    hide KeyInv, SeenIsStale, Decide, Apply, Hashed, Requested, Validate, HashWidth, CollisionFree, Recheck, KeysGrow,
      Digest, Holds, Run;
    RunAt(site, book, strings, hist, txns, k);
    RunIsKeyed(site, book, strings, hist, txns, k);
    var before, t := hist[..k + 1], txns[k];
    var r := t.request;
    var grants, members := before[t.grantsAt].grants, before[t.membersAt].members;
    var computed := Validate(site, grants, members, r).value;
    ValidatedSet(site, grants, members, r);
    ValidIsRequested(site, strings, grants, members, r);
    EarlierSeenIsStale(site.sha256, strings, before, t);
    var seen := SeenAt(before, t);
    var writes := Decide(seen, r, computed).value;
    assert KeyInv(site.sha256, strings, before[t.commitAt]);
    if Uploading(site, before, t).Uploaded? {
      UploadKeepsKeys(site.sha256, strings, before[t.commitAt], r, seen, computed, writes, hist[k + 1]);
    } else {
      LostUploadFindsTheEpochFilled(site.sha256, strings, before[t.commitAt], r, seen, computed, writes);
      FilledStaysFilled(before[t.commitAt], before[k], r.epoch) by {
        assert KeysGrow(before[t.commitAt], before[k]);
      }
      assert KeyInv(site.sha256, strings, before[k]);
      RecheckAcceptsOnlyItsSet(site.sha256, strings, before[k], r, computed);
      RecheckedDigest(before[k], r, computed);
    }
  }

  /**
   Every acknowledged upload stood on the Grants and Members it read: an owner's, wrapping to registered keys. One that
   created an epoch row created epoch 0, and named the digest of its own set.
   */
  lemma AcknowledgedUploadStands(
    site: Site, book: Book, strings: set<Bytes>, hist: seq<Db>, txns: seq<Txn>, k: nat)
    requires HashWidth(site.sha256)
    requires Run(site, book, strings, hist, txns) && k < |txns| && txns[k].KeywrapTxn?
    requires AnswerAt(site, book, strings, hist, txns, k) == KeywrapsStored
    ensures var t := txns[k];
            && t.grantsAt <= k && t.membersAt <= k
            && UploadStands(site, hist[t.grantsAt].grants, hist[t.membersAt].members, t.request)
            && (hist[k + 1].epochs.Keys != hist[k].epochs.Keys ==>
                  && t.request.epoch == 0 && 0 !in hist[k].epochs
                  && t.request.claimedDigest == Some(Digest(site.sha256, 0, t.request.wraps, t.request.escrowWrap)))
  {
    hide Decide, Apply, Hashed, Validate, HashWidth, Recheck, Digest, Run, UploadStands;
    RunAt(site, book, strings, hist, txns, k);
    var before, t := hist[..k + 1], txns[k];
    var r, grants, members := t.request, before[t.grantsAt].grants, before[t.membersAt].members;
    ValidateExactly(site, grants, members, r);
    if Uploading(site, before, t).Uploaded? {
      var computed := Validate(site, grants, members, r).value;
      StandsInRange(site, grants, members, r);
      var seen := SeenAt(before, t);
      CreatorNamesItsSet(seen, before[t.commitAt], r, computed, Decide(seen, r, computed).value, hist[k + 1]);
    }
  }

  lemma StandsInRange(site: Site, grants: map<Uuid, GrantRow>, members: map<Uuid, MemberRow>, r: KeywrapRequest)
    requires UploadStands(site, grants, members, r)
    ensures r.epoch >= 0
  {
  }

  /** In every state of every run: an upload nothing overlaps is stored exactly when it stands and its set fits. */
  lemma NextUploadExactly(
    site: Site, book: Book, strings: set<Bytes>, hist: seq<Db>, txns: seq<Txn>, k: nat, r: KeywrapRequest)
    requires HashWidth(site.sha256) && CollisionFree(site.sha256, strings)
    requires Run(site, book, strings, hist, txns) && k < |hist|
    requires r.epoch >= 0 ==> Hashed(site.sha256, r.epoch, r.wraps, r.escrowWrap) <= strings
    ensures var db := hist[k];
            Upload(site, r, db.grants, db.members, SeenNow(db, r), db, db).Uploaded?
            <==> UploadStands(site, db.grants, db.members, r) && SetFits(site, db, r)
  {
    hide Run, KeyInv, KeysGrow, HashWidth, CollisionFree, Hashed, Upload, UploadStands, SetFits;
    RunIsKeyed(site, book, strings, hist, txns, k);
    assert KeyInv(site.sha256, strings, hist[..k + 1][k]);
    UploadExactly(site, strings, hist[k], hist[k].grants, hist[k].members, r);
  }

  lemma FilledStaysFilled(a: Db, b: Db, e: nat)
    requires KeysGrow(a, b) && e in a.epochs && a.epochs[e].escrowWrap != []
    ensures e in b.epochs && b.epochs[e].escrowWrap == a.epochs[e].escrowWrap
  {
  }

  lemma RecheckedDigest(db: Db, r: KeywrapRequest, computed: Bytes)
    requires r.epoch >= 0 && Recheck(db, r, computed).None?
    ensures r.epoch in db.epochs && db.epochs[r.epoch].keywrapDigest == computed
  {
  }
}
