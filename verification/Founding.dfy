/**
 Genesis under any interleaving: however many Devices race to found a Workspace, its log opens with the one genesis
 it will ever hold. Source: backend/app/sync/routes.py.
 */
module Founding {
  import opened Wrappers
  import opened ByteStrings
  import opened Payloads
  import opened OpLog
  import opened OpLogFacts
  import opened LogInvariant
  import opened PruneRaces
  import opened Serial
  import opened KeyWraps
  import KeyPlane
  import opened Interleaving
  import opened Races

  predicate Founds(op: Op) {
    EffectOf(op).Some? && EffectOf(op).value.Founded?
  }

  /** Nothing is stored before the genesis, its seq is the Workspace's, and no other genesis is stored. */
  ghost predicate OpensWithGenesis(genesisSeq: Option<nat>, rows: seq<OpRow>) {
    if rows == [] then genesisSeq.None?
    else
      && genesisSeq == Some(rows[0].seqNo) && Founds(rows[0].op)
      && forall i | 0 < i < |rows| :: !Founds(rows[i].op)
  }

  // --- The tables ---

  lemma EffectFounds(t: Tables, op: Op, r: OpResult)
    requires EffectStep(t, op, r).Success?
    ensures EffectStep(t, op, r).value.genesisSeq == if Founds(op) && !r.duplicate then Some(r.seqNo) else t.genesisSeq
    ensures Founds(op) && !r.duplicate ==> t.genesisSeq.None?
  {
    hide EffectOf;
  }

  /** A Workspace that exists is never founded again: its seq stays, and no new genesis materialises. */
  lemma {:induction false} FoundedStays(t: Tables, ops: seq<Op>, results: seq<OpResult>, m: nat, n: nat)
    requires m <= n <= |ops| == |results| && TablesAfter(t, ops, results, n).Success?
    requires TablesAfter(t, ops, results, m).Success? && TablesAfter(t, ops, results, m).value.genesisSeq.Some?
    ensures TablesAfter(t, ops, results, n).value.genesisSeq == TablesAfter(t, ops, results, m).value.genesisSeq
    ensures forall i | m <= i < n && !results[i].duplicate :: !Founds(ops[i])
    decreases n
  {
    hide EffectStep, Founds;
    if m < n {
      FoundedStays(t, ops, results, m, n - 1);
      EffectFounds(TablesAfter(t, ops, results, n - 1).value, ops[n - 1], results[n - 1]);
    }
  }

  /** Before a Workspace exists only a genesis gets past the walk, and only as the first op. */
  lemma FirstStepFounds(p: Post, v: View, w: Walk)
    requires 0 < |p.ops| == |v.logs| && !w.founded && WalkStep(p, v, w, 0).Success?
    ensures Founds(p.ops[0])
  {
    hide RequireRole, VerifyMemberRegister, VerifyGrant, VerifyRevoke, VerifyRotate, VerifyPrune;
  }

  // --- One commit ---

  lemma FirstInsertIsFirst(
    existing: map<Key, nat>, ops: seq<Op>, plan: Plan, seqs: seq<nat>, results: seq<OpResult>)
    requires PlanFacts(existing, ops, plan) && PlanWithin(plan, ops) && |seqs| == |ops| > 0
    requires results == ResultsOf(plan.entries, seqs) && existing == map[]
    ensures plan.freshAt != [] && plan.freshAt[0] == 0 && !results[0].duplicate && results[0].seqNo == seqs[0]
  {
    assert EntryFacts(existing, ops[0], plan.entries[0], plan.freshAt, ops, 0);
    var k := plan.entries[0].source.k;
    assert plan.freshAt[k] == 0;
    assert plan.entries[plan.freshAt[0]].source == Staged(0);
  }

  /** A POST against an empty log founds it with its own first op. */
  lemma FirstCommitFounds(
    db: Db, p: Post, v: View, existing: seq<OpRow>, headRows: seq<OpRow>, seqs: seq<nat>, plan: Plan,
    results: seq<OpResult>, db': Db)
    requires Committed(db, p, existing, headRows, seqs, plan, results, db') && |v.logs| == |p.ops|
    requires db.ops == [] == existing && db.genesisSeq.None? && !v.founded && WalkUpTo(p, v, |p.ops|).Success?
    ensures OpensWithGenesis(db'.genesisSeq, db'.ops)
  {
    hide PlanUpTo, Heads, PlanFacts, WalkStep, AnyCollision, Founds, EffectStep;
    var n, keys := |p.ops|, ExistingSeqs(existing, OpIds(p.ops));
    var base := db.ops + NewRows(p.ops, plan.freshAt, seqs);
    StampsKeepRows(base, p.ops, results, n);
    if n == 0 {
      assert base == [];
    } else {
      PlanHolds(keys, Heads(headRows, Authors(p.ops)), p.ops, n);
      FirstInsertIsFirst(keys, p.ops, plan, seqs, results);
      WalkPrefix(p, v, 1, n);
      WalkLast(p, v, 1);
      FirstStepFounds(p, v, WalkUpTo(p, v, 0).value);
      TablesPrefix(TablesOf(db), p.ops, results, 1, n);
      EffectFounds(TablesOf(db), p.ops[0], results[0]);
      FoundedStays(TablesOf(db), p.ops, results, 1, n);
      InsertsAreAnswered(keys, db, p.ops, plan, seqs, results, db'.ops);
      NewRowsFoundNothing(keys, db, p.ops, plan, seqs, results, db'.ops);
      assert base[0] == OpRow(seqs[0], p.ops[0], None);
    }
  }

  /** Beyond the first insert, no inserted row is a genesis. */
  lemma NewRowsFoundNothing(
    existing: map<Key, nat>, db: Db, ops: seq<Op>, plan: Plan, seqs: seq<nat>, results: seq<OpResult>, rows: seq<OpRow>)
    requires PlanFacts(existing, ops, plan) && PlanWithin(plan, ops) && |seqs| == |ops| && plan.freshAt != []
    requires results == ResultsOf(plan.entries, seqs) && SameRows(db.ops + NewRows(ops, plan.freshAt, seqs), rows)
    requires forall i | 1 <= i < |ops| && !results[i].duplicate :: !Founds(ops[i])
    ensures forall q | |db.ops| < q < |rows| :: !Founds(rows[q].op)
  {
    hide Founds;
    var base := db.ops + NewRows(ops, plan.freshAt, seqs);
    forall q | |db.ops| < q < |rows|
      ensures !Founds(rows[q].op)
    {
      var k := q - |db.ops|;
      var i := plan.freshAt[k];
      assert base[q] == OpRow(seqs[k], ops[i], None);
      assert plan.freshAt[0] < i && plan.entries[i].source == Staged(k);
    }
  }

  /** A POST against a founded log leaves its opening alone. */
  lemma LaterCommitKeepsGenesis(
    book: Book, db: Db, p: Post, existing: seq<OpRow>, headRows: seq<OpRow>, seqs: seq<nat>, plan: Plan,
    results: seq<OpResult>, db': Db)
    requires Committed(db, p, existing, headRows, seqs, plan, results, db')
    requires db.ops != [] && OpensWithGenesis(db.genesisSeq, db.ops)
    ensures OpensWithGenesis(db'.genesisSeq, db'.ops)
  {
    hide PlanUpTo, Heads, PlanFacts, AnyCollision, Founds, EffectStep, ExistingSeqs;
    var n, keys := |p.ops|, ExistingSeqs(existing, OpIds(p.ops));
    var base := db.ops + NewRows(p.ops, plan.freshAt, seqs);
    StampsKeepRows(base, p.ops, results, n);
    PlanHolds(keys, Heads(headRows, Authors(p.ops)), p.ops, n);
    FoundedStays(TablesOf(db), p.ops, results, 0, n);
    InsertsAreAnswered(keys, db, p.ops, plan, seqs, results, db'.ops);
    forall q | 0 < q < |db'.ops|
      ensures !Founds(db'.ops[q].op)
    {
      if q < |db.ops| {
        assert db'.ops[q].op == base[q].op == db.ops[q].op;
      } else {
        assert RowAnswered(db'.ops[q], p.ops, results);
      }
    }
    assert base[0] == db.ops[0];
  }

  lemma CommitKeepsGenesis(
    book: Book, db: Db, p: Post, v: View, existing: seq<OpRow>, headRows: seq<OpRow>, seqs: seq<nat>,
    results: seq<OpResult>, db': Db)
    requires |p.ops| == |v.logs| == |seqs| && WalkUpTo(p, v, |p.ops|).Success?
    requires AdmissionsWithin(WalkUpTo(p, v, |p.ops|).value, |p.ops|)
    requires Append(db, p, WalkUpTo(p, v, |p.ops|).value, existing, headRows, seqs) == Answered(results, db')
    requires Extends(existing, db.ops) && (v.founded ==> db.genesisSeq.Some?)
    requires OpensWithGenesis(db.genesisSeq, db.ops)
    ensures OpensWithGenesis(db'.genesisSeq, db'.ops)
  {
    hide WalkUpTo, Append, Committed, Founds;
    var plan := AppendCommits(db, p, v, existing, headRows, seqs, results, db');
    if db.ops == [] {
      assert existing == [];
      FirstCommitFounds(db, p, v, existing, headRows, seqs, plan, results, db');
    } else {
      LaterCommitKeepsGenesis(book, db, p, existing, headRows, seqs, plan, results, db');
    }
  }

  // --- Every run ---

  lemma StepKeepsGenesis(site: Site, book: Book, strings: set<Bytes>, hist: seq<Db>, t: Txn)
    requires GoodHistory(book, hist) && Legal(site, book, strings, hist, t)
    requires forall k | 0 <= k < |hist| :: OpensWithGenesis(hist[k].genesisSeq, hist[k].ops)
    ensures var db := Perform(site, book, strings, hist, t).0; OpensWithGenesis(db.genesisSeq, db.ops)
  {
    hide WalkUpTo, Append, Good, OpensWithGenesis, FreshSeqs, Honest, Uploading;
    var last := |hist| - 1;
    var db := hist[last];
    if t.KeywrapTxn? {
      UploadKeepsLogRows(site, hist, t);
    } else if t.PostTxn? && Walked(hist, t.post, t.walk).Success? {
      var v := ViewAt(hist, t.post, t.walk);
      var w := Walked(hist, t.post, t.walk).value;
      var existing, heads := hist[t.append.existing].ops, hist[t.append.heads].ops;
      var outcome := Append(db, t.post, w, existing, heads, t.seqs);
      if outcome.Answered? {
        assert Grows(hist[t.append.existing], db) && Grows(hist[t.walk.workspace], db);
        FoundedGrows(hist[t.walk.workspace], db);
        CommitKeepsGenesis(book, db, t.post, v, existing, heads, t.seqs, outcome.results, outcome.db);
      }
    }
  }

  lemma FoundedGrows(a: Db, b: Db)
    requires OpensWithGenesis(a.genesisSeq, a.ops) && OpensWithGenesis(b.genesisSeq, b.ops) && Extends(a.ops, b.ops)
    ensures a.genesisSeq.Some? ==> b.genesisSeq.Some?
  {
  }

  lemma UploadKeepsLogRows(site: Site, hist: seq<Db>, t: Txn)
    requires t.KeywrapTxn? && hist != []
    requires t.grantsAt < |hist| && t.membersAt < |hist| && t.epochAt < |hist| && t.commitAt < |hist|
    requires forall m | m in t.wrapsAt :: t.wrapsAt[m] < |hist|
    ensures Uploading(site, hist, t).Uploaded? ==>
              var db := Uploading(site, hist, t).db;
              db.ops == hist[t.commitAt].ops && db.genesisSeq == hist[t.commitAt].genesisSeq
  {
    hide KeyPlane.Validate, KeyPlane.Decide, KeyPlane.AddWraps, KeyPlane.Recheck;
  }

  /**
   In every state of every run the log is empty and unfounded, or opens with its genesis at the Workspace's genesis
   seq, and holds no other: of Devices racing to found it, one wins.
   */
  lemma {:induction false} TheLogOpensWithItsOnlyGenesis(
    site: Site, book: Book, strings: set<Bytes>, hist: seq<Db>, txns: seq<Txn>, k: nat)
    requires Run(site, book, strings, hist, txns) && k < |hist|
    ensures forall j | 0 <= j <= k :: OpensWithGenesis(hist[j].genesisSeq, hist[j].ops)
  {
    hide Legal, Perform, GoodHistory;
    if k > 0 {
      TheLogOpensWithItsOnlyGenesis(site, book, strings, hist, txns, k - 1);
      RunAt(site, book, strings, hist, txns, k - 1);
      RunIsGood(site, book, strings, hist, txns, k - 1);
      var before := hist[..k];
      assert hist[..k - 1 + 1] == before;
      StepKeepsGenesis(site, book, strings, before, txns[k - 1]);
    }
  }

  // --- The Devices that lose ---

  lemma {:induction false} FirstAdmissionFounds(ops: seq<Op>, n: nat)
    requires 0 < n <= |ops| && Founds(ops[0])
    ensures ControlAdmissions(ops, n) != []
    ensures ControlAdmissions(ops, n)[0] == ControlAdmission(0, EffectOf(ops[0]).value)
  {
    hide EffectOf;
    if n == 1 {
      assert ControlAdmissions(ops, 0) + ControlOf(ops[0], 0) == ControlOf(ops[0], 0);
    } else {
      FirstAdmissionFounds(ops, n - 1);
    }
  }

  lemma {:induction false} StampsRefuseOneWay(
    rows: seq<OpRow>, prunes: seq<PruneAdmission>, results: seq<OpResult>, n: nat)
    requires n <= |prunes| && forall a | a in prunes :: a.index < |results|
    ensures StampUpTo(rows, prunes, results, n).Failure? ==>
              StampUpTo(rows, prunes, results, n).error.code == PruneTargetAlreadyCompacted(None)
  {
    if n > 0 {
      StampsRefuseOneWay(rows, prunes, results, n - 1);
    }
  }

  lemma LateGenesisAgainst(db: Db, p: Post, v: View, existing: seq<OpRow>, headRows: seq<OpRow>, seqs: seq<nat>)
    requires |p.ops| == |v.logs| == |seqs| && p.ops != [] && Founds(p.ops[0]) && db.genesisSeq.Some?
    requires WalkUpTo(p, v, |p.ops|).Success? && AdmissionsWithin(WalkUpTo(p, v, |p.ops|).value, |p.ops|)
    ensures match Append(db, p, WalkUpTo(p, v, |p.ops|).value, existing, headRows, seqs)
            case Answered(results, _) => |results| == |p.ops| && results[0].duplicate
            case Refused(refusal) =>
              || refusal == Refusal(GenesisNotFirst, Some(0))
              || refusal.code.AuthorChainConflict? || refusal.code == PruneTargetAlreadyCompacted(None)
            case Raced => true
  {
    hide WalkUpTo, PlanUpTo, ExistingSeqs, Heads, AnyCollision, StampUpTo, MaterialiseUpTo, ControlAdmissions, EffectOf;
    var w := WalkUpTo(p, v, |p.ops|).value;
    var keys, heads := ExistingSeqs(existing, OpIds(p.ops)), Heads(headRows, Authors(p.ops));
    WalkAdmits(p, v, |p.ops|);
    FirstAdmissionFounds(p.ops, |p.ops|);
    PlanRefusesOtherwise(keys, heads, p.ops, |p.ops|);
    if PlanUpTo(keys, heads, p.ops, |p.ops|).Success? {
      var plan := PlanUpTo(keys, heads, p.ops, |p.ops|).value;
      PlanIsWithin(keys, heads, p.ops, |p.ops|);
      assert p.ops[..|p.ops|] == p.ops;
      var results := ResultsOf(plan.entries, seqs);
      StampsRefuseOneWay(db.ops + NewRows(p.ops, plan.freshAt, seqs), w.prunes, results, |w.prunes|);
      if !results[0].duplicate {
        GenesisFails(TablesOf(db), w.control, results, |w.control|);
      }
    }
  }

  /** With the Workspace there, a new genesis fails every materialisation it opens. */
  lemma {:induction false} GenesisFails(
    t: Tables, admissions: seq<ControlAdmission>, results: seq<OpResult>, n: nat)
    requires 0 < n <= |admissions| && IndexesWithin(admissions, |results|) && t.genesisSeq.Some?
    requires admissions[0].effect.Founded? && !results[admissions[0].index].duplicate
    ensures MaterialiseUpTo(t, admissions, results, n).Failure?
  {
    if n == 1 {
      assert MaterialiseUpTo(t, admissions, results, 0) == Success(t);
    } else {
      GenesisFails(t, admissions, results, n - 1);
    }
  }

  /**
   A Device that walked an unfounded Workspace and finds it founded when it commits is told so, at its genesis; a
   genesis answered after all was stored before.
   */
  lemma LateGenesisIsTold(site: Site, book: Book, strings: set<Bytes>, hist: seq<Db>, txns: seq<Txn>, k: nat)
    requires Run(site, book, strings, hist, txns) && k < |txns| && txns[k].PostTxn? && hist[k].genesisSeq.Some?
    requires ReadsWithin(txns[k].walk, k + 1, |txns[k].post.ops|)
    requires Walked(hist[..k + 1], txns[k].post, txns[k].walk).Success?
    requires txns[k].post.ops != [] && Founds(txns[k].post.ops[0])
    ensures match AnswerAt(site, book, strings, hist, txns, k)
            case Results(results) => |results| == |txns[k].post.ops| && results[0].duplicate
            case Refusing(refusal) =>
              || refusal == Refusal(GenesisNotFirst, Some(0))
              || refusal.code.AuthorChainConflict? || refusal.code == PruneTargetAlreadyCompacted(None)
            case _ => false
  {
    hide WalkUpTo, Append, EffectOf, FreshSeqs, Honest, Run;
    RunAt(site, book, strings, hist, txns, k);
    var before, t := hist[..k + 1], txns[k];
    var v := ViewAt(before, t.post, t.walk);
    LateGenesisAgainst(before[k], t.post, v, before[t.append.existing].ops, before[t.append.heads].ops, t.seqs);
  }
}
