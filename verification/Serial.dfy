/** A POST that no other request overlaps: how its walk, its answers and the rows it writes hang together. */
module Serial {
  import opened Wrappers
  import opened ByteStrings
  import opened Payloads
  import opened OpLog
  import opened OpLogFacts
  import opened LogInvariant

  /** The batch's op i is keyed like a stored op of its author, or like an op before it in the batch. */
  predicate IsRepeat(db: Db, p: Post, i: nat)
    requires i < |p.ops|
  {
    || p.ops[i].header.opId in ViewOf(db, p).replayed
    || exists j | 0 <= j < i :: p.ops[j].Key() == p.ops[i].Key()
  }

  /** Repeats are answered as duplicates, and nothing else is; new seqs lie above the log. */
  ghost predicate Classed(db: Db, p: Post, results: seq<OpResult>, i: nat)
    requires i < |p.ops| == |results|
  {
    && (results[i].duplicate <==> IsRepeat(db, p, i))
    && (!results[i].duplicate ==> Top(db.ops) < results[i].seqNo)
  }

  ghost predicate InOrder(results: seq<OpResult>) {
    forall i, j | 0 <= i < j < |results| && !results[i].duplicate && !results[j].duplicate ::
      results[i].seqNo < results[j].seqNo
  }

  /** What the parsing loop promises of a batch. */
  ghost predicate IsPosted(p: Post) {
    forall op | op in p.ops :: op.Author() == p.caller.memberId && WellDecoded(op)
  }

  /** The walk let every op through, the append answered `results`, and the control ops materialised. */
  ghost predicate Served(db: Db, p: Post, results: seq<OpResult>) {
    && |results| == |p.ops|
    && IsPosted(p)
    && WalkUpTo(p, ViewOf(db, p), |p.ops|).Success?
    && TablesAfter(TablesOf(db), p.ops, results, |p.ops|).Success?
    && InOrder(results)
    && forall i | 0 <= i < |p.ops| :: Classed(db, p, results, i)
  }

  /** The walk's state before op n. */
  ghost function WalkAt(db: Db, p: Post, results: seq<OpResult>, n: nat): Walk
    requires Served(db, p, results) && n <= |p.ops|
  {
    WalkPrefix(p, ViewOf(db, p), n, |p.ops|);
    WalkUpTo(p, ViewOf(db, p), n).value
  }

  /** The tables once the ops before op n are materialised. */
  ghost function TablesAt(db: Db, p: Post, results: seq<OpResult>, n: nat): Tables
    requires Served(db, p, results) && n <= |p.ops|
  {
    TablesPrefix(TablesOf(db), p.ops, results, n, |p.ops|);
    TablesAfter(TablesOf(db), p.ops, results, n).value
  }

  lemma WalkStarts(db: Db, p: Post, results: seq<OpResult>)
    requires Served(db, p, results)
    ensures WalkAt(db, p, results, 0).grants == IndexOf(db.grants)
    ensures WalkAt(db, p, results, 0).epoch == CurrentKeyEpoch(db.epochs.Keys)
    ensures TablesAt(db, p, results, 0) == TablesOf(db)
  {
    hide Classed, InOrder, IsPosted;
  }

  lemma WalkAtStep(db: Db, p: Post, results: seq<OpResult>, i: nat)
    requires Served(db, p, results) && i < |p.ops|
    ensures WalkStep(p, ViewOf(db, p), WalkAt(db, p, results, i), i) == Success(WalkAt(db, p, results, i + 1))
  {
    hide WalkStep, WalkUpTo, TablesAfter, Classed, InOrder, ViewOf, IsPosted;
    WalkPrefix(p, ViewOf(db, p), i + 1, |p.ops|);
    WalkLast(p, ViewOf(db, p), i + 1);
  }

  lemma TablesAtStep(db: Db, p: Post, results: seq<OpResult>, i: nat)
    requires Served(db, p, results) && i < |p.ops|
    ensures EffectStep(TablesAt(db, p, results, i), p.ops[i], results[i]) == Success(TablesAt(db, p, results, i + 1))
  {
    hide WalkUpTo, EffectStep, Classed, InOrder, ViewOf, IsPosted;
    TablesPrefix(TablesOf(db), p.ops, results, i + 1, |p.ops|);
  }

  lemma ClassOf(db: Db, p: Post, results: seq<OpResult>, i: nat)
    requires Served(db, p, results) && i < |p.ops|
    ensures |results| == |p.ops| && Classed(db, p, results, i)
    ensures p.ops[i].Author() == p.caller.memberId && WellDecoded(p.ops[i])
  {
    assert p.ops[i] in p.ops;
    hide WalkUpTo, TablesAfter, Classed, InOrder, WellDecoded;
  }

  lemma ServedInOrder(db: Db, p: Post, results: seq<OpResult>)
    requires Served(db, p, results)
    ensures |results| == |p.ops| && InOrder(results)
  {
    hide WalkUpTo, TablesAfter, Classed, IsPosted, InOrder;
  }

  lemma OrderedBefore(results: seq<OpResult>, i: nat)
    requires InOrder(results) && i < |results| && !results[i].duplicate
    ensures forall j | 0 <= j < i && !results[j].duplicate :: results[j].seqNo < results[i].seqNo
    ensures forall j | i < j < |results| && !results[j].duplicate :: results[i].seqNo < results[j].seqNo
  {
  }

  lemma NewSeqIsAbove(db: Db, p: Post, results: seq<OpResult>, j: nat)
    requires Served(db, p, results) && j < |p.ops|
    ensures |results| == |p.ops| && (!results[j].duplicate ==> Top(db.ops) < results[j].seqNo)
  {
    hide Served;
    ClassOf(db, p, results, j);
  }

  // --- Every answered POST is served so ---

  /** Each row beyond the stored ones is the row of an op answered as new. */
  ghost predicate RowsAnswered(stored: nat, rows: seq<OpRow>, ops: seq<Op>, results: seq<OpResult>) {
    |results| == |ops| && forall q | stored <= q < |rows| :: RowAnswered(rows[q], ops, results)
  }

  ghost predicate RowAnswered(row: OpRow, ops: seq<Op>, results: seq<OpResult>)
    requires |results| == |ops|
  {
    exists i | 0 <= i < |ops| :: !results[i].duplicate && results[i].seqNo == row.seqNo && row.op == ops[i]
  }

  lemma InsertsAreAnswered(
    existing: map<Key, nat>, db: Db, ops: seq<Op>, plan: Plan, seqs: seq<nat>, results: seq<OpResult>, rows: seq<OpRow>)
    requires PlanFacts(existing, ops, plan) && PlanWithin(plan, ops) && |seqs| == |ops|
    requires results == ResultsOf(plan.entries, seqs)
    requires SameRows(db.ops + NewRows(ops, plan.freshAt, seqs), rows)
    ensures RowsAnswered(|db.ops|, rows, ops, results)
  {
  }

  /** Each op answered as new has its row beyond the stored ones. */
  ghost predicate NewOpsStored(stored: nat, rows: seq<OpRow>, ops: seq<Op>, results: seq<OpResult>) {
    |results| == |ops|
    && forall i | 0 <= i < |ops| && !results[i].duplicate :: NewOpStored(stored, rows, ops[i], results[i])
  }

  ghost predicate NewOpStored(stored: nat, rows: seq<OpRow>, op: Op, r: OpResult) {
    exists q | stored <= q < |rows| :: rows[q].op == op && rows[q].seqNo == r.seqNo
  }

  lemma NewOpHasRow(rows: seq<OpRow>, stored: nat, ops: seq<Op>, results: seq<OpResult>, i: nat) returns (q: nat)
    requires NewOpsStored(stored, rows, ops, results) && i < |ops| && !results[i].duplicate
    ensures stored <= q < |rows| && rows[q].op == ops[i] && rows[q].seqNo == results[i].seqNo
  {
    assert NewOpStored(stored, rows, ops[i], results[i]);
    q :| stored <= q < |rows| && rows[q].op == ops[i] && rows[q].seqNo == results[i].seqNo;
  }

  lemma AnswersAreInserted(
    existing: map<Key, nat>, db: Db, ops: seq<Op>, plan: Plan, seqs: seq<nat>, results: seq<OpResult>, rows: seq<OpRow>)
    requires PlanFacts(existing, ops, plan) && PlanWithin(plan, ops) && |seqs| == |ops|
    requires results == ResultsOf(plan.entries, seqs)
    requires SameRows(db.ops + NewRows(ops, plan.freshAt, seqs), rows)
    ensures NewOpsStored(|db.ops|, rows, ops, results)
  {
    hide PlanFacts;
    var base := db.ops + NewRows(ops, plan.freshAt, seqs);
    forall i | 0 <= i < |ops| && !results[i].duplicate
      ensures NewOpStored(|db.ops|, rows, ops[i], results[i])
    {
      var k := FreshEntry(existing, ops, plan, seqs, results, i);
      assert base[|db.ops| + k] == OpRow(seqs[k], ops[i], None);
      assert rows[|db.ops| + k].op == ops[i];
    }
  }

  lemma FreshInOrder(
    existing: map<Key, nat>, ops: seq<Op>, plan: Plan, rows: seq<OpRow>, seqs: seq<nat>, results: seq<OpResult>)
    requires PlanFacts(existing, ops, plan) && PlanWithin(plan, ops) && |seqs| == |ops| && FreshSeqs(rows, seqs)
    requires results == ResultsOf(plan.entries, seqs)
    ensures InOrder(results)
  {
    hide PlanFacts;
    forall i, j | 0 <= i < j < |results| && !results[i].duplicate && !results[j].duplicate
      ensures results[i].seqNo < results[j].seqNo
    {
      var k := FreshEntry(existing, ops, plan, seqs, results, i);
      var l := FreshEntry(existing, ops, plan, seqs, results, j);
      StagedInOrder(existing, ops, plan, k, l);
    }
  }

  lemma FreshEntry(existing: map<Key, nat>, ops: seq<Op>, plan: Plan, seqs: seq<nat>, results: seq<OpResult>, i: nat)
    returns (k: nat)
    requires PlanFacts(existing, ops, plan) && PlanWithin(plan, ops) && |seqs| == |ops|
    requires results == ResultsOf(plan.entries, seqs) && i < |results| && !results[i].duplicate
    ensures k < |plan.freshAt| && plan.freshAt[k] == i && results[i].seqNo == seqs[k]
  {
    hide FreshFacts, StagedFacts;
    assert EntryFacts(existing, ops[i], plan.entries[i], plan.freshAt, ops, i);
    k := plan.entries[i].source.k;
  }

  lemma StagedInOrder(existing: map<Key, nat>, ops: seq<Op>, plan: Plan, k: nat, l: nat)
    requires PlanFacts(existing, ops, plan) && k < |plan.freshAt| && l < |plan.freshAt|
    requires plan.freshAt[k] < plan.freshAt[l]
    ensures k < l
  {
    hide EntriesFacts, StagedFacts;
  }

  /** An entry is a duplicate exactly when its key is stored or came before it in the batch. */
  lemma DuplicatesAreRepeats(existing: map<Key, nat>, ops: seq<Op>, plan: Plan, i: nat)
    requires PlanFacts(existing, ops, plan) && PlanWithin(plan, ops) && i < |ops|
    ensures plan.entries[i].duplicate <==>
              ops[i].Key() in existing || exists j | 0 <= j < i :: ops[j].Key() == ops[i].Key()
  {
    hide StagedFacts;
    var e := plan.entries[i];
    assert EntryFacts(existing, ops[i], e, plan.freshAt, ops, i);
    if e.duplicate {
      if e.source.Staged? {
        assert ops[plan.freshAt[e.source.k]].Key() == ops[i].Key();
      }
    } else {
      forall j | 0 <= j < i
        ensures ops[j].Key() != ops[i].Key()
      {
        assert EntryFacts(existing, ops[j], plan.entries[j], plan.freshAt, ops, j);
      }
    }
  }

  /** The append looks replays up by author and op id, the walk by op id among the caller's own: they agree. */
  lemma ReplaysAreStoredKeys(db: Db, p: Post, i: nat)
    requires i < |p.ops| && p.ops[i].Author() == p.caller.memberId
    ensures p.ops[i].header.opId in ViewOf(db, p).replayed <==> p.ops[i].Key() in ExistingSeqs(db.ops, OpIds(p.ops))
  {
    hide ExistingSeqs, CurrentKeyEpoch;
    var op := p.ops[i];
    assert op in p.ops;
    ExistingExactly(db.ops, OpIds(p.ops), op.Key());
    if r :| r in db.ops && r.op.Author() == p.caller.memberId && r.op.header.opId == op.header.opId {
      var j :| 0 <= j < |db.ops| && db.ops[j] == r;
    }
    if j :| 0 <= j < |db.ops| && db.ops[j].op.Key() == op.Key() {
      assert db.ops[j] in db.ops;
    }
  }

  lemma PlannedIsClassed(db: Db, p: Post, plan: Plan, seqs: seq<nat>, results: seq<OpResult>, i: nat)
    requires PlanFacts(ExistingSeqs(db.ops, OpIds(p.ops)), p.ops, plan) && PlanWithin(plan, p.ops)
    requires |seqs| == |p.ops| && FreshSeqs(db.ops, seqs) && results == ResultsOf(plan.entries, seqs)
    requires i < |p.ops| && p.ops[i].Author() == p.caller.memberId
    ensures Classed(db, p, results, i)
  {
    hide PlanFacts, ExistingSeqs, ViewOf;
    var keys := ExistingSeqs(db.ops, OpIds(p.ops));
    DuplicatesAreRepeats(keys, p.ops, plan, i);
    ReplaysAreStoredKeys(db, p, i);
    if !results[i].duplicate {
      var k := FreshEntry(keys, p.ops, plan, seqs, results, i);
    }
  }

  /** Stamping never moves a stamp. */
  lemma {:induction false} StampsExtend(base: seq<OpRow>, ops: seq<Op>, results: seq<OpResult>, n: nat)
    requires n <= |ops| == |results| && StampsAfter(base, ops, results, n).Success?
    ensures Extends(base, StampsAfter(base, ops, results, n).value)
  {
    if n > 0 {
      StampsExtend(base, ops, results, n - 1);
    }
  }

  /** What an answered POST leaves: its new ops, once each, above a log that only grew, and the rows they stand for. */
  ghost predicate Recorded(db: Db, p: Post, results: seq<OpResult>, db': Db) {
    && Served(db, p, results) && |results| == |p.ops|
    && Increasing(db'.ops) && Extends(db.ops, db'.ops)
    && NewOpsStored(|db.ops|, db'.ops, p.ops, results) && RowsAnswered(|db.ops|, db'.ops, p.ops, results)
    && TablesOf(db') == TablesAt(db, p, results, |p.ops|)
  }

  /** It holds of every POST, whatever op ids it uses. */
  lemma AnsweredIsRecorded(db: Db, p: Post, seqs: seq<nat>, results: seq<OpResult>, db': Db)
    requires Increasing(db.ops) && IsPosted(p) && |seqs| == |p.ops| && FreshSeqs(db.ops, seqs)
    requires PostSerially(db, p, seqs) == Answered(results, db')
    ensures Recorded(db, p, results, db') && db'.wraps == db.wraps && db'.escrows == db.escrows
  {
    hide WalkUpTo, Append, Extends, TablesAfter, StampsAfter, PlanUpTo, AnyCollision, ExistingSeqs, Heads, Classed,
      ViewOf, InOrder, FreshSeqs, PlanFacts, RowsAnswered, NewOpsStored, Increasing, WellDecoded;
    var v := ViewOf(db, p);
    AdmissionsAreWithin(p, v, |p.ops|);
    var plan := AppendCommits(db, p, v, db.ops, db.ops, seqs, results, db');
    var keys := ExistingSeqs(db.ops, OpIds(p.ops));
    var base := db.ops + NewRows(p.ops, plan.freshAt, seqs);
    PlanHolds(keys, Heads(db.ops, Authors(p.ops)), p.ops, |p.ops|);
    FreshInOrder(keys, p.ops, plan, db.ops, seqs, results);
    StampsKeepRows(base, p.ops, results, |p.ops|);
    InsertsAreAnswered(keys, db, p.ops, plan, seqs, results, db'.ops);
    AnswersAreInserted(keys, db, p.ops, plan, seqs, results, db'.ops);
    InsertKeepsOrder(db.ops, p.ops, plan.freshAt, seqs);
    SameRowsIncrease(base, db'.ops);
    AppendExtends(db.ops, NewRows(p.ops, plan.freshAt, seqs));
    StampsExtend(base, p.ops, results, |p.ops|);
    ExtendsTransitive(db.ops, base, db'.ops);
    forall i | 0 <= i < |p.ops|
      ensures Classed(db, p, results, i)
    {
      assert p.ops[i] in p.ops;
      PlannedIsClassed(db, p, plan, seqs, results, i);
    }
  }

  lemma TopBounds(rows: seq<OpRow>)
    requires Increasing(rows)
    ensures forall q | 0 <= q < |rows| :: rows[q].seqNo <= Top(rows)
  {
  }

  lemma TopGrows(a: seq<OpRow>, b: seq<OpRow>)
    requires Increasing(b) && Extends(a, b)
    ensures Top(a) <= Top(b)
  {
  }

  // --- When op ids name envelopes ---

  ghost predicate PostedBy(book: Book, p: Post) {
    Honest(book, p.ops) && forall op | op in p.ops :: op.Author() == p.caller.memberId
  }

  /** No op id of the batch names two ops, stored or posted. */
  ghost predicate NoReuse(db: Db, p: Post) {
    && (forall i, q | 0 <= i < |p.ops| && 0 <= q < |db.ops| && p.ops[i].Key() == db.ops[q].op.Key() ::
          p.ops[i] == db.ops[q].op)
    && (forall i, j | 0 <= i < j < |p.ops| && p.ops[i].Key() == p.ops[j].Key() :: p.ops[i] == p.ops[j])
  }

  lemma HonestPostsReuseNothing(book: Book, db: Db, p: Post)
    requires Honest(book, OpsOf(db.ops)) && PostedBy(book, p)
    ensures NoReuse(db, p) && IsPosted(p)
  {
    hide WellDecoded;
    forall i | 0 <= i < |p.ops|
      ensures InBook(book, p.ops[i])
    {
      assert p.ops[i] in p.ops;
    }
    forall q | 0 <= q < |db.ops|
      ensures InBook(book, db.ops[q].op)
    {
      assert OpsOf(db.ops)[q] in OpsOf(db.ops);
    }
    forall op | op in p.ops
      ensures WellDecoded(op)
    {
      assert InBook(book, op);
    }
  }

  /** Then a repeat is a stored op or an earlier op of the batch, verbatim. */
  lemma RepeatIsVerbatim(db: Db, p: Post, i: nat)
    requires NoReuse(db, p) && i < |p.ops| && p.ops[i].Author() == p.caller.memberId && IsRepeat(db, p, i)
    ensures p.ops[i] in OpsOf(db.ops) || exists j | 0 <= j < i :: p.ops[j] == p.ops[i]
    ensures p.ops[i].header.opId in ViewOf(db, p).replayed ==> p.ops[i] in OpsOf(db.ops)
  {
    var op := p.ops[i];
    if op.header.opId in ViewOf(db, p).replayed {
      var r :| r in db.ops && r.op.Author() == p.caller.memberId && r.op.header.opId == op.header.opId;
      var q :| 0 <= q < |db.ops| && db.ops[q] == r;
      assert OpsOf(db.ops)[q] == op;
    }
  }

  lemma ViewIsStale(book: Book, db: Db, p: Post)
    requires LogInv(book, db.ops, db.epochs.Keys) && PostedBy(book, p)
    ensures ReadsAreStale(db, p, ViewOf(db, p), db.ops, db.ops) && |ViewOf(db, p).logs| == |p.ops|
  {
  }

  /** And an answered POST keeps the log, and every answer names the row of its very op. */
  lemma AnsweredKeepsLog(book: Book, db: Db, p: Post, seqs: seq<nat>, results: seq<OpResult>, db': Db)
    requires LogInv(book, db.ops, db.epochs.Keys) && PostedBy(book, p)
    requires |seqs| == |p.ops| && FreshSeqs(db.ops, seqs)
    requires PostSerially(db, p, seqs) == Answered(results, db')
    ensures LogInv(book, db'.ops, db'.epochs.Keys) && NoReuse(db, p) && IsPosted(p) && Increasing(db.ops)
    ensures AllAccounted(|db.ops|, db'.ops, p.ops, results)
  {
    hide LogInv, ReadsAreStale, WalkUpTo, Append, AllAccounted, Extends, Honest, FreshSeqs, ViewOf, NoReuse,
      Increasing;
    ViewIsStale(book, db, p);
    AdmissionsAreWithin(p, ViewOf(db, p), |p.ops|);
    CommitKeepsLog(book, db, p, ViewOf(db, p), db.ops, db.ops, seqs, results, db');
    LogIsHonest(book, db);
    HonestPostsReuseNothing(book, db, p);
  }

  lemma LogIsHonest(book: Book, db: Db)
    requires LogInv(book, db.ops, db.epochs.Keys)
    ensures Honest(book, OpsOf(db.ops)) && Increasing(db.ops) && UniqueKeys(OpsOf(db.ops))
    ensures Chained(OpsOf(db.ops)) && RotatesMaterialised(db.ops, db.epochs.Keys)
  {
  }
}
