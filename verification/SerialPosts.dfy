/**
 What can refuse a POST that no other request overlaps: its walk or its author chain, and nothing after them. The
 constraints of the tables, and the guarded `UPDATE`, fire only in races. Source: backend/app/sync/routes.py.
 */
module SerialPosts {
  import opened Wrappers
  import opened ByteStrings
  import opened Payloads
  import opened OpLog
  import opened OpLogFacts
  import opened LogInvariant
  import opened PruneRaces
  import opened Serial
  import opened GrantWalk
  import opened EpochWindow

  // --- The op table ---

  /** Against current reads, an op past the replay lookup and the next-slot check meets no uniqueness constraint. */
  lemma CurrentReadsNeverCollide(db: Db, p: Post, plan: Plan, seqs: seq<nat>)
    requires Chained(OpsOf(db.ops)) && |seqs| == |p.ops|
    requires PlanUpTo(ExistingSeqs(db.ops, OpIds(p.ops)), Heads(db.ops, Authors(p.ops)), p.ops, |p.ops|)
             == Success(plan)
    requires FreshWithin(p.ops, plan.freshAt) && |plan.freshAt| <= |seqs|
    ensures !AnyCollision(db.ops, NewRows(p.ops, plan.freshAt, seqs))
  {
    hide PlanUpTo, Heads, ExistingSeqs, Collide, StagedFacts, EntriesFacts;
    var keys, heads := ExistingSeqs(db.ops, OpIds(p.ops)), Heads(db.ops, Authors(p.ops));
    PlanHolds(keys, heads, p.ops, |p.ops|);
    PlanContinues(keys, heads, p.ops, |p.ops|);
    var stored, added, rows := OpsOf(db.ops), FreshOps(p.ops, plan.freshAt), NewRows(p.ops, plan.freshAt, seqs);
    forall i, j | 0 <= i < |db.ops| && 0 <= j < |rows|
      ensures !Collide(db.ops[i].op, rows[j].op)
    {
      assert rows[j].op == added[j] == p.ops[plan.freshAt[j]] && db.ops[i].op == stored[i];
      assert ContinuesAt(heads, added, j);
      assert p.ops[plan.freshAt[j]] in p.ops;
      HeadIsCount(db.ops, Authors(p.ops), added[j].Author());
      ExistingExactly(db.ops, OpIds(p.ops), added[j].Key());
      PositionBounds(stored, i);
      Apart(stored[i], added[j]);
    }
  }

  lemma Apart(stored: Op, added: Op)
    requires stored.Key() != added.Key()
    requires stored.Author() == added.Author() ==> stored.header.authorSeq < added.header.authorSeq
    ensures !Collide(stored, added)
  {
  }

  // --- The index rows ---

  /** How far the walk and the materialisation have come together. */
  ghost predicate Prepared(db: Db, p: Post, results: seq<OpResult>, n: nat)
    requires n <= |p.ops| == |results|
  {
    var walk, t := WalkUpTo(p, ViewOf(db, p), n), TablesAfter(TablesOf(db), p.ops, results, n);
    && walk.Success? && t.Success?
    && var w := walk.value;
    && t.value.grants.Keys == w.grants.Keys && db.grants.Keys <= w.grants.Keys
    && w.epoch == CurrentKeyEpoch(t.value.epochs.Keys) && db.epochs.Keys <= t.value.epochs.Keys
    && (forall j | 0 <= j < n && p.ops[j].IsGrant() :: p.ops[j].GrantOf().grantId in w.grants)
    && (forall j | 0 <= j < n && p.ops[j].IsRotate() :: p.ops[j].RotateOf().toEpoch in t.value.epochs)
    && (n == 0 ==> t.value == TablesOf(db) && w.founded == db.genesisSeq.Some?)
  }

  lemma {:induction false} WalkPreparesRows(db: Db, p: Post, results: seq<OpResult>, n: nat)
    requires n <= |p.ops| == |results| && WalkUpTo(p, ViewOf(db, p), n).Success?
    requires AllKnown(db.grants, OpsOf(db.ops)) && RotatesMaterialised(db.ops, db.epochs.Keys)
    requires IsPosted(p) && NoReuse(db, p)
    requires forall i | 0 <= i < n :: Classed(db, p, results, i)
    ensures Prepared(db, p, results, n)
  {
    hide WalkStep, EffectStep, AllKnown, Classed, Known, WellDecoded, RotatesMaterialised, NoReuse;
    if n > 0 {
      var v := ViewOf(db, p);
      WalkLast(p, v, n);
      WalkPreparesRows(db, p, results, n - 1);
      assert p.ops[n - 1] in p.ops;
      PreparesNext(db, p, results, n - 1);
    }
  }

  /** What a repeat stands for is there already. */
  lemma RepeatIsThere(db: Db, p: Post, results: seq<OpResult>, i: nat)
    requires i < |p.ops| == |results| && Prepared(db, p, results, i)
    requires AllKnown(db.grants, OpsOf(db.ops)) && RotatesMaterialised(db.ops, db.epochs.Keys)
    requires NoReuse(db, p) && IsRepeat(db, p, i) && p.ops[i].Author() == p.caller.memberId
    ensures p.ops[i].IsGrant() ==> p.ops[i].GrantOf().grantId in WalkUpTo(p, ViewOf(db, p), i).value.grants
    ensures p.ops[i].IsRotate() ==>
              p.ops[i].RotateOf().toEpoch in TablesAfter(TablesOf(db), p.ops, results, i).value.epochs
  {
    hide WalkUpTo, TablesAfter, AllKnown, Known, RotatesMaterialised, ViewOf, NoReuse, IsRepeat;
    RepeatIsVerbatim(db, p, i);
    if p.ops[i] in OpsOf(db.ops) {
      StoredIsKnown(db, p.ops[i]);
    }
  }

  lemma PreparesNext(db: Db, p: Post, results: seq<OpResult>, i: nat)
    requires i < |p.ops| == |results| && Prepared(db, p, results, i)
    requires WalkUpTo(p, ViewOf(db, p), i + 1).Success?
    requires AllKnown(db.grants, OpsOf(db.ops)) && RotatesMaterialised(db.ops, db.epochs.Keys)
    requires WellDecoded(p.ops[i]) && p.ops[i].Author() == p.caller.memberId && NoReuse(db, p)
    requires Classed(db, p, results, i)
    ensures Prepared(db, p, results, i + 1)
  {
    hide WalkUpTo, WalkStep, EffectStep, AllKnown, Known, RotatesMaterialised, Asserted, ViewOf, WellDecoded, NoReuse,
      IsRepeat, TablesAfter, CurrentKeyEpoch;
    TablesLast(TablesOf(db), p.ops, results, i);
    var v, op, r := ViewOf(db, p), p.ops[i], results[i];
    WalkLast(p, v, i + 1);
    var w, t := WalkUpTo(p, v, i).value, TablesAfter(TablesOf(db), p.ops, results, i).value;
    DecodedRotate(op);
    StepGrants(p, v, w, i);
    StepEpoch(p, v, w, i);
    StepFounds(p, v, w, i);
    AssertedKeys(w.grants, op);
    ReplayIsRepeat(db, p, i);
    if r.duplicate {
      RepeatIsThere(db, p, results, i);
      RepeatStep(t, op, r);
      RepeatIsNoRotate(t.epochs.Keys, op);
    } else {
      NewStep(t, op, r);
      if op.IsRotate() {
        NextIsLargest(t.epochs.Keys, op.RotateOf().toEpoch);
      }
    }
  }

  lemma TablesLast(t: Tables, ops: seq<Op>, results: seq<OpResult>, i: nat)
    requires i < |ops| == |results| && TablesAfter(t, ops, results, i).Success?
    ensures TablesAfter(t, ops, results, i + 1) == EffectStep(TablesAfter(t, ops, results, i).value, ops[i], results[i])
  {
    hide EffectStep;
  }

  lemma ReplayIsRepeat(db: Db, p: Post, i: nat)
    requires i < |p.ops|
    ensures p.ops[i].header.opId in ViewOf(db, p).replayed ==> IsRepeat(db, p, i)
  {
  }

  lemma DecodedRotate(op: Op)
    requires WellDecoded(op)
    ensures op.IsRotate() ==> op.RotateOf().toEpoch == op.RotateOf().fromEpoch + 1
  {
  }

  lemma AssertedKeys(states: GrantStates, op: Op)
    ensures Asserted(states, op).Keys == states.Keys + if op.IsGrant() then {op.GrantOf().grantId} else {}
  {
  }

  lemma StoredIsKnown(db: Db, op: Op)
    requires AllKnown(db.grants, OpsOf(db.ops)) && RotatesMaterialised(db.ops, db.epochs.Keys) && op in OpsOf(db.ops)
    ensures op.IsGrant() ==> op.GrantOf().grantId in db.grants
    ensures op.IsRotate() ==> op.RotateOf().toEpoch in db.epochs
  {
  }

  lemma StepFounds(p: Post, v: View, w: Walk, i: nat)
    requires i < |p.ops| == |v.logs| && WalkStep(p, v, w, i).Success?
    ensures EffectOf(p.ops[i]).Some? && EffectOf(p.ops[i]).value.Founded? ==> i == 0 && !w.founded
  {
    hide RequireRole, RequireFreshKeyEpoch, VerifyPrune, VerifyMemberRegister, VerifyGrant, VerifyRevoke,
      VerifyRotate;
  }

  lemma RepeatStep(t: Tables, op: Op, r: OpResult)
    requires r.duplicate
    ensures EffectStep(t, op, r) == Success(t)
  {
    hide EffectOf;
  }

  /** A new op's row finds its primary key free. */
  lemma NewStep(t: Tables, op: Op, r: OpResult)
    requires !r.duplicate
    requires EffectOf(op).Some? && EffectOf(op).value.Founded? ==> t.genesisSeq.None?
    requires op.IsGrant() ==> op.GrantOf().grantId !in t.grants
    requires op.IsRotate() ==> op.RotateOf().toEpoch !in t.epochs
    ensures EffectStep(t, op, r).Success?
    ensures var t' := EffectStep(t, op, r).value;
            && t'.grants.Keys == t.grants.Keys + (if op.IsGrant() then {op.GrantOf().grantId} else {})
            && t'.epochs.Keys == t.epochs.Keys + (if op.IsRotate() then {op.RotateOf().toEpoch} else {})
  {
  }

  // --- The whole POST ---

  /** Walked and planned, a POST that no other request overlaps is answered. */
  lemma WalkedAndPlannedIsAnswered(book: Book, db: Db, p: Post, seqs: seq<nat>)
    requires LogInv(book, db.ops, db.epochs.Keys) && AllKnown(db.grants, OpsOf(db.ops)) && PostedBy(book, p)
    requires |seqs| == |p.ops| && FreshSeqs(db.ops, seqs)
    ensures PostSerially(db, p, seqs).Answered? <==>
              && WalkUpTo(p, ViewOf(db, p), |p.ops|).Success?
              && PlanUpTo(ExistingSeqs(db.ops, OpIds(p.ops)), Heads(db.ops, Authors(p.ops)), p.ops, |p.ops|).Success?
    ensures !PostSerially(db, p, seqs).Raced?
  {
    hide LogInv, AllKnown, WalkUpTo, PlanUpTo, ExistingSeqs, Heads, MaterialiseUpTo, StampUpTo, TablesAfter,
      StampsAfter, AnyCollision, FreshSeqs, PostedBy, ViewOf, PlanFacts, ReadsAreStale, Honest;
    var v := ViewOf(db, p);
    var keys, heads := ExistingSeqs(db.ops, OpIds(p.ops)), Heads(db.ops, Authors(p.ops));
    ViewIsStale(book, db, p);
    AdmissionsAreWithin(p, v, |p.ops|);
    if WalkUpTo(p, v, |p.ops|).Success? && PlanUpTo(keys, heads, p.ops, |p.ops|).Success? {
      var plan := PlanUpTo(keys, heads, p.ops, |p.ops|).value;
      PlanIsWithin(keys, heads, p.ops, |p.ops|);
      assert p.ops[..|p.ops|] == p.ops;
      LogIsHonest(book, db);
      CurrentReadsNeverCollide(db, p, plan, seqs);
      var results := ResultsOf(plan.entries, seqs);
      PlannedRowsMaterialise(book, db, p, seqs, plan, results);
      WalkAdmits(p, v, |p.ops|);
      MaterialiseByPosition(TablesOf(db), p.ops, results, |p.ops|);
      StampByPosition(db.ops + NewRows(p.ops, plan.freshAt, seqs), p.ops, v.replayed, results, |p.ops|);
      PlannedStampsLand(book, db, p, seqs, plan, results);
    }
  }

  lemma PlannedRowsMaterialise(book: Book, db: Db, p: Post, seqs: seq<nat>, plan: Plan, results: seq<OpResult>)
    requires LogInv(book, db.ops, db.epochs.Keys) && AllKnown(db.grants, OpsOf(db.ops)) && PostedBy(book, p)
    requires |seqs| == |p.ops| && FreshSeqs(db.ops, seqs)
    requires WalkUpTo(p, ViewOf(db, p), |p.ops|).Success?
    requires PlanUpTo(ExistingSeqs(db.ops, OpIds(p.ops)), Heads(db.ops, Authors(p.ops)), p.ops, |p.ops|)
             == Success(plan)
    requires PlanWithin(plan, p.ops) && results == ResultsOf(plan.entries, seqs)
    ensures TablesAfter(TablesOf(db), p.ops, results, |p.ops|).Success?
  {
    hide LogInv, AllKnown, WalkUpTo, PlanUpTo, ExistingSeqs, Heads, TablesAfter, FreshSeqs, ViewOf, Honest, Classed,
      WellDecoded, UniqueKeys, Increasing, PlanFacts, NoReuse;
    PlanHolds(ExistingSeqs(db.ops, OpIds(p.ops)), Heads(db.ops, Authors(p.ops)), p.ops, |p.ops|);
    LogIsHonest(book, db);
    HonestPostsReuseNothing(book, db, p);
    forall i | 0 <= i < |p.ops|
      ensures Classed(db, p, results, i)
    {
      assert p.ops[i] in p.ops;
      PlannedIsClassed(db, p, plan, seqs, results, i);
    }
    WalkPreparesRows(db, p, results, |p.ops|);
  }

  lemma PlannedStampsLand(book: Book, db: Db, p: Post, seqs: seq<nat>, plan: Plan, results: seq<OpResult>)
    requires LogInv(book, db.ops, db.epochs.Keys) && PostedBy(book, p)
    requires |seqs| == |p.ops| && FreshSeqs(db.ops, seqs)
    requires WalkUpTo(p, ViewOf(db, p), |p.ops|).Success?
    requires PlanUpTo(ExistingSeqs(db.ops, OpIds(p.ops)), Heads(db.ops, Authors(p.ops)), p.ops, |p.ops|)
             == Success(plan)
    requires PlanWithin(plan, p.ops) && results == ResultsOf(plan.entries, seqs)
    ensures StampsAfter(db.ops + NewRows(p.ops, plan.freshAt, seqs), p.ops, results, |p.ops|).Success?
  {
    hide LogInv, WalkUpTo, PlanUpTo, ExistingSeqs, Heads, StampsAfter, FreshSeqs, Honest, StampedSince, ReadsAreStale;
    var v := ViewOf(db, p);
    ViewIsStale(book, db, p);
    if StampsAfter(db.ops + NewRows(p.ops, plan.freshAt, seqs), p.ops, results, |p.ops|).Failure? {
      var i := RowcountMismatchMeansRace(book, db, p, v, db.ops, db.ops, seqs, plan, results, TablesOf(db));
      SerialPruneNeverMisses(p, v, db, i);
      assert false;
    }
  }
}
