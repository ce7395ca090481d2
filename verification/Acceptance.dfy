/**
 When a POST that no other request overlaps is answered: each op stands on what the log and the batch say before it,
 and each op that is new takes the next position of its author. Source: backend/app/sync/routes.py.
 */
module Acceptance {
  import opened Wrappers
  import opened ByteStrings
  import opened Payloads
  import opened OpLog
  import opened OpLogFacts
  import opened LogInvariant
  import opened Serial
  import opened GrantWalk
  import opened AuthorityProofs
  import opened SerialPosts
  import opened SerialRuns
  import opened Admission

  // --- New ops and known ones ---

  /** A stored row, or an op before it in the batch, carries the author and op id of op i. */
  ghost predicate IsKnown(db: Db, p: Post, i: nat)
    requires i < |p.ops|
  {
    || (exists q | 0 <= q < |db.ops| :: db.ops[q].op.Key() == p.ops[i].Key())
    || exists j | 0 <= j < i :: p.ops[j].Key() == p.ops[i].Key()
  }

  /** How many of the first n ops are new. */
  ghost function NewBefore(db: Db, p: Post, n: nat): nat
    requires n <= |p.ops|
  {
    if n == 0 then 0 else NewBefore(db, p, n - 1) + if IsKnown(db, p, n - 1) then 0 else 1
  }

  /** A new op goes right behind the stored ops of its author and the new ones before it in the batch. */
  ghost predicate IsNext(db: Db, p: Post, i: nat)
    requires i < |p.ops|
  {
    IsKnown(db, p, i)
    || p.ops[i].header.authorSeq == Positions(OpsOf(db.ops), p.caller.memberId) + NewBefore(db, p, i) + 1
  }

  /** The refusal of a new op that is not its author's next: its index, and the position expected. */
  ghost function GapAt(db: Db, p: Post, i: nat): Refusal
    requires i < |p.ops|
  {
    Refusal(AuthorChainConflict(Some(Positions(OpsOf(db.ops), p.caller.memberId) + NewBefore(db, p, i) + 1)), Some(i))
  }

  /** The replay lookup finds exactly the batch's op ids that a stored row of the caller carries. */
  lemma ReplayedExactly(db: Db, p: Post, i: nat)
    requires i < |p.ops| && p.ops[i].Author() == p.caller.memberId
    ensures p.ops[i].header.opId in ViewOf(db, p).replayed
       <==> exists q | 0 <= q < |db.ops| :: db.ops[q].op.Key() == p.ops[i].Key()
  {
    var op := p.ops[i];
    assert op in p.ops;
    if q :| 0 <= q < |db.ops| && db.ops[q].op.Key() == op.Key() {
      assert db.ops[q] in db.ops;
    }
  }

  // --- The plan ---

  /** What the plan knows after n ops. */
  ghost predicate Planned(db: Db, p: Post, n: nat, plan: Plan)
    requires n <= |p.ops|
  {
    && HeadOf(plan.heads, p.caller.memberId) == Positions(OpsOf(db.ops), p.caller.memberId) + NewBefore(db, p, n)
    && forall key :: key in plan.staged <==>
         && key !in ExistingSeqs(db.ops, OpIds(p.ops))
         && exists j | 0 <= j < n :: p.ops[j].Key() == key
  }

  lemma {:induction false} PlanExactly(db: Db, p: Post, n: nat)
    requires Chained(OpsOf(db.ops)) && n <= |p.ops|
    requires forall op | op in p.ops :: op.Author() == p.caller.memberId
    ensures var planned := PlanUpTo(ExistingSeqs(db.ops, OpIds(p.ops)), Heads(db.ops, Authors(p.ops)), p.ops, n);
            && (planned.Success? <==> forall i | 0 <= i < n :: IsNext(db, p, i))
            && (planned.Success? && n > 0 ==> Planned(db, p, n, planned.value))
  {
    hide ExistingSeqs, Heads, Positions, PlanUpTo, PlanStep, IsKnown, NewBefore, Planned;
    var keys, heads := ExistingSeqs(db.ops, OpIds(p.ops)), Heads(db.ops, Authors(p.ops));
    PlanStarts(keys, heads, p.ops);
    if n > 0 {
      PlanExactly(db, p, n - 1);
      var before := PlanUpTo(keys, heads, p.ops, n - 1);
      if before.Success? {
        if n == 1 {
          NothingPlanned(db, p, before.value);
        }
        PlanNext(keys, heads, p.ops, n - 1, before.value);
        KnownExactly(db, p, n - 1, before.value);
        OneMorePlanned(db, p, n - 1, before.value);
      } else {
        PlanFails(keys, heads, p.ops, n - 1, n);
      }
    }
  }

  /** A plan that fails names the first op that is not its author's next, and the position expected of it. */
  lemma {:induction false} PlanNamesTheGap(db: Db, p: Post, n: nat)
    requires Chained(OpsOf(db.ops)) && n <= |p.ops|
    requires forall op | op in p.ops :: op.Author() == p.caller.memberId
    requires PlanUpTo(ExistingSeqs(db.ops, OpIds(p.ops)), Heads(db.ops, Authors(p.ops)), p.ops, n).Failure?
    ensures var planned := PlanUpTo(ExistingSeqs(db.ops, OpIds(p.ops)), Heads(db.ops, Authors(p.ops)), p.ops, n);
            exists i | 0 <= i < n ::
              planned.error == GapAt(db, p, i) && !IsNext(db, p, i) && forall j | 0 <= j < i :: IsNext(db, p, j)
  {
    hide ExistingSeqs, Heads, Positions, PlanUpTo, PlanStep, IsKnown, NewBefore, Planned, IsNext, GapAt;
    var keys, heads := ExistingSeqs(db.ops, OpIds(p.ops)), Heads(db.ops, Authors(p.ops));
    PlanStarts(keys, heads, p.ops);
    var before := PlanUpTo(keys, heads, p.ops, n - 1);
    if before.Failure? {
      PlanNamesTheGap(db, p, n - 1);
      PlanFails(keys, heads, p.ops, n - 1, n);
    } else {
      PlanExactly(db, p, n - 1);
      PlanExactly(db, p, n);
      if n == 1 {
        NothingPlanned(db, p, before.value);
      }
      PlanNext(keys, heads, p.ops, n - 1, before.value);
      KnownExactly(db, p, n - 1, before.value);
      OneMorePlanned(db, p, n - 1, before.value);
    }
  }

  lemma NothingPlanned(db: Db, p: Post, plan: Plan)
    requires p.ops != [] && Chained(OpsOf(db.ops)) && plan == Plan([], map[], [], Heads(db.ops, Authors(p.ops)))
    requires forall op | op in p.ops :: op.Author() == p.caller.memberId
    ensures Planned(db, p, 0, plan)
  {
    hide Heads, Positions, HeadOf;
    assert p.ops[0] in p.ops;
    HeadIsCount(db.ops, Authors(p.ops), p.caller.memberId);
  }

  lemma KnownExactly(db: Db, p: Post, i: nat, plan: Plan)
    requires i < |p.ops| && Planned(db, p, i, plan)
    ensures IsKnown(db, p, i) <==> p.ops[i].Key() in ExistingSeqs(db.ops, OpIds(p.ops)) || p.ops[i].Key() in plan.staged
  {
    hide ExistingSeqs, Positions;
    assert p.ops[i] in p.ops;
    ExistingExactly(db.ops, OpIds(p.ops), p.ops[i].Key());
  }

  lemma OneMorePlanned(db: Db, p: Post, i: nat, plan: Plan)
    requires i < |p.ops| && Planned(db, p, i, plan) && p.ops[i].Author() == p.caller.memberId
    requires IsKnown(db, p, i)
        <==> p.ops[i].Key() in ExistingSeqs(db.ops, OpIds(p.ops)) || p.ops[i].Key() in plan.staged
    ensures var step := PlanStep(ExistingSeqs(db.ops, OpIds(p.ops)), plan, p.ops[i], i);
            && (step.Success? <==> IsNext(db, p, i)) && (step.Success? ==> Planned(db, p, i + 1, step.value))
            && (step.Failure? ==> Refusal(step.error, Some(i)) == GapAt(db, p, i))
  {
    hide ExistingSeqs, Positions, IsKnown;
    var keys := ExistingSeqs(db.ops, OpIds(p.ops));
    var step := PlanStep(keys, plan, p.ops[i], i);
    if step.Success? {
      forall key
        ensures key in step.value.staged <==> key !in keys && exists j | 0 <= j < i + 1 :: p.ops[j].Key() == key
      {
        if j :| 0 <= j < i + 1 && p.ops[j].Key() == key {
          assert j < i || key == p.ops[i].Key();
        }
      }
    }
  }

  // --- The POST ---

  lemma ViewIncreases(db: Db, p: Post)
    requires Increasing(db.ops)
    ensures LogsIncrease(ViewOf(db, p))
  {
  }

  /** In every reachable state a POST is answered if and only if each op stands and each new op is its author's next. */
  lemma AnsweredExactly(book: Book, hist: seq<Db>, steps: seq<Step>, k: nat, p: Post, seqs: seq<nat>)
    requires SerialRun(hist, steps) && OpIdsAreNames(book, steps) && k < |hist|
    requires PostedBy(book, p) && |seqs| == |p.ops| && FreshSeqs(hist[k].ops, seqs)
    ensures PostSerially(hist[k], p, seqs).Answered?
       <==> forall i | 0 <= i < |p.ops| :: StandsAt(p, ViewOf(hist[k], p), i) && IsNext(hist[k], p, i)
  {
    hide PostSerially, PostedBy, Honest, FreshSeqs, WalkUpTo, PlanUpTo, ExistingSeqs, Heads, StandsAt, IsNext,
      SerialRun, OpIdsAreNames, Increasing, Chained, SerialInv, ViewOf;
    var db := hist[k];
    SerialRunIsSound(book, hist, steps, k);
    LogIsOrdered(book, db);
    CallersOps(book, p);
    NothingRefusesLate(book, hist, steps, k, p, seqs);
    ViewIncreases(db, p);
    WalkExactly(p, ViewOf(db, p), |p.ops|);
    PlanExactly(db, p, |p.ops|);
  }

  lemma LogIsOrdered(book: Book, db: Db)
    requires SerialInv(book, db)
    ensures Increasing(db.ops) && Chained(OpsOf(db.ops))
  {
    hide Increasing, Chained, GrantInv, StampsSound;
  }

  lemma CallersOps(book: Book, p: Post)
    requires PostedBy(book, p)
    ensures forall op | op in p.ops :: op.Author() == p.caller.memberId
  {
  }
}
