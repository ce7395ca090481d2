/**
 Why positional authority needs its hypothesis. Three requests in which a Device founds a Workspace, sees Root revoke
 its Grant, and posts that Grant's envelope again with a content op behind it: the walk's index takes the Grant back
 in, the rows do not, and the content op is stored above its author's revocation boundary.
 Source: backend/app/sync/routes.py.
 */
module Reentry {
  import opened Wrappers
  import opened ByteStrings
  import opened Envelope
  import opened Payloads
  import opened OpLog
  import opened OpLogFacts
  import opened LogInvariant
  import opened Serial
  import opened AuthorityProofs
  import opened SerialRuns
  import opened ReentryRequests
  import Intake
  import GrantWalk

  // --- The states of the run ---

  const MEMBER := MemberRow("user", Zeros(32), None, None, false)
  const CHAINED := MEMBER.(chained := true, memberKind := Some(MEMBER_KIND_DEVICE))
  const ESCROWS: map<string, EscrowRow> := map["user" := EscrowRow(1, [], [], Zeros(32))]
  const START := Db([], None, map[], map[], map[], map[DEVICE := MEMBER], ESCROWS)

  function Founded(wires: Wires): Db {
    Db([OpRow(1, GenesisOp(wires), None), OpRow(2, GrantOp(wires), None)], Some(1),
       map[GRANT_ID := GrantRow(DEVICE, Owner, Root, 2, None)], map[], map[], map[DEVICE := CHAINED], ESCROWS)
  }

  function Closed(wires: Wires): Db {
    Founded(wires).(ops := Founded(wires).ops + [OpRow(3, RevokeOp(wires), None)],
                   grants := map[GRANT_ID := GrantRow(DEVICE, Owner, Root, 2, Some(3))])
  }

  function Broken(wires: Wires): Db {
    Closed(wires).(ops := Closed(wires).ops + [OpRow(4, ContentOp(wires), None)])
  }

  // --- Founding: genesis and the owner Grant in one batch ---

  function FirstPost(site: Site, wires: Wires): Post {
    Post(site, CALLER, [GenesisOp(wires), GrantOp(wires)])
  }

  const FIRST_PLAN := Plan(
    [Entry(Id(10), Staged(0), false), Entry(Id(11), Staged(1), false)],
    map[(DEVICE, Id(10)) := 0, (DEVICE, Id(11)) := 1], [0, 1], map[DEVICE := 2])

  lemma FoundingWalk(site: Site, wires: Wires)
    requires Accepts(site)
    ensures var v := ViewOf(START, FirstPost(site, wires));
            && WalkUpTo(FirstPost(site, wires), v, 2).Success?
            && WalkUpTo(FirstPost(site, wires), v, 2).value.control
               == [ControlAdmission(0, EffectOf(GenesisOp(wires)).value),
                 ControlAdmission(1, EffectOf(GrantOp(wires)).value)]
            && WalkUpTo(FirstPost(site, wires), v, 2).value.prunes == []
  {
    Distinct();
    var v := ViewOf(START, FirstPost(site, wires));
    assert WalkUpTo(FirstPost(site, wires), v, 0) == Success(StartWalk(v));
    assert WalkUpTo(FirstPost(site, wires), v, 1).Success?;
  }

  /** The plan over one more op, staged. */
  lemma PlanStages(existing: map<Key, nat>, heads: map<Uuid, nat>, ops: seq<Op>, n: nat, plan: Plan, plan': Plan)
    requires n < |ops| && PlanUpTo(existing, heads, ops, n) == Success(plan)
    requires ops[n].Key() !in existing && ops[n].Key() !in plan.staged
    requires ops[n].header.authorSeq == HeadOf(plan.heads, ops[n].Author()) + 1
    requires plan'.entries == plan.entries + [Entry(ops[n].header.opId, Staged(|plan.freshAt|), false)]
    requires plan'.staged == plan.staged[ops[n].Key() := |plan.freshAt|] && plan'.freshAt == plan.freshAt + [n]
    requires plan'.heads == plan.heads[ops[n].Author() := ops[n].header.authorSeq]
    ensures PlanUpTo(existing, heads, ops, n + 1) == Success(plan')
  {
    hide PlanUpTo;
    PlanNext(existing, heads, ops, n, plan);
  }

  /** And repeated. */
  lemma PlanRepeats(existing: map<Key, nat>, heads: map<Uuid, nat>, ops: seq<Op>, n: nat, plan: Plan, plan': Plan)
    requires n < |ops| && PlanUpTo(existing, heads, ops, n) == Success(plan)
    requires ops[n].Key() in existing
    requires plan' == plan.(entries := plan'.entries)
    requires plan'.entries == plan.entries + [Entry(ops[n].header.opId, Stored(existing[ops[n].Key()]), true)]
    ensures PlanUpTo(existing, heads, ops, n + 1) == Success(plan')
  {
    hide PlanUpTo;
    PlanNext(existing, heads, ops, n, plan);
  }

  /** A POST without prunes, walked, planned and materialised. */
  lemma Answers(db: Db, p: Post, seqs: seq<nat>, w: Walk, plan: Plan, results: seq<OpResult>, t: Tables)
    requires WalkUpTo(p, ViewOf(db, p), |p.ops|) == Success(w) && w.prunes == [] && IndexesWithin(w.control, |p.ops|)
    requires PlanUpTo(ExistingSeqs(db.ops, OpIds(p.ops)), Heads(db.ops, Authors(p.ops)), p.ops, |p.ops|)
             == Success(plan)
    requires PlanWithin(plan, p.ops) && |seqs| == |p.ops| && results == ResultsOf(plan.entries, seqs)
    requires !AnyCollision(db.ops, NewRows(p.ops, plan.freshAt, seqs))
    requires MaterialiseUpTo(TablesOf(db), w.control, results, |w.control|) == Success(t)
    ensures PostSerially(db, p, seqs)
            == Answered(results, WithTables(db, db.ops + NewRows(p.ops, plan.freshAt, seqs), t))
  {
    hide WalkUpTo, PlanUpTo, ViewOf, ExistingSeqs, Heads, MaterialiseUpTo, AnyCollision, PostSerially, PlanWithin;
    SerialStages(db, p, seqs);
  }

  lemma FoundingPlan(site: Site, wires: Wires)
    requires Accepts(site)
    ensures var ops := FirstPost(site, wires).ops;
            PlanUpTo(ExistingSeqs([], OpIds(ops)), Heads([], Authors(ops)), ops, 2) == Success(FIRST_PLAN)
  {
    hide GenesisOp, GrantOp, PlanUpTo;
    OpHeads(wires);
    Distinct();
    var ops := FirstPost(site, wires).ops;
    var first := Plan([Entry(Id(10), Staged(0), false)], map[(DEVICE, Id(10)) := 0], [0], map[DEVICE := 1]);
    PlanStarts(map[], map[], ops);
    PlanStages(map[], map[], ops, 0, Plan([], map[], [], map[]), first);
    PlanStages(map[], map[], ops, 1, first, FIRST_PLAN);
  }

  lemma FoundingTables(wires: Wires, control: seq<ControlAdmission>, results: seq<OpResult>)
    requires control == [ControlAdmission(0, EffectOf(GenesisOp(wires)).value),
             ControlAdmission(1, EffectOf(GrantOp(wires)).value)]
    requires results == [OpResult(Id(10), 1, false), OpResult(Id(11), 2, false)]
    ensures MaterialiseUpTo(TablesOf(START), control, results, 2) == Success(TablesOf(Founded(wires)))
  {
    assert MaterialiseUpTo(TablesOf(START), control, results, 0) == Success(TablesOf(START));
    var founded := MaterialiseUpTo(TablesOf(START), control, results, 1);
    assert founded.Success? && founded.value.members == map[DEVICE := CHAINED] && founded.value.epochs == map[];
    assert MaterialiseUpTo(TablesOf(START), control, results, 2).value.grants == Founded(wires).grants;
  }

  lemma Founding(site: Site, wires: Wires)
    requires Accepts(site)
    ensures PostSerially(START, FirstPost(site, wires), [1, 2]).Answered?
    ensures PostSerially(START, FirstPost(site, wires), [1, 2]).db == Founded(wires)
  {
    hide WalkUpTo, PlanUpTo, MaterialiseUpTo, PostSerially, EffectOf, ViewOf, ExistingSeqs, Heads, Accepts;
    FoundingWalk(site, wires);
    FoundingPlan(site, wires);
    var p := FirstPost(site, wires);
    var w := WalkUpTo(p, ViewOf(START, p), 2).value;
    var results := [OpResult(Id(10), 1, false), OpResult(Id(11), 2, false)];
    assert ResultsOf(FIRST_PLAN.entries, [1, 2]) == results;
    assert NewRows(p.ops, FIRST_PLAN.freshAt, [1, 2]) == Founded(wires).ops;
    assert START.ops + Founded(wires).ops == Founded(wires).ops;
    FoundingTables(wires, w.control, results);
    Answers(START, p, [1, 2], w, FIRST_PLAN, results, TablesOf(Founded(wires)));
  }

  lemma Push(rows: seq<OpRow>, row: OpRow, ids: set<Uuid>, authors: set<Uuid>)
    ensures var earlier := ExistingSeqs(rows, ids);
            ExistingSeqs(rows + [row], ids)
            == if row.op.header.opId in ids then earlier[row.op.Key() := row.seqNo] else earlier
    ensures var earlier := Heads(rows, authors);
            Heads(rows + [row], authors)
            == if row.op.Author() in authors && HeadOf(earlier, row.op.Author()) < row.op.header.authorSeq
               then earlier[row.op.Author() := row.op.header.authorSeq] else earlier
  {
  }

  lemma LookUps(wires: Wires, ids: set<Uuid>)
    requires Id(10) !in ids && Id(12) !in ids
    ensures Heads(Founded(wires).ops, {DEVICE}) == map[DEVICE := 2]
    ensures Heads(Closed(wires).ops, {DEVICE}) == map[DEVICE := 3]
    ensures ExistingSeqs(Founded(wires).ops, ids) == ExistingSeqs(Closed(wires).ops, ids)
         == if Id(11) in ids then map[(DEVICE, Id(11)) := 2] else map[]
  {
    hide GenesisOp, GrantOp, RevokeOp, ExistingSeqs, Heads;
    OpHeads(wires);
    var a, b, c := OpRow(1, GenesisOp(wires), None), OpRow(2, GrantOp(wires), None), OpRow(3, RevokeOp(wires), None);
    NoRows(ids, {DEVICE});
    Push([], a, ids, {DEVICE});
    Push([a], b, ids, {DEVICE});
    Push([a, b], c, ids, {DEVICE});
    assert [] + [a] == [a] && [a] + [b] == [a, b] == Founded(wires).ops && [a, b] + [c] == Closed(wires).ops;
  }

  lemma OneLookUp(wires: Wires)
    ensures Heads(Founded(wires).ops, {DEVICE}) == map[DEVICE := 2]
    ensures ExistingSeqs(Founded(wires).ops, {Id(12)}) == map[]
  {
    hide GenesisOp, GrantOp, ExistingSeqs, Heads;
    OpHeads(wires);
    Distinct();
    var a, b := OpRow(1, GenesisOp(wires), None), OpRow(2, GrantOp(wires), None);
    NoRows({Id(12)}, {DEVICE});
    Push([], a, {Id(12)}, {DEVICE});
    Push([a], b, {Id(12)}, {DEVICE});
    assert [] + [a] == [a] && [a] + [b] == Founded(wires).ops;
  }

  lemma NoRows(ids: set<Uuid>, authors: set<Uuid>)
    ensures ExistingSeqs([], ids) == map[] && Heads([], authors) == map[]
  {
  }

  // --- Closing: Root revokes the Grant ---

  function SecondPost(site: Site, wires: Wires): Post {
    Post(site, CALLER, [RevokeOp(wires)])
  }

  const SECOND_PLAN := Plan([Entry(Id(12), Staged(0), false)], map[(DEVICE, Id(12)) := 0], [0], map[DEVICE := 3])

  lemma ClosingWalk(site: Site, wires: Wires)
    requires Accepts(site)
    ensures var v := ViewOf(Founded(wires), SecondPost(site, wires));
            && WalkUpTo(SecondPost(site, wires), v, 1).Success?
            && WalkUpTo(SecondPost(site, wires), v, 1).value.control
              == [ControlAdmission(0, EffectOf(RevokeOp(wires)).value)]
            && WalkUpTo(SecondPost(site, wires), v, 1).value.prunes == []
  {
    Distinct();
    var v := ViewOf(Founded(wires), SecondPost(site, wires));
    assert WalkUpTo(SecondPost(site, wires), v, 0) == Success(StartWalk(v));
  }

  lemma ClosingPlan(site: Site, wires: Wires)
    requires Accepts(site)
    ensures var ops := SecondPost(site, wires).ops;
            PlanUpTo(ExistingSeqs(Founded(wires).ops, OpIds(ops)), Heads(Founded(wires).ops, Authors(ops)), ops, 1)
            == Success(SECOND_PLAN)
  {
    hide GenesisOp, GrantOp, RevokeOp, PlanUpTo, ExistingSeqs, Heads;
    OpHeads(wires);
    Distinct();
    var ops := SecondPost(site, wires).ops;
    assert OpIds(ops) == {Id(12)} && Authors(ops) == {DEVICE};
    OneLookUp(wires);
    PlanStarts(map[], map[DEVICE := 2], ops);
    PlanStages(map[], map[DEVICE := 2], ops, 0, Plan([], map[], [], map[DEVICE := 2]), SECOND_PLAN);
  }

  lemma ClosingTables(wires: Wires, control: seq<ControlAdmission>, results: seq<OpResult>)
    requires control == [ControlAdmission(0, EffectOf(RevokeOp(wires)).value)]
    requires results == [OpResult(Id(12), 3, false)]
    ensures MaterialiseUpTo(TablesOf(Founded(wires)), control, results, 1) == Success(TablesOf(Closed(wires)))
  {
    assert MaterialiseUpTo(TablesOf(Founded(wires)), control, results, 0) == Success(TablesOf(Founded(wires)));
    var closed := MaterialiseUpTo(TablesOf(Founded(wires)), control, results, 1);
    assert closed.Success? && closed.value.grants == Closed(wires).grants;
  }

  lemma Closing(site: Site, wires: Wires)
    requires Accepts(site)
    ensures PostSerially(Founded(wires), SecondPost(site, wires), [3]).Answered?
    ensures PostSerially(Founded(wires), SecondPost(site, wires), [3]).db == Closed(wires)
  {
    hide WalkUpTo, PlanUpTo, MaterialiseUpTo, PostSerially, EffectOf, ViewOf, ExistingSeqs, Heads, Accepts, GenesisOp,
      GrantOp, RevokeOp;
    OpHeads(wires);
    Distinct();
    ClosingWalk(site, wires);
    ClosingPlan(site, wires);
    var p := SecondPost(site, wires);
    var w := WalkUpTo(p, ViewOf(Founded(wires), p), 1).value;
    var results := [OpResult(Id(12), 3, false)];
    assert ResultsOf(SECOND_PLAN.entries, [3]) == results;
    assert NewRows(p.ops, SECOND_PLAN.freshAt, [3]) == [OpRow(3, RevokeOp(wires), None)];
    ClosingTables(wires, w.control, results);
    Answers(Founded(wires), p, [3], w, SECOND_PLAN, results, TablesOf(Closed(wires)));
  }

  // --- Breaking: the Grant again, and a content op behind it ---

  function ThirdPost(site: Site, wires: Wires): Post {
    Post(site, CALLER, [GrantOp(wires), ContentOp(wires)])
  }

  const THIRD_PLAN := Plan(
    [Entry(Id(11), Stored(2), true), Entry(Id(13), Staged(0), false)], map[(DEVICE, Id(13)) := 0], [1],
      map[DEVICE := 4])

  lemma OwnerMayWrite(states: GrantStates)
    requires states == map[GRANT_ID := GrantState(DEVICE, Owner, false)]
    ensures RequireRole(states, DEVICE, OP_CLASS_CONTENT).None?
  {
    assert states[GRANT_ID].role in RoleOpClassMatrix(OP_CLASS_CONTENT);
    RequireRoleExactly(states, DEVICE, OP_CLASS_CONTENT);
  }

  lemma GrantIsVerified(site: Site, wires: Wires)
    requires Accepts(site)
    ensures var v := ViewOf(Closed(wires), ThirdPost(site, wires));
            VerifyGrant(ThirdPost(site, wires), v, StartWalk(v), GrantOp(wires)) == Success(GrantOp(wires).GrantOf())
  {
    Distinct();
    var v := ViewOf(Closed(wires), ThirdPost(site, wires));
    assert Closed(wires).ops[1] in Closed(wires).ops && GrantOp(wires) in ThirdPost(site, wires).ops;
    assert Id(11) in v.replayed;
  }

  /** The Grant comes back live in the index. */
  lemma BreakingFirst(site: Site, wires: Wires)
    requires Accepts(site)
    ensures var w := WalkUpTo(ThirdPost(site, wires), ViewOf(Closed(wires), ThirdPost(site, wires)), 1);
            && w.Success? && w.value.founded && w.value.epoch == None
            && w.value.grants == map[GRANT_ID := GrantState(DEVICE, Owner, false)]
            && w.value.control == [ControlAdmission(0, EffectOf(GrantOp(wires)).value)] && w.value.prunes == []
  {
    hide RequireRole, VerifyGrant, ReplayedOpIds;
    Distinct();
    GrantIsVerified(site, wires);
    var v := ViewOf(Closed(wires), ThirdPost(site, wires));
    assert WalkUpTo(ThirdPost(site, wires), v, 0) == Success(StartWalk(v));
  }

  lemma BreakingWalk(site: Site, wires: Wires)
    requires Accepts(site)
    ensures var v := ViewOf(Closed(wires), ThirdPost(site, wires));
            && WalkUpTo(ThirdPost(site, wires), v, 2).Success?
            && WalkUpTo(ThirdPost(site, wires), v, 2).value.control
              == [ControlAdmission(0, EffectOf(GrantOp(wires)).value)]
            && WalkUpTo(ThirdPost(site, wires), v, 2).value.prunes == []
  {
    hide RequireRole, ControlStep, EffectOf, LiveRoles;
    BreakingFirst(site, wires);
    OwnerMayWrite(WalkUpTo(ThirdPost(site, wires), ViewOf(Closed(wires), ThirdPost(site, wires)), 1).value.grants);
  }

  lemma BreakingPlan(site: Site, wires: Wires)
    requires Accepts(site)
    ensures var ops := ThirdPost(site, wires).ops;
            PlanUpTo(ExistingSeqs(Closed(wires).ops, OpIds(ops)), Heads(Closed(wires).ops, Authors(ops)), ops, 2)
            == Success(THIRD_PLAN)
  {
    hide GrantOp, ContentOp, PlanUpTo, ExistingSeqs, Heads, Closed, Accepts, Id, Zeros, Founded;
    OpHeads(wires);
    Distinct();
    var ops := ThirdPost(site, wires).ops;
    assert ops[0].header.opId == Id(11) && ops[1].header.opId == Id(13);
    assert OpIds(ops) == {Id(11), Id(13)} && Authors(ops) == {DEVICE};
    LookUps(wires, {Id(11), Id(13)});
    var existing, heads: map<Uuid, nat> := map[(DEVICE, Id(11)) := 2], map[DEVICE := 3];
    PlanStarts(existing, heads, ops);
    var first := Plan([Entry(Id(11), Stored(2), true)], map[], [], heads);
    PlanRepeats(existing, heads, ops, 0, Plan([], map[], [], heads), first);
    PlanStages(existing, heads, ops, 1, first, THIRD_PLAN);
  }

  lemma BreakingTables(wires: Wires, control: seq<ControlAdmission>, results: seq<OpResult>)
    requires control == [ControlAdmission(0, EffectOf(GrantOp(wires)).value)]
    requires results == [OpResult(Id(11), 2, true), OpResult(Id(13), 4, false)]
    ensures MaterialiseUpTo(TablesOf(Closed(wires)), control, results, 1) == Success(TablesOf(Closed(wires)))
  {
    assert MaterialiseUpTo(TablesOf(Closed(wires)), control, results, 0) == Success(TablesOf(Closed(wires)));
  }

  lemma Breaking(site: Site, wires: Wires)
    requires Accepts(site)
    ensures PostSerially(Closed(wires), ThirdPost(site, wires), [4, 5]).Answered?
    ensures PostSerially(Closed(wires), ThirdPost(site, wires), [4, 5]).db == Broken(wires)
  {
    hide WalkUpTo, PlanUpTo, MaterialiseUpTo, PostSerially, EffectOf, ViewOf, ExistingSeqs, Heads, Accepts, GenesisOp,
      GrantOp, RevokeOp, ContentOp;
    OpHeads(wires);
    Distinct();
    BreakingWalk(site, wires);
    BreakingPlan(site, wires);
    var p := ThirdPost(site, wires);
    var w := WalkUpTo(p, ViewOf(Closed(wires), p), 2).value;
    var results := [OpResult(Id(11), 2, true), OpResult(Id(13), 4, false)];
    assert ResultsOf(THIRD_PLAN.entries, [4, 5]) == results;
    assert NewRows(p.ops, THIRD_PLAN.freshAt, [4, 5]) == [OpRow(4, ContentOp(wires), None)];
    BreakingTables(wires, w.control, results);
    Answers(Closed(wires), p, [4, 5], w, THIRD_PLAN, results, TablesOf(Closed(wires)));
  }

  // --- The run ---

  function Book(wires: Wires): Book {
    (author: Uuid, opId: Uuid) =>
      if opId == Id(10) then GenesisOp(wires)
      else if opId == Id(11) then GrantOp(wires)
      else if opId == Id(12) then RevokeOp(wires)
      else ContentOp(wires)
  }

  /** `s` is a legal, answered POST that takes `db` to `db'`. */
  ghost predicate Goes(wires: Wires, db: Db, s: Step, db': Db) {
    NamedStep(Book(wires), db, s) && IsAnswered(db, s) && After(db, s) == db'
  }

  function FirstStep(site: Site, wires: Wires): Step {
    Posting(FirstPost(site, wires), [1, 2])
  }

  function SecondStep(site: Site, wires: Wires): Step {
    Posting(SecondPost(site, wires), [3])
  }

  function ThirdStep(site: Site, wires: Wires): Step {
    Posting(ThirdPost(site, wires), [4, 5])
  }

  lemma FoundingGoes(site: Site, wires: Wires)
    requires Accepts(site)
    ensures Goes(wires, START, FirstStep(site, wires), Founded(wires))
  {
    hide PostSerially;
    Distinct();
    Founding(site, wires);
  }

  lemma ClosingGoes(site: Site, wires: Wires)
    requires Accepts(site)
    ensures Goes(wires, Founded(wires), SecondStep(site, wires), Closed(wires))
  {
    hide PostSerially;
    Distinct();
    Closing(site, wires);
  }

  lemma BreakingGoes(site: Site, wires: Wires)
    requires Accepts(site)
    ensures Goes(wires, Closed(wires), ThirdStep(site, wires), Broken(wires))
  {
    hide PostSerially;
    Distinct();
    Breaking(site, wires);
  }

  lemma ThirdReenters(site: Site, wires: Wires)
    ensures |ThirdPost(site, wires).ops| == 2 && GrantWalk.Reenters(Closed(wires), ThirdPost(site, wires), 0)
  {
    Distinct();
    assert Closed(wires).ops[1] in Closed(wires).ops && GrantOp(wires) in ThirdPost(site, wires).ops;
  }

  lemma BrokenIsUnauthorised(site: Site, wires: Wires)
    ensures !LogAuthorised(Broken(wires).grants, Broken(wires).ops)
  {
    assert Broken(wires).ops[3] == OpRow(4, ContentOp(wires), None);
  }

  ghost predicate AllAnswered(hist: seq<Db>, steps: seq<Step>)
    requires SerialRun(hist, steps)
  {
    forall k | 0 <= k < |steps| :: IsAnswered(hist[k], steps[k])
  }

  /** The step posts what the parsing loop made of a request body. */
  ghost predicate Received(site: Site, body: seq<string>, s: Step) {
    && s.Posting? && s.post.site == site && s.post.caller == CALLER
    && Intake.TakeUpTo(site, CALLER, Reader(site.sha256), body, |body|) == Success(s.post.ops)
  }

  ghost predicate AllReceived(site: Site, bodies: seq<seq<string>>, steps: seq<Step>) {
    |bodies| == |steps| && forall k | 0 <= k < |steps| :: Received(site, bodies[k], steps[k])
  }

  lemma RunReceived(site: Site)
    requires Suits(site)
    ensures var wires := WiresOf(site);
            && Received(site, FirstBody(wires), FirstStep(site, wires))
            && Received(site, SecondBody(wires), SecondStep(site, wires))
            && Received(site, ThirdBody(wires), ThirdStep(site, wires))
  {
    hide Suits, Intake.TakeUpTo, Reader, GenesisOp, GrantOp, RevokeOp, ContentOp, WiresOf;
    var wires := WiresOf(site);
    BodiesAreTaken(site);
  }

  /**
   On every site that suits, three request bodies are received, answered and stored, no author uses an op id twice,
   and the log they leave is not positionally authorised: the last body posts a revoked Grant again.
   */
  lemma ReentryBreaksAuthority(site: Site)
    returns (wires: Wires, bodies: seq<seq<string>>, hist: seq<Db>, steps: seq<Step>)
    requires Suits(site)
    ensures SerialRun(hist, steps) && OpIdsAreNames(Book(wires), steps) && AllAnswered(hist, steps) && |steps| == 3
    ensures AllReceived(site, bodies, steps)
    ensures GrantWalk.Reenters(hist[2], ThirdPost(site, wires), 0) && steps[2] == ThirdStep(site, wires)
    ensures !LogAuthorised(hist[3].grants, hist[3].ops)
  {
    hide Suits, Accepts, PostSerially, LogAuthorised, GrantWalk.Reenters, LegalStep, IsAnswered, After, FirstStep,
      SecondStep, ThirdStep, Founded, Closed, Broken, Book, FirstPost, SecondPost, ThirdPost, FirstBody, SecondBody,
      ThirdBody, Received, Honest, WiresOf;
    wires := WiresOf(site);
    SuitsParts(site);
    FoundingGoes(site, wires);
    ClosingGoes(site, wires);
    BreakingGoes(site, wires);
    ThirdReenters(site, wires);
    BrokenIsUnauthorised(site, wires);
    RunReceived(site);
    bodies := [FirstBody(wires), SecondBody(wires), ThirdBody(wires)];
    hist := [START, Founded(wires), Closed(wires), Broken(wires)];
    steps := [FirstStep(site, wires), SecondStep(site, wires), ThirdStep(site, wires)];
    StepsArePosts(site, wires);
  }

  lemma StepsArePosts(site: Site, wires: Wires)
    ensures FirstStep(site, wires).Posting? && SecondStep(site, wires).Posting? && ThirdStep(site, wires).Posting?
    ensures ThirdStep(site, wires).post == ThirdPost(site, wires)
    ensures START.ops == [] && START.grants == map[] && START.epochs == map[]
  {
  }
}
