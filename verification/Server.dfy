/**
 The op-log routes as they run: tables in fields, loops over the batch, rows inserted and updated one statement at a
 time, and a rollback on refusal. Each method is proved to do what the functions of `OpLog`, `KeyPlane`, `Paging`
 and `EscrowSlot` say. Source: backend/app/sync/routes.py.
 */
module Server {
  import opened Wrappers
  import opened ByteStrings
  import opened Envelope
  import opened Payloads
  import opened OpLog
  import opened OpLogFacts
  import opened KeyWraps
  import opened KeyPlane
  import Paging
  import EscrowSlot
  import Intake

  // --- The in-memory grant index ---

  class GrantIndex {
    var states: GrantStates

    constructor (rows: map<Uuid, GrantRow>)
      ensures states == IndexOf(rows)
    {
      states := IndexOf(rows);
    }

    method Add(grantId: Uuid, memberId: Uuid, role: Role)
      modifies this
      ensures states == old(states)[grantId := GrantState(memberId, role, false)]
    {
      states := states[grantId := GrantState(memberId, role, false)];
    }

    method Revoke(grantId: Uuid)
      modifies this
      ensures states
           == if grantId in old(states) then old(states)[grantId := old(states)[grantId].(revoked := true)]
              else old(states)
    {
      if grantId in states {
        states := states[grantId := states[grantId].(revoked := true)];
      }
    }
  }

  // --- The ordered walk ---

  /** What the walk hands to materialisation. */
  datatype Admissions = Admissions(control: seq<ControlAdmission>, prunes: seq<PruneAdmission>)

  /** The local variables of one walk. */
  class BatchWalk {
    const grants: GrantIndex
    var workspaceExists: bool
    var currentEpoch: Option<nat>
    var stagedKinds: map<Uuid, string>
    var stagedCompactionOpIds: set<Uuid>
    var claimedSeqs: set<nat>
    var control: seq<ControlAdmission>
    var prunes: seq<PruneAdmission>

    function State(): Walk
      reads this, grants
    {
      Walk(grants.states, workspaceExists, currentEpoch, stagedKinds, stagedCompactionOpIds, claimedSeqs, control,
        prunes)
    }

    constructor (v: View)
      ensures State() == StartWalk(v) && fresh(grants)
    {
      grants := new GrantIndex(v.grants);
      workspaceExists := v.founded;
      currentEpoch := v.epoch;
      stagedKinds := map[];
      stagedCompactionOpIds := {};
      claimedSeqs := {};
      control := [];
      prunes := [];
    }

    /** Anything but a control op. */
    method AuthorizeContent(p: Post, v: View, i: nat) returns (refused: Option<Code>)
      requires i < |p.ops| == |v.logs|
      modifies this
      ensures match ContentStep(p, v, old(State()), i)
              case Success(w) => refused.None? && State() == w
              case Failure(code) => refused == Some(code)
    {
      hide VerifyPrune, RequireRole, RequireFreshKeyEpoch;
      var op := p.ops[i];
      if !workspaceExists { return Some(WorkspaceNotCreated); }
      refused := RequireRole(grants.states, p.caller.memberId, op.header.opClass);
      if refused.Some? { return; }
      refused := RequireFreshKeyEpoch(op.header.keyEpoch, currentEpoch);
      if refused.Some? { return; }
      if op.header.opClass == OP_CLASS_COMPACTION {
        stagedCompactionOpIds := stagedCompactionOpIds + {op.header.opId};
      } else if op.header.opClass == OP_CLASS_PRUNE {
        var isReplay := op.header.opId in v.replayed;
        var verified := VerifyPruneOp(op, v.logs[i], stagedCompactionOpIds, claimedSeqs, isReplay);
        if verified.Failure? { return Some(verified.error); }
        claimedSeqs := claimedSeqs + TargetSeqs(verified.value);
        prunes := prunes + [PruneAdmission(i, verified.value, isReplay)];
      }
    }

    method AuthorizeControl(p: Post, v: View, i: nat) returns (refused: Option<Code>)
      requires i < |p.ops| == |v.logs| && p.ops[i].IsControl()
      modifies this, grants
      ensures match ControlStep(p, v, old(State()), i)
              case Success(w) => refused.None? && State() == w
              case Failure(code) => refused == Some(code)
    {
      hide VerifyGenesis, VerifyMemberRegister, VerifyGrant, VerifyRevoke, VerifyRotate, RequireRole;
      var op := p.ops[i];
      if !op.body.ControlBody? { return Some(MalformedControlPayload); }
      if op.body.control.Failure? { return Some(op.body.control.error); }
      var payload := op.body.control.value;
      if payload.controlType.Unserved? { return Some(UnsupportedControlType); }
      if !payload.ChainLinkShapeOk() { return Some(ControlChainBreak); }
      if payload.controlType == WorkspaceGenesis {
        var genesis := VerifyGenesis(p, v, workspaceExists, op, i);
        if genesis.Failure? { return Some(genesis.error); }
        var founder := genesis.value.AsRegistration();
        workspaceExists := true;
        stagedKinds := stagedKinds[founder.keys.memberId := founder.keys.memberKind];
        control := control + [ControlAdmission(i, Founded(founder))];
        return None;
      }
      if !workspaceExists { return Some(WorkspaceNotCreated); }
      if !payload.IsRootSigned() {
        refused := RequireRole(grants.states, p.caller.memberId, OP_CLASS_CONTROL);
        if refused.Some? { return; }
      }
      refused := AuthorizeMemberControl(p, v, i);
    }

    method AuthorizeMemberControl(p: Post, v: View, i: nat) returns (refused: Option<Code>)
      requires i < |p.ops| == |v.logs| && p.ops[i].IsDecodedControl()
      modifies this, grants
      ensures match MemberControlStep(p, v, old(State()), i)
              case Success(w) => refused.None? && State() == w
              case Failure(code) => refused == Some(code)
    {
      hide VerifyMemberRegister, VerifyRotate, AuthorityPublicKey, GranteeKind;
      refused := None;
      var op := p.ops[i];
      match op.body.control.value.controlType
      case MemberRegister =>
        var registration := VerifyMemberRegister(p, v, op);
        if registration.Failure? { return Some(registration.error); }
        var keys := registration.value.keys;
        stagedKinds := stagedKinds[keys.memberId := keys.memberKind];
        control := control + [ControlAdmission(i, Registered(registration.value))];
      case Grant =>
        var grant := VerifyGrant(p, v, State(), op);
        if grant.Failure? { return Some(grant.error); }
        grants.Add(grant.value.grantId, grant.value.memberId, grant.value.role);
        control := control + [ControlAdmission(i, Granted(grant.value))];
      case Revoke =>
        var revoke := VerifyRevoke(p, v, State(), op);
        if revoke.Failure? { return Some(revoke.error); }
        grants.Revoke(revoke.value.grantId);
        control := control + [ControlAdmission(i, Revoked(revoke.value))];
      case Rotate =>
        var rotate := VerifyRotate(p, currentEpoch, op);
        if rotate.Failure? { return Some(rotate.error); }
        currentEpoch := Some(rotate.value.toEpoch);
        control := control + [ControlAdmission(i, Rotated(rotate.value))];
      case _ =>
        return Some(UnsupportedControlType);
    }
  }

  /** The prune rules, target by target. */
  method VerifyPruneOp(op: Op, rows: seq<OpRow>, staged: set<Uuid>, claimed: set<nat>, isReplay: bool)
    returns (r: Result<seq<PruneTarget>, Code>)
    ensures r == VerifyPrune(op, rows, staged, claimed, isReplay)
  {
    hide CheckTarget, StoredCompaction;
    if !op.body.PruneBody? { return Failure(MalformedPrunePayload); }
    if op.body.prune.Failure? { return Failure(op.body.prune.error); }
    var payload := op.body.prune.value;
    if payload.compactionOpId !in staged && !StoredCompaction(rows, op.Author(), payload.compactionOpId) {
      return Failure(PruneCompactionNotFound);
    }
    for n := 0 to |payload.targets|
      invariant CheckTargets(rows, payload.compactionOpId, claimed, isReplay, payload.targets, n).None?
    {
      var refused := CheckTarget(rows, payload.compactionOpId, claimed, isReplay, payload.targets[n]);
      if refused.Some? {
        TargetsRefused(rows, payload.compactionOpId, claimed, isReplay, payload.targets, n + 1, |payload.targets|);
        return Failure(refused.value);
      }
    }
    return Success(payload.targets);
  }

  lemma {:induction false} TargetsRefused(
    rows: seq<OpRow>, compactionOpId: Uuid, claimed: set<nat>, isReplay: bool, targets: seq<PruneTarget>, n: nat,
    m: nat)
    requires n <= m <= |targets| && CheckTargets(rows, compactionOpId, claimed, isReplay, targets, n).Some?
    ensures CheckTargets(rows, compactionOpId, claimed, isReplay, targets, m)
         == CheckTargets(rows, compactionOpId, claimed, isReplay, targets, n)
    decreases m
  {
    hide CheckTarget;
    if n < m {
      TargetsRefused(rows, compactionOpId, claimed, isReplay, targets, n, m - 1);
    }
  }

  /** The walk's loop: its locals follow the specified walk, one op at a time. */
  method VerifyAndAuthorize(p: Post, v: View) returns (r: Result<Admissions, Refusal>)
    requires |v.logs| == |p.ops|
    ensures match WalkUpTo(p, v, |p.ops|)
            case Success(w) => r == Success(Admissions(w.control, w.prunes))
            case Failure(refusal) => r == Failure(refusal)
  {
    hide ContentStep, ControlStep;
    var walk := new BatchWalk(v);
    for i := 0 to |p.ops|
      invariant fresh(walk) && fresh(walk.grants)
      invariant WalkUpTo(p, v, i) == Success(walk.State())
    {
      var refused;
      if p.ops[i].IsControl() {
        refused := walk.AuthorizeControl(p, v, i);
      } else {
        refused := walk.AuthorizeContent(p, v, i);
      }
      if refused.Some? {
        WalkFails(p, v, i + 1, |p.ops|);
        return Failure(Refusal(refused.value, Some(i)));
      }
    }
    return Success(Admissions(walk.control, walk.prunes));
  }

  // --- The append ---

  /** The planning loop: where each op's answer comes from, and which ops get a row. */
  method PlanBatch(ops: seq<Op>, existing: map<Key, nat>, heads: map<Uuid, nat>) returns (r: Result<Plan, Refusal>)
    ensures r == PlanUpTo(existing, heads, ops, |ops|)
  {
    var staged: map<Key, nat>, lastAuthorSeq: map<Uuid, nat> := map[], heads;
    var entries: seq<Entry>, freshAt: seq<nat> := [], [];
    hide PlanUpTo;
    PlanStarts(existing, heads, ops);
    for i := 0 to |ops|
      invariant PlanUpTo(existing, heads, ops, i) == Success(Plan(entries, staged, freshAt, lastAuthorSeq))
    {
      var op := ops[i];
      var key := op.Key();
      PlanNext(existing, heads, ops, i, Plan(entries, staged, freshAt, lastAuthorSeq));
      if key in existing {
        entries := entries + [Entry(op.header.opId, Stored(existing[key]), true)];
      } else if key in staged {
        entries := entries + [Entry(op.header.opId, Staged(staged[key]), true)];
      } else {
        var expected := HeadOf(lastAuthorSeq, op.Author()) + 1;
        if op.header.authorSeq != expected {
          PlanFails(existing, heads, ops, i + 1, |ops|);
          return Failure(Refusal(AuthorChainConflict(Some(expected)), Some(i)));
        }
        entries := entries + [Entry(op.header.opId, Staged(|freshAt|), false)];
        staged := staged[key := |freshAt|];
        freshAt := freshAt + [i];
        lastAuthorSeq := lastAuthorSeq[op.Author() := op.header.authorSeq];
      }
    }
    return Success(Plan(entries, staged, freshAt, lastAuthorSeq));
  }

  // --- The tables ---

  /** A Grant of the Member was closed between two states of the table, and every Grant it has is closed after. */
  ghost predicate LosesTransport(before: map<Uuid, GrantRow>, after: map<Uuid, GrantRow>, m: Uuid) {
    && (exists g | g in after :: after[g].memberId == m && after[g].revokedBySeq.Some?
                                 && (g !in before || before[g].revokedBySeq.None?))
    && forall g | g in after && after[g].memberId == m :: after[g].revokedBySeq.Some?
  }

  /** The Member was granted something, and every Grant it has is closed. */
  ghost predicate IsShutOut(grants: map<Uuid, GrantRow>, m: Uuid) {
    && (exists g | g in grants :: grants[g].memberId == m)
    && forall g | g in grants && grants[g].memberId == m :: grants[g].revokedBySeq.Some?
  }

  lemma LiveRow(grants: map<Uuid, GrantRow>, g: Uuid)
    requires g in grants && grants[g].revokedBySeq.None?
    ensures grants[g].role in LiveRoles(IndexOf(grants), grants[g].memberId)
  {
    assert IndexOf(grants)[g] == GrantState(grants[g].memberId, grants[g].role, false);
  }

  lemma ShutOutExactly(grants: map<Uuid, GrantRow>, m: Uuid)
    ensures IsRevokedMember(IndexOf(grants), m) <==> IsShutOut(grants, m)
  {
    var states := IndexOf(grants);
    if IsRevokedMember(states, m) {
      forall g | g in grants && grants[g].memberId == m
        ensures grants[g].revokedBySeq.Some?
      {
        if grants[g].revokedBySeq.None? {
          LiveRow(grants, g);
          assert false;
        }
      }
      var g :| g in states && states[g].memberId == m;
      assert grants[g].memberId == m;
    }
    if IsShutOut(grants, m) {
      var g :| g in grants && grants[g].memberId == m;
      assert states[g].memberId == m;
    }
  }

  ghost predicate AreLost(lost: set<Uuid>, before: map<Uuid, GrantRow>, after: map<Uuid, GrantRow>) {
    forall m :: m in lost <==> LosesTransport(before, after, m)
  }

  function StampedMembers(before: map<Uuid, GrantRow>, after: map<Uuid, GrantRow>): set<Uuid> {
    set g | g in after && after[g].revokedBySeq.Some? && !(g in before && before[g].revokedBySeq.Some?)
      :: after[g].memberId
  }

  function LiveMembers(grants: map<Uuid, GrantRow>): set<Uuid> {
    set g | g in grants && grants[g].revokedBySeq.None? :: grants[g].memberId
  }

  class Server {
    var ops: seq<OpRow>
    var genesisSeq: Option<nat>
    var grants: map<Uuid, GrantRow>
    var epochs: map<nat, EpochRow>
    var wraps: map<(Uuid, nat), WrapRow>
    var members: map<Uuid, MemberRow>
    var escrows: map<string, EscrowRow>

    function Database(): Db
      reads this
    {
      Db(ops, genesisSeq, grants, epochs, wraps, members, escrows)
    }

    function Tables(): OpLog.Tables
      reads this
    {
      TablesOf(Database())
    }

    method Rollback(saved: Db)
      modifies this
      ensures Database() == saved
    {
      ops, genesisSeq, grants, epochs := saved.ops, saved.genesisSeq, saved.grants, saved.epochs;
      wraps, members, escrows := saved.wraps, saved.members, saved.escrows;
    }

    /** Certify the Member a registration names, if the registry knows it. */
    method MaterialiseRegistration(registration: Registration)
      modifies this`members
      ensures members == Chain(old(members), registration)
    {
      var id := registration.keys.memberId;
      if id in members {
        members := members[id := members[id].(chained := true, memberKind := Some(registration.keys.memberKind))];
      }
    }

    /** One control op's rows. A taken primary key comes back as the failure a flush would raise. */
    method MaterialiseOne(effect: ControlEffect, r: OpResult) returns (failed: bool)
      requires !r.duplicate
      modifies this
      ensures ops == old(ops) && wraps == old(wraps) && escrows == old(escrows)
      ensures match MaterialiseStep(old(Tables()), effect, r)
              case Success(t) => !failed && Tables() == t
              case Failure(_) => failed
    {
      failed := false;
      match effect
      case Founded(registration) =>
        MaterialiseRegistration(registration);
        if genesisSeq.Some? { return true; }
        genesisSeq := Some(r.seqNo);
      case Registered(registration) =>
        MaterialiseRegistration(registration);
      case Granted(g) =>
        if g.grantId in grants { return true; }
        grants := grants[g.grantId := GrantRow(g.memberId, g.role, g.granter, r.seqNo, None)];
      case Rotated(rotate) =>
        if rotate.toEpoch in epochs { return true; }
        epochs := epochs[rotate.toEpoch := EpochRow(rotate.keywrapDigest, [], Some(r.seqNo))];
      case Revoked(revoke) =>
        var g := revoke.grantId;
        if g in grants && grants[g].revokedBySeq.None? {
          grants := grants[g := grants[g].(revokedBySeq := Some(r.seqNo))];
        }
    }

    /** The rows of the admitted control ops, in order, and the Members a revoke left without a live Grant. */
    method MaterialiseControl(admissions: seq<ControlAdmission>, results: seq<OpResult>)
      returns (failed: bool, lost: set<Uuid>)
      requires IndexesWithin(admissions, |results|)
      modifies this
      ensures ops == old(ops) && wraps == old(wraps) && escrows == old(escrows)
      ensures match MaterialiseUpTo(old(Tables()), admissions, results, |admissions|)
              case Success(t) => !failed && Tables() == t && AreLost(lost, old(grants), grants)
              case Failure(_) => failed
    {
      hide MaterialiseStep, StampedMembers, AreLost;
      ghost var before, was := Tables(), grants;
      NobodyStamped(grants);
      var revokedFrom: set<Uuid> := {};
      lost := {};
      for n := 0 to |admissions|
        invariant ops == old(ops) && wraps == old(wraps) && escrows == old(escrows)
        invariant MaterialiseUpTo(before, admissions, results, n) == Success(Tables())
        invariant revokedFrom == StampedMembers(was, grants)
        invariant StillStamped(was, grants)
      {
        var a := admissions[n];
        var r := results[a.index];
        ghost var earlier := Tables();
        SkipDuplicate(earlier, a.effect, r);
        if !r.duplicate {
          if a.effect.Revoked? && a.effect.revoke.grantId in grants
             && grants[a.effect.revoke.grantId].revokedBySeq.None? {
            revokedFrom := revokedFrom + {grants[a.effect.revoke.grantId].memberId};
          }
          failed := MaterialiseOne(a.effect, r);
          if failed {
            MaterialiseStops(before, admissions, results, n + 1, |admissions|);
            return true, {};
          }
          StampedByOne(was, earlier, a.effect, r);
        }
      }
      LostIs(was, grants);
      return false, revokedFrom - LiveMembers(grants);
    }

    /** The guarded `UPDATE`, and its rowcount. */
    method StampTargets(seqs: set<nat>, pruneSeq: nat) returns (rowcount: nat)
      modifies this`ops
      ensures ops == Stamp(old(ops), seqs, pruneSeq) && rowcount == Stampable(old(ops), seqs)
    {
      rowcount := 0;
      ghost var was := ops;
      assert was[..0] == [];
      for i := 0 to |ops|
        invariant |ops| == |was| && rowcount == Stampable(was[..i], seqs)
        invariant forall j | 0 <= j < i :: ops[j] == Stamp(was, seqs, pruneSeq)[j]
        invariant forall j | i <= j < |ops| :: ops[j] == was[j]
      {
        assert was[..i + 1][..i] == was[..i];
        if ops[i].seqNo in seqs && ops[i].compactedBy.None? {
          ops := ops[i := ops[i].(compactedBy := Some(pruneSeq))];
          rowcount := rowcount + 1;
        }
      }
      assert was[..|was|] == was;
    }

    /** Stamp the targets of every new prune; a short rowcount refuses the batch. */
    method MaterialisePrunes(prunes: seq<PruneAdmission>, results: seq<OpResult>) returns (refused: Option<Refusal>)
      requires forall a | a in prunes :: a.index < |results|
      modifies this`ops
      ensures match StampUpTo(old(ops), prunes, results, |prunes|)
              case Success(rows) => refused.None? && ops == rows
              case Failure(refusal) => refused == Some(refusal)
    {
      hide Stamp, Stampable;
      ghost var was := ops;
      for n := 0 to |prunes|
        invariant StampUpTo(was, prunes, results, n) == Success(ops)
      {
        var a := prunes[n];
        if !results[a.index].duplicate {
          var rowcount := StampTargets(TargetSeqs(a.targets), results[a.index].seqNo);
          if rowcount != |a.targets| {
            StampStops(was, prunes, results, n + 1, |prunes|);
            return Some(Refusal(PruneTargetAlreadyCompacted(None), Some(a.index)));
          }
        }
      }
      return None;
    }

    // --- POST /ops ---

    /** Insert the staged rows; false is the uniqueness constraint, and nothing is inserted. */
    method InsertOps(p: Post, plan: Plan, seqs: seq<nat>) returns (inserted: bool)
      requires |plan.freshAt| <= |seqs| && forall k | 0 <= k < |plan.freshAt| :: plan.freshAt[k] < |p.ops|
      modifies this`ops
      ensures inserted == !AnyCollision(old(ops), NewRows(p.ops, plan.freshAt, seqs))
      ensures ops == if inserted then old(ops) + NewRows(p.ops, plan.freshAt, seqs) else old(ops)
    {
      var rows := NewRows(p.ops, plan.freshAt, seqs);
      if AnyCollision(ops, rows) { return false; }
      ops := ops + rows;
      return true;
    }

    /** Insert, materialise and stamp in one transaction; whatever refuses it leaves every table alone. */
    method WriteRows(p: Post, ghost w: Walk, admissions: Admissions, plan: Plan, seqs: seq<nat>)
      returns (r: Result<seq<OpResult>, Refusal>, lost: set<Uuid>)
      requires admissions == Admissions(w.control, w.prunes)
      requires AdmissionsWithin(w, |p.ops|) && PlanWithin(plan, p.ops) && |seqs| == |p.ops|
      modifies this
      ensures match Finish(old(Database()), p, w, plan, seqs)
              case Answered(results, db) =>
                && r == Success(results) && results == ResultsOf(plan.entries, seqs) && Database() == db
                && AreLost(lost, old(grants), grants) && |ops| == |old(ops)| + |plan.freshAt|
              case Refused(refusal) => r == Failure(refusal) && Database() == old(Database())
              case Raced => r == Failure(Refusal(AuthorChainConflict(None), None)) && Database() == old(Database())
      ensures r.Failure? ==> lost == {}
    {
      hide MaterialiseUpTo, StampUpTo, AnyCollision, AreLost;
      var saved := Database();
      lost := {};
      var inserted := InsertOps(p, plan, seqs);
      if !inserted { return Failure(Refusal(AuthorChainConflict(None), None)), {}; }
      var results := ResultsOf(plan.entries, seqs);
      var failed;
      failed, lost := MaterialiseControl(admissions.control, results);
      if failed {
        Rollback(saved);
        return Failure(CommitConflict(saved, admissions.control)), {};
      }
      var refused := MaterialisePrunes(admissions.prunes, results);
      if refused.Some? {
        Rollback(saved);
        return Failure(refused.value), {};
      }
      StampsKeepLength(saved.ops + NewRows(p.ops, plan.freshAt, seqs), w.prunes, results, |w.prunes|);
      return Success(results), lost;
    }

    /**
     A whole POST that no other request overlaps. On refusal the tables are what they were; otherwise the log has
     grown exactly when subscribers are to be poked.
     */
    method PostOps(p: Post, seqs: seq<nat>) returns (r: Result<seq<OpResult>, Refusal>, lost: set<Uuid>, poke: bool)
      requires |seqs| == |p.ops|
      modifies this
      ensures match PostSerially(old(Database()), p, seqs)
              case Answered(results, db) =>
                r == Success(results) && Database() == db && AreLost(lost, old(grants), grants)
              case Refused(refusal) => r == Failure(refusal) && Database() == old(Database())
              case Raced => r == Failure(Refusal(AuthorChainConflict(None), None)) && Database() == old(Database())
      ensures poke <==> |ops| > |old(ops)|
      ensures r.Failure? ==> lost == {} && !poke
    {
      hide WalkUpTo, PlanUpTo, ExistingSeqs, Heads, AreLost, ViewOf, PostSerially, PlanFacts, Finish, ResultsOf;
      SerialStages(Database(), p, seqs);
      lost, poke := {}, false;
      var admissions := VerifyAndAuthorize(p, ViewOf(Database(), p));
      if admissions.Failure? { return Failure(admissions.error), {}, false; }
      var existing, heads := ExistingSeqs(ops, OpIds(p.ops)), Heads(ops, Authors(p.ops));
      var planned := PlanBatch(p.ops, existing, heads);
      if planned.Failure? { return Failure(planned.error), {}, false; }
      ghost var w := WalkUpTo(p, ViewOf(Database(), p), |p.ops|).value;
      r, lost := WriteRows(p, w, admissions.value, planned.value, seqs);
      if r.Failure? { return r, {}, false; }
      PlanHolds(existing, heads, p.ops, |p.ops|);
      FreshMeansNew(existing, p.ops, planned.value, seqs, r.value);
      poke := exists result | result in r.value :: !result.duplicate;
    }

    /** The route: the body is parsed before anything is read, and an empty batch stops there. */
    method Post(site: Site, caller: Caller, parse: Intake.JsonParser, body: seq<string>, seqs: seq<nat>)
      returns (r: Result<seq<OpResult>, Refusal>, lost: set<Uuid>, poke: bool)
      requires |seqs| == |body|
      modifies this
      ensures caller.userId !in site.derivedBy || |body| > MAX_OPS_PER_BATCH ==> r.Failure?
      ensures caller.userId in site.derivedBy && |body| <= MAX_OPS_PER_BATCH ==>
                match Intake.TakeUpTo(site, caller, parse, body, |body|)
                case Failure(refusal) => r == Failure(refusal)
                case Success(ops) =>
                  && |ops| == |body|
                  && (PostSerially(old(Database()), OpLog.Post(site, caller, ops), seqs).Answered? ==>
                        && r == Success(PostSerially(old(Database()), OpLog.Post(site, caller, ops), seqs).results)
                        && Database() == PostSerially(old(Database()), OpLog.Post(site, caller, ops), seqs).db
                        && AreLost(lost, old(grants), grants) && (poke <==> |this.ops| > |old(this.ops)|))
                  && (!PostSerially(old(Database()), OpLog.Post(site, caller, ops), seqs).Answered? ==> r.Failure?)
      ensures r.Failure? ==> Database() == old(Database()) && lost == {} && !poke
    {
      hide PostSerially, Intake.TakeUpTo, AreLost;
      lost, poke := {}, false;
      var parsed := Intake.TakeBatch(site, caller, parse, body);
      if parsed.Failure? { return Failure(parsed.error), {}, false; }
      Intake.TakenBatchIsSound(site, caller, parse, body, |body|);
      var p := OpLog.Post(site, caller, parsed.value);
      if p.ops == [] {
        EmptyBatch(Database(), p, seqs);
        NobodyLost(grants);
        return Success([]), {}, false;
      }
      r, lost, poke := PostOps(p, seqs);
    }

    // --- GET /ops ---

    method PullOps(site: Site, caller: Caller, since: nat, limit: nat, includeCompacted: bool)
      returns (r: Result<Paging.Page, Code>)
      ensures caller.userId !in site.derivedBy ==> r == Failure(WorkspaceNotDerivable)
      ensures caller.userId in site.derivedBy && IsShutOut(grants, caller.memberId) ==> r == Failure(NoLiveGrant(true))
      ensures caller.userId in site.derivedBy && !IsShutOut(grants, caller.memberId) ==>
                r == Success(Paging.Pull(ops, since, limit, includeCompacted))
    {
      if caller.userId !in site.derivedBy { return Failure(WorkspaceNotDerivable); }
      ShutOutExactly(grants, caller.memberId);
      if IsRevokedMember(IndexOf(grants), caller.memberId) { return Failure(NoLiveGrant(true)); }
      var selected := Paging.Selected(ops, since, includeCompacted);
      var hasMore := |selected| > limit;
      return Success(Paging.Page(if hasMore then selected[..limit] else selected, hasMore));
    }

    // --- PUT /recovery ---

    method PutRecoveryEscrow(
      site: Site, userId: string, request: EscrowSlot.EscrowRequest) returns (r: Result<EscrowRow, Code>)
      modifies this`escrows
      ensures userId !in site.derivedBy ==> r == Failure(WorkspaceNotDerivable)
      ensures userId in site.derivedBy ==>
                var slot := if userId in old(escrows) then Some(old(escrows)[userId]) else None;
                r == EscrowSlot.Put(site, request, slot, slot)
      ensures escrows == if r.Success? then old(escrows)[userId := r.value] else old(escrows)
    {
      if userId !in site.derivedBy { return Failure(WorkspaceNotDerivable); }
      var stored := if userId in escrows then Some(escrows[userId]) else None;
      var decided := EscrowSlot.Decide(site, request, stored);
      if decided.Failure? { return Failure(decided.error); }
      var row := match decided.value
        case Insert(inserted) => inserted
        case Update(_, version, blob, rootSig) => stored.value.(version := version, blob := blob, rootSig := rootSig);
      escrows := escrows[userId := row];
      return Success(row);
    }

    // --- PUT /keywraps ---

    /** Insert the wraps that are missing, one row at a time. */
    method InsertWraps(epoch: nat, inserts: seq<MemberWrap>)
      modifies this`wraps
      ensures wraps == AddWraps(old(wraps), epoch, inserts)
    {
      ghost var was := wraps;
      assert inserts[0..] == inserts;
      for i := 0 to |inserts|
        invariant AddWraps(was, epoch, inserts) == AddWraps(wraps, epoch, inserts[i..])
      {
        assert inserts[i..][1..] == inserts[i + 1..];
        wraps := wraps[(inserts[i].memberId, epoch) := WrapRowOf(inserts[i])];
      }
    }

    /** The checks on the request itself, entry by entry, and the digest of the set it carries. */
    method CheckUpload(site: Site, request: KeywrapRequest) returns (r: Result<Bytes, Refusal>)
      ensures r == Validate(site, grants, members, request)
    {
      hide CheckEntry, DigestShape, Digest, IndexOf, LiveRoles;
      if !(0 <= request.epoch <= MAX_KEY_EPOCH) { return Failure(Refusal(MalformedKeyEpoch, None)); }
      var states, caller := IndexOf(grants), request.caller;
      if Owner !in LiveRoles(states, caller.memberId) {
        return Failure(Refusal(KeywrapRequiresOwner(IsRevokedMember(states, caller.memberId)), None));
      }
      if |request.escrowWrap| != EPOCH_KEY_ESCROW_WRAP_BYTES { return Failure(Refusal(MalformedEscrowWrap, None)); }
      var seen: set<Uuid> := {};
      for position := 0 to |request.wraps|
        invariant CheckEntries(site, members, caller.userId, request.wraps, position).None?
        invariant seen == MemberIds(request.wraps[..position])
      {
        var entry := request.wraps[position];
        var refused := CheckEntry(site, members, caller.userId, seen, entry);
        if refused.Some? {
          EntriesRefused(site, members, caller.userId, request.wraps, position + 1, |request.wraps|);
          return Failure(Refusal(refused.value, Some(position)));
        }
        assert request.wraps[..position + 1] == request.wraps[..position] + [entry];
        seen := seen + {entry.memberId};
      }
      var digest := KeywrapDigest(site.sha256, request.epoch, request.wraps, request.escrowWrap);
      if digest.Failure? { return Failure(Refusal(ServerError, None)); }
      return Success(digest.value);
    }

    /** An upload that no other request overlaps. */
    method PutKeywraps(site: Site, request: KeywrapRequest) returns (refused: Option<Refusal>)
      modifies this`epochs, this`wraps
      ensures request.caller.userId !in site.derivedBy ==> refused == Some(Refusal(WorkspaceNotDerivable, None))
      ensures request.caller.userId in site.derivedBy && IsShutOut(grants, request.caller.memberId) ==>
                refused == Some(Refusal(NoLiveGrant(true), None))
      ensures request.caller.userId in site.derivedBy && !IsShutOut(grants, request.caller.memberId) ==>
                match Upload(site, request, grants, members, SeenNow(old(Database()), request), old(Database()),
                  old(Database()))
                case Uploaded(db) => refused.None? && Database() == db
                case Acknowledged => refused.None? && Database() == old(Database())
                case KeywrapRefused(refusal) => refused == Some(refusal) && Database() == old(Database())
      ensures refused.Some? ==> Database() == old(Database())
    {
      hide Validate, Decide, AddWraps, Digest, Recheck;
      if request.caller.userId !in site.derivedBy { return Some(Refusal(WorkspaceNotDerivable, None)); }
      ShutOutExactly(grants, request.caller.memberId);
      if IsRevokedMember(IndexOf(grants), request.caller.memberId) { return Some(Refusal(NoLiveGrant(true), None)); }
      var saved := Database();
      var validated := CheckUpload(site, request);
      if validated.Failure? { return Some(validated.error); }
      ValidatedEpoch(site, grants, members, request);
      var e: nat := request.epoch;
      var decided := Decide(SeenNow(saved, request), request, validated.value);
      if decided.Failure? { return Some(Refusal(decided.error, None)); }
      var writes := decided.value;
      if Apply(saved, request, writes).None? {
        var code := Recheck(saved, request, validated.value);
        return if code.Some? then Some(Refusal(code.value, None)) else None;
      }
      if writes.newEpoch.Some? {
        epochs := epochs[e := writes.newEpoch.value];
      } else {
        epochs := epochs[e := epochs[e].(escrowWrap := request.escrowWrap)];
      }
      InsertWraps(e, writes.inserts);
      return None;
    }
  }

  lemma ValidatedEpoch(site: Site, grants: map<Uuid, GrantRow>, members: map<Uuid, MemberRow>, r: KeywrapRequest)
    requires Validate(site, grants, members, r).Success?
    ensures r.epoch >= 0
  {
  }

  // --- What the loops rest on ---

  lemma {:induction false} EntriesRefused(
    site: Site, members: map<Uuid, MemberRow>, userId: string, wraps: seq<MemberWrap>, n: nat, m: nat)
    requires n <= m <= |wraps| && CheckEntries(site, members, userId, wraps, n).Some?
    ensures CheckEntries(site, members, userId, wraps, m) == CheckEntries(site, members, userId, wraps, n)
    decreases m
  {
    hide CheckEntry;
    if n < m {
      EntriesRefused(site, members, userId, wraps, n, m - 1);
    }
  }

  lemma EmptyBatch(db: Db, p: Post, seqs: seq<nat>)
    requires p.ops == [] && seqs == []
    ensures PostSerially(db, p, seqs) == Answered([], db)
  {
    assert WalkUpTo(p, ViewOf(db, p), 0) == Success(StartWalk(ViewOf(db, p)));
    assert NewRows(p.ops, [], seqs) == [] && db.ops + [] == db.ops;
    assert ResultsOf([], seqs) == [];
  }

  lemma NobodyLost(grants: map<Uuid, GrantRow>)
    ensures AreLost({}, grants, grants)
  {
  }

  lemma NobodyStamped(grants: map<Uuid, GrantRow>)
    ensures StampedMembers(grants, grants) == {} && StillStamped(grants, grants)
  {
  }

  lemma LostIs(before: map<Uuid, GrantRow>, after: map<Uuid, GrantRow>)
    ensures AreLost(StampedMembers(before, after) - LiveMembers(after), before, after)
  {
    var lost := StampedMembers(before, after) - LiveMembers(after);
    forall m
      ensures m in lost <==> LosesTransport(before, after, m)
    {
      if m in lost {
        var g :| g in after && after[g].revokedBySeq.Some? && !(g in before && before[g].revokedBySeq.Some?)
                 && after[g].memberId == m;
        assert after[g].memberId == m && after[g].revokedBySeq.Some?;
      }
    }
  }

  /** Rows stay, and a stamped one stays stamped. */
  ghost predicate StillStamped(before: map<Uuid, GrantRow>, after: map<Uuid, GrantRow>) {
    forall g | g in before ::
      && g in after && after[g].memberId == before[g].memberId
      && (before[g].revokedBySeq.Some? ==> after[g].revokedBySeq.Some?)
  }

  lemma SkipDuplicate(t: OpLog.Tables, effect: ControlEffect, r: OpResult)
    ensures r.duplicate ==> MaterialiseStep(t, effect, r) == Success(t)
  {
  }

  lemma StampedByOne(before: map<Uuid, GrantRow>, t: OpLog.Tables, effect: ControlEffect, r: OpResult)
    requires !r.duplicate && MaterialiseStep(t, effect, r).Success? && StillStamped(before, t.grants)
    ensures var after := MaterialiseStep(t, effect, r).value.grants;
            && StillStamped(before, after)
            && StampedMembers(before, after) == StampedMembers(before, t.grants)
               + if effect.Revoked? && effect.revoke.grantId in t.grants
                 && t.grants[effect.revoke.grantId].revokedBySeq.None?
                 then {t.grants[effect.revoke.grantId].memberId} else {}
  {
    var after := MaterialiseStep(t, effect, r).value.grants;
    if effect.Revoked? && effect.revoke.grantId in t.grants && t.grants[effect.revoke.grantId].revokedBySeq.None? {
      var g := effect.revoke.grantId;
      forall m
        ensures m in StampedMembers(before, after) <==> m in StampedMembers(before, t.grants) + {t.grants[g].memberId}
      {
        if m in StampedMembers(before, t.grants) {
          var h :| h in t.grants && t.grants[h].revokedBySeq.Some? && !(h in before && before[h].revokedBySeq.Some?)
                   && t.grants[h].memberId == m;
          assert after[h] == t.grants[h];
        }
        if m == t.grants[g].memberId {
          assert after[g].memberId == m;
        }
      }
    } else if effect.Granted? {
      forall h | h in after && after[h].revokedBySeq.Some?
        ensures h in t.grants && after[h] == t.grants[h]
      {
      }
      forall m
        ensures m in StampedMembers(before, after) <==> m in StampedMembers(before, t.grants)
      {
      }
    }
  }

  lemma {:induction false} MaterialiseStops(
    t: OpLog.Tables, admissions: seq<ControlAdmission>, results: seq<OpResult>, n: nat, m: nat)
    requires n <= m <= |admissions| && IndexesWithin(admissions, |results|)
    requires MaterialiseUpTo(t, admissions, results, n).Failure?
    ensures MaterialiseUpTo(t, admissions, results, m).Failure?
    decreases m
  {
    if n < m {
      MaterialiseStops(t, admissions, results, n, m - 1);
    }
  }

  lemma {:induction false} StampStops(
    rows: seq<OpRow>, prunes: seq<PruneAdmission>, results: seq<OpResult>, n: nat, m: nat)
    requires n <= m <= |prunes| && forall a | a in prunes :: a.index < |results|
    requires StampUpTo(rows, prunes, results, n).Failure?
    ensures StampUpTo(rows, prunes, results, m) == StampUpTo(rows, prunes, results, n)
    decreases m
  {
    hide StampStep;
    if n < m {
      StampStops(rows, prunes, results, n, m - 1);
    }
  }

  lemma {:induction false} StampsKeepLength(
    rows: seq<OpRow>, prunes: seq<PruneAdmission>, results: seq<OpResult>, n: nat)
    requires n <= |prunes| && forall a | a in prunes :: a.index < |results|
    requires StampUpTo(rows, prunes, results, n).Success?
    ensures |StampUpTo(rows, prunes, results, n).value| == |rows|
  {
    if n > 0 {
      StampsKeepLength(rows, prunes, results, n - 1);
    }
  }

  /** Rows are inserted exactly when some answer is no duplicate. */
  lemma FreshMeansNew(existing: map<Key, nat>, ops: seq<Op>, plan: Plan, seqs: seq<nat>, results: seq<OpResult>)
    requires PlanFacts(existing, ops, plan) && PlanWithin(plan, ops) && |seqs| == |ops|
    requires results == ResultsOf(plan.entries, seqs)
    ensures plan.freshAt != [] <==> exists result | result in results :: !result.duplicate
  {
    hide FreshFacts, StagedFacts, EntryFacts;
    if plan.freshAt != [] {
      var i := plan.freshAt[0];
      assert plan.entries[i].source == Staged(0);
      assert results[i] in results && !results[i].duplicate;
    }
    if result :| result in results && !result.duplicate {
      var i :| 0 <= i < |results| && results[i] == result;
      NewIsStaged(existing, ops, plan, i);
    }
  }

  lemma NewIsStaged(existing: map<Key, nat>, ops: seq<Op>, plan: Plan, i: nat)
    requires EntriesFacts(existing, ops, plan) && i < |plan.entries| && !plan.entries[i].duplicate
    ensures plan.freshAt != []
  {
    assert EntryFacts(existing, ops[i], plan.entries[i], plan.freshAt, ops, i);
  }
}
