/**
 Exactly which ops the verification walk lets through. Each rule is stated on the op, the signatures, the stored rows
 and what the batch has asserted before it, and the walk succeeds if and only if every op keeps its rules.
 Source: backend/app/sync/routes.py and control_payload.py.
 */
module Admission {
  import opened Wrappers
  import opened ByteStrings
  import opened Envelope
  import opened Payloads
  import opened OpLog
  import opened OpLogFacts
  import opened LogInvariant
  import opened Serial
  import opened GrantWalk
  import opened AuthorityProofs
  import opened EpochWindow

  // --- Roles ---

  /** What each role may author: the role table read by role. */
  function ClassesOf(role: Role): set<byte> {
    match role
    case Owner => {OP_CLASS_CONTENT, OP_CLASS_CONTROL, OP_CLASS_SUGGESTION, OP_CLASS_COMPACTION, OP_CLASS_PRUNE}
    case Participant => {OP_CLASS_CONTENT, OP_CLASS_SUGGESTION}
    case Compactor => {OP_CLASS_SUGGESTION, OP_CLASS_COMPACTION, OP_CLASS_PRUNE}
    case Suggester => {OP_CLASS_SUGGESTION}
  }

  /** Some live Grant of the Member has a role for the class. */
  ghost predicate MayAuthor(states: GrantStates, member: Uuid, opClass: byte) {
    exists g | g in states :: !states[g].revoked && states[g].memberId == member && opClass in ClassesOf(states[g].role)
  }

  ghost predicate OwnsWorkspace(states: GrantStates, member: Uuid) {
    exists g | g in states :: !states[g].revoked && states[g].memberId == member && states[g].role == Owner
  }

  lemma RoleTableTransposed(role: Role, opClass: byte)
    ensures role in RoleOpClassMatrix(opClass) <==> opClass in ClassesOf(role)
  {
  }

  lemma RoleExactly(states: GrantStates, member: Uuid, opClass: byte)
    ensures RequireRole(states, member, opClass).None? <==> MayAuthor(states, member, opClass)
    ensures MayAuthor(states, member, OP_CLASS_CONTROL) <==> OwnsWorkspace(states, member)
  {
    hide RequireRole, RoleOpClassMatrix;
    RequireRoleExactly(states, member, opClass);
    forall role: Role
      ensures role in RoleOpClassMatrix(opClass) <==> opClass in ClassesOf(role)
    {
      RoleTableTransposed(role, opClass);
    }
  }

  ghost predicate HoldsGrant(states: GrantStates, member: Uuid) {
    exists g | g in states :: states[g].memberId == member
  }

  ghost predicate HoldsLiveGrant(states: GrantStates, member: Uuid) {
    exists g | g in states :: states[g].memberId == member && !states[g].revoked
  }

  /** A refused author learns whether any of its Grants is open, and if none is, whether it ever had one. */
  lemma RoleRefusal(states: GrantStates, member: Uuid, opClass: byte)
    requires !MayAuthor(states, member, opClass)
    ensures RequireRole(states, member, opClass)
         == Some(if HoldsLiveGrant(states, member) then RoleForbidsOpClass else NoLiveGrant(HoldsGrant(states, member)))
  {
    hide MayAuthor;
    RoleExactly(states, member, opClass);
    LiveRolesExactly(states, member);
  }

  lemma LiveRolesExactly(states: GrantStates, member: Uuid)
    ensures LiveRoles(states, member) != {} <==> HoldsLiveGrant(states, member)
  {
    if g :| g in states && states[g].memberId == member && !states[g].revoked {
      assert states[g].role in LiveRoles(states, member);
    }
    if role :| role in LiveRoles(states, member) {
      var g :| g in states && states[g].memberId == member && !states[g].revoked && states[g].role == role;
    }
  }

  // --- Control ops ---

  /** Root's key accepts the certificate under the domain. */
  predicate RootSigns(p: Post, v: View, op: Op, domain: Bytes)
    requires op.IsDecodedControl()
  {
    p.site.verify(domain + op.body.control.value.certBytes, op.body.control.value.signature, v.rootPk)
  }

  /** The keys name the author itself, and its token's signing key. */
  predicate NamesItself(p: Post, op: Op, keys: MemberKeys) {
    keys.memberId == op.Author() && keys.signPk == p.caller.signPk
  }

  predicate GenesisStands(p: Post, v: View, w: Walk, i: nat)
    requires i < |p.ops| && p.ops[i].IsDecodedControl()
  {
    var op := p.ops[i];
    && i == 0 && !w.founded && p.caller.userId in p.site.derivedBy && op.header.authorSeq == 1
    && RootSigns(p, v, op, SIGNING_DOMAIN_WORKSPACE_GENESIS_V1)
    && op.body.certificate.Success? && op.body.certificate.value.Founds?
    && var genesis := op.body.certificate.value.genesis;
       genesis.workspaceId == p.site.workspaceId && genesis.rootPk == v.rootPk && NamesItself(p, op, genesis.founder)
  }

  predicate RegisterStands(p: Post, v: View, op: Op)
    requires op.IsDecodedControl()
  {
    && op.header.authorSeq == 1 && RootSigns(p, v, op, SIGNING_DOMAIN_MEMBER_REGISTER_V1)
    && op.body.certificate.Success? && op.body.certificate.value.Registers?
    && var registration := op.body.certificate.value.registration;
       registration.workspaceId == p.site.workspaceId && NamesItself(p, op, registration.keys)
  }

  /** The grantee is a certified Member of the caller's User; in preferences, a device. */
  predicate GranteeStands(p: Post, v: View, w: Walk, m: Uuid) {
    && m in v.members && v.members[m].userId == p.caller.userId
    && if m in w.stagedKinds then
         p.caller.userId in p.site.preferencesOf ==> w.stagedKinds[m] == MEMBER_KIND_DEVICE
       else
         && v.members[m].chained
         && (p.caller.userId in p.site.preferencesOf ==> v.members[m].memberKind in {None, Some(MEMBER_KIND_DEVICE)})
  }

  ghost predicate GrantStands(p: Post, v: View, w: Walk, op: Op)
    requires op.IsDecodedControl()
  {
    && op.IsGrant()
    && var g := op.GrantOf();
       && g.workspaceId == p.site.workspaceId && g.granter == op.body.control.value.authority
       && IsSigned(p, v.rootPk, op, SIGNING_DOMAIN_GRANT_V1, g.granter)
       && (g.granter != Root ==> OwnsWorkspace(w.grants, p.caller.memberId) && g.role != Owner)
       && GranteeStands(p, v, w, g.memberId)
       && (g.grantId in w.grants ==> op.header.opId in v.replayed)
  }

  ghost predicate RevokeStands(p: Post, v: View, w: Walk, op: Op)
    requires op.IsDecodedControl()
  {
    && op.IsRevoke()
    && var r := op.RevokeOf();
       && r.workspaceId == p.site.workspaceId && r.revoker == op.body.control.value.authority
       && IsSigned(p, v.rootPk, op, SIGNING_DOMAIN_REVOKE_V1, r.revoker)
       && (r.revoker != Root ==> OwnsWorkspace(w.grants, p.caller.memberId))
       && r.grantId in w.grants
       && (w.grants[r.grantId].role == Owner ==> r.revoker == Root)
       && (w.grants[r.grantId].revoked ==> op.header.opId in v.replayed)
  }

  ghost predicate RotateStands(p: Post, w: Walk, op: Op)
    requires op.IsDecodedControl()
  {
    && op.IsRotate() && op.RotateOf().workspaceId == p.site.workspaceId
    && op.RotateOf().fromEpoch == (if w.epoch.Some? then w.epoch.value else 0)
    && (op.body.control.value.authority != Root ==> OwnsWorkspace(w.grants, p.caller.memberId))
  }

  /** Only a genesis stands before the Workspace is founded, and only a genesis has an all-zero link. */
  ghost predicate ControlStands(p: Post, v: View, w: Walk, i: nat)
    requires i < |p.ops|
  {
    var op := p.ops[i];
    && op.IsDecodedControl()
    && (op.body.control.value.prevControlHash == Zeros(32) <==> op.Is(WorkspaceGenesis))
    && (op.Is(WorkspaceGenesis) || w.founded)
    && match op.body.control.value.controlType
       case WorkspaceGenesis => GenesisStands(p, v, w, i)
       case MemberRegister => RegisterStands(p, v, op)
       case Grant => GrantStands(p, v, w, op)
       case Revoke => RevokeStands(p, v, w, op)
       case Rotate => RotateStands(p, w, op)
       case Unserved(_) => false
  }

  // --- Prunes and content ---

  /** The rows hold a Compaction of the author under that op id. */
  ghost predicate HoldsCompaction(rows: seq<OpRow>, author: Uuid, opId: Uuid) {
    exists r | r in rows :: r.op.Key() == (author, opId) && r.op.header.opClass == OP_CLASS_COMPACTION
  }

  /** The target attests a stored content row, not the Compaction itself, unstamped and unclaimed unless replayed. */
  ghost predicate TargetStands(
    rows: seq<OpRow>, compactionOpId: Uuid, claimed: set<nat>, isReplay: bool, t: PruneTarget) {
    exists r | r in rows ::
      && Names(t, r) && !r.op.IsControl() && !r.op.IsPrune() && r.op.header.opId != compactionOpId
      && (isReplay || (r.compactedBy.None? && t.seqNo !in claimed))
  }

  ghost predicate PruneStands(p: Post, v: View, w: Walk, i: nat)
    requires i < |p.ops| == |v.logs|
  {
    var op := p.ops[i];
    && op.IsDecodedPrune()
    && var compactionOpId := op.body.prune.value.compactionOpId;
       && (compactionOpId in w.stagedCompactions || HoldsCompaction(v.logs[i], op.Author(), compactionOpId))
       && forall t | t in op.TargetsOf() ::
            TargetStands(v.logs[i], compactionOpId, w.claimedSeqs, op.header.opId in v.replayed, t)
  }

  ghost predicate ContentStands(p: Post, v: View, w: Walk, i: nat)
    requires i < |p.ops| == |v.logs|
  {
    var op := p.ops[i];
    && w.founded && MayAuthor(w.grants, p.caller.memberId, op.header.opClass)
    && (w.epoch.Some? ==> InWindow(op.header.keyEpoch, w.epoch.value))
    && (op.IsPrune() ==> PruneStands(p, v, w, i))
  }

  ghost predicate Stands(p: Post, v: View, w: Walk, i: nat)
    requires i < |p.ops| == |v.logs|
  {
    if p.ops[i].IsControl() then ControlStands(p, v, w, i) else ContentStands(p, v, w, i)
  }

  // --- One op ---

  lemma GrantAdmitted(p: Post, v: View, w: Walk, i: nat)
    requires i < |p.ops| == |v.logs| && w.founded
    requires p.ops[i].Is(Grant) && p.ops[i].body.control.value.ChainLinkShapeOk()
    ensures WalkStep(p, v, w, i).Success? <==> GrantStands(p, v, w, p.ops[i])
  {
    hide RequireRole, MayAuthor, OwnsWorkspace;
    RoleExactly(w.grants, p.caller.memberId, OP_CLASS_CONTROL);
  }

  lemma RevokeAdmitted(p: Post, v: View, w: Walk, i: nat)
    requires i < |p.ops| == |v.logs| && w.founded
    requires p.ops[i].Is(Revoke) && p.ops[i].body.control.value.ChainLinkShapeOk()
    ensures WalkStep(p, v, w, i).Success? <==> RevokeStands(p, v, w, p.ops[i])
  {
    hide RequireRole, MayAuthor, OwnsWorkspace;
    RoleExactly(w.grants, p.caller.memberId, OP_CLASS_CONTROL);
  }

  lemma RotateAdmitted(p: Post, v: View, w: Walk, i: nat)
    requires i < |p.ops| == |v.logs| && w.founded
    requires p.ops[i].Is(Rotate) && p.ops[i].body.control.value.ChainLinkShapeOk()
    ensures WalkStep(p, v, w, i).Success? <==> RotateStands(p, w, p.ops[i])
  {
    hide RequireRole, MayAuthor, OwnsWorkspace;
    RoleExactly(w.grants, p.caller.memberId, OP_CLASS_CONTROL);
  }

  /** A rotate from another epoch than the current one is told the current one. */
  lemma LostRotateLearnsTheEpoch(p: Post, v: View, w: Walk, i: nat)
    requires i < |p.ops| == |v.logs| && w.founded
    requires p.ops[i].IsRotate() && p.ops[i].body.control.value.ChainLinkShapeOk()
    requires OwnsWorkspace(w.grants, p.caller.memberId) && p.ops[i].RotateOf().workspaceId == p.site.workspaceId
    requires !RotateStands(p, w, p.ops[i])
    ensures WalkStep(p, v, w, i) == Failure(RotateEpochConflict(if w.epoch.Some? then w.epoch.value else 0))
  {
    hide RequireRole, MayAuthor, OwnsWorkspace;
    RoleExactly(w.grants, p.caller.memberId, OP_CLASS_CONTROL);
  }

  lemma ControlAdmitted(p: Post, v: View, w: Walk, i: nat)
    requires i < |p.ops| == |v.logs| && p.ops[i].IsControl()
    ensures WalkStep(p, v, w, i).Success? <==> ControlStands(p, v, w, i)
  {
    hide RequireRole, VerifyGrant, VerifyRevoke, VerifyRotate, GrantStands, RevokeStands, RotateStands, MayAuthor;
    var op := p.ops[i];
    if w.founded && op.IsDecodedControl() && op.body.control.value.ChainLinkShapeOk() {
      if op.Is(Grant) {
        GrantAdmitted(p, v, w, i);
      } else if op.Is(Revoke) {
        RevokeAdmitted(p, v, w, i);
      } else if op.Is(Rotate) {
        RotateAdmitted(p, v, w, i);
      }
    }
  }

  lemma RowAtExactly(rows: seq<OpRow>, t: PruneTarget)
    requires Increasing(rows)
    ensures RowAt(rows, t.seqNo).Some? ==> forall r | r in rows && r.seqNo == t.seqNo :: r == RowAt(rows, t.seqNo).value
  {
    hide RowAt;
    if RowAt(rows, t.seqNo).Some? {
      var found := RowAt(rows, t.seqNo).value;
      forall r | r in rows && r.seqNo == t.seqNo
        ensures r == found
      {
        var i :| 0 <= i < |rows| && rows[i] == r;
        var j :| 0 <= j < |rows| && rows[j] == found;
      }
    }
  }

  lemma TargetAdmitted(rows: seq<OpRow>, compactionOpId: Uuid, claimed: set<nat>, isReplay: bool, t: PruneTarget)
    requires Increasing(rows)
    ensures CheckTarget(rows, compactionOpId, claimed, isReplay, t).None?
       <==> TargetStands(rows, compactionOpId, claimed, isReplay, t)
  {
    hide RowAt, Increasing;
    RowAtExactly(rows, t);
    if TargetStands(rows, compactionOpId, claimed, isReplay, t) {
      var r :| r in rows && Names(t, r) && !r.op.IsControl() && !r.op.IsPrune() && r.op.header.opId != compactionOpId
               && (isReplay || (r.compactedBy.None? && t.seqNo !in claimed));
      assert RowAt(rows, t.seqNo) == Some(r);
    }
  }

  lemma {:induction false} TargetsAdmitted(
    rows: seq<OpRow>, compactionOpId: Uuid, claimed: set<nat>, isReplay: bool, targets: seq<PruneTarget>, n: nat)
    requires Increasing(rows) && n <= |targets|
    ensures CheckTargets(rows, compactionOpId, claimed, isReplay, targets, n).None?
       <==> forall k | 0 <= k < n :: TargetStands(rows, compactionOpId, claimed, isReplay, targets[k])
  {
    hide CheckTarget, TargetStands, Increasing;
    if n > 0 {
      TargetsAdmitted(rows, compactionOpId, claimed, isReplay, targets, n - 1);
      TargetAdmitted(rows, compactionOpId, claimed, isReplay, targets[n - 1]);
    }
  }

  lemma PruneAdmitted(p: Post, v: View, w: Walk, i: nat)
    requires i < |p.ops| == |v.logs| && Increasing(v.logs[i]) && p.ops[i].IsPrune()
    ensures var op := p.ops[i];
            VerifyPrune(op, v.logs[i], w.stagedCompactions, w.claimedSeqs, op.header.opId in v.replayed).Success?
            <==> PruneStands(p, v, w, i)
  {
    hide CheckTargets, TargetStands, Increasing;
    var op := p.ops[i];
    if op.IsDecodedPrune() {
      var targets, isReplay := op.TargetsOf(), op.header.opId in v.replayed;
      TargetsAdmitted(v.logs[i], op.body.prune.value.compactionOpId, w.claimedSeqs, isReplay, targets, |targets|);
      assert forall t :: t in targets <==> exists k | 0 <= k < |targets| :: targets[k] == t;
    }
  }

  /** The freshness check refuses exactly what lies outside the window in force, and says on which side. */
  lemma EpochAdmitted(keyEpoch: nat, current: Option<nat>)
    ensures RequireFreshKeyEpoch(keyEpoch, current).None? <==> (current.Some? ==> InWindow(keyEpoch, current.value))
    ensures current.Some? && keyEpoch + 1 < current.value ==>
              RequireFreshKeyEpoch(keyEpoch, current) == Some(KeyEpochStale(current.value))
    ensures current.Some? && current.value < keyEpoch ==>
              RequireFreshKeyEpoch(keyEpoch, current) == Some(KeyEpochUnknown(current.value))
  {
  }

  lemma ContentAdmitted(p: Post, v: View, w: Walk, i: nat)
    requires i < |p.ops| == |v.logs| && Increasing(v.logs[i]) && !p.ops[i].IsControl()
    ensures WalkStep(p, v, w, i).Success? <==> ContentStands(p, v, w, i)
  {
    hide RequireRole, RequireFreshKeyEpoch, VerifyPrune, PruneStands, MayAuthor, Increasing, InWindow;
    var op := p.ops[i];
    RoleExactly(w.grants, p.caller.memberId, op.header.opClass);
    EpochAdmitted(op.header.keyEpoch, w.epoch);
    if op.IsPrune() {
      PruneAdmitted(p, v, w, i);
    }
  }

  lemma StepAdmitted(p: Post, v: View, w: Walk, i: nat)
    requires i < |p.ops| == |v.logs| && Increasing(v.logs[i])
    ensures WalkStep(p, v, w, i).Success? <==> Stands(p, v, w, i)
  {
    hide WalkStep, ControlStands, ContentStands, Increasing;
    if p.ops[i].IsControl() {
      ControlAdmitted(p, v, w, i);
    } else {
      ContentAdmitted(p, v, w, i);
    }
  }

  // --- The whole walk ---

  /** The kinds certified so far, after one more op. */
  function Certified(kinds: map<Uuid, string>, op: Op): map<Uuid, string> {
    match EffectOf(op)
    case Some(Founded(registration)) => kinds[registration.keys.memberId := registration.keys.memberKind]
    case Some(Registered(registration)) => kinds[registration.keys.memberId := registration.keys.memberKind]
    case _ => kinds
  }

  /** What the walk holds after an op, taking the op at its word. */
  function Advanced(w: Walk, op: Op, replayed: set<Uuid>, i: nat): Walk {
    Walk(
      Asserted(w.grants, op),
      w.founded || op.Is(WorkspaceGenesis),
      if op.IsRotate() then Some(op.RotateOf().toEpoch) else w.epoch,
      Certified(w.stagedKinds, op),
      w.stagedCompactions + if op.header.opClass == OP_CLASS_COMPACTION then {op.header.opId} else {},
      w.claimedSeqs + if op.IsDecodedPrune() then TargetSeqs(op.TargetsOf()) else {},
      w.control + ControlOf(op, i),
      w.prunes + PruneOf(op, replayed, i))
  }

  /** What the batch says up to op n, on top of what was read. */
  function SaidBefore(p: Post, v: View, n: nat): Walk
    requires n <= |p.ops|
  {
    if n == 0 then StartWalk(v) else Advanced(SaidBefore(p, v, n - 1), p.ops[n - 1], v.replayed, n - 1)
  }

  lemma StepAdvances(p: Post, v: View, w: Walk, i: nat)
    requires i < |p.ops| == |v.logs| && WalkStep(p, v, w, i).Success?
    ensures WalkStep(p, v, w, i).value == Advanced(w, p.ops[i], v.replayed, i)
  {
    hide WalkStep, Asserted, ControlOf, PruneOf, Certified;
    StepAdmits(p, v, w, i);
    StepGrants(p, v, w, i);
    StepEpoch(p, v, w, i);
    StepStaged(p, v, w, i);
  }

  lemma StepStaged(p: Post, v: View, w: Walk, i: nat)
    requires i < |p.ops| == |v.logs| && WalkStep(p, v, w, i).Success?
    ensures var w', op := WalkStep(p, v, w, i).value, p.ops[i];
            && w'.founded == (w.founded || op.Is(WorkspaceGenesis))
            && w'.stagedKinds == Certified(w.stagedKinds, op)
            && w'.stagedCompactions
               == w.stagedCompactions + (if op.header.opClass == OP_CLASS_COMPACTION then {op.header.opId} else {})
            && w'.claimedSeqs == w.claimedSeqs + if op.IsDecodedPrune() then TargetSeqs(op.TargetsOf()) else {}
  {
    hide RequireRole, RequireFreshKeyEpoch, AuthorityPublicKey, GranteeKind, CheckTargets;
    assert w.stagedCompactions + {} == w.stagedCompactions && w.claimedSeqs + {} == w.claimedSeqs;
  }

  /** Op i stands on what was read and what the batch says before it. */
  ghost predicate StandsAt(p: Post, v: View, i: nat)
    requires i < |p.ops| == |v.logs|
  {
    Stands(p, v, SaidBefore(p, v, i), i)
  }

  ghost predicate LogsIncrease(v: View) {
    forall i | 0 <= i < |v.logs| :: Increasing(v.logs[i])
  }

  /** The walk succeeds if and only if every op stands on what the batch says before it; it names the first not to. */
  lemma {:induction false} WalkExactly(p: Post, v: View, n: nat)
    requires n <= |p.ops| == |v.logs| && LogsIncrease(v)
    ensures WalkUpTo(p, v, n).Success? <==> forall i | 0 <= i < n :: StandsAt(p, v, i)
    ensures WalkUpTo(p, v, n).Success? ==> WalkUpTo(p, v, n).value == SaidBefore(p, v, n)
    ensures WalkUpTo(p, v, n).Failure? ==>
              exists i | 0 <= i < n :: WalkUpTo(p, v, n).error.index == Some(i) && !StandsAt(p, v, i)
                                       && forall j | 0 <= j < i :: StandsAt(p, v, j)
  {
    hide WalkStep, Stands, Advanced, Increasing, StartWalk;
    if n > 0 {
      WalkExactly(p, v, n - 1);
      var w := SaidBefore(p, v, n - 1);
      StepAdmitted(p, v, w, n - 1);
      assert StandsAt(p, v, n - 1) <==> WalkStep(p, v, w, n - 1).Success?;
      if WalkStep(p, v, w, n - 1).Success? {
        StepAdvances(p, v, w, n - 1);
      }
    }
  }
}
