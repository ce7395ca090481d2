/**
 Who a POST may certify and whom it may grant to: registrations speak for their own author only, and Grants name
 certified Members of the same User. Source: backend/app/sync/routes.py.
 */
module Certification {
  import opened Wrappers
  import opened ByteStrings
  import opened Payloads
  import opened OpLog
  import opened OpLogFacts
  import opened Serial
  import opened AuthorityProofs

  /** The registration an op carries: a genesis embeds its founder's. */
  function RegistrationOf(op: Op): Option<Registration> {
    match EffectOf(op)
    case Some(Founded(registration)) => Some(registration)
    case Some(Registered(registration)) => Some(registration)
    case _ => None
  }

  /** The op's type picks a signing domain, and under it Root's key accepts the certificate bytes. */
  predicate RootVouches(p: Post, rootPk: Bytes, op: Op)
    requires op.IsDecodedControl()
  {
    var payload := op.body.control.value;
    var domain := if payload.controlType == WorkspaceGenesis then SIGNING_DOMAIN_WORKSPACE_GENESIS_V1
                  else SIGNING_DOMAIN_MEMBER_REGISTER_V1;
    p.site.verify(domain + payload.certBytes, payload.signature, rootPk)
  }

  /** The op registers its own author, as that author's first op, with the key the author's token holds. */
  ghost predicate RegistersItself(p: Post, rootPk: Bytes, op: Op) {
    && RegistrationOf(op).Some? && op.IsDecodedControl()
    && var registration := RegistrationOf(op).value;
       && registration.keys.memberId == op.Author() && registration.keys.signPk == p.caller.signPk
       && registration.workspaceId == p.site.workspaceId
       && op.header.authorSeq == 1 && RootVouches(p, rootPk, op)
  }

  lemma StepRegisters(p: Post, v: View, w: Walk, i: nat)
    requires i < |p.ops| == |v.logs| && WalkStep(p, v, w, i).Success?
    ensures RegistrationOf(p.ops[i]).Some? ==> RegistersItself(p, v.rootPk, p.ops[i])
    ensures var registration := RegistrationOf(p.ops[i]);
            WalkStep(p, v, w, i).value.stagedKinds
            == if registration.Some?
               then w.stagedKinds[registration.value.keys.memberId := registration.value.keys.memberKind]
               else w.stagedKinds
  {
    hide RequireRole, RequireFreshKeyEpoch, VerifyPrune, VerifyGrant, VerifyRevoke, VerifyRotate;
  }

  lemma EffectMembers(t: Tables, op: Op, r: OpResult)
    requires EffectStep(t, op, r).Success?
    ensures var registration := RegistrationOf(op);
            EffectStep(t, op, r).value.members
            == if registration.Some? && !r.duplicate then Chain(t.members, registration.value) else t.members
  {
    hide EffectOf, Chain;
  }

  predicate IsChained(members: map<Uuid, MemberRow>, m: Uuid) {
    m in members && members[m].chained
  }

  /** A Member certified by a POST was certified by a new op of that very Member. */
  lemma {:induction false} NewlyChainedCertifyThemselves(db: Db, p: Post, results: seq<OpResult>, n: nat, m: Uuid)
    requires Served(db, p, results) && n <= |p.ops|
    requires IsChained(TablesAt(db, p, results, n).members, m) && !IsChained(db.members, m)
    ensures |results| == |p.ops| && m == p.caller.memberId
    ensures exists j | 0 <= j < n ::
              !results[j].duplicate && RegistersItself(p, RootPkOf(db.escrows, p.caller.userId), p.ops[j])
  {
    hide Served, TablesAt, WalkAt, WalkStep, EffectStep, RegistrationOf, RootVouches;
    ServedInOrder(db, p, results);
    hide InOrder;
    WalkStarts(db, p, results);
    if n > 0 {
      var i := n - 1;
      TablesAtStep(db, p, results, i);
      EffectMembers(TablesAt(db, p, results, i), p.ops[i], results[i]);
      if IsChained(TablesAt(db, p, results, i).members, m) {
        NewlyChainedCertifyThemselves(db, p, results, i, m);
      } else {
        ClassOf(db, p, results, i);
        hide Classed;
        WalkAtStep(db, p, results, i);
        StepRegisters(p, ViewOf(db, p), WalkAt(db, p, results, i), i);
      }
    }
  }

  /** The kind that the last new op of the batch registering the Member says it is, if one registers it. */
  function KindSaid(p: Post, results: seq<OpResult>, n: nat, m: Uuid): Option<string>
    requires n <= |p.ops| == |results|
  {
    if n == 0 then None
    else
      var registration := RegistrationOf(p.ops[n - 1]);
      if registration.Some? && registration.value.keys.memberId == m && !results[n - 1].duplicate then
        Some(registration.value.keys.memberKind)
      else KindSaid(p, results, n - 1, m)
  }

  /** A POST adds and removes no Member; it certifies exactly those its new ops register, as the last of them says. */
  lemma {:induction false} MembersExactly(db: Db, p: Post, results: seq<OpResult>, n: nat, m: Uuid)
    requires Served(db, p, results) && n <= |p.ops|
    ensures |results| == |p.ops|
    ensures m in TablesAt(db, p, results, n).members <==> m in db.members
    ensures m in db.members ==>
              var said := KindSaid(p, results, n, m);
              TablesAt(db, p, results, n).members[m]
              == if said.Some? then db.members[m].(chained := true, memberKind := said) else db.members[m]
  {
    hide Served, TablesAt, EffectStep, RegistrationOf;
    ServedInOrder(db, p, results);
    hide InOrder;
    WalkStarts(db, p, results);
    if n > 0 {
      MembersExactly(db, p, results, n - 1, m);
      TablesAtStep(db, p, results, n - 1);
      EffectMembers(TablesAt(db, p, results, n - 1), p.ops[n - 1], results[n - 1]);
    }
  }

  /** What the walk stages as a Member's kind is what an earlier op of the batch certifies. */
  ghost predicate Staged(p: Post, n: nat, m: Uuid, kind: string)
    requires n <= |p.ops|
  {
    exists j | 0 <= j < n :: RegistrationOf(p.ops[j]).Some? && RegistrationOf(p.ops[j]).value.keys.memberId == m
                             && RegistrationOf(p.ops[j]).value.keys.memberKind == kind
  }

  lemma {:induction false} StagedKindsAreCertified(db: Db, p: Post, results: seq<OpResult>, n: nat, m: Uuid)
    requires Served(db, p, results) && n <= |p.ops| && m in WalkAt(db, p, results, n).stagedKinds
    ensures Staged(p, n, m, WalkAt(db, p, results, n).stagedKinds[m])
  {
    hide Served, WalkAt, WalkStep, RegistrationOf, RegistersItself;
    if n == 0 {
      NoKindsStaged(db, p, results);
    } else {
      WalkAtStep(db, p, results, n - 1);
      StepRegisters(p, ViewOf(db, p), WalkAt(db, p, results, n - 1), n - 1);
      var registration := RegistrationOf(p.ops[n - 1]);
      if registration.None? || registration.value.keys.memberId != m {
        StagedKindsAreCertified(db, p, results, n - 1, m);
      }
    }
  }

  lemma NoKindsStaged(db: Db, p: Post, results: seq<OpResult>)
    requires Served(db, p, results)
    ensures WalkAt(db, p, results, 0).stagedKinds == map[]
  {
    hide Classed, InOrder, IsPosted;
  }

  /** The grantee is a Member of the caller's User, certified as some kind; in preferences, as a device. */
  ghost predicate GranteeIsCertified(db: Db, p: Post, j: nat, m: Uuid)
    requires j <= |p.ops|
  {
    && m in db.members && db.members[m].userId == p.caller.userId
    && exists kind: string ::
        && (Staged(p, j, m, kind)
          || (db.members[m].chained && db.members[m].memberKind.GetOr(MEMBER_KIND_DEVICE) == kind))
        && (p.caller.userId in p.site.preferencesOf ==> kind == MEMBER_KIND_DEVICE)
  }

  lemma StepGrantee(p: Post, v: View, w: Walk, i: nat)
    requires i < |p.ops| == |v.logs| && WalkStep(p, v, w, i).Success? && p.ops[i].IsGrant()
    ensures var m := p.ops[i].GrantOf().memberId;
            && m in v.members && v.members[m].userId == p.caller.userId && GranteeKind(v, w, m).Some?
            && (p.caller.userId in p.site.preferencesOf ==> GranteeKind(v, w, m).value == MEMBER_KIND_DEVICE)
  {
    hide RequireRole, RequireFreshKeyEpoch, VerifyPrune, VerifyGenesis, VerifyMemberRegister, VerifyRevoke,
      VerifyRotate, AuthorityPublicKey;
  }

  /** Every Grant row a POST adds names a certified Member of the same User, and in preferences never a service. */
  lemma NewGrantsNameCertifiedMembers(db: Db, p: Post, results: seq<OpResult>, g: Uuid) returns (j: nat)
    requires Served(db, p, results)
    requires g in TablesAt(db, p, results, |p.ops|).grants && g !in db.grants
    ensures j < |p.ops| && p.ops[j].IsGrant() && p.ops[j].GrantOf().grantId == g
    ensures GranteeIsCertified(db, p, j, TablesAt(db, p, results, |p.ops|).grants[g].memberId)
  {
    hide Served, TablesAt, WalkAt, WalkStep, Staged;
    j := MintingOp(db, p, results, g);
    var m := p.ops[j].GrantOf().memberId;
    var v, w := ViewOf(db, p), WalkAt(db, p, results, j);
    WalkAtStep(db, p, results, j);
    StepGrantee(p, v, w, j);
    if m in w.stagedKinds {
      StagedKindsAreCertified(db, p, results, j, m);
    }
    assert Staged(p, j, m, GranteeKind(v, w, m).value)
        || (db.members[m].chained && db.members[m].memberKind.GetOr(MEMBER_KIND_DEVICE) == GranteeKind(v, w, m).value);
  }
}
