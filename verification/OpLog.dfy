/**
 The op-log server's tables, and what one `POST /ops` does to them: the ordered verification walk, the append
 plan, and the materialisation of control and prune ops. Source: backend/app/sync/routes.py and models.py.

 One Workspace is modelled. Every statement of the source filters on `workspace_id`, so the rows of two
 Workspaces never meet. Everything here is a function of explicit tables: the `Server` module runs the same
 steps over mutable fields, and `Interleaving` runs them over tables read at different moments.
 */
module OpLog {
  import opened Wrappers
  import opened ByteStrings
  import opened Envelope
  import opened Payloads

  // --- Ops and tables ---

  /** A body after parsing; a control body's certificate is read from the byte string in its payload. */
  datatype OpBody =
    | Sealed
    | ControlBody(control: Result<ControlPayload, Code>, certificate: Result<Certificate, Code>)
    | PruneBody(prune: Result<PrunePayload, Code>)

  type Key = (Uuid, Uuid)

  datatype Op = Op(envelope: Bytes, hash: Bytes, header: OpHeader, body: OpBody) {
    function Author(): Uuid { header.authorMemberId }

    /** Op ids are namespaced by author. */
    function Key(): Key { (header.authorMemberId, header.opId) }

    predicate IsControl() { header.opClass == OP_CLASS_CONTROL }

    predicate IsPrune() { header.opClass == OP_CLASS_PRUNE }

    predicate IsDecodedControl() { IsControl() && body.ControlBody? && body.control.Success? }

    predicate IsDecodedPrune() { IsPrune() && body.PruneBody? && body.prune.Success? }

    /** Whether the payload claims Root for its signer. */
    predicate IsRootSigned() { IsDecodedControl() && body.control.value.IsRootSigned() }

    predicate Is(controlType: ControlType) { IsDecodedControl() && body.control.value.controlType == controlType }

    /** A grant op with a readable certificate. */
    predicate IsGrant() { Is(Grant) && body.certificate.Success? && body.certificate.value.Grants? }

    predicate IsRevoke() { Is(Revoke) && body.certificate.Success? && body.certificate.value.Revokes? }

    predicate IsRotate() { Is(Rotate) && body.control.value.rotate.Some? }

    function GrantOf(): GrantCertificate requires IsGrant() { body.certificate.value.grant }

    function RevokeOf(): RevokeCertificate requires IsRevoke() { body.certificate.value.revoke }

    function RotateOf(): RotateStatement requires IsRotate() { body.control.value.rotate.value }

    function TargetsOf(): seq<PruneTarget> requires IsDecodedPrune() { body.prune.value.targets }
  }

  /** What the decoders promise about every op they hand over; proved of them in `Intake`. */
  ghost predicate WellDecoded(op: Op) {
    && (op.IsDecodedPrune() ==> PruneShape(op.TargetsOf()))
    && (op.IsRotate() ==> op.RotateOf().toEpoch == op.RotateOf().fromEpoch + 1)
    && (op.Is(Rotate) ==> op.body.control.value.authority == NoAuthority)
  }

  datatype OpRow = OpRow(seqNo: nat, op: Op, compactedBy: Option<nat>)

  datatype GrantRow = GrantRow(
    memberId: Uuid, role: Role, granter: Authority, grantedSeq: nat, revokedBySeq: Option<nat>)

  datatype EpochRow = EpochRow(keywrapDigest: Bytes, escrowWrap: Bytes, rotateSeq: Option<nat>)

  datatype WrapRow = WrapRow(kexKeyId: Bytes, wrap: Bytes)

  datatype MemberRow = MemberRow(
    userId: string, signPk: Bytes, kexPk: Option<Bytes>, memberKind: Option<string>, chained: bool)

  datatype EscrowRow = EscrowRow(version: nat, blob: Bytes, rootSig: Bytes, rootPk: Bytes)

  datatype Db = Db(
    ops: seq<OpRow>,
    genesisSeq: Option<nat>,
    grants: map<Uuid, GrantRow>,
    epochs: map<nat, EpochRow>,
    wraps: map<(Uuid, nat), WrapRow>,
    members: map<Uuid, MemberRow>,
    escrows: map<string, EscrowRow>)

  /** The Workspace being served and its primitives: `verify(input, signature, publicKey)` and SHA-256. */
  datatype Site = Site(
    workspaceId: Uuid,
    derivedBy: set<string>,
    preferencesOf: set<string>,
    verify: (Bytes, Bytes, Bytes) -> bool,
    sha256: Bytes -> Bytes)

  /** The Member a transport token resolved to. */
  datatype Caller = Caller(memberId: Uuid, userId: string, signPk: Bytes)

  const MEMBER_KIND_DEVICE := "device"
  const MAX_OPS_PER_BATCH := 1000

  // --- The grant index ---

  datatype GrantState = GrantState(memberId: Uuid, role: Role, revoked: bool)

  type GrantStates = map<Uuid, GrantState>

  /** The `grants` rows as the walk sees them. */
  function IndexOf(rows: map<Uuid, GrantRow>): GrantStates {
    map g | g in rows :: GrantState(rows[g].memberId, rows[g].role, rows[g].revokedBySeq.Some?)
  }

  predicate IsLive(states: GrantStates, g: Uuid) {
    g in states && !states[g].revoked
  }

  function LiveRoles(states: GrantStates, member: Uuid): set<Role> {
    set g | g in states && states[g].memberId == member && !states[g].revoked :: states[g].role
  }

  predicate HasAnyGrant(states: GrantStates, member: Uuid) {
    exists g | g in states :: states[g].memberId == member
  }

  /** A Member that was granted something once and has nothing live left. */
  predicate IsRevokedMember(states: GrantStates, member: Uuid) {
    HasAnyGrant(states, member) && LiveRoles(states, member) == {}
  }

  /** Which roles may author an op of a class. */
  function RequireRole(states: GrantStates, member: Uuid, opClass: byte): Option<Code> {
    var roles := LiveRoles(states, member);
    if roles == {} then Some(NoLiveGrant(HasAnyGrant(states, member)))
    else if roles * RoleOpClassMatrix(opClass) == {} then Some(RoleForbidsOpClass)
    else None
  }

  // --- Key epochs ---

  /** The largest epoch with a row, if any epoch has one. */
  function CurrentKeyEpoch(epochs: set<nat>): (current: Option<nat>)
    ensures current.None? <==> epochs == {}
    ensures current.Some? ==> current.value in epochs && forall e | e in epochs :: e <= current.value
  {
    if epochs == {} then None
    else
      LargestExists(epochs);
      var e :| e in epochs && forall other | other in epochs :: other <= e;
      Some(e)
  }

  lemma {:induction false} LargestExists(s: set<nat>)
    requires s != {}
    ensures exists e | e in s :: forall other | other in s :: other <= e
  {
    var x :| x in s;
    var rest := s - {x};
    if rest == {} {
      assert s == {x};
    } else {
      LargestExists(rest);
      var e :| e in rest && forall other | other in rest :: other <= e;
      var top := if e < x then x else e;
      forall other | other in s
        ensures other <= top
      {
        assert other in rest || other == x;
      }
      assert top in s;
    }
  }

  /** The window is the current epoch and its predecessor; before the first key it is everything. */
  function RequireFreshKeyEpoch(keyEpoch: nat, current: Option<nat>): Option<Code> {
    if current.None? then None
    else if keyEpoch < current.value - 1 then Some(KeyEpochStale(current.value))
    else if keyEpoch > current.value then Some(KeyEpochUnknown(current.value))
    else None
  }

  // --- The walk ---

  datatype ControlEffect =
    | Founded(registration: Registration)
    | Registered(registration: Registration)
    | Granted(grant: GrantCertificate)
    | Revoked(revoke: RevokeCertificate)
    | Rotated(rotate: RotateStatement)

  datatype ControlAdmission = ControlAdmission(index: nat, effect: ControlEffect)

  datatype PruneAdmission = PruneAdmission(index: nat, targets: seq<PruneTarget>, isReplay: bool)

  /** A POST past the parsing loop: who posts, and the parsed ops. */
  datatype Post = Post(site: Site, caller: Caller, ops: seq<Op>)

  /** What the walk's queries returned. `logs[i]` is the op table as the i-th op's own lookups saw it. */
  datatype View = View(
    grants: map<Uuid, GrantRow>,
    founded: bool,
    epoch: Option<nat>,
    replayed: set<Uuid>,
    rootPk: Bytes,
    members: map<Uuid, MemberRow>,
    logs: seq<seq<OpRow>>)

  /** The walk's running state. */
  datatype Walk = Walk(
    grants: GrantStates,
    founded: bool,
    epoch: Option<nat>,
    stagedKinds: map<Uuid, string>,
    stagedCompactions: set<Uuid>,
    claimedSeqs: set<nat>,
    control: seq<ControlAdmission>,
    prunes: seq<PruneAdmission>)

  function StartWalk(v: View): Walk {
    Walk(IndexOf(v.grants), v.founded, v.epoch, map[], {}, {}, [], [])
  }

  /** The row at a transport seq. */
  function RowAt(rows: seq<OpRow>, seqNo: nat): (row: Option<OpRow>)
    ensures row.Some? ==> row.value in rows && row.value.seqNo == seqNo
    ensures row.None? ==> forall r | r in rows :: r.seqNo != seqNo
  {
    if rows == [] then None
    else if rows[|rows| - 1].seqNo == seqNo then Some(rows[|rows| - 1])
    else RowAt(rows[..|rows| - 1], seqNo)
  }

  function CheckTarget(rows: seq<OpRow>, compactionOpId: Uuid, claimed: set<nat>, isReplay: bool, t: PruneTarget)
    : Option<Code>
  {
    match RowAt(rows, t.seqNo)
    case None => Some(PruneTargetNotFound(t.seqNo))
    case Some(row) =>
      if row.op.header.opClass in COMPACTION_EXEMPT_OP_CLASSES then
        Some(if row.op.IsControl() then PruneTargetIsControl(t.seqNo) else PruneTargetIsPrune(t.seqNo))
      else if row.op.Author() != t.authorMemberId || row.op.header.authorSeq != t.authorSeq
              || row.op.hash != t.envelopeHash then
        Some(PruneTargetAttestationMismatch(t.seqNo))
      else if row.compactedBy.Some? && !isReplay then Some(PruneTargetAlreadyCompacted(Some(t.seqNo)))
      else if t.seqNo in claimed && !isReplay then Some(PruneTargetAlreadyCompacted(Some(t.seqNo)))
      else if row.op.header.opId == compactionOpId then Some(PruneTargetIsItsOwnCompaction(t.seqNo))
      else None
  }

  /** The first target refused among the first `n`. */
  function CheckTargets(
    rows: seq<OpRow>, compactionOpId: Uuid, claimed: set<nat>, isReplay: bool, targets: seq<PruneTarget>, n: nat)
    : (refused: Option<Code>)
    requires n <= |targets|
    ensures refused.None? ==>
              forall i | 0 <= i < n :: CheckTarget(rows, compactionOpId, claimed, isReplay, targets[i]).None?
  {
    if n == 0 then None
    else
      var earlier := CheckTargets(rows, compactionOpId, claimed, isReplay, targets, n - 1);
      if earlier.Some? then earlier
      else CheckTarget(rows, compactionOpId, claimed, isReplay, targets[n - 1])
  }

  predicate StoredCompaction(rows: seq<OpRow>, author: Uuid, opId: Uuid) {
    exists r | r in rows ::
      r.op.Author() == author && r.op.header.opId == opId && r.op.header.opClass == OP_CLASS_COMPACTION
  }

  function VerifyPrune(op: Op, rows: seq<OpRow>, staged: set<Uuid>, claimed: set<nat>, isReplay: bool)
    : Result<seq<PruneTarget>, Code>
  {
    if !op.body.PruneBody? then Failure(MalformedPrunePayload)
    else
      var payload :- op.body.prune;
      if payload.compactionOpId !in staged && !StoredCompaction(rows, op.Author(), payload.compactionOpId) then
        Failure(PruneCompactionNotFound)
      else
        match CheckTargets(rows, payload.compactionOpId, claimed, isReplay, payload.targets, |payload.targets|)
        case Some(code) => Failure(code)
        case None => Success(payload.targets)
  }

  function TargetSeqs(targets: seq<PruneTarget>): set<nat> {
    set t | t in targets :: t.seqNo
  }

  function ContentStep(p: Post, v: View, w: Walk, i: nat): Result<Walk, Code>
    requires i < |p.ops| == |v.logs|
  {
    var op := p.ops[i];
    if !w.founded then Failure(WorkspaceNotCreated)
    else match RequireRole(w.grants, p.caller.memberId, op.header.opClass)
    case Some(code) => Failure(code)
    case None =>
      match RequireFreshKeyEpoch(op.header.keyEpoch, w.epoch)
      case Some(code) => Failure(code)
      case None =>
        if op.header.opClass == OP_CLASS_COMPACTION then
          Success(w.(stagedCompactions := w.stagedCompactions + {op.header.opId}))
        else if op.header.opClass == OP_CLASS_PRUNE then
          var isReplay := op.header.opId in v.replayed;
          var targets :- VerifyPrune(op, v.logs[i], w.stagedCompactions, w.claimedSeqs, isReplay);
          Success(w.(claimedSeqs := w.claimedSeqs + TargetSeqs(targets),
                     prunes := w.prunes + [PruneAdmission(i, targets, isReplay)]))
        else Success(w)
  }

  function VerifyGenesis(p: Post, v: View, founded: bool, op: Op, i: nat): Result<GenesisCertificate, Code>
    requires op.IsDecodedControl()
  {
    var payload := op.body.control.value;
    if i != 0 || founded then Failure(GenesisNotFirst)
    else if p.caller.userId !in p.site.derivedBy then Failure(WorkspaceNotDerivable)
    else if op.header.authorSeq != 1 then Failure(MemberRegisterNotFirst)
    else if payload.prevControlHash != Zeros(32) then Failure(ControlChainBreak)
    else if !p.site.verify(SIGNING_DOMAIN_WORKSPACE_GENESIS_V1 + payload.certBytes, payload.signature, v.rootPk) then
      Failure(BadRootSignature)
    else
      var certificate :- op.body.certificate;
      if !certificate.Founds? then Failure(MalformedControlPayload)
      else
        var genesis := certificate.genesis;
        if genesis.workspaceId != p.site.workspaceId then Failure(CertWorkspaceMismatch)
        else if genesis.rootPk != v.rootPk then Failure(CertRootPkMismatch)
        else if genesis.founder.memberId != op.Author() then Failure(CertMemberMismatch)
        else if genesis.founder.signPk != p.caller.signPk then Failure(CertKeyMismatch)
        else Success(genesis)
  }

  function VerifyMemberRegister(p: Post, v: View, op: Op): Result<Registration, Code>
    requires op.IsDecodedControl()
  {
    var payload := op.body.control.value;
    if op.header.authorSeq != 1 then Failure(MemberRegisterNotFirst)
    else if !p.site.verify(SIGNING_DOMAIN_MEMBER_REGISTER_V1 + payload.certBytes, payload.signature, v.rootPk) then
      Failure(BadRootSignature)
    else
      var certificate :- op.body.certificate;
      if !certificate.Registers? then Failure(MalformedControlPayload)
      else
        var registration := certificate.registration;
        if registration.workspaceId != p.site.workspaceId then Failure(CertWorkspaceMismatch)
        else if registration.keys.memberId != op.Author() then Failure(CertMemberMismatch)
        else if registration.keys.signPk != p.caller.signPk then Failure(CertKeyMismatch)
        else Success(registration)
  }

  /** The key a signature is checked under: Root's, or that of the op's own author, who has to be the one named. */
  function AuthorityPublicKey(p: Post, v: View, op: Op, authority: Authority): Result<Bytes, Code> {
    if authority == Root then Success(v.rootPk)
    else if authority != Member(op.Author()) then Failure(CertGranterMismatch)
    else Success(p.caller.signPk)
  }

  /** The kind a grantee is certified as, in this batch or in the registry. */
  function GranteeKind(v: View, w: Walk, member: Uuid): Option<string>
    requires member in v.members
  {
    if member in w.stagedKinds then Some(w.stagedKinds[member])
    else if v.members[member].chained then Some(v.members[member].memberKind.GetOr(MEMBER_KIND_DEVICE))
    else None
  }

  function VerifyGrant(p: Post, v: View, w: Walk, op: Op): Result<GrantCertificate, Code>
    requires op.IsDecodedControl()
  {
    var payload := op.body.control.value;
    var certificate :- op.body.certificate;
    if !certificate.Grants? then Failure(MalformedControlPayload)
    else
      var grant := certificate.grant;
      if grant.workspaceId != p.site.workspaceId then Failure(CertWorkspaceMismatch)
      else if grant.granter != payload.authority then Failure(CertGranterMismatch)
      else
        var granterPk :- AuthorityPublicKey(p, v, op, payload.authority);
        if !p.site.verify(SIGNING_DOMAIN_GRANT_V1 + payload.certBytes, payload.signature, granterPk) then
          Failure(BadGrantSignature)
        else if grant.role == Owner && payload.authority != Root then Failure(OwnerGrantRequiresRoot)
        else if grant.memberId !in v.members || v.members[grant.memberId].userId != p.caller.userId then
          Failure(UnknownGrantee)
        else
          var kind := GranteeKind(v, w, grant.memberId);
          if kind.None? then Failure(UnknownGrantee)
          else if p.caller.userId in p.site.preferencesOf && kind.value != MEMBER_KIND_DEVICE then
            Failure(ServiceGrantForbidden)
          else if op.header.opId !in v.replayed && grant.grantId in w.grants then Failure(GrantIdAlreadyUsed)
          else Success(grant)
  }

  function VerifyRevoke(p: Post, v: View, w: Walk, op: Op): Result<RevokeCertificate, Code>
    requires op.IsDecodedControl()
  {
    var payload := op.body.control.value;
    var certificate :- op.body.certificate;
    if !certificate.Revokes? then Failure(MalformedControlPayload)
    else
      var revoke := certificate.revoke;
      if revoke.workspaceId != p.site.workspaceId then Failure(CertWorkspaceMismatch)
      else if revoke.revoker != payload.authority then Failure(CertGranterMismatch)
      else
        var revokerPk :- AuthorityPublicKey(p, v, op, payload.authority);
        if !p.site.verify(SIGNING_DOMAIN_REVOKE_V1 + payload.certBytes, payload.signature, revokerPk) then
          Failure(BadRevokeSignature)
        else if revoke.grantId !in w.grants then Failure(UnknownGrant)
        else if w.grants[revoke.grantId].revoked && op.header.opId !in v.replayed then Failure(AlreadyRevoked)
        else if w.grants[revoke.grantId].role == Owner && payload.authority != Root then
          Failure(OwnerRevokeRequiresRoot)
        else Success(revoke)
  }

  function VerifyRotate(p: Post, current: Option<nat>, op: Op): Result<RotateStatement, Code>
    requires op.IsDecodedControl()
  {
    if op.body.control.value.rotate.None? then Failure(MalformedControlPayload)
    else
      var rotate := op.body.control.value.rotate.value;
      if rotate.workspaceId != p.site.workspaceId then Failure(CertWorkspaceMismatch)
      else
        var expectedFrom := current.GetOr(0);
        if rotate.fromEpoch != expectedFrom then Failure(RotateEpochConflict(expectedFrom))
        else Success(rotate)
  }

  function Admit(w: Walk, i: nat, effect: ControlEffect): Walk {
    w.(control := w.control + [ControlAdmission(i, effect)])
  }

  /** A control op that is not a genesis, past the role check. */
  function MemberControlStep(p: Post, v: View, w: Walk, i: nat): Result<Walk, Code>
    requires i < |p.ops|
    requires p.ops[i].IsDecodedControl()
  {
    var op := p.ops[i];
    match op.body.control.value.controlType
    case MemberRegister =>
      var registration :- VerifyMemberRegister(p, v, op);
      var keys := registration.keys;
      Success(Admit(w.(stagedKinds := w.stagedKinds[keys.memberId := keys.memberKind]), i, Registered(registration)))
    case Grant =>
      var grant :- VerifyGrant(p, v, w, op);
      var state := GrantState(grant.memberId, grant.role, false);
      Success(Admit(w.(grants := w.grants[grant.grantId := state]), i, Granted(grant)))
    case Revoke =>
      var revoke :- VerifyRevoke(p, v, w, op);
      var state := w.grants[revoke.grantId].(revoked := true);
      Success(Admit(w.(grants := w.grants[revoke.grantId := state]), i, Revoked(revoke)))
    case Rotate =>
      var rotate :- VerifyRotate(p, w.epoch, op);
      Success(Admit(w.(epoch := Some(rotate.toEpoch)), i, Rotated(rotate)))
    case _ => Failure(UnsupportedControlType)
  }

  function ControlStep(p: Post, v: View, w: Walk, i: nat): Result<Walk, Code>
    requires i < |p.ops|
    requires p.ops[i].IsControl()
  {
    var op := p.ops[i];
    if !op.body.ControlBody? then Failure(MalformedControlPayload)
    else if op.body.control.Failure? then Failure(op.body.control.error)
    else
      var payload := op.body.control.value;
      if payload.controlType.Unserved? then Failure(UnsupportedControlType)
      else if !payload.ChainLinkShapeOk() then Failure(ControlChainBreak)
      else if payload.controlType == WorkspaceGenesis then
        var genesis :- VerifyGenesis(p, v, w.founded, op, i);
        var founder := genesis.founder;
        Success(Admit(w.(founded := true, stagedKinds := w.stagedKinds[founder.memberId := founder.memberKind]),
                      i, Founded(genesis.AsRegistration())))
      else if !w.founded then Failure(WorkspaceNotCreated)
      else
        var refused := if payload.IsRootSigned() then None
                       else RequireRole(w.grants, p.caller.memberId, OP_CLASS_CONTROL);
        if refused.Some? then Failure(refused.value)
        else MemberControlStep(p, v, w, i)
  }

  function WalkStep(p: Post, v: View, w: Walk, i: nat): Result<Walk, Code>
    requires i < |p.ops| == |v.logs|
  {
    if p.ops[i].IsControl() then ControlStep(p, v, w, i) else ContentStep(p, v, w, i)
  }

  /** The walk over the first `n` ops: refused at the first op refused. */
  function WalkUpTo(p: Post, v: View, n: nat): Result<Walk, Refusal>
    requires n <= |p.ops| == |v.logs|
  {
    if n == 0 then Success(StartWalk(v))
    else
      var w :- WalkUpTo(p, v, n - 1);
      match WalkStep(p, v, w, n - 1)
      case Success(w') => Success(w')
      case Failure(code) => Failure(Refusal(code, Some(n - 1)))
  }

  lemma {:induction false} WalkPrefix(p: Post, v: View, n: nat, m: nat)
    requires n <= m <= |p.ops| == |v.logs|
    requires WalkUpTo(p, v, m).Success?
    ensures WalkUpTo(p, v, n).Success?
    decreases m
  {
    hide WalkStep;
    if n < m {
      WalkPrefix(p, v, n, m - 1);
    }
  }

  /** A refusal stands, whatever follows the refused op. */
  lemma {:induction false} WalkFails(p: Post, v: View, n: nat, m: nat)
    requires n <= m <= |p.ops| == |v.logs|
    requires WalkUpTo(p, v, n).Failure?
    ensures WalkUpTo(p, v, m) == WalkUpTo(p, v, n)
    decreases m
  {
    hide WalkStep;
    if n < m {
      WalkFails(p, v, n, m - 1);
    }
  }

  // --- The append ---

  /** Where a result's seq comes from: a stored row, or the k-th op this request stages. */
  datatype Source = Stored(seqNo: nat) | Staged(k: nat)

  datatype Entry = Entry(opId: Uuid, source: Source, duplicate: bool)

  /** `freshAt[k]` is the batch index of the k-th op to insert. */
  datatype Plan = Plan(entries: seq<Entry>, staged: map<Key, nat>, freshAt: seq<nat>, heads: map<Uuid, nat>)

  datatype OpResult = OpResult(opId: Uuid, seqNo: nat, duplicate: bool)

  function OpIds(ops: seq<Op>): set<Uuid> {
    set op | op in ops :: op.header.opId
  }

  function Authors(ops: seq<Op>): set<Uuid> {
    set op | op in ops :: op.Author()
  }

  /** Stored seqs by `(author, op_id)`, for the op ids of a batch. */
  function ExistingSeqs(rows: seq<OpRow>, opIds: set<Uuid>): map<Key, nat> {
    if rows == [] then map[]
    else
      var earlier := ExistingSeqs(rows[..|rows| - 1], opIds);
      var row := rows[|rows| - 1];
      if row.op.header.opId in opIds then earlier[row.op.Key() := row.seqNo] else earlier
  }

  /** `MAX(author_seq)` by author. */
  function Heads(rows: seq<OpRow>, authors: set<Uuid>): map<Uuid, nat> {
    if rows == [] then map[]
    else
      var earlier := Heads(rows[..|rows| - 1], authors);
      var op := rows[|rows| - 1].op;
      if op.Author() in authors && HeadOf(earlier, op.Author()) < op.header.authorSeq then
        earlier[op.Author() := op.header.authorSeq]
      else earlier
  }

  function HeadOf(heads: map<Uuid, nat>, author: Uuid): nat {
    if author in heads then heads[author] else 0
  }

  function PlanStep(existing: map<Key, nat>, plan: Plan, op: Op, i: nat): Result<Plan, Code> {
    var key := op.Key();
    if key in existing then
      Success(plan.(entries := plan.entries + [Entry(op.header.opId, Stored(existing[key]), true)]))
    else if key in plan.staged then
      Success(plan.(entries := plan.entries + [Entry(op.header.opId, Staged(plan.staged[key]), true)]))
    else
      var expected := HeadOf(plan.heads, op.Author()) + 1;
      if op.header.authorSeq != expected then Failure(AuthorChainConflict(Some(expected)))
      else
        var k := |plan.freshAt|;
        Success(Plan(plan.entries + [Entry(op.header.opId, Staged(k), false)],
                     plan.staged[key := k], plan.freshAt + [i], plan.heads[op.Author() := op.header.authorSeq]))
  }

  function PlanUpTo(existing: map<Key, nat>, heads: map<Uuid, nat>, ops: seq<Op>, n: nat): Result<Plan, Refusal>
    requires n <= |ops|
  {
    if n == 0 then Success(Plan([], map[], [], heads))
    else
      var plan :- PlanUpTo(existing, heads, ops, n - 1);
      match PlanStep(existing, plan, ops[n - 1], n - 1)
      case Success(plan') => Success(plan')
      case Failure(code) => Failure(Refusal(code, Some(n - 1)))
  }

  lemma PlanStarts(existing: map<Key, nat>, heads: map<Uuid, nat>, ops: seq<Op>)
    ensures PlanUpTo(existing, heads, ops, 0) == Success(Plan([], map[], [], heads))
  {
  }

  lemma PlanNext(existing: map<Key, nat>, heads: map<Uuid, nat>, ops: seq<Op>, n: nat, plan: Plan)
    requires n < |ops| && PlanUpTo(existing, heads, ops, n) == Success(plan)
    ensures PlanUpTo(existing, heads, ops, n + 1)
         == match PlanStep(existing, plan, ops[n], n)
            case Success(plan') => Success(plan')
            case Failure(code) => Failure(Refusal(code, Some(n)))
  {
    hide PlanStep;
  }

  lemma {:induction false} PlanFails(existing: map<Key, nat>, heads: map<Uuid, nat>, ops: seq<Op>, n: nat, m: nat)
    requires n <= m <= |ops|
    requires PlanUpTo(existing, heads, ops, n).Failure?
    ensures PlanUpTo(existing, heads, ops, m) == PlanUpTo(existing, heads, ops, n)
    decreases m
  {
    hide PlanStep;
    if n < m {
      PlanFails(existing, heads, ops, n, m - 1);
    }
  }

  /** The largest transport seq stored; seqs start at 1. */
  function Top(rows: seq<OpRow>): nat {
    if rows == [] then 0 else rows[|rows| - 1].seqNo
  }

  /** Transport seqs are fresh and increasing in batch order; gaps are allowed. */
  ghost predicate FreshSeqs(rows: seq<OpRow>, seqs: seq<nat>) {
    && (forall k | 0 <= k < |seqs| :: Top(rows) < seqs[k])
    && (forall k, l | 0 <= k < l < |seqs| :: seqs[k] < seqs[l])
  }

  /** The rows a plan inserts, under the seqs the database assigns them. */
  function NewRows(ops: seq<Op>, freshAt: seq<nat>, seqs: seq<nat>): (rows: seq<OpRow>)
    requires |freshAt| <= |seqs|
    requires forall k | 0 <= k < |freshAt| :: freshAt[k] < |ops|
    ensures |rows| == |freshAt|
  {
    seq(|freshAt|, k requires 0 <= k < |freshAt| => OpRow(seqs[k], ops[freshAt[k]], None))
  }

  /** Either uniqueness constraint of the `ops` table. */
  predicate Collide(a: Op, b: Op) {
    a.Author() == b.Author() && (a.header.opId == b.header.opId || a.header.authorSeq == b.header.authorSeq)
  }

  predicate AnyCollision(stored: seq<OpRow>, rows: seq<OpRow>) {
    exists i, j | 0 <= i < |stored| && 0 <= j < |rows| :: Collide(stored[i].op, rows[j].op)
  }

  function ResultOf(entry: Entry, seqs: seq<nat>): OpResult
    requires entry.source.Staged? ==> entry.source.k < |seqs|
  {
    OpResult(entry.opId, if entry.source.Stored? then entry.source.seqNo else seqs[entry.source.k], entry.duplicate)
  }

  function ResultsOf(entries: seq<Entry>, seqs: seq<nat>): (results: seq<OpResult>)
    requires forall e | e in entries :: e.source.Staged? ==> e.source.k < |seqs|
    ensures |results| == |entries|
  {
    seq(|entries|, i requires 0 <= i < |entries| => ResultOf(entries[i], seqs))
  }

  // --- Materialisation ---

  /** The rows control ops write. */
  datatype Tables = Tables(
    genesisSeq: Option<nat>, grants: map<Uuid, GrantRow>, epochs: map<nat, EpochRow>, members: map<Uuid, MemberRow>)

  function Chain(members: map<Uuid, MemberRow>, registration: Registration): map<Uuid, MemberRow> {
    var id := registration.keys.memberId;
    if id in members then members[id := members[id].(chained := true, memberKind := Some(registration.keys.memberKind))]
    else members
  }

  /** One control op's effect at its seq. A primary key already taken fails the whole transaction. */
  function MaterialiseStep(t: Tables, effect: ControlEffect, r: OpResult): Result<Tables, Code> {
    if r.duplicate then Success(t)
    else match effect
    case Founded(registration) =>
      if t.genesisSeq.Some? then Failure(ServerError)
      else Success(t.(genesisSeq := Some(r.seqNo), members := Chain(t.members, registration)))
    case Registered(registration) => Success(t.(members := Chain(t.members, registration)))
    case Granted(g) =>
      if g.grantId in t.grants then Failure(ServerError)
      else Success(t.(grants := t.grants[g.grantId := GrantRow(g.memberId, g.role, g.granter, r.seqNo, None)]))
    case Rotated(rotate) =>
      if rotate.toEpoch in t.epochs then Failure(ServerError)
      else Success(t.(epochs := t.epochs[rotate.toEpoch := EpochRow(rotate.keywrapDigest, [], Some(r.seqNo))]))
    case Revoked(revoke) =>
      var g := revoke.grantId;
      if g !in t.grants || t.grants[g].revokedBySeq.Some? then Success(t)
      else Success(t.(grants := t.grants[g := t.grants[g].(revokedBySeq := Some(r.seqNo))]))
  }

  predicate IndexesWithin(admissions: seq<ControlAdmission>, n: nat) {
    forall a | a in admissions :: a.index < n
  }

  function MaterialiseUpTo(t: Tables, admissions: seq<ControlAdmission>, results: seq<OpResult>, n: nat)
    : Result<Tables, Code>
    requires n <= |admissions|
    requires IndexesWithin(admissions, |results|)
  {
    if n == 0 then Success(t)
    else
      var t' :- MaterialiseUpTo(t, admissions, results, n - 1);
      MaterialiseStep(t', admissions[n - 1].effect, results[admissions[n - 1].index])
  }

  /** `UPDATE ops SET compacted_by = :prune_seq WHERE seq IN seqs AND compacted_by IS NULL`. */
  function Stamp(rows: seq<OpRow>, seqs: set<nat>, pruneSeq: nat): (stamped: seq<OpRow>)
    ensures |stamped| == |rows|
  {
    seq(|rows|, i requires 0 <= i < |rows| =>
      if rows[i].seqNo in seqs && rows[i].compactedBy.None? then rows[i].(compactedBy := Some(pruneSeq)) else rows[i])
  }

  /** The rowcount of that statement. */
  function Stampable(rows: seq<OpRow>, seqs: set<nat>): nat {
    if rows == [] then 0
    else
      var row := rows[|rows| - 1];
      Stampable(rows[..|rows| - 1], seqs) + if row.seqNo in seqs && row.compactedBy.None? then 1 else 0
  }

  function StampStep(rows: seq<OpRow>, a: PruneAdmission, r: OpResult): Result<seq<OpRow>, Refusal> {
    if r.duplicate then Success(rows)
    else if Stampable(rows, TargetSeqs(a.targets)) != |a.targets| then
      Failure(Refusal(PruneTargetAlreadyCompacted(None), Some(a.index)))
    else Success(Stamp(rows, TargetSeqs(a.targets), r.seqNo))
  }

  function StampUpTo(rows: seq<OpRow>, prunes: seq<PruneAdmission>, results: seq<OpResult>, n: nat)
    : Result<seq<OpRow>, Refusal>
    requires n <= |prunes|
    requires forall a | a in prunes :: a.index < |results|
  {
    if n == 0 then Success(rows)
    else
      var rows' :- StampUpTo(rows, prunes, results, n - 1);
      StampStep(rows', prunes[n - 1], results[prunes[n - 1].index])
  }

  // --- One POST past its walk ---

  datatype Outcome =
    | Answered(results: seq<OpResult>, db: Db)
    | Refused(refusal: Refusal)
    | Raced

  function TablesOf(db: Db): Tables {
    Tables(db.genesisSeq, db.grants, db.epochs, db.members)
  }

  function WithTables(db: Db, ops: seq<OpRow>, t: Tables): Db {
    db.(ops := ops, genesisSeq := t.genesisSeq, grants := t.grants, epochs := t.epochs, members := t.members)
  }

  ghost predicate AdmissionsWithin(w: Walk, n: nat) {
    IndexesWithin(w.control, n) && forall a | a in w.prunes :: a.index < n
  }

  ghost predicate PlanWithin(plan: Plan, ops: seq<Op>) {
    && |plan.entries| == |ops|
    && |plan.freshAt| <= |ops|
    && (forall k | 0 <= k < |plan.freshAt| :: plan.freshAt[k] < |ops|)
    && (forall e | e in plan.entries :: e.source.Staged? ==> e.source.k < |plan.freshAt|)
  }

  /** The batch index of the genesis a batch carries. */
  function GenesisIndex(admissions: seq<ControlAdmission>): Option<nat> {
    if admissions == [] then None
    else if admissions[0].effect.Founded? then Some(admissions[0].index)
    else GenesisIndex(admissions[1..])
  }

  /** How a transaction that lost a primary key is answered, from re-read committed state. */
  function CommitConflict(db: Db, admissions: seq<ControlAdmission>): Refusal {
    var genesis := GenesisIndex(admissions);
    if genesis.Some? && db.genesisSeq.Some? then Refusal(GenesisNotFirst, genesis) else Refusal(ServerError, None)
  }

  /**
   Insert, materialise, stamp and commit against the committed tables `db`. `seqs` are the autoincrement values the
   inserts draw. `Raced` is the `ops` uniqueness constraint firing: nothing is written.
   */
  function Finish(db: Db, p: Post, w: Walk, plan: Plan, seqs: seq<nat>): Outcome
    requires AdmissionsWithin(w, |p.ops|) && PlanWithin(plan, p.ops) && |seqs| == |p.ops|
  {
    var rows := NewRows(p.ops, plan.freshAt, seqs);
    if AnyCollision(db.ops, rows) then Raced
    else
      var results := ResultsOf(plan.entries, seqs);
      match MaterialiseUpTo(TablesOf(db), w.control, results, |w.control|)
      case Failure(_) => Refused(CommitConflict(db, w.control))
      case Success(t) =>
        match StampUpTo(db.ops + rows, w.prunes, results, |w.prunes|)
        case Failure(refusal) => Refused(refusal)
        case Success(ops) => Answered(results, WithTables(db, ops, t))
  }

  lemma {:induction false} AdmissionsAreWithin(p: Post, v: View, n: nat)
    requires n <= |p.ops| == |v.logs|
    ensures WalkUpTo(p, v, n).Success? ==> AdmissionsWithin(WalkUpTo(p, v, n).value, n)
  {
    hide WalkStep;
    if n > 0 {
      AdmissionsAreWithin(p, v, n - 1);
      if WalkUpTo(p, v, n).Success? {
        StepAdmitsWithin(p, v, WalkUpTo(p, v, n - 1).value, n - 1);
      }
    }
  }

  lemma StepAdmitsWithin(p: Post, v: View, w: Walk, i: nat)
    requires i < |p.ops| == |v.logs| && AdmissionsWithin(w, i) && WalkStep(p, v, w, i).Success?
    ensures AdmissionsWithin(WalkStep(p, v, w, i).value, i + 1)
  {
    hide RequireRole, RequireFreshKeyEpoch, VerifyPrune, VerifyGenesis, VerifyMemberRegister, VerifyGrant,
      VerifyRevoke, VerifyRotate;
  }

  lemma {:induction false} PlanIsWithin(existing: map<Key, nat>, heads: map<Uuid, nat>, ops: seq<Op>, n: nat)
    requires n <= |ops|
    ensures PlanUpTo(existing, heads, ops, n).Success? ==>
              && PlanWithin(PlanUpTo(existing, heads, ops, n).value, ops[..n])
              && forall key | key in PlanUpTo(existing, heads, ops, n).value.staged ::
                  PlanUpTo(existing, heads, ops, n).value.staged[key]
                  < |PlanUpTo(existing, heads, ops, n).value.freshAt|
  {
    if n > 0 {
      PlanIsWithin(existing, heads, ops, n - 1);
    }
  }

  /** Append against what `rows` and `headRows` showed, then finish against `db`. */
  function Append(db: Db, p: Post, w: Walk, rows: seq<OpRow>, headRows: seq<OpRow>, seqs: seq<nat>): Outcome
    requires AdmissionsWithin(w, |p.ops|) && |seqs| == |p.ops|
  {
    var existing := ExistingSeqs(rows, OpIds(p.ops));
    var heads := Heads(headRows, Authors(p.ops));
    match PlanUpTo(existing, heads, p.ops, |p.ops|)
    case Failure(refusal) => Refused(refusal)
    case Success(plan) =>
      PlanIsWithin(existing, heads, p.ops, |p.ops|);
      assert p.ops[..|p.ops|] == p.ops;
      Finish(db, p, w, plan, seqs)
  }

  // --- A POST that no other request overlaps ---

  function ReplayedOpIds(rows: seq<OpRow>, author: Uuid, opIds: set<Uuid>): set<Uuid> {
    set r | r in rows && r.op.Author() == author && r.op.header.opId in opIds :: r.op.header.opId
  }

  function RootPkOf(escrows: map<string, EscrowRow>, userId: string): Bytes {
    if userId in escrows then escrows[userId].rootPk else []
  }

  /** Every query of the walk answered from one committed state. */
  function ViewOf(db: Db, p: Post): (v: View)
    ensures |v.logs| == |p.ops|
  {
    View(db.grants, db.genesisSeq.Some?, CurrentKeyEpoch(db.epochs.Keys),
         ReplayedOpIds(db.ops, p.caller.memberId, OpIds(p.ops)), RootPkOf(db.escrows, p.caller.userId), db.members,
         seq(|p.ops|, _ => db.ops))
  }

  function PostSerially(db: Db, p: Post, seqs: seq<nat>): Outcome
    requires |seqs| == |p.ops|
  {
    var v := ViewOf(db, p);
    match WalkUpTo(p, v, |p.ops|)
    case Failure(refusal) => Refused(refusal)
    case Success(w) =>
      AdmissionsAreWithin(p, v, |p.ops|);
      Append(db, p, w, db.ops, db.ops, seqs)
  }

  /** The stages of a POST that no other request overlaps. */
  lemma SerialStages(db: Db, p: Post, seqs: seq<nat>)
    requires |seqs| == |p.ops|
    ensures var walk := WalkUpTo(p, ViewOf(db, p), |p.ops|);
            var planned := PlanUpTo(ExistingSeqs(db.ops, OpIds(p.ops)), Heads(db.ops, Authors(p.ops)), p.ops, |p.ops|);
            && (walk.Failure? ==> PostSerially(db, p, seqs) == Refused(walk.error))
            && (walk.Success? && planned.Failure? ==> PostSerially(db, p, seqs) == Refused(planned.error))
            && (walk.Success? && planned.Success? ==>
                  && AdmissionsWithin(walk.value, |p.ops|) && PlanWithin(planned.value, p.ops)
                  && PostSerially(db, p, seqs) == Finish(db, p, walk.value, planned.value, seqs))
  {
    hide WalkUpTo, PlanUpTo, ExistingSeqs, Heads, ViewOf, AdmissionsWithin, PlanWithin, Finish;
    AdmissionsAreWithin(p, ViewOf(db, p), |p.ops|);
    PlanIsWithin(ExistingSeqs(db.ops, OpIds(p.ops)), Heads(db.ops, Authors(p.ops)), p.ops, |p.ops|);
    assert p.ops[..|p.ops|] == p.ops;
  }
}
