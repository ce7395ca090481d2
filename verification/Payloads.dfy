/**
 What the two server-readable op bodies say: the five control types with their certificates, and the prune
 enumeration. Sources: backend/app/sync/control_payload.py, backend/app/sync/prune_payload.py.
 */
module Payloads {
  import opened Wrappers
  import opened ByteStrings
  import opened Envelope

  datatype Role = Owner | Participant | Compactor | Suggester

  /** Which roles may author an op class; a class outside the table admits nobody. */
  function RoleOpClassMatrix(opClass: byte): set<Role> {
    if opClass == OP_CLASS_CONTENT then {Owner, Participant}
    else if opClass == OP_CLASS_CONTROL then {Owner}
    else if opClass == OP_CLASS_SUGGESTION then {Owner, Participant, Compactor, Suggester}
    else if opClass == OP_CLASS_COMPACTION then {Owner, Compactor}
    else if opClass == OP_CLASS_PRUNE then {Owner, Compactor}
    else {}
  }

  const COMPACTION_EXEMPT_OP_CLASSES: set<byte> := {OP_CLASS_CONTROL, OP_CLASS_PRUNE}

  /** Whose signature a control payload claims. `NoAuthority` is the empty string a rotate carries. */
  datatype Authority = Root | Member(memberId: Uuid) | NoAuthority

  datatype ControlType = MemberRegister | WorkspaceGenesis | Grant | Revoke | Rotate | Unserved(name: string)

  datatype Hlc = Hlc(wallMs: int, counter: int, memberIdHex: string)

  datatype MemberKeys = MemberKeys(memberId: Uuid, signPk: Bytes32, kexPk: Bytes32, memberKind: string)

  datatype Registration = Registration(workspaceId: Uuid, keys: MemberKeys, registeredAt: Hlc)

  datatype GrantCertificate = GrantCertificate(
    workspaceId: Uuid, grantId: Uuid, memberId: Uuid, role: Role, granter: Authority, grantedAt: Hlc)

  datatype RevokeCertificate = RevokeCertificate(
    workspaceId: Uuid, revokeId: Uuid, grantId: Uuid, revoker: Authority, revokedAt: Hlc)

  datatype GenesisCertificate = GenesisCertificate(workspaceId: Uuid, rootPk: Bytes32, founder: MemberKeys,
    createdAt: Hlc)
  {
    /** The registration a genesis stands for: its founder's. */
    function AsRegistration(): Registration {
      Registration(workspaceId, founder, createdAt)
    }
  }

  datatype RotateStatement = RotateStatement(
    workspaceId: Uuid, fromEpoch: u32, toEpoch: u32, keywrapDigest: Bytes32, rotatedAt: Hlc)

  /** The parsed form of whatever certificate a control type carries. */
  datatype Certificate =
    | Registers(registration: Registration)
    | Founds(genesis: GenesisCertificate)
    | Grants(grant: GrantCertificate)
    | Revokes(revoke: RevokeCertificate)

  datatype ControlPayload = ControlPayload(
    controlType: ControlType,
    prevControlHash: Bytes32,
    certBytes: Bytes,
    signature: Bytes,
    authority: Authority,
    rotate: Option<RotateStatement>
  ) {
    predicate IsRootSigned() {
      controlType in {MemberRegister, WorkspaceGenesis} || authority == Root
    }

    /** The link is all zeros if and only if the op is a genesis. */
    predicate ChainLinkShapeOk() {
      (prevControlHash == Zeros(32)) == (controlType == WorkspaceGenesis)
    }
  }

  datatype PruneTarget = PruneTarget(seqNo: nat, authorMemberId: Uuid, authorSeq: nat, envelopeHash: Bytes32)

  datatype PrunePayload = PrunePayload(compactionOpId: Uuid, targets: seq<PruneTarget>)

  const MAX_PRUNE_TARGETS := 1000

  /** No two targets share a transport seq, and no two share an author position. */
  ghost predicate DistinctTargets(targets: seq<PruneTarget>) {
    forall i, j | 0 <= i < j < |targets| ::
      && targets[i].seqNo != targets[j].seqNo
      && (targets[i].authorMemberId, targets[i].authorSeq) != (targets[j].authorMemberId, targets[j].authorSeq)
  }

  /** What every decoded prune satisfies. */
  ghost predicate PruneShape(targets: seq<PruneTarget>) {
    0 < |targets| <= MAX_PRUNE_TARGETS && DistinctTargets(targets)
  }

  /** The refusals the op-log routes answer with, one constructor a code. */
  datatype Code =
    | WorkspaceNotDerivable
    | BatchTooLarge
    | MalformedBase64
    | BadEnvelope(error: EnvelopeError)
    | WorkspaceMismatch
    | AuthorMemberMismatch
    | WorkspaceNotCreated
    | NoLiveGrant(revoked: bool)
    | RoleForbidsOpClass
    | KeyEpochStale(currentEpoch: nat)
    | KeyEpochUnknown(currentEpoch: nat)
    | MalformedPrunePayload
    | PruneTargetsEmpty
    | PruneTargetsTooMany
    | PruneDuplicateTarget
    | PruneCompactionNotFound
    | PruneTargetNotFound(target: nat)
    | PruneTargetIsControl(target: nat)
    | PruneTargetIsPrune(target: nat)
    | PruneTargetAttestationMismatch(target: nat)
    | PruneTargetAlreadyCompacted(stamped: Option<nat>)
    | PruneTargetIsItsOwnCompaction(target: nat)
    | MalformedControlPayload
    | UnsupportedControlType
    | UnknownRole
    | ControlChainBreak
    | GenesisNotFirst
    | MemberRegisterNotFirst
    | BadRootSignature
    | BadGrantSignature
    | BadRevokeSignature
    | CertWorkspaceMismatch
    | CertRootPkMismatch
    | CertMemberMismatch
    | CertKeyMismatch
    | CertGranterMismatch
    | OwnerGrantRequiresRoot
    | OwnerRevokeRequiresRoot
    | UnknownGrantee
    | ServiceGrantForbidden
    | GrantIdAlreadyUsed
    | UnknownGrant
    | AlreadyRevoked
    | RotateEpochConflict(expectedFrom: nat)
    | AuthorChainConflict(expectedAuthorSeq: Option<nat>)
    | ServerError
    | MalformedKeyEpoch
    | KeywrapRequiresOwner(revoked: bool)
    | MalformedEscrowWrap
    | MalformedKeywrap
    | UnknownKeywrapMember
    | KexKeyIdNotRegistered
    | DuplicateKeywrapMember
    | MissingKeywrapDigest
    | MalformedKeywrapDigest
    | KeywrapDigestMismatch
    | RotateNotMaterialised
    | KeywrapAlreadyWritten
    | MalformedEscrowSignature
    | MalformedRootPk
    | MalformedEscrowVersion
    | BadEscrowSignature
    | EscrowVersionRegression(storedVersion: nat)

  /** A refusal, with the batch index of the op at fault when one op is. */
  datatype Refusal = Refusal(code: Code, index: Option<nat>)

  /** The bytes of an ASCII literal. */
  function Ascii(s: string): (b: Bytes)
    ensures |b| == |s|
  {
    seq(|s|, i requires 0 <= i < |s| => if s[i] as int < 256 then s[i] as int else 0)
  }

  const SIGNING_DOMAIN_MEMBER_REGISTER_V1 := Ascii("jeeves/member-register/v1")
  const SIGNING_DOMAIN_WORKSPACE_GENESIS_V1 := Ascii("jeeves/workspace-genesis/v1")
  const SIGNING_DOMAIN_GRANT_V1 := Ascii("jeeves/grant/v1")
  const SIGNING_DOMAIN_REVOKE_V1 := Ascii("jeeves/revoke/v1")
}
