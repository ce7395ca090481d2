/**
 The JSON forms of the five control types and their certificates. Each law gives what decoding an encoding returns
 for every value, and each soundness lemma what every decoded value satisfies.
 Source: backend/app/sync/control_payload.py.
 */
module ControlCodec {
  import opened Wrappers
  import opened ByteStrings
  import opened Envelope
  import opened Payloads
  import opened JsonText
  import opened PruneCodec
  import opened KeyWraps

  const ROOT_SIGNATURE_BYTES := 64
  const ROOT_PUBLIC_KEY_BYTES := 32

  function Malformed<T>(): Result<T, Code> {
    Failure(MalformedControlPayload)
  }

  // --- Certified keys ---

  /** The fields a registration carries at its top level and a genesis under `founder`. */
  function KeysFields(sha256: Hash, keys: MemberKeys): map<Field, Json> {
    map[Field.MemberId := Text(UuidText(keys.memberId)), Field.MemberKind := Text(keys.memberKind),
        Field.SignPk := Text(Base64Text(keys.signPk)), Field.SignKeyId := Text(Base64Text(KeyId(sha256, keys.signPk))),
        Field.KexPk := Text(Base64Text(keys.kexPk)), Field.KexKeyId := Text(Base64Text(KeyId(sha256, keys.kexPk)))]
  }

  /** A key id is never taken on trust: it must be the one derived from the key beside it. */
  function CarriesKeyId(sha256: Hash, raw: Json, key: Bytes): bool {
    match Base64Field(raw)
    case Some(claimed) => |claimed| == AUTHOR_KEY_ID_BYTES && claimed == KeyId(sha256, key)
    case None => false
  }

  function DecodeKeys(sha256: Hash, raw: Json): Result<MemberKeys, Code> {
    if !raw.Object? || !raw.Get(Field.MemberKind).Text? || raw.Get(Field.MemberKind).text == "" then Malformed()
    else
      match (UuidField(raw.Get(Field.MemberId)), KeyField(raw.Get(Field.SignPk)), KeyField(raw.Get(Field.KexPk)))
      case (Some(memberId), Some(signPk), Some(kexPk)) =>
        if !CarriesKeyId(sha256, raw.Get(Field.SignKeyId), signPk)
          || !CarriesKeyId(sha256, raw.Get(Field.KexKeyId), kexPk) then
          Malformed()
        else Success(MemberKeys(memberId, signPk, kexPk, raw.Get(Field.MemberKind).text))
      case _ => Malformed()
  }

  /** An object that holds the key fields, whatever else it holds. */
  ghost predicate HoldsKeys(sha256: Hash, raw: Json, keys: MemberKeys) {
    var fields := KeysFields(sha256, keys);
    raw.Object? && forall name | name in fields :: raw.Get(name) == fields[name]
  }

  lemma DecodeKeysInverts(sha256: Hash, raw: Json, keys: MemberKeys)
    requires HashWidth(sha256) && HoldsKeys(sha256, raw, keys)
    ensures DecodeKeys(sha256, raw) == if keys.memberKind != "" then Success(keys) else Malformed()
  {
    hide UuidText, Base64Text, Base64Field, UuidField, HoldsKeys, Json.Get, KeyId;
    KeyFieldsHeld(sha256, raw, keys);
    Base64Inverts(keys.signPk);
    UuidInverts(keys.memberId);
    Base64Inverts(keys.kexPk);
    Base64Inverts(KeyId(sha256, keys.signPk));
    Base64Inverts(KeyId(sha256, keys.kexPk));
    KeyIdWidth(sha256, keys.signPk);
    KeyIdWidth(sha256, keys.kexPk);
  }

  lemma KeyFieldsHeld(sha256: Hash, raw: Json, keys: MemberKeys)
    requires HoldsKeys(sha256, raw, keys)
    ensures raw.Object? && raw.Get(Field.MemberId) == Text(UuidText(keys.memberId))
    ensures raw.Get(Field.MemberKind) == Text(keys.memberKind)
    ensures raw.Get(Field.SignPk) == Text(Base64Text(keys.signPk))
    ensures raw.Get(Field.KexPk) == Text(Base64Text(keys.kexPk))
    ensures raw.Get(Field.SignKeyId) == Text(Base64Text(KeyId(sha256, keys.signPk)))
    ensures raw.Get(Field.KexKeyId) == Text(Base64Text(KeyId(sha256, keys.kexPk)))
  {
    hide UuidText, Base64Text, KeyId;
    var fields := KeysFields(sha256, keys);
    assert Field.MemberId in fields && Field.MemberKind in fields && Field.SignPk in fields;
    assert Field.KexPk in fields && Field.SignKeyId in fields && Field.KexKeyId in fields;
  }

  lemma KeyIdWidth(sha256: Hash, key: Bytes)
    requires HashWidth(sha256)
    ensures |KeyId(sha256, key)| == AUTHOR_KEY_ID_BYTES
  {
  }

  // --- Registrations and genesis ---

  function RegistrationJson(sha256: Hash, r: Registration): Json {
    Object(map[Field.WorkspaceId := Text(UuidText(r.workspaceId)), Field.RegisteredAtHlc := HlcJson(r.registeredAt)]
           + KeysFields(sha256, r.keys))
  }

  function DecodeRegistration(sha256: Hash, raw: Json): Result<Registration, Code> {
    var keys :- DecodeKeys(sha256, raw);
    match (UuidField(raw.Get(Field.WorkspaceId)), ParseHlc(raw.Get(Field.RegisteredAtHlc)))
    case (Some(workspaceId), Some(at)) => Success(Registration(workspaceId, keys, at))
    case _ => Malformed()
  }

  predicate RegistrationOk(r: Registration) {
    r.keys.memberKind != "" && IsMemberIdHex(r.registeredAt.memberIdHex)
  }

  lemma RegistrationFields(sha256: Hash, r: Registration)
    ensures var raw := RegistrationJson(sha256, r);
            && HoldsKeys(sha256, raw, r.keys)
            && raw.Get(Field.WorkspaceId) == Text(UuidText(r.workspaceId))
            && raw.Get(Field.RegisteredAtHlc) == HlcJson(r.registeredAt)
  {
    hide UuidText, HlcJson, Base64Text, KeyId;
  }

  lemma DecodeRegistrationInverts(sha256: Hash, r: Registration)
    requires HashWidth(sha256)
    ensures DecodeRegistration(sha256, RegistrationJson(sha256, r))
         == if RegistrationOk(r) then Success(r) else Malformed()
  {
    hide UuidText, UuidField, DecodeKeys, HlcJson, ParseHlc, IsMemberIdHex;
    hide RegistrationJson, HoldsKeys, Json.Get;
    RegistrationFields(sha256, r);
    DecodeKeysInverts(sha256, RegistrationJson(sha256, r), r.keys);
    UuidInverts(r.workspaceId);
    ParseHlcExactly(r.registeredAt);
  }

  function GenesisJson(sha256: Hash, g: GenesisCertificate): Json {
    Object(map[Field.WorkspaceId := Text(UuidText(g.workspaceId)), Field.RootPk := Text(Base64Text(g.rootPk)),
               Field.Founder := Object(KeysFields(sha256, g.founder)), Field.CreatedAtHlc := HlcJson(g.createdAt)])
  }

  function DecodeGenesis(sha256: Hash, raw: Json): Result<GenesisCertificate, Code> {
    if !raw.Object? then Malformed()
    else
      match (UuidField(raw.Get(Field.WorkspaceId)), KeyField(raw.Get(Field.RootPk)),
             DecodeKeys(sha256, raw.Get(Field.Founder)), ParseHlc(raw.Get(Field.CreatedAtHlc)))
      case (Some(workspaceId), Some(rootPk), Success(founder), Some(at)) =>
        Success(GenesisCertificate(workspaceId, rootPk, founder, at))
      case _ => Malformed()
  }

  predicate GenesisOk(g: GenesisCertificate) {
    RegistrationOk(g.AsRegistration())
  }

  lemma GenesisFields(sha256: Hash, g: GenesisCertificate)
    ensures var raw := GenesisJson(sha256, g);
            && raw.Object? && HoldsKeys(sha256, raw.Get(Field.Founder), g.founder)
            && raw.Get(Field.WorkspaceId) == Text(UuidText(g.workspaceId))
            && raw.Get(Field.RootPk) == Text(Base64Text(g.rootPk))
            && raw.Get(Field.CreatedAtHlc) == HlcJson(g.createdAt)
  {
    hide UuidText, HlcJson, Base64Text, KeyId;
  }

  lemma DecodeGenesisInverts(sha256: Hash, g: GenesisCertificate)
    requires HashWidth(sha256)
    ensures DecodeGenesis(sha256, GenesisJson(sha256, g)) == if GenesisOk(g) then Success(g) else Malformed()
  {
    hide UuidText, UuidField, Base64Text, Base64Field, DecodeKeys, HlcJson, ParseHlc, IsMemberIdHex;
    hide GenesisJson, HoldsKeys, Json.Get;
    GenesisFields(sha256, g);
    DecodeKeysInverts(sha256, GenesisJson(sha256, g).Get(Field.Founder), g.founder);
    Base64Inverts(g.rootPk);
    UuidInverts(g.workspaceId);
    ParseHlcExactly(g.createdAt);
  }

  // --- Grants and revokes ---

  function RoleText(role: Role): string {
    match role
    case Owner => "owner"
    case Participant => "participant"
    case Compactor => "compactor"
    case Suggester => "suggester"
  }

  function RoleField(raw: Json): Option<Role> {
    if raw == Text("owner") then Some(Owner)
    else if raw == Text("participant") then Some(Participant)
    else if raw == Text("compactor") then Some(Compactor)
    else if raw == Text("suggester") then Some(Suggester)
    else None
  }

  lemma RoleInverts(role: Role)
    ensures RoleField(Text(RoleText(role))) == Some(role)
  {
  }

  function GrantJson(g: GrantCertificate): Json {
    Object(map[Field.WorkspaceId := Text(UuidText(g.workspaceId)), Field.GrantId := Text(UuidText(g.grantId)),
               Field.MemberId := Text(UuidText(g.memberId)), Field.Role := Text(RoleText(g.role)),
               Field.Granter := Text(AuthorityText(g.granter)), Field.GrantedAtHlc := HlcJson(g.grantedAt)])
  }

  function DecodeGrant(raw: Json): Result<GrantCertificate, Code> {
    if !raw.Object? then Malformed()
    else
      match (RoleField(raw.Get(Field.Role)), AuthorityField(raw.Get(Field.Granter)))
      case (None, _) => Failure(UnknownRole)
      case (_, None) => Malformed()
      case (Some(role), Some(granter)) =>
        if role == Owner && granter != Root then Failure(OwnerGrantRequiresRoot)
        else
          match (UuidField(raw.Get(Field.WorkspaceId)), UuidField(raw.Get(Field.GrantId)),
                 UuidField(raw.Get(Field.MemberId)), ParseHlc(raw.Get(Field.GrantedAtHlc)))
          case (Some(workspaceId), Some(grantId), Some(memberId), Some(at)) =>
            Success(GrantCertificate(workspaceId, grantId, memberId, role, granter, at))
          case _ => Malformed()
  }

  /** Each refusal of an encoded Grant, in the order the decoder meets them. */
  function GrantVerdict(g: GrantCertificate): Result<GrantCertificate, Code> {
    if g.granter == NoAuthority then Malformed()
    else if g.role == Owner && g.granter != Root then Failure(OwnerGrantRequiresRoot)
    else if !IsMemberIdHex(g.grantedAt.memberIdHex) then Malformed()
    else Success(g)
  }

  lemma GrantFields(g: GrantCertificate)
    ensures var raw := GrantJson(g);
            && raw.Object? && raw.Get(Field.WorkspaceId) == Text(UuidText(g.workspaceId))
            && raw.Get(Field.GrantId) == Text(UuidText(g.grantId))
            && raw.Get(Field.MemberId) == Text(UuidText(g.memberId))
            && raw.Get(Field.Role) == Text(RoleText(g.role)) && raw.Get(Field.Granter) == Text(AuthorityText(g.granter))
            && raw.Get(Field.GrantedAtHlc) == HlcJson(g.grantedAt)
  {
    hide UuidText, RoleText, AuthorityText, HlcJson;
  }

  lemma DecodeGrantInverts(g: GrantCertificate)
    ensures DecodeGrant(GrantJson(g)) == GrantVerdict(g)
  {
    hide UuidText, UuidField, HlcJson, ParseHlc, IsMemberIdHex, RoleText, RoleField, AuthorityText, AuthorityField;
    hide GrantJson, Json.Get;
    GrantFields(g);
    RoleInverts(g.role);
    AuthorityInverts(g.granter);
    UuidInverts(g.workspaceId);
    UuidInverts(g.grantId);
    UuidInverts(g.memberId);
    ParseHlcExactly(g.grantedAt);
  }

  /** A Grant read from anything at all names Root as granter when it makes an owner. */
  lemma DecodedGrantIsSound(raw: Json)
    requires DecodeGrant(raw).Success?
    ensures var g := DecodeGrant(raw).value;
            (g.role == Owner ==> g.granter == Root) && g.granter != NoAuthority && GrantVerdict(g) == Success(g)
  {
  }

  function RevokeJson(r: RevokeCertificate): Json {
    Object(map[Field.WorkspaceId := Text(UuidText(r.workspaceId)), Field.RevokeId := Text(UuidText(r.revokeId)),
               Field.GrantId := Text(UuidText(r.grantId)), Field.Revoker := Text(AuthorityText(r.revoker)),
               Field.RevokedAtHlc := HlcJson(r.revokedAt)])
  }

  function DecodeRevoke(raw: Json): Result<RevokeCertificate, Code> {
    if !raw.Object? then Malformed()
    else
      match (UuidField(raw.Get(Field.WorkspaceId)), UuidField(raw.Get(Field.RevokeId)),
             UuidField(raw.Get(Field.GrantId)), AuthorityField(raw.Get(Field.Revoker)),
             ParseHlc(raw.Get(Field.RevokedAtHlc)))
      case (Some(workspaceId), Some(revokeId), Some(grantId), Some(revoker), Some(at)) =>
        Success(RevokeCertificate(workspaceId, revokeId, grantId, revoker, at))
      case _ => Malformed()
  }

  predicate RevokeOk(r: RevokeCertificate) {
    r.revoker != NoAuthority && IsMemberIdHex(r.revokedAt.memberIdHex)
  }

  lemma RevokeFields(r: RevokeCertificate)
    ensures var raw := RevokeJson(r);
            && raw.Object? && raw.Get(Field.WorkspaceId) == Text(UuidText(r.workspaceId))
            && raw.Get(Field.RevokeId) == Text(UuidText(r.revokeId))
            && raw.Get(Field.GrantId) == Text(UuidText(r.grantId))
            && raw.Get(Field.Revoker) == Text(AuthorityText(r.revoker))
            && raw.Get(Field.RevokedAtHlc) == HlcJson(r.revokedAt)
  {
    hide UuidText, AuthorityText, HlcJson;
  }

  lemma DecodeRevokeInverts(r: RevokeCertificate)
    ensures DecodeRevoke(RevokeJson(r)) == if RevokeOk(r) then Success(r) else Malformed()
  {
    hide UuidText, UuidField, HlcJson, ParseHlc, IsMemberIdHex, AuthorityText, AuthorityField;
    hide RevokeJson, Json.Get;
    RevokeFields(r);
    AuthorityInverts(r.revoker);
    UuidInverts(r.workspaceId);
    UuidInverts(r.revokeId);
    UuidInverts(r.grantId);
    ParseHlcExactly(r.revokedAt);
  }

  // --- Rotates ---

  function RotateFields(r: RotateStatement): map<Field, Json> {
    map[Field.WorkspaceId := Text(UuidText(r.workspaceId)),
        Field.FromEpoch := Int(r.fromEpoch), Field.ToEpoch := Int(r.toEpoch),
        Field.KeywrapDigest := Text(Base64Text(r.keywrapDigest)), Field.RotatedAtHlc := HlcJson(r.rotatedAt)]
  }

  function EpochField(raw: Json): Option<u32> {
    if raw.Int? && 0 <= raw.number <= MAX_KEY_EPOCH then Some(raw.number) else None
  }

  function DecodeRotate(raw: Json): Result<RotateStatement, Code> {
    match (EpochField(raw.Get(Field.FromEpoch)), EpochField(raw.Get(Field.ToEpoch)))
    case (Some(fromEpoch), Some(toEpoch)) =>
      if toEpoch as int != fromEpoch as int + 1 then Malformed()
      else
        (match (KeyField(raw.Get(Field.KeywrapDigest)), UuidField(raw.Get(Field.WorkspaceId)),
                ParseHlc(raw.Get(Field.RotatedAtHlc)))
         case (Some(digest), Some(workspaceId), Some(at)) =>
           Success(RotateStatement(workspaceId, fromEpoch, toEpoch, digest, at))
         case _ => Malformed())
    case _ => Malformed()
  }

  predicate RotateOk(r: RotateStatement) {
    r.toEpoch == r.fromEpoch + 1 && IsMemberIdHex(r.rotatedAt.memberIdHex)
  }

  lemma DecodeRotateInverts(raw: Json, r: RotateStatement)
    requires raw.Object? && forall name | name in RotateFields(r) :: raw.Get(name) == RotateFields(r)[name]
    ensures DecodeRotate(raw) == if RotateOk(r) then Success(r) else Malformed()
  {
    hide UuidText, UuidField, Base64Text, Base64Field, HlcJson, ParseHlc, IsMemberIdHex, RotateFields, Json.Get;
    RotateFieldsHeld(raw, r);
    Base64Inverts(r.keywrapDigest);
    UuidInverts(r.workspaceId);
    ParseHlcExactly(r.rotatedAt);
  }

  lemma RotateFieldsHeld(raw: Json, r: RotateStatement)
    requires raw.Object? && forall name | name in RotateFields(r) :: raw.Get(name) == RotateFields(r)[name]
    ensures raw.Get(Field.WorkspaceId) == Text(UuidText(r.workspaceId)) && raw.Get(Field.FromEpoch) == Int(r.fromEpoch)
    ensures raw.Get(Field.ToEpoch) == Int(r.toEpoch)
    ensures raw.Get(Field.KeywrapDigest) == Text(Base64Text(r.keywrapDigest))
    ensures raw.Get(Field.RotatedAtHlc) == HlcJson(r.rotatedAt)
  {
    hide UuidText, Base64Text, HlcJson;
    var fields := RotateFields(r);
    assert Field.WorkspaceId in fields && Field.FromEpoch in fields && Field.ToEpoch in fields;
    assert Field.KeywrapDigest in fields && Field.RotatedAtHlc in fields;
  }

  // --- Control payloads ---

  function TypeText(kind: ControlType): string {
    match kind
    case MemberRegister => "member_register"
    case WorkspaceGenesis => "workspace_genesis"
    case Grant => "grant"
    case Revoke => "revoke"
    case Rotate => "rotate"
    case Unserved(name) => name
  }

  function TypeOf(name: string): ControlType {
    if name == "member_register" then MemberRegister
    else if name == "workspace_genesis" then WorkspaceGenesis
    else if name == "grant" then Grant
    else if name == "revoke" then Revoke
    else if name == "rotate" then Rotate
    else Unserved(name)
  }

  /** `Unserved` stands only for names outside the five. */
  predicate IsNamed(kind: ControlType) {
    TypeOf(TypeText(kind)) == kind
  }

  function SignatureField(kind: ControlType): Field {
    match kind
    case Grant => Field.GranterSig
    case Revoke => Field.RevokerSig
    case _ => Field.RootSig
  }

  function AuthorityFieldOf(kind: ControlType): Option<Field> {
    match kind
    case Grant => Some(Field.Granter)
    case Revoke => Some(Field.Revoker)
    case _ => None
  }

  /** The encoded object; none for a rotate without its statement, which the encoder refuses. */
  function ControlJson(p: ControlPayload): Option<Json> {
    var head := map[Field.Type := Text(TypeText(p.controlType)),
      Field.PrevControlHash := Text(HexText(p.prevControlHash))];
    if p.controlType == Rotate then
      if p.rotate.None? then None else Some(Object(head + RotateFields(p.rotate.value)))
    else
      var body := head[Field.Cert := Text(Base64Text(p.certBytes))]
                      [SignatureField(p.controlType) := Text(Base64Text(p.signature))];
      match AuthorityFieldOf(p.controlType)
      case Some(name) => Some(Object(body[name := Text(AuthorityText(p.authority))]))
      case None => Some(Object(body))
  }

  function DecodeCertified(kind: ControlType, prev: Bytes32, raw: Json): Result<ControlPayload, Code> {
    match (Base64Field(raw.Get(SignatureField(kind))), Base64Field(raw.Get(Field.Cert)))
    case (Some(signature), Some(cert)) =>
      if |signature| != ROOT_SIGNATURE_BYTES || cert == [] then Malformed()
      else
        (match AuthorityFieldOf(kind)
         case None => Success(ControlPayload(kind, prev, cert, signature, Root, None))
         case Some(name) =>
           match AuthorityField(raw.Get(name))
           case Some(authority) => Success(ControlPayload(kind, prev, cert, signature, authority, None))
           case None => Malformed())
    case _ => Malformed()
  }

  function DecodeControl(raw: Json): Result<ControlPayload, Code> {
    if !raw.Object? || !raw.Get(Field.Type).Text? || raw.Get(Field.Type).text == "" then Malformed()
    else
      match HexField(raw.Get(Field.PrevControlHash))
      case None => Malformed()
      case Some(prev) =>
        match TypeOf(raw.Get(Field.Type).text)
        case Unserved(name) => Success(ControlPayload(Unserved(name), prev, [], [], NoAuthority, None))
        case Rotate =>
          var rotate :- DecodeRotate(raw);
          Success(ControlPayload(Rotate, prev, [], [], NoAuthority, Some(rotate)))
        case kind => DecodeCertified(kind, prev, raw)
  }

  /** What the wire keeps of a payload: Root for the Root-only types, and only the fields its type has. */
  function Normalised(p: ControlPayload): ControlPayload {
    match p.controlType
    case Unserved(_) => p.(certBytes := [], signature := [], authority := NoAuthority, rotate := None)
    case Rotate => p.(certBytes := [], signature := [], authority := NoAuthority)
    case MemberRegister => p.(authority := Root, rotate := None)
    case WorkspaceGenesis => p.(authority := Root, rotate := None)
    case _ => p.(rotate := None)
  }

  /** The payloads a receiver accepts. */
  predicate IsEncodable(p: ControlPayload) {
    match p.controlType
    case Unserved(name) => name != ""
    case Rotate => p.rotate.Some? && RotateOk(p.rotate.value)
    case kind =>
      && |p.signature| == ROOT_SIGNATURE_BYTES && p.certBytes != []
      && (AuthorityFieldOf(kind).Some? ==> p.authority != NoAuthority)
  }

  /**
   Decode inverts encode for all five types, up to what the wire does not carry: an encoded payload decodes to its
   normal form when it is well shaped, and to a refusal when it is not.
   */
  lemma DecodeControlInverts(p: ControlPayload)
    requires IsNamed(p.controlType) && ControlJson(p).Some?
    ensures DecodeControl(ControlJson(p).value) == if IsEncodable(p) then Success(Normalised(p)) else Malformed()
  {
    hide HexText, HexField, Base64Text, Base64Field, DecodeRotate, DecodeCertified, RotateOk, RotateFields,
      AuthorityText;
    var raw := ControlJson(p).value;
    HexInverts(p.prevControlHash);
    HeadFields(p);
    match p.controlType
    case Unserved(name) =>
    case Rotate => DecodeRotateInverts(raw, p.rotate.value) by { RotateHolds(p); }
    case kind => DecodeCertifiedInverts(p);
  }

  lemma HeadFields(p: ControlPayload)
    requires ControlJson(p).Some?
    ensures ControlJson(p).value.Get(Field.Type) == Text(TypeText(p.controlType))
    ensures ControlJson(p).value.Get(Field.PrevControlHash) == Text(HexText(p.prevControlHash))
  {
    hide HexText, Base64Text, UuidText, HlcJson, AuthorityText, TypeText;
  }

  lemma RotateHolds(p: ControlPayload)
    requires p.controlType == Rotate && p.rotate.Some?
    ensures var raw, fields := ControlJson(p).value, RotateFields(p.rotate.value);
            raw.Object? && forall name | name in fields :: raw.Get(name) == fields[name]
  {
  }

  lemma DecodeCertifiedInverts(p: ControlPayload)
    requires ControlJson(p).Some? && !p.controlType.Unserved? && p.controlType != Rotate
    ensures DecodeCertified(p.controlType, p.prevControlHash, ControlJson(p).value)
         == if IsEncodable(p) then Success(Normalised(p)) else Malformed()
  {
    hide HexText, Base64Text, Base64Field, UuidText, AuthorityText, AuthorityField;
    var raw := ControlJson(p).value;
    Base64Inverts(p.certBytes);
    Base64Inverts(p.signature);
    AuthorityInverts(p.authority);
    assert raw.Get(Field.Cert) == Text(Base64Text(p.certBytes));
    assert raw.Get(SignatureField(p.controlType)) == Text(Base64Text(p.signature));
  }

  /** Whatever decodes is well shaped and in normal form, so decoding settles in one step. */
  lemma DecodedControlIsSound(raw: Json)
    requires DecodeControl(raw).Success?
    ensures var p := DecodeControl(raw).value;
            && IsEncodable(p) && Normalised(p) == p && IsNamed(p.controlType)
            && (p.controlType in {MemberRegister, WorkspaceGenesis} ==> p.authority == Root)
            && (p.controlType == Rotate ==> p.rotate.Some? && RotateOk(p.rotate.value) && p.authority == NoAuthority)
  {
    hide HexField, Base64Field, IsMemberIdHex, ParseHlc, UuidField;
    match TypeOf(raw.Get(Field.Type).text)
    case Rotate => DecodedRotateIsSound(raw);
    case Unserved(_) =>
    case kind => DecodedCertifiedIsSound(kind, HexField(raw.Get(Field.PrevControlHash)).value, raw);
  }

  lemma DecodedRotateIsSound(raw: Json)
    requires DecodeRotate(raw).Success?
    ensures RotateOk(DecodeRotate(raw).value)
  {
  }

  lemma DecodedCertifiedIsSound(kind: ControlType, prev: Bytes32, raw: Json)
    requires kind in {MemberRegister, WorkspaceGenesis, Grant, Revoke} && DecodeCertified(kind, prev, raw).Success?
    ensures var p := DecodeCertified(kind, prev, raw).value;
            p.controlType == kind && IsEncodable(p) && Normalised(p) == p
  {
    hide Base64Field, UuidField;
  }
}
