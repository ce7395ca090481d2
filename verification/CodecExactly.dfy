/**
 The decoders read nothing into a JSON value: whatever decodes carries, field by field, the encoding of what it decodes
 to, hex, ids and clocks verbatim and base64 up to its spare bits.
 Source: backend/app/sync/control_payload.py and prune_payload.py.
 */
module CodecExactly {
  import opened Wrappers
  import opened ByteStrings
  import opened Envelope
  import opened Payloads
  import opened JsonText
  import opened KeyWraps
  import opened PruneCodec
  import opened ControlCodec

  // --- Fields ---

  /** The same value, or two base64 texts of the same bytes. */
  predicate SameField(a: Json, b: Json) {
    a == b || (a.Text? && b.Text? && ParseBase64(a.text).Some? && ParseBase64(a.text) == ParseBase64(b.text))
  }

  /** An object with at least these fields. */
  ghost predicate Carries(raw: Json, fields: map<Field, Json>) {
    raw.Object? && forall name | name in fields :: SameField(raw.Get(name), fields[name])
  }

  /** The same, verbatim. */
  ghost predicate Spells(raw: Json, fields: map<Field, Json>) {
    raw.Object? && forall name | name in fields :: raw.Get(name) == fields[name]
  }

  lemma UuidExactly(raw: Json, id: Uuid)
    ensures UuidField(raw) == Some(id) <==> raw == Text(UuidText(id))
  {
    hide UuidText, ParseUuid;
    ParseUuidOfText(id);
    if UuidField(raw) == Some(id) {
      TextOfParsedUuid(raw.text);
    }
  }

  lemma HexExactly(raw: Json, hash: Bytes32)
    ensures HexField(raw) == Some(hash) <==> raw == Text(HexText(hash))
  {
    hide HexText, ParseHex;
    ParseHexOfText(hash);
    if HexField(raw) == Some(hash) {
      TextOfParsedHex(raw.text);
    }
  }

  lemma AuthorityExactly(raw: Json, authority: Authority)
    ensures AuthorityField(raw) == Some(authority) <==>
              authority != NoAuthority && raw == Text(AuthorityText(authority))
  {
    hide UuidText, UuidField;
    AuthorityInverts(authority);
    if authority.Member? {
      UuidExactly(raw, authority.memberId);
    }
  }

  lemma RoleFieldExactly(raw: Json, role: Role)
    ensures RoleField(raw) == Some(role) <==> raw == Text(RoleText(role))
  {
  }

  lemma HlcExactly(raw: Json, at: Hlc)
    ensures ParseHlc(raw) == Some(at) <==> IsMemberIdHex(at.memberIdHex) && raw == HlcJson(at)
  {
    hide IsMemberIdHex;
    if ParseHlc(raw) == Some(at) {
      assert raw.items == HlcJson(at).items;
    }
  }

  lemma Base64Carried(raw: Json, bytes: Bytes)
    ensures Base64Field(raw) == Some(bytes) ==> SameField(raw, Text(Base64Text(bytes)))
  {
    hide Base64Text, ParseBase64;
    ParseBase64OfText(bytes);
  }

  // --- Grants, revokes and prunes: verbatim, both ways ---

  lemma GrantExactly(raw: Json, g: GrantCertificate)
    ensures DecodeGrant(raw) == Success(g) <==> GrantVerdict(g) == Success(g) && Spells(raw, GrantJson(g).fields)
  {
    hide UuidText, UuidField, RoleText, RoleField, AuthorityText, AuthorityField, HlcJson, ParseHlc, IsMemberIdHex,
      Json.Get;
    RoleFieldExactly(raw.Get(Field.Role), g.role);
    AuthorityExactly(raw.Get(Field.Granter), g.granter);
    UuidExactly(raw.Get(Field.WorkspaceId), g.workspaceId);
    UuidExactly(raw.Get(Field.GrantId), g.grantId);
    UuidExactly(raw.Get(Field.MemberId), g.memberId);
    HlcExactly(raw.Get(Field.GrantedAtHlc), g.grantedAt);
    GrantSpelled(raw, g);
    hide GrantJson;
  }

  lemma GrantSpelled(raw: Json, g: GrantCertificate)
    ensures GrantJson(g).Object?
    ensures Spells(raw, GrantJson(g).fields) <==>
              && raw.Object? && raw.Get(Field.Role) == Text(RoleText(g.role))
              && raw.Get(Field.Granter) == Text(AuthorityText(g.granter))
              && raw.Get(Field.WorkspaceId) == Text(UuidText(g.workspaceId))
              && raw.Get(Field.GrantId) == Text(UuidText(g.grantId))
              && raw.Get(Field.MemberId) == Text(UuidText(g.memberId))
              && raw.Get(Field.GrantedAtHlc) == HlcJson(g.grantedAt)
  {
    hide UuidText, RoleText, AuthorityText, HlcJson, Json.Get;
    var fields := GrantJson(g).fields;
    assert fields.Keys == {Field.Role, Field.Granter, Field.WorkspaceId, Field.GrantId, Field.MemberId,
                           Field.GrantedAtHlc};
  }

  lemma RevokeExactly(raw: Json, r: RevokeCertificate)
    ensures DecodeRevoke(raw) == Success(r) <==> RevokeOk(r) && Spells(raw, RevokeJson(r).fields)
  {
    hide UuidText, UuidField, AuthorityText, AuthorityField, HlcJson, ParseHlc, IsMemberIdHex, Json.Get;
    AuthorityExactly(raw.Get(Field.Revoker), r.revoker);
    UuidExactly(raw.Get(Field.WorkspaceId), r.workspaceId);
    UuidExactly(raw.Get(Field.RevokeId), r.revokeId);
    UuidExactly(raw.Get(Field.GrantId), r.grantId);
    HlcExactly(raw.Get(Field.RevokedAtHlc), r.revokedAt);
    RevokeSpelled(raw, r);
    hide RevokeJson;
  }

  lemma RevokeSpelled(raw: Json, r: RevokeCertificate)
    ensures RevokeJson(r).Object?
    ensures Spells(raw, RevokeJson(r).fields) <==>
              && raw.Object? && raw.Get(Field.Revoker) == Text(AuthorityText(r.revoker))
              && raw.Get(Field.WorkspaceId) == Text(UuidText(r.workspaceId))
              && raw.Get(Field.RevokeId) == Text(UuidText(r.revokeId))
              && raw.Get(Field.GrantId) == Text(UuidText(r.grantId))
              && raw.Get(Field.RevokedAtHlc) == HlcJson(r.revokedAt)
  {
    hide UuidText, AuthorityText, HlcJson, Json.Get;
    var fields := RevokeJson(r).fields;
    assert fields.Keys == {Field.Revoker, Field.WorkspaceId, Field.RevokeId, Field.GrantId, Field.RevokedAtHlc};
  }

  lemma TargetExactly(raw: Json, t: PruneTarget)
    ensures ParseTarget(raw) == Some(t) <==> IsPositive(t) && Spells(raw, TargetJson(t).fields)
  {
    hide UuidText, UuidField, HexText, HexField, Json.Get;
    UuidExactly(raw.Get(Field.AuthorMemberId), t.authorMemberId);
    HexExactly(raw.Get(Field.EnvelopeHash), t.envelopeHash);
    TargetSpelled(raw, t);
    hide TargetJson;
  }

  lemma TargetSpelled(raw: Json, t: PruneTarget)
    ensures TargetJson(t).Object?
    ensures Spells(raw, TargetJson(t).fields) <==>
              && raw.Object? && raw.Get(Field.Seq) == Int(t.seqNo) && raw.Get(Field.AuthorSeq) == Int(t.authorSeq)
              && raw.Get(Field.AuthorMemberId) == Text(UuidText(t.authorMemberId))
              && raw.Get(Field.EnvelopeHash) == Text(HexText(t.envelopeHash))
  {
    hide UuidText, HexText, Json.Get;
    var fields := TargetJson(t).fields;
    assert fields.Keys == {Field.Seq, Field.AuthorSeq, Field.AuthorMemberId, Field.EnvelopeHash};
  }

  lemma {:induction false} TargetsExactly(items: seq<Json>, targets: seq<PruneTarget>)
    ensures ParseTargets(items) == Some(targets) <==>
              && |items| == |targets|
              && forall i | 0 <= i < |items| ::
                   IsPositive(targets[i]) && Spells(items[i], TargetJson(targets[i]).fields)
  {
    hide ParseTarget, IsPositive, Spells, TargetJson;
    if items != [] && targets != [] {
      TargetExactly(items[0], targets[0]);
      TargetsExactly(items[1..], targets[1..]);
      assert targets == [targets[0]] + targets[1..];
    }
  }

  /** A JSON value decodes to a prune exactly when it spells that prune, whose shape and numbers are legal. */
  lemma PruneExactly(raw: Json, p: PrunePayload)
    ensures DecodePrune(raw) == Success(p) <==>
              && PruneShape(p.targets) && raw.Object?
              && Spells(raw.Get(Field.Compaction), map[Field.OpId := Text(UuidText(p.compactionOpId))])
              && raw.Get(Field.Targets).Array? && |raw.Get(Field.Targets).items| == |p.targets|
              && forall i | 0 <= i < |p.targets| ::
                   IsPositive(p.targets[i]) && Spells(raw.Get(Field.Targets).items[i], TargetJson(p.targets[i]).fields)
  {
    hide ParseTargets, PruneShape, RequirePruneShape, UuidField, UuidText, IsPositive, TargetJson, Json.Get;
    UuidExactly(raw.Get(Field.Compaction).Get(Field.OpId), p.compactionOpId);
    PruneShapeExactly(p.targets);
    if raw.Get(Field.Targets).Array? {
      TargetsExactly(raw.Get(Field.Targets).items, p.targets);
    }
  }

  // --- What carries base64 ---

  lemma KeysCarried(sha256: Hash, raw: Json)
    requires DecodeKeys(sha256, raw).Success?
    ensures Carries(raw, KeysFields(sha256, DecodeKeys(sha256, raw).value))
  {
    hide UuidText, UuidField, Base64Text, Base64Field, KeyId, Json.Get, SameField;
    var keys := DecodeKeys(sha256, raw).value;
    UuidExactly(raw.Get(Field.MemberId), keys.memberId);
    Base64Carried(raw.Get(Field.SignPk), keys.signPk);
    Base64Carried(raw.Get(Field.KexPk), keys.kexPk);
    Base64Carried(raw.Get(Field.SignKeyId), KeyId(sha256, keys.signPk));
    Base64Carried(raw.Get(Field.KexKeyId), KeyId(sha256, keys.kexPk));
    SameFieldSelf(raw.Get(Field.MemberId));
    SameFieldSelf(raw.Get(Field.MemberKind));
  }

  lemma SameFieldSelf(raw: Json)
    ensures SameField(raw, raw)
  {
  }

  /** A registration that decodes is carried whole, the ids of its keys included. */
  lemma DecodedRegistrationIsCarried(sha256: Hash, raw: Json)
    requires DecodeRegistration(sha256, raw).Success?
    ensures Carries(raw, RegistrationJson(sha256, DecodeRegistration(sha256, raw).value).fields)
  {
    hide UuidText, UuidField, HlcJson, ParseHlc, KeysFields, DecodeKeys, Json.Get, SameField;
    var r := DecodeRegistration(sha256, raw).value;
    KeysCarried(sha256, raw);
    UuidExactly(raw.Get(Field.WorkspaceId), r.workspaceId);
    HlcExactly(raw.Get(Field.RegisteredAtHlc), r.registeredAt);
    SameFieldSelf(raw.Get(Field.WorkspaceId));
    SameFieldSelf(raw.Get(Field.RegisteredAtHlc));
  }

  /** So is a genesis, with its founder's keys in an object of their own. */
  lemma DecodedGenesisIsCarried(sha256: Hash, raw: Json)
    requires DecodeGenesis(sha256, raw).Success?
    ensures var g := DecodeGenesis(sha256, raw).value;
            && raw.Get(Field.WorkspaceId) == Text(UuidText(g.workspaceId))
            && SameField(raw.Get(Field.RootPk), Text(Base64Text(g.rootPk)))
            && Carries(raw.Get(Field.Founder), KeysFields(sha256, g.founder))
            && raw.Get(Field.CreatedAtHlc) == HlcJson(g.createdAt)
  {
    hide UuidText, UuidField, HlcJson, ParseHlc, KeysFields, DecodeKeys, Base64Text, Base64Field, Json.Get, SameField;
    var g := DecodeGenesis(sha256, raw).value;
    KeysCarried(sha256, raw.Get(Field.Founder));
    UuidExactly(raw.Get(Field.WorkspaceId), g.workspaceId);
    Base64Carried(raw.Get(Field.RootPk), g.rootPk);
    HlcExactly(raw.Get(Field.CreatedAtHlc), g.createdAt);
  }

  lemma DecodedRotateIsCarried(raw: Json)
    requires DecodeRotate(raw).Success?
    ensures var r := DecodeRotate(raw).value;
            && raw.Get(Field.WorkspaceId) == Text(UuidText(r.workspaceId))
            && raw.Get(Field.FromEpoch) == Int(r.fromEpoch) && raw.Get(Field.ToEpoch) == Int(r.toEpoch)
            && SameField(raw.Get(Field.KeywrapDigest), Text(Base64Text(r.keywrapDigest)))
            && raw.Get(Field.RotatedAtHlc) == HlcJson(r.rotatedAt)
  {
    hide UuidText, UuidField, HlcJson, ParseHlc, Base64Text, Base64Field, Json.Get, SameField;
    var r := DecodeRotate(raw).value;
    UuidExactly(raw.Get(Field.WorkspaceId), r.workspaceId);
    Base64Carried(raw.Get(Field.KeywrapDigest), r.keywrapDigest);
    HlcExactly(raw.Get(Field.RotatedAtHlc), r.rotatedAt);
  }

  /** A payload that decodes names its type and link verbatim, and carries its certificate, signature and authority. */
  lemma DecodedControlIsCarried(raw: Json)
    requires DecodeControl(raw).Success?
    ensures var p := DecodeControl(raw).value;
            && raw.Get(Field.Type) == Text(TypeText(p.controlType))
            && raw.Get(Field.PrevControlHash) == Text(HexText(p.prevControlHash))
            && (p.controlType in {MemberRegister, WorkspaceGenesis, Grant, Revoke} ==>
                  && SameField(raw.Get(Field.Cert), Text(Base64Text(p.certBytes)))
                  && SameField(raw.Get(SignatureField(p.controlType)), Text(Base64Text(p.signature))))
            && (p.controlType == Grant ==> raw.Get(Field.Granter) == Text(AuthorityText(p.authority)))
            && (p.controlType == Revoke ==> raw.Get(Field.Revoker) == Text(AuthorityText(p.authority)))
            && (p.controlType == Rotate ==> p.rotate.Some? && DecodeRotate(raw) == Success(p.rotate.value))
  {
    hide HexText, HexField, Base64Text, Base64Field, AuthorityText, AuthorityField, DecodeRotate, Json.Get, SameField;
    var p := DecodeControl(raw).value;
    HexExactly(raw.Get(Field.PrevControlHash), p.prevControlHash);
    Base64Carried(raw.Get(Field.Cert), p.certBytes);
    Base64Carried(raw.Get(SignatureField(p.controlType)), p.signature);
    AuthorityExactly(raw.Get(Field.Granter), p.authority);
    AuthorityExactly(raw.Get(Field.Revoker), p.authority);
  }
}
