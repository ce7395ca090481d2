/**
 What the parsing loop takes: exactly the base64 texts of envelopes it serves, of this Workspace and this caller, each
 read back as the op its author built. Source: backend/app/sync/routes.py and envelope.py.
 */
module IntakeExactly {
  import opened Wrappers
  import opened ByteStrings
  import opened Envelope
  import opened Payloads
  import opened JsonText
  import opened PruneCodec
  import opened ControlCodec
  import opened KeyWraps
  import opened OpLog
  import opened Intake

  // --- Which envelopes ---

  /** A served pair of suite and class, this Workspace, the caller as author, and room for the smallest body. */
  predicate IsAcceptable(site: Site, caller: Caller, header: OpHeader, length: nat) {
    && (|| (header.suite == SUITE_PLAINTEXT_V1
            && header.opClass in {OP_CLASS_CONTENT, OP_CLASS_CONTROL, OP_CLASS_COMPACTION, OP_CLASS_PRUNE})
        || (header.suite == SUITE_AEAD_V1 && header.opClass in {OP_CLASS_CONTENT, OP_CLASS_COMPACTION}))
    && header.workspaceId == site.workspaceId && header.authorMemberId == caller.memberId
    && HEADER_LENGTH_BYTES + 256 + SIGNATURE_LENGTH_BYTES
       + (if header.suite == SUITE_AEAD_V1 then AEAD_TAG_BYTES else 0) <= length
  }

  /** The text is base64 of this header and these bytes behind it. */
  predicate Spells(encoded: string, header: OpHeader, rest: Bytes) {
    ParseBase64(encoded) == Some(header.Serialize() + rest)
  }

  lemma SpelledOnce(site: Site, caller: Caller, parse: JsonParser, encoded: string, header: OpHeader, rest: Bytes)
    requires Spells(encoded, header, rest)
    ensures Take(site, caller, parse, encoded).Success?
       <==> IsAcceptable(site, caller, header, HEADER_LENGTH_BYTES + |rest|)
    ensures Take(site, caller, parse, encoded).Success? ==>
              Take(site, caller, parse, encoded) == Success(OpOf(site, parse, header, header.Serialize() + rest))
  {
    hide ParseBase64, ParseHeader, OpOf;
    ParseInvertsSerialize(header, rest);
  }

  /** A text is taken if and only if it spells an acceptable envelope, and then as the op of that envelope. */
  lemma TakeExactly(site: Site, caller: Caller, parse: JsonParser, encoded: string)
    ensures Take(site, caller, parse, encoded).Success? <==>
              exists header, rest :: Spells(encoded, header, rest)
                                     && IsAcceptable(site, caller, header, HEADER_LENGTH_BYTES + |rest|)
    ensures forall header, rest | Spells(encoded, header, rest)
                                  && IsAcceptable(site, caller, header, HEADER_LENGTH_BYTES + |rest|) ::
              Take(site, caller, parse, encoded) == Success(OpOf(site, parse, header, header.Serialize() + rest))
  {
    hide Take, IsAcceptable, Spells;
    forall header, rest | Spells(encoded, header, rest)
                          && IsAcceptable(site, caller, header, HEADER_LENGTH_BYTES + |rest|)
      ensures Take(site, caller, parse, encoded) == Success(OpOf(site, parse, header, header.Serialize() + rest))
    {
      SpelledOnce(site, caller, parse, encoded, header, rest);
    }
    if Take(site, caller, parse, encoded).Success? {
      var header, rest := SpelledBy(site, caller, parse, encoded);
      SpelledOnce(site, caller, parse, encoded, header, rest);
    }
  }

  lemma SpelledBy(site: Site, caller: Caller, parse: JsonParser, encoded: string)
    returns (header: OpHeader, rest: Bytes)
    requires Take(site, caller, parse, encoded).Success?
    ensures Spells(encoded, header, rest)
  {
    hide ParseBase64, ParseHeader, OpOf;
    var envelope := ParseBase64(encoded).value;
    header := ParseHeader(envelope).value;
    rest := [];
    if |envelope| >= HEADER_LENGTH_BYTES {
      SerializeInvertsParse(envelope);
      rest := envelope[HEADER_LENGTH_BYTES..];
      assert envelope == envelope[..HEADER_LENGTH_BYTES] + rest;
    } else {
      TooShort(envelope);
      assert false;
    }
  }

  lemma TooShort(envelope: Bytes)
    requires |envelope| < HEADER_LENGTH_BYTES
    ensures ParseHeader(envelope).Failure?
  {
  }

  /** A batch is taken if and only if each text in it is, in order; otherwise the first that is not is named. */
  lemma {:induction false} BatchExactly(site: Site, caller: Caller, parse: JsonParser, body: seq<string>, n: nat)
    requires n <= |body|
    ensures var taken := TakeUpTo(site, caller, parse, body, n);
            && (taken.Success? <==> forall i | 0 <= i < n :: Take(site, caller, parse, body[i]).Success?)
            && (taken.Success? ==>
                  && |taken.value| == n
                  && forall i | 0 <= i < n :: Take(site, caller, parse, body[i]) == Success(taken.value[i]))
            && (taken.Failure? ==>
                  exists i | 0 <= i < n ::
                    && taken.error.index == Some(i) && Take(site, caller, parse, body[i]) == Failure(taken.error.code)
                    && forall j | 0 <= j < i :: Take(site, caller, parse, body[j]).Success?)
  {
    hide Take;
    if n > 0 {
      BatchExactly(site, caller, parse, body, n - 1);
    }
  }

  // --- Plaintext ops ---

  /** Header, framed payload, signature. */
  function Enveloped(header: OpHeader, payload: Bytes, signature: Bytes): Bytes
    requires |payload| < 0x1_0000_0000
  {
    header.Serialize() + FrameBody(payload) + signature
  }

  /** A framed payload of an acceptable plaintext header is taken whatever its length, and read back. */
  lemma PlainIsTaken(
    site: Site, caller: Caller, parse: JsonParser, header: OpHeader, payload: Bytes, signature: Bytes)
    requires |payload| < 0x1_0000_0000 && |signature| == SIGNATURE_LENGTH_BYTES
    requires header.suite == SUITE_PLAINTEXT_V1
    requires header.opClass in {OP_CLASS_CONTENT, OP_CLASS_CONTROL, OP_CLASS_COMPACTION, OP_CLASS_PRUNE}
    requires header.workspaceId == site.workspaceId && header.authorMemberId == caller.memberId
    ensures var envelope := Enveloped(header, payload, signature);
            && Take(site, caller, parse, Base64Text(envelope)) == Success(OpOf(site, parse, header, envelope))
            && PayloadOf(envelope) == Success(payload)
  {
    hide Base64Text, ParseBase64, ParseHeader, SplitEnvelope, ParseBody, OpOf, Take, FrameBody;
    var envelope, body := Enveloped(header, payload, signature), FrameBody(payload);
    FramedLength(payload);
    ParseBase64OfText(envelope);
    assert header.Serialize() + (body + signature) == envelope;
    SpelledOnce(site, caller, parse, Base64Text(envelope), header, body + signature);
    SplitExactly(envelope, header.Serialize(), body, signature);
    ParseBodyInvertsFrameBody(payload);
  }

  lemma FramedLength(payload: Bytes)
    requires |payload| < 0x1_0000_0000
    ensures |FrameBody(payload)| >= 256
  {
    PaddedIsLeastLegal(PAYLOAD_LENGTH_PREFIX_BYTES + |payload|);
  }

  /** A prune op whose payload spells a legal prune is read as that prune. */
  lemma PruneReadsBack(
    site: Site, caller: Caller, parse: JsonParser, header: OpHeader, text: Bytes, signature: Bytes, p: PrunePayload)
    requires |text| < 0x1_0000_0000 && |signature| == SIGNATURE_LENGTH_BYTES
    requires header.suite == SUITE_PLAINTEXT_V1 && header.opClass == OP_CLASS_PRUNE
    requires header.workspaceId == site.workspaceId && header.authorMemberId == caller.memberId
    requires parse(text) == Some(PruneJson(p)) && PruneShape(p.targets) && AllPositive(p.targets)
    ensures var envelope := Enveloped(header, text, signature);
            Take(site, caller, parse, Base64Text(envelope))
            == Success(Op(envelope, site.sha256(envelope), header, PruneBody(Success(p))))
  {
    hide Base64Text, Enveloped, Take, PayloadOf, DecodePrune, PruneJson, PruneShape, AllPositive;
    PlainIsTaken(site, caller, parse, header, text, signature);
    DecodePruneInverts(p);
  }

  // --- Control ops ---

  function KindOf(c: Certificate): ControlType {
    match c
    case Registers(_) => MemberRegister
    case Founds(_) => WorkspaceGenesis
    case Grants(_) => Grant
    case Revokes(_) => Revoke
  }

  function CertificateJson(sha256: Hash, c: Certificate): Json {
    match c
    case Registers(registration) => RegistrationJson(sha256, registration)
    case Founds(genesis) => GenesisJson(sha256, genesis)
    case Grants(grant) => GrantJson(grant)
    case Revokes(revoke) => RevokeJson(revoke)
  }

  /** What a receiver asks of a certificate before any signature is checked. */
  predicate IsWellFormed(c: Certificate) {
    match c
    case Registers(registration) => RegistrationOk(registration)
    case Founds(genesis) => GenesisOk(genesis)
    case Grants(grant) => GrantVerdict(grant) == Success(grant)
    case Revokes(revoke) => RevokeOk(revoke)
  }

  /** A well-formed certificate of any of the four kinds is read back from the bytes that spell it. */
  lemma CertificateReadsBack(parse: JsonParser, sha256: Hash, p: ControlPayload, c: Certificate)
    requires HashWidth(sha256) && IsWellFormed(c)
    requires p.controlType == KindOf(c) && parse(p.certBytes) == Some(CertificateJson(sha256, c))
    ensures ReadCertificate(parse, sha256, p) == Success(c)
  {
    hide DecodeRegistration, DecodeGenesis, DecodeGrant, DecodeRevoke, RegistrationJson, GenesisJson, GrantJson,
      RevokeJson, RegistrationOk, GenesisOk, GrantVerdict, RevokeOk;
    match c
    case Registers(registration) => DecodeRegistrationInverts(sha256, registration);
    case Founds(genesis) => DecodeGenesisInverts(sha256, genesis);
    case Grants(grant) => DecodeGrantInverts(grant);
    case Revokes(revoke) => DecodeRevokeInverts(revoke);
  }

  /** A control op whose payload spells an encodable one is read as that payload and the certificate in it. */
  lemma ControlReadsBack(
    site: Site, caller: Caller, parse: JsonParser, header: OpHeader, text: Bytes, signature: Bytes, p: ControlPayload)
    requires |text| < 0x1_0000_0000 && |signature| == SIGNATURE_LENGTH_BYTES
    requires header.suite == SUITE_PLAINTEXT_V1 && header.opClass == OP_CLASS_CONTROL
    requires header.workspaceId == site.workspaceId && header.authorMemberId == caller.memberId
    requires ControlJson(p).Some? && parse(text) == ControlJson(p)
    requires IsNamed(p.controlType) && IsEncodable(p) && Normalised(p) == p
    ensures var envelope := Enveloped(header, text, signature);
            Take(site, caller, parse, Base64Text(envelope))
            == Success(Op(envelope, site.sha256(envelope), header,
                          ControlBody(Success(p), ReadCertificate(parse, site.sha256, p))))
  {
    hide Base64Text, Enveloped, Take, PayloadOf, DecodeControl, ControlJson, ReadCertificate, IsEncodable, Normalised;
    PlainIsTaken(site, caller, parse, header, text, signature);
    DecodeControlInverts(p);
  }
}
