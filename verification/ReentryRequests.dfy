/**
 The requests of the re-entry run: four envelopes as a Device would build them, and the ops the parsing loop makes
 of them. Source: backend/app/sync/routes.py, envelope.py and control_payload.py.
 */
module ReentryRequests {
  import opened Wrappers
  import opened ByteStrings
  import opened Envelope
  import opened Payloads
  import opened JsonText
  import opened ControlCodec
  import opened OpLog
  import opened KeyWraps
  import opened Intake
  import opened IntakeExactly

  // --- Names ---

  function Id(k: byte): Uuid {
    Uuid(seq(16, _ => k))
  }

  function ZeroDigits(n: nat): (s: string)
    ensures |s| == n
  {
    seq(n, _ => '0')
  }

  const DEVICE := Id(1)
  const WORKSPACE := Id(2)
  const GRANT_ID := Id(3)
  const LINK: Bytes32 := [1] + Zeros(31)
  const WHEN := Hlc(0, 0, ZeroDigits(32))
  const CALLER := Caller(DEVICE, "user", Zeros(32))

  lemma IdsDiffer(a: byte, b: byte)
    requires a != b
    ensures Id(a) != Id(b)
  {
    assert Id(a).bytes[0] != Id(b).bytes[0];
  }

  /** The op ids of the run, told apart. */
  lemma Distinct()
    ensures Id(10) != Id(11) && Id(10) != Id(12) && Id(10) != Id(13)
    ensures Id(11) != Id(12) && Id(11) != Id(13) && Id(12) != Id(13)
    ensures LINK != Zeros(32)
  {
    IdsDiffer(10, 11);
    IdsDiffer(10, 12);
    IdsDiffer(10, 13);
    IdsDiffer(11, 12);
    IdsDiffer(11, 13);
    IdsDiffer(12, 13);
    assert LINK[0] != Zeros(32)[0];
  }

  // --- What Root signed ---

  const GENESIS := GenesisCertificate(
    WORKSPACE, Zeros(32), MemberKeys(DEVICE, Zeros(32), Zeros(32), MEMBER_KIND_DEVICE), WHEN)
  const GRANT := GrantCertificate(WORKSPACE, GRANT_ID, DEVICE, Owner, Root, WHEN)
  const REVOKE := RevokeCertificate(WORKSPACE, Id(4), GRANT_ID, Root, WHEN)

  /** Three certificate texts; `Reader` says what JSON they spell. */
  const GENESIS_TEXT: Bytes := [1]
  const GRANT_TEXT: Bytes := [2]
  const REVOKE_TEXT: Bytes := [3]

  function Payload(kind: ControlType, link: Bytes32, certificate: Bytes): ControlPayload {
    ControlPayload(kind, link, certificate, Zeros(64), Root, None)
  }

  const GENESIS_PAYLOAD := Payload(WorkspaceGenesis, Zeros(32), GENESIS_TEXT)
  const GRANT_PAYLOAD := Payload(Grant, LINK, GRANT_TEXT)
  const REVOKE_PAYLOAD := Payload(Revoke, LINK, REVOKE_TEXT)

  /** A JSON reader for the six texts of the run: three certificates, and the three payloads that carry them. */
  function Reader(sha256: Hash): JsonParser {
    (text: Bytes) =>
      if text == [1] then Some(GenesisJson(sha256, GENESIS))
      else if text == [2] then Some(GrantJson(GRANT))
      else if text == [3] then Some(RevokeJson(REVOKE))
      else if text == [11] then ControlJson(GENESIS_PAYLOAD)
      else if text == [12] then ControlJson(GRANT_PAYLOAD)
      else if text == [13] then ControlJson(REVOKE_PAYLOAD)
      else None
  }

  /** A site of this Workspace on which Root's three signatures verify under its key. */
  predicate Accepts(site: Site) {
    && site.workspaceId == WORKSPACE && "user" in site.derivedBy
    && site.verify(SIGNING_DOMAIN_WORKSPACE_GENESIS_V1 + GENESIS_TEXT, Zeros(64), Zeros(32))
    && site.verify(SIGNING_DOMAIN_GRANT_V1 + GRANT_TEXT, Zeros(64), Zeros(32))
    && site.verify(SIGNING_DOMAIN_REVOKE_V1 + REVOKE_TEXT, Zeros(64), Zeros(32))
  }

  /** And whose hash is 32 bytes wide. */
  ghost predicate Suits(site: Site) {
    Accepts(site) && HashWidth(site.sha256)
  }

  lemma SomeSiteSuits() returns (site: Site)
    ensures Suits(site)
  {
    site := Site(WORKSPACE, {"user"}, {}, (input: Bytes, signature: Bytes, publicKey: Bytes) => true, _ => Zeros(32));
  }

  // --- Envelopes and ops ---

  function Header(opClass: byte, opId: byte, authorSeq: u64): OpHeader {
    OpHeader(SUITE_PLAINTEXT_V1, opClass, WORKSPACE, 0, Id(opId), DEVICE, Zeros(8), authorSeq, Zeros(32), Zeros(32),
      Zeros(24))
  }

  /** Header, framed payload, signature. */
  function EnvelopeOf(header: OpHeader, payload: Bytes): Bytes
    requires |payload| < 0x1_0000_0000
  {
    Enveloped(header, payload, Zeros(SIGNATURE_LENGTH_BYTES))
  }

  /** An op's bytes, and their hash. */
  datatype Wire = Wire(envelope: Bytes, hash: Bytes)

  datatype Wires = Wires(genesis: Wire, grant: Wire, revoke: Wire, content: Wire)

  const GENESIS_HEADER := Header(OP_CLASS_CONTROL, 10, 1)
  const GRANT_HEADER := Header(OP_CLASS_CONTROL, 11, 2)
  const REVOKE_HEADER := Header(OP_CLASS_CONTROL, 12, 3)
  const CONTENT_HEADER := Header(OP_CLASS_CONTENT, 13, 4)

  function WireOf(site: Site, header: OpHeader, payload: Bytes): Wire
    requires |payload| < 0x1_0000_0000
  {
    Wire(EnvelopeOf(header, payload), site.sha256(EnvelopeOf(header, payload)))
  }

  /** The four envelopes of the run. */
  function WiresOf(site: Site): Wires {
    Wires(WireOf(site, GENESIS_HEADER, [11]), WireOf(site, GRANT_HEADER, [12]), WireOf(site, REVOKE_HEADER, [13]),
          WireOf(site, CONTENT_HEADER, []))
  }

  function ControlOp(wire: Wire, header: OpHeader, payload: ControlPayload, certificate: Certificate): Op {
    Op(wire.envelope, wire.hash, header, ControlBody(Success(payload), Success(certificate)))
  }

  function GenesisOp(wires: Wires): Op {
    ControlOp(wires.genesis, GENESIS_HEADER, GENESIS_PAYLOAD, Founds(GENESIS))
  }

  function GrantOp(wires: Wires): Op {
    ControlOp(wires.grant, GRANT_HEADER, GRANT_PAYLOAD, Grants(GRANT))
  }

  function RevokeOp(wires: Wires): Op {
    ControlOp(wires.revoke, REVOKE_HEADER, REVOKE_PAYLOAD, Revokes(REVOKE))
  }

  function ContentOp(wires: Wires): Op {
    Op(wires.content.envelope, wires.content.hash, CONTENT_HEADER, Sealed)
  }

  lemma OpHeads(wires: Wires)
    ensures GenesisOp(wires).header == GENESIS_HEADER && GrantOp(wires).header == GRANT_HEADER
    ensures RevokeOp(wires).header == REVOKE_HEADER && ContentOp(wires).header == CONTENT_HEADER
  {
  }

  // --- The parsing loop reads them back ---

  lemma ClockIsWellFormed()
    ensures IsMemberIdHex(WHEN.memberIdHex)
  {
  }

  lemma HeaderFields(opClass: byte, opId: byte, authorSeq: u64)
    ensures var h := Header(opClass, opId, authorSeq);
            && h.workspaceId == WORKSPACE && h.authorMemberId == DEVICE
            && h.suite == SUITE_PLAINTEXT_V1 && h.opClass == opClass
  {
  }

  /** What a control op's payload and certificate texts spell is what its body holds. */
  lemma ControlIsRead(site: Site, header: OpHeader, text: Bytes, payload: ControlPayload, certificate: Certificate)
    requires site.workspaceId == WORKSPACE == header.workspaceId && header.authorMemberId == DEVICE
    requires |text| < 0x1_0000_0000
    requires header.suite == SUITE_PLAINTEXT_V1 && header.opClass == OP_CLASS_CONTROL
    requires ControlJson(payload).Some? && Reader(site.sha256)(text) == ControlJson(payload)
    requires IsNamed(payload.controlType) && IsEncodable(payload) && Normalised(payload) == payload
    requires ReadCertificate(Reader(site.sha256), site.sha256, payload) == Success(certificate)
    ensures Take(site, CALLER, Reader(site.sha256), Base64Text(EnvelopeOf(header, text)))
         == Success(ControlOp(WireOf(site, header, text), header, payload, certificate))
  {
    hide Base64Text, Enveloped, Take, Reader, ControlJson, ReadCertificate, IsEncodable, Normalised;
    ControlReadsBack(site, CALLER, Reader(site.sha256), header, text, Zeros(SIGNATURE_LENGTH_BYTES), payload);
  }

  lemma ReaderReads(sha256: Hash)
    ensures Reader(sha256)([1]) == Some(GenesisJson(sha256, GENESIS))
    ensures Reader(sha256)([2]) == Some(GrantJson(GRANT)) && Reader(sha256)([3]) == Some(RevokeJson(REVOKE))
    ensures Reader(sha256)([11]) == ControlJson(GENESIS_PAYLOAD)
    ensures Reader(sha256)([12]) == ControlJson(GRANT_PAYLOAD) && Reader(sha256)([13]) == ControlJson(REVOKE_PAYLOAD)
  {
    hide GenesisJson, GrantJson, RevokeJson, ControlJson;
  }

  /** Such payloads are in the form the decoder returns. */
  lemma PayloadIsNormal(kind: ControlType, link: Bytes32, certificate: Bytes)
    requires kind in {WorkspaceGenesis, Grant, Revoke} && certificate != []
    ensures var p := Payload(kind, link, certificate);
            IsNamed(p.controlType) && IsEncodable(p) && Normalised(p) == p && ControlJson(p).Some?
  {
    SomeJson(Payload(kind, link, certificate));
  }

  /** The three certificate texts are read as the certificates Root signed. */
  lemma CertificatesAreRead(sha256: Hash)
    requires HashWidth(sha256)
    ensures ReadCertificate(Reader(sha256), sha256, GENESIS_PAYLOAD) == Success(Founds(GENESIS))
    ensures ReadCertificate(Reader(sha256), sha256, GRANT_PAYLOAD) == Success(Grants(GRANT))
    ensures ReadCertificate(Reader(sha256), sha256, REVOKE_PAYLOAD) == Success(Revokes(REVOKE))
  {
    hide Reader, GenesisJson, GrantJson, RevokeJson, GenesisOk, GrantVerdict, RevokeOk, ReadCertificate, Zeros, Id;
    ReaderReads(sha256);
    CertificatesAreWellFormed();
    GenesisCertificateIsRead(Reader(sha256), sha256);
    GrantCertificateIsRead(Reader(sha256), sha256);
    RevokeCertificateIsRead(Reader(sha256), sha256);
  }

  lemma CertificatesAreWellFormed()
    ensures GenesisOk(GENESIS) && GrantVerdict(GRANT) == Success(GRANT) && RevokeOk(REVOKE)
  {
    hide IsMemberIdHex, ZeroDigits;
    ClockIsWellFormed();
  }

  lemma GenesisCertificateIsRead(parse: JsonParser, sha256: Hash)
    requires HashWidth(sha256) && GenesisOk(GENESIS) && parse(GENESIS_TEXT) == Some(GenesisJson(sha256, GENESIS))
    ensures ReadCertificate(parse, sha256, GENESIS_PAYLOAD) == Success(Founds(GENESIS))
  {
    hide ReadCertificate, GenesisJson, GenesisOk, Zeros, Id;
    CertificateReadsBack(parse, sha256, GENESIS_PAYLOAD, Founds(GENESIS));
  }

  lemma GrantCertificateIsRead(parse: JsonParser, sha256: Hash)
    requires HashWidth(sha256) && GrantVerdict(GRANT) == Success(GRANT) && parse(GRANT_TEXT) == Some(GrantJson(GRANT))
    ensures ReadCertificate(parse, sha256, GRANT_PAYLOAD) == Success(Grants(GRANT))
  {
    hide ReadCertificate, GrantJson, GrantVerdict, Zeros, Id;
    CertificateReadsBack(parse, sha256, GRANT_PAYLOAD, Grants(GRANT));
  }

  lemma RevokeCertificateIsRead(parse: JsonParser, sha256: Hash)
    requires HashWidth(sha256) && RevokeOk(REVOKE) && parse(REVOKE_TEXT) == Some(RevokeJson(REVOKE))
    ensures ReadCertificate(parse, sha256, REVOKE_PAYLOAD) == Success(Revokes(REVOKE))
  {
    hide ReadCertificate, RevokeJson, RevokeOk, Zeros, Id;
    CertificateReadsBack(parse, sha256, REVOKE_PAYLOAD, Revokes(REVOKE));
  }

  lemma GenesisIsRead(site: Site)
    requires Suits(site)
    ensures Take(site, CALLER, Reader(site.sha256), Base64Text(WiresOf(site).genesis.envelope))
         == Success(GenesisOp(WiresOf(site)))
  {
    hide Base64Text, EnvelopeOf, Take, ControlJson, ReadCertificate, Suits, Reader, IsNamed, IsEncodable, Normalised,
      Payload, Header;
    HeaderFields(OP_CLASS_CONTROL, 10, 1);
    PayloadIsNormal(WorkspaceGenesis, Zeros(32), GENESIS_TEXT);
    SuitsParts(site);
    ReaderReads(site.sha256);
    CertificatesAreRead(site.sha256);
    ControlIsRead(site, GENESIS_HEADER, [11], GENESIS_PAYLOAD, Founds(GENESIS));
  }

  lemma GrantIsRead(site: Site)
    requires Suits(site)
    ensures Take(site, CALLER, Reader(site.sha256), Base64Text(WiresOf(site).grant.envelope))
         == Success(GrantOp(WiresOf(site)))
  {
    hide Base64Text, EnvelopeOf, Take, ControlJson, ReadCertificate, Suits, Reader, IsNamed, IsEncodable, Normalised,
      Payload, Header;
    HeaderFields(OP_CLASS_CONTROL, 11, 2);
    PayloadIsNormal(Grant, LINK, GRANT_TEXT);
    SuitsParts(site);
    ReaderReads(site.sha256);
    CertificatesAreRead(site.sha256);
    ControlIsRead(site, GRANT_HEADER, [12], GRANT_PAYLOAD, Grants(GRANT));
  }

  lemma RevokeIsRead(site: Site)
    requires Suits(site)
    ensures Take(site, CALLER, Reader(site.sha256), Base64Text(WiresOf(site).revoke.envelope))
         == Success(RevokeOp(WiresOf(site)))
  {
    hide Base64Text, EnvelopeOf, Take, ControlJson, ReadCertificate, Suits, Reader, IsNamed, IsEncodable, Normalised,
      Payload, Header;
    HeaderFields(OP_CLASS_CONTROL, 12, 3);
    PayloadIsNormal(Revoke, LINK, REVOKE_TEXT);
    SuitsParts(site);
    ReaderReads(site.sha256);
    CertificatesAreRead(site.sha256);
    ControlIsRead(site, REVOKE_HEADER, [13], REVOKE_PAYLOAD, Revokes(REVOKE));
  }

  lemma ContentIsRead(site: Site)
    requires Suits(site)
    ensures Take(site, CALLER, Reader(site.sha256), Base64Text(WiresOf(site).content.envelope))
         == Success(ContentOp(WiresOf(site)))
  {
    hide Base64Text, Enveloped, Take, Suits, Reader, ReadControl, ReadPrune, ReadCertificate, Zeros;
    SuitsParts(site);
    PlainIsTaken(site, CALLER, Reader(site.sha256), CONTENT_HEADER, [], Zeros(SIGNATURE_LENGTH_BYTES));
  }

  lemma SuitsParts(site: Site)
    requires Suits(site)
    ensures Accepts(site) && site.workspaceId == WORKSPACE && "user" in site.derivedBy && HashWidth(site.sha256)
  {
  }

  lemma SomeJson(p: ControlPayload)
    requires p.controlType != Rotate
    ensures ControlJson(p).Some?
  {
  }

  // --- The three request bodies ---

  function FirstBody(wires: Wires): seq<string> {
    [Base64Text(wires.genesis.envelope), Base64Text(wires.grant.envelope)]
  }

  function SecondBody(wires: Wires): seq<string> {
    [Base64Text(wires.revoke.envelope)]
  }

  /** The Grant's own envelope again, and a content op behind it. */
  function ThirdBody(wires: Wires): seq<string> {
    [Base64Text(wires.grant.envelope), Base64Text(wires.content.envelope)]
  }

  lemma TakesTwo(site: Site, parse: JsonParser, body: seq<string>, a: Op, b: Op)
    requires |body| == 2
    requires Take(site, CALLER, parse, body[0]) == Success(a) && Take(site, CALLER, parse, body[1]) == Success(b)
    ensures TakeUpTo(site, CALLER, parse, body, 2) == Success([a, b])
  {
    hide Take;
    assert TakeUpTo(site, CALLER, parse, body, 0) == Success([]);
    assert TakeUpTo(site, CALLER, parse, body, 1) == Success([] + [a]);
    assert [] + [a] + [b] == [a, b];
  }

  /** What the parsing loop makes of each body. */
  lemma BodiesAreTaken(site: Site)
    requires Suits(site)
    ensures TakeUpTo(site, CALLER, Reader(site.sha256), FirstBody(WiresOf(site)), 2)
         == Success([GenesisOp(WiresOf(site)), GrantOp(WiresOf(site))])
    ensures TakeUpTo(site, CALLER, Reader(site.sha256), SecondBody(WiresOf(site)), 1)
         == Success([RevokeOp(WiresOf(site))])
    ensures TakeUpTo(site, CALLER, Reader(site.sha256), ThirdBody(WiresOf(site)), 2)
         == Success([GrantOp(WiresOf(site)), ContentOp(WiresOf(site))])
  {
    hide Take, Reader, Base64Text, WiresOf, Suits, GenesisOp, GrantOp, RevokeOp, ContentOp;
    GenesisIsRead(site);
    GrantIsRead(site);
    RevokeIsRead(site);
    ContentIsRead(site);
    TakesTwo(site, Reader(site.sha256), FirstBody(WiresOf(site)), GenesisOp(WiresOf(site)), GrantOp(WiresOf(site)));
    TakesTwo(site, Reader(site.sha256), ThirdBody(WiresOf(site)), GrantOp(WiresOf(site)), ContentOp(WiresOf(site)));
    assert TakeUpTo(site, CALLER, Reader(site.sha256), SecondBody(WiresOf(site)), 0) == Success([]);
    assert [] + [RevokeOp(WiresOf(site))] == [RevokeOp(WiresOf(site))];
  }
}
