/**
 The v1 op envelope: a fixed 158-byte header, a body padded to a size class, a 64-byte signature.
 Source: backend/app/sync/envelope.py.
 */
module Envelope {
  import opened Wrappers
  import opened ByteStrings

  const SUITE_PLAINTEXT_V1: byte := 0x00
  const SUITE_AEAD_V1: byte := 0x01

  const OP_CLASS_CONTENT: byte := 1
  const OP_CLASS_CONTROL: byte := 2
  const OP_CLASS_SUGGESTION: byte := 3
  const OP_CLASS_COMPACTION: byte := 4
  const OP_CLASS_PRUNE: byte := 5

  const SERVED_SUITES: set<byte> := {SUITE_PLAINTEXT_V1, SUITE_AEAD_V1}
  const SERVED_OP_CLASSES: set<byte> := {OP_CLASS_CONTENT, OP_CLASS_CONTROL, OP_CLASS_COMPACTION, OP_CLASS_PRUNE}

  const HEADER_LENGTH_BYTES := 158
  const SIGNATURE_LENGTH_BYTES := 64
  const ENVELOPE_OVERHEAD_BYTES := HEADER_LENGTH_BYTES + SIGNATURE_LENGTH_BYTES
  const AEAD_TAG_BYTES := 16
  const PAYLOAD_LENGTH_PREFIX_BYTES := 4
  const BODY_SIZE_CLASSES_BYTES: seq<nat> := [256, 1024, 4096, 16384]
  const BODY_OVERSIZE_MULTIPLE_BYTES := 16384
  const MINIMUM_ENVELOPE_BYTES := HEADER_LENGTH_BYTES + BODY_SIZE_CLASSES_BYTES[0] + SIGNATURE_LENGTH_BYTES

  type Bytes8 = b: Bytes | |b| == 8 witness Zeros(8)
  type Bytes24 = b: Bytes | |b| == 24 witness Zeros(24)
  type Bytes32 = b: Bytes | |b| == 32 witness Zeros(32)

  datatype EnvelopeError =
    | TruncatedEnvelope
    | EnvelopeTooShort
    | UnsupportedSuite
    | UnsupportedOpClass
    | EncryptedControlOp
    | EncryptedPruneOp
    | InvalidBodyLength
    | PayloadOverrunsBody
    | NonZeroPadding

  /** The plaintext prefix, field by field. */
  datatype OpHeader = OpHeader(
    suite: byte,
    opClass: byte,
    workspaceId: Uuid,
    keyEpoch: u32,
    opId: Uuid,
    authorMemberId: Uuid,
    authorKeyId: Bytes8,
    authorSeq: u64,
    prevAuthorHash: Bytes32,
    observedHead: Bytes32,
    nonce: Bytes24
  ) {
    /** Bytes 0 to 54: what the op is, where it goes and who wrote it. */
    function Identity(): (raw: Bytes)
      ensures |raw| == 54
    {
      [suite, opClass] + workspaceId.bytes + BigEndian(keyEpoch, 4) + opId.bytes + authorMemberId.bytes
    }

    /** Bytes 54 to 158: its place in the author's chain, and the nonce. */
    function Links(): (raw: Bytes)
      ensures |raw| == 104
    {
      authorKeyId + BigEndian(authorSeq, 8) + prevAuthorHash + observedHead + nonce
    }

    function Serialize(): (raw: Bytes)
      ensures |raw| == HEADER_LENGTH_BYTES
    {
      Identity() + Links()
    }
  }

  function ReadU32(b: Bytes): u32
    requires |b| == 4
  {
    ValueBound(b);
    Pow256Widths();
    Value(b)
  }

  function ReadU64(b: Bytes): u64
    requires |b| == 8
  {
    ValueBound(b);
    Pow256Widths();
    Value(b)
  }

  /** Reads the header off the front of `raw`; only a raw string shorter than a header is refused. */
  function ParseHeader(raw: Bytes): Result<OpHeader, EnvelopeError> {
    if |raw| < HEADER_LENGTH_BYTES then
      Failure(TruncatedEnvelope)
    else
      Success(OpHeader(
                raw[0], raw[1], Uuid(raw[2..18]), ReadU32(raw[18..22]), Uuid(raw[22..38]), Uuid(raw[38..54]),
                raw[54..62], ReadU64(raw[62..70]), raw[70..102], raw[102..134], raw[134..158]))
  }

  lemma IdentityFields(h: OpHeader)
    ensures var raw := h.Identity();
            && raw[0] == h.suite && raw[1] == h.opClass
            && raw[2..18] == h.workspaceId.bytes && raw[18..22] == BigEndian(h.keyEpoch, 4)
            && raw[22..38] == h.opId.bytes && raw[38..54] == h.authorMemberId.bytes
  {
    hide BigEndian;
  }

  lemma LinkFields(h: OpHeader)
    ensures var raw := h.Links();
            && raw[0..8] == h.authorKeyId && raw[8..16] == BigEndian(h.authorSeq, 8)
            && raw[16..48] == h.prevAuthorHash && raw[48..80] == h.observedHead && raw[80..104] == h.nonce
  {
    hide BigEndian;
  }

  lemma SliceOfFirst(a: Bytes, b: Bytes, lo: nat, hi: nat)
    requires lo <= hi <= |a|
    ensures (a + b)[lo..hi] == a[lo..hi]
  {
  }

  lemma SliceOfSecond(a: Bytes, b: Bytes, lo: nat, hi: nat)
    requires lo <= hi <= |b|
    ensures (a + b)[|a| + lo..|a| + hi] == b[lo..hi]
  {
  }

  /** Parsing inverts serializing, whatever follows the header. */
  lemma ParseInvertsSerialize(h: OpHeader, rest: Bytes)
    ensures ParseHeader(h.Serialize() + rest) == Success(h)
  {
    hide BigEndian, Value;
    var first, second := h.Identity(), h.Links() + rest;
    var raw := h.Serialize() + rest;
    assert raw == first + second;
    IdentityFields(h);
    LinkFields(h);
    SliceOfFirst(first, second, 2, 18);
    SliceOfFirst(first, second, 18, 22);
    SliceOfFirst(first, second, 22, 38);
    SliceOfFirst(first, second, 38, 54);
    SliceOfSecond(first, second, 0, 8);
    SliceOfSecond(first, second, 8, 16);
    SliceOfSecond(first, second, 16, 48);
    SliceOfSecond(first, second, 48, 80);
    SliceOfSecond(first, second, 80, 104);
    assert forall lo, hi | 0 <= lo <= hi <= 104 :: second[lo..hi] == h.Links()[lo..hi];
    Pow256Widths();
    ValueOfBigEndian(h.keyEpoch, 4);
    ValueOfBigEndian(h.authorSeq, 8);
  }

  /** ... and serializing inverts parsing: no two byte strings share a header, and no header byte is ignored. */
  lemma SerializeInvertsParse(raw: Bytes)
    requires |raw| >= HEADER_LENGTH_BYTES
    ensures ParseHeader(raw).Success?
    ensures ParseHeader(raw).value.Serialize() == raw[..HEADER_LENGTH_BYTES]
  {
    hide BigEndian, Value;
    var h := ParseHeader(raw).value;
    BigEndianOfValue(raw[18..22]);
    BigEndianOfValue(raw[62..70]);
    assert h.Identity() == raw[..54];
    assert h.Links() == raw[54..158];
  }

  /** Which suite goes with which class: plaintext is forced on the classes whose bodies are parsed. */
  function CheckServed(h: OpHeader): (error: Option<EnvelopeError>)
    ensures error.None? <==>
            || (h.suite == SUITE_PLAINTEXT_V1 && h.opClass in {1, 2, 4, 5})
            || (h.suite == SUITE_AEAD_V1 && h.opClass in {1, 4})
  {
    if h.suite !in SERVED_SUITES then Some(UnsupportedSuite)
    else if h.opClass !in SERVED_OP_CLASSES then Some(UnsupportedOpClass)
    else if h.suite == SUITE_AEAD_V1 && h.opClass == OP_CLASS_CONTROL then Some(EncryptedControlOp)
    else if h.suite == SUITE_AEAD_V1 && h.opClass == OP_CLASS_PRUNE then Some(EncryptedPruneOp)
    else None
  }

  // --- Body framing ---

  /** Ceiling division as the source spells it: `-(-n // m)` with a flooring `//`. */
  function PaddedBodyLength(framedLength: int): int {
    if framedLength <= BODY_SIZE_CLASSES_BYTES[0] then BODY_SIZE_CLASSES_BYTES[0]
    else if framedLength <= BODY_SIZE_CLASSES_BYTES[1] then BODY_SIZE_CLASSES_BYTES[1]
    else if framedLength <= BODY_SIZE_CLASSES_BYTES[2] then BODY_SIZE_CLASSES_BYTES[2]
    else if framedLength <= BODY_SIZE_CLASSES_BYTES[3] then BODY_SIZE_CLASSES_BYTES[3]
    else -((-framedLength) / BODY_OVERSIZE_MULTIPLE_BYTES) * BODY_OVERSIZE_MULTIPLE_BYTES
  }

  predicate IsLegalBodyLength(n: int) {
    n in BODY_SIZE_CLASSES_BYTES || (n > BODY_SIZE_CLASSES_BYTES[3] && n % BODY_OVERSIZE_MULTIPLE_BYTES == 0)
  }

  predicate IsLegalBodyLengthForSuite(suite: byte, n: int) {
    if suite != SUITE_AEAD_V1 then IsLegalBodyLength(n)
    else n > AEAD_TAG_BYTES && IsLegalBodyLength(n - AEAD_TAG_BYTES)
  }

  function MinimumEnvelopeBytesForSuite(suite: byte): nat {
    MINIMUM_ENVELOPE_BYTES + if suite == SUITE_AEAD_V1 then AEAD_TAG_BYTES else 0
  }

  /** The padded length is the least legal length that is large enough, for every integer. */
  lemma PaddedIsLeastLegal(n: int)
    ensures IsLegalBodyLength(PaddedBodyLength(n))
    ensures n <= PaddedBodyLength(n)
    ensures forall m: int :: n <= m && IsLegalBodyLength(m) ==> PaddedBodyLength(n) <= m
  {
  }

  lemma PaddedIsMonotone(n: int, m: int)
    requires n <= m
    ensures PaddedBodyLength(n) <= PaddedBodyLength(m)
  {
  }

  /** The tag width keeps the two suites' body lengths disjoint. */
  lemma NoLengthIsLegalForBothSuites(n: int)
    ensures !(IsLegalBodyLengthForSuite(SUITE_PLAINTEXT_V1, n) && IsLegalBodyLengthForSuite(SUITE_AEAD_V1, n))
  {
  }

  /** Every legal envelope reaches its suite's floor, and some legal envelope is exactly that long. */
  lemma FloorIsTight(suite: byte)
    ensures forall body: int :: IsLegalBodyLengthForSuite(suite, body) ==>
              MinimumEnvelopeBytesForSuite(suite) <= ENVELOPE_OVERHEAD_BYTES + body
    ensures IsLegalBodyLengthForSuite(suite, MinimumEnvelopeBytesForSuite(suite) - ENVELOPE_OVERHEAD_BYTES)
  {
  }

  function FrameBody(payload: Bytes): Bytes
    requires |payload| < 0x1_0000_0000
  {
    var framed := PAYLOAD_LENGTH_PREFIX_BYTES + |payload|;
    PaddedIsLeastLegal(framed);
    BigEndian(|payload|, PAYLOAD_LENGTH_PREFIX_BYTES) + payload + Zeros(PaddedBodyLength(framed) - framed)
  }

  function ParseBody(body: Bytes): Result<Bytes, EnvelopeError> {
    if !IsLegalBodyLength(|body|) then Failure(InvalidBodyLength)
    else
      var paddingStart := PAYLOAD_LENGTH_PREFIX_BYTES + Value(body[..PAYLOAD_LENGTH_PREFIX_BYTES]);
      if paddingStart > |body| then Failure(PayloadOverrunsBody)
      else if exists i | paddingStart <= i < |body| :: body[i] != 0 then Failure(NonZeroPadding)
      else Success(body[PAYLOAD_LENGTH_PREFIX_BYTES..paddingStart])
  }

  /** `body` is a u32 length, that many payload bytes, then only zeros, at a legal total length. */
  ghost predicate Framed(body: Bytes, payload: Bytes) {
    && IsLegalBodyLength(|body|)
    && |payload| < 0x1_0000_0000
    && PAYLOAD_LENGTH_PREFIX_BYTES + |payload| <= |body|
    && body == BigEndian(|payload|, PAYLOAD_LENGTH_PREFIX_BYTES) + payload
               + Zeros(|body| - PAYLOAD_LENGTH_PREFIX_BYTES - |payload|)
  }

  /** Unframing accepts exactly the framed bodies, and returns exactly their payload. */
  lemma ParseBodyExactly(body: Bytes, payload: Bytes)
    ensures ParseBody(body) == Success(payload) <==> Framed(body, payload)
  {
    if ParseBody(body) == Success(payload) {
      var prefix := body[..4];
      ValueBound(prefix);
      Pow256Widths();
      BigEndianOfValue(prefix);
      assert body == prefix + payload + body[4 + |payload|..];
      assert body[4 + |payload|..] == Zeros(|body| - 4 - |payload|);
    }
    if Framed(body, payload) {
      assert body[..4] == BigEndian(|payload|, 4);
      Pow256Widths();
      ValueOfBigEndian(|payload|, 4);
      assert body[4..4 + |payload|] == payload;
    }
  }

  lemma ParseBodyInvertsFrameBody(payload: Bytes)
    requires |payload| < 0x1_0000_0000
    ensures ParseBody(FrameBody(payload)) == Success(payload)
  {
    PaddedIsLeastLegal(PAYLOAD_LENGTH_PREFIX_BYTES + |payload|);
    ParseBodyExactly(FrameBody(payload), payload);
  }

  datatype Split = Split(header: Bytes, body: Bytes, signature: Bytes)

  function SplitEnvelope(envelope: Bytes): Result<Split, EnvelopeError> {
    if |envelope| <= ENVELOPE_OVERHEAD_BYTES then Failure(TruncatedEnvelope)
    else
      var bodyEnd := |envelope| - SIGNATURE_LENGTH_BYTES;
      Success(Split(envelope[..HEADER_LENGTH_BYTES], envelope[HEADER_LENGTH_BYTES..bodyEnd], envelope[bodyEnd..]))
  }

  /** Splitting cuts an envelope into the three parts it was built from, and only a non-empty body survives. */
  lemma SplitExactly(envelope: Bytes, header: Bytes, body: Bytes, signature: Bytes)
    ensures SplitEnvelope(envelope) == Success(Split(header, body, signature)) <==>
            && envelope == header + body + signature
            && |header| == HEADER_LENGTH_BYTES && |signature| == SIGNATURE_LENGTH_BYTES && body != []
  {
    if |envelope| > ENVELOPE_OVERHEAD_BYTES {
      var bodyEnd := |envelope| - SIGNATURE_LENGTH_BYTES;
      assert envelope == envelope[..158] + envelope[158..bodyEnd] + envelope[bodyEnd..];
    }
  }
}
