/**
 From the request body to parsed ops: base64, header, floor, served pairs, Workspace and author, and the body as far
 as the server reads it. Source: backend/app/sync/routes.py. JSON text and the hash are parameters.
 */
module Intake {
  import opened Wrappers
  import opened ByteStrings
  import opened Envelope
  import opened Payloads
  import opened JsonText
  import opened PruneCodec
  import opened ControlCodec
  import opened OpLog
  import opened LogInvariant

  /** The JSON text parser: none for bytes that are not UTF-8 JSON. */
  type JsonParser = Bytes -> Option<Json>

  // --- Bodies ---

  function PayloadOf(envelope: Bytes): Result<Bytes, Code> {
    match SplitEnvelope(envelope)
    case Failure(error) => Failure(BadEnvelope(error))
    case Success(split) =>
      match ParseBody(split.body)
      case Failure(error) => Failure(BadEnvelope(error))
      case Success(payload) => Success(payload)
  }

  function ReadPrune(parse: JsonParser, envelope: Bytes): Result<PrunePayload, Code> {
    var payload :- PayloadOf(envelope);
    match parse(payload)
    case None => Failure(MalformedPrunePayload)
    case Some(raw) => DecodePrune(raw)
  }

  function ReadControl(parse: JsonParser, envelope: Bytes): Result<ControlPayload, Code> {
    var payload :- PayloadOf(envelope);
    match parse(payload)
    case None => Failure(MalformedControlPayload)
    case Some(raw) => DecodeControl(raw)
  }

  /** The certificate of a payload's own type, from its literal bytes. */
  function ReadCertificate(parse: JsonParser, sha256: Bytes -> Bytes, p: ControlPayload): Result<Certificate, Code> {
    match (p.controlType, parse(p.certBytes))
    case (MemberRegister, Some(raw)) => var r :- DecodeRegistration(sha256, raw); Success(Registers(r))
    case (WorkspaceGenesis, Some(raw)) => var g :- DecodeGenesis(sha256, raw); Success(Founds(g))
    case (Grant, Some(raw)) => var g :- DecodeGrant(raw); Success(Grants(g))
    case (Revoke, Some(raw)) => var r :- DecodeRevoke(raw); Success(Revokes(r))
    case _ => Failure(MalformedControlPayload)
  }

  function BodyOf(site: Site, parse: JsonParser, header: OpHeader, envelope: Bytes): OpBody {
    if header.opClass == OP_CLASS_CONTROL then
      var control := ReadControl(parse, envelope);
      ControlBody(control, if control.Success? then ReadCertificate(parse, site.sha256, control.value)
                           else Failure(MalformedControlPayload))
    else if header.opClass == OP_CLASS_PRUNE then PruneBody(ReadPrune(parse, envelope))
    else Sealed
  }

  /** An op is a function of its envelope. */
  function OpOf(site: Site, parse: JsonParser, header: OpHeader, envelope: Bytes): Op {
    Op(envelope, site.sha256(envelope), header, BodyOf(site, parse, header, envelope))
  }

  // --- One envelope, and a batch ---

  function Take(site: Site, caller: Caller, parse: JsonParser, encoded: string): Result<Op, Code> {
    match ParseBase64(encoded)
    case None => Failure(MalformedBase64)
    case Some(envelope) =>
      match ParseHeader(envelope)
      case Failure(error) => Failure(BadEnvelope(error))
      case Success(header) =>
        if |envelope| < MinimumEnvelopeBytesForSuite(header.suite) then Failure(BadEnvelope(EnvelopeTooShort))
        else if CheckServed(header).Some? then Failure(BadEnvelope(CheckServed(header).value))
        else if header.workspaceId != site.workspaceId then Failure(WorkspaceMismatch)
        else if header.authorMemberId != caller.memberId then Failure(AuthorMemberMismatch)
        else Success(OpOf(site, parse, header, envelope))
  }

  /** The first `n` envelopes: refused at the first that is. */
  function TakeUpTo(site: Site, caller: Caller, parse: JsonParser, body: seq<string>, n: nat): Result<seq<Op>, Refusal>
    requires n <= |body|
  {
    if n == 0 then Success([])
    else
      var earlier :- TakeUpTo(site, caller, parse, body, n - 1);
      match Take(site, caller, parse, body[n - 1])
      case Success(op) => Success(earlier + [op])
      case Failure(code) => Failure(Refusal(code, Some(n - 1)))
  }

  lemma {:induction false} TakeFails(site: Site, caller: Caller, parse: JsonParser, body: seq<string>, n: nat, m: nat)
    requires n <= m <= |body| && TakeUpTo(site, caller, parse, body, n).Failure?
    ensures TakeUpTo(site, caller, parse, body, m) == TakeUpTo(site, caller, parse, body, n)
    decreases m
  {
    hide Take;
    if n < m {
      TakeFails(site, caller, parse, body, n, m - 1);
    }
  }

  /** The parsing loop, behind the two gates on the whole request. */
  method TakeBatch(
    site: Site, caller: Caller, parse: JsonParser, body: seq<string>) returns (r: Result<seq<Op>, Refusal>)
    ensures caller.userId !in site.derivedBy ==> r == Failure(Refusal(WorkspaceNotDerivable, None))
    ensures caller.userId in site.derivedBy && |body| > MAX_OPS_PER_BATCH ==> r == Failure(Refusal(BatchTooLarge, None))
    ensures caller.userId in site.derivedBy && |body| <= MAX_OPS_PER_BATCH ==>
              r == TakeUpTo(site, caller, parse, body, |body|)
  {
    hide Take;
    if caller.userId !in site.derivedBy { return Failure(Refusal(WorkspaceNotDerivable, None)); }
    if |body| > MAX_OPS_PER_BATCH { return Failure(Refusal(BatchTooLarge, None)); }
    var parsed: seq<Op> := [];
    for index := 0 to |body|
      invariant TakeUpTo(site, caller, parse, body, index) == Success(parsed)
    {
      var taken := Take(site, caller, parse, body[index]);
      if taken.Failure? {
        TakeFails(site, caller, parse, body, index + 1, |body|);
        return Failure(Refusal(taken.error, Some(index)));
      }
      parsed := parsed + [taken.value];
    }
    return Success(parsed);
  }

  // --- What the rest of the model takes for granted ---

  /** A taken op is the caller's, in this Workspace, well decoded, and says nothing its envelope does not. */
  lemma TakenIsSound(site: Site, caller: Caller, parse: JsonParser, encoded: string)
    requires Take(site, caller, parse, encoded).Success?
    ensures var op := Take(site, caller, parse, encoded).value;
            && WellDecoded(op) && op.Author() == caller.memberId && op.header.workspaceId == site.workspaceId
            && ParseHeader(op.envelope) == Success(op.header) && op == OpOf(site, parse, op.header, op.envelope)
            && MinimumEnvelopeBytesForSuite(op.header.suite) <= |op.envelope| && CheckServed(op.header).None?
            && op.hash == site.sha256(op.envelope)
            && (op.IsGrant() && op.GrantOf().role == Owner ==> op.GrantOf().granter == Root)
  {
    hide ParseBase64, ReadPrune, ReadControl, ReadCertificate, ParseHeader;
    var op := Take(site, caller, parse, encoded).value;
    ReadPruneIsShaped(parse, op.envelope);
    if ReadControl(parse, op.envelope).Success? {
      ReadControlIsSound(parse, site.sha256, op.envelope);
    }
  }

  lemma ReadPruneIsShaped(parse: JsonParser, envelope: Bytes)
    ensures ReadPrune(parse, envelope).Success? ==> PruneShape(ReadPrune(parse, envelope).value.targets)
  {
    hide DecodePrune, PruneShape;
    if ReadPrune(parse, envelope).Success? {
      DecodedPruneIsShaped(parse(PayloadOf(envelope).value).value);
    }
  }

  lemma ReadControlIsSound(parse: JsonParser, sha256: Bytes -> Bytes, envelope: Bytes)
    requires ReadControl(parse, envelope).Success?
    ensures var p := ReadControl(parse, envelope).value;
            && (p.controlType == Rotate ==> p.rotate.Some? && p.rotate.value.toEpoch == p.rotate.value.fromEpoch + 1
                                            && p.authority == NoAuthority)
            && (ReadCertificate(parse, sha256, p).Success? && ReadCertificate(parse, sha256, p).value.Grants? ==>
                  var g := ReadCertificate(parse, sha256, p).value.grant; g.role == Owner ==> g.granter == Root)
  {
    hide DecodeControl, DecodeGrant, DecodeRegistration, DecodeGenesis, DecodeRevoke;
    DecodedControlIsSound(parse(PayloadOf(envelope).value).value);
    var p := ReadControl(parse, envelope).value;
    if ReadCertificate(parse, sha256, p).Success? && ReadCertificate(parse, sha256, p).value.Grants? {
      DecodedGrantIsSound(parse(p.certBytes).value);
    }
  }

  /** A batch that parses meets every requirement the walk and the proofs put on its ops. */
  lemma {:induction false} TakenBatchIsSound(site: Site, caller: Caller, parse: JsonParser, body: seq<string>, n: nat)
    requires n <= |body| && TakeUpTo(site, caller, parse, body, n).Success?
    ensures var ops := TakeUpTo(site, caller, parse, body, n).value;
            |ops| == n && forall op | op in ops ::
              && WellDecoded(op) && op.Author() == caller.memberId
              && ParseHeader(op.envelope) == Success(op.header) && op == OpOf(site, parse, op.header, op.envelope)
  {
    hide Take, WellDecoded, OpOf, ParseHeader;
    if n > 0 {
      TakenBatchIsSound(site, caller, parse, body, n - 1);
      TakenIsSound(site, caller, parse, body[n - 1]);
    }
  }

  /**
   The book of ops needs only the promise authors make about envelopes: when one author never puts one op id on two
   envelopes, the ops parsed of them are told apart by author and op id.
   */
  lemma EnvelopesNameOps(site: Site, parse: JsonParser, a: Op, b: Op)
    requires ParseHeader(a.envelope) == Success(a.header) && a == OpOf(site, parse, a.header, a.envelope)
    requires ParseHeader(b.envelope) == Success(b.header) && b == OpOf(site, parse, b.header, b.envelope)
    requires a.Key() == b.Key() ==> a.envelope == b.envelope
    ensures a.Key() == b.Key() <==> a == b
  {
    hide ParseHeader, BodyOf;
  }
}
