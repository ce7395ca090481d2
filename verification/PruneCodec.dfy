/**
 JSON fields, and the JSON form of a prune. Decoding an encoding gives the prune back exactly when the shape rules
 hold of it, and whatever decodes keeps them. Source: backend/app/sync/prune_payload.py.
 */
module PruneCodec {
  import opened Wrappers
  import opened ByteStrings
  import opened Envelope
  import opened Payloads
  import opened JsonText
  import opened OpLog
  import opened PruneRaces

  // --- Fields ---

  function HexField(raw: Json): Option<Bytes32> {
    if !raw.Text? then None
    else match ParseHex(raw.text)
      case Some(b) => if |b| == 32 then Some(b) else None
      case None => None
  }

  function Base64Field(raw: Json): Option<Bytes> {
    if raw.Text? then ParseBase64(raw.text) else None
  }

  function KeyField(raw: Json): Option<Bytes32> {
    match Base64Field(raw)
    case Some(b) => if |b| == 32 then Some(b) else None
    case None => None
  }

  function UuidField(raw: Json): Option<Uuid> {
    if raw.Text? then ParseUuid(raw.text) else None
  }

  function PositiveField(raw: Json): Option<nat> {
    if raw.Int? && raw.number > 0 then Some(raw.number) else None
  }

  function AuthorityText(a: Authority): string {
    match a
    case Root => "root"
    case Member(id) => UuidText(id)
    case NoAuthority => ""
  }

  function AuthorityField(raw: Json): Option<Authority> {
    if raw == Text("root") then Some(Root)
    else match UuidField(raw)
      case Some(id) => Some(Member(id))
      case None => None
  }

  lemma HexInverts(hash: Bytes32)
    ensures HexField(Text(HexText(hash))) == Some(hash)
  {
    ParseHexOfText(hash);
  }

  lemma Base64Inverts(bytes: Bytes)
    ensures Base64Field(Text(Base64Text(bytes))) == Some(bytes)
  {
    ParseBase64OfText(bytes);
  }

  lemma UuidInverts(id: Uuid)
    ensures UuidField(Text(UuidText(id))) == Some(id)
  {
    ParseUuidOfText(id);
  }

  lemma AuthorityInverts(a: Authority)
    ensures AuthorityField(Text(AuthorityText(a))) == if a == NoAuthority then None else Some(a)
  {
    if a.Member? {
      ParseUuidOfText(a.memberId);
    }
  }

  // --- Prunes ---

  /** The first shape rule a target list breaks. */
  function RequirePruneShape(targets: seq<PruneTarget>): Option<Code> {
    if targets == [] then Some(PruneTargetsEmpty)
    else if |targets| > MAX_PRUNE_TARGETS then Some(PruneTargetsTooMany)
    else if |TargetSeqs(targets)| != |targets| then Some(PruneDuplicateTarget)
    else if |TargetPositions(targets)| != |targets| then Some(PruneDuplicateTarget)
    else None
  }

  function TargetPositions(targets: seq<PruneTarget>): set<(Uuid, nat)> {
    set t | t in targets :: (t.authorMemberId, t.authorSeq)
  }

  /** Comparing set sizes to list lengths finds exactly the repeated seqs and positions. */
  lemma PruneShapeExactly(targets: seq<PruneTarget>)
    ensures RequirePruneShape(targets).None? <==> PruneShape(targets)
  {
    var seqs := seq(|targets|, i requires 0 <= i < |targets| => targets[i].seqNo);
    var positions := seq(|targets|, i requires 0 <= i < |targets| => (targets[i].authorMemberId, targets[i].authorSeq));
    forall s
      ensures s in TargetSeqs(targets) <==> s in Elements(seqs)
    {
      if s in TargetSeqs(targets) {
        var i :| 0 <= i < |targets| && targets[i].seqNo == s;
        assert seqs[i] == s;
      }
    }
    forall q
      ensures q in TargetPositions(targets) <==> q in Elements(positions)
    {
      if q in TargetPositions(targets) {
        var i :| 0 <= i < |targets| && (targets[i].authorMemberId, targets[i].authorSeq) == q;
        assert positions[i] == q;
      }
    }
    assert TargetSeqs(targets) == Elements(seqs) && TargetPositions(targets) == Elements(positions);
    SizeCountsRepeats(seqs);
    SizeCountsRepeats(positions);
    if NoRepeats(seqs) && NoRepeats(positions) {
      forall i, j | 0 <= i < j < |targets|
        ensures targets[i].seqNo != targets[j].seqNo
        ensures (targets[i].authorMemberId, targets[i].authorSeq) != (targets[j].authorMemberId, targets[j].authorSeq)
      {
        assert seqs[i] != seqs[j] && positions[i] != positions[j];
      }
    }
  }

  function Elements<T(==)>(s: seq<T>): set<T> {
    set x | x in s
  }

  ghost predicate NoRepeats<T(!new)>(s: seq<T>) {
    forall i, j | 0 <= i < j < |s| :: s[i] != s[j]
  }

  lemma {:induction false} SizeCountsRepeats<T(!new)>(s: seq<T>)
    ensures |Elements(s)| <= |s|
    ensures |Elements(s)| == |s| <==> NoRepeats(s)
  {
    if s == [] {
      assert Elements(s) == {};
    } else {
      var n := |s| - 1;
      var front, last := s[..n], s[n];
      SizeCountsRepeats(front);
      assert s == front + [last];
      assert Elements(s) == Elements(front) + {last};
      if last in front {
        assert Elements(s) == Elements(front);
        var i :| 0 <= i < n && front[i] == last;
        assert s[i] == s[n];
      } else {
        assert last !in Elements(front);
        assert forall i | 0 <= i < n :: s[i] == front[i] && front[i] in front;
      }
    }
  }

  function TargetJson(t: PruneTarget): Json {
    Object(map[Field.Seq := Int(t.seqNo), Field.AuthorMemberId := Text(UuidText(t.authorMemberId)),
               Field.AuthorSeq := Int(t.authorSeq), Field.EnvelopeHash := Text(HexText(t.envelopeHash))])
  }

  function ParseTarget(raw: Json): Option<PruneTarget> {
    if !raw.Object? then None
    else
      match (PositiveField(raw.Get(Field.Seq)), UuidField(raw.Get(Field.AuthorMemberId)),
             PositiveField(raw.Get(Field.AuthorSeq)), HexField(raw.Get(Field.EnvelopeHash)))
      case (Some(seqNo), Some(author), Some(authorSeq), Some(hash)) => Some(PruneTarget(seqNo, author, authorSeq, hash))
      case _ => None
  }

  predicate IsPositive(t: PruneTarget) {
    t.seqNo > 0 && t.authorSeq > 0
  }

  lemma TargetInverts(t: PruneTarget)
    ensures ParseTarget(TargetJson(t)) == if IsPositive(t) then Some(t) else None
  {
    hide HexField, UuidField, HexText, UuidText;
    HexInverts(t.envelopeHash);
    UuidInverts(t.authorMemberId);
    var fields := TargetJson(t);
    assert fields.Get(Field.Seq) == Int(t.seqNo) && fields.Get(Field.AuthorSeq) == Int(t.authorSeq);
  }

  function TargetsJson(targets: seq<PruneTarget>): (items: seq<Json>)
    ensures |items| == |targets|
  {
    if targets == [] then [] else [TargetJson(targets[0])] + TargetsJson(targets[1..])
  }

  function ParseTargets(items: seq<Json>): (targets: Option<seq<PruneTarget>>)
    ensures targets.Some? ==> forall t | t in targets.value :: IsPositive(t)
  {
    if items == [] then Some([])
    else
      match (ParseTarget(items[0]), ParseTargets(items[1..]))
      case (Some(first), Some(rest)) => Some([first] + rest)
      case _ => None
  }

  predicate AllPositive(targets: seq<PruneTarget>) {
    forall t | t in targets :: IsPositive(t)
  }

  lemma {:induction false} TargetsInvert(targets: seq<PruneTarget>)
    ensures ParseTargets(TargetsJson(targets)) == if AllPositive(targets) then Some(targets) else None
  {
    hide TargetJson, ParseTarget, IsPositive;
    if targets != [] {
      TargetInverts(targets[0]);
      TargetsInvert(targets[1..]);
      assert TargetsJson(targets)[1..] == TargetsJson(targets[1..]);
      assert targets == [targets[0]] + targets[1..];
      assert AllPositive(targets) == (IsPositive(targets[0]) && AllPositive(targets[1..]));
    }
  }

  function PruneJson(p: PrunePayload): Json {
    Object(map[Field.Compaction := Object(map[Field.OpId := Text(UuidText(p.compactionOpId))]),
               Field.Targets := Array(TargetsJson(p.targets))])
  }

  function DecodePrune(raw: Json): Result<PrunePayload, Code> {
    if !raw.Object? || !raw.Get(Field.Compaction).Object? || !raw.Get(Field.Targets).Array?
      then Failure(MalformedPrunePayload)
    else
      match (UuidField(raw.Get(Field.Compaction).Get(Field.OpId)), ParseTargets(raw.Get(Field.Targets).items))
      case (Some(opId), Some(targets)) =>
        (match RequirePruneShape(targets)
         case Some(code) => Failure(code)
         case None => Success(PrunePayload(opId, targets)))
      case _ => Failure(MalformedPrunePayload)
  }

  /** Decode inverts encode exactly on well-shaped prunes with positive numbers. */
  lemma DecodePruneInverts(p: PrunePayload)
    ensures DecodePrune(PruneJson(p)) == Success(p) <==> PruneShape(p.targets) && AllPositive(p.targets)
    ensures DecodePrune(PruneJson(p)).Success? ==> DecodePrune(PruneJson(p)) == Success(p)
  {
    hide UuidField, UuidText, ParseTargets, TargetsJson, RequirePruneShape, AllPositive, PruneShape;
    UuidInverts(p.compactionOpId);
    TargetsInvert(p.targets);
    PruneShapeExactly(p.targets);
    var raw := PruneJson(p);
    assert raw.Get(Field.Compaction).Get(Field.OpId) == Text(UuidText(p.compactionOpId));
    assert raw.Get(Field.Targets).items == TargetsJson(p.targets);
  }

  /** Whatever decodes is well shaped. */
  lemma DecodedPruneIsShaped(raw: Json)
    requires DecodePrune(raw).Success?
    ensures PruneShape(DecodePrune(raw).value.targets) && AllPositive(DecodePrune(raw).value.targets)
  {
    PruneShapeExactly(DecodePrune(raw).value.targets);
  }
}
