/**
 The recovery escrow slot: writers that overlap, the signature that lets them in, and the version guard.
 Source: backend/app/sync/routes.py and escrow.py.
 */
module EscrowSlot {
  import opened Wrappers
  import opened ByteStrings
  import opened Payloads
  import opened OpLog

  const FIRST_ESCROW_VERSION := 1
  const MAX_ESCROW_VERSION := 0x7fff_ffff_ffff_ffff
  const NO_ESCROW_STORED_VERSION := 0
  const ROOT_SIGNATURE_BYTES := 64
  const ROOT_PUBLIC_KEY_BYTES := 32
  const SIGNING_DOMAIN_ESCROW_V1 := Ascii("jeeves/escrow/v1")

  datatype EscrowRequest = EscrowRequest(version: int, blob: Bytes, rootSig: Bytes, rootPk: Bytes)

  /** What Root signs: the Workspace, the version and the blob, under the escrow domain. */
  function SigningInput(workspaceId: Uuid, version: nat, blob: Bytes): Bytes {
    SIGNING_DOMAIN_ESCROW_V1 + workspaceId.bytes + BigEndian(version, 8) + blob
  }

  function Verifies(site: Site, version: nat, blob: Bytes, rootSig: Bytes, rootPk: Bytes): bool {
    site.verify(SigningInput(site.workspaceId, version, blob), rootSig, rootPk)
  }

  /** A signed input names one Workspace, one version and one blob. */
  lemma SigningInputIsInjective(w: Uuid, v: nat, b: Bytes, w': Uuid, v': nat, b': Bytes)
    requires v <= MAX_ESCROW_VERSION && v' <= MAX_ESCROW_VERSION
    requires SigningInput(w, v, b) == SigningInput(w', v', b')
    ensures w == w' && v == v' && b == b'
  {
    hide BigEndian;
    var d := |SIGNING_DOMAIN_ESCROW_V1|;
    var s, s' := SigningInput(w, v, b), SigningInput(w', v', b');
    assert s[d..d + 16] == w.bytes && s'[d..d + 16] == w'.bytes;
    assert s[d + 16..d + 24] == BigEndian(v, 8) && s'[d + 16..d + 24] == BigEndian(v', 8);
    assert s[d + 24..] == b && s'[d + 24..] == b';
    Pow256Widths();
    ValueOfBigEndian(v, 8);
    ValueOfBigEndian(v', 8);
  }

  /** What Root, or a Member for a certificate, puts its name to. */
  const SIGNING_DOMAINS := [
    SIGNING_DOMAIN_MEMBER_REGISTER_V1, SIGNING_DOMAIN_WORKSPACE_GENESIS_V1, SIGNING_DOMAIN_GRANT_V1,
    SIGNING_DOMAIN_REVOKE_V1, SIGNING_DOMAIN_ESCROW_V1]

  /** No signature made under one domain is one under another, whatever follows it. */
  lemma DomainsAreApart(i: nat, j: nat, a: Bytes, b: Bytes)
    requires i < j < |SIGNING_DOMAINS|
    ensures SIGNING_DOMAINS[i] + a != SIGNING_DOMAINS[j] + b
  {
    var x, y := SIGNING_DOMAINS[i], SIGNING_DOMAINS[j];
    assert (x + a)[7] == x[7] && (y + b)[7] == y[7];
  }

  // --- One write ---

  /** The decided write: an insert, or an update of the row the decision saw. */
  datatype Write = Insert(row: EscrowRow) | Update(observed: nat, version: nat, blob: Bytes, rootSig: Bytes)

  /** What a request may do, judged by the row it read. */
  function Decide(site: Site, r: EscrowRequest, stored: Option<EscrowRow>): Result<Write, Code> {
    if |r.rootSig| != ROOT_SIGNATURE_BYTES then Failure(MalformedEscrowSignature)
    else if |r.rootPk| != ROOT_PUBLIC_KEY_BYTES then Failure(MalformedRootPk)
    else if !(FIRST_ESCROW_VERSION <= r.version <= MAX_ESCROW_VERSION) then Failure(MalformedEscrowVersion)
    else if !Verifies(site, r.version, r.blob, r.rootSig, if stored.Some? then stored.value.rootPk else r.rootPk) then
      Failure(BadEscrowSignature)
    else match stored
      case None =>
        if r.version != FIRST_ESCROW_VERSION then Failure(EscrowVersionRegression(NO_ESCROW_STORED_VERSION))
        else Success(Insert(EscrowRow(r.version, r.blob, r.rootSig, r.rootPk)))
      case Some(row) =>
        if r.version <= row.version then Failure(EscrowVersionRegression(row.version))
        else Success(Update(row.version, r.version, r.blob, r.rootSig))
  }

  /** The primary key, or the version in the `WHERE` clause, decides whether the write lands. */
  function Commit(slot: Option<EscrowRow>, w: Write): Option<EscrowRow> {
    match w
    case Insert(row) => if slot.None? then Some(row) else None
    case Update(observed, version, blob, rootSig) =>
      if slot.Some? && slot.value.version == observed then
        Some(slot.value.(version := version, blob := blob, rootSig := rootSig))
      else None
  }

  /** The version a refused writer is told: for a lost update, the one it decided against. */
  function LostTo(w: Write): Code {
    EscrowVersionRegression(match w
                            case Insert(_) => NO_ESCROW_STORED_VERSION
                            case Update(observed, _, _, _) => observed)
  }

  /** Decided on `seen`, committed on `slot`. */
  function Put(
    site: Site, r: EscrowRequest, seen: Option<EscrowRow>, slot: Option<EscrowRow>): Result<EscrowRow, Code> {
    var w :- Decide(site, r, seen);
    match Commit(slot, w)
    case Some(row) => Success(row)
    case None => Failure(LostTo(w))
  }

  /** Widths, a version in range, and Root's signature over domain, Workspace, version and blob under this key. */
  predicate IsWellSigned(site: Site, r: EscrowRequest, rootPk: Bytes) {
    && |r.rootSig| == 64 && |r.rootPk| == 32 && 1 <= r.version < 0x8000_0000_0000_0000
    && site.verify(
         SIGNING_DOMAIN_ESCROW_V1 + site.workspaceId.bytes + BigEndian(r.version, 8) + r.blob, r.rootSig, rootPk)
  }

  /** What a slot takes: a first version under the key it brings, then any higher version under the key it holds. */
  predicate Follows(site: Site, r: EscrowRequest, seen: Option<EscrowRow>) {
    match seen
    case None => r.version == 1 && IsWellSigned(site, r, r.rootPk)
    case Some(row) => row.version < r.version && IsWellSigned(site, r, row.rootPk)
  }

  /**
   Decided on one row and committed on another, a request is stored exactly when it follows a row that is still there;
   a well-signed one that is not is told the version it was decided against.
   */
  lemma PutExactly(site: Site, r: EscrowRequest, seen: Option<EscrowRow>, slot: Option<EscrowRow>)
    ensures Put(site, r, seen, slot).Success? <==>
              && Follows(site, r, seen)
              && seen.Some? == slot.Some? && (seen.Some? ==> seen.value.version == slot.value.version)
    ensures Follows(site, r, seen) ==>
              Put(site, r, seen, seen)
              == Success(EscrowRow(r.version, r.blob, r.rootSig, if seen.Some? then seen.value.rootPk else r.rootPk))
    ensures IsWellSigned(site, r, if seen.Some? then seen.value.rootPk else r.rootPk)
            && Put(site, r, seen, slot).Failure? ==>
              Put(site, r, seen, slot).error == EscrowVersionRegression(if seen.Some? then seen.value.version else 0)
  {
    hide BigEndian;
  }

  // --- Overlapping writers ---

  /** One request, and the version of the slot its read saw. */
  datatype Writer = Writer(request: EscrowRequest, readAt: nat)

  function Answer(site: Site, hist: seq<Option<EscrowRow>>, w: Writer, k: nat): Result<EscrowRow, Code>
    requires w.readAt <= k < |hist|
  {
    Put(site, w.request, hist[w.readAt], hist[k])
  }

  /** `hist[k]` is the slot before writer k commits, or fails to. */
  ghost predicate SlotRun(site: Site, hist: seq<Option<EscrowRow>>, writers: seq<Writer>) {
    && |hist| == |writers| + 1 && hist[0].None?
    && forall k | 0 <= k < |writers| ::
        && writers[k].readAt <= k
        && hist[k + 1] == match Answer(site, hist, writers[k], k)
                          case Success(row) => Some(row)
                          case Failure(_) => hist[k]
  }

  ghost predicate Lands(site: Site, hist: seq<Option<EscrowRow>>, writers: seq<Writer>, k: nat)
    requires SlotRun(site, hist, writers)
  {
    k < |writers| && Answer(site, hist, writers[k], k).Success?
  }

  /** `b` holds what `a` held, or a later version under the same Root key. */
  ghost predicate Succeeds(a: Option<EscrowRow>, b: Option<EscrowRow>) {
    a.Some? ==> b.Some? && b.value.rootPk == a.value.rootPk && (b == a || a.value.version < b.value.version)
  }

  ghost predicate Sound(site: Site, slot: Option<EscrowRow>) {
    slot.Some? ==>
      var row := slot.value;
      && FIRST_ESCROW_VERSION <= row.version <= MAX_ESCROW_VERSION && |row.rootPk| == ROOT_PUBLIC_KEY_BYTES
      && Verifies(site, row.version, row.blob, row.rootSig, row.rootPk)
  }

  /** A write that lands raises the version, keeps the key and is signed under it. */
  lemma LandedWrite(site: Site, r: EscrowRequest, seen: Option<EscrowRow>, slot: Option<EscrowRow>)
    requires Put(site, r, seen, slot).Success? && Succeeds(seen, slot) && Sound(site, slot)
    ensures var row := Put(site, r, seen, slot).value;
            && Sound(site, Some(row)) && Succeeds(slot, Some(row)) && row.version == r.version
            && (slot.Some? ==> slot == seen && slot.value.version < row.version)
            && (slot.None? ==> row.version == FIRST_ESCROW_VERSION)
  {
  }

  lemma {:induction false} RunIsSound(site: Site, hist: seq<Option<EscrowRow>>, writers: seq<Writer>, n: nat)
    requires SlotRun(site, hist, writers) && n < |hist|
    ensures forall k | 0 <= k <= n :: Sound(site, hist[k])
    ensures forall j, k | 0 <= j <= k <= n :: Succeeds(hist[j], hist[k])
  {
    hide Put, Sound;
    if n == 0 {
      NothingIsSound(site);
    } else {
      RunIsSound(site, hist, writers, n - 1);
      var w := writers[n - 1];
      if Answer(site, hist, w, n - 1).Success? {
        LandedWrite(site, w.request, hist[w.readAt], hist[n - 1]);
      }
    }
  }

  lemma NothingIsSound(site: Site)
    ensures Sound(site, None)
  {
  }

  /**
   Versions start at 1 and only grow; the key of the first write is the key of every later record, and each record
   verifies under it.
   */
  lemma SlotKeepsItsRoot(site: Site, hist: seq<Option<EscrowRow>>, writers: seq<Writer>, j: nat, k: nat)
    requires SlotRun(site, hist, writers) && j <= k < |hist| && hist[j].Some?
    ensures hist[k].Some? && hist[k].value.rootPk == hist[j].value.rootPk
    ensures hist[k] == hist[j] || hist[j].value.version < hist[k].value.version
    ensures Verifies(site, hist[k].value.version, hist[k].value.blob, hist[k].value.rootSig, hist[j].value.rootPk)
    ensures FIRST_ESCROW_VERSION <= hist[k].value.version
  {
    hide Put, Verifies;
    RunIsSound(site, hist, writers, k);
  }

  /** A writer lands if and only if its request follows the record it read, and that record is still the slot's. */
  lemma LandsExactly(site: Site, hist: seq<Option<EscrowRow>>, writers: seq<Writer>, k: nat)
    requires SlotRun(site, hist, writers) && k < |writers|
    ensures writers[k].readAt <= k
    ensures Lands(site, hist, writers, k) <==>
              Follows(site, writers[k].request, hist[writers[k].readAt]) && hist[k] == hist[writers[k].readAt]
  {
    hide Put, Follows, Sound, SlotRun;
    WriterRead(site, hist, writers, k);
    RunIsSound(site, hist, writers, k);
    PutExactly(site, writers[k].request, hist[writers[k].readAt], hist[k]);
    assert Succeeds(hist[writers[k].readAt], hist[k]);
  }

  lemma WriterRead(site: Site, hist: seq<Option<EscrowRow>>, writers: seq<Writer>, k: nat)
    requires SlotRun(site, hist, writers) && k < |writers|
    ensures |hist| == |writers| + 1 && writers[k].readAt <= k
  {
  }

  lemma FirstVersionIsOne(site: Site, hist: seq<Option<EscrowRow>>, writers: seq<Writer>, k: nat)
    requires SlotRun(site, hist, writers) && Lands(site, hist, writers, k) && hist[k].None?
    ensures hist[k + 1].Some? && hist[k + 1].value.version == FIRST_ESCROW_VERSION
  {
  }

  /** Once a write has landed, the slot is past the version it was decided against for good. */
  lemma LandingIsFinal(site: Site, hist: seq<Option<EscrowRow>>, writers: seq<Writer>, a: nat, b: nat)
    requires SlotRun(site, hist, writers) && Lands(site, hist, writers, a) && a < b < |hist|
    ensures hist[b].Some?
    ensures var seen := hist[writers[a].readAt]; seen.Some? ==> seen.value.version < hist[b].value.version
  {
    hide Verifies;
    RunIsSound(site, hist, writers, b);
    LandedWrite(site, writers[a].request, hist[writers[a].readAt], hist[a]);
    assert Succeeds(hist[a + 1], hist[b]);
  }

  /** Of two writers that decided against the same version, or both against an empty slot, at most one lands. */
  lemma OneWriterPerVersion(site: Site, hist: seq<Option<EscrowRow>>, writers: seq<Writer>, a: nat, b: nat)
    requires SlotRun(site, hist, writers) && a < b < |writers|
    requires writers[a].readAt < |hist| && writers[b].readAt < |hist|
    requires var seenA, seenB := hist[writers[a].readAt], hist[writers[b].readAt];
             seenA.Some? == seenB.Some? && (seenA.Some? ==> seenA.value.version == seenB.value.version)
    ensures !(Lands(site, hist, writers, a) && Lands(site, hist, writers, b))
  {
    hide Verifies;
    if Lands(site, hist, writers, a) && Lands(site, hist, writers, b) {
      LandingIsFinal(site, hist, writers, a, b);
      assert false;
    }
  }

  /** What the writer asked for is what the slot holds when its write lands, but for the key of an earlier write. */
  lemma LandedRecordIsTheRequest(site: Site, hist: seq<Option<EscrowRow>>, writers: seq<Writer>, k: nat)
    requires SlotRun(site, hist, writers) && Lands(site, hist, writers, k)
    ensures var r, row := writers[k].request, hist[k + 1];
            && row.Some? && row.value.version == r.version && row.value.blob == r.blob && row.value.rootSig == r.rootSig
            && row.value.rootPk == (if hist[k].Some? then hist[k].value.rootPk else r.rootPk)
  {
  }
}
