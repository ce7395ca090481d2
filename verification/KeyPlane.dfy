/**
 `PUT /keywraps`: uploading the whole wrap set of one epoch, gated by the digest the log committed to.
 Source: backend/app/sync/routes.py. The reads of an upload may be stale; its writes meet the primary keys.
 */
module KeyPlane {
  import opened Wrappers
  import opened ByteStrings
  import opened Payloads
  import opened OpLog
  import opened KeyWraps

  datatype KeywrapRequest = KeywrapRequest(
    caller: Caller, epoch: int, escrowWrap: Bytes, wraps: seq<MemberWrap>, claimedDigest: Option<Bytes>)

  // --- Validation ---

  function MemberIds(wraps: seq<MemberWrap>): set<Uuid> {
    set w | w in wraps :: w.memberId
  }

  function CheckEntry(site: Site, members: map<Uuid, MemberRow>, userId: string, seen: set<Uuid>, w: MemberWrap)
    : Option<Code>
  {
    if |w.wrap| != KEYWRAP_BYTES then Some(MalformedKeywrap)
    else if w.memberId !in members || members[w.memberId].userId != userId then Some(UnknownKeywrapMember)
    else if members[w.memberId].kexPk.None? || KeyId(site.sha256, members[w.memberId].kexPk.value) != w.kexKeyId then
      Some(KexKeyIdNotRegistered)
    else if w.memberId in seen then Some(DuplicateKeywrapMember)
    else None
  }

  function CheckEntries(site: Site, members: map<Uuid, MemberRow>, userId: string, wraps: seq<MemberWrap>, n: nat)
    : Option<Refusal>
    requires n <= |wraps|
  {
    if n == 0 then None
    else
      var earlier := CheckEntries(site, members, userId, wraps, n - 1);
      if earlier.Some? then earlier
      else match CheckEntry(site, members, userId, MemberIds(wraps[..n - 1]), wraps[n - 1])
        case Some(code) => Some(Refusal(code, Some(n - 1)))
        case None => None
  }

  /** The checks before the epoch row is read; success is the digest of the uploaded set. */
  function Validate(site: Site, grants: map<Uuid, GrantRow>, members: map<Uuid, MemberRow>, r: KeywrapRequest)
    : Result<Bytes, Refusal>
  {
    var states := IndexOf(grants);
    if !(0 <= r.epoch <= MAX_KEY_EPOCH) then Failure(Refusal(MalformedKeyEpoch, None))
    else if Owner !in LiveRoles(states, r.caller.memberId) then
      Failure(Refusal(KeywrapRequiresOwner(IsRevokedMember(states, r.caller.memberId)), None))
    else if |r.escrowWrap| != EPOCH_KEY_ESCROW_WRAP_BYTES then Failure(Refusal(MalformedEscrowWrap, None))
    else match CheckEntries(site, members, r.caller.userId, r.wraps, |r.wraps|)
      case Some(refusal) => Failure(refusal)
      case None =>
        if !DigestShape(r.epoch, r.wraps, r.escrowWrap) then Failure(Refusal(ServerError, None))
        else Success(Digest(site.sha256, r.epoch, r.wraps, r.escrowWrap))
  }

  ghost predicate DistinctMembers(wraps: seq<MemberWrap>) {
    forall i, j | 0 <= i < j < |wraps| :: wraps[i].memberId != wraps[j].memberId
  }

  lemma {:induction false} CheckedEntriesAreDistinct(
    site: Site, members: map<Uuid, MemberRow>, userId: string, wraps: seq<MemberWrap>, n: nat)
    requires n <= |wraps| && CheckEntries(site, members, userId, wraps, n).None?
    ensures DistinctMembers(wraps[..n])
  {
    if n > 0 {
      CheckedEntriesAreDistinct(site, members, userId, wraps, n - 1);
      assert wraps[n - 1].memberId !in MemberIds(wraps[..n - 1]);
      forall i, j | 0 <= i < j < n
        ensures wraps[..n][i].memberId != wraps[..n][j].memberId
      {
        if j == n - 1 {
          assert wraps[..n - 1][i] in wraps[..n - 1];
          assert wraps[..n - 1][i].memberId in MemberIds(wraps[..n - 1]);
        } else {
          assert wraps[..n - 1][i].memberId != wraps[..n - 1][j].memberId;
        }
      }
    }
  }

  // --- Decision and writes ---

  /** What the upload read: the epoch row, and the wrap rows of the members it names. */
  datatype Seen = Seen(epoch: Option<EpochRow>, wraps: map<Uuid, WrapRow>)

  /** What it will write: a new epoch-0 row or the escrow wrap of an existing row, and the missing wrap rows. */
  datatype Writes = Writes(newEpoch: Option<EpochRow>, inserts: seq<MemberWrap>)

  function WrapRowOf(w: MemberWrap): WrapRow {
    WrapRow(w.kexKeyId, w.wrap)
  }

  predicate AnyDiffers(stored: map<Uuid, WrapRow>, wraps: seq<MemberWrap>) {
    exists w | w in wraps :: w.memberId in stored && stored[w.memberId] != WrapRowOf(w)
  }

  function Missing(stored: map<Uuid, WrapRow>, wraps: seq<MemberWrap>): (missing: seq<MemberWrap>)
    ensures forall w :: w in missing <==> w in wraps && w.memberId !in stored
  {
    if wraps == [] then []
    else
      var first := if wraps[0].memberId in stored then [] else [wraps[0]];
      first + Missing(stored, wraps[1..])
  }

  function Decide(seen: Seen, r: KeywrapRequest, computed: Bytes): Result<Writes, Code> {
    var missing := Missing(seen.wraps, r.wraps);
    var differs := AnyDiffers(seen.wraps, r.wraps);
    match seen.epoch
    case None =>
      if r.epoch != 0 then Failure(RotateNotMaterialised)
      else if r.claimedDigest.None? then Failure(MissingKeywrapDigest)
      else if |r.claimedDigest.value| != KEYWRAP_DIGEST_BYTES then Failure(MalformedKeywrapDigest)
      else if r.claimedDigest.value != computed then Failure(KeywrapDigestMismatch)
      else if differs then Failure(KeywrapAlreadyWritten)
      else Success(Writes(Some(EpochRow(computed, r.escrowWrap, None)), missing))
    case Some(row) =>
      if row.keywrapDigest != computed then Failure(KeywrapDigestMismatch)
      else if row.escrowWrap != [] && row.escrowWrap != r.escrowWrap then Failure(KeywrapDigestMismatch)
      else if differs then Failure(KeywrapAlreadyWritten)
      else Success(Writes(None, missing))
  }

  function AddWraps(stored: map<(Uuid, nat), WrapRow>, epoch: nat, wraps: seq<MemberWrap>): map<(Uuid, nat), WrapRow>
    decreases |wraps|
  {
    if wraps == [] then stored
    else AddWraps(stored[(wraps[0].memberId, epoch) := WrapRowOf(wraps[0])], epoch, wraps[1..])
  }

  /** Insert and commit. None when a primary key is already taken: nothing is written. */
  function Apply(db: Db, r: KeywrapRequest, w: Writes): Option<Db>
    requires r.epoch >= 0
  {
    var e: nat := r.epoch;
    if w.newEpoch.Some? && e in db.epochs then None
    else if exists i | i in w.inserts :: (i.memberId, e) in db.wraps then None
    else if w.newEpoch.None? && e !in db.epochs then None
    else
      var row := if w.newEpoch.Some? then w.newEpoch.value else db.epochs[e].(escrowWrap := r.escrowWrap);
      Some(db.(epochs := db.epochs[e := row], wraps := AddWraps(db.wraps, e, w.inserts)))
  }

  /** After a lost insert: re-read, and acknowledge only what is stored byte for byte. */
  function Recheck(db: Db, r: KeywrapRequest, computed: Bytes): Option<Code>
    requires r.epoch >= 0
  {
    var e: nat := r.epoch;
    if e !in db.epochs || db.epochs[e].keywrapDigest != computed then Some(KeywrapDigestMismatch)
    else if exists w | w in r.wraps :: (w.memberId, e) !in db.wraps || db.wraps[(w.memberId, e)] != WrapRowOf(w) then
      Some(KeywrapAlreadyWritten)
    else None
  }

  datatype KeywrapOutcome = Uploaded(db: Db) | Acknowledged | KeywrapRefused(refusal: Refusal)

  /** One upload: decided on `seen`, committed on `db`, re-checked on `later` when the commit loses a race. */
  function Upload(site: Site, r: KeywrapRequest, grants: map<Uuid, GrantRow>, members: map<Uuid, MemberRow>,
                  seen: Seen, db: Db, later: Db): KeywrapOutcome
  {
    match Validate(site, grants, members, r)
    case Failure(refusal) => KeywrapRefused(refusal)
    case Success(computed) =>
      match Decide(seen, r, computed)
      case Failure(code) => KeywrapRefused(Refusal(code, None))
      case Success(writes) =>
        match Apply(db, r, writes)
        case Some(db') => Uploaded(db')
        case None =>
          match Recheck(later, r, computed)
          case Some(code) => KeywrapRefused(Refusal(code, None))
          case None => Acknowledged
  }

  /** The rows an upload reads when nothing overlaps it. */
  function SeenNow(db: Db, r: KeywrapRequest): Seen {
    if r.epoch < 0 then Seen(None, map[])
    else
      var e: nat := r.epoch;
      Seen(if e in db.epochs then Some(db.epochs[e]) else None,
           map m | m in MemberIds(r.wraps) && (m, e) in db.wraps :: db.wraps[(m, e)])
  }

  // --- The invariant: the tables hold the committed set or nothing ---

  /** The rows of an epoch are exactly these wraps. */
  ghost predicate Holds(stored: map<(Uuid, nat), WrapRow>, epoch: nat, wraps: seq<MemberWrap>) {
    && (forall m :: (m, epoch) in stored ==> m in MemberIds(wraps))
    && (forall w | w in wraps :: (w.memberId, epoch) in stored && stored[(w.memberId, epoch)] == WrapRowOf(w))
  }

  /** Every string the digest of a set hashes. */
  ghost function Hashed(sha256: Hash, epoch: nat, wraps: seq<MemberWrap>, escrowWrap: Bytes): set<Bytes> {
    WrapStrings(wraps) + {escrowWrap, Preimage(sha256, epoch, wraps, escrowWrap)}
  }

  /** `wraps` and `escrowWrap` are a set the epoch row's digest commits to. */
  ghost predicate CommittedSet(
    sha256: Hash, strings: set<Bytes>, epoch: nat, row: EpochRow, wraps: seq<MemberWrap>, escrowWrap: Bytes) {
    && DistinctMembers(wraps) && DigestShape(epoch, wraps, escrowWrap)
    && Hashed(sha256, epoch, wraps, escrowWrap) <= strings
    && row.keywrapDigest == Digest(sha256, epoch, wraps, escrowWrap)
  }

  ghost predicate IsUnfilled(db: Db, e: nat)
    requires e in db.epochs
  {
    db.epochs[e].escrowWrap == [] && forall m :: (m, e) !in db.wraps
  }

  ghost predicate IsFilled(sha256: Hash, strings: set<Bytes>, db: Db, e: nat)
    requires e in db.epochs
  {
    exists wraps :: CommittedSet(sha256, strings, e, db.epochs[e], wraps, db.epochs[e].escrowWrap)
                    && Holds(db.wraps, e, wraps)
  }

  ghost predicate KeyInv(sha256: Hash, strings: set<Bytes>, db: Db) {
    && (forall m, e :: (m, e) in db.wraps ==> e in db.epochs)
    && (0 in db.epochs ==> db.epochs[0].escrowWrap != [])
    && (forall e | e in db.epochs :: IsUnfilled(db, e) || IsFilled(sha256, strings, db, e))
  }

  /** The reads are of rows that are still there, unchanged but for an escrow wrap filled in since. */
  ghost predicate SeenIsStale(db: Db, epoch: int, seen: Seen) {
    && (seen.epoch.Some? ==>
          && epoch >= 0 && epoch in db.epochs && db.epochs[epoch].keywrapDigest == seen.epoch.value.keywrapDigest
          && (seen.epoch.value.escrowWrap != [] ==> db.epochs[epoch].escrowWrap == seen.epoch.value.escrowWrap))
    && (forall m | m in seen.wraps :: (m, epoch) in db.wraps && db.wraps[(m, epoch)] == seen.wraps[m])
  }

  lemma DistinctMembersDistinctSlots(wraps: seq<MemberWrap>)
    requires DistinctMembers(wraps)
    ensures DistinctSlots(wraps)
  {
  }

  /** Without a collision, a digest commits to one set. */
  lemma OneSetPerDigest(
    sha256: Hash, strings: set<Bytes>, e: nat, row: EpochRow, a: seq<MemberWrap>, escrowA: Bytes,
    b: seq<MemberWrap>, escrowB: Bytes)
    requires HashWidth(sha256) && CollisionFree(sha256, strings)
    requires CommittedSet(sha256, strings, e, row, a, escrowA) && CommittedSet(sha256, strings, e, row, b, escrowB)
    ensures multiset(a) == multiset(b) && escrowA == escrowB
  {
    hide Preimage, DigestShape;
    var pa, pb := Preimage(sha256, e, a, escrowA), Preimage(sha256, e, b, escrowB);
    assert pa in Hashed(sha256, e, a, escrowA) && pb in Hashed(sha256, e, b, escrowB);
    PreimageIsInjective(sha256, e, a, escrowA, e, b, escrowB);
  }

  lemma HoldsSame(stored: map<(Uuid, nat), WrapRow>, e: nat, a: seq<MemberWrap>, b: seq<MemberWrap>)
    requires multiset(a) == multiset(b) && Holds(stored, e, a)
    ensures Holds(stored, e, b)
  {
    assert forall w :: w in a <==> w in multiset(a);
    assert forall w :: w in b <==> w in multiset(b);
    forall m | (m, e) in stored
      ensures m in MemberIds(b)
    {
      assert m in MemberIds(a);
      var w :| w in a && w.memberId == m;
      assert w in b;
    }
  }

  lemma {:induction false} AddWrapsExactly(stored: map<(Uuid, nat), WrapRow>, epoch: nat, wraps: seq<MemberWrap>)
    requires DistinctMembers(wraps)
    ensures var added := AddWraps(stored, epoch, wraps);
            && (forall k :: k in added <==> k in stored || (k.1 == epoch && k.0 in MemberIds(wraps)))
            && (forall w | w in wraps :: (w.memberId, epoch) in added && added[(w.memberId, epoch)] == WrapRowOf(w))
            && (forall k | k in stored && !(k.1 == epoch && k.0 in MemberIds(wraps)) :: added[k] == stored[k])
    decreases |wraps|
  {
    if wraps != [] {
      var stored' := stored[(wraps[0].memberId, epoch) := WrapRowOf(wraps[0])];
      MemberIdsOf(wraps);
      hide MemberIds, WrapRowOf;
      AddWrapsExactly(stored', epoch, wraps[1..]);
    }
  }

  lemma MemberIdsOf(wraps: seq<MemberWrap>)
    requires wraps != [] && DistinctMembers(wraps)
    ensures DistinctMembers(wraps[1..]) && wraps[0].memberId !in MemberIds(wraps[1..])
    ensures MemberIds(wraps) == {wraps[0].memberId} + MemberIds(wraps[1..])
    ensures forall w | w in wraps :: w == wraps[0] || w in wraps[1..]
  {
  }

  lemma {:induction false} MissingIsDistinct(stored: map<Uuid, WrapRow>, wraps: seq<MemberWrap>)
    requires DistinctMembers(wraps)
    ensures DistinctMembers(Missing(stored, wraps))
  {
    if wraps != [] {
      MissingIsDistinct(stored, wraps[1..]);
      var rest := Missing(stored, wraps[1..]);
      forall j | 0 <= j < |rest|
        ensures rest[j].memberId != wraps[0].memberId
      {
        assert rest[j] in rest;
        var k :| 0 <= k < |wraps[1..]| && wraps[1..][k] == rest[j];
        assert wraps[k + 1] == rest[j];
      }
    }
  }

  lemma ValidatedSet(site: Site, grants: map<Uuid, GrantRow>, members: map<Uuid, MemberRow>, r: KeywrapRequest)
    requires Validate(site, grants, members, r).Success?
    ensures 0 <= r.epoch <= MAX_KEY_EPOCH && DistinctMembers(r.wraps) && DigestShape(r.epoch, r.wraps, r.escrowWrap)
    ensures Validate(site, grants, members, r).value == Digest(site.sha256, r.epoch, r.wraps, r.escrowWrap)
    ensures r.escrowWrap != []
  {
    CheckedEntriesAreDistinct(site, members, r.caller.userId, r.wraps, |r.wraps|);
    assert r.wraps[..|r.wraps|] == r.wraps;
  }

  /** The requested set is one its epoch row's digest commits to. */
  ghost predicate Requested(sha256: Hash, strings: set<Bytes>, r: KeywrapRequest, computed: Bytes) {
    && 0 <= r.epoch <= MAX_KEY_EPOCH
    && r.escrowWrap != []
    && CommittedSet(sha256, strings, r.epoch, EpochRow(computed, r.escrowWrap, None), r.wraps, r.escrowWrap)
  }

  /** Filling an epoch that holds nothing: the whole set goes in. */
  lemma FillKeepsKeys(sha256: Hash, strings: set<Bytes>, db: Db, r: KeywrapRequest, computed: Bytes, row: EpochRow)
    requires KeyInv(sha256, strings, db) && Requested(sha256, strings, r, computed)
    requires row.keywrapDigest == computed && row.escrowWrap == r.escrowWrap
    requires forall m :: (m, r.epoch) !in db.wraps
    ensures KeyInv(sha256, strings,
            db.(epochs := db.epochs[r.epoch := row], wraps := AddWraps(db.wraps, r.epoch, r.wraps)))
  {
    hide DigestShape, Digest, Hashed;
    var e: nat := r.epoch;
    var db' := db.(epochs := db.epochs[e := row], wraps := AddWraps(db.wraps, e, r.wraps));
    AddWrapsExactly(db.wraps, e, r.wraps);
    forall f | f in db'.epochs
      ensures IsUnfilled(db', f) || IsFilled(sha256, strings, db', f)
    {
      if f == e {
        assert CommittedSet(sha256, strings, e, row, r.wraps, r.escrowWrap);
        assert Holds(db'.wraps, e, r.wraps);
      } else if IsFilled(sha256, strings, db, f) {
        var wraps :| CommittedSet(sha256, strings, f, db.epochs[f], wraps, db.epochs[f].escrowWrap)
                     && Holds(db.wraps, f, wraps);
        assert Holds(db'.wraps, f, wraps);
      }
    }
  }

  /** An upload that commits, whatever it read, leaves every epoch holding nothing or its committed set. */
  lemma UploadKeepsKeys(
    sha256: Hash, strings: set<Bytes>, db: Db, r: KeywrapRequest, seen: Seen, computed: Bytes, writes: Writes, db': Db)
    requires HashWidth(sha256) && CollisionFree(sha256, strings)
    requires KeyInv(sha256, strings, db) && SeenIsStale(db, r.epoch, seen) && Requested(sha256, strings, r, computed)
    requires Decide(seen, r, computed) == Success(writes) && Apply(db, r, writes) == Some(db')
    ensures KeyInv(sha256, strings, db')
    ensures r.epoch in db'.epochs && db'.epochs[r.epoch].keywrapDigest == computed
    ensures db'.epochs[r.epoch].escrowWrap == r.escrowWrap && Holds(db'.wraps, r.epoch, r.wraps)
    ensures r.epoch in db.epochs && IsFilled(sha256, strings, db, r.epoch) && db.epochs[r.epoch].escrowWrap != [] ==>
              db'.epochs == db.epochs && db'.wraps == db.wraps
  {
    hide DigestShape, Digest, Hashed, Decide, Apply, KeyInv, SeenIsStale, Requested;
    if r.epoch in db.epochs && db.epochs[r.epoch].escrowWrap != [] {
      FilledUploadIsIdle(sha256, strings, db, r, seen, computed, writes, db');
      SameKeysKeepInv(sha256, strings, db, db');
    } else {
      FillingUpload(sha256, strings, db, r, seen, computed, writes, db');
    }
  }

  lemma SameKeysKeepInv(sha256: Hash, strings: set<Bytes>, db: Db, db': Db)
    requires KeyInv(sha256, strings, db) && db'.epochs == db.epochs && db'.wraps == db.wraps
    ensures KeyInv(sha256, strings, db')
  {
  }

  lemma FillingUpload(
    sha256: Hash, strings: set<Bytes>, db: Db, r: KeywrapRequest, seen: Seen, computed: Bytes, writes: Writes, db': Db)
    requires KeyInv(sha256, strings, db) && SeenIsStale(db, r.epoch, seen) && Requested(sha256, strings, r, computed)
    requires r.epoch in db.epochs ==> db.epochs[r.epoch].escrowWrap == []
    requires Decide(seen, r, computed) == Success(writes) && Apply(db, r, writes) == Some(db')
    ensures KeyInv(sha256, strings, db')
    ensures r.epoch in db'.epochs && db'.epochs[r.epoch].keywrapDigest == computed
    ensures db'.epochs[r.epoch].escrowWrap == r.escrowWrap && Holds(db'.wraps, r.epoch, r.wraps)
  {
    hide KeyInv, DigestShape, Digest, Hashed, AddWraps, CommittedSet, IsFilled, Decide, SeenIsStale;
    NothingHeld(sha256, strings, db, r.epoch);
    FillingWrites(db, r, seen, computed, writes);
    RequestedSet(sha256, strings, r, computed);
    AddWrapsExactly(db.wraps, r.epoch, r.wraps);
    FillKeepsKeys(sha256, strings, db, r, computed, db'.epochs[r.epoch]);
  }

  lemma NothingHeld(sha256: Hash, strings: set<Bytes>, db: Db, e: nat)
    requires KeyInv(sha256, strings, db) && (e in db.epochs ==> db.epochs[e].escrowWrap == [])
    ensures forall m :: (m, e) !in db.wraps
  {
    hide IsFilled;
    if e in db.epochs {
      UnfilledHoldsNothing(sha256, strings, db, e);
    }
  }

  /** Against an epoch that holds nothing, the whole set is to be written. */
  lemma FillingWrites(db: Db, r: KeywrapRequest, seen: Seen, computed: Bytes, writes: Writes)
    requires r.epoch >= 0 && SeenIsStale(db, r.epoch, seen) && Decide(seen, r, computed) == Success(writes)
    requires forall m :: (m, r.epoch) !in db.wraps
    ensures writes.inserts == r.wraps
    ensures writes.newEpoch.Some? ==> writes.newEpoch.value == EpochRow(computed, r.escrowWrap, None)
    ensures writes.newEpoch.None? ==> r.epoch in db.epochs && db.epochs[r.epoch].keywrapDigest == computed
  {
    hide Missing, AnyDiffers;
    MissingAll(seen.wraps, r.wraps);
  }

  lemma RequestedSet(sha256: Hash, strings: set<Bytes>, r: KeywrapRequest, computed: Bytes)
    requires Requested(sha256, strings, r, computed)
    ensures DistinctMembers(r.wraps)
  {
  }

  lemma {:induction false} MissingAll(stored: map<Uuid, WrapRow>, wraps: seq<MemberWrap>)
    requires forall w | w in wraps :: w.memberId !in stored
    ensures Missing(stored, wraps) == wraps
  {
    if wraps != [] {
      assert wraps[0] in wraps;
      MissingAll(stored, wraps[1..]);
    }
  }

  lemma {:induction false} MissingNone(stored: map<Uuid, WrapRow>, wraps: seq<MemberWrap>)
    requires forall w | w in wraps :: w.memberId in stored
    ensures Missing(stored, wraps) == []
  {
    if wraps != [] {
      assert wraps[0] in wraps;
      MissingNone(stored, wraps[1..]);
    }
  }

  lemma UnfilledHoldsNothing(sha256: Hash, strings: set<Bytes>, db: Db, e: nat)
    requires KeyInv(sha256, strings, db) && e in db.epochs && db.epochs[e].escrowWrap == []
    ensures IsUnfilled(db, e)
  {
  }

  /** Re-uploading the set an epoch holds changes nothing. */
  lemma FilledUploadIsIdle(
    sha256: Hash, strings: set<Bytes>, db: Db, r: KeywrapRequest, seen: Seen, computed: Bytes, writes: Writes, db': Db)
    requires HashWidth(sha256) && CollisionFree(sha256, strings)
    requires KeyInv(sha256, strings, db) && SeenIsStale(db, r.epoch, seen) && Requested(sha256, strings, r, computed)
    requires r.epoch in db.epochs && db.epochs[r.epoch].escrowWrap != []
    requires Decide(seen, r, computed) == Success(writes) && Apply(db, r, writes) == Some(db')
    ensures db'.epochs == db.epochs && db'.wraps == db.wraps && db.epochs[r.epoch].keywrapDigest == computed
    ensures db.epochs[r.epoch].escrowWrap == r.escrowWrap && Holds(db.wraps, r.epoch, r.wraps)
  {
    hide DigestShape, Digest, Hashed;
    var e: nat := r.epoch;
    var row := db.epochs[e];
    FilledMatches(sha256, strings, db, r, computed);
    forall w | w in r.wraps
      ensures w.memberId in seen.wraps
    {
      assert (w.memberId, e) in db.wraps;
    }
    MissingNone(seen.wraps, r.wraps);
    assert db'.epochs[e] == row;
  }

  /** In a filled epoch, only the set it holds has the digest its row carries. */
  lemma FilledMatches(sha256: Hash, strings: set<Bytes>, db: Db, r: KeywrapRequest, computed: Bytes)
    requires HashWidth(sha256) && CollisionFree(sha256, strings)
    requires KeyInv(sha256, strings, db) && Requested(sha256, strings, r, computed)
    requires r.epoch in db.epochs && db.epochs[r.epoch].escrowWrap != []
    ensures db.epochs[r.epoch].keywrapDigest == computed <==>
              db.epochs[r.epoch].escrowWrap == r.escrowWrap && Holds(db.wraps, r.epoch, r.wraps)
  {
    hide DigestShape, Hashed;
    var e: nat := r.epoch;
    var row := db.epochs[e];
    var wraps :| CommittedSet(sha256, strings, e, row, wraps, row.escrowWrap) && Holds(db.wraps, e, wraps);
    if row.keywrapDigest == computed {
      assert CommittedSet(sha256, strings, e, row, r.wraps, r.escrowWrap);
      OneSetPerDigest(sha256, strings, e, row, wraps, row.escrowWrap, r.wraps, r.escrowWrap);
      HoldsSame(db.wraps, e, wraps, r.wraps);
    }
    if row.escrowWrap == r.escrowWrap && Holds(db.wraps, e, r.wraps) {
      HeldSetsAgree(db.wraps, e, wraps, r.wraps);
      DistinctMembersDistinctSlots(wraps);
      PreimageIgnoresOrder(sha256, e, wraps, r.wraps, r.escrowWrap);
    }
  }

  /** Two listings of the rows of one epoch, each naming a member once, are the same set. */
  lemma HeldSetsAgree(stored: map<(Uuid, nat), WrapRow>, e: nat, a: seq<MemberWrap>, b: seq<MemberWrap>)
    requires DistinctMembers(a) && DistinctMembers(b) && Holds(stored, e, a) && Holds(stored, e, b)
    ensures multiset(a) == multiset(b)
  {
    forall w: MemberWrap
      ensures w in a <==> w in b
    {
      if w in a { HeldByBoth(stored, e, a, b, w); }
      if w in b { HeldByBoth(stored, e, b, a, w); }
    }
    SameElementsOnce(a, b);
  }

  lemma HeldByBoth(stored: map<(Uuid, nat), WrapRow>, e: nat, a: seq<MemberWrap>, b: seq<MemberWrap>, w: MemberWrap)
    requires Holds(stored, e, a) && Holds(stored, e, b) && w in a
    ensures w in b
  {
  }

  lemma {:induction false} AtMostOnce(a: seq<MemberWrap>, w: MemberWrap)
    requires DistinctMembers(a)
    ensures multiset(a)[w] == if w in a then 1 else 0
  {
    if a != [] {
      var n := |a| - 1;
      AtMostOnce(a[..n], w);
      assert a == a[..n] + [a[n]];
      forall i | 0 <= i < n
        ensures a[..n][i] != a[n]
      {
        assert a[i].memberId != a[n].memberId;
      }
    }
  }

  lemma SameElementsOnce(a: seq<MemberWrap>, b: seq<MemberWrap>)
    requires DistinctMembers(a) && DistinctMembers(b)
    requires forall w :: w in a <==> w in b
    ensures multiset(a) == multiset(b)
  {
    forall w: MemberWrap
      ensures multiset(a)[w] == multiset(b)[w]
    {
      AtMostOnce(a, w);
      AtMostOnce(b, w);
    }
  }

  /** With current reads, a valid upload to a filled epoch is accepted exactly when it is the set the epoch holds. */
  lemma FilledAcceptsOnlyItsSet(
    sha256: Hash, strings: set<Bytes>, db: Db, r: KeywrapRequest, seen: Seen, computed: Bytes)
    requires HashWidth(sha256) && CollisionFree(sha256, strings)
    requires KeyInv(sha256, strings, db) && Requested(sha256, strings, r, computed)
    requires r.epoch in db.epochs && db.epochs[r.epoch].escrowWrap != []
    requires seen.epoch == Some(db.epochs[r.epoch]) && SeenIsStale(db, r.epoch, seen)
    requires forall w | w in r.wraps && (w.memberId, r.epoch) in db.wraps :: w.memberId in seen.wraps
    ensures Decide(seen, r, computed).Success? <==>
              db.epochs[r.epoch].escrowWrap == r.escrowWrap && Holds(db.wraps, r.epoch, r.wraps)
    ensures Decide(seen, r, computed).Success? ==>
              exists db' :: Apply(db, r, Decide(seen, r, computed).value) == Some(db')
                            && db'.epochs == db.epochs && db'.wraps == db.wraps
  {
    hide KeyInv, Requested, SeenIsStale, Holds, WrapRowOf, AnyDiffers, Missing, AddWraps, HashWidth, CollisionFree;
    FilledMatches(sha256, strings, db, r, computed);
    if Holds(db.wraps, r.epoch, r.wraps) {
      HeldNothingDiffers(db, r, seen);
      assert Missing(seen.wraps, r.wraps) == [];
    }
    if Decide(seen, r, computed).Success? {
      var db' := Apply(db, r, Decide(seen, r, computed).value).value;
      assert AddWraps(db.wraps, r.epoch, []) == db.wraps by { NothingAdded(db.wraps, r.epoch); }
      assert db'.epochs == db.epochs;
    }
  }

  lemma NothingAdded(stored: map<(Uuid, nat), WrapRow>, epoch: nat)
    ensures AddWraps(stored, epoch, []) == stored
  {
  }

  /** When the epoch holds the set, what was read of it lacks nothing and differs in nothing. */
  lemma HeldNothingDiffers(db: Db, r: KeywrapRequest, seen: Seen)
    requires r.epoch >= 0 && Holds(db.wraps, r.epoch, r.wraps) && SeenIsStale(db, r.epoch, seen)
    requires forall w | w in r.wraps && (w.memberId, r.epoch) in db.wraps :: w.memberId in seen.wraps
    ensures Missing(seen.wraps, r.wraps) == [] && !AnyDiffers(seen.wraps, r.wraps)
  {
    hide Missing;
    forall w | w in r.wraps
      ensures w.memberId in seen.wraps && seen.wraps[w.memberId] == WrapRowOf(w)
    {
      assert (w.memberId, r.epoch) in db.wraps;
    }
    MissingNone(seen.wraps, r.wraps);
  }

  /** The race path acknowledges exactly the set the epoch holds by then, and writes nothing. */
  lemma RecheckAcceptsOnlyItsSet(sha256: Hash, strings: set<Bytes>, db: Db, r: KeywrapRequest, computed: Bytes)
    requires HashWidth(sha256) && CollisionFree(sha256, strings)
    requires KeyInv(sha256, strings, db) && Requested(sha256, strings, r, computed)
    requires r.epoch in db.epochs && db.epochs[r.epoch].escrowWrap != []
    ensures Recheck(db, r, computed).None? <==>
              db.epochs[r.epoch].escrowWrap == r.escrowWrap && Holds(db.wraps, r.epoch, r.wraps)
  {
    hide DigestShape, Digest, Hashed;
    FilledMatches(sha256, strings, db, r, computed);
  }

  /** A commit is lost only to a request that has filled the epoch meanwhile. */
  lemma LostUploadFindsTheEpochFilled(
    sha256: Hash, strings: set<Bytes>, db: Db, r: KeywrapRequest, seen: Seen, computed: Bytes, writes: Writes)
    requires KeyInv(sha256, strings, db) && SeenIsStale(db, r.epoch, seen) && Requested(sha256, strings, r, computed)
    requires Decide(seen, r, computed) == Success(writes) && Apply(db, r, writes).None?
    ensures r.epoch in db.epochs && db.epochs[r.epoch].escrowWrap != []
  {
  }

  // --- Who may upload, and what ---

  /** Some Grant row of the Member is an owner's, and open. */
  ghost predicate HoldsOwnerGrant(grants: map<Uuid, GrantRow>, m: Uuid) {
    exists g | g in grants :: grants[g].memberId == m && grants[g].role == Owner && grants[g].revokedBySeq.None?
  }

  /** A wrap of the right width for a Member of the User, under the id of the key that Member registered. */
  predicate EntryStands(site: Site, members: map<Uuid, MemberRow>, userId: string, w: MemberWrap) {
    && |w.wrap| == KEYWRAP_BYTES
    && w.memberId in members && members[w.memberId].userId == userId
    && members[w.memberId].kexPk.Some?
    && var hash := site.sha256(members[w.memberId].kexPk.value); |hash| >= 8 && w.kexKeyId == hash[..8]
  }

  /** The request is an owner's, in range and of the right widths, and wraps to registered keys, one a Member. */
  ghost predicate UploadStands(
    site: Site, grants: map<Uuid, GrantRow>, members: map<Uuid, MemberRow>, r: KeywrapRequest) {
    && 0 <= r.epoch <= MAX_KEY_EPOCH && HoldsOwnerGrant(grants, r.caller.memberId)
    && |r.escrowWrap| == EPOCH_KEY_ESCROW_WRAP_BYTES && |r.wraps| < 0x1_0000_0000
    && (forall w | w in r.wraps :: EntryStands(site, members, r.caller.userId, w))
    && DistinctMembers(r.wraps)
  }

  lemma OwnerExactly(grants: map<Uuid, GrantRow>, m: Uuid)
    ensures Owner in LiveRoles(IndexOf(grants), m) <==> HoldsOwnerGrant(grants, m)
  {
    var states := IndexOf(grants);
    if g :| g in grants && grants[g].memberId == m && grants[g].role == Owner && grants[g].revokedBySeq.None? {
      assert states[g] == GrantState(m, Owner, false);
    }
    if Owner in LiveRoles(states, m) {
      var g :| g in states && states[g].memberId == m && !states[g].revoked && states[g].role == Owner;
      assert grants[g].memberId == m;
    }
  }

  lemma {:induction false} EntriesExactly(
    site: Site, members: map<Uuid, MemberRow>, userId: string, wraps: seq<MemberWrap>, n: nat)
    requires HashWidth(site.sha256) && n <= |wraps|
    ensures CheckEntries(site, members, userId, wraps, n).None? <==>
              && (forall i | 0 <= i < n :: EntryStands(site, members, userId, wraps[i]))
              && forall i, j | 0 <= i < j < n :: wraps[i].memberId != wraps[j].memberId
  {
    hide EntryStands, MemberIds, HashWidth;
    if n > 0 {
      EntriesExactly(site, members, userId, wraps, n - 1);
      EntryExactly(site, members, userId, MemberIds(wraps[..n - 1]), wraps[n - 1]);
      MemberIdsBefore(wraps, n - 1, wraps[n - 1].memberId);
      hide CheckEntry;
    }
  }

  lemma EntryExactly(site: Site, members: map<Uuid, MemberRow>, userId: string, seen: set<Uuid>, w: MemberWrap)
    requires HashWidth(site.sha256)
    ensures CheckEntry(site, members, userId, seen, w).None?
       <==> EntryStands(site, members, userId, w) && w.memberId !in seen
  {
  }

  lemma MemberIdsBefore(wraps: seq<MemberWrap>, n: nat, m: Uuid)
    requires n <= |wraps|
    ensures m in MemberIds(wraps[..n]) <==> exists i | 0 <= i < n :: wraps[i].memberId == m
  {
    if i :| 0 <= i < n && wraps[i].memberId == m {
      assert wraps[..n][i] in wraps[..n];
    }
  }

  /** Validation lets through exactly the requests that stand, and hands on the digest of their set. */
  lemma ValidateExactly(site: Site, grants: map<Uuid, GrantRow>, members: map<Uuid, MemberRow>, r: KeywrapRequest)
    requires HashWidth(site.sha256)
    ensures Validate(site, grants, members, r).Success? <==> UploadStands(site, grants, members, r)
    ensures UploadStands(site, grants, members, r) ==>
              Validate(site, grants, members, r).value == Digest(site.sha256, r.epoch, r.wraps, r.escrowWrap)
  {
    hide CheckEntries, Digest, LiveRoles, IndexOf, HoldsOwnerGrant, IsRevokedMember;
    OwnerExactly(grants, r.caller.memberId);
    EntriesExactly(site, members, r.caller.userId, r.wraps, |r.wraps|);
    if forall i | 0 <= i < |r.wraps| :: EntryStands(site, members, r.caller.userId, r.wraps[i]) {
      forall w | w in r.wraps
        ensures WrapShape(w) && EntryStands(site, members, r.caller.userId, w)
      {
        var i :| 0 <= i < |r.wraps| && r.wraps[i] == w;
      }
    }
  }

  /** The set is the one the epoch holds, or the one its row or, for a new epoch 0, the caller commits to. */
  ghost predicate SetFits(site: Site, db: Db, r: KeywrapRequest)
    requires 0 <= r.epoch
  {
    var e: nat, digest := r.epoch, Digest(site.sha256, r.epoch, r.wraps, r.escrowWrap);
    if e !in db.epochs then e == 0 && r.claimedDigest == Some(digest)
    else if db.epochs[e].escrowWrap == [] then db.epochs[e].keywrapDigest == digest
    else db.epochs[e].escrowWrap == r.escrowWrap && Holds(db.wraps, e, r.wraps)
  }

  lemma DecideExactly(site: Site, strings: set<Bytes>, db: Db, r: KeywrapRequest, computed: Bytes)
    requires HashWidth(site.sha256) && CollisionFree(site.sha256, strings) && KeyInv(site.sha256, strings, db)
    requires r.epoch >= 0 && Requested(site.sha256, strings, r, computed)
    requires computed == Digest(site.sha256, r.epoch, r.wraps, r.escrowWrap)
    ensures var decided := Decide(SeenNow(db, r), r, computed);
            (decided.Success? <==> SetFits(site, db, r)) && (decided.Success? ==> Apply(db, r, decided.value).Some?)
  {
    hide KeyInv, Requested, Digest, Hashed, DigestShape, CollisionFree, IsFilled, Holds;
    var e: nat := r.epoch;
    if e in db.epochs && db.epochs[e].escrowWrap != [] {
      SeenNowIsCurrent(db, r);
      FilledAcceptsOnlyItsSet(site.sha256, strings, db, r, SeenNow(db, r), computed);
    } else {
      NothingWrapped(site.sha256, strings, db, e);
      assert SeenNow(db, r).wraps == map[];
      MissingAll(SeenNow(db, r).wraps, r.wraps);
      DigestWidth(site.sha256, e, r.wraps, r.escrowWrap);
    }
  }

  lemma SeenNowIsCurrent(db: Db, r: KeywrapRequest)
    requires r.epoch >= 0 && r.epoch in db.epochs
    ensures SeenNow(db, r).epoch == Some(db.epochs[r.epoch]) && SeenIsStale(db, r.epoch, SeenNow(db, r))
    ensures forall w | w in r.wraps && (w.memberId, r.epoch) in db.wraps :: w.memberId in SeenNow(db, r).wraps
  {
    forall w | w in r.wraps
      ensures w.memberId in MemberIds(r.wraps)
    {
    }
  }

  lemma NothingWrapped(sha256: Hash, strings: set<Bytes>, db: Db, e: nat)
    requires KeyInv(sha256, strings, db) && (e in db.epochs ==> db.epochs[e].escrowWrap == [])
    ensures forall m :: (m, e) !in db.wraps
  {
    hide IsFilled;
    NothingHeld(sha256, strings, db, e);
  }

  lemma DigestWidth(sha256: Hash, epoch: nat, wraps: seq<MemberWrap>, escrowWrap: Bytes)
    requires HashWidth(sha256)
    ensures |Digest(sha256, epoch, wraps, escrowWrap)| == KEYWRAP_DIGEST_BYTES
  {
    hide Preimage;
  }

  /** An upload that no other request overlaps is stored if and only if the request stands and its set fits. */
  lemma UploadExactly(
    site: Site, strings: set<Bytes>, db: Db, grants: map<Uuid, GrantRow>, members: map<Uuid, MemberRow>,
    r: KeywrapRequest)
    requires HashWidth(site.sha256) && CollisionFree(site.sha256, strings) && KeyInv(site.sha256, strings, db)
    requires r.epoch >= 0 ==> Hashed(site.sha256, r.epoch, r.wraps, r.escrowWrap) <= strings
    ensures var outcome := Upload(site, r, grants, members, SeenNow(db, r), db, db);
            && (outcome.Uploaded? <==> UploadStands(site, grants, members, r) && SetFits(site, db, r))
            && !outcome.Acknowledged?
  {
    hide KeyInv, Requested, Validate, Decide, Apply, Digest, Hashed, DigestShape, CollisionFree, SetFits;
    ValidateExactly(site, grants, members, r);
    if UploadStands(site, grants, members, r) {
      StandsIsRequested(site, strings, grants, members, r);
      DecideExactly(site, strings, db, r, Digest(site.sha256, r.epoch, r.wraps, r.escrowWrap));
    }
  }

  lemma StandsIsRequested(
    site: Site, strings: set<Bytes>, grants: map<Uuid, GrantRow>, members: map<Uuid, MemberRow>, r: KeywrapRequest)
    requires HashWidth(site.sha256) && UploadStands(site, grants, members, r)
    requires Hashed(site.sha256, r.epoch, r.wraps, r.escrowWrap) <= strings
    ensures Requested(site.sha256, strings, r, Digest(site.sha256, r.epoch, r.wraps, r.escrowWrap))
  {
    hide Hashed, Digest, Preimage;
  }

  /** Only epoch 0 is ever created by an upload, and its digest is the caller's own. */
  lemma CreatorNamesItsSet(seen: Seen, db: Db, r: KeywrapRequest, computed: Bytes, writes: Writes, db': Db)
    requires r.epoch >= 0 && Decide(seen, r, computed) == Success(writes) && Apply(db, r, writes) == Some(db')
    ensures db'.epochs.Keys != db.epochs.Keys ==> r.epoch == 0 && 0 !in db.epochs && r.claimedDigest == Some(computed)
  {
    hide Missing, AnyDiffers, AddWraps;
    if writes.newEpoch.None? {
      assert db'.epochs.Keys == db.epochs.Keys;
    }
  }
}
