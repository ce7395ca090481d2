/**
 Requests that overlap. A run is the history of committed tables; each transaction reads earlier versions, one
 per statement, and commits on the latest one under the uniqueness constraints, with the source's one retry.
 Source: backend/app/sync/routes.py and models.py.

 Two facts about the database are assumed. Transport seqs become visible in commit order, above every seq
 visible before. The locks an insert or update takes are held to the commit, so flush and commit are one step.
 */
module Interleaving {
  import opened Wrappers
  import opened ByteStrings
  import opened Payloads
  import opened OpLog
  import opened OpLogFacts
  import opened LogInvariant
  import opened PruneRaces
  import opened KeyWraps
  import opened KeyPlane

  // --- Transactions ---

  /** Which version each query of a walk saw; `logs[i]` is for the lookups of the i-th op. */
  datatype WalkReads = WalkReads(
    grants: nat, workspace: nat, epoch: nat, replay: nat, escrow: nat, members: nat, logs: seq<nat>)

  /** Which versions the two queries of an append saw. */
  datatype AppendReads = AppendReads(existing: nat, heads: nat)

  /** A first append that lost the uniqueness constraint against version `at`. */
  datatype LostAppend = LostAppend(append: AppendReads, at: nat, seqs: seq<nat>)

  datatype Txn =
    | PostTxn(post: Post, walk: WalkReads, lost: Option<LostAppend>, append: AppendReads, seqs: seq<nat>)
    | KeywrapTxn(
        request: KeywrapRequest, grantsAt: nat, membersAt: nat, epochAt: nat, wrapsAt: map<Uuid, nat>, commitAt: nat)
    | OtherTables(grants: map<Uuid, GrantRow>, members: map<Uuid, MemberRow>, escrows: map<string, EscrowRow>)

  function ViewAt(hist: seq<Db>, p: Post, r: WalkReads): View
    requires ReadsWithin(r, |hist|, |p.ops|)
  {
    View(hist[r.grants].grants, hist[r.workspace].genesisSeq.Some?, CurrentKeyEpoch(hist[r.epoch].epochs.Keys),
         ReplayedOpIds(hist[r.replay].ops, p.caller.memberId, OpIds(p.ops)),
         RootPkOf(hist[r.escrow].escrows, p.caller.userId), hist[r.members].members,
         seq(|r.logs|, i requires 0 <= i < |r.logs| => hist[r.logs[i]].ops))
  }

  predicate ReadsWithin(r: WalkReads, versions: nat, ops: nat) {
    && r.grants < versions && r.workspace < versions && r.epoch < versions && r.replay < versions
    && r.escrow < versions && r.members < versions
    && |r.logs| == ops && forall i | 0 <= i < |r.logs| :: r.logs[i] < versions
  }

  predicate AppendWithin(a: AppendReads, versions: nat) {
    a.existing < versions && a.heads < versions
  }

  /** The append of a walked POST against a given version. */
  function AppendAt(hist: seq<Db>, at: nat, p: Post, w: Walk, a: AppendReads, seqs: seq<nat>): Outcome
    requires at < |hist| && AppendWithin(a, |hist|)
    requires AdmissionsWithin(w, |p.ops|) && |seqs| == |p.ops|
  {
    Append(hist[at], p, w, hist[a.existing].ops, hist[a.heads].ops, seqs)
  }

  /** What the requester is told. */
  datatype Answer =
    | Results(results: seq<OpResult>)
    | KeywrapsStored
    | Refusing(refusal: Refusal)
    | Silent

  /** The rows an upload read: absent where the version it looked at had none. */
  function SeenAt(hist: seq<Db>, t: Txn): Seen
    requires t.KeywrapTxn? && t.request.epoch >= 0 && t.epochAt < |hist|
    requires forall m | m in t.wrapsAt :: t.wrapsAt[m] < |hist|
  {
    var e: nat := t.request.epoch;
    Seen(if e in hist[t.epochAt].epochs then Some(hist[t.epochAt].epochs[e]) else None,
         map m | m in t.wrapsAt && (m, e) in hist[t.wrapsAt[m]].wraps :: hist[t.wrapsAt[m]].wraps[(m, e)])
  }

  /** Time runs forwards: what a transaction reads is committed, and its append reads come after its walk's. */
  ghost predicate Legal(site: Site, book: Book, strings: set<Bytes>, hist: seq<Db>, t: Txn) {
    && hist != []
    && var last := |hist| - 1;
       match t
       case PostTxn(p, walk, lost, append, seqs) =>
         && p.site == site && Honest(book, p.ops) && |seqs| == |p.ops|
         && (forall op | op in p.ops :: op.Author() == p.caller.memberId)
         && ReadsWithin(walk, |hist|, |p.ops|) && AppendWithin(append, |hist|)
         && walk.replay <= append.existing
         && FreshSeqs(hist[last].ops, seqs)
         && (lost.Some? ==>
               && |lost.value.seqs| == |p.ops| && AppendWithin(lost.value.append, |hist|)
               && walk.replay <= lost.value.append.existing
               && lost.value.at <= append.existing && lost.value.at <= append.heads && lost.value.at < |hist|
               && Walked(hist, p, walk).Success?
               && AppendAt(hist, lost.value.at, p, Walked(hist, p, walk).value, lost.value.append,
                 lost.value.seqs).Raced?)
         && (lost.None? && Walked(hist, p, walk).Success? ==>
               !AppendAt(hist, last, p, Walked(hist, p, walk).value, append, seqs).Raced?)
       case KeywrapTxn(r, grantsAt, membersAt, epochAt, wrapsAt, commitAt) =>
         && grantsAt < |hist| && membersAt < |hist| && epochAt < |hist| && commitAt < |hist|
         && (forall m | m in wrapsAt :: wrapsAt[m] <= commitAt) && epochAt <= commitAt
         && (r.epoch >= 0 ==> Hashed(site.sha256, r.epoch, r.wraps, r.escrowWrap) <= strings)
         && (Uploading(site, hist, t).Uploaded? ==> commitAt == last)
       case OtherTables(_, _, _) => true
  }

  /** The walk of a POST over the versions it read. */
  function Walked(hist: seq<Db>, p: Post, r: WalkReads): (w: Result<Walk, Refusal>)
    requires ReadsWithin(r, |hist|, |p.ops|)
    ensures w.Success? ==> AdmissionsWithin(w.value, |p.ops|)
  {
    AdmissionsAreWithin(p, ViewAt(hist, p, r), |p.ops|);
    WalkUpTo(p, ViewAt(hist, p, r), |p.ops|)
  }

  /** An upload, re-checked against the latest version when its own commit lost. */
  function Uploading(site: Site, hist: seq<Db>, t: Txn): KeywrapOutcome
    requires t.KeywrapTxn? && hist != []
    requires t.grantsAt < |hist| && t.membersAt < |hist| && t.epochAt < |hist| && t.commitAt < |hist|
    requires forall m | m in t.wrapsAt :: t.wrapsAt[m] < |hist|
  {
    var seen := if t.request.epoch >= 0 then SeenAt(hist, t) else Seen(None, map[]);
    Upload(site, t.request, hist[t.grantsAt].grants, hist[t.membersAt].members, seen,
           hist[t.commitAt], hist[|hist| - 1])
  }

  /** What a legal transaction leaves committed, and what it answers. */
  ghost function Perform(site: Site, book: Book, strings: set<Bytes>, hist: seq<Db>, t: Txn): (Db, Answer)
    requires Legal(site, book, strings, hist, t)
  {
    var last := |hist| - 1;
    var db := hist[last];
    match t
    case PostTxn(p, walk, lost, append, seqs) =>
      (match Walked(hist, p, walk)
       case Failure(refusal) => (db, Refusing(refusal))
       case Success(w) =>
         match AppendAt(hist, last, p, w, append, seqs)
         case Answered(results, db') => (db', Results(results))
         case Refused(refusal) => (db, Refusing(refusal))
         case Raced => (db, Refusing(Refusal(AuthorChainConflict(None), None))))
    case KeywrapTxn(_, _, _, _, _, _) =>
      (match Uploading(site, hist, t)
       case Uploaded(db') => (db', KeywrapsStored)
       case Acknowledged => (db, KeywrapsStored)
       case KeywrapRefused(refusal) => (db, Refusing(refusal)))
    case OtherTables(grants, members, escrows) =>
      (db.(grants := grants, members := members, escrows := escrows), Silent)
  }

  ghost predicate Empty(db: Db) {
    db.ops == [] && db.genesisSeq.None? && db.epochs == map[] && db.wraps == map[]
  }

  /** A run: `hist[k]` is what is committed before transaction k. */
  ghost predicate Run(site: Site, book: Book, strings: set<Bytes>, hist: seq<Db>, txns: seq<Txn>) {
    && |hist| == |txns| + 1
    && Empty(hist[0])
    && forall k | 0 <= k < |txns| :: RunStep(site, book, strings, hist, txns, k)
  }

  ghost predicate RunStep(site: Site, book: Book, strings: set<Bytes>, hist: seq<Db>, txns: seq<Txn>, k: nat)
    requires k < |txns| && |hist| == |txns| + 1
  {
    Legal(site, book, strings, hist[..k + 1], txns[k])
    && hist[k + 1] == Perform(site, book, strings, hist[..k + 1], txns[k]).0
  }

  ghost function AnswerAt(site: Site, book: Book, strings: set<Bytes>, hist: seq<Db>, txns: seq<Txn>, k: nat): Answer
    requires Run(site, book, strings, hist, txns) && k < |txns|
  {
    assert RunStep(site, book, strings, hist, txns, k);
    Perform(site, book, strings, hist[..k + 1], txns[k]).1
  }

  // --- The log: growth, and what every version keeps ---

  /** Ops and epoch rows are never removed, and no stamp is moved. */
  ghost predicate Grows(a: Db, b: Db) {
    Extends(a.ops, b.ops) && a.epochs.Keys <= b.epochs.Keys
  }

  ghost predicate Good(book: Book, db: Db) {
    LogInv(book, db.ops, db.epochs.Keys)
  }

  /** The log so far is sound: every version is, and later ones have grown from earlier ones. */
  ghost predicate GoodHistory(book: Book, hist: seq<Db>) {
    && (forall k | 0 <= k < |hist| :: Good(book, hist[k]))
    && (forall j, k | 0 <= j <= k < |hist| :: Grows(hist[j], hist[k]))
  }

  lemma GrowsSelf(db: Db)
    ensures Grows(db, db)
  {
  }

  lemma GrowsTransitive(a: Db, b: Db, c: Db)
    requires Grows(a, b) && Grows(b, c)
    ensures Grows(a, c)
  {
  }

  lemma EmptyIsGood(book: Book, db: Db)
    requires Empty(db)
    ensures Good(book, db)
  {
  }

  // --- Reads of earlier versions are stale reads ---

  lemma ReplayedAreStored(rows: seq<OpRow>, later: seq<OpRow>, author: Uuid, ids: set<Uuid>, op: Op)
    requires Extends(rows, later) && op.Author() == author && op.header.opId in ReplayedOpIds(rows, author, ids)
    ensures exists r | r in later :: r.op.Key() == op.Key()
  {
  }

  lemma EarlierReadsAreStale(book: Book, hist: seq<Db>, p: Post, walk: WalkReads, append: AppendReads)
    requires GoodHistory(book, hist) && hist != []
    requires ReadsWithin(walk, |hist|, |p.ops|) && AppendWithin(append, |hist|) && walk.replay <= append.existing
    requires forall op | op in p.ops :: op.Author() == p.caller.memberId
    ensures ReadsAreStale(hist[|hist| - 1], p, ViewAt(hist, p, walk), hist[append.existing].ops, hist[append.heads].ops)
  {
    hide Extends, Increasing, UniqueKeys, StampsSound, Honest, RotatesMaterialised, NoEpochGap, OpIds;
    var db, v := hist[|hist| - 1], ViewAt(hist, p, walk);
    forall i | 0 <= i < |v.logs|
      ensures Extends(v.logs[i], db.ops)
    {
      assert Grows(hist[walk.logs[i]], db);
    }
    assert Grows(hist[walk.epoch], db) && Grows(hist[append.existing], db) && Grows(hist[append.heads], db);
    assert Good(book, hist[append.heads]);
    assert Grows(hist[walk.replay], hist[append.existing]);
    forall op | op in p.ops && op.header.opId in v.replayed
      ensures exists r | r in hist[append.existing].ops :: r.op.Key() == op.Key()
    {
      ReplayedAreStored(hist[walk.replay].ops, hist[append.existing].ops, p.caller.memberId, OpIds(p.ops), op);
    }
  }

  // --- One transaction ---

  lemma PostKeepsGood(
    site: Site, book: Book, strings: set<Bytes>, hist: seq<Db>, t: Txn, w: Walk, results: seq<OpResult>, db': Db)
    requires GoodHistory(book, hist) && Legal(site, book, strings, hist, t) && t.PostTxn?
    requires Walked(hist, t.post, t.walk) == Success(w)
    requires AppendAt(hist, |hist| - 1, t.post, w, t.append, t.seqs) == Answered(results, db')
    ensures Good(book, db') && Grows(hist[|hist| - 1], db')
    ensures AllAccounted(|hist[|hist| - 1].ops|, db'.ops, t.post.ops, results)
  {
    hide LogInv, ReadsAreStale, WalkUpTo, Append, AllAccounted, Extends;
    var db, v := hist[|hist| - 1], ViewAt(hist, t.post, t.walk);
    EarlierReadsAreStale(book, hist, t.post, t.walk, t.append);
    assert Good(book, db);
    CommitKeepsLog(
      book, db, t.post, v, hist[t.append.existing].ops, hist[t.append.heads].ops, t.seqs, results, db');
  }

  /** An upload leaves the op table alone, and the only epoch row it can add is epoch 0. */
  lemma UploadKeepsGood(site: Site, book: Book, strings: set<Bytes>, hist: seq<Db>, t: Txn, db': Db)
    requires GoodHistory(book, hist) && Legal(site, book, strings, hist, t) && t.KeywrapTxn?
    requires Uploading(site, hist, t) == Uploaded(db')
    ensures Good(book, db') && Grows(hist[|hist| - 1], db')
  {
    hide LogInv, Decide, Apply, Hashed, Validate, Extends, Recheck;
    var db, r := hist[t.commitAt], t.request;
    assert Good(book, db);
    var computed := Validate(site, hist[t.grantsAt].grants, hist[t.membersAt].members, r).value;
    ValidEpoch(site, hist[t.grantsAt].grants, hist[t.membersAt].members, r);
    var seen := SeenAt(hist, t);
    var writes := Decide(seen, r, computed).value;
    OnlyEpochZeroIsNew(seen, r, computed);
    UploadKeepsLog(book, db, r, writes, db');
    ExtendsSelf(db.ops);
  }

  lemma OnlyEpochZeroIsNew(seen: Seen, r: KeywrapRequest, computed: Bytes)
    requires Decide(seen, r, computed).Success?
    ensures Decide(seen, r, computed).value.newEpoch.Some? ==> r.epoch == 0
  {
    hide Missing, AnyDiffers;
  }

  lemma ValidEpoch(site: Site, grants: map<Uuid, GrantRow>, members: map<Uuid, MemberRow>, r: KeywrapRequest)
    requires Validate(site, grants, members, r).Success?
    ensures 0 <= r.epoch
  {
  }

  lemma ExtendsSelf(rows: seq<OpRow>)
    ensures Extends(rows, rows)
  {
  }

  lemma UploadKeepsLog(book: Book, db: Db, r: KeywrapRequest, writes: Writes, db': Db)
    requires r.epoch >= 0 && Apply(db, r, writes) == Some(db') && LogInv(book, db.ops, db.epochs.Keys)
    requires writes.newEpoch.Some? ==> r.epoch == 0
    ensures db'.ops == db.ops && LogInv(book, db'.ops, db'.epochs.Keys) && db.epochs.Keys <= db'.epochs.Keys
  {
    hide AddWraps, Increasing, Chained, UniqueKeys, Honest, StampsSound;
  }

  lemma StepKeepsGood(site: Site, book: Book, strings: set<Bytes>, hist: seq<Db>, t: Txn)
    requires GoodHistory(book, hist) && Legal(site, book, strings, hist, t)
    ensures Good(book, Perform(site, book, strings, hist, t).0)
    ensures Grows(hist[|hist| - 1], Perform(site, book, strings, hist, t).0)
  {
    hide LogInv, Walked, AppendAt, Uploading, Extends;
    var db := hist[|hist| - 1];
    assert Good(book, db) && Grows(db, db);
    match t
    case PostTxn(p, walk, lost, append, seqs) =>
      var walked := Walked(hist, p, walk);
      if walked.Success? {
        var outcome := AppendAt(hist, |hist| - 1, p, walked.value, append, seqs);
        if outcome.Answered? {
          PostKeepsGood(site, book, strings, hist, t, walked.value, outcome.results, outcome.db);
        }
      }
    case KeywrapTxn(_, _, _, _, _, _) =>
      var outcome := Uploading(site, hist, t);
      if outcome.Uploaded? {
        UploadKeepsGood(site, book, strings, hist, t, outcome.db);
      }
    case OtherTables(grants, members, escrows) =>
  }

  /** Every version of the log of every run is sound, and each has grown from all before it. */
  lemma {:induction false} RunIsGood(site: Site, book: Book, strings: set<Bytes>, hist: seq<Db>, txns: seq<Txn>, n: nat)
    requires Run(site, book, strings, hist, txns) && n < |hist|
    ensures GoodHistory(book, hist[..n + 1])
  {
    hide Good, Legal, Perform, Grows;
    if n == 0 {
      EmptyIsGood(book, hist[0]);
      GrowsSelf(hist[0]);
    } else {
      RunIsGood(site, book, strings, hist, txns, n - 1);
      assert RunStep(site, book, strings, hist, txns, n - 1);
      var before := hist[..n];
      StepKeepsGood(site, book, strings, before, txns[n - 1]);
      GrowsSelf(hist[n]);
      forall j, k | 0 <= j <= k < n + 1
        ensures Grows(hist[j], hist[k])
      {
        if k < n {
          assert before[j] == hist[j] && before[k] == hist[k];
        } else if j < n {
          assert Grows(before[j], before[n - 1]);
          GrowsTransitive(hist[j], hist[n - 1], hist[n]);
        }
      }
      assert forall k | 0 <= k < n :: Good(book, before[k]);
    }
  }

  // --- The key plane: growth, and what every version keeps ---

  /** Epoch rows are never removed and keep their digest; an escrow wrap, once there, stays; wrap rows stay. */
  ghost predicate KeysGrow(a: Db, b: Db) {
    && (forall e | e in a.epochs :: e in b.epochs && b.epochs[e].keywrapDigest == a.epochs[e].keywrapDigest
                                    && (a.epochs[e].escrowWrap != []
                                      ==> b.epochs[e].escrowWrap == a.epochs[e].escrowWrap))
    && (forall k | k in a.wraps :: k in b.wraps && b.wraps[k] == a.wraps[k])
  }

  ghost predicate KeyedHistory(sha256: Hash, strings: set<Bytes>, hist: seq<Db>) {
    && (forall k | 0 <= k < |hist| :: KeyInv(sha256, strings, hist[k]))
    && (forall j, k | 0 <= j <= k < |hist| :: KeysGrow(hist[j], hist[k]))
  }

  lemma KeysGrowSelf(db: Db)
    ensures KeysGrow(db, db)
  {
  }

  lemma KeysGrowTransitive(a: Db, b: Db, c: Db)
    requires KeysGrow(a, b) && KeysGrow(b, c)
    ensures KeysGrow(a, c)
  {
  }

  lemma EmptyIsKeyed(sha256: Hash, strings: set<Bytes>, db: Db)
    requires Empty(db)
    ensures KeyInv(sha256, strings, db)
  {
  }

  lemma EarlierSeenIsStale(sha256: Hash, strings: set<Bytes>, hist: seq<Db>, t: Txn)
    requires KeyedHistory(sha256, strings, hist) && hist != []
    requires t.KeywrapTxn? && t.request.epoch >= 0 && t.epochAt <= t.commitAt < |hist|
    requires forall m | m in t.wrapsAt :: t.wrapsAt[m] <= t.commitAt
    ensures SeenIsStale(hist[t.commitAt], t.request.epoch, SeenAt(hist, t))
  {
    hide KeyInv;
    var e: nat := t.request.epoch;
    assert KeysGrow(hist[t.epochAt], hist[t.commitAt]);
    forall m | m in SeenAt(hist, t).wraps
      ensures (m, e) in hist[t.commitAt].wraps && hist[t.commitAt].wraps[(m, e)] == SeenAt(hist, t).wraps[m]
    {
      assert KeysGrow(hist[t.wrapsAt[m]], hist[t.commitAt]);
    }
  }

  /** Materialising only adds epoch rows, with no escrow wrap yet and never for epoch 0. */
  lemma {:induction false} RotatesAddUnfilled(t: Tables, ops: seq<Op>, results: seq<OpResult>, n: nat)
    requires n <= |ops| == |results| && TablesAfter(t, ops, results, n).Success?
    requires forall op | op in ops :: WellDecoded(op)
    ensures var epochs := TablesAfter(t, ops, results, n).value.epochs;
            && (forall e | e in t.epochs :: e in epochs && epochs[e] == t.epochs[e])
            && (forall e | e in epochs && e !in t.epochs :: epochs[e].escrowWrap == [] && e != 0)
  {
    if n > 0 {
      RotatesAddUnfilled(t, ops, results, n - 1);
      assert ops[n - 1] in ops;
      EffectKinds(ops[n - 1]);
      hide EffectOf;
    }
  }

  lemma RotatesKeepKeys(site: Site, strings: set<Bytes>, db: Db, db': Db)
    requires KeyInv(site.sha256, strings, db) && db'.wraps == db.wraps
    requires forall e | e in db.epochs :: e in db'.epochs && db'.epochs[e] == db.epochs[e]
    requires forall e | e in db'.epochs && e !in db.epochs :: db'.epochs[e].escrowWrap == [] && e != 0
    ensures KeyInv(site.sha256, strings, db') && KeysGrow(db, db')
  {
  }

  lemma PostKeepsKeys(
    site: Site, book: Book, strings: set<Bytes>, hist: seq<Db>, t: Txn, w: Walk, results: seq<OpResult>, db': Db)
    requires KeyedHistory(site.sha256, strings, hist) && Legal(site, book, strings, hist, t) && t.PostTxn?
    requires Walked(hist, t.post, t.walk) == Success(w)
    requires AppendAt(hist, |hist| - 1, t.post, w, t.append, t.seqs) == Answered(results, db')
    ensures KeyInv(site.sha256, strings, db') && KeysGrow(hist[|hist| - 1], db')
  {
    hide KeyInv, WalkUpTo, Append, KeysGrow, PlanUpTo, ExistingSeqs, Heads, AnyCollision, TablesAfter, StampsAfter;
    var db, v := hist[|hist| - 1], ViewAt(hist, t.post, t.walk);
    var plan := AppendCommits(
      db, t.post, v, hist[t.append.existing].ops, hist[t.append.heads].ops, t.seqs, results, db');
    HonestAreDecoded(book, t.post.ops);
    RotatesAddUnfilled(TablesOf(db), t.post.ops, results, |t.post.ops|);
    RotatesKeepKeys(site, strings, db, db');
  }

  lemma HonestAreDecoded(book: Book, ops: seq<Op>)
    requires Honest(book, ops)
    ensures forall op | op in ops :: WellDecoded(op)
  {
  }

  lemma ValidIsRequested(
    site: Site, strings: set<Bytes>, grants: map<Uuid, GrantRow>, members: map<Uuid, MemberRow>, r: KeywrapRequest)
    requires Validate(site, grants, members, r).Success?
    requires r.epoch >= 0 ==> Hashed(site.sha256, r.epoch, r.wraps, r.escrowWrap) <= strings
    ensures Requested(site.sha256, strings, r, Validate(site, grants, members, r).value)
  {
    hide Hashed, DigestShape, Digest, CheckEntries;
    ValidatedSet(site, grants, members, r);
  }

  lemma CommittedUploadKeepsKeys(site: Site, book: Book, strings: set<Bytes>, hist: seq<Db>, t: Txn, db': Db)
    requires HashWidth(site.sha256) && CollisionFree(site.sha256, strings)
    requires KeyedHistory(site.sha256, strings, hist) && Legal(site, book, strings, hist, t) && t.KeywrapTxn?
    requires Uploading(site, hist, t) == Uploaded(db')
    ensures KeyInv(site.sha256, strings, db') && KeysGrow(hist[|hist| - 1], db')
  {
    hide KeyInv, SeenIsStale, Decide, Apply, Hashed, Requested, Validate, CollisionFree, HashWidth, KeysGrow;
    var db, r := hist[t.commitAt], t.request;
    var computed := Validate(site, hist[t.grantsAt].grants, hist[t.membersAt].members, r).value;
    ValidEpoch(site, hist[t.grantsAt].grants, hist[t.membersAt].members, r);
    ValidIsRequested(site, strings, hist[t.grantsAt].grants, hist[t.membersAt].members, r);
    EarlierSeenIsStale(site.sha256, strings, hist, t);
    var seen := SeenAt(hist, t);
    var writes := Decide(seen, r, computed).value;
    UploadKeepsKeys(site.sha256, strings, db, r, seen, computed, writes, db');
    UploadGrowsKeys(site, strings, db, r, seen, computed, writes, db');
  }

  lemma UploadGrowsKeys(
    site: Site, strings: set<Bytes>, db: Db, r: KeywrapRequest, seen: Seen, computed: Bytes, writes: Writes, db': Db)
    requires HashWidth(site.sha256) && CollisionFree(site.sha256, strings)
    requires KeyInv(site.sha256, strings, db) && SeenIsStale(db, r.epoch, seen)
    requires Requested(site.sha256, strings, r, computed)
    requires Decide(seen, r, computed) == Success(writes) && Apply(db, r, writes) == Some(db')
    ensures KeysGrow(db, db')
  {
    hide DigestShape, Digest, Hashed, CommittedSet, KeyInv, Requested, AddWraps, Missing, AnyDiffers;
    if r.epoch in db.epochs && db.epochs[r.epoch].escrowWrap != [] {
      FilledUploadIsIdle(site.sha256, strings, db, r, seen, computed, writes, db');
    } else {
      RequestedSet(site.sha256, strings, r, computed);
      MissingIsDistinct(seen.wraps, r.wraps);
      AddWrapsExactly(db.wraps, r.epoch, writes.inserts);
      assert forall i | i in writes.inserts :: (i.memberId, r.epoch) !in db.wraps;
    }
  }

  lemma StepKeepsKeys(site: Site, book: Book, strings: set<Bytes>, hist: seq<Db>, t: Txn)
    requires HashWidth(site.sha256) && CollisionFree(site.sha256, strings)
    requires KeyedHistory(site.sha256, strings, hist) && Legal(site, book, strings, hist, t)
    ensures KeyInv(site.sha256, strings, Perform(site, book, strings, hist, t).0)
    ensures KeysGrow(hist[|hist| - 1], Perform(site, book, strings, hist, t).0)
  {
    hide KeyInv, Walked, AppendAt, Uploading, KeysGrow, HashWidth, CollisionFree;
    var db := hist[|hist| - 1];
    KeysGrowSelf(db);
    match t
    case PostTxn(p, walk, lost, append, seqs) =>
      var walked := Walked(hist, p, walk);
      if walked.Success? {
        var outcome := AppendAt(hist, |hist| - 1, p, walked.value, append, seqs);
        if outcome.Answered? {
          PostKeepsKeys(site, book, strings, hist, t, walked.value, outcome.results, outcome.db);
        }
      }
    case KeywrapTxn(_, _, _, _, _, _) =>
      var outcome := Uploading(site, hist, t);
      if outcome.Uploaded? {
        CommittedUploadKeepsKeys(site, book, strings, hist, t, outcome.db);
      }
    case OtherTables(grants, members, escrows) =>
      OtherTablesKeepKeys(site.sha256, strings, db, grants, members, escrows);
  }

  lemma OtherTablesKeepKeys(
    sha256: Hash, strings: set<Bytes>, db: Db, grants: map<Uuid, GrantRow>, members: map<Uuid, MemberRow>,
    escrows: map<string, EscrowRow>)
    requires KeyInv(sha256, strings, db)
    ensures var db' := db.(grants := grants, members := members, escrows := escrows);
            KeyInv(sha256, strings, db') && KeysGrow(db, db')
  {
    SameKeysKeepInv(sha256, strings, db, db.(grants := grants, members := members, escrows := escrows));
  }

  /** Under a collision-free hash every version of the key plane is sound too. */
  lemma {:induction false} RunIsKeyed(
    site: Site, book: Book, strings: set<Bytes>, hist: seq<Db>, txns: seq<Txn>, n: nat)
    requires HashWidth(site.sha256) && CollisionFree(site.sha256, strings)
    requires Run(site, book, strings, hist, txns) && n < |hist|
    ensures KeyedHistory(site.sha256, strings, hist[..n + 1])
  {
    hide KeyInv, Legal, Perform, KeysGrow, HashWidth, CollisionFree;
    if n == 0 {
      EmptyIsKeyed(site.sha256, strings, hist[0]);
      KeysGrowSelf(hist[0]);
    } else {
      RunIsKeyed(site, book, strings, hist, txns, n - 1);
      assert RunStep(site, book, strings, hist, txns, n - 1);
      var before := hist[..n];
      StepKeepsKeys(site, book, strings, before, txns[n - 1]);
      KeysGrowSelf(hist[n]);
      forall j, k | 0 <= j <= k < n + 1
        ensures KeysGrow(hist[j], hist[k])
      {
        if k < n {
          assert before[j] == hist[j] && before[k] == hist[k];
        } else if j < n {
          assert KeysGrow(before[j], before[n - 1]);
          KeysGrowTransitive(hist[j], hist[n - 1], hist[n]);
        }
      }
      assert forall k | 0 <= k < n :: KeyInv(site.sha256, strings, before[k]);
    }
  }
}
