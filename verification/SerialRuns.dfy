/** Runs of requests that do not overlap: authority, owners and the epoch window over every reachable state. */
module SerialRuns {
  import opened Wrappers
  import opened ByteStrings
  import opened Payloads
  import opened OpLog
  import opened OpLogFacts
  import opened LogInvariant
  import opened Serial
  import opened GrantWalk
  import opened AuthorityProofs
  import opened EpochWindow
  import opened SerialPosts
  import opened KeyWraps
  import opened KeyPlane
  import Interleaving

  /** One request, or a change made by the routes outside this model to the tables they own. */
  datatype Step =
    | Posting(post: Post, seqs: seq<nat>)
    | Uploading(site: Site, request: KeywrapRequest)
    | Registering(members: map<Uuid, MemberRow>, escrows: map<string, EscrowRow>)

  ghost predicate LegalStep(db: Db, s: Step) {
    s.Posting? ==> IsPosted(s.post) && |s.seqs| == |s.post.ops| && FreshSeqs(db.ops, s.seqs)
  }

  function After(db: Db, s: Step): Db
    requires s.Posting? ==> |s.seqs| == |s.post.ops|
  {
    match s
    case Posting(p, seqs) =>
      var outcome := PostSerially(db, p, seqs);
      if outcome.Answered? then outcome.db else db
    case Uploading(site, r) =>
      var outcome := Upload(site, r, db.grants, db.members, SeenNow(db, r), db, db);
      if outcome.Uploaded? then outcome.db else db
    case Registering(members, escrows) => db.(members := members, escrows := escrows)
  }

  predicate IsAnswered(db: Db, s: Step): (answered: bool)
    requires s.Posting? ==> |s.seqs| == |s.post.ops|
    ensures answered ==> s.Posting?
  {
    s.Posting? && PostSerially(db, s.post, s.seqs).Answered?
  }

  ghost predicate SerialRun(hist: seq<Db>, steps: seq<Step>): (serial: bool)
    ensures serial ==> |hist| == |steps| + 1
    ensures serial ==> forall k | 0 <= k < |steps| && steps[k].Posting? :: |steps[k].seqs| == |steps[k].post.ops|
  {
    && |hist| == |steps| + 1
    && hist[0].ops == [] && hist[0].grants == map[] && hist[0].epochs == map[]
    && forall k | 0 <= k < |steps| :: LegalStep(hist[k], steps[k]) && hist[k + 1] == After(hist[k], steps[k])
  }

  /** No author of the run uses one op id for two envelopes. */
  ghost predicate OpIdsAreNames(book: Book, steps: seq<Step>) {
    forall k | 0 <= k < |steps| && steps[k].Posting? :: Honest(book, steps[k].post.ops)
  }

  ghost predicate NamedStep(book: Book, db: Db, s: Step) {
    LegalStep(db, s) && (s.Posting? ==> Honest(book, s.post.ops))
  }

  // --- What every run keeps, whatever op ids it uses ---

  /** Seqs increase, and grant boundaries lie below the head. */
  ghost predicate OpenInv(db: Db) {
    Increasing(db.ops) && Below(db.grants, Top(db.ops) + 1)
  }

  lemma AnsweredStep(db: Db, s: Step) returns (results: seq<OpResult>)
    requires Increasing(db.ops) && LegalStep(db, s) && IsAnswered(db, s)
    ensures Recorded(db, s.post, results, After(db, s))
  {
    hide PostSerially, Recorded, FreshSeqs, IsPosted, Increasing;
    var outcome := PostSerially(db, s.post, s.seqs);
    results := outcome.results;
    AnsweredIsRecorded(db, s.post, s.seqs, results, outcome.db);
  }

  lemma {:induction false} OpenRunIsSound(hist: seq<Db>, steps: seq<Step>, k: nat)
    requires SerialRun(hist, steps) && k < |hist|
    ensures OpenInv(hist[k])
  {
    hide After, Recorded, Below, Increasing, IsAnswered;
    if k == 0 {
      EmptyIsOpen(hist[0]);
    } else {
      OpenRunIsSound(hist, steps, k - 1);
      if IsAnswered(hist[k - 1], steps[k - 1]) {
        var results := AnsweredStep(hist[k - 1], steps[k - 1]);
        RecordedParts(hist[k - 1], steps[k - 1].post, results, hist[k]);
        PostKeepsBelow(hist[k - 1], steps[k - 1].post, results, hist[k]);
      } else {
        IdleStep(hist[k - 1], steps[k - 1]);
      }
    }
  }

  lemma EmptyIsOpen(db: Db)
    requires db.ops == [] && db.grants == map[]
    ensures OpenInv(db) && LogAuthorised(db.grants, db.ops)
  {
  }

  lemma RecordedParts(db: Db, p: Post, results: seq<OpResult>, db': Db)
    requires Recorded(db, p, results, db')
    ensures Increasing(db'.ops) && Extends(db.ops, db'.ops) && Served(db, p, results)
  {
  }

  /** Every answered POST before `k` had its new ops pass the role check with repeats left out. */
  ghost predicate AllAdmitted(hist: seq<Db>, steps: seq<Step>, k: nat)
    requires SerialRun(hist, steps) && k < |hist|
  {
    forall j | 0 <= j < k && IsAnswered(hist[j], steps[j]) :: NewOpsAdmitted(hist[j], steps[j].post)
  }

  /**
   In every state of every serial run, whatever op ids it uses: the log is positionally authorised if and only if
   every answered POST so far had its new ops pass the role check with repeats left out.
   */
  lemma {:induction false} AuthorisedExactly(hist: seq<Db>, steps: seq<Step>, k: nat)
    requires SerialRun(hist, steps) && k < |hist|
    ensures LogAuthorised(hist[k].grants, hist[k].ops) <==> AllAdmitted(hist, steps, k)
  {
    hide After, Recorded, Below, Increasing, LogAuthorised, NewOpsAdmitted, IsAnswered;
    if k == 0 {
      EmptyIsOpen(hist[0]);
    } else {
      AuthorisedExactly(hist, steps, k - 1);
      OpenRunIsSound(hist, steps, k - 1);
      var db, s := hist[k - 1], steps[k - 1];
      if IsAnswered(db, s) {
        var results := AnsweredStep(db, s);
        AuthorityExactly(db, s.post, results, hist[k]);
      } else {
        IdleStep(db, s);
      }
    }
  }

  // --- What runs keep whose op ids name envelopes ---

  ghost predicate SerialInv(book: Book, db: Db) {
    && LogInv(book, db.ops, db.epochs.Keys)
    && GrantInv(db.grants, db.ops)
    && EpochInv(db.epochs, db.ops) && LogFresh(db.epochs, db.ops)
  }

  /** An answered POST of such a run reuses nothing. */
  lemma PostIsRecorded(book: Book, db: Db, s: Step) returns (results: seq<OpResult>)
    requires SerialInv(book, db) && NamedStep(book, db, s) && IsAnswered(db, s)
    ensures Recorded(db, s.post, results, After(db, s)) && NoReuse(db, s.post) && Served(db, s.post, results)
    ensures LogInv(book, After(db, s).ops, After(db, s).epochs.Keys)
    ensures Increasing(db.ops) && RotatesMaterialised(db.ops, db.epochs.Keys) && AllKnown(db.grants, OpsOf(db.ops))
  {
    hide LogInv, PostSerially, Recorded, GrantInv, EpochInv, LogFresh, FreshSeqs, Honest, NoReuse, AllAccounted,
      Below, AllKnown, Served;
    var outcome := PostSerially(db, s.post, s.seqs);
    LogIsHonest(book, db);
    InvKnows(db.grants, db.ops);
    results := AnsweredStep(db, s);
    RecordedParts(db, s.post, results, After(db, s));
    AnsweredKeepsLog(book, db, s.post, s.seqs, outcome.results, outcome.db);
  }

  lemma PostKeepsInv(book: Book, db: Db, s: Step)
    requires SerialInv(book, db) && NamedStep(book, db, s) && IsAnswered(db, s)
    ensures SerialInv(book, After(db, s)) && RowsGrow(db.grants, After(db, s).grants)
  {
    hide LogInv, After, Recorded, GrantInv, EpochInv, LogFresh, RowsGrow, IsAnswered, NoReuse, AllKnown, Served,
      Honest, Increasing, RotatesMaterialised;
    var results := PostIsRecorded(book, db, s);
    PostKeepsGrants(db, s.post, results, After(db, s));
    PostKeepsFresh(db, s.post, results, After(db, s));
  }

  // --- Uploads ---

  /** An upload moves no rotate, and the one epoch row it can add is epoch 0. */
  lemma UploadKeepsRotates(site: Site, r: KeywrapRequest, db: Db, db': Db)
    requires Upload(site, r, db.grants, db.members, SeenNow(db, r), db, db) == Uploaded(db')
    ensures db'.ops == db.ops && db'.grants == db.grants
    ensures forall e | e in db.epochs :: e in db'.epochs && db'.epochs[e].rotateSeq == db.epochs[e].rotateSeq
    ensures forall e | e in db'.epochs && e !in db.epochs :: e == 0 && db'.epochs[e].rotateSeq.None?
  {
    hide Digest, DigestShape, CheckEntries, AddWraps, Missing, AnyDiffers, IndexOf, LiveRoles;
  }

  lemma UploadKeepsInv(book: Book, db: Db, db': Db)
    requires SerialInv(book, db) && db'.ops == db.ops && db'.grants == db.grants
    requires forall e | e in db.epochs :: e in db'.epochs && db'.epochs[e].rotateSeq == db.epochs[e].rotateSeq
    requires forall e | e in db'.epochs && e !in db.epochs :: e == 0 && db'.epochs[e].rotateSeq.None?
    ensures SerialInv(book, db')
  {
    hide GrantInv, Chained, UniqueKeys, Honest, StampsSound, Increasing, CurrentKeyEpoch;
    forall s: nat
      ensures RotatedBefore(db'.epochs, s) == RotatedBefore(db.epochs, s)
    {
    }
  }

  lemma StepKeepsInv(book: Book, db: Db, s: Step)
    requires SerialInv(book, db) && NamedStep(book, db, s)
    ensures SerialInv(book, After(db, s)) && RowsGrow(db.grants, After(db, s).grants)
  {
    hide LogInv, GrantInv, EpochInv, LogFresh, FreshSeqs, IsPosted, Honest, PostSerially, Upload;
    if IsAnswered(db, s) {
      PostKeepsInv(book, db, s);
    } else if s.Uploading? {
      var outcome := Upload(s.site, s.request, db.grants, db.members, SeenNow(db, s.request), db, db);
      if outcome.Uploaded? {
        UploadKeepsRotates(s.site, s.request, db, outcome.db);
        UploadKeepsInv(book, db, outcome.db);
      }
    }
  }

  lemma EmptyIsSound(book: Book, db: Db)
    requires db.ops == [] && db.grants == map[] && db.epochs == map[]
    ensures SerialInv(book, db) && LogAuthorised(db.grants, db.ops)
  {
  }

  lemma {:induction false} SerialRunIsSound(book: Book, hist: seq<Db>, steps: seq<Step>, k: nat)
    requires SerialRun(hist, steps) && OpIdsAreNames(book, steps) && k < |hist|
    ensures SerialInv(book, hist[k])
  {
    hide SerialInv, After, RowsGrow;
    if k == 0 {
      EmptyIsSound(book, hist[0]);
    } else {
      SerialRunIsSound(book, hist, steps, k - 1);
      StepKeepsInv(book, hist[k - 1], steps[k - 1]);
    }
  }

  // --- Main results ---

  /** No answered POST of the run posts a Grant again after its Grant was revoked. */
  ghost predicate NeverReenters(hist: seq<Db>, steps: seq<Step>)
    requires SerialRun(hist, steps)
  {
    forall k | 0 <= k < |steps| && IsAnswered(hist[k], steps[k]) :: NoReentry(hist[k], steps[k].post)
  }

  /**
   Over a whole serial run that never re-enters a revoked Grant, every stored op that is not Root's lies strictly
   inside the window of a Grant its author holds, with a role its class admits.
   */
  lemma EveryOpIsAuthorised(book: Book, hist: seq<Db>, steps: seq<Step>, k: nat)
    requires SerialRun(hist, steps) && OpIdsAreNames(book, steps) && k < |hist| && NeverReenters(hist, steps)
    ensures LogAuthorised(hist[k].grants, hist[k].ops)
  {
    hide SerialInv, After, Recorded, LogAuthorised, NoReentry, NewOpsAdmitted, NothingDisturbs, IsAnswered, NoReuse,
      AllKnown, LogInv, Served, LegalStep;
    forall j | 0 <= j < k && IsAnswered(hist[j], steps[j])
      ensures NewOpsAdmitted(hist[j], steps[j].post)
    {
      SerialRunIsSound(book, hist, steps, j);
      var results := PostIsRecorded(book, hist[j], steps[j]);
      NoReentryDisturbsNothing(hist[j], steps[j].post, results);
      UndisturbedAdmits(hist[j], steps[j].post, results);
    }
    AuthorisedExactly(hist, steps, k);
  }

  /**
   Every op an answered POST admits, new or repeated, is sealed under the key epoch in force at its own batch index
   or the one before it; epoch 0, uploaded without a rotate, counts like any other.
   */
  lemma EveryAdmittedOpIsInWindow(book: Book, hist: seq<Db>, steps: seq<Step>, k: nat, i: nat)
    requires SerialRun(hist, steps) && OpIdsAreNames(book, steps) && k < |steps| && IsAnswered(hist[k], steps[k])
    requires i < |steps[k].post.ops| && !steps[k].post.ops[i].IsControl()
    ensures var current := CurrentKeyEpoch(EpochsBefore(hist[k], steps[k].post, i));
            current.Some? ==> InWindow(steps[k].post.ops[i].header.keyEpoch, current.value)
  {
    hide SerialInv, After, Recorded, IsAnswered, NoReuse, AllKnown, LogInv, Served, EpochsBefore, RotatesMaterialised,
      LegalStep;
    SerialRunIsSound(book, hist, steps, k);
    var results := PostIsRecorded(book, hist[k], steps[k]);
    AdmittedInWindow(hist[k], steps[k].post, results, i);
  }

  lemma InvParts(book: Book, db: Db)
    requires SerialInv(book, db)
    ensures LogInv(book, db.ops, db.epochs.Keys) && GrantInv(db.grants, db.ops)
  {
    hide LogInv, GrantInv;
  }

  lemma IdleStep(db: Db, s: Step)
    requires s.Posting? ==> |s.seqs| == |s.post.ops|
    requires !IsAnswered(db, s)
    ensures After(db, s).ops == db.ops && After(db, s).grants == db.grants
  {
    hide PostSerially, Upload;
    if s.Uploading? {
      var outcome := Upload(s.site, s.request, db.grants, db.members, SeenNow(db, s.request), db, db);
      if outcome.Uploaded? {
        UploadKeepsRotates(s.site, s.request, db, outcome.db);
      }
    }
  }

  /**
   In every reachable state a POST is refused by its walk or its author-chain check and by nothing later: no
   uniqueness constraint, primary key or guarded update fires without another request in between.
   */
  lemma NothingRefusesLate(book: Book, hist: seq<Db>, steps: seq<Step>, k: nat, p: Post, seqs: seq<nat>)
    requires SerialRun(hist, steps) && OpIdsAreNames(book, steps) && k < |hist|
    requires PostedBy(book, p) && |seqs| == |p.ops| && FreshSeqs(hist[k].ops, seqs)
    ensures var db := hist[k];
            PostSerially(db, p, seqs).Answered? <==>
              && WalkUpTo(p, ViewOf(db, p), |p.ops|).Success?
              && PlanUpTo(ExistingSeqs(db.ops, OpIds(p.ops)), Heads(db.ops, Authors(p.ops)), p.ops, |p.ops|).Success?
  {
    hide SerialInv, LogInv, GrantInv, AllKnown, PostSerially, FreshSeqs, PostedBy, WalkUpTo, PlanUpTo, Below;
    SerialRunIsSound(book, hist, steps, k);
    InvParts(book, hist[k]);
    InvKnows(hist[k].grants, hist[k].ops);
    WalkedAndPlannedIsAnswered(book, hist[k], p, seqs);
  }

  /** In every reachable state each content op lies in the window of the rotates before it. */
  lemma EveryContentOpIsFresh(book: Book, hist: seq<Db>, steps: seq<Step>, k: nat)
    requires SerialRun(hist, steps) && OpIdsAreNames(book, steps) && k < |hist|
    ensures LogFresh(hist[k].epochs, hist[k].ops)
  {
    hide LogInv, GrantInv, EpochInv, LogFresh;
    SerialRunIsSound(book, hist, steps, k);
  }

  /** No answered POST of the segment carries a control op signed by Root. */
  ghost predicate NoRootOpBetween(book: Book, hist: seq<Db>, steps: seq<Step>, a: nat, b: nat)
    requires SerialRun(hist, steps) && OpIdsAreNames(book, steps) && a <= b < |hist|
  {
    forall k | a <= k < b && IsAnswered(hist[k], steps[k]) :: NoRootOp(steps[k].post.ops)
  }

  /**
   Over a segment with no root-signed control op the live owners never change, and every Grant added is a lesser
   one whose granter is its own author, an owner throughout.
   */
  lemma {:induction false} OwnersAreConstant(book: Book, hist: seq<Db>, steps: seq<Step>, a: nat, b: nat)
    requires SerialRun(hist, steps) && OpIdsAreNames(book, steps) && a <= b < |hist|
    requires NoRootOpBetween(book, hist, steps, a, b)
    ensures LiveOwners(hist[b].grants) == LiveOwners(hist[a].grants)
    ensures RowsGrow(hist[a].grants, hist[b].grants)
    ensures forall g | g in hist[b].grants && g !in hist[a].grants ::
              OwnerMinted(LiveOwners(hist[a].grants), hist[b].grants, hist[b].ops, g)
    decreases b
  {
    hide SerialInv, After, PostSerially, Recorded, LiveOwners, NoRootOp, RowsGrow, OwnerMinted, IsAnswered;
    if a < b {
      OwnersAreConstant(book, hist, steps, a, b - 1);
      SerialRunIsSound(book, hist, steps, b - 1);
      var db, s, db' := hist[b - 1], steps[b - 1], hist[b];
      StepKeepsInv(book, db, s);
      RowsGrowTransitive(hist[a].grants, db.grants, db'.grants);
      if IsAnswered(db, s) {
        var results := PostIsRecorded(book, db, s);
        InvParts(book, db);
        OwnersFixedByPost(db, s.post, results, db');
        RecordedParts(db, s.post, results, db');
      } else {
        IdleStep(db, s);
        ExtendsSelf(db.ops);
      }
      forall g | g in db'.grants && g !in hist[a].grants
        ensures OwnerMinted(LiveOwners(hist[a].grants), db'.grants, db'.ops, g)
      {
        if g in db.grants {
          MintedStays(LiveOwners(hist[a].grants), db, db', g);
        }
      }
    } else {
      RowsGrowSelf(hist[a].grants);
    }
  }

  lemma RowsGrowSelf(a: map<Uuid, GrantRow>)
    ensures RowsGrow(a, a)
  {
  }

  lemma RowsGrowTransitive(a: map<Uuid, GrantRow>, b: map<Uuid, GrantRow>, c: map<Uuid, GrantRow>)
    requires RowsGrow(a, b) && RowsGrow(b, c)
    ensures RowsGrow(a, c)
  {
  }

  lemma ExtendsSelf(rows: seq<OpRow>)
    ensures Extends(rows, rows)
  {
  }

  lemma MintedStays(owners: map<Uuid, Uuid>, db: Db, db': Db, g: Uuid)
    requires g in db.grants && OwnerMinted(owners, db.grants, db.ops, g)
    requires RowsGrow(db.grants, db'.grants) && Extends(db.ops, db'.ops)
    ensures OwnerMinted(owners, db'.grants, db'.ops, g)
  {
  }

  // --- The two levels meet ---

  /** A transaction all of whose statements see the latest version. */
  function Undisturbed(hist: seq<Db>, p: Post, seqs: seq<nat>): Interleaving.Txn
    requires hist != []
  {
    var last := |hist| - 1;
    Interleaving.PostTxn(p, Interleaving.WalkReads(last, last, last, last, last, last, seq(|p.ops|, _ => last)), None,
                         Interleaving.AppendReads(last, last), seqs)
  }

  /** A POST that nothing overlaps is the transaction of an overlapping run whose reads are all current. */
  lemma SerialPostIsATransaction(
    site: Site, book: Book, strings: set<Bytes>, hist: seq<Db>, p: Post, seqs: seq<nat>)
    requires hist != [] && p.site == site && PostedBy(book, p) && |seqs| == |p.ops|
    requires FreshSeqs(hist[|hist| - 1].ops, seqs)
    requires LogInv(book, hist[|hist| - 1].ops, hist[|hist| - 1].epochs.Keys)
    requires AllKnown(hist[|hist| - 1].grants, OpsOf(hist[|hist| - 1].ops))
    ensures var db, t := hist[|hist| - 1], Undisturbed(hist, p, seqs);
            && Interleaving.Legal(site, book, strings, hist, t)
            && Interleaving.Perform(site, book, strings, hist, t)
               == match PostSerially(db, p, seqs)
                  case Answered(results, db') => (db', Interleaving.Results(results))
                  case Refused(refusal) => (db, Interleaving.Refusing(refusal))
                  case Raced => (db, Interleaving.Refusing(Refusal(AuthorChainConflict(None), None)))
  {
    hide LogInv, AllKnown, WalkUpTo, Append, Honest, FreshSeqs;
    var db, t := hist[|hist| - 1], Undisturbed(hist, p, seqs);
    assert Interleaving.ViewAt(hist, p, t.walk) == ViewOf(db, p);
    WalkedAndPlannedIsAnswered(book, db, p, seqs);
  }
}
