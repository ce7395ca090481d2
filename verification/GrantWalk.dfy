/**
 The in-memory grant index of the walk against the `grants` rows materialised afterwards: the two agree at every
 batch index exactly when no repeated op asserts anything new, which of verbatim repeats means that none brings a
 revoked Grant back. Source: backend/app/sync/routes.py.
 */
module GrantWalk {
  import opened Wrappers
  import opened ByteStrings
  import opened Payloads
  import opened OpLog
  import opened OpLogFacts
  import opened LogInvariant
  import opened Serial

  // --- What one op asserts ---

  function Asserted(states: GrantStates, op: Op): GrantStates {
    if op.IsGrant() then
      states[op.GrantOf().grantId := GrantState(op.GrantOf().memberId, op.GrantOf().role, false)]
    else if op.IsRevoke() && op.RevokeOf().grantId in states then
      states[op.RevokeOf().grantId := states[op.RevokeOf().grantId].(revoked := true)]
    else states
  }

  /** The index before op n when a repeat asserts nothing. */
  function Ideal(db: Db, p: Post, n: nat): GrantStates
    requires n <= |p.ops|
  {
    if n == 0 then IndexOf(db.grants)
    else if IsRepeat(db, p, n - 1) then Ideal(db, p, n - 1)
    else Asserted(Ideal(db, p, n - 1), p.ops[n - 1])
  }

  /** The walk lets every op assert what it says, replayed or not. */
  lemma StepGrants(p: Post, v: View, w: Walk, i: nat)
    requires i < |p.ops| == |v.logs|
    requires WalkStep(p, v, w, i).Success?
    ensures WalkStep(p, v, w, i).value.grants == Asserted(w.grants, p.ops[i])
    ensures p.ops[i].IsRevoke() ==> p.ops[i].RevokeOf().grantId in w.grants
    ensures p.ops[i].IsGrant() && p.ops[i].header.opId !in v.replayed ==> p.ops[i].GrantOf().grantId !in w.grants
  {
    hide RequireRole, RequireFreshKeyEpoch, VerifyPrune, VerifyGenesis, VerifyMemberRegister, VerifyRotate,
      AuthorityPublicKey;
  }

  /** A row written by materialising `op` at `seqNo`. */
  function Rows(grants: map<Uuid, GrantRow>, op: Op, seqNo: nat): map<Uuid, GrantRow> {
    if op.IsGrant() then
      var g := op.GrantOf();
      grants[g.grantId := GrantRow(g.memberId, g.role, g.granter, seqNo, None)]
    else if op.IsRevoke() && op.RevokeOf().grantId in grants && grants[op.RevokeOf().grantId].revokedBySeq.None? then
      grants[op.RevokeOf().grantId := grants[op.RevokeOf().grantId].(revokedBySeq := Some(seqNo))]
    else grants
  }

  lemma EffectGrants(t: Tables, op: Op, r: OpResult)
    requires EffectStep(t, op, r).Success?
    ensures EffectStep(t, op, r).value.grants == if r.duplicate then t.grants else Rows(t.grants, op, r.seqNo)
    ensures !r.duplicate && op.IsGrant() ==> op.GrantOf().grantId !in t.grants
  {
  }

  lemma RowsAssert(grants: map<Uuid, GrantRow>, op: Op, seqNo: nat)
    ensures IndexOf(Rows(grants, op, seqNo)) == Asserted(IndexOf(grants), op)
  {
  }

  // --- Index and rows, whatever op ids are used ---

  /** The rows are always the index that repeats leave alone. */
  lemma {:induction false} RowsAreIdeal(db: Db, p: Post, results: seq<OpResult>, n: nat)
    requires Served(db, p, results) && n <= |p.ops|
    ensures IndexOf(TablesAt(db, p, results, n).grants) == Ideal(db, p, n)
  {
    hide Served, TablesAt, EffectStep, IndexOf, Asserted, Rows, IsRepeat;
    if n == 0 {
      WalkStarts(db, p, results);
    } else {
      var i := n - 1;
      RowsAreIdeal(db, p, results, i);
      ClassOf(db, p, results, i);
      TablesAtStep(db, p, results, i);
      var t := TablesAt(db, p, results, i);
      EffectGrants(t, p.ops[i], results[i]);
      RowsAssert(t.grants, p.ops[i], results[i].seqNo);
    }
  }

  /** Op i is a repeat that asserts something the index without repeats does not hold. */
  predicate Disturbs(db: Db, p: Post, i: nat)
    requires i < |p.ops|
  {
    IsRepeat(db, p, i) && Asserted(Ideal(db, p, i), p.ops[i]) != Ideal(db, p, i)
  }

  ghost predicate AgreesThroughout(db: Db, p: Post, results: seq<OpResult>, n: nat)
    requires Served(db, p, results) && n <= |p.ops|
  {
    forall m | 0 <= m <= n :: WalkAt(db, p, results, m).grants == IndexOf(TablesAt(db, p, results, m).grants)
  }

  /** At one index: the walk's index is still the rows' after op i unless op i disturbs it. */
  lemma AgreementSurvives(db: Db, p: Post, results: seq<OpResult>, i: nat)
    requires Served(db, p, results) && i < |p.ops|
    requires WalkAt(db, p, results, i).grants == IndexOf(TablesAt(db, p, results, i).grants)
    ensures WalkAt(db, p, results, i + 1).grants == IndexOf(TablesAt(db, p, results, i + 1).grants)
       <==> !Disturbs(db, p, i)
  {
    hide Served, TablesAt, WalkAt, WalkStep, IndexOf, Asserted, IsRepeat;
    RowsAreIdeal(db, p, results, i);
    RowsAreIdeal(db, p, results, i + 1);
    WalkAtStep(db, p, results, i);
    StepGrants(p, ViewOf(db, p), WalkAt(db, p, results, i), i);
  }

  /**
   The verdicts of the walk are the verdicts the rows would give, index by index, if and only if no repeat in the
   batch asserts anything new. This needs no promise about op ids.
   */
  lemma {:induction false} IndexMatchesRowsExactly(db: Db, p: Post, results: seq<OpResult>, n: nat)
    requires Served(db, p, results) && n <= |p.ops|
    ensures AgreesThroughout(db, p, results, n) <==> forall i | 0 <= i < n :: !Disturbs(db, p, i)
  {
    hide Served, TablesAt, WalkAt, Disturbs, IndexOf;
    if n == 0 {
      WalkStarts(db, p, results);
    } else {
      IndexMatchesRowsExactly(db, p, results, n - 1);
      if AgreesThroughout(db, p, results, n - 1) {
        AgreementSurvives(db, p, results, n - 1);
      }
    }
  }

  // --- Growth of the rows ---

  /** Rows are never removed or edited, and a revocation boundary never moves. */
  ghost predicate RowsGrow(a: map<Uuid, GrantRow>, b: map<Uuid, GrantRow>) {
    forall g | g in a ::
      && g in b
      && b[g].(revokedBySeq := None) == a[g].(revokedBySeq := None)
      && (a[g].revokedBySeq.Some? ==> b[g] == a[g])
  }

  lemma RowsStepGrows(grants: map<Uuid, GrantRow>, op: Op, seqNo: nat)
    requires op.IsGrant() ==> op.GrantOf().grantId !in grants
    ensures RowsGrow(grants, Rows(grants, op, seqNo))
  {
  }

  /** The rows already hold what the op stands for. */
  ghost predicate Known(grants: map<Uuid, GrantRow>, op: Op) {
    && (op.IsGrant() ==>
          var g := op.GrantOf();
          g.grantId in grants && grants[g.grantId].memberId == g.memberId && grants[g.grantId].role == g.role)
    && (op.IsRevoke() ==> op.RevokeOf().grantId in grants && grants[op.RevokeOf().grantId].revokedBySeq.Some?)
  }

  ghost predicate AllKnown(grants: map<Uuid, GrantRow>, ops: seq<Op>) {
    forall op | op in ops :: Known(grants, op)
  }

  lemma KnownStays(a: map<Uuid, GrantRow>, b: map<Uuid, GrantRow>, ops: seq<Op>)
    requires RowsGrow(a, b) && AllKnown(a, ops)
    ensures AllKnown(b, ops)
  {
  }

  // --- When repeats are verbatim ---

  /** The walk's index names the rows' grants; what is live in the rows is live in the walk. */
  ghost predicate Agrees(w: GrantStates, grants: map<Uuid, GrantRow>) {
    && w.Keys == grants.Keys
    && forall g | g in grants ::
        && w[g].memberId == grants[g].memberId
        && w[g].role == grants[g].role
        && (grants[g].revokedBySeq.None? ==> !w[g].revoked)
  }

  lemma AgreesStep(w: GrantStates, grants: map<Uuid, GrantRow>, op: Op, seqNo: nat)
    requires Agrees(w, grants)
    ensures Agrees(Asserted(w, op), Rows(grants, op, seqNo))
  {
  }

  lemma AgreesKnown(w: GrantStates, grants: map<Uuid, GrantRow>, op: Op)
    requires Agrees(w, grants) && Known(grants, op)
    ensures Agrees(Asserted(w, op), grants)
  {
  }

  ghost predicate AgreesAt(db: Db, p: Post, results: seq<OpResult>, n: nat)
    requires Served(db, p, results) && n <= |p.ops|
  {
    var grants := TablesAt(db, p, results, n).grants;
    && Agrees(WalkAt(db, p, results, n).grants, grants)
    && RowsGrow(db.grants, grants)
    && AllKnown(grants, p.ops[..n])
  }

  lemma {:induction false} WalkAgreesWithRows(db: Db, p: Post, results: seq<OpResult>, n: nat)
    requires Served(db, p, results) && n <= |p.ops|
    requires AllKnown(db.grants, OpsOf(db.ops)) && NoReuse(db, p)
    ensures AgreesAt(db, p, results, n)
  {
    hide Served, TablesAt, WalkAt, Agrees, RowsGrow, AllKnown, NoReuse;
    if n == 0 {
      WalkStarts(db, p, results);
      assert p.ops[..0] == [];
      NothingKnown(db.grants);
    } else {
      WalkAgreesWithRows(db, p, results, n - 1);
      AgreesNext(db, p, results, n - 1);
    }
  }

  lemma NothingKnown(grants: map<Uuid, GrantRow>)
    ensures AllKnown(grants, []) && RowsGrow(grants, grants) && Agrees(IndexOf(grants), grants)
  {
  }

  lemma AgreesNext(db: Db, p: Post, results: seq<OpResult>, i: nat)
    requires Served(db, p, results) && i < |p.ops|
    requires AllKnown(db.grants, OpsOf(db.ops)) && NoReuse(db, p) && AgreesAt(db, p, results, i)
    ensures AgreesAt(db, p, results, i + 1)
  {
    hide Served, TablesAt, WalkAt, WalkStep, EffectStep, Agrees, RowsGrow, AllKnown, Asserted, Rows, Known, NoReuse,
      IsRepeat;
    ClassOf(db, p, results, i);
    var op, r := p.ops[i], results[i];
    var v := ViewOf(db, p);
    var w, t := WalkAt(db, p, results, i), TablesAt(db, p, results, i);
    WalkAtStep(db, p, results, i);
    TablesAtStep(db, p, results, i);
    StepGrants(p, v, w, i);
    EffectGrants(t, op, r);
    assert p.ops[..i + 1] == p.ops[..i] + [op];
    if !r.duplicate {
      AgreesStep(w.grants, t.grants, op, r.seqNo);
      RowsStepGrows(t.grants, op, r.seqNo);
      NewIsKnown(w.grants, t.grants, op, r.seqNo);
      KnownGrows(db.grants, t.grants, Rows(t.grants, op, r.seqNo), p.ops[..i], op);
    } else {
      RepeatIsKnown(db, p, results, i);
      AgreesKnown(w.grants, t.grants, op);
      KnownWith(t.grants, p.ops[..i], op);
    }
  }

  lemma NewIsKnown(w: GrantStates, grants: map<Uuid, GrantRow>, op: Op, seqNo: nat)
    requires Agrees(w, grants) && (op.IsRevoke() ==> op.RevokeOf().grantId in w)
    ensures Known(Rows(grants, op, seqNo), op)
  {
  }

  lemma KnownIn(grants: map<Uuid, GrantRow>, ops: seq<Op>, op: Op)
    requires AllKnown(grants, ops) && op in ops
    ensures Known(grants, op)
  {
  }

  lemma KnownWith(grants: map<Uuid, GrantRow>, ops: seq<Op>, op: Op)
    requires AllKnown(grants, ops) && Known(grants, op)
    ensures AllKnown(grants, ops + [op])
  {
  }

  lemma KnownGrows(
    start: map<Uuid, GrantRow>, a: map<Uuid, GrantRow>, b: map<Uuid, GrantRow>, ops: seq<Op>, op: Op)
    requires RowsGrow(start, a) && RowsGrow(a, b) && AllKnown(a, ops) && Known(b, op)
    ensures RowsGrow(start, b) && AllKnown(b, ops + [op])
  {
  }

  /** What a verbatim repeat stands for is in the rows already. */
  lemma RepeatIsKnown(db: Db, p: Post, results: seq<OpResult>, i: nat)
    requires Served(db, p, results) && i < |p.ops| && AgreesAt(db, p, results, i)
    requires AllKnown(db.grants, OpsOf(db.ops)) && NoReuse(db, p) && IsRepeat(db, p, i)
    ensures Known(TablesAt(db, p, results, i).grants, p.ops[i])
    ensures p.ops[i].header.opId in ViewOf(db, p).replayed ==> Known(db.grants, p.ops[i])
  {
    hide Served, TablesAt, WalkAt, Agrees, RowsGrow, AllKnown, Known, NoReuse, IsRepeat, ViewOf;
    ClassOf(db, p, results, i);
    RepeatIsVerbatim(db, p, i);
    var grants := TablesAt(db, p, results, i).grants;
    if p.ops[i] in OpsOf(db.ops) {
      KnownIn(db.grants, OpsOf(db.ops), p.ops[i]);
      KnownStays(db.grants, grants, OpsOf(db.ops));
      KnownIn(grants, OpsOf(db.ops), p.ops[i]);
    } else {
      var j :| 0 <= j < i && p.ops[j] == p.ops[i];
      assert p.ops[..i][j] == p.ops[i];
      KnownIn(grants, p.ops[..i], p.ops[i]);
    }
  }

  // --- What a verbatim repeat can disturb ---

  /** Op i is a stored Grant posted again after its Grant was revoked, in the log or earlier in this batch. */
  predicate Reenters(db: Db, p: Post, i: nat)
    requires i < |p.ops|
  {
    && p.ops[i].IsGrant() && p.ops[i].header.opId in ViewOf(db, p).replayed
    && var g := p.ops[i].GrantOf().grantId;
       || (g in db.grants && db.grants[g].revokedBySeq.Some?)
       || exists j | 0 <= j < i :: p.ops[j].IsRevoke() && p.ops[j].RevokeOf().grantId == g
  }

  ghost predicate NoReentry(db: Db, p: Post) {
    forall i | 0 <= i < |p.ops| :: !Reenters(db, p, i)
  }

  /** A grant that was there when the POST began is revoked in the rows exactly when something revoked it. */
  lemma {:induction false} RevokedExactly(db: Db, p: Post, results: seq<OpResult>, n: nat, g: Uuid)
    requires Served(db, p, results) && n <= |p.ops| && g in db.grants
    requires AllKnown(db.grants, OpsOf(db.ops)) && NoReuse(db, p)
    ensures g in Ideal(db, p, n)
    ensures Ideal(db, p, n)[g].revoked <==>
              || db.grants[g].revokedBySeq.Some?
              || exists j | 0 <= j < n :: p.ops[j].IsRevoke() && p.ops[j].RevokeOf().grantId == g
  {
    hide Served, TablesAt, WalkAt, Agrees, AllKnown, RowsGrow, NoReuse, IsRepeat, Asserted;
    if n > 0 {
      var i := n - 1;
      RevokedExactly(db, p, results, i, g);
      WalkAgreesWithRows(db, p, results, i);
      RowsAreIdeal(db, p, results, i);
      if IsRepeat(db, p, i) {
        RepeatIsKnown(db, p, results, i);
        KnownRevoke(TablesAt(db, p, results, i).grants, p.ops[i]);
      } else {
        NewGrantIsNew(db, p, results, i);
        AssertedAt(Ideal(db, p, i), p.ops[i], g);
      }
    }
  }

  lemma KnownRevoke(grants: map<Uuid, GrantRow>, op: Op)
    requires Known(grants, op)
    ensures op.IsRevoke() ==> op.RevokeOf().grantId in IndexOf(grants) && IndexOf(grants)[op.RevokeOf().grantId].revoked
  {
  }

  lemma AssertedAt(states: GrantStates, op: Op, g: Uuid)
    requires g in states && !(op.IsGrant() && op.GrantOf().grantId == g)
    ensures g in Asserted(states, op)
    ensures Asserted(states, op)[g].revoked <==> states[g].revoked || (op.IsRevoke() && op.RevokeOf().grantId == g)
  {
  }

  lemma NewGrantIsNew(db: Db, p: Post, results: seq<OpResult>, i: nat)
    requires Served(db, p, results) && i < |p.ops| && AgreesAt(db, p, results, i) && !IsRepeat(db, p, i)
    ensures p.ops[i].IsGrant() ==> p.ops[i].GrantOf().grantId !in db.grants
  {
    hide Served, TablesAt, WalkAt, WalkStep, Asserted, AllKnown;
    WalkAtStep(db, p, results, i);
    StepGrants(p, ViewOf(db, p), WalkAt(db, p, results, i), i);
  }

  lemma KnownGrant(grants: map<Uuid, GrantRow>, op: Op)
    requires Known(grants, op) && op.IsGrant()
    ensures var g := op.GrantOf().grantId;
            g in grants && g in IndexOf(grants) && IndexOf(grants)[g].revoked == grants[g].revokedBySeq.Some?
  {
  }

  /** Asserting a known op again changes the index only by bringing a revoked Grant back. */
  lemma KnownAsserts(grants: map<Uuid, GrantRow>, op: Op)
    requires Known(grants, op)
    ensures Asserted(IndexOf(grants), op) == IndexOf(grants) <==>
              !(op.IsGrant() && grants[op.GrantOf().grantId].revokedBySeq.Some?)
  {
    if op.IsGrant() {
      assert IndexOf(grants)[op.GrantOf().grantId].revoked == grants[op.GrantOf().grantId].revokedBySeq.Some?;
    }
  }

  /** A grant op that repeats one of its own batch is refused as a reused grant id. */
  lemma RepeatWithinIsNoGrant(db: Db, p: Post, results: seq<OpResult>, i: nat)
    requires Served(db, p, results) && i < |p.ops| && AgreesAt(db, p, results, i)
    requires Known(TablesAt(db, p, results, i).grants, p.ops[i]) && p.ops[i].header.opId !in ViewOf(db, p).replayed
    ensures !p.ops[i].IsGrant()
  {
    hide Served, TablesAt, WalkAt, WalkStep, Asserted, AllKnown, RowsGrow;
    WalkAtStep(db, p, results, i);
    StepGrants(p, ViewOf(db, p), WalkAt(db, p, results, i), i);
  }

  /** Of verbatim repeats, exactly the stored Grants that are revoked by then disturb the index. */
  lemma DisturbingIsReentering(db: Db, p: Post, results: seq<OpResult>, i: nat)
    requires Served(db, p, results) && i < |p.ops|
    requires AllKnown(db.grants, OpsOf(db.ops)) && NoReuse(db, p)
    ensures Disturbs(db, p, i) <==> Reenters(db, p, i)
  {
    hide Served, TablesAt, WalkAt, AgreesAt, Known, AllKnown, Asserted, IndexOf, NoReuse, ViewOf;
    var op, grants := p.ops[i], TablesAt(db, p, results, i).grants;
    WalkAgreesWithRows(db, p, results, i);
    RowsAreIdeal(db, p, results, i);
    if IsRepeat(db, p, i) {
      RepeatIsKnown(db, p, results, i);
      KnownAsserts(grants, op);
      if op.header.opId !in ViewOf(db, p).replayed {
        RepeatWithinIsNoGrant(db, p, results, i);
      } else if op.IsGrant() {
        KnownGrant(db.grants, op);
        RevokedExactly(db, p, results, i, op.GrantOf().grantId);
        KnownGrant(grants, op);
      }
    }
  }

  /** So under the promise about op ids, index and rows agree throughout if and only if nothing is re-entered. */
  lemma IndexMatchesRowsWithoutReentry(db: Db, p: Post, results: seq<OpResult>)
    requires Served(db, p, results) && AllKnown(db.grants, OpsOf(db.ops)) && NoReuse(db, p)
    ensures AgreesThroughout(db, p, results, |p.ops|) <==> NoReentry(db, p)
  {
    hide Served, AllKnown, NoReuse, Disturbs, Reenters, AgreesThroughout;
    IndexMatchesRowsExactly(db, p, results, |p.ops|);
    forall i | 0 <= i < |p.ops|
      ensures Disturbs(db, p, i) <==> Reenters(db, p, i)
    {
      DisturbingIsReentering(db, p, results, i);
    }
  }
}
