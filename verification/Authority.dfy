/**
 Positional authority of POSTs that do not overlap. The walk decides before any transport seq exists; the rows it
 is judged by are written afterwards. Source: backend/app/sync/routes.py and models.py.
 */
module AuthorityProofs {
  import opened Wrappers
  import opened ByteStrings
  import opened Envelope
  import opened Payloads
  import opened OpLog
  import opened OpLogFacts
  import opened LogInvariant
  import opened Serial
  import opened GrantWalk

  // --- The promise ---

  /** The Grant covers an op of that author and class at that seq. */
  predicate Covers(row: GrantRow, author: Uuid, opClass: byte, seqNo: nat) {
    && row.memberId == author
    && row.role in RoleOpClassMatrix(opClass)
    && row.grantedSeq < seqNo
    && (row.revokedBySeq.Some? ==> seqNo < row.revokedBySeq.value)
  }

  ghost predicate Covered(grants: map<Uuid, GrantRow>, op: Op, seqNo: nat) {
    exists g | g in grants :: Covers(grants[g], op.Author(), op.header.opClass, seqNo)
  }

  /** Every stored op is Root's own or lies in the window of a Grant whose role admits it. */
  ghost predicate LogAuthorised(grants: map<Uuid, GrantRow>, rows: seq<OpRow>) {
    forall i | 0 <= i < |rows| && !rows[i].op.IsRootSigned() :: Covered(grants, rows[i].op, rows[i].seqNo)
  }

  // --- The grant rows ---

  /** The row a stored op stands for is there, anchored to the op's own seq. */
  ghost predicate Anchored(grants: map<Uuid, GrantRow>, row: OpRow) {
    && Known(grants, row.op)
    && (row.op.IsGrant() ==>
          var g := row.op.GrantOf();
          grants[g.grantId].grantedSeq == row.seqNo && grants[g.grantId].granter == g.granter)
  }

  /** A grant row is written by a stored grant op. */
  ghost predicate Sourced(grants: map<Uuid, GrantRow>, rows: seq<OpRow>, g: Uuid)
    requires g in grants
  {
    exists i | 0 <= i < |rows| ::
      rows[i].seqNo == grants[g].grantedSeq && rows[i].op.IsGrant() && rows[i].op.GrantOf().grantId == g
  }

  /** Every boundary is below `bound`, and a grant precedes its revocation. */
  ghost predicate Below(grants: map<Uuid, GrantRow>, bound: nat) {
    forall g | g in grants ::
      && grants[g].grantedSeq < bound
      && (grants[g].revokedBySeq.Some? ==> grants[g].grantedSeq < grants[g].revokedBySeq.value < bound)
  }

  ghost predicate GrantInv(grants: map<Uuid, GrantRow>, rows: seq<OpRow>) {
    && (forall i | 0 <= i < |rows| :: Anchored(grants, rows[i]))
    && (forall g | g in grants :: Sourced(grants, rows, g))
    && Below(grants, Top(rows) + 1)
  }

  lemma InvKnows(grants: map<Uuid, GrantRow>, rows: seq<OpRow>)
    requires GrantInv(grants, rows)
    ensures AllKnown(grants, OpsOf(rows)) && Below(grants, Top(rows) + 1)
  {
  }

  // --- What lies between two indexes of one batch ---

  /** A grant row of `b` is one of `a`, or was written by a new grant op in between. */
  ghost predicate GrantedBetween(
    a: map<Uuid, GrantRow>, b: map<Uuid, GrantRow>, ops: seq<Op>, results: seq<OpResult>, m: nat, n: nat, g: Uuid)
    requires n <= |ops| == |results| && g in b
  {
    g in a || exists j | m <= j < n ::
      !results[j].duplicate && ops[j].IsGrant() && ops[j].GrantOf().grantId == g
      && b[g].(revokedBySeq := None)
         == GrantRow(ops[j].GrantOf().memberId, ops[j].GrantOf().role, ops[j].GrantOf().granter, results[j].seqNo, None)
  }

  /** A row live in `a` is live in `b`, or was revoked by a new revoke op in between. */
  ghost predicate RevokedBetween(
    a: map<Uuid, GrantRow>, b: map<Uuid, GrantRow>, ops: seq<Op>, results: seq<OpResult>, m: nat, n: nat, g: Uuid)
    requires n <= |ops| == |results| && g in a && g in b
  {
    a[g].revokedBySeq.Some? || b[g].revokedBySeq.None? || exists j | m <= j < n ::
      !results[j].duplicate && ops[j].IsRevoke() && ops[j].RevokeOf().grantId == g
      && b[g].revokedBySeq == Some(results[j].seqNo)
  }

  ghost predicate Between(db: Db, p: Post, results: seq<OpResult>, m: nat, n: nat)
    requires Served(db, p, results) && m <= n <= |p.ops|
  {
    var a, b := TablesAt(db, p, results, m).grants, TablesAt(db, p, results, n).grants;
    && RowsGrow(a, b)
    && (forall g | g in b :: GrantedBetween(a, b, p.ops, results, m, n, g))
    && (forall g | g in a && g in b :: RevokedBetween(a, b, p.ops, results, m, n, g))
  }

  lemma {:induction false} RowsBetween(db: Db, p: Post, results: seq<OpResult>, m: nat, n: nat)
    requires Served(db, p, results) && m <= n <= |p.ops|
    ensures Between(db, p, results, m, n)
    decreases n
  {
    hide Served, TablesAt, EffectStep;
    if m < n {
      RowsBetween(db, p, results, m, n - 1);
      ClassOf(db, p, results, n - 1);
      hide Classed, GrantedBetween, RevokedBetween, RowsGrow;
      var t, t' := TablesAt(db, p, results, n - 1), TablesAt(db, p, results, n);
      TablesAtStep(db, p, results, n - 1);
      EffectGrants(t, p.ops[n - 1], results[n - 1]);
      BetweenStep(TablesAt(db, p, results, m).grants, t.grants, t'.grants, p.ops, results, m, n);
    }
  }

  lemma BetweenStep(
    a: map<Uuid, GrantRow>, b: map<Uuid, GrantRow>, c: map<Uuid, GrantRow>,
    ops: seq<Op>, results: seq<OpResult>, m: nat, n: nat)
    requires m < n <= |ops| == |results| && RowsGrow(a, b)
    requires c == if results[n - 1].duplicate then b else Rows(b, ops[n - 1], results[n - 1].seqNo)
    requires !results[n - 1].duplicate && ops[n - 1].IsGrant() ==> ops[n - 1].GrantOf().grantId !in b
    requires forall g | g in b :: GrantedBetween(a, b, ops, results, m, n - 1, g)
    requires forall g | g in a && g in b :: RevokedBetween(a, b, ops, results, m, n - 1, g)
    ensures RowsGrow(a, c)
    ensures forall g | g in c :: GrantedBetween(a, c, ops, results, m, n, g)
    ensures forall g | g in a && g in c :: RevokedBetween(a, c, ops, results, m, n, g)
  {
    if !results[n - 1].duplicate {
      RowsStepGrows(b, ops[n - 1], results[n - 1].seqNo);
    }
    forall g | g in c
      ensures GrantedBetween(a, c, ops, results, m, n, g)
    {
      if g in b {
        assert GrantedBetween(a, b, ops, results, m, n - 1, g);
      }
    }
    forall g | g in a && g in c
      ensures RevokedBetween(a, c, ops, results, m, n, g)
    {
      assert g in b && RevokedBetween(a, b, ops, results, m, n - 1, g);
    }
  }

  /** Boundaries written so far lie below anything the rest of the batch will write. */
  lemma {:induction false} BoundariesBelow(db: Db, p: Post, results: seq<OpResult>, n: nat, bound: nat)
    requires Served(db, p, results) && n <= |p.ops|
    requires Below(db.grants, Top(db.ops) + 1) && Top(db.ops) < bound
    requires forall j | 0 <= j < n && !results[j].duplicate :: results[j].seqNo < bound
    ensures Below(TablesAt(db, p, results, n).grants, bound)
  {
    hide Served, TablesAt, EffectStep;
    if n == 0 {
      WalkStarts(db, p, results);
    } else {
      var i := n - 1;
      ClassOf(db, p, results, i);
      BoundariesBelow(db, p, results, i, bound);
      var t := TablesAt(db, p, results, i);
      TablesAtStep(db, p, results, i);
      EffectGrants(t, p.ops[i], results[i]);
      if !results[i].duplicate {
        ServedInOrder(db, p, results);
        BoundariesBelow(db, p, results, i, results[i].seqNo);
      }
    }
  }

  // --- One position ---

  lemma RequireRoleExactly(states: GrantStates, member: Uuid, opClass: byte)
    ensures RequireRole(states, member, opClass).None? <==>
              exists g | g in states :: !states[g].revoked && states[g].memberId == member
                                        && states[g].role in RoleOpClassMatrix(opClass)
  {
    hide RoleOpClassMatrix;
    var matrix := RoleOpClassMatrix(opClass);
    if g :| g in states && !states[g].revoked && states[g].memberId == member && states[g].role in matrix {
      assert states[g].role in LiveRoles(states, member) * matrix;
    }
    if RequireRole(states, member, opClass).None? {
      var role :| role in LiveRoles(states, member) * matrix;
      var g :| g in states && states[g].memberId == member && !states[g].revoked && states[g].role == role;
    }
  }

  /** What the walk holds an op that is not Root's to. */
  lemma StepAuthority(p: Post, v: View, w: Walk, i: nat)
    requires i < |p.ops| == |v.logs| && WalkStep(p, v, w, i).Success? && !p.ops[i].IsRootSigned()
    ensures RequireRole(w.grants, p.caller.memberId, p.ops[i].header.opClass).None?
    ensures p.ops[i].IsGrant() ==> p.ops[i].GrantOf().role != Owner
                                   && p.ops[i].GrantOf().granter == Member(p.ops[i].Author())
    ensures p.ops[i].IsRevoke() ==> p.ops[i].RevokeOf().grantId in w.grants
                                    && w.grants[p.ops[i].RevokeOf().grantId].role != Owner
  {
    hide RequireRole, RequireFreshKeyEpoch, VerifyPrune, VerifyGenesis, VerifyMemberRegister, VerifyRotate;
  }

  /** The states with the op's own revocation taken: no op is admitted by a Grant it closes itself. */
  function Spared(states: GrantStates, op: Op): GrantStates {
    if op.IsRevoke() then Asserted(states, op) else states
  }

  /** The role check of op i on the index that repeats leave alone. */
  predicate AdmitsWithoutRepeats(db: Db, p: Post, i: nat)
    requires i < |p.ops|
  {
    RequireRole(Spared(Ideal(db, p, i), p.ops[i]), p.ops[i].Author(), p.ops[i].header.opClass).None?
  }

  /**
   A new op is covered by the rows written afterwards exactly when its role is admitted with repeats left out,
   whatever op ids the log and the batch use.
   */
  lemma PositionExactly(db: Db, p: Post, results: seq<OpResult>, i: nat)
    requires Served(db, p, results) && i < |p.ops| && !results[i].duplicate
    requires Below(db.grants, Top(db.ops) + 1)
    ensures Covered(TablesAt(db, p, results, |p.ops|).grants, p.ops[i], results[i].seqNo)
            <==> AdmitsWithoutRepeats(db, p, i)
  {
    hide Served, TablesAt, WalkAt, RoleOpClassMatrix, RequireRole, RowsGrow, Ideal, Between, InOrder, Classed,
      IndexOf, Spared;
    var n, op := |p.ops|, p.ops[i];
    NewSeqIsAbove(db, p, results, i);
    ServedInOrder(db, p, results);
    RowsAreIdeal(db, p, results, i);
    RowsBetween(db, p, results, i, n);
    OrderedBefore(results, i);
    BoundariesBelow(db, p, results, i, results[i].seqNo);
    RequireRoleExactly(Spared(Ideal(db, p, i), op), op.Author(), op.header.opClass);
    var a, b := TablesAt(db, p, results, i).grants, TablesAt(db, p, results, n).grants;
    if AdmitsWithoutRepeats(db, p, i) {
      var states := Spared(IndexOf(a), op);
      var g :| g in states && !states[g].revoked && states[g].memberId == op.Author()
               && states[g].role in RoleOpClassMatrix(op.header.opClass);
      SparedExactly(a, op, g);
      StaysOpen(db, p, results, i, g);
      assert Covers(b[g], op.Author(), op.header.opClass, results[i].seqNo);
    }
    if g :| g in b && Covers(b[g], op.Author(), op.header.opClass, results[i].seqNo) {
      WasOpen(db, p, results, i, g);
      SparedExactly(a, op, g);
    }
  }

  /** Spared is live, and not what the op itself revokes. */
  lemma SparedExactly(grants: map<Uuid, GrantRow>, op: Op, g: Uuid)
    ensures var states := Spared(IndexOf(grants), op);
            && (g in states <==> g in grants)
            && (g in grants ==>
                  && states[g].memberId == grants[g].memberId && states[g].role == grants[g].role
                  && (!states[g].revoked <==>
                        grants[g].revokedBySeq.None? && !(op.IsRevoke() && op.RevokeOf().grantId == g)))
  {
  }

  lemma StaysOpen(db: Db, p: Post, results: seq<OpResult>, i: nat, g: Uuid)
    requires Served(db, p, results) && i < |p.ops| && Between(db, p, results, i, |p.ops|)
    requires |results| == |p.ops| && InOrder(results) && !results[i].duplicate
    requires var a := TablesAt(db, p, results, i).grants;
             g in a && a[g].revokedBySeq.None? && a[g].grantedSeq < results[i].seqNo
    requires !(p.ops[i].IsRevoke() && p.ops[i].RevokeOf().grantId == g)
    ensures var a, b := TablesAt(db, p, results, i).grants, TablesAt(db, p, results, |p.ops|).grants;
            && g in b && b[g].memberId == a[g].memberId && b[g].role == a[g].role && b[g].grantedSeq == a[g].grantedSeq
            && (b[g].revokedBySeq.Some? ==> results[i].seqNo < b[g].revokedBySeq.value)
  {
    hide Served, TablesAt;
    var a, b := TablesAt(db, p, results, i).grants, TablesAt(db, p, results, |p.ops|).grants;
    assert RevokedBetween(a, b, p.ops, results, i, |p.ops|, g);
  }

  lemma WasOpen(db: Db, p: Post, results: seq<OpResult>, i: nat, g: Uuid)
    requires Served(db, p, results) && i < |p.ops| && Between(db, p, results, i, |p.ops|)
    requires |results| == |p.ops| && InOrder(results) && !results[i].duplicate
    requires Below(TablesAt(db, p, results, i).grants, results[i].seqNo)
    requires var b := TablesAt(db, p, results, |p.ops|).grants;
             g in b && Covers(b[g], p.ops[i].Author(), p.ops[i].header.opClass, results[i].seqNo)
    ensures var a, b := TablesAt(db, p, results, i).grants, TablesAt(db, p, results, |p.ops|).grants;
            && g in a && a[g].revokedBySeq.None? && a[g].memberId == b[g].memberId && a[g].role == b[g].role
            && !(p.ops[i].IsRevoke() && p.ops[i].RevokeOf().grantId == g)
  {
    hide Served, TablesAt, RoleOpClassMatrix, EffectStep;
    var a, b := TablesAt(db, p, results, i).grants, TablesAt(db, p, results, |p.ops|).grants;
    assert GrantedBetween(a, b, p.ops, results, i, |p.ops|, g);
    ClosedAtOwnSeq(db, p, results, i, g);
  }

  /** A Grant its own batch revokes at op i has op i's seq as its boundary. */
  lemma ClosedAtOwnSeq(db: Db, p: Post, results: seq<OpResult>, i: nat, g: Uuid)
    requires Served(db, p, results) && i < |p.ops| == |results| && !results[i].duplicate
    requires g in TablesAt(db, p, results, i).grants && TablesAt(db, p, results, i).grants[g].revokedBySeq.None?
    ensures p.ops[i].IsRevoke() && p.ops[i].RevokeOf().grantId == g ==>
              var b := TablesAt(db, p, results, |p.ops|).grants;
              g in b && b[g].revokedBySeq == Some(results[i].seqNo)
  {
    hide Served, TablesAt, EffectStep, GrantedBetween, RevokedBetween;
    TablesAtStep(db, p, results, i);
    EffectGrants(TablesAt(db, p, results, i), p.ops[i], results[i]);
    RowsBetween(db, p, results, i + 1, |p.ops|);
  }

  // --- One POST ---

  lemma NewRowAnchored(db: Db, p: Post, results: seq<OpResult>, i: nat, row: OpRow)
    requires Served(db, p, results) && i < |p.ops| && !results[i].duplicate
    requires AllKnown(db.grants, OpsOf(db.ops)) && NoReuse(db, p)
    requires row.op == p.ops[i] && row.seqNo == results[i].seqNo
    ensures Anchored(TablesAt(db, p, results, |p.ops|).grants, row)
  {
    hide Served, TablesAt, WalkAt, Agrees, AllKnown, Known, RowsGrow, NoReuse;
    var n := |p.ops|;
    ServedInOrder(db, p, results);
    WalkAgreesWithRows(db, p, results, n);
    assert p.ops[..n][i] == p.ops[i];
    KnownIn(TablesAt(db, p, results, n).grants, p.ops[..n], p.ops[i]);
    if row.op.IsGrant() {
      NewGrantRow(db, p, results, i);
    }
  }

  lemma NewGrantRow(db: Db, p: Post, results: seq<OpResult>, i: nat)
    requires Served(db, p, results) && i < |p.ops| == |results| && !results[i].duplicate && p.ops[i].IsGrant()
    ensures var g, grants := p.ops[i].GrantOf(), TablesAt(db, p, results, |p.ops|).grants;
            && g.grantId in grants
            && grants[g.grantId].(revokedBySeq := None)
              == GrantRow(g.memberId, g.role, g.granter, results[i].seqNo, None)
  {
    hide Served, TablesAt, EffectStep, GrantedBetween, RevokedBetween;
    TablesAtStep(db, p, results, i);
    EffectGrants(TablesAt(db, p, results, i), p.ops[i], results[i]);
    RowsBetween(db, p, results, i + 1, |p.ops|);
  }

  lemma OldRowAnchored(a: map<Uuid, GrantRow>, b: map<Uuid, GrantRow>, row: OpRow, row': OpRow)
    requires RowsGrow(a, b) && Anchored(a, row) && row'.op == row.op && row'.seqNo == row.seqNo
    ensures Anchored(b, row')
  {
  }

  /** Boundaries stay below the head of the log. */
  lemma PostKeepsBelow(db: Db, p: Post, results: seq<OpResult>, db': Db)
    requires Recorded(db, p, results, db') && Below(db.grants, Top(db.ops) + 1)
    ensures Below(db'.grants, Top(db'.ops) + 1)
  {
    hide Served, TablesAt, Below, NewOpsStored, RowsAnswered, Increasing, Extends;
    TopGrows(db.ops, db'.ops);
    TopBounds(db'.ops);
    forall j | 0 <= j < |p.ops| && !results[j].duplicate
      ensures results[j].seqNo < Top(db'.ops) + 1
    {
      var q := NewOpHasRow(db'.ops, |db.ops|, p.ops, results, j);
    }
    BoundariesBelow(db, p, results, |p.ops|, Top(db'.ops) + 1);
  }

  lemma PostKeepsGrants(db: Db, p: Post, results: seq<OpResult>, db': Db)
    requires Recorded(db, p, results, db') && NoReuse(db, p) && GrantInv(db.grants, db.ops)
    ensures GrantInv(db'.grants, db'.ops) && RowsGrow(db.grants, db'.grants)
  {
    hide Served, TablesAt, WalkAt, Agrees, AllKnown, Anchored, RowsGrow, Sourced, Below, NewOpsStored, NoReuse;
    var n := |p.ops|;
    InvKnows(db.grants, db.ops);
    RowsKept(db, p, results);
    forall q | 0 <= q < |db'.ops|
      ensures Anchored(db'.grants, db'.ops[q])
    {
      if q < |db.ops| {
        OldRowAnchored(db.grants, db'.grants, db.ops[q], db'.ops[q]);
      } else {
        assert RowAnswered(db'.ops[q], p.ops, results);
        var i :| 0 <= i < n && !results[i].duplicate && results[i].seqNo == db'.ops[q].seqNo
          && db'.ops[q].op == p.ops[i];
        NewRowAnchored(db, p, results, i, db'.ops[q]);
      }
    }
    forall g | g in db'.grants
      ensures Sourced(db'.grants, db'.ops, g)
    {
      GrantsStaySourced(db, p, results, db', g);
    }
    PostKeepsBelow(db, p, results, db');
  }

  lemma GrantsStaySourced(db: Db, p: Post, results: seq<OpResult>, db': Db, g: Uuid)
    requires Recorded(db, p, results, db') && g in db'.grants
    requires g in db.grants ==> Sourced(db.grants, db.ops, g)
    ensures Sourced(db'.grants, db'.ops, g)
  {
    hide Served, TablesAt, NewOpsStored, RowsAnswered, Increasing;
    if g in db.grants {
      RowsKept(db, p, results);
      var i :| 0 <= i < |db.ops| && db.ops[i].seqNo == db.grants[g].grantedSeq
               && db.ops[i].op.IsGrant() && db.ops[i].op.GrantOf().grantId == g;
      assert db'.ops[i].op == db.ops[i].op && db'.ops[i].seqNo == db.ops[i].seqNo;
    } else {
      var j := MintingOp(db, p, results, g);
      var q := NewOpHasRow(db'.ops, |db.ops|, p.ops, results, j);
    }
  }

  lemma RowsKept(db: Db, p: Post, results: seq<OpResult>)
    requires Served(db, p, results)
    ensures RowsGrow(db.grants, TablesAt(db, p, results, |p.ops|).grants)
  {
    hide Served, TablesAt, GrantedBetween, RevokedBetween, RowsGrow;
    WalkStarts(db, p, results);
    RowsBetween(db, p, results, 0, |p.ops|);
  }

  /** A boundary written by a POST is the seq of one of its new revokes. */
  lemma RevokedLater(db: Db, p: Post, results: seq<OpResult>, g: Uuid)
    requires Served(db, p, results) && g in db.grants
    ensures var grants := TablesAt(db, p, results, |p.ops|).grants;
            && g in grants
            && (db.grants[g].revokedBySeq.None? && grants[g].revokedBySeq.Some? ==>
                  Top(db.ops) < grants[g].revokedBySeq.value)
  {
    hide Served, TablesAt, GrantedBetween, Classed, InOrder;
    ServedInOrder(db, p, results);
    WalkStarts(db, p, results);
    RowsBetween(db, p, results, 0, |p.ops|);
    var grants := TablesAt(db, p, results, |p.ops|).grants;
    assert RevokedBetween(db.grants, grants, p.ops, results, 0, |p.ops|, g);
    if db.grants[g].revokedBySeq.None? && grants[g].revokedBySeq.Some? {
      var j :| 0 <= j < |p.ops| && !results[j].duplicate && grants[g].revokedBySeq == Some(results[j].seqNo);
      NewSeqIsAbove(db, p, results, j);
    }
  }

  /** A POST changes nothing about the ops before it: the boundaries it writes lie above their seqs. */
  lemma OldRowStaysCovered(db: Db, p: Post, results: seq<OpResult>, op: Op, seqNo: nat)
    requires Served(db, p, results) && seqNo <= Top(db.ops)
    ensures Covered(TablesAt(db, p, results, |p.ops|).grants, op, seqNo) <==> Covered(db.grants, op, seqNo)
  {
    hide Served, TablesAt, RoleOpClassMatrix, RowsGrow;
    var grants := TablesAt(db, p, results, |p.ops|).grants;
    if g :| g in db.grants && Covers(db.grants[g], op.Author(), op.header.opClass, seqNo) {
      OldWindow(db, p, results, g);
      assert Covers(grants[g], op.Author(), op.header.opClass, seqNo);
    }
    if g :| g in grants && Covers(grants[g], op.Author(), op.header.opClass, seqNo) {
      if g !in db.grants {
        var j := MintingOp(db, p, results, g);
        NewSeqIsAbove(db, p, results, j);
        assert false;
      } else {
        OldWindow(db, p, results, g);
        assert Covers(db.grants[g], op.Author(), op.header.opClass, seqNo);
      }
    }
  }

  /** What a POST does to the window of a Grant that was there: nothing, or it closes it above the log. */
  lemma OldWindow(db: Db, p: Post, results: seq<OpResult>, g: Uuid)
    requires Served(db, p, results) && g in db.grants
    ensures var row, grants := db.grants[g], TablesAt(db, p, results, |p.ops|).grants;
            && g in grants
            && grants[g].memberId == row.memberId && grants[g].role == row.role
            && grants[g].grantedSeq == row.grantedSeq
            && (grants[g].revokedBySeq == row.revokedBySeq
                || (row.revokedBySeq.None? && Top(db.ops) < grants[g].revokedBySeq.value))
  {
    hide Served, TablesAt;
    RowsKept(db, p, results);
    RevokedLater(db, p, results, g);
  }

  /** Every op of the batch that is new and not Root's passes the role check with repeats left out. */
  ghost predicate NewOpsAdmitted(db: Db, p: Post) {
    forall i | 0 <= i < |p.ops| && !IsRepeat(db, p, i) && !p.ops[i].IsRootSigned() :: AdmitsWithoutRepeats(db, p, i)
  }

  /**
   After a POST the log is positionally authorised if and only if it was before and each new op passes the role
   check at its index with repeats left out. This needs no promise about op ids.
   */
  lemma AuthorityExactly(db: Db, p: Post, results: seq<OpResult>, db': Db)
    requires Increasing(db.ops) && Below(db.grants, Top(db.ops) + 1) && Recorded(db, p, results, db')
    ensures LogAuthorised(db'.grants, db'.ops) <==> LogAuthorised(db.grants, db.ops) && NewOpsAdmitted(db, p)
  {
    hide Served, TablesAt, Below, Covered, AdmitsWithoutRepeats, Increasing, IsRepeat, NewOpsStored;
    TopBounds(db.ops);
    forall q | 0 <= q < |db.ops|
      ensures Covered(db'.grants, db'.ops[q].op, db'.ops[q].seqNo)
              <==> Covered(db.grants, db.ops[q].op, db.ops[q].seqNo)
    {
      OldRowStaysCovered(db, p, results, db.ops[q].op, db.ops[q].seqNo);
    }
    forall i | 0 <= i < |p.ops| && !IsRepeat(db, p, i)
      ensures !results[i].duplicate
      ensures Covered(db'.grants, p.ops[i], results[i].seqNo) <==> AdmitsWithoutRepeats(db, p, i)
    {
      ClassOf(db, p, results, i);
      PositionExactly(db, p, results, i);
    }
    if LogAuthorised(db.grants, db.ops) && NewOpsAdmitted(db, p) {
      forall q | |db.ops| <= q < |db'.ops| && !db'.ops[q].op.IsRootSigned()
        ensures Covered(db'.grants, db'.ops[q].op, db'.ops[q].seqNo)
      {
        assert RowAnswered(db'.ops[q], p.ops, results);
        var i :| 0 <= i < |p.ops| && !results[i].duplicate && results[i].seqNo == db'.ops[q].seqNo
                 && db'.ops[q].op == p.ops[i];
        ClassOf(db, p, results, i);
      }
    }
    if LogAuthorised(db'.grants, db'.ops) {
      forall i | 0 <= i < |p.ops| && !IsRepeat(db, p, i) && !p.ops[i].IsRootSigned()
        ensures AdmitsWithoutRepeats(db, p, i)
      {
        var q := NewOpHasRow(db'.ops, |db.ops|, p.ops, results, i);
      }
      forall q | 0 <= q < |db.ops| && !db.ops[q].op.IsRootSigned()
        ensures Covered(db.grants, db.ops[q].op, db.ops[q].seqNo)
      {
        assert db'.ops[q].op == db.ops[q].op;
      }
    }
  }

  ghost predicate NothingDisturbs(db: Db, p: Post) {
    forall i | 0 <= i < |p.ops| :: !Disturbs(db, p, i)
  }

  /** Where no repeat disturbs the index, the walk's own checks are those checks. */
  lemma UndisturbedAdmits(db: Db, p: Post, results: seq<OpResult>)
    requires Served(db, p, results) && NothingDisturbs(db, p)
    ensures NewOpsAdmitted(db, p)
  {
    hide Served, TablesAt, WalkAt, WalkStep, Disturbs, RequireRole, IndexOf, IsRepeat, Spared, Ideal;
    IndexMatchesRowsExactly(db, p, results, |p.ops|);
    forall i | 0 <= i < |p.ops| && !p.ops[i].IsRootSigned()
      ensures AdmitsWithoutRepeats(db, p, i)
    {
      ClassOf(db, p, results, i);
      RowsAreIdeal(db, p, results, i);
      WalkAtStep(db, p, results, i);
      StepAuthority(p, ViewOf(db, p), WalkAt(db, p, results, i), i);
      SparingKeepsRoles(Ideal(db, p, i), p.ops[i]);
    }
  }

  /** A control op that is not Root's revokes no owner Grant, so none closes the window it is admitted by. */
  lemma SparingKeepsRoles(states: GrantStates, op: Op)
    requires RequireRole(states, op.Author(), op.header.opClass).None?
    requires op.IsRevoke() ==> op.RevokeOf().grantId in states && states[op.RevokeOf().grantId].role != Owner
    ensures RequireRole(Spared(states, op), op.Author(), op.header.opClass).None?
  {
    hide RequireRole;
    RequireRoleExactly(states, op.Author(), op.header.opClass);
    RequireRoleExactly(Spared(states, op), op.Author(), op.header.opClass);
    var g :| g in states && !states[g].revoked && states[g].memberId == op.Author()
             && states[g].role in RoleOpClassMatrix(op.header.opClass);
    assert Spared(states, op)[g] == states[g];
  }

  /** So a POST without such a repeat keeps the log positionally authorised. */
  lemma AuthorityHolds(db: Db, p: Post, results: seq<OpResult>, db': Db)
    requires Increasing(db.ops) && Below(db.grants, Top(db.ops) + 1) && LogAuthorised(db.grants, db.ops)
    requires Recorded(db, p, results, db') && NothingDisturbs(db, p)
    ensures LogAuthorised(db'.grants, db'.ops)
  {
    hide Served, TablesAt, Below, NothingDisturbs, LogAuthorised, NewOpsAdmitted, RowsAnswered, NewOpsStored,
      Increasing, Extends;
    UndisturbedAdmits(db, p, results);
    AuthorityExactly(db, p, results, db');
  }

  /** Under the promise about op ids that means: without a re-entered Grant. */
  lemma NoReentryDisturbsNothing(db: Db, p: Post, results: seq<OpResult>)
    requires Served(db, p, results) && AllKnown(db.grants, OpsOf(db.ops)) && NoReuse(db, p) && NoReentry(db, p)
    ensures NothingDisturbs(db, p)
  {
    hide Served, AllKnown, NoReuse, Disturbs, Reenters;
    forall i | 0 <= i < |p.ops|
      ensures !Disturbs(db, p, i)
    {
      DisturbingIsReentering(db, p, results, i);
    }
  }

  // --- Owners ---

  function LiveOwners(grants: map<Uuid, GrantRow>): map<Uuid, Uuid> {
    map g | g in grants && grants[g].role == Owner && grants[g].revokedBySeq.None? :: grants[g].memberId
  }

  ghost predicate NoRootOp(ops: seq<Op>) {
    forall op | op in ops :: !op.IsRootSigned()
  }

  /** No entry of the walk's index claims an owner the rows do not have, live or revoked. */
  lemma {:induction false} OwnersUntouched(db: Db, p: Post, results: seq<OpResult>, n: nat)
    requires Served(db, p, results) && n <= |p.ops| && NoRootOp(p.ops)
    requires AllKnown(db.grants, OpsOf(db.ops)) && NoReuse(db, p)
    ensures LiveOwners(TablesAt(db, p, results, n).grants) == LiveOwners(db.grants)
    ensures forall g | IsLive(WalkAt(db, p, results, n).grants, g)
                       && WalkAt(db, p, results, n).grants[g].role == Owner ::
              g in LiveOwners(db.grants) && LiveOwners(db.grants)[g] == WalkAt(db, p, results, n).grants[g].memberId
  {
    hide Served, TablesAt, WalkAt, WalkStep, EffectStep, RowsGrow, AllKnown, NoReuse, IndexOf;
    if n == 0 {
      WalkStarts(db, p, results);
      IndexedOwners(db.grants);
    } else {
      var i := n - 1;
      OwnersUntouched(db, p, results, i);
      WalkAgreesWithRows(db, p, results, i);
      ClassOf(db, p, results, i);
      hide Classed;
      WalkAtStep(db, p, results, i);
      TablesAtStep(db, p, results, i);
      var v, w := ViewOf(db, p), WalkAt(db, p, results, i);
      StepAuthority(p, v, w, i);
      StepGrants(p, v, w, i);
      EffectGrants(TablesAt(db, p, results, i), p.ops[i], results[i]);
      OwnersStep(w.grants, TablesAt(db, p, results, i).grants, p.ops[i], results[i].seqNo);
    }
  }

  lemma IndexedOwners(grants: map<Uuid, GrantRow>)
    ensures forall g | IsLive(IndexOf(grants), g) && IndexOf(grants)[g].role == Owner ::
              g in LiveOwners(grants) && LiveOwners(grants)[g] == IndexOf(grants)[g].memberId
  {
  }

  /** An op that neither grants nor revokes an owner leaves the owners of both views alone. */
  lemma OwnersStep(w: GrantStates, grants: map<Uuid, GrantRow>, op: Op, seqNo: nat)
    requires Agrees(w, grants)
    requires op.IsGrant() ==> op.GrantOf().role != Owner
    requires op.IsRevoke() ==> op.RevokeOf().grantId in w && w[op.RevokeOf().grantId].role != Owner
    ensures op.IsGrant() ==> op.GrantOf().grantId in grants || LiveOwners(Rows(grants, op, seqNo)) == LiveOwners(grants)
    ensures op.IsRevoke() ==> LiveOwners(Rows(grants, op, seqNo)) == LiveOwners(grants)
    ensures forall g | IsLive(Asserted(w, op), g) && Asserted(w, op)[g].role == Owner ::
              IsLive(w, g) && w[g] == Asserted(w, op)[g]
  {
  }

  /** A Grant minted by this POST: no owner's, and its granter is its own author, an owner before, then and since. */
  ghost predicate OwnerMinted(owners: map<Uuid, Uuid>, grants: map<Uuid, GrantRow>, rows: seq<OpRow>, g: Uuid)
    requires g in grants
  {
    grants[g].role != Owner && exists q | 0 <= q < |rows| ::
      && rows[q].seqNo == grants[g].grantedSeq && rows[q].op.IsGrant() && rows[q].op.GrantOf().grantId == g
      && grants[g].granter == Member(rows[q].op.Author())
      && rows[q].op.Author() in owners.Values
  }

  /** One POST with no root-signed control op neither adds nor removes a live owner, and mints only lesser Grants. */
  lemma OwnersFixedByPost(db: Db, p: Post, results: seq<OpResult>, db': Db)
    requires GrantInv(db.grants, db.ops) && NoReuse(db, p) && Recorded(db, p, results, db') && NoRootOp(p.ops)
    ensures LiveOwners(db'.grants) == LiveOwners(db.grants)
    ensures forall g | g in db'.grants && g !in db.grants :: OwnerMinted(LiveOwners(db.grants), db'.grants, db'.ops, g)
  {
    hide Served, TablesAt, GrantInv, NewOpsStored, RowsAnswered, LiveOwners, Extends, NoRootOp, NoReuse, Increasing;
    InvKnows(db.grants, db.ops);
    OwnersUntouched(db, p, results, |p.ops|);
    forall g | g in db'.grants && g !in db.grants
      ensures OwnerMinted(LiveOwners(db.grants), db'.grants, db'.ops, g)
    {
      MintedByOwner(db, p, results, db', g);
    }
  }

  lemma MintedByOwner(db: Db, p: Post, results: seq<OpResult>, db': Db, g: Uuid)
    requires AllKnown(db.grants, OpsOf(db.ops)) && NoReuse(db, p)
    requires Recorded(db, p, results, db') && NoRootOp(p.ops)
    requires g in db'.grants && g !in db.grants
    ensures OwnerMinted(LiveOwners(db.grants), db'.grants, db'.ops, g)
  {
    hide Served, TablesAt, AllKnown, NewOpsStored, RowsAnswered, LiveOwners, Extends, NoRootOp, NoReuse, Increasing;
    var j := MintingOp(db, p, results, g);
    var q := NewOpHasRow(db'.ops, |db.ops|, p.ops, results, j);
    GranterIsAuthor(db, p, results, j);
    AuthorOwns(db, p, results, j);
  }

  /** The new grant op behind a grant row that was not there before. */
  lemma MintingOp(db: Db, p: Post, results: seq<OpResult>, g: Uuid) returns (j: nat)
    requires Served(db, p, results)
    requires g in TablesAt(db, p, results, |p.ops|).grants && g !in db.grants
    ensures |results| == |p.ops| && j < |p.ops| && !results[j].duplicate
    ensures p.ops[j].IsGrant() && p.ops[j].GrantOf().grantId == g
    ensures TablesAt(db, p, results, |p.ops|).grants[g].(revokedBySeq := None)
         == GrantRow(p.ops[j].GrantOf().memberId, p.ops[j].GrantOf().role, p.ops[j].GrantOf().granter,
           results[j].seqNo, None)
  {
    hide Served, TablesAt, RowsGrow, RevokedBetween, InOrder;
    ServedInOrder(db, p, results);
    WalkStarts(db, p, results);
    RowsBetween(db, p, results, 0, |p.ops|);
    var n, grants := |p.ops|, TablesAt(db, p, results, |p.ops|).grants;
    assert GrantedBetween(db.grants, grants, p.ops, results, 0, n, g);
    j :| 0 <= j < n && !results[j].duplicate && p.ops[j].IsGrant() && p.ops[j].GrantOf().grantId == g
         && grants[g].(revokedBySeq := None)
            == GrantRow(p.ops[j].GrantOf().memberId, p.ops[j].GrantOf().role, p.ops[j].GrantOf().granter,
                        results[j].seqNo, None);
  }

  lemma GranterIsAuthor(db: Db, p: Post, results: seq<OpResult>, j: nat)
    requires Served(db, p, results) && NoRootOp(p.ops) && j < |p.ops| && p.ops[j].IsGrant()
    ensures p.ops[j].GrantOf().role != Owner && p.ops[j].GrantOf().granter == Member(p.ops[j].Author())
  {
    hide Served, WalkAt, WalkStep, RequireRole;
    WalkAtStep(db, p, results, j);
    StepAuthority(p, ViewOf(db, p), WalkAt(db, p, results, j), j);
  }

  lemma AuthorOwns(db: Db, p: Post, results: seq<OpResult>, j: nat)
    requires Served(db, p, results) && NoRootOp(p.ops) && j < |p.ops| && p.ops[j].IsControl()
    requires AllKnown(db.grants, OpsOf(db.ops)) && NoReuse(db, p)
    ensures p.ops[j].Author() in LiveOwners(db.grants).Values
  {
    hide Served, TablesAt, WalkAt, WalkStep, AllKnown, RequireRole, LiveOwners, NoReuse;
    var w := WalkAt(db, p, results, j);
    ClassOf(db, p, results, j);
    hide Classed;
    WalkAtStep(db, p, results, j);
    StepAuthority(p, ViewOf(db, p), w, j);
    RequireRoleExactly(w.grants, p.caller.memberId, OP_CLASS_CONTROL);
    OwnersUntouched(db, p, results, j);
    var o :| o in w.grants && !w.grants[o].revoked && w.grants[o].memberId == p.caller.memberId
             && w.grants[o].role in RoleOpClassMatrix(OP_CLASS_CONTROL);
    assert IsLive(w.grants, o);
    assert LiveOwners(db.grants)[o] == p.caller.memberId;
  }

  // --- Signatures ---

  /** The certificate verifies under Root's key, or under the author's own when the author is whom it names. */
  ghost predicate IsSigned(p: Post, rootPk: Bytes, op: Op, domain: Bytes, authority: Authority)
    requires op.IsDecodedControl()
  {
    var payload := op.body.control.value;
    || (authority == Root && p.site.verify(domain + payload.certBytes, payload.signature, rootPk))
    || (authority == Member(op.Author())
      && p.site.verify(domain + payload.certBytes, payload.signature, p.caller.signPk))
  }

  lemma StepSigned(p: Post, v: View, w: Walk, i: nat)
    requires i < |p.ops| == |v.logs| && WalkStep(p, v, w, i).Success?
    ensures p.ops[i].IsGrant() ==> IsSigned(p, v.rootPk, p.ops[i], SIGNING_DOMAIN_GRANT_V1, p.ops[i].GrantOf().granter)
    ensures p.ops[i].IsRevoke()
            ==> IsSigned(p, v.rootPk, p.ops[i], SIGNING_DOMAIN_REVOKE_V1, p.ops[i].RevokeOf().revoker)
  {
    hide RequireRole, RequireFreshKeyEpoch, VerifyPrune, VerifyGenesis, VerifyMemberRegister, VerifyRotate,
      GranteeKind;
  }

  /** Every Grant row a POST adds stands on a signature of the granter it names, Root or its own author. */
  lemma NewGrantsAreSigned(db: Db, p: Post, results: seq<OpResult>, g: Uuid) returns (j: nat)
    requires Served(db, p, results)
    requires g in TablesAt(db, p, results, |p.ops|).grants && g !in db.grants
    ensures j < |p.ops| && p.ops[j].IsGrant() && p.ops[j].GrantOf().grantId == g
    ensures IsSigned(p, RootPkOf(db.escrows, p.caller.userId), p.ops[j], SIGNING_DOMAIN_GRANT_V1,
                     TablesAt(db, p, results, |p.ops|).grants[g].granter)
  {
    hide Served, TablesAt, WalkAt, WalkStep, IsSigned;
    j := MintingOp(db, p, results, g);
    WalkAtStep(db, p, results, j);
    StepSigned(p, ViewOf(db, p), WalkAt(db, p, results, j), j);
  }

  /** A repeat that carries a Grant of the same id for a lesser role. */
  ghost predicate Demotes(db: Db, p: Post, i: nat, g: Uuid)
    requires i < |p.ops|
  {
    IsRepeat(db, p, i) && p.ops[i].IsGrant() && p.ops[i].GrantOf().grantId == g && p.ops[i].GrantOf().role != Owner
  }

  /**
   Every boundary a POST stamps stands on a signature of the revoker it names, and for an owner Grant on Root's,
   unless a repeat earlier in the batch carries that Grant id for a lesser role.
   */
  lemma NewBoundariesAreSigned(db: Db, p: Post, results: seq<OpResult>, g: Uuid) returns (j: nat)
    requires Served(db, p, results) && g in db.grants && db.grants[g].revokedBySeq.None?
    requires g in TablesAt(db, p, results, |p.ops|).grants
    requires TablesAt(db, p, results, |p.ops|).grants[g].revokedBySeq.Some?
    ensures j < |p.ops| && p.ops[j].IsRevoke() && p.ops[j].RevokeOf().grantId == g
    ensures IsSigned(p, RootPkOf(db.escrows, p.caller.userId), p.ops[j], SIGNING_DOMAIN_REVOKE_V1,
            p.ops[j].RevokeOf().revoker)
    ensures db.grants[g].role == Owner && !p.ops[j].IsRootSigned() ==> exists i | 0 <= i < j :: Demotes(db, p, i, g)
  {
    hide Served, TablesAt, WalkAt, WalkStep, IsSigned, GrantedBetween, RowsGrow, Demotes;
    ServedInOrder(db, p, results);
    hide InOrder;
    WalkStarts(db, p, results);
    RowsBetween(db, p, results, 0, |p.ops|);
    var n, grants := |p.ops|, TablesAt(db, p, results, |p.ops|).grants;
    assert RevokedBetween(db.grants, grants, p.ops, results, 0, n, g);
    j :| 0 <= j < n && !results[j].duplicate && p.ops[j].IsRevoke() && p.ops[j].RevokeOf().grantId == g
         && grants[g].revokedBySeq == Some(results[j].seqNo);
    WalkAtStep(db, p, results, j);
    StepSigned(p, ViewOf(db, p), WalkAt(db, p, results, j), j);
    if db.grants[g].role == Owner && !p.ops[j].IsRootSigned() {
      StepAuthority(p, ViewOf(db, p), WalkAt(db, p, results, j), j);
      OwnerStaysOwner(db, p, results, j, g);
    }
  }

  /** Only such a repeat makes the index forget that a Grant is an owner's. */
  lemma {:induction false} OwnerStaysOwner(db: Db, p: Post, results: seq<OpResult>, n: nat, g: Uuid)
    requires Served(db, p, results) && g in db.grants && db.grants[g].role == Owner && n <= |p.ops|
    ensures g in WalkAt(db, p, results, n).grants
    ensures WalkAt(db, p, results, n).grants[g].role == Owner || exists i | 0 <= i < n :: Demotes(db, p, i, g)
  {
    hide Served, TablesAt, WalkAt, WalkStep, EffectStep, IsRepeat;
    if n == 0 {
      WalkStarts(db, p, results);
    } else {
      var i := n - 1;
      OwnerStaysOwner(db, p, results, i, g);
      ClassOf(db, p, results, i);
      WalkAtStep(db, p, results, i);
      StepGrants(p, ViewOf(db, p), WalkAt(db, p, results, i), i);
      TablesAtStep(db, p, results, i);
      EffectGrants(TablesAt(db, p, results, i), p.ops[i], results[i]);
      GrantsKept(db, p, results, i, g);
      if WalkAt(db, p, results, i).grants[g].role == Owner != WalkAt(db, p, results, n).grants[g].role {
        assert Demotes(db, p, i, g);
      }
    }
  }

  lemma GrantsKept(db: Db, p: Post, results: seq<OpResult>, n: nat, g: Uuid)
    requires Served(db, p, results) && n <= |p.ops| && g in db.grants
    ensures g in TablesAt(db, p, results, n).grants
  {
    hide Served, TablesAt, GrantedBetween, RevokedBetween;
    WalkStarts(db, p, results);
    RowsBetween(db, p, results, 0, n);
  }
}
