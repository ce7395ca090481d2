/** What the walk, the plan and the materialisation have in common, indexed by batch position. */
module OpLogFacts {
  import opened Wrappers
  import opened ByteStrings
  import opened Envelope
  import opened Payloads
  import opened OpLog

  // --- Admissions are a function of the ops ---

  /** The effect of an admitted control op; it depends on the op alone. */
  function EffectOf(op: Op): Option<ControlEffect> {
    if !op.IsDecodedControl() then None
    else
      var payload := op.body.control.value;
      match payload.controlType
      case Rotate => if payload.rotate.Some? then Some(Rotated(payload.rotate.value)) else None
      case Unserved(_) => None
      case _ =>
        if op.body.certificate.Failure? then None
        else match (payload.controlType, op.body.certificate.value)
          case (WorkspaceGenesis, Founds(c)) => Some(Founded(c.AsRegistration()))
          case (MemberRegister, Registers(c)) => Some(Registered(c))
          case (Grant, Grants(c)) => Some(Granted(c))
          case (Revoke, Revokes(c)) => Some(Revoked(c))
          case _ => None
  }

  function ControlOf(op: Op, i: nat): seq<ControlAdmission> {
    match EffectOf(op)
    case Some(effect) => [ControlAdmission(i, effect)]
    case None => []
  }

  function PruneOf(op: Op, replayed: set<Uuid>, i: nat): seq<PruneAdmission> {
    if op.IsDecodedPrune() then [PruneAdmission(i, op.TargetsOf(), op.header.opId in replayed)] else []
  }

  function ControlAdmissions(ops: seq<Op>, n: nat): (admissions: seq<ControlAdmission>)
    requires n <= |ops|
    ensures IndexesWithin(admissions, n)
  {
    if n == 0 then [] else ControlAdmissions(ops, n - 1) + ControlOf(ops[n - 1], n - 1)
  }

  function PruneAdmissions(ops: seq<Op>, replayed: set<Uuid>, n: nat): (admissions: seq<PruneAdmission>)
    requires n <= |ops|
    ensures forall a | a in admissions :: a.index < n
  {
    if n == 0 then [] else PruneAdmissions(ops, replayed, n - 1) + PruneOf(ops[n - 1], replayed, n - 1)
  }

  lemma StepAdmits(p: Post, v: View, w: Walk, i: nat)
    requires i < |p.ops| == |v.logs|
    requires WalkStep(p, v, w, i).Success?
    ensures var w' := WalkStep(p, v, w, i).value;
            && w'.control == w.control + ControlOf(p.ops[i], i)
            && w'.prunes == w.prunes + PruneOf(p.ops[i], v.replayed, i)
    ensures p.ops[i].IsControl() ==> EffectOf(p.ops[i]).Some?
    ensures p.ops[i].IsPrune() ==> p.ops[i].IsDecodedPrune()
  {
    hide ControlStep, RequireRole, RequireFreshKeyEpoch;
    assert w.control + [] == w.control && w.prunes + [] == w.prunes;
    if p.ops[i].IsControl() {
      ControlStepAdmits(p, v, w, i);
    }
  }

  lemma ControlStepAdmits(p: Post, v: View, w: Walk, i: nat)
    requires i < |p.ops| && p.ops[i].IsControl()
    requires ControlStep(p, v, w, i).Success?
    ensures EffectOf(p.ops[i]).Some?
    ensures var w' := ControlStep(p, v, w, i).value;
            w'.control == w.control + [ControlAdmission(i, EffectOf(p.ops[i]).value)] && w'.prunes == w.prunes
  {
    hide RequireRole, MemberControlStep, AuthorityPublicKey;
    if p.ops[i].body.control.value.controlType != WorkspaceGenesis {
      MemberStepAdmits(p, v, w, i);
    }
  }

  lemma MemberStepAdmits(p: Post, v: View, w: Walk, i: nat)
    requires i < |p.ops| && p.ops[i].IsDecodedControl()
    requires MemberControlStep(p, v, w, i).Success?
    ensures EffectOf(p.ops[i]).Some?
    ensures var w' := MemberControlStep(p, v, w, i).value;
            w'.control == w.control + [ControlAdmission(i, EffectOf(p.ops[i]).value)] && w'.prunes == w.prunes
  {
    hide AuthorityPublicKey;
  }

  /** A walk that got past op n - 1 did so in one step. */
  lemma WalkLast(p: Post, v: View, n: nat)
    requires 0 < n <= |p.ops| == |v.logs|
    requires WalkUpTo(p, v, n).Success?
    ensures WalkUpTo(p, v, n - 1).Success?
    ensures WalkStep(p, v, WalkUpTo(p, v, n - 1).value, n - 1) == Success(WalkUpTo(p, v, n).value)
  {
    hide WalkStep;
  }

  lemma {:induction false} WalkAdmits(p: Post, v: View, n: nat)
    requires n <= |p.ops| == |v.logs|
    requires WalkUpTo(p, v, n).Success?
    ensures WalkUpTo(p, v, n).value.control == ControlAdmissions(p.ops, n)
    ensures WalkUpTo(p, v, n).value.prunes == PruneAdmissions(p.ops, v.replayed, n)
  {
    hide WalkStep, ControlOf, PruneOf;
    if n > 0 {
      WalkLast(p, v, n);
      WalkAdmits(p, v, n - 1);
      StepAdmits(p, v, WalkUpTo(p, v, n - 1).value, n - 1);
    }
  }

  /** The walk lets through only control and prune ops it can act on. */
  lemma {:induction false} WalkAdmitsOp(p: Post, v: View, n: nat, i: nat)
    requires i < n <= |p.ops| == |v.logs|
    requires WalkUpTo(p, v, n).Success?
    ensures p.ops[i].IsControl() ==> EffectOf(p.ops[i]).Some?
    ensures p.ops[i].IsPrune() ==> p.ops[i].IsDecodedPrune()
  {
    hide WalkStep, EffectOf;
    WalkLast(p, v, n);
    if i < n - 1 {
      WalkAdmitsOp(p, v, n - 1, i);
    } else {
      StepAdmits(p, v, WalkUpTo(p, v, i).value, i);
    }
  }

  // --- Materialising, one batch position at a time ---

  function EffectStep(t: Tables, op: Op, r: OpResult): Result<Tables, Code> {
    match EffectOf(op)
    case Some(effect) => MaterialiseStep(t, effect, r)
    case None => Success(t)
  }

  /** The tables after the first `n` ops of a batch took effect. */
  function TablesAfter(t: Tables, ops: seq<Op>, results: seq<OpResult>, n: nat): Result<Tables, Code>
    requires n <= |ops| == |results|
  {
    if n == 0 then Success(t)
    else
      var t' :- TablesAfter(t, ops, results, n - 1);
      EffectStep(t', ops[n - 1], results[n - 1])
  }

  lemma {:induction false} MaterialisePrefix(
    t: Tables, admissions: seq<ControlAdmission>, more: seq<ControlAdmission>, results: seq<OpResult>, n: nat)
    requires n <= |admissions|
    requires IndexesWithin(admissions, |results|) && IndexesWithin(admissions + more, |results|)
    ensures MaterialiseUpTo(t, admissions + more, results, n) == MaterialiseUpTo(t, admissions, results, n)
  {
    if n > 0 {
      MaterialisePrefix(t, admissions, more, results, n - 1);
    }
  }

  lemma {:induction false} MaterialiseByPosition(t: Tables, ops: seq<Op>, results: seq<OpResult>, n: nat)
    requires n <= |ops| == |results|
    ensures MaterialiseUpTo(t, ControlAdmissions(ops, n), results, |ControlAdmissions(ops, n)|)
         == TablesAfter(t, ops, results, n)
  {
    hide MaterialiseStep, EffectOf, EffectStep, ControlOf;
    if n > 0 {
      MaterialiseByPosition(t, ops, results, n - 1);
      var earlier := ControlAdmissions(ops, n - 1);
      var last := ControlOf(ops[n - 1], n - 1);
      assert ControlAdmissions(ops, n) == earlier + last;
      MaterialisePrefix(t, earlier, last, results, |earlier|);
      EffectStepIsStep(ops[n - 1], n - 1);
      if last == [] {
        assert earlier + last == earlier;
      }
    }
  }

  lemma EffectStepIsStep(op: Op, i: nat)
    ensures forall t, r :: EffectStep(t, op, r)
                        == if ControlOf(op, i) == [] then Success(t)
                           else MaterialiseStep(t, ControlOf(op, i)[0].effect, r)
    ensures |ControlOf(op, i)| <= 1 && forall a | a in ControlOf(op, i) :: a.index == i
  {
    hide EffectOf, MaterialiseStep;
  }

  lemma {:induction false} TablesPrefix(t: Tables, ops: seq<Op>, results: seq<OpResult>, n: nat, m: nat)
    requires n <= m <= |ops| == |results|
    requires TablesAfter(t, ops, results, m).Success?
    ensures TablesAfter(t, ops, results, n).Success?
    decreases m
  {
    if n < m {
      TablesPrefix(t, ops, results, n, m - 1);
    }
  }

  function PruneStep(rows: seq<OpRow>, op: Op, r: OpResult, i: nat): Result<seq<OpRow>, Refusal> {
    if op.IsDecodedPrune() then StampStep(rows, PruneAdmission(i, op.TargetsOf(), false), r) else Success(rows)
  }

  /** The op table after the prunes among the first `n` ops of a batch stamped their targets. */
  function StampsAfter(rows: seq<OpRow>, ops: seq<Op>, results: seq<OpResult>, n: nat): Result<seq<OpRow>, Refusal>
    requires n <= |ops| == |results|
  {
    if n == 0 then Success(rows)
    else
      var rows' :- StampsAfter(rows, ops, results, n - 1);
      PruneStep(rows', ops[n - 1], results[n - 1], n - 1)
  }

  lemma {:induction false} StampPrefix(
    rows: seq<OpRow>, prunes: seq<PruneAdmission>, more: seq<PruneAdmission>, results: seq<OpResult>, n: nat)
    requires n <= |prunes|
    requires forall a | a in prunes :: a.index < |results|
    requires forall a | a in prunes + more :: a.index < |results|
    ensures StampUpTo(rows, prunes + more, results, n) == StampUpTo(rows, prunes, results, n)
  {
    if n > 0 {
      StampPrefix(rows, prunes, more, results, n - 1);
    }
  }

  /** Materialisation goes by the result's duplicate flag, never by the walk's replay flag. */
  lemma ReplayFlagIsIgnored(rows: seq<OpRow>, a: PruneAdmission, r: OpResult)
    ensures StampStep(rows, a, r) == StampStep(rows, a.(isReplay := false), r)
  {
  }

  /** Stamping for one more prune. */
  lemma StampSnoc(rows: seq<OpRow>, prunes: seq<PruneAdmission>, a: PruneAdmission, results: seq<OpResult>)
    requires forall b | b in prunes :: b.index < |results|
    requires forall b | b in prunes + [a] :: b.index < |results|
    ensures a in prunes + [a]
    ensures StampUpTo(rows, prunes + [a], results, |prunes| + 1)
         == match StampUpTo(rows, prunes, results, |prunes|)
            case Success(rows') => StampStep(rows', a, results[a.index])
            case Failure(refusal) => Failure(refusal)
  {
    hide StampStep;
    assert (prunes + [a])[|prunes|] == a;
    StampPrefix(rows, prunes, [a], results, |prunes|);
  }

  lemma {:induction false} StampByPosition(
    rows: seq<OpRow>, ops: seq<Op>, replayed: set<Uuid>, results: seq<OpResult>, n: nat)
    requires n <= |ops| == |results|
    ensures var prunes := PruneAdmissions(ops, replayed, n);
            StampUpTo(rows, prunes, results, |prunes|) == StampsAfter(rows, ops, results, n)
  {
    hide StampStep, StampUpTo;
    if n == 0 {
      NothingStamped(rows, results);
    } else {
      StampByPosition(rows, ops, replayed, results, n - 1);
      var earlier := PruneAdmissions(ops, replayed, n - 1);
      if ops[n - 1].IsDecodedPrune() {
        var a := PruneAdmission(n - 1, ops[n - 1].TargetsOf(), ops[n - 1].header.opId in replayed);
        assert PruneAdmissions(ops, replayed, n) == earlier + [a];
        StampSnoc(rows, earlier, a, results);
        if StampsAfter(rows, ops, results, n - 1).Success? {
          ReplayFlagIsIgnored(StampsAfter(rows, ops, results, n - 1).value, a, results[n - 1]);
        }
      } else {
        assert PruneAdmissions(ops, replayed, n) == earlier;
      }
    }
  }

  lemma NothingStamped(rows: seq<OpRow>, results: seq<OpResult>)
    ensures StampUpTo(rows, [], results, 0) == Success(rows)
  {
  }

  /** Stamping touches nothing but `compacted_by`. */
  ghost predicate SameRows(a: seq<OpRow>, b: seq<OpRow>) {
    |a| == |b| && forall i | 0 <= i < |a| :: a[i].seqNo == b[i].seqNo && a[i].op == b[i].op
  }

  lemma {:induction false} StampsKeepRows(rows: seq<OpRow>, ops: seq<Op>, results: seq<OpResult>, n: nat)
    requires n <= |ops| == |results|
    requires StampsAfter(rows, ops, results, n).Success?
    ensures SameRows(rows, StampsAfter(rows, ops, results, n).value)
  {
    if n > 0 {
      StampsKeepRows(rows, ops, results, n - 1);
    }
  }

  // --- What a plan says ---

  /** The staged ops: which batch index each has, in batch order, none of them stored and no two alike. */
  ghost predicate FreshFacts(existing: map<Key, nat>, ops: seq<Op>, plan: Plan) {
    && (forall k | 0 <= k < |plan.freshAt| ::
          plan.freshAt[k] < |plan.entries| && plan.freshAt[k] < |ops| && ops[plan.freshAt[k]].Key() !in existing)
    && (forall k, l | 0 <= k < l < |plan.freshAt| ::
          plan.freshAt[k] < plan.freshAt[l] && ops[plan.freshAt[k]].Key() != ops[plan.freshAt[l]].Key())
  }

  ghost predicate StagedFacts(ops: seq<Op>, plan: Plan) {
    && (forall key | key in plan.staged ::
          && plan.staged[key] < |plan.freshAt| && plan.freshAt[plan.staged[key]] < |ops|
          && ops[plan.freshAt[plan.staged[key]]].Key() == key)
    && (forall k | 0 <= k < |plan.freshAt| && plan.freshAt[k] < |ops| :: ops[plan.freshAt[k]].Key() in plan.staged)
  }

  /** An entry points at a row already stored, or at a staged op whose first occurrence is here or before. */
  ghost predicate EntryFacts(existing: map<Key, nat>, op: Op, e: Entry, freshAt: seq<nat>, ops: seq<Op>, i: nat) {
    && e.opId == op.header.opId
    && match e.source
       case Stored(s) => e.duplicate && op.Key() in existing && existing[op.Key()] == s
       case Staged(k) =>
         && k < |freshAt| && freshAt[k] <= i && freshAt[k] < |ops|
         && ops[freshAt[k]].Key() == op.Key()
         && (!e.duplicate <==> freshAt[k] == i)
  }

  ghost predicate EntriesFacts(existing: map<Key, nat>, ops: seq<Op>, plan: Plan) {
    && |plan.entries| <= |ops|
    && (forall i | 0 <= i < |plan.entries| :: EntryFacts(existing, ops[i], plan.entries[i], plan.freshAt, ops, i))
    && (forall k | 0 <= k < |plan.freshAt| && plan.freshAt[k] < |plan.entries| ::
          plan.entries[plan.freshAt[k]].source == Staged(k) && !plan.entries[plan.freshAt[k]].duplicate)
  }

  ghost predicate PlanFacts(existing: map<Key, nat>, ops: seq<Op>, plan: Plan) {
    FreshFacts(existing, ops, plan) && StagedFacts(ops, plan) && EntriesFacts(existing, ops, plan)
  }

  lemma PlanLast(existing: map<Key, nat>, heads: map<Uuid, nat>, ops: seq<Op>, n: nat)
    requires 0 < n <= |ops|
    requires PlanUpTo(existing, heads, ops, n).Success?
    ensures PlanUpTo(existing, heads, ops, n - 1).Success?
    ensures PlanStep(existing, PlanUpTo(existing, heads, ops, n - 1).value, ops[n - 1], n - 1)
         == Success(PlanUpTo(existing, heads, ops, n).value)
  {
    hide PlanStep;
  }

  lemma {:induction false} PlanHolds(existing: map<Key, nat>, heads: map<Uuid, nat>, ops: seq<Op>, n: nat)
    requires n <= |ops|
    requires PlanUpTo(existing, heads, ops, n).Success?
    ensures PlanFacts(existing, ops, PlanUpTo(existing, heads, ops, n).value)
    ensures |PlanUpTo(existing, heads, ops, n).value.entries| == n
  {
    hide PlanStep, FreshFacts, StagedFacts, EntriesFacts, Repeats, Stages;
    if n > 0 {
      PlanLast(existing, heads, ops, n);
      PlanHolds(existing, heads, ops, n - 1);
      var plan, plan' := PlanUpTo(existing, heads, ops, n - 1).value, PlanUpTo(existing, heads, ops, n).value;
      PlanStepKinds(existing, ops, plan, plan');
      if source :| Repeats(existing, ops, plan, plan', source) {
        RepeatFresh(existing, ops, plan, plan', source);
        FreshAreEntries(existing, ops, plan);
        RepeatEntries(existing, ops, plan, plan', source);
      } else {
        StageFresh(existing, ops, plan, plan');
        StageStaged(existing, ops, plan, plan');
        StageEntries(existing, ops, plan, plan');
      }
    } else {
      NothingPlanned(existing, heads, ops);
    }
  }

  lemma NothingPlanned(existing: map<Key, nat>, heads: map<Uuid, nat>, ops: seq<Op>)
    ensures PlanFacts(existing, ops, Plan([], map[], [], heads))
  {
  }

  lemma FreshAreEntries(existing: map<Key, nat>, ops: seq<Op>, plan: Plan)
    requires FreshFacts(existing, ops, plan)
    ensures forall k | 0 <= k < |plan.freshAt| :: plan.freshAt[k] < |plan.entries|
  {
  }

  lemma PlanStepKinds(existing: map<Key, nat>, ops: seq<Op>, plan: Plan, plan': Plan)
    requires |plan.entries| < |ops|
    requires PlanStep(existing, plan, ops[|plan.entries|], |plan.entries|) == Success(plan')
    ensures |plan'.entries| == |plan.entries| + 1
    ensures (exists source :: Repeats(existing, ops, plan, plan', source)) || Stages(existing, ops, plan, plan')
  {
    var key := ops[|plan.entries|].Key();
    if key in existing {
      assert Repeats(existing, ops, plan, plan', Stored(existing[key]));
    } else if key in plan.staged {
      assert Repeats(existing, ops, plan, plan', Staged(plan.staged[key]));
    }
  }

  /** `plan'` answers the next op from what is stored or already staged. */
  ghost predicate Repeats(existing: map<Key, nat>, ops: seq<Op>, plan: Plan, plan': Plan, source: Source) {
    var i := |plan.entries|;
    && i < |ops|
    && plan'.entries == plan.entries + [Entry(ops[i].header.opId, source, true)]
    && plan'.staged == plan.staged && plan'.freshAt == plan.freshAt
    && match source
       case Stored(s) => ops[i].Key() in existing && existing[ops[i].Key()] == s
       case Staged(k) => ops[i].Key() in plan.staged && plan.staged[ops[i].Key()] == k
  }

  lemma RepeatFresh(existing: map<Key, nat>, ops: seq<Op>, plan: Plan, plan': Plan, source: Source)
    requires Repeats(existing, ops, plan, plan', source)
    requires FreshFacts(existing, ops, plan) && StagedFacts(ops, plan)
    ensures FreshFacts(existing, ops, plan') && StagedFacts(ops, plan')
    ensures EntryFacts(existing, ops[|plan.entries|], plan'.entries[|plan.entries|], plan'.freshAt, ops, |plan.entries|)
  {
  }

  lemma RepeatEntries(existing: map<Key, nat>, ops: seq<Op>, plan: Plan, plan': Plan, source: Source)
    requires Repeats(existing, ops, plan, plan', source) && EntriesFacts(existing, ops, plan)
    requires forall k | 0 <= k < |plan.freshAt| :: plan.freshAt[k] < |plan.entries|
    requires EntryFacts(existing, ops[|plan.entries|], plan'.entries[|plan.entries|], plan'.freshAt, ops,
             |plan.entries|)
    ensures EntriesFacts(existing, ops, plan')
  {
  }

  /** `plan'` stages `op` behind `plan`. */
  ghost predicate Stages(existing: map<Key, nat>, ops: seq<Op>, plan: Plan, plan': Plan) {
    var i, k := |plan.entries|, |plan.freshAt|;
    && i < |ops|
    && ops[i].Key() !in existing && ops[i].Key() !in plan.staged
    && plan'.entries == plan.entries + [Entry(ops[i].header.opId, Staged(k), false)]
    && plan'.staged == plan.staged[ops[i].Key() := k]
    && plan'.freshAt == plan.freshAt + [i]
  }

  lemma StageFresh(existing: map<Key, nat>, ops: seq<Op>, plan: Plan, plan': Plan)
    requires Stages(existing, ops, plan, plan')
    requires FreshFacts(existing, ops, plan) && StagedFacts(ops, plan)
    ensures FreshFacts(existing, ops, plan')
  {
  }

  lemma StageStaged(existing: map<Key, nat>, ops: seq<Op>, plan: Plan, plan': Plan)
    requires Stages(existing, ops, plan, plan') && StagedFacts(ops, plan)
    ensures StagedFacts(ops, plan')
  {
  }

  lemma StageEntries(existing: map<Key, nat>, ops: seq<Op>, plan: Plan, plan': Plan)
    requires Stages(existing, ops, plan, plan')
    requires FreshFacts(existing, ops, plan) && EntriesFacts(existing, ops, plan)
    ensures EntriesFacts(existing, ops, plan')
  {
    forall j | 0 <= j < |plan.entries|
      ensures EntryFacts(existing, ops[j], plan'.entries[j], plan'.freshAt, ops, j)
    {
      assert EntryFacts(existing, ops[j], plan.entries[j], plan.freshAt, ops, j);
    }
  }

  // --- Author positions ---

  /** How many of `ops` one author wrote. */
  function Positions(ops: seq<Op>, author: Uuid): nat {
    if ops == [] then 0
    else Positions(ops[..|ops| - 1], author) + if ops[|ops| - 1].Author() == author then 1 else 0
  }

  /** The ops of each author carry positions 1, 2, 3, ... in table order. */
  ghost predicate Chained(ops: seq<Op>) {
    forall i | 0 <= i < |ops| :: ops[i].header.authorSeq == Positions(ops[..i], ops[i].Author()) + 1
  }

  function OpsOf(rows: seq<OpRow>): (ops: seq<Op>)
    ensures |ops| == |rows|
  {
    seq(|rows|, i requires 0 <= i < |rows| => rows[i].op)
  }

  lemma {:induction false} PositionsGrow(ops: seq<Op>, author: Uuid, i: nat, j: nat)
    requires i <= j <= |ops|
    ensures Positions(ops[..i], author) <= Positions(ops[..j], author)
    decreases j
  {
    if i < j {
      PositionsGrow(ops, author, i, j - 1);
      assert ops[..j][..j - 1] == ops[..j - 1];
    }
  }

  /** Every position up to an author's count is filled, by exactly one op. */
  lemma {:induction false} PositionFilled(ops: seq<Op>, author: Uuid, q: nat)
    requires Chained(ops) && 1 <= q <= Positions(ops, author)
    ensures exists i | 0 <= i < |ops| :: ops[i].Author() == author && ops[i].header.authorSeq == q
  {
    var n := |ops| - 1;
    var front := ops[..n];
    if ops[n].Author() == author && q == Positions(front, author) + 1 {
      assert ops[n].header.authorSeq == q;
    } else {
      assert Chained(front) by {
        forall i | 0 <= i < n
          ensures front[i].header.authorSeq == Positions(front[..i], front[i].Author()) + 1
        {
          assert front[..i] == ops[..i];
        }
      }
      PositionFilled(front, author, q);
      var i :| 0 <= i < n && front[i].Author() == author && front[i].header.authorSeq == q;
      assert ops[i] == front[i];
    }
  }

  lemma PositionBounds(ops: seq<Op>, i: nat)
    requires Chained(ops) && i < |ops|
    ensures 1 <= ops[i].header.authorSeq <= Positions(ops, ops[i].Author())
  {
    hide Positions;
    PositionCounts(ops, i);
    PositionsGrow(ops, ops[i].Author(), i + 1, |ops|);
    assert ops[..|ops|] == ops;
  }

  lemma PositionCounts(ops: seq<Op>, i: nat)
    requires i < |ops|
    ensures Positions(ops[..i + 1], ops[i].Author()) == Positions(ops[..i], ops[i].Author()) + 1
  {
    assert ops[..i + 1][..i] == ops[..i];
  }

  /** One author's positions increase with the table order, so none repeats. */
  lemma PositionsIncrease(ops: seq<Op>, i: nat, j: nat)
    requires Chained(ops) && i < j < |ops| && ops[i].Author() == ops[j].Author()
    ensures ops[i].header.authorSeq < ops[j].header.authorSeq
  {
    hide Positions;
    PositionsGrow(ops, ops[i].Author(), i + 1, j);
    PositionCounts(ops, i);
  }

  /** `MAX(author_seq)` is the author's op count. */
  lemma {:induction false} HeadIsCount(rows: seq<OpRow>, authors: set<Uuid>, author: Uuid)
    requires Chained(OpsOf(rows)) && author in authors
    ensures HeadOf(Heads(rows, authors), author) == Positions(OpsOf(rows), author)
  {
    if rows != [] {
      var n := |rows| - 1;
      var ops := OpsOf(rows);
      assert OpsOf(rows[..n]) == ops[..n];
      assert Chained(ops[..n]) by {
        forall i | 0 <= i < n
          ensures ops[..n][i].header.authorSeq == Positions(ops[..n][..i], ops[..n][i].Author()) + 1
        {
          assert ops[..n][..i] == ops[..i];
        }
      }
      HeadIsCount(rows[..n], authors, author);
    }
  }

  /** The ops a plan stages, in order. */
  function FreshOps(ops: seq<Op>, freshAt: seq<nat>): (added: seq<Op>)
    requires forall k | 0 <= k < |freshAt| :: freshAt[k] < |ops|
    ensures |added| == |freshAt|
  {
    seq(|freshAt|, k requires 0 <= k < |freshAt| => ops[freshAt[k]])
  }

  /** The staged ops of each author continue its chain from the head the plan started with. */
  ghost predicate Continues(heads: map<Uuid, nat>, added: seq<Op>) {
    forall k | 0 <= k < |added| :: ContinuesAt(heads, added, k)
  }

  ghost predicate ContinuesAt(heads: map<Uuid, nat>, added: seq<Op>, k: nat)
    requires k < |added|
  {
    added[k].header.authorSeq == HeadOf(heads, added[k].Author()) + Positions(added[..k], added[k].Author()) + 1
  }

  ghost predicate FreshWithin(ops: seq<Op>, freshAt: seq<nat>) {
    forall k | 0 <= k < |freshAt| :: freshAt[k] < |ops|
  }

  lemma FreshOpsSnoc(ops: seq<Op>, freshAt: seq<nat>, i: nat)
    requires FreshWithin(ops, freshAt) && i < |ops|
    ensures FreshWithin(ops, freshAt + [i]) && FreshOps(ops, freshAt + [i]) == FreshOps(ops, freshAt) + [ops[i]]
  {
  }

  lemma PositionsSnoc(ops: seq<Op>, op: Op, author: Uuid)
    ensures Positions(ops + [op], author) == Positions(ops, author) + if op.Author() == author then 1 else 0
  {
    assert (ops + [op])[..|ops|] == ops;
  }

  /** An op is staged at the slot behind its author's head, or not at all. */
  lemma StepStages(existing: map<Key, nat>, plan: Plan, op: Op, i: nat)
    requires PlanStep(existing, plan, op, i).Success?
    ensures var plan' := PlanStep(existing, plan, op, i).value;
            || (plan'.freshAt == plan.freshAt && plan'.heads == plan.heads)
            || (&& plan'.freshAt == plan.freshAt + [i]
                && op.header.authorSeq == HeadOf(plan.heads, op.Author()) + 1
                && forall author :: HeadOf(plan'.heads, author)
                                 == if author == op.Author() then op.header.authorSeq else HeadOf(plan.heads, author))
  {
  }

  lemma {:induction false} PlanHeads(existing: map<Key, nat>, heads: map<Uuid, nat>, ops: seq<Op>, n: nat, author: Uuid)
    requires n <= |ops|
    requires PlanUpTo(existing, heads, ops, n).Success?
    ensures var plan := PlanUpTo(existing, heads, ops, n).value;
            && FreshWithin(ops, plan.freshAt)
            && HeadOf(plan.heads, author) == HeadOf(heads, author) + Positions(FreshOps(ops, plan.freshAt), author)
  {
    hide PlanStep, HeadOf;
    if n > 0 {
      hide FreshOps, Positions, PlanUpTo;
      PlanLast(existing, heads, ops, n);
      PlanHeads(existing, heads, ops, n - 1, author);
      var before, after := PlanUpTo(existing, heads, ops, n - 1).value, PlanUpTo(existing, heads, ops, n).value;
      StepStages(existing, before, ops[n - 1], n - 1);
      if after.freshAt != before.freshAt {
        FreshOpsSnoc(ops, before.freshAt, n - 1);
        PositionsSnoc(FreshOps(ops, before.freshAt), ops[n - 1], author);
      }
    }
  }

  lemma {:induction false} PlanContinues(existing: map<Key, nat>, heads: map<Uuid, nat>, ops: seq<Op>, n: nat)
    requires n <= |ops|
    requires PlanUpTo(existing, heads, ops, n).Success?
    ensures var plan := PlanUpTo(existing, heads, ops, n).value;
            FreshWithin(ops, plan.freshAt) && Continues(heads, FreshOps(ops, plan.freshAt))
  {
    hide PlanStep, HeadOf, Positions;
    if n > 0 {
      hide FreshOps, PlanUpTo, ContinuesAt;
      PlanLast(existing, heads, ops, n);
      PlanContinues(existing, heads, ops, n - 1);
      var before, after := PlanUpTo(existing, heads, ops, n - 1).value, PlanUpTo(existing, heads, ops, n).value;
      StepStages(existing, before, ops[n - 1], n - 1);
      if after.freshAt != before.freshAt {
        PlanHeads(existing, heads, ops, n - 1, ops[n - 1].Author());
        FreshOpsSnoc(ops, before.freshAt, n - 1);
        ContinuesSnoc(heads, FreshOps(ops, before.freshAt), ops[n - 1]);
      }
    }
  }

  lemma ContinuesSnoc(heads: map<Uuid, nat>, added: seq<Op>, op: Op)
    requires Continues(heads, added)
    requires op.header.authorSeq == HeadOf(heads, op.Author()) + Positions(added, op.Author()) + 1
    ensures Continues(heads, added + [op])
  {
    hide HeadOf, Positions;
    var added' := added + [op];
    forall k | 0 <= k < |added'|
      ensures ContinuesAt(heads, added', k)
    {
      if k < |added| {
        assert ContinuesAt(heads, added, k);
        assert added'[..k] == added[..k];
      } else {
        assert added'[..k] == added;
      }
    }
  }
}
