/**
 What an unavailable bundle reports: where it falls short with an old bundle given back, and conflicts that
 cover exactly that, each once, in order, merged, with exact numbers and holders.
 */
module ConflictReports {
  import opened Results
  import opened Intervals
  import opened StepFunctions
  import opened CapacityCurves
  import opened Domain
  import opened OrderedKeys
  import opened TimelineRebuild
  import opened Admission
  import opened Transitions
  import opened ActiveUsage
  import opened EngineInvariants
  import opened BundleAdmissions
  import opened BundleVerdicts
  import opened EngineSteps
  import opened EngineGuarantees
  import opened RevisionOutcomes

  // ---- Where a bundle falls short ----

  /** Slack with the old bundle given back. */
  function FreedSlack(st: EngineState, freed: seq<Claim>, pool: PoolId, t: int): int
    requires pool in st.timelines
  {
    At(0, st.timelines[pool], t) + Usage(ClaimsOn(freed, pool), t)
  }

  /** A claim of the new bundle starts or ends, or freed slack changes under one. */
  ghost predicate Breaks(st: EngineState, freed: seq<Claim>, taken: seq<Claim>, pool: PoolId, u: int)
    requires pool in st.timelines
  {
    || (exists i :: 0 <= i < |taken| && taken[i].poolId == pool
                    && (taken[i].interval.start == u || taken[i].interval.end == u))
    || (Usage(ClaimsOn(taken, pool), u) > 0 && FreedSlack(st, freed, pool, u - 1) != FreedSlack(st, freed, pool, u))
  }

  ghost predicate LastBreakAt(st: EngineState, freed: seq<Claim>, taken: seq<Claim>, pool: PoolId, u: int, t: int)
    requires pool in st.timelines
  {
    u <= t && Breaks(st, freed, taken, pool, u) && forall v :: u < v <= t ==> !Breaks(st, freed, taken, pool, v)
  }

  /**
   The new bundle takes slack below zero or, in a pool the old bundle used, below the lower of zero and the
   slack there was at the last break.
   */
  ghost predicate ShortAt(st: EngineState, freed: seq<Claim>, taken: seq<Claim>, pool: PoolId, t: int)
    requires pool in st.timelines
  {
    && Usage(ClaimsOn(taken, pool), t) > 0
    && exists u :: LastBreakAt(st, freed, taken, pool, u, t)
                   && FreedSlack(st, freed, pool, t) - Usage(ClaimsOn(taken, pool), t)
                      < if pool in PoolsOf(freed) then Min(0, At(0, st.timelines[pool], u)) else 0
  }

  /** Every pool is known, and none falls short at any time. */
  ghost predicate HasRoomFor(st: EngineState, freed: seq<Claim>, taken: seq<Claim>) {
    && PoolsExist(taken, st.pools)
    && forall pool, t :: pool in PoolsOf(taken) && pool in st.timelines ==> !ShortAt(st, freed, taken, pool, t)
  }

  /** What the old bundle's release leaves to evaluate against. */
  ghost predicate Restores(st: EngineState, restored: map<PoolId, seq<SlackPoint>>, freed: seq<Claim>) {
    Adjusts(st, restored, freed, []) && forall pool :: pool in restored <==> pool in PoolsOf(freed)
  }

  lemma BreaksAgree(st: EngineState, taken: seq<Claim>, restored: map<PoolId, seq<SlackPoint>>, freed: seq<Claim>,
                    pool: PoolId, u: int)
    requires Restores(st, restored, freed) && pool in st.timelines
    ensures BreakAt(SweepOn(st, taken, restored, pool), u) <==> Breaks(st, freed, taken, pool, u)
  {
    hide At, Usage, PoolsOf;
    var s := SweepOn(st, taken, restored, pool);
    SweepFacts(st, taken, restored, pool);
    RestoredSlack(st, taken, restored, freed, pool);
    assert s.Slack(u - 1) == FreedSlack(st, freed, pool, u - 1) && s.Slack(u) == FreedSlack(st, freed, pool, u);
    if i :| 0 <= i < |taken| && taken[i].poolId == pool
            && (taken[i].interval.start == u || taken[i].interval.end == u)
    {
      SomeClaimsOn(taken, i);
      var j :| 0 <= j < |s.claims| && s.claims[j] == taken[i];
    }
    if j :| 0 <= j < |s.claims| && (s.claims[j].interval.start == u || s.claims[j].interval.end == u) {
      var claim := s.claims[j];
      assert claim in s.claims;
      var i :| 0 <= i < |taken| && taken[i] == claim;
    }
  }

  /** The sweep refuses exactly what falls short. */
  lemma ShortExactly(st: EngineState, taken: seq<Claim>, restored: map<PoolId, seq<SlackPoint>>, freed: seq<Claim>,
                     pool: PoolId, t: int)
    requires Coherent(st) && ValidBundle(taken) && Restores(st, restored, freed)
    requires pool in st.timelines && pool in PoolsOf(taken)
    ensures Admission.Refused(SweepOn(st, taken, restored, pool), t) <==> ShortAt(st, freed, taken, pool, t)
  {
    hide At, Usage, PoolsOf, Coherent, ClaimsOn, Adjusts, BreakAt, Breaks, Admission.Refused, Sweep.Valid, Sweep.Demand,
         Sweep.Slack, SweepOn, Canonical;
    OverridesSound(st, restored, freed);
    SweepValid(st, taken, restored, pool);
    var s := SweepOn(st, taken, restored, pool);
    RefusedAtBreak(s, t);
    SweepFacts(st, taken, restored, pool);
    RestoredSlack(st, taken, restored, freed, pool);
    forall u
      ensures BreakAt(s, u) <==> Breaks(st, freed, taken, pool, u)
    {
      BreaksAgree(st, taken, restored, freed, pool, u);
    }
    assert forall u :: LastBreak(s, u, t) <==> LastBreakAt(st, freed, taken, pool, u, t);
    assert s.Demand(t) == Usage(ClaimsOn(taken, pool), t) && s.Slack(t) == FreedSlack(st, freed, pool, t);
  }

  // ---- What cannot be evaluated ----

  ghost predicate DemandAbove(taken: seq<Claim>, pool: PoolId, bound: int) {
    exists t :: Usage(ClaimsOn(taken, pool), t) > bound
  }

  ghost predicate ShortInPool(st: EngineState, freed: seq<Claim>, taken: seq<Claim>, pool: PoolId)
    requires pool in st.timelines
  {
    exists t :: ShortAt(st, freed, taken, pool, t)
  }

  /** Why one pool cannot be evaluated: it is unknown, or its demand cannot be summed or subtracted. */
  ghost function PoolFault(st: EngineState, freed: seq<Claim>, taken: seq<Claim>, pool: PoolId): Option<DomainError> {
    if pool !in st.timelines then Some(ResourcePoolNotFound)
    else if DemandAbove(taken, pool, U64_MAX) then Some(QuantityOverflow)
    else if DemandAbove(taken, pool, I64_MAX) && !ShortInPool(st, freed, taken, pool) then Some(IndexOverflow)
    else None
  }

  ghost predicate FaultFree(st: EngineState, freed: seq<Claim>, taken: seq<Claim>) {
    forall pool :: pool in PoolsOf(taken) ==> PoolFault(st, freed, taken, pool).None?
  }

  /** The first pool, in identity order, that cannot be evaluated, for this reason. */
  ghost predicate FirstFault(st: EngineState, freed: seq<Claim>, taken: seq<Claim>, error: DomainError) {
    exists pool :: && pool in PoolsOf(taken) && PoolFault(st, freed, taken, pool) == Some(error)
                   && forall other :: other in PoolsOf(taken) && other < pool ==>
                                        PoolFault(st, freed, taken, other).None?
  }

  lemma PoolVerdict(st: EngineState, taken: seq<Claim>, restored: map<PoolId, seq<SlackPoint>>, freed: seq<Claim>,
                    pool: PoolId)
    requires Coherent(st) && ValidBundle(taken) && Restores(st, restored, freed)
    requires pool in st.timelines && pool in PoolsOf(taken)
    ensures match SweepOn(st, taken, restored, pool).Verdict()
            case Err(error) => PoolFault(st, freed, taken, pool) == Some(error)
            case Ok(Available(_)) => PoolFault(st, freed, taken, pool).None? && !ShortInPool(st, freed, taken, pool)
            case Ok(Unavailable(_)) => PoolFault(st, freed, taken, pool).None? && ShortInPool(st, freed, taken, pool)
  {
    hide At, Usage, PoolsOf, Coherent, ClaimsOn, Adjusts, ShortAt, Admission.Refused, Sweep.Valid, Sweep.Demand,
         SweepOn, Canonical, Sweep.Verdict;
    OverridesSound(st, restored, freed);
    SweepValid(st, taken, restored, pool);
    var s := SweepOn(st, taken, restored, pool);
    VerdictExact(s);
    SweepFacts(st, taken, restored, pool);
    PassesAgree(s, taken, pool, U64_MAX);
    PassesAgree(s, taken, pool, I64_MAX);
    forall t
      ensures Admission.Refused(s, t) <==> ShortAt(st, freed, taken, pool, t)
    {
      ShortExactly(st, taken, restored, freed, pool, t);
    }
  }

  lemma PassesAgree(s: Sweep, taken: seq<Claim>, pool: PoolId, bound: int)
    requires forall t :: s.Demand(t) == Usage(ClaimsOn(taken, pool), t)
    ensures DemandPasses(s, bound) <==> DemandAbove(taken, pool, bound)
  {
    hide Usage, ClaimsOn, Sweep.Demand;
    if t :| Usage(ClaimsOn(taken, pool), t) > bound {
      assert s.Demand(t) > bound;
    }
    if t :| s.Demand(t) > bound {
      assert Usage(ClaimsOn(taken, pool), t) > bound;
    }
  }

  /** The first `k` pools can be evaluated, or the first of them that cannot is the reason. */
  ghost predicate FaultsFound(st: EngineState, freed: seq<Claim>, taken: seq<Claim>, pools: seq<PoolId>, k: nat,
                              evaluated: Result<Evaluated, DomainError>)
    requires k <= |pools|
  {
    match evaluated
    case Ok(_) => forall i :: 0 <= i < k ==> PoolFault(st, freed, taken, pools[i]).None?
    case Err(error) =>
      exists i :: && 0 <= i < k && PoolFault(st, freed, taken, pools[i]) == Some(error)
                  && forall j :: 0 <= j < i ==> PoolFault(st, freed, taken, pools[j]).None?
  }

  lemma NextFault(st: EngineState, taken: seq<Claim>, restored: map<PoolId, seq<SlackPoint>>, freed: seq<Claim>,
                  pool: PoolId, earlier: Evaluated)
    requires Coherent(st) && ValidBundle(taken) && Restores(st, restored, freed) && pool in PoolsOf(taken)
    ensures match NextEvaluated(st, taken, restored, pool, earlier)
            case Ok(_) => PoolFault(st, freed, taken, pool).None?
            case Err(error) => PoolFault(st, freed, taken, pool) == Some(error)
  {
    hide Coherent, PoolsOf, Sweep.Verdict, SweepOn, PoolSweep, ClaimsOn, Adjusts, PoolFault;
    SweepUsed(st, taken, restored, pool);
    if pool in st.timelines {
      PoolVerdict(st, taken, restored, freed, pool);
    } else {
      UnknownFault(st, freed, taken, pool);
    }
  }

  lemma UnknownFault(st: EngineState, freed: seq<Claim>, taken: seq<Claim>, pool: PoolId)
    ensures pool !in st.timelines <==> PoolFault(st, freed, taken, pool) == Some(ResourcePoolNotFound)
  {
  }

  lemma NoneFound(st: EngineState, freed: seq<Claim>, taken: seq<Claim>, pools: seq<PoolId>)
    ensures FaultsFound(st, freed, taken, pools, 0, Ok(Evaluated(map[], [])))
  {
  }

  lemma FoundNext(st: EngineState, freed: seq<Claim>, taken: seq<Claim>, pools: seq<PoolId>, k: nat,
                  earlier: Result<Evaluated, DomainError>, next: Result<Evaluated, DomainError>)
    requires k < |pools| && FaultsFound(st, freed, taken, pools, k, earlier)
    requires earlier.Ok? ==> match next
                             case Ok(_) => PoolFault(st, freed, taken, pools[k]).None?
                             case Err(error) => PoolFault(st, freed, taken, pools[k]) == Some(error)
    ensures FaultsFound(st, freed, taken, pools, k + 1, if earlier.Err? then Err(earlier.error) else next)
  {
    hide PoolFault;
    if earlier.Ok? && next.Err? {
      assert PoolFault(st, freed, taken, pools[k]) == Some(next.error);
    }
  }

  lemma {:induction false} FaultsSoFar(st: EngineState, taken: seq<Claim>, restored: map<PoolId, seq<SlackPoint>>,
                                       freed: seq<Claim>, pools: seq<PoolId>, k: nat)
    requires Coherent(st) && ValidBundle(taken) && Restores(st, restored, freed) && k <= |pools|
    requires forall pool :: pool in pools ==> pool in PoolsOf(taken)
    ensures FaultsFound(st, freed, taken, pools, k, EvaluatedUpTo(st, taken, restored, pools, k))
  {
    hide *;
    if k == 0 {
      NothingEvaluated(st, taken, restored, pools);
      NoneFound(st, freed, taken, pools);
    } else {
      EvaluatedLast(st, taken, restored, pools, k);
      FaultsSoFar(st, taken, restored, freed, pools, k - 1);
      var pool := pools[k - 1];
      assert pool in pools;
      var earlier := EvaluatedUpTo(st, taken, restored, pools, k - 1);
      if earlier.Ok? {
        NextFault(st, taken, restored, freed, pool, earlier.value);
        FoundNext(st, freed, taken, pools, k - 1, earlier, NextEvaluated(st, taken, restored, pool, earlier.value));
      } else {
        FoundNext(st, freed, taken, pools, k - 1, earlier, earlier);
      }
    }
  }

  lemma EarlierPool(pools: seq<PoolId>, i: nat, j: nat)
    requires StrictlyIncreasing(pools) && i < |pools| && j < |pools|
    ensures pools[j] < pools[i] ==> j < i
  {
  }

  /** Evaluation fails exactly with the first fault. */
  lemma FaultsDecide(st: EngineState, taken: seq<Claim>, restored: map<PoolId, seq<SlackPoint>>, freed: seq<Claim>)
    requires Coherent(st) && ValidBundle(taken) && Restores(st, restored, freed)
    ensures match EvaluateBundle(st, taken, restored)
            case Ok(_) => FaultFree(st, freed, taken)
            case Err(error) => FirstFault(st, freed, taken, error)
  {
    hide Coherent, Restores, EvaluatedUpTo, SortConflicts, PoolFault, SortedKeys, ValidBundle;
    var pools := PoolsOf(taken);
    FaultsSoFar(st, taken, restored, freed, pools, |pools|);
    var evaluated := EvaluatedUpTo(st, taken, restored, pools, |pools|);
    if evaluated.Err? {
      var i :| && 0 <= i < |pools| && PoolFault(st, freed, taken, pools[i]) == Some(evaluated.error)
               && forall j :: 0 <= j < i ==> PoolFault(st, freed, taken, pools[j]).None?;
      var pool := pools[i];
      assert pool in pools;
      forall other | other in pools && other < pool
        ensures PoolFault(st, freed, taken, other).None?
      {
        var j :| 0 <= j < |pools| && pools[j] == other;
        EarlierPool(pools, i, j);
      }
    } else {
      forall pool | pool in pools
        ensures PoolFault(st, freed, taken, pool).None?
      {
        var i :| 0 <= i < |pools| && pools[i] == pool;
      }
    }
  }

  // ---- Each conflict once ----

  /** No conflict is listed twice. */
  ghost predicate Distinct(conflicts: seq<AvailabilityConflict>) {
    forall c :: multiset(conflicts)[c] <= 1
  }

  lemma {:induction false} OrderedDistinct(conflicts: seq<AvailabilityConflict>)
    requires InOrder(conflicts) && forall i :: 0 <= i < |conflicts| ==> conflicts[i].interval.Valid()
    ensures Distinct(conflicts)
  {
    if conflicts != [] {
      var n := |conflicts| - 1;
      OrderedDistinct(conflicts[..n]);
      assert conflicts == conflicts[..n] + [conflicts[n]];
      assert conflicts[n] !in conflicts[..n];
      assert conflicts[n] !in multiset(conflicts[..n]);
    }
  }

  lemma ConcatDistinct(a: seq<AvailabilityConflict>, b: seq<AvailabilityConflict>)
    requires Distinct(a) && Distinct(b) && forall c :: c in a ==> c !in b
    ensures Distinct(a + b)
  {
    forall c
      ensures multiset(a + b)[c] <= 1
    {
      assert c in a <==> c in multiset(a);
      assert c in b <==> c in multiset(b);
    }
  }

  lemma VerdictConflicts(st: EngineState, bundle: Bundle, overrides: map<PoolId, seq<SlackPoint>>, pool: PoolId)
    requires Coherent(st) && SoundOverrides(st, overrides) && ValidClaims(bundle)
    requires pool in PoolsOf(bundle) && pool in st.timelines
    requires var verdict := SweepOn(st, bundle, overrides, pool).Verdict(); verdict.Ok? && verdict.value.Unavailable?
    ensures var conflicts := SweepOn(st, bundle, overrides, pool).Verdict().value.conflicts;
            && InOrder(conflicts) && Unrepeated(conflicts) && Distinct(conflicts)
            && forall i :: 0 <= i < |conflicts| ==> conflicts[i].interval.Valid() && conflicts[i].poolId == pool
  {
    hide Coherent, PoolsOf, Sweep.Verdict, Exact, Unrepeated, Distinct, Sweep.Valid;
    var s := SweepOn(st, bundle, overrides, pool);
    SweepValid(st, bundle, overrides, pool);
    VerdictMerged(s);
    ExactValid(s, s.Verdict().value.conflicts);
    OrderedDistinct(s.Verdict().value.conflicts);
  }

  lemma {:induction false} EvaluatedDistinct(st: EngineState, bundle: Bundle, overrides: map<PoolId, seq<SlackPoint>>,
                                             pools: seq<PoolId>, k: nat)
    requires Coherent(st) && SoundOverrides(st, overrides) && ValidClaims(bundle) && StrictlyIncreasing(pools)
    requires forall pool :: pool in pools ==> pool in PoolsOf(bundle)
    requires k <= |pools| && EvaluatedUpTo(st, bundle, overrides, pools, k).Ok?
    ensures var conflicts := EvaluatedUpTo(st, bundle, overrides, pools, k).value.conflicts;
            Distinct(conflicts) && forall c :: c in conflicts ==> c.poolId in pools[..k]
  {
    hide *;
    if k == 0 {
      NothingEvaluated(st, bundle, overrides, pools);
      NothingListed();
    } else {
      EvaluatedLast(st, bundle, overrides, pools, k);
      EvaluatedDistinct(st, bundle, overrides, pools, k - 1);
      var pool := pools[k - 1];
      assert pool in pools && pools[..k] == pools[..k - 1] + [pool];
      NewPool(pools, k - 1);
      NextDistinct(st, bundle, overrides, pools[..k - 1], pool,
                   EvaluatedUpTo(st, bundle, overrides, pools, k - 1).value);
    }
  }

  lemma NothingListed()
    ensures Distinct([])
  {
  }

  lemma NewPool(pools: seq<PoolId>, k: nat)
    requires StrictlyIncreasing(pools) && k < |pools|
    ensures pools[k] !in pools[..k]
  {
  }

  lemma NextDistinct(st: EngineState, bundle: Bundle, overrides: map<PoolId, seq<SlackPoint>>, pools: seq<PoolId>,
                     pool: PoolId, earlier: Evaluated)
    requires Coherent(st) && SoundOverrides(st, overrides) && ValidClaims(bundle) && pool in PoolsOf(bundle)
    requires Distinct(earlier.conflicts) && (forall c :: c in earlier.conflicts ==> c.poolId in pools) && pool !in pools
    requires NextEvaluated(st, bundle, overrides, pool, earlier).Ok?
    ensures var conflicts := NextEvaluated(st, bundle, overrides, pool, earlier).value.conflicts;
            Distinct(conflicts) && forall c :: c in conflicts ==> c.poolId in pools + [pool]
  {
    hide Coherent, PoolsOf, Sweep.Verdict, SweepOn, Distinct, PoolSweep, Unrepeated, ClaimsOn;
    SweepUsed(st, bundle, overrides, pool);
    var verdict := SweepOn(st, bundle, overrides, pool).Verdict();
    if verdict.value.Unavailable? {
      VerdictConflicts(st, bundle, overrides, pool);
      var found := verdict.value.conflicts;
      forall c | c in found
        ensures c.poolId == pool
      {
        var i :| 0 <= i < |found| && found[i] == c;
      }
      ConcatDistinct(earlier.conflicts, found);
    }
  }

  // ---- The report ----

  /** Conflicts of one pool are apart, and none continues another with the same facts. */
  ghost predicate Separate(conflicts: seq<AvailabilityConflict>) {
    && (forall i, j :: 0 <= i < j < |conflicts| && conflicts[i].poolId == conflicts[j].poolId
                       ==> conflicts[i].interval.end <= conflicts[j].interval.start)
    && forall i, j :: 0 <= i < |conflicts| && 0 <= j < |conflicts| && conflicts[i].poolId == conflicts[j].poolId
                      && conflicts[i].interval.end == conflicts[j].interval.start
                      ==> !SameFacts(conflicts[i], conflicts[j])
  }

  lemma SamePoolOrdered(conflicts: seq<AvailabilityConflict>, i: nat, j: nat)
    requires InOrder(conflicts) && Unrepeated(conflicts) && i < |conflicts| && j < |conflicts|
    requires forall k :: 0 <= k < |conflicts| ==> conflicts[k].interval.Valid()
    ensures i != j ==> conflicts[i].interval.end <= conflicts[j].interval.start
                       || conflicts[j].interval.end <= conflicts[i].interval.start
    ensures conflicts[i].interval.end == conflicts[j].interval.start ==> !SameFacts(conflicts[i], conflicts[j])
  {
    hide SameFacts;
    if i + 1 < j {
      assert conflicts[i].interval.end <= conflicts[i + 1].interval.start;
      assert conflicts[i + 1].interval.end <= conflicts[j].interval.start;
    }
  }

  /** Two different conflicts of one pool. */
  lemma PairSeparate(st: EngineState, bundle: Bundle, overrides: map<PoolId, seq<SlackPoint>>,
                     conflicts: seq<AvailabilityConflict>, a: AvailabilityConflict, b: AvailabilityConflict)
    requires Coherent(st) && SoundOverrides(st, overrides) && ValidClaims(bundle)
    requires Collects(st, bundle, overrides, PoolsOf(bundle), conflicts)
    requires a in conflicts && b in conflicts && a.poolId == b.poolId
    ensures a.interval.Valid() && b.interval.Valid()
    ensures a != b ==> a.interval.end <= b.interval.start || b.interval.end <= a.interval.start
    ensures a.interval.end == b.interval.start ==> !SameFacts(a, b)
  {
    hide Coherent, PoolsOf, Sweep.Verdict, SweepOn, Distinct, Unrepeated, SameFacts, InOrder, Exact;
    var pa :| pa in PoolsOf(bundle) && ReportedOn(st, bundle, overrides, pa, a);
    var pb :| pb in PoolsOf(bundle) && ReportedOn(st, bundle, overrides, pb, b);
    ReportedExact(st, bundle, overrides, pa, a);
    ReportedExact(st, bundle, overrides, pb, b);
    VerdictConflicts(st, bundle, overrides, pa);
    var found := SweepOn(st, bundle, overrides, pa).Verdict().value.conflicts;
    var i :| 0 <= i < |found| && found[i] == a;
    var j :| 0 <= j < |found| && found[j] == b;
    SamePoolOrdered(found, i, j);
    if a != b {
      SamePoolOrdered(found, j, i);
    }
  }

  lemma RepeatedTwice(conflicts: seq<AvailabilityConflict>, i: nat, j: nat)
    requires i < j < |conflicts|
    ensures conflicts[i] == conflicts[j] ==> multiset(conflicts)[conflicts[i]] >= 2
  {
    assert conflicts == conflicts[..j] + conflicts[j..];
    var c := conflicts[i];
    assert conflicts[..j][i] == c;
    assert c in multiset(conflicts[..j]);
    assert conflicts[j..][0] == conflicts[j];
    assert conflicts[j] in multiset(conflicts[j..]);
  }

  lemma DistinctAt(conflicts: seq<AvailabilityConflict>, i: nat, j: nat)
    requires Distinct(conflicts) && i < j < |conflicts|
    ensures conflicts[i] != conflicts[j]
  {
    RepeatedTwice(conflicts, i, j);
  }

  lemma ReportSeparate(st: EngineState, bundle: Bundle, overrides: map<PoolId, seq<SlackPoint>>,
                       conflicts: seq<AvailabilityConflict>)
    requires Coherent(st) && SoundOverrides(st, overrides) && ValidClaims(bundle)
    requires EvaluateBundle(st, bundle, overrides) == Ok(BundleBlocked(conflicts))
    ensures Separate(conflicts)
  {
    hide Coherent, Collects, Distinct, SameFacts, EvaluateBundle;
    AdmissionCollects(st, bundle, overrides);
    ReportDistinct(st, bundle, overrides, conflicts);
    forall i, j | 0 <= i < |conflicts| && 0 <= j < |conflicts| && conflicts[i].poolId == conflicts[j].poolId
      ensures i < j ==> conflicts[i].interval.end <= conflicts[j].interval.start
      ensures conflicts[i].interval.end == conflicts[j].interval.start ==> !SameFacts(conflicts[i], conflicts[j])
    {
      var a, b := conflicts[i], conflicts[j];
      assert a in conflicts && b in conflicts;
      PairSeparate(st, bundle, overrides, conflicts, a, b);
      if i < j {
        DistinctAt(conflicts, i, j);
        assert ConflictBefore(a, b);
      }
    }
  }

  lemma ReportDistinct(st: EngineState, bundle: Bundle, overrides: map<PoolId, seq<SlackPoint>>,
                       conflicts: seq<AvailabilityConflict>)
    requires Coherent(st) && SoundOverrides(st, overrides) && ValidClaims(bundle)
    requires EvaluateBundle(st, bundle, overrides) == Ok(BundleBlocked(conflicts))
    ensures Distinct(conflicts)
  {
    hide Coherent, EvaluatedUpTo, SortConflicts;
    var pools := PoolsOf(bundle);
    EvaluatedDistinct(st, bundle, overrides, pools, |pools|);
    SortConflictsCorrect(EvaluatedUpTo(st, bundle, overrides, pools, |pools|).value.conflicts);
  }

  /** One conflict: exact numbers over its whole interval, which falls short, and exactly the live holders. */
  ghost predicate ConflictTold(st: EngineState, freed: seq<Claim>, taken: seq<Claim>, c: AvailabilityConflict) {
    && c.interval.Valid() && c.poolId in PoolsOf(taken) && c.poolId in st.timelines
    && c.deficit == c.required - c.available && ExactHolders(st.promises, c.poolId, c.interval, c.promiseIds)
    && forall t :: c.interval.Contains(t) ==>
                     && c.required == Usage(ClaimsOn(taken, c.poolId), t)
                     && c.available == Max(0, FreedSlack(st, freed, c.poolId, t))
                     && ShortAt(st, freed, taken, c.poolId, t)
  }

  /** The conflicts of a bundle: in canonical order, separate, each exact, and covering exactly what falls short. */
  ghost predicate ConflictsTold(st: EngineState, freed: seq<Claim>, taken: seq<Claim>,
                                conflicts: seq<AvailabilityConflict>)
  {
    && conflicts != [] && ConflictOrder(conflicts) && Separate(conflicts)
    && (forall c :: c in conflicts ==> ConflictTold(st, freed, taken, c))
    && forall pool, t :: pool in PoolsOf(taken) && pool in st.timelines && ShortAt(st, freed, taken, pool, t)
                         ==> CoversOn(conflicts, pool, t)
  }

  lemma OneTold(st: EngineState, taken: seq<Claim>, restored: map<PoolId, seq<SlackPoint>>, freed: seq<Claim>,
                c: AvailabilityConflict)
    requires Coherent(st) && ValidBundle(taken) && Restores(st, restored, freed)
    requires c.poolId in PoolsOf(taken) && c.poolId in st.timelines
    requires Exact(SweepOn(st, taken, restored, c.poolId), c)
    ensures ConflictTold(st, freed, taken, c)
  {
    hide At, Usage, PoolsOf, AllIndexed, SoundPools, ClaimsOn, Adjusts, Admission.Refused, Sweep.Demand, Sweep.Slack,
         ShortAt, Holders, ExactHolders, FreedSlack;
    var s := SweepOn(st, taken, restored, c.poolId);
    hide SweepOn;
    SweepFacts(st, taken, restored, c.poolId);
    RestoredSlack(st, taken, restored, freed, c.poolId);
    BundlesValid(st);
    HoldersExact(st.promises, c.poolId, c.interval);
    SweepNames(st, taken, restored, c.poolId);
    forall t | c.interval.Contains(t)
      ensures c.required == Usage(ClaimsOn(taken, c.poolId), t)
      ensures c.available == Max(0, FreedSlack(st, freed, c.poolId, t))
      ensures ShortAt(st, freed, taken, c.poolId, t)
    {
      ShortExactly(st, taken, restored, freed, c.poolId, t);
      FreedIs(st, taken, restored, freed, c.poolId, t);
    }
  }

  lemma SweepNames(st: EngineState, taken: seq<Claim>, restored: map<PoolId, seq<SlackPoint>>, pool: PoolId)
    requires pool in st.timelines
    ensures SweepOn(st, taken, restored, pool).promises == st.promises
    ensures SweepOn(st, taken, restored, pool).poolId == pool
  {
    hide ClaimsOn;
  }

  lemma FreedIs(st: EngineState, taken: seq<Claim>, restored: map<PoolId, seq<SlackPoint>>, freed: seq<Claim>,
                pool: PoolId, t: int)
    requires Restores(st, restored, freed) && pool in st.timelines
    ensures SweepOn(st, taken, restored, pool).Slack(t) == FreedSlack(st, freed, pool, t)
  {
    hide At, Usage, ClaimsOn, Adjusts, PoolsOf, SweepOn, Sweep.Slack;
    RestoredSlack(st, taken, restored, freed, pool);
  }

  /** What evaluation reports for a blocked bundle. */
  lemma BlockedTold(st: EngineState, taken: seq<Claim>, restored: map<PoolId, seq<SlackPoint>>, freed: seq<Claim>,
                    conflicts: seq<AvailabilityConflict>)
    requires Coherent(st) && ValidBundle(taken) && Restores(st, restored, freed)
    requires EvaluateBundle(st, taken, restored) == Ok(BundleBlocked(conflicts))
    ensures ConflictsTold(st, freed, taken, conflicts)
  {
    hide Coherent, Adjusts, PoolsOf, SweepOn, Admission.Refused, ShortAt, EvaluateBundle, Exact, ConflictTold, Separate,
         CoversOn, ConflictOrder;
    OverridesSound(st, restored, freed);
    BundleExact(st, taken, restored);
    ReportSeparate(st, taken, restored, conflicts);
    forall c | c in conflicts
      ensures ConflictTold(st, freed, taken, c)
    {
      OneTold(st, taken, restored, freed, c);
    }
    forall pool, t | pool in PoolsOf(taken) && pool in st.timelines && ShortAt(st, freed, taken, pool, t)
      ensures CoversOn(conflicts, pool, t)
    {
      ShortExactly(st, taken, restored, freed, pool, t);
    }
  }

  /** A bundle that replaces nothing is evaluated against slack as it is. */
  lemma NothingRestored(st: EngineState)
    requires Coherent(st)
    ensures Restores(st, map[], [])
  {
    hide Coherent, Adjusts;
    NothingAdjusted(st, []);
  }

  // ---- Evaluation ----

  lemma AllAnswer(st: EngineState, taken: seq<Claim>, restored: map<PoolId, seq<SlackPoint>>, freed: seq<Claim>)
    requires Coherent(st) && ValidBundle(taken) && Restores(st, restored, freed) && FaultFree(st, freed, taken)
    ensures forall pool :: pool in PoolsOf(taken) ==>
                             && pool in st.timelines && SweepOn(st, taken, restored, pool).Verdict().Ok?
                             && (SweepOn(st, taken, restored, pool).Verdict().value.Available?
                                 <==> !ShortInPool(st, freed, taken, pool))
  {
    hide Coherent, Restores, Sweep.Verdict, SweepOn, PoolsOf, PoolFault, ShortInPool, ValidBundle;
    forall pool | pool in PoolsOf(taken)
      ensures && pool in st.timelines && SweepOn(st, taken, restored, pool).Verdict().Ok?
              && (SweepOn(st, taken, restored, pool).Verdict().value.Available?
                  <==> !ShortInPool(st, freed, taken, pool))
    {
      UnknownFault(st, freed, taken, pool);
      PoolVerdict(st, taken, restored, freed, pool);
    }
  }

  lemma AllKnown(st: EngineState, freed: seq<Claim>, taken: seq<Claim>)
    requires Coherent(st) && FaultFree(st, freed, taken)
    ensures PoolsExist(taken, st.pools)
  {
    hide AllIndexed, SoundPromises, PoolFault, PoolsOf;
    forall i | 0 <= i < |taken|
      ensures taken[i].poolId in st.pools
    {
      PoolListed(taken, taken[i].poolId);
      UnknownFault(st, freed, taken, taken[i].poolId);
    }
  }

  /** What evaluating a bundle answers, with an old one given back: the first fault, room, or its conflicts told. */
  lemma EvaluationTold(st: EngineState, taken: seq<Claim>, restored: map<PoolId, seq<SlackPoint>>, freed: seq<Claim>)
    requires Coherent(st) && ValidBundle(taken) && Restores(st, restored, freed)
    ensures match EvaluateBundle(st, taken, restored)
            case Err(error) => FirstFault(st, freed, taken, error)
            case Ok(BundleFits(_)) => FaultFree(st, freed, taken) && HasRoomFor(st, freed, taken)
            case Ok(BundleBlocked(conflicts)) =>
              && FaultFree(st, freed, taken) && !HasRoomFor(st, freed, taken)
              && ConflictsTold(st, freed, taken, conflicts)
  {
    hide Coherent, Restores, EvaluateBundle, FaultFree, FirstFault, PoolsExist, PoolsOf, ShortAt, SweepOn,
         ConflictsTold, Sweep.Verdict, ValidBundle;
    FaultsDecide(st, taken, restored, freed);
    var evaluated := EvaluateBundle(st, taken, restored);
    if evaluated.Ok? {
      AllAnswer(st, taken, restored, freed);
      AllKnown(st, freed, taken);
      BundleFitsExactly(st, taken, restored);
      if evaluated.value.BundleBlocked? {
        BlockedTold(st, taken, restored, freed, evaluated.value.conflicts);
      }
    }
  }
}
