/** Bundle evaluation is exact, pool by pool, and refines the slow availability check. */
module BundleVerdicts {
  import opened Results
  import opened Intervals
  import opened StepFunctions
  import opened CapacityCurves
  import opened Domain
  import opened OrderedKeys
  import opened TimelineRebuild
  import opened Admission
  import opened AvailabilityOracle
  import opened Transitions
  import opened ActiveUsage
  import opened EngineInvariants
  import opened BundleAdmissions

  // ---- The canonical conflict order ----

  ghost predicate ConflictOrder(conflicts: seq<AvailabilityConflict>) {
    forall i, j :: 0 <= i < j < |conflicts| ==> ConflictBefore(conflicts[i], conflicts[j])
  }

  lemma ConflictOrderPush(conflicts: seq<AvailabilityConflict>, c: AvailabilityConflict)
    requires ConflictOrder(conflicts) && forall other :: other in conflicts ==> ConflictBefore(other, c)
    ensures ConflictOrder(conflicts + [c])
  {
    hide ConflictBefore;
    var all := conflicts + [c];
    forall i, j | 0 <= i < j < |all|
      ensures ConflictBefore(all[i], all[j])
    {
      if j == |conflicts| {
        var other := conflicts[i];
        assert other in conflicts;
      }
    }
  }

  lemma LastConflict(conflicts: seq<AvailabilityConflict>, c: AvailabilityConflict)
    requires ConflictOrder(conflicts) && conflicts != []
    requires ConflictBefore(conflicts[|conflicts| - 1], c)
    ensures forall other :: other in conflicts ==> ConflictBefore(other, c)
  {
    forall other | other in conflicts
      ensures ConflictBefore(other, c)
    {
      var i :| 0 <= i < |conflicts| && conflicts[i] == other;
      assert i < |conflicts| - 1 ==> ConflictBefore(conflicts[i], conflicts[|conflicts| - 1]);
    }
  }

  lemma ConflictsCompare(a: AvailabilityConflict, b: AvailabilityConflict)
    ensures ConflictBefore(a, b) || ConflictBefore(b, a)
  {
  }

  lemma {:induction false} InsertConflictCorrect(conflicts: seq<AvailabilityConflict>, c: AvailabilityConflict)
    requires ConflictOrder(conflicts)
    ensures ConflictOrder(InsertConflict(conflicts, c))
    ensures multiset(InsertConflict(conflicts, c)) == multiset(conflicts) + multiset{c}
  {
    hide ConflictBefore;
    if conflicts != [] {
      var n := |conflicts| - 1;
      var last := conflicts[n];
      assert conflicts == conflicts[..n] + [last];
      ConflictsCompare(last, c);
      if ConflictBefore(last, c) {
        LastConflict(conflicts, c);
        ConflictOrderPush(conflicts, c);
      } else {
        InsertConflictCorrect(conflicts[..n], c);
        var inserted := InsertConflict(conflicts[..n], c);
        forall other | other in inserted
          ensures ConflictBefore(other, last)
        {
          assert other in multiset(inserted);
          if other != c {
            assert other in conflicts[..n];
            var i :| 0 <= i < n && conflicts[..n][i] == other;
          }
        }
        ConflictOrderPush(inserted, last);
      }
    }
  }

  /** Sorting orders conflicts by start, pool and end, and keeps each of them. */
  lemma {:induction false} SortConflictsCorrect(conflicts: seq<AvailabilityConflict>)
    ensures ConflictOrder(SortConflicts(conflicts))
    ensures multiset(SortConflicts(conflicts)) == multiset(conflicts)
  {
    if conflicts != [] {
      hide InsertConflict;
      hide ConflictOrder;
      var n := |conflicts| - 1;
      assert conflicts == conflicts[..n] + [conflicts[n]];
      SortConflictsCorrect(conflicts[..n]);
      InsertConflictCorrect(SortConflicts(conflicts[..n]), conflicts[n]);
    } else {
      assert ConflictOrder([]);
    }
  }

  // ---- The conflicts of a bundle ----

  /** A reported conflict: of a listed pool, and reported by that pool's sweep. */
  ghost predicate ReportedOn(st: EngineState, bundle: Bundle, overrides: map<PoolId, seq<SlackPoint>>, pool: PoolId,
                             c: AvailabilityConflict)
  {
    && pool in st.timelines
    && var verdict := SweepOn(st, bundle, overrides, pool).Verdict();
       verdict.Ok? && verdict.value.Unavailable? && c in verdict.value.conflicts
  }

  /** The collected conflicts are exactly those reported by the listed pools' sweeps. */
  ghost predicate Collects(st: EngineState, bundle: Bundle, overrides: map<PoolId, seq<SlackPoint>>, pools: seq<PoolId>,
                           conflicts: seq<AvailabilityConflict>)
  {
    && (forall pool :: pool in pools ==> pool in st.timelines && SweepOn(st, bundle, overrides, pool).Verdict().Ok?)
    && forall c :: c in conflicts <==> exists pool :: pool in pools && ReportedOn(st, bundle, overrides, pool, c)
  }

  lemma CollectsStep(st: EngineState, bundle: Bundle, overrides: map<PoolId, seq<SlackPoint>>, pools: seq<PoolId>,
                     k: nat, earlier: Evaluated)
    requires k < |pools| && NextEvaluated(st, bundle, overrides, pools[k], earlier).Ok?
    requires Collects(st, bundle, overrides, pools[..k], earlier.conflicts)
    ensures Collects(st, bundle, overrides, pools[..k + 1],
                     NextEvaluated(st, bundle, overrides, pools[k], earlier).value.conflicts)
  {
    hide Sweep.Verdict;
    SweepUsed(st, bundle, overrides, pools[k]);
    hide PoolSweep;
    hide SweepOn;
    var pool := pools[k];
    assert pools[..k + 1] == pools[..k] + [pool];
    var conflicts := NextEvaluated(st, bundle, overrides, pool, earlier).value.conflicts;
    forall c
      ensures c in conflicts <==> c in earlier.conflicts || ReportedOn(st, bundle, overrides, pool, c)
    {
    }
    CollectsPush(st, bundle, overrides, pools[..k], pool, earlier.conflicts, conflicts);
  }

  lemma CollectsPush(st: EngineState, bundle: Bundle, overrides: map<PoolId, seq<SlackPoint>>, pools: seq<PoolId>,
                     pool: PoolId, earlier: seq<AvailabilityConflict>, conflicts: seq<AvailabilityConflict>)
    requires Collects(st, bundle, overrides, pools, earlier)
    requires pool in st.timelines && SweepOn(st, bundle, overrides, pool).Verdict().Ok?
    requires forall c :: c in conflicts <==> c in earlier || ReportedOn(st, bundle, overrides, pool, c)
    ensures Collects(st, bundle, overrides, pools + [pool], conflicts)
  {
    hide Sweep.Verdict;
    hide SweepOn;
    hide ReportedOn;
    forall other | other in pools + [pool]
      ensures other in st.timelines && SweepOn(st, bundle, overrides, other).Verdict().Ok?
    {
      assert other in pools || other == pool;
    }
    forall c
      ensures c in conflicts
              <==> exists other :: other in pools + [pool] && ReportedOn(st, bundle, overrides, other, c)
    {
      if other :| other in pools && ReportedOn(st, bundle, overrides, other, c) {
        assert other in pools + [pool];
      }
      if ReportedOn(st, bundle, overrides, pool, c) {
        assert pool in pools + [pool];
      }
      if other :| other in pools + [pool] && ReportedOn(st, bundle, overrides, other, c) {
        assert other in pools || other == pool;
      }
    }
  }

  lemma NothingCollected(st: EngineState, bundle: Bundle, overrides: map<PoolId, seq<SlackPoint>>, pools: seq<PoolId>)
    ensures Collects(st, bundle, overrides, pools[..0], [])
  {
    hide Sweep.Verdict;
    hide SweepOn;
  }

  lemma {:induction false} EvaluatedCollects(st: EngineState, bundle: Bundle, overrides: map<PoolId, seq<SlackPoint>>,
                                             pools: seq<PoolId>, k: nat)
    requires k <= |pools| && EvaluatedUpTo(st, bundle, overrides, pools, k).Ok?
    ensures Collects(st, bundle, overrides, pools[..k], EvaluatedUpTo(st, bundle, overrides, pools, k).value.conflicts)
  {
    hide *;
    if k == 0 {
      NothingEvaluated(st, bundle, overrides, pools);
      NothingCollected(st, bundle, overrides, pools);
    } else {
      EvaluatedLast(st, bundle, overrides, pools, k);
      EvaluatedCollects(st, bundle, overrides, pools, k - 1);
      CollectsStep(st, bundle, overrides, pools, k - 1, EvaluatedUpTo(st, bundle, overrides, pools, k - 1).value);
    }
  }

  /** What a finished evaluation collected, sorted or not. */
  lemma AdmissionCollects(st: EngineState, bundle: Bundle, overrides: map<PoolId, seq<SlackPoint>>)
    requires EvaluateBundle(st, bundle, overrides).Ok?
    ensures match EvaluateBundle(st, bundle, overrides).value
            case BundleFits(_) => Collects(st, bundle, overrides, PoolsOf(bundle), [])
            case BundleBlocked(conflicts) =>
              && conflicts != [] && ConflictOrder(conflicts)
              && Collects(st, bundle, overrides, PoolsOf(bundle), conflicts)
  {
    hide Collects;
    hide EvaluatedUpTo;
    hide SortConflicts;
    var pools := PoolsOf(bundle);
    hide PoolsOf;
    EvaluatedCollects(st, bundle, overrides, pools, |pools|);
    assert pools[..|pools|] == pools;
    var conflicts := EvaluatedUpTo(st, bundle, overrides, pools, |pools|).value.conflicts;
    SortConflictsCorrect(conflicts);
    SameMembers(SortConflicts(conflicts), conflicts);
    CollectsSame(st, bundle, overrides, pools, conflicts, SortConflicts(conflicts));
  }

  lemma SameMembers(a: seq<AvailabilityConflict>, b: seq<AvailabilityConflict>)
    requires multiset(a) == multiset(b)
    ensures |a| == |b| && forall c :: c in a <==> c in b
  {
    forall c
      ensures c in a <==> c in b
    {
      assert c in a <==> c in multiset(a);
      assert c in b <==> c in multiset(b);
    }
    assert |multiset(a)| == |a| && |multiset(b)| == |b|;
  }

  lemma CollectsSame(st: EngineState, bundle: Bundle, overrides: map<PoolId, seq<SlackPoint>>, pools: seq<PoolId>,
                     a: seq<AvailabilityConflict>, b: seq<AvailabilityConflict>)
    requires Collects(st, bundle, overrides, pools, a) && forall c :: c in a <==> c in b
    ensures Collects(st, bundle, overrides, pools, b)
  {
    hide Sweep.Verdict;
    hide SweepOn;
    hide ReportedOn;
  }

  // ---- The verdict is exact ----

  /** Some reported conflict of this pool covers `t`. */
  ghost predicate CoversOn(conflicts: seq<AvailabilityConflict>, pool: PoolId, t: int) {
    exists c :: c in conflicts && c.poolId == pool && c.interval.Contains(t)
  }

  lemma ReportedExact(st: EngineState, bundle: Bundle, overrides: map<PoolId, seq<SlackPoint>>, pool: PoolId,
                      c: AvailabilityConflict)
    requires Coherent(st) && SoundOverrides(st, overrides) && ValidClaims(bundle)
    requires pool in PoolsOf(bundle) && ReportedOn(st, bundle, overrides, pool, c)
    ensures c.poolId == pool && Exact(SweepOn(st, bundle, overrides, pool), c)
  {
    hide Exact;
    hide Refused;
    var s := SweepOn(st, bundle, overrides, pool);
    SweepValid(st, bundle, overrides, pool);
    VerdictCorrect(s);
    hide Sweep.Verdict;
    var conflicts := s.Verdict().value.conflicts;
    var i :| 0 <= i < |conflicts| && conflicts[i] == c;
    assert Exact(s, conflicts[i]);
    ExactValid(s, conflicts);
  }

  /** A pool's sweep refuses `t` exactly when one of its reported conflicts covers `t`. */
  lemma RefusedReported(st: EngineState, bundle: Bundle, overrides: map<PoolId, seq<SlackPoint>>,
                        conflicts: seq<AvailabilityConflict>, pool: PoolId, t: int)
    requires Coherent(st) && SoundOverrides(st, overrides) && ValidClaims(bundle)
    requires Collects(st, bundle, overrides, PoolsOf(bundle), conflicts) && pool in PoolsOf(bundle)
    ensures pool in st.timelines
    ensures CoversOn(conflicts, pool, t) <==> Refused(SweepOn(st, bundle, overrides, pool), t)
  {
    hide Exact;
    hide Refused;
    hide PoolsOf;
    hide Coherent;
    hide Sweep.Verdict;
    var s := SweepOn(st, bundle, overrides, pool);
    SweepValid(st, bundle, overrides, pool);
    VerdictCorrect(s);
    if CoversOn(conflicts, pool, t) {
      var c :| c in conflicts && c.poolId == pool && c.interval.Contains(t);
      var other :| other in PoolsOf(bundle) && ReportedOn(st, bundle, overrides, other, c);
      ReportedExact(st, bundle, overrides, other, c);
      ExactRefuses(s, c, t);
    }
    if Refused(s, t) {
      var found := s.Verdict().value.conflicts;
      assert Covers(found, t);
      var i :| 0 <= i < |found| && found[i].interval.Contains(t);
      ExactValid(s, found);
      assert ReportedOn(st, bundle, overrides, pool, found[i]);
    }
  }

  lemma ExactRefuses(s: Sweep, c: AvailabilityConflict, t: int)
    requires Exact(s, c) && c.interval.Contains(t)
    ensures Refused(s, t)
  {
    hide Refused;
  }

  /** Every conflict names a pool of the bundle, with exact numbers over its whole interval. */
  ghost predicate AllReportedExact(st: EngineState, bundle: Bundle, overrides: map<PoolId, seq<SlackPoint>>,
                                   conflicts: seq<AvailabilityConflict>)
  {
    forall c :: c in conflicts ==>
                  && c.poolId in PoolsOf(bundle) && c.poolId in st.timelines
                  && Exact(SweepOn(st, bundle, overrides, c.poolId), c)
  }

  /** The conflicts cover exactly what the pools' sweeps refuse. */
  ghost predicate CoverRefusals(st: EngineState, bundle: Bundle, overrides: map<PoolId, seq<SlackPoint>>,
                                conflicts: seq<AvailabilityConflict>)
  {
    forall pool, t :: pool in PoolsOf(bundle) ==>
                        && pool in st.timelines
                        && (CoversOn(conflicts, pool, t) <==> Refused(SweepOn(st, bundle, overrides, pool), t))
  }

  /**
   A bundle fits exactly when no pool's sweep refuses any timestamp. Otherwise its conflicts are in
   canonical order, each exact, and together they cover exactly the refused timestamps of every pool.
   */
  lemma BundleExact(st: EngineState, bundle: Bundle, overrides: map<PoolId, seq<SlackPoint>>)
    requires Coherent(st) && SoundOverrides(st, overrides) && ValidClaims(bundle)
    requires EvaluateBundle(st, bundle, overrides).Ok?
    ensures match EvaluateBundle(st, bundle, overrides).value
            case BundleFits(_) =>
              CoverRefusals(st, bundle, overrides, [])
            case BundleBlocked(conflicts) =>
              && conflicts != [] && ConflictOrder(conflicts)
              && AllReportedExact(st, bundle, overrides, conflicts) && CoverRefusals(st, bundle, overrides, conflicts)
  {
    AdmissionCollects(st, bundle, overrides);
    hide *;
    var admission := EvaluateBundle(st, bundle, overrides).value;
    var conflicts := if admission.BundleFits? then [] else admission.conflicts;
    CollectsExact(st, bundle, overrides, conflicts);
  }

  lemma CollectsExact(st: EngineState, bundle: Bundle, overrides: map<PoolId, seq<SlackPoint>>,
                      conflicts: seq<AvailabilityConflict>)
    requires Coherent(st) && SoundOverrides(st, overrides) && ValidClaims(bundle)
    requires Collects(st, bundle, overrides, PoolsOf(bundle), conflicts)
    ensures AllReportedExact(st, bundle, overrides, conflicts) && CoverRefusals(st, bundle, overrides, conflicts)
  {
    hide Exact;
    hide Refused;
    hide PoolsOf;
    hide Coherent;
    hide Sweep.Verdict;
    hide CoversOn;
    hide SweepOn;
    forall c | c in conflicts
      ensures c.poolId in PoolsOf(bundle) && c.poolId in st.timelines
              && Exact(SweepOn(st, bundle, overrides, c.poolId), c)
    {
      var pool :| pool in PoolsOf(bundle) && ReportedOn(st, bundle, overrides, pool, c);
      ReportedExact(st, bundle, overrides, pool, c);
    }
    forall pool, t | pool in PoolsOf(bundle)
      ensures pool in st.timelines
      ensures CoversOn(conflicts, pool, t) <==> Refused(SweepOn(st, bundle, overrides, pool), t)
    {
      RefusedReported(st, bundle, overrides, conflicts, pool, t);
    }
  }

  // ---- The slow check ----

  /** The slow answer: every pool of the bundle stays within capacity. */
  ghost predicate WithinAllCapacity(st: EngineState, bundle: Bundle) {
    forall pool :: pool in PoolsOf(bundle) ==>
                     && pool in st.pools
                     && WithinCapacity(st.pools[pool].curve, ActiveClaims(st.promises, pool), ClaimsOn(bundle, pool))
  }

  /** The slow check's sums stay within 64 bits. */
  ghost predicate SumsFit(st: EngineState, bundle: Bundle) {
    forall pool, t :: Usage(ActiveClaims(st.promises, pool), t) + Usage(ClaimsOn(bundle, pool), t) <= U64_MAX
  }

  lemma PoolRefinesOracle(st: EngineState, bundle: Bundle, pool: PoolId)
    requires Coherent(st) && ValidClaims(bundle) && SumsFit(st, bundle)
    requires pool in PoolsOf(bundle) && pool in st.pools
    ensures pool in st.timelines
    ensures var s := SweepOn(st, bundle, map[], pool);
            && s.Verdict().Ok?
            && (s.Verdict().value.Available?
                <==> WithinCapacity(st.pools[pool].curve, ActiveClaims(st.promises, pool), ClaimsOn(bundle, pool)))
  {
    hide ActiveAmong;
    hide At;
    hide Usage;
    hide Sweep.Verdict;
    hide WithinCapacity;
    hide SortedKeys;
    assert Indexed(st, pool);
    SweepValid(st, bundle, map[], pool);
    BundlesValid(st);
    ActiveValid(st.promises, SortedKeys(st.promises.Keys), pool);
    SweepRefinesOracle(SweepOn(st, bundle, map[], pool), st.pools[pool].curve, ActiveClaims(st.promises, pool));
  }

  lemma {:induction false} VerdictsAnswer(st: EngineState, bundle: Bundle, overrides: map<PoolId, seq<SlackPoint>>,
                                          pools: seq<PoolId>, k: nat)
    requires k <= |pools|
    requires forall pool :: pool in pools ==> pool in st.timelines && SweepOn(st, bundle, overrides, pool).Verdict().Ok?
    ensures EvaluatedUpTo(st, bundle, overrides, pools, k).Ok?
  {
    hide Sweep.Verdict;
    if k > 0 {
      VerdictsAnswer(st, bundle, overrides, pools, k - 1);
      var pool := pools[k - 1];
      assert pool in pools;
      SweepUsed(st, bundle, overrides, pool);
    }
  }

  /** The indexed admission decision refines the slow check in every coherent state. */
  lemma AdmissionRefinesOracle(st: EngineState, bundle: Bundle)
    requires Coherent(st) && ValidClaims(bundle) && PoolsExist(bundle, st.pools) && SumsFit(st, bundle)
    ensures EvaluateBundle(st, bundle, map[]).Ok?
    ensures EvaluateBundle(st, bundle, map[]).value.BundleFits? <==> WithinAllCapacity(st, bundle)
  {
    hide Coherent;
    hide Sweep.Verdict;
    hide SumsFit;
    hide WithinCapacity;
    hide SweepOn;
    hide ActiveClaims;
    hide EvaluatedUpTo;
    hide SortConflicts;
    var pools := PoolsOf(bundle);
    hide PoolsOf;
    forall pool | pool in pools
      ensures pool in st.timelines && pool in st.pools
      ensures SweepOn(st, bundle, map[], pool).Verdict().Ok?
      ensures SweepOn(st, bundle, map[], pool).Verdict().value.Available?
              <==> WithinCapacity(st.pools[pool].curve, ActiveClaims(st.promises, pool), ClaimsOn(bundle, pool))
    {
      PoolIsKnown(st, bundle, pool);
      PoolRefinesOracle(st, bundle, pool);
    }
    VerdictsAnswer(st, bundle, map[], pools, |pools|);
    AdmissionCollects(st, bundle, map[]);
    var admission := EvaluateBundle(st, bundle, map[]).value;
    AllAvailable(st, bundle, map[], pools, if admission.BundleFits? then [] else admission.conflicts);
  }

  lemma PoolIsKnown(st: EngineState, bundle: Bundle, pool: PoolId)
    requires PoolsExist(bundle, st.pools) && pool in PoolsOf(bundle)
    ensures pool in st.pools
  {
  }

  /** No conflict is collected exactly when every pool's sweep is available. */
  lemma AllAvailable(st: EngineState, bundle: Bundle, overrides: map<PoolId, seq<SlackPoint>>, pools: seq<PoolId>,
                     conflicts: seq<AvailabilityConflict>)
    requires Collects(st, bundle, overrides, pools, conflicts)
    ensures conflicts == []
            <==> forall pool :: pool in pools ==> SweepOn(st, bundle, overrides, pool).Verdict().value.Available?
  {
    hide Sweep.Verdict;
    hide SweepOn;
    if conflicts != [] {
      var c := conflicts[0];
      assert c in conflicts;
      var pool :| pool in pools && ReportedOn(st, bundle, overrides, pool, c);
    }
    forall pool | pool in pools && SweepOn(st, bundle, overrides, pool).Verdict().value.Unavailable?
      ensures conflicts != []
    {
      var s := SweepOn(st, bundle, overrides, pool);
      UnavailableNonempty(s);
      var first := s.Verdict().value.conflicts[0];
      assert ReportedOn(st, bundle, overrides, pool, first);
      assert first in conflicts;
    }
  }

  /** When every sweep of the bundle's pools answers, the bundle fits exactly when all are available. */
  lemma BundleFitsExactly(st: EngineState, bundle: Bundle, overrides: map<PoolId, seq<SlackPoint>>)
    requires forall pool :: pool in PoolsOf(bundle) ==>
                              pool in st.timelines && SweepOn(st, bundle, overrides, pool).Verdict().Ok?
    ensures EvaluateBundle(st, bundle, overrides).Ok?
    ensures EvaluateBundle(st, bundle, overrides).value.BundleFits?
            <==> forall pool :: pool in PoolsOf(bundle) ==>
                                  SweepOn(st, bundle, overrides, pool).Verdict().value.Available?
  {
    hide Sweep.Verdict;
    hide SweepOn;
    hide EvaluatedUpTo;
    hide SortConflicts;
    var pools := PoolsOf(bundle);
    hide PoolsOf;
    VerdictsAnswer(st, bundle, overrides, pools, |pools|);
    AdmissionCollects(st, bundle, overrides);
    var admission := EvaluateBundle(st, bundle, overrides).value;
    AllAvailable(st, bundle, overrides, pools, if admission.BundleFits? then [] else admission.conflicts);
  }

  /** A bundle fits exactly when the sweep of each of its pools accepts. */
  lemma FitsExactly(st: EngineState, bundle: Bundle, overrides: map<PoolId, seq<SlackPoint>>)
    ensures EvaluateBundle(st, bundle, overrides).Ok? && EvaluateBundle(st, bundle, overrides).value.BundleFits?
            <==> forall pool :: pool in PoolsOf(bundle) ==>
                                  pool in st.timelines && Accepts(SweepOn(st, bundle, overrides, pool))
  {
    hide Sweep.Verdict, SweepOn, EvaluatedUpTo, SortConflicts, PoolsOf, EvaluateBundle;
    var evaluated := EvaluateBundle(st, bundle, overrides);
    if evaluated.Ok? && evaluated.value.BundleFits? {
      FitsAvailable(st, bundle, overrides);
    }
    if forall pool :: pool in PoolsOf(bundle) ==>
                        pool in st.timelines && Accepts(SweepOn(st, bundle, overrides, pool)) {
      BundleFitsExactly(st, bundle, overrides);
    }
  }
}
