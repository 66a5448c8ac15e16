/** Usage of the active promises on one pool, promise by promise, and giving a bundle's usage back. */
module ActiveUsage {
  import opened Results
  import opened Intervals
  import opened StepFunctions
  import opened SlackTimelines
  import opened CapacityCurves
  import opened Domain
  import opened OrderedKeys
  import opened TimelineRebuild
  import opened Admission
  import opened Transitions

  /** What one promise holds on a pool at `t`. */
  function Contribution(promises: map<PromiseId, Promise>, id: PromiseId, pool: PoolId, t: int): int {
    if id in promises && promises[id].Active() then Usage(ClaimsOn(promises[id].bundle, pool), t) else 0
  }

  /** Active claims of every other promise. */
  function Others(promises: map<PromiseId, Promise>, id: PromiseId, pool: PoolId): seq<Claim> {
    ActiveAmong(promises, SortedKeys(promises.Keys - {id}), pool)
  }

  ghost predicate ValidBundles(promises: map<PromiseId, Promise>) {
    forall id :: id in promises ==> ValidBundle(promises[id].bundle)
  }

  lemma {:induction false} UsageConcat(a: seq<Claim>, b: seq<Claim>, t: int)
    ensures Usage(a + b, t) == Usage(a, t) + Usage(b, t)
  {
    if b == [] {
      assert a + b == a;
    } else {
      var n := |b| - 1;
      assert (a + b)[..|a + b| - 1] == a + b[..n];
      UsageConcat(a, b[..n], t);
    }
  }

  lemma {:induction false} ActiveConcat(promises: map<PromiseId, Promise>, a: seq<PromiseId>, b: seq<PromiseId>,
                                        pool: PoolId)
    ensures ActiveAmong(promises, a + b, pool) == ActiveAmong(promises, a, pool) + ActiveAmong(promises, b, pool)
  {
    if b == [] {
      assert a + b == a;
    } else {
      var n := |b| - 1;
      assert (a + b)[..|a + b| - 1] == a + b[..n];
      ActiveConcat(promises, a, b[..n], pool);
    }
  }

  lemma {:induction false} ActiveUnaffected(promises: map<PromiseId, Promise>, id: PromiseId, p: Promise,
                                            keys: seq<PromiseId>, pool: PoolId)
    requires id !in keys
    ensures ActiveAmong(promises[id := p], keys, pool) == ActiveAmong(promises, keys, pool)
  {
    if keys != [] {
      var last := keys[|keys| - 1];
      assert last in keys;
      ActiveUnaffected(promises, id, p, keys[..|keys| - 1], pool);
    }
  }

  lemma {:induction false} ActiveValid(promises: map<PromiseId, Promise>, keys: seq<PromiseId>, pool: PoolId)
    requires ValidBundles(promises)
    ensures ValidClaims(ActiveAmong(promises, keys, pool))
  {
    if keys != [] {
      var n := |keys| - 1;
      ActiveValid(promises, keys[..n], pool);
      var last := keys[n];
      if last in promises {
        assert ValidBundle(promises[last].bundle);
      }
    }
  }

  lemma SingleActive(promises: map<PromiseId, Promise>, id: PromiseId, pool: PoolId, t: int)
    ensures Usage(ActiveAmong(promises, [id], pool), t) == Contribution(promises, id, pool, t)
  {
    assert [id][..0] == [];
    assert ActiveAmong(promises, [], pool) == [];
    if id in promises {
      assert [] + ClaimsOn(promises[id].bundle, pool) == ClaimsOn(promises[id].bundle, pool);
    }
  }

  /** Removing one key from increasing keys leaves the other keys, increasing. */
  lemma WithoutKey(keys: seq<int>, k: nat)
    requires StrictlyIncreasing(keys) && k < |keys|
    ensures var rest := keys[..k] + keys[k + 1..];
            StrictlyIncreasing(rest) && forall x :: x in rest <==> x in keys && x != keys[k]
  {
    var rest := keys[..k] + keys[k + 1..];
    forall x | x in rest
      ensures x in keys && x != keys[k]
    {
      var i :| 0 <= i < |rest| && rest[i] == x;
      assert keys[if i < k then i else i + 1] == x;
    }
    forall x | x in keys && x != keys[k]
      ensures x in rest
    {
      var j :| 0 <= j < |keys| && keys[j] == x;
      assert rest[if j < k then j else j - 1] == x;
    }
  }

  lemma KeysSplit(s: set<int>, key: int) returns (a: seq<int>, b: seq<int>)
    requires key in s
    ensures SortedKeys(s) == a + [key] + b && SortedKeys(s - {key}) == a + b
  {
    hide SortedKeys;
    var keys := SortedKeys(s);
    assert key in keys;
    var k :| 0 <= k < |keys| && keys[k] == key;
    a, b := keys[..k], keys[k + 1..];
    WithoutKey(keys, k);
    IncreasingUnique(a + b, SortedKeys(s - {key}));
  }

  /** Total usage is one promise's contribution plus everyone else's. */
  lemma UsageSplit(promises: map<PromiseId, Promise>, id: PromiseId, pool: PoolId, t: int)
    ensures Usage(ActiveClaims(promises, pool), t)
            == Usage(Others(promises, id, pool), t) + Contribution(promises, id, pool, t)
  {
    hide Usage;
    hide ActiveAmong;
    hide SortedKeys;
    if id in promises {
      var a, b := KeysSplit(promises.Keys, id);
      ActiveConcat(promises, a + [id], b, pool);
      ActiveConcat(promises, a, [id], pool);
      ActiveConcat(promises, a, b, pool);
      UsageConcat(ActiveAmong(promises, a + [id], pool), ActiveAmong(promises, b, pool), t);
      UsageConcat(ActiveAmong(promises, a, pool), ActiveAmong(promises, [id], pool), t);
      UsageConcat(ActiveAmong(promises, a, pool), ActiveAmong(promises, b, pool), t);
      SingleActive(promises, id, pool, t);
    } else {
      assert promises.Keys - {id} == promises.Keys;
    }
  }

  /** Storing one promise moves total usage by the difference of its contributions. */
  lemma UsageStored(promises: map<PromiseId, Promise>, id: PromiseId, p: Promise, pool: PoolId, t: int)
    ensures var stored := promises[id := p];
            Usage(ActiveClaims(stored, pool), t)
            == Usage(ActiveClaims(promises, pool), t) - Contribution(promises, id, pool, t)
               + Contribution(stored, id, pool, t)
  {
    hide Usage;
    hide ActiveAmong;
    hide SortedKeys;
    var stored := promises[id := p];
    assert stored.Keys - {id} == promises.Keys - {id};
    var rest := SortedKeys(promises.Keys - {id});
    assert id !in rest;
    ActiveUnaffected(promises, id, p, rest, pool);
    UsageSplit(promises, id, pool, t);
    UsageSplit(stored, id, pool, t);
  }

  /** No promise holds more than all of them together. */
  lemma ContributionBounded(promises: map<PromiseId, Promise>, id: PromiseId, pool: PoolId, t: int)
    requires ValidBundles(promises)
    ensures 0 <= Contribution(promises, id, pool, t) <= Usage(ActiveClaims(promises, pool), t)
  {
    hide ActiveAmong;
    UsageSplit(promises, id, pool, t);
    ActiveValid(promises, SortedKeys(promises.Keys - {id}), pool);
    DemandNonnegative(Others(promises, id, pool), t);
    if id in promises {
      DemandNonnegative(ClaimsOn(promises[id].bundle, pool), t);
    }
  }

  // ---- Bundles, pool by pool ----

  lemma {:induction false} NoClaimsOn(claims: seq<Claim>, pool: PoolId)
    requires forall i :: 0 <= i < |claims| ==> claims[i].poolId != pool
    ensures ClaimsOn(claims, pool) == []
  {
    if claims != [] {
      NoClaimsOn(claims[..|claims| - 1], pool);
    }
  }

  lemma {:induction false} SomeClaimsOn(claims: seq<Claim>, i: nat)
    requires i < |claims|
    ensures claims[i] in ClaimsOn(claims, claims[i].poolId)
  {
    var n := |claims| - 1;
    if i < n {
      SomeClaimsOn(claims[..n], i);
    }
  }

  lemma PoolListed(claims: seq<Claim>, pool: PoolId)
    ensures pool in PoolsOf(claims) <==> exists i :: 0 <= i < |claims| && claims[i].poolId == pool
    ensures pool in PoolsOf(claims) <==> ClaimsOn(claims, pool) != []
  {
    if pool in PoolsOf(claims) {
      var i :| 0 <= i < |claims| && claims[i].poolId == pool;
      SomeClaimsOn(claims, i);
    } else {
      NoClaimsOn(claims, pool);
    }
  }

  // ---- Giving usage back ----

  /** Every value of a canonical timeline is one of its points' or zero. */
  lemma ValuesFit(points: seq<SlackPoint>)
    requires Sorted(points)
    ensures AllFit(points) ==> forall t :: FitsI64(At(0, points, t))
    ensures (forall t :: FitsI64(At(0, points, t))) ==> AllFit(points)
  {
    hide At;
    if AllFit(points) {
      forall t
        ensures FitsI64(At(0, points, t))
      {
        var k := FindInForce(points, t);
      }
    }
    if !AllFit(points) {
      var i :| 0 <= i < |points| && !FitsI64(points[i].slack);
      AtIndex(0, points, i, points[i].timestamp);
    }
  }

  ghost predicate Wellformed(points: seq<SlackPoint>) {
    Canonical(points) && AllFit(points)
  }

  /** Giving claims back never overflows when the result stays within 63 bits, and adds their usage. */
  lemma {:induction false} GiveBackCorrect(points: seq<SlackPoint>, claims: seq<Claim>)
    requires Wellformed(points) && ValidClaims(claims)
    requires forall t :: At(0, points, t) + Usage(claims, t) <= I64_MAX
    ensures GiveBack(points, claims).Ok? && Wellformed(GiveBack(points, claims).value)
    ensures forall t :: At(0, GiveBack(points, claims).value, t) == At(0, points, t) + Usage(claims, t)
  {
    hide At;
    hide AddOn;
    if claims == [] {
    } else {
      var n := |claims| - 1;
      var last := claims[n];
      assert last.Valid();
      forall t
        ensures At(0, points, t) + Usage(claims[..n], t) <= I64_MAX
      {
        assert At(0, points, t) + Usage(claims, t) <= I64_MAX;
      }
      GiveBackCorrect(points, claims[..n]);
      GiveBackOne(points, claims, GiveBack(points, claims[..n]).value);
    }
  }

  lemma GiveBackOne(points: seq<SlackPoint>, claims: seq<Claim>, earlier: seq<SlackPoint>)
    requires claims != [] && claims[|claims| - 1].Valid() && Wellformed(earlier)
    requires forall t :: At(0, earlier, t) == At(0, points, t) + Usage(claims[..|claims| - 1], t)
    requires forall t :: At(0, points, t) + Usage(claims, t) <= I64_MAX
    ensures var last := claims[|claims| - 1];
            var result := AddOn(earlier, last.interval.start, last.interval.end, last.quantity);
            && Admits(earlier, last.interval, last.quantity) && Wellformed(result)
            && forall t :: At(0, result, t) == At(0, points, t) + Usage(claims, t)
  {
    hide At;
    hide AddOn;
    var last := claims[|claims| - 1];
    var result := AddOn(earlier, last.interval.start, last.interval.end, last.quantity);
    AddOnCorrect(earlier, last.interval.start, last.interval.end, last.quantity);
    ValuesFit(earlier);
    forall t
      ensures At(0, result, t) == At(0, points, t) + Usage(claims, t) && FitsI64(At(0, result, t))
      ensures last.interval.Contains(t) ==> FitsI64(At(0, earlier, t) + last.quantity)
    {
      assert FitsI64(At(0, earlier, t));
      assert At(0, points, t) + Usage(claims, t) <= I64_MAX;
    }
    ValuesFit(result);
  }
}
