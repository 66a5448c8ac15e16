/**
 Canonical operation bytes, whose digest detects reuse of an idempotency key. Two operations write the
 same bytes exactly when they are equal up to the order of claims inside each bundle.
 */
module CanonicalBytes {
  import opened Results
  import opened Bytes
  import opened Intervals
  import opened CapacityCurves
  import opened Domain
  import opened Payloads
  import opened CommandPayloads

  // ---- Prefix-free pieces ----

  /** Whatever follows the two pieces, equal bytes mean `same` and equal continuations. */
  ghost predicate Apart(p: seq<byte>, q: seq<byte>, same: bool) {
    forall x, y :: p + x == q + y ==> same && x == y
  }

  lemma ApartThen(p: seq<byte>, q: seq<byte>, same: bool, p': seq<byte>, q': seq<byte>, same': bool)
    requires Apart(p, q, same) && (same ==> Apart(p', q', same'))
    ensures Apart(p + p', q + q', same && same')
  {
    forall x, y | (p + p') + x == (q + q') + y
      ensures same && same' && x == y
    {
      assert (p + p') + x == p + (p' + x) && (q + q') + y == q + (q' + y);
      assert p' + x == q' + y;
    }
  }

  /** Pieces of equal length that only coincide when `same`. */
  lemma FixedApart(p: seq<byte>, q: seq<byte>, same: bool)
    requires |p| == |q| && (p == q ==> same)
    ensures Apart(p, q, same)
  {
    forall x, y | p + x == q + y
      ensures same && x == y
    {
      assert p == (p + x)[..|p|] == (q + y)[..|q|] == q;
      assert x == (p + x)[|p|..] == (q + y)[|q|..] == y;
    }
  }

  lemma EqualBytes(p: seq<byte>, q: seq<byte>, same: bool)
    requires Apart(p, q, same) && p == q
    ensures same
  {
    assert p + [] == q + [];
  }

  lemma U64Apart(m: int, n: int)
    requires FitsU64(m) && FitsU64(n)
    ensures Apart(U64Bytes(m), U64Bytes(n), m == n)
  {
    hide U64Bytes, FromLittleEndian, Apart;
    U64Exact(m);
    U64Exact(n);
    FixedApart(U64Bytes(m), U64Bytes(n), m == n);
  }

  lemma I64Apart(m: int, n: int)
    requires FitsI64(m) && FitsI64(n)
    ensures Apart(U64Bytes(m), U64Bytes(n), m == n)
  {
    hide U64Bytes, FromLittleEndian, Apart;
    I64Exact(m);
    I64Exact(n);
    FixedApart(U64Bytes(m), U64Bytes(n), m == n);
  }

  lemma IdApart(m: int, n: int)
    requires FitsId(m) && FitsId(n)
    ensures Apart(IdBytes(m), IdBytes(n), m == n)
  {
    hide IdBytes, FromBigEndian, Apart;
    IdExact(m);
    IdExact(n);
    FixedApart(IdBytes(m), IdBytes(n), m == n);
  }

  // ---- Collections ----

  lemma {:induction false} FlattenFirst(parts: seq<seq<byte>>)
    requires parts != []
    ensures Flatten(parts) == parts[0] + Flatten(parts[1..])
  {
    var n := |parts| - 1;
    if n == 0 {
      assert Flatten(parts[..0]) == [] && parts[1..] == [];
    } else {
      FlattenFirst(parts[..n]);
      assert parts[..n][1..] == parts[1..][..n - 1];
    }
  }

  lemma {:induction false} FlattenApart(a: seq<seq<byte>>, b: seq<seq<byte>>, same: seq<bool>)
    requires |a| == |b| == |same| && forall i :: 0 <= i < |a| ==> Apart(a[i], b[i], same[i])
    ensures Apart(Flatten(a), Flatten(b), forall i :: 0 <= i < |same| ==> same[i])
  {
    if a == [] {
      FixedApart([], [], true);
    } else {
      FlattenApart(a[1..], b[1..], same[1..]);
      FlattenFirst(a);
      FlattenFirst(b);
      ApartThen(a[0], b[0], same[0], Flatten(a[1..]), Flatten(b[1..]),
                forall i :: 0 <= i < |same[1..]| ==> same[1..][i]);
      assert same[0] && (forall i :: 0 <= i < |same[1..]| ==> same[1..][i])
             ==> forall i :: 0 <= i < |same| ==> same[i] by {
        if same[0] && forall i :: 0 <= i < |same[1..]| ==> same[1..][i] {
          forall i | 0 <= i < |same|
            ensures same[i]
          {
            assert i > 0 ==> same[1..][i - 1];
          }
        }
      }
    }
  }

  /** An 8-byte count, then every element. */
  function CountedBytes(parts: seq<seq<byte>>): seq<byte> {
    U64Bytes(|parts|) + Flatten(parts)
  }

  lemma CountedApart(a: seq<seq<byte>>, b: seq<seq<byte>>, same: seq<bool>, all: bool)
    requires |a| <= U64_MAX && |b| <= U64_MAX
    requires |a| == |b| ==> |same| == |a| && (forall i :: 0 <= i < |a| ==> Apart(a[i], b[i], same[i]))
                            && ((forall i :: 0 <= i < |same| ==> same[i]) ==> all)
    ensures Apart(CountedBytes(a), CountedBytes(b), |a| == |b| && all)
  {
    hide Apart, U64Bytes, Flatten;
    U64Apart(|a|, |b|);
    if |a| == |b| {
      FlattenApart(a, b, same);
      ApartWeaker(Flatten(a), Flatten(b), forall i :: 0 <= i < |same| ==> same[i], all);
    }
    ApartThen(U64Bytes(|a|), U64Bytes(|b|), |a| == |b|, Flatten(a), Flatten(b), all);
  }

  lemma ApartWeaker(p: seq<byte>, q: seq<byte>, same: bool, implied: bool)
    requires Apart(p, q, same) && (same ==> implied)
    ensures Apart(p, q, implied)
  {
  }

  function CanonicalString(text: Text, value: string): seq<byte> {
    U64Bytes(|text.encode(value)|) + text.encode(value)
  }

  lemma StringApart(text: Text, a: string, b: string)
    requires Lossless(text) && |text.encode(a)| <= U64_MAX && |text.encode(b)| <= U64_MAX
    ensures Apart(CanonicalString(text, a), CanonicalString(text, b), a == b)
  {
    hide Apart, U64Bytes;
    var p, q := text.encode(a), text.encode(b);
    assert text.decode(p) == Some(a) && text.decode(q) == Some(b);
    U64Apart(|p|, |q|);
    if |p| == |q| {
      FixedApart(p, q, a == b);
    }
    ApartThen(U64Bytes(|p|), U64Bytes(|q|), |p| == |q|, p, q, a == b);
    ApartWeaker(CanonicalString(text, a), CanonicalString(text, b), |p| == |q| && a == b, a == b);
  }

  // ---- Claims in canonical order ----

  /** What a claim or relative claim is sorted by, and all it consists of. */
  datatype ClaimKey = ClaimKey(pool: int, from: int, to: int, quantity: int)

  function KeyOf(claim: Claim): ClaimKey {
    ClaimKey(claim.poolId, claim.interval.start, claim.interval.end, claim.quantity)
  }

  function RelativeKeyOf(claim: RelativeClaim): ClaimKey {
    ClaimKey(claim.poolId, claim.startOffset, claim.endOffset, claim.quantity)
  }

  predicate KeyAtMost(a: ClaimKey, b: ClaimKey) {
    a.pool < b.pool
    || (a.pool == b.pool
        && (a.from < b.from
            || (a.from == b.from && (a.to < b.to || (a.to == b.to && a.quantity <= b.quantity)))))
  }

  function InsertKey(sorted: seq<ClaimKey>, k: ClaimKey): seq<ClaimKey> {
    if sorted == [] || KeyAtMost(sorted[|sorted| - 1], k) then sorted + [k]
    else
      var n := |sorted| - 1;
      InsertKey(sorted[..n], k) + [sorted[n]]
  }

  function SortKeys(keys: seq<ClaimKey>): seq<ClaimKey> {
    if keys == [] then [] else InsertKey(SortKeys(keys[..|keys| - 1]), keys[|keys| - 1])
  }

  ghost predicate KeysSorted(keys: seq<ClaimKey>) {
    forall i, j :: 0 <= i < j < |keys| ==> KeyAtMost(keys[i], keys[j])
  }

  lemma {:induction false} InsertKeyCorrect(sorted: seq<ClaimKey>, k: ClaimKey)
    requires KeysSorted(sorted)
    ensures KeysSorted(InsertKey(sorted, k)) && multiset(InsertKey(sorted, k)) == multiset(sorted) + multiset{k}
  {
    if !(sorted == [] || KeyAtMost(sorted[|sorted| - 1], k)) {
      InsertKeyCorrect(sorted[..|sorted| - 1], k);
      InsertedBelow(sorted, k, InsertKey(sorted[..|sorted| - 1], k));
    }
  }

  /** Keys inserted before the greatest one. */
  lemma InsertedBelow(sorted: seq<ClaimKey>, k: ClaimKey, inserted: seq<ClaimKey>)
    requires KeysSorted(sorted) && sorted != [] && !KeyAtMost(sorted[|sorted| - 1], k) && KeysSorted(inserted)
    requires multiset(inserted) == multiset(sorted[..|sorted| - 1]) + multiset{k}
    ensures KeysSorted(inserted + [sorted[|sorted| - 1]])
    ensures multiset(inserted + [sorted[|sorted| - 1]]) == multiset(sorted) + multiset{k}
  {
    var n := |sorted| - 1;
    assert sorted == sorted[..n] + [sorted[n]];
    forall i | 0 <= i < |inserted|
      ensures KeyAtMost(inserted[i], sorted[n])
    {
      assert inserted[i] in multiset(inserted);
      assert inserted[i] in multiset(sorted[..n]) || inserted[i] == k;
    }
  }

  lemma NoKeysSorted()
    ensures KeysSorted([])
  {
  }

  lemma {:induction false} SortKeysCorrect(keys: seq<ClaimKey>)
    ensures KeysSorted(SortKeys(keys)) && multiset(SortKeys(keys)) == multiset(keys)
  {
    if keys != [] {
      hide InsertKey, KeysSorted, KeyAtMost;
      var n := |keys| - 1;
      SortKeysCorrect(keys[..n]);
      InsertKeyCorrect(SortKeys(keys[..n]), keys[n]);
      assert keys == keys[..n] + [keys[n]];
    } else {
      NoKeysSorted();
    }
  }

  /** Sorted sequences of the same keys are equal. */
  lemma {:induction false} SortedUnique(a: seq<ClaimKey>, b: seq<ClaimKey>)
    requires KeysSorted(a) && KeysSorted(b) && multiset(a) == multiset(b)
    ensures a == b
  {
    hide *;
    SameSize(a, b);
    if a != [] {
      var n := |a| - 1;
      SameLast(a, b);
      WithoutLast(a);
      WithoutLast(b);
      KeysSortedPrefix(a);
      KeysSortedPrefix(b);
      SortedUnique(a[..n], b[..n]);
      assert a == a[..n] + [a[n]] && b == b[..n] + [b[n]];
    }
  }

  lemma SameSize(a: seq<ClaimKey>, b: seq<ClaimKey>)
    requires multiset(a) == multiset(b)
    ensures |a| == |b|
  {
    assert |multiset(a)| == |a| && |multiset(b)| == |b|;
  }

  lemma WithoutLast(a: seq<ClaimKey>)
    requires a != []
    ensures multiset(a[..|a| - 1]) == multiset(a) - multiset{a[|a| - 1]}
  {
    assert a == a[..|a| - 1] + [a[|a| - 1]];
  }

  lemma KeysSortedPrefix(keys: seq<ClaimKey>)
    requires KeysSorted(keys) && keys != []
    ensures KeysSorted(keys[..|keys| - 1])
  {
  }

  /** The greatest key comes last in both. */
  lemma SameLast(a: seq<ClaimKey>, b: seq<ClaimKey>)
    requires KeysSorted(a) && KeysSorted(b) && multiset(a) == multiset(b) && |a| == |b| && a != []
    ensures a[|a| - 1] == b[|b| - 1]
  {
    var lastA, lastB := a[|a| - 1], b[|b| - 1];
    assert lastA in multiset(a) && lastB in multiset(b);
    assert lastA in b && lastB in a;
  }

  /** Sorting identifies exactly the permutations. */
  lemma SortIdentifies(a: seq<ClaimKey>, b: seq<ClaimKey>)
    ensures SortKeys(a) == SortKeys(b) <==> multiset(a) == multiset(b)
  {
    hide KeysSorted, SortKeys;
    SortKeysCorrect(a);
    SortKeysCorrect(b);
    if multiset(a) == multiset(b) {
      SortedUnique(SortKeys(a), SortKeys(b));
    }
  }

  function KeyBytes(k: ClaimKey): seq<byte> {
    IdBytes(k.pool) + (U64Bytes(k.from) + (U64Bytes(k.to) + U64Bytes(k.quantity)))
  }

  predicate FitsKey(k: ClaimKey) {
    FitsId(k.pool) && FitsI64(k.from) && FitsI64(k.to) && FitsU64(k.quantity)
  }

  lemma KeyApart(a: ClaimKey, b: ClaimKey)
    requires FitsKey(a) && FitsKey(b)
    ensures Apart(KeyBytes(a), KeyBytes(b), a == b)
  {
    hide Apart, U64Bytes, IdBytes;
    IdApart(a.pool, b.pool);
    I64Apart(a.from, b.from);
    I64Apart(a.to, b.to);
    U64Apart(a.quantity, b.quantity);
    ApartThen(U64Bytes(a.to), U64Bytes(b.to), a.to == b.to, U64Bytes(a.quantity), U64Bytes(b.quantity),
              a.quantity == b.quantity);
    ApartThen(U64Bytes(a.from), U64Bytes(b.from), a.from == b.from, U64Bytes(a.to) + U64Bytes(a.quantity),
              U64Bytes(b.to) + U64Bytes(b.quantity), a.to == b.to && a.quantity == b.quantity);
    ApartThen(IdBytes(a.pool), IdBytes(b.pool), a.pool == b.pool,
              U64Bytes(a.from) + (U64Bytes(a.to) + U64Bytes(a.quantity)),
              U64Bytes(b.from) + (U64Bytes(b.to) + U64Bytes(b.quantity)),
              a.from == b.from && a.to == b.to && a.quantity == b.quantity);
  }

  function KeyParts(keys: seq<ClaimKey>): (parts: seq<seq<byte>>)
    ensures |parts| == |keys| && forall i :: 0 <= i < |keys| ==> parts[i] == KeyBytes(keys[i])
  {
    seq(|keys|, i requires 0 <= i < |keys| => KeyBytes(keys[i]))
  }

  function CanonicalKeys(keys: seq<ClaimKey>): seq<byte> {
    CountedBytes(KeyParts(SortKeys(keys)))
  }

  predicate FitsKeys(keys: seq<ClaimKey>) {
    |keys| <= U64_MAX && forall i :: 0 <= i < |keys| ==> FitsKey(keys[i])
  }

  lemma SortedFit(keys: seq<ClaimKey>)
    requires FitsKeys(keys)
    ensures FitsKeys(SortKeys(keys)) && |SortKeys(keys)| == |keys|
  {
    hide SortKeys, KeysSorted, FitsKey;
    SortKeysCorrect(keys);
    var sorted := SortKeys(keys);
    assert |multiset(sorted)| == |sorted| && |multiset(keys)| == |keys|;
    forall i | 0 <= i < |sorted|
      ensures FitsKey(sorted[i])
    {
      assert sorted[i] in multiset(keys);
    }
  }

  lemma KeysApart(a: seq<ClaimKey>, b: seq<ClaimKey>)
    requires FitsKeys(a) && FitsKeys(b)
    ensures Apart(CanonicalKeys(a), CanonicalKeys(b), multiset(a) == multiset(b))
  {
    hide Apart, SortKeys, KeyBytes, CountedBytes, FitsKey;
    SortedFit(a);
    SortedFit(b);
    SortIdentifies(a, b);
    var x, y := SortKeys(a), SortKeys(b);
    var same := if |x| == |y| then seq(|x|, i requires 0 <= i < |x| && |x| == |y| => x[i] == y[i]) else [];
    if |x| == |y| {
      forall i | 0 <= i < |x|
        ensures Apart(KeyParts(x)[i], KeyParts(y)[i], same[i])
      {
        KeyApart(x[i], y[i]);
      }
      if forall i :: 0 <= i < |same| ==> same[i] {
        forall i | 0 <= i < |x|
          ensures x[i] == y[i]
        {
          assert same[i];
        }
        assert x == y;
      }
    }
    CountedApart(KeyParts(x), KeyParts(y), same, multiset(a) == multiset(b));
    ApartWeaker(CanonicalKeys(a), CanonicalKeys(b), |x| == |y| && multiset(a) == multiset(b),
                multiset(a) == multiset(b));
  }

  // ---- Bundles ----

  function ClaimKeys(claims: seq<Claim>): (keys: seq<ClaimKey>)
    ensures |keys| == |claims| && forall i :: 0 <= i < |claims| ==> keys[i] == KeyOf(claims[i])
  {
    seq(|claims|, i requires 0 <= i < |claims| => KeyOf(claims[i]))
  }

  function RelativeKeys(claims: seq<RelativeClaim>): (keys: seq<ClaimKey>)
    ensures |keys| == |claims| && forall i :: 0 <= i < |claims| ==> keys[i] == RelativeKeyOf(claims[i])
  {
    seq(|claims|, i requires 0 <= i < |claims| => RelativeKeyOf(claims[i]))
  }

  lemma {:induction false} ClaimCounts(claims: seq<Claim>, claim: Claim)
    ensures multiset(ClaimKeys(claims))[KeyOf(claim)] == multiset(claims)[claim]
  {
    if claims != [] {
      var n := |claims| - 1;
      ClaimCounts(claims[..n], claim);
      assert claims == claims[..n] + [claims[n]];
      assert ClaimKeys(claims) == ClaimKeys(claims[..n]) + [KeyOf(claims[n])];
    }
  }

  lemma {:induction false} RelativeCounts(claims: seq<RelativeClaim>, claim: RelativeClaim)
    ensures multiset(RelativeKeys(claims))[RelativeKeyOf(claim)] == multiset(claims)[claim]
  {
    if claims != [] {
      var n := |claims| - 1;
      RelativeCounts(claims[..n], claim);
      assert claims == claims[..n] + [claims[n]];
      assert RelativeKeys(claims) == RelativeKeys(claims[..n]) + [RelativeKeyOf(claims[n])];
    }
  }

  /** Keys lose nothing: permuted keys are permuted claims. */
  lemma ClaimsPermuted(a: seq<Claim>, b: seq<Claim>)
    ensures multiset(ClaimKeys(a)) == multiset(ClaimKeys(b)) <==> multiset(a) == multiset(b)
  {
    forall claim
      ensures multiset(ClaimKeys(a))[KeyOf(claim)] == multiset(a)[claim]
              && multiset(ClaimKeys(b))[KeyOf(claim)] == multiset(b)[claim]
    {
      ClaimCounts(a, claim);
      ClaimCounts(b, claim);
    }
    if multiset(a) == multiset(b) {
      forall k: ClaimKey
        ensures multiset(ClaimKeys(a))[k] == multiset(ClaimKeys(b))[k]
      {
        assert KeyOf(Claim(k.pool, Interval(k.from, k.to), k.quantity)) == k;
      }
    }
    if multiset(ClaimKeys(a)) == multiset(ClaimKeys(b)) {
      forall claim
        ensures multiset(a)[claim] == multiset(b)[claim]
      {
        assert multiset(ClaimKeys(a))[KeyOf(claim)] == multiset(ClaimKeys(b))[KeyOf(claim)];
      }
    }
  }

  lemma RelativePermuted(a: seq<RelativeClaim>, b: seq<RelativeClaim>)
    ensures multiset(RelativeKeys(a)) == multiset(RelativeKeys(b)) <==> multiset(a) == multiset(b)
  {
    forall claim
      ensures multiset(RelativeKeys(a))[RelativeKeyOf(claim)] == multiset(a)[claim]
              && multiset(RelativeKeys(b))[RelativeKeyOf(claim)] == multiset(b)[claim]
    {
      RelativeCounts(a, claim);
      RelativeCounts(b, claim);
    }
    if multiset(a) == multiset(b) {
      forall k: ClaimKey
        ensures multiset(RelativeKeys(a))[k] == multiset(RelativeKeys(b))[k]
      {
        assert RelativeKeyOf(RelativeClaim(k.pool, k.from, k.to, k.quantity)) == k;
      }
    }
    if multiset(RelativeKeys(a)) == multiset(RelativeKeys(b)) {
      forall claim
        ensures multiset(a)[claim] == multiset(b)[claim]
      {
        assert multiset(RelativeKeys(a))[RelativeKeyOf(claim)] == multiset(RelativeKeys(b))[RelativeKeyOf(claim)];
      }
    }
  }

  function CanonicalBundle(bundle: Bundle): seq<byte> {
    CanonicalKeys(ClaimKeys(bundle))
  }

  function CanonicalRelative(claims: seq<RelativeClaim>): seq<byte> {
    CanonicalKeys(RelativeKeys(claims))
  }

  lemma BundleApart(a: Bundle, b: Bundle)
    requires FitsBundle(a) && FitsBundle(b) && |a| <= U64_MAX && |b| <= U64_MAX
    ensures Apart(CanonicalBundle(a), CanonicalBundle(b), multiset(a) == multiset(b))
  {
    hide Apart, CanonicalKeys;
    ClaimsPermuted(a, b);
    forall i | 0 <= i < |a|
      ensures FitsKey(ClaimKeys(a)[i])
    {
      assert FitsClaim(a[i]);
    }
    forall i | 0 <= i < |b|
      ensures FitsKey(ClaimKeys(b)[i])
    {
      assert FitsClaim(b[i]);
    }
    KeysApart(ClaimKeys(a), ClaimKeys(b));
  }

  lemma RelativeApart(a: seq<RelativeClaim>, b: seq<RelativeClaim>)
    requires FitsRelative(a) && FitsRelative(b) && |a| <= U64_MAX && |b| <= U64_MAX
    ensures Apart(CanonicalRelative(a), CanonicalRelative(b), multiset(a) == multiset(b))
  {
    hide Apart, CanonicalKeys;
    RelativePermuted(a, b);
    KeysApart(RelativeKeys(a), RelativeKeys(b));
  }

  function CanonicalAlternatives(choice: seq<Bundle>): (parts: seq<seq<byte>>)
    ensures |parts| == |choice| && forall i :: 0 <= i < |choice| ==> parts[i] == CanonicalBundle(choice[i])
  {
    seq(|choice|, i requires 0 <= i < |choice| => CanonicalBundle(choice[i]))
  }

  function CanonicalChoice(choice: seq<Bundle>): seq<byte> {
    CountedBytes(CanonicalAlternatives(choice))
  }

  /** The same alternatives in the same order, each up to claim order. */
  ghost predicate SameChoice(a: seq<Bundle>, b: seq<Bundle>) {
    |a| == |b| && forall i :: 0 <= i < |a| ==> multiset(a[i]) == multiset(b[i])
  }

  ghost predicate CountedChoice(choice: seq<Bundle>) {
    |choice| <= U64_MAX && forall i :: 0 <= i < |choice| ==> |choice[i]| <= U64_MAX
  }

  lemma ChoiceApart(a: seq<Bundle>, b: seq<Bundle>)
    requires FitsChoice(a) && FitsChoice(b) && CountedChoice(a) && CountedChoice(b)
    ensures Apart(CanonicalChoice(a), CanonicalChoice(b), SameChoice(a, b))
  {
    hide Apart, CanonicalBundle, CountedBytes, FitsBundle;
    var p, q := CanonicalAlternatives(a), CanonicalAlternatives(b);
    ghost var same :=
      if |a| == |b| then seq(|a|, i requires 0 <= i < |a| && |a| == |b| => multiset(a[i]) == multiset(b[i])) else [];
    if |a| == |b| {
      forall i | 0 <= i < |a|
        ensures Apart(p[i], q[i], same[i])
      {
        BundleApart(a[i], b[i]);
      }
      if forall i :: 0 <= i < |same| ==> same[i] {
        forall i | 0 <= i < |a|
          ensures multiset(a[i]) == multiset(b[i])
        {
          assert same[i];
        }
      }
    }
    CountedApart(p, q, same, SameChoice(a, b));
    ApartWeaker(CanonicalChoice(a), CanonicalChoice(b), |p| == |q| && SameChoice(a, b), SameChoice(a, b));
  }

  // ---- Units and curves ----

  function CanonicalUnit(text: Text, unit: Unit): seq<byte> {
    CanonicalString(text, unit.name) + U64Bytes(unit.subunitsPerUnit)
  }

  lemma UnitApart(text: Text, a: Unit, b: Unit)
    requires Lossless(text) && FitsUnit(text, a) && FitsUnit(text, b)
    requires |text.encode(a.name)| <= U64_MAX && |text.encode(b.name)| <= U64_MAX
    ensures Apart(CanonicalUnit(text, a), CanonicalUnit(text, b), a == b)
  {
    hide Apart, CanonicalString, U64Bytes;
    StringApart(text, a.name, b.name);
    U64Apart(a.subunitsPerUnit, b.subunitsPerUnit);
    ApartThen(CanonicalString(text, a.name), CanonicalString(text, b.name), a.name == b.name,
              U64Bytes(a.subunitsPerUnit), U64Bytes(b.subunitsPerUnit), a.subunitsPerUnit == b.subunitsPerUnit);
  }

  function CanonicalCurve(curve: seq<CapacitySegment>): seq<byte> {
    CountedBytes(SegmentParts(curve))
  }

  lemma SegmentApart(a: CapacitySegment, b: CapacitySegment)
    requires FitsInterval(a.interval) && FitsU64(a.capacity) && FitsInterval(b.interval) && FitsU64(b.capacity)
    ensures Apart(SegmentBytes(a), SegmentBytes(b), a == b)
  {
    hide Apart, U64Bytes;
    I64Apart(a.interval.start, b.interval.start);
    I64Apart(a.interval.end, b.interval.end);
    U64Apart(a.capacity, b.capacity);
    ApartThen(U64Bytes(a.interval.start), U64Bytes(b.interval.start), a.interval.start == b.interval.start,
              U64Bytes(a.interval.end), U64Bytes(b.interval.end), a.interval.end == b.interval.end);
    ApartThen(IntervalBytes(a.interval), IntervalBytes(b.interval), a.interval == b.interval,
              U64Bytes(a.capacity), U64Bytes(b.capacity), a.capacity == b.capacity);
  }

  lemma CurveApart(a: seq<CapacitySegment>, b: seq<CapacitySegment>)
    requires FitsCurve(a) && FitsCurve(b) && |a| <= U64_MAX && |b| <= U64_MAX
    ensures Apart(CanonicalCurve(a), CanonicalCurve(b), a == b)
  {
    hide Apart, SegmentBytes, CountedBytes;
    var same := if |a| == |b| then seq(|a|, i requires 0 <= i < |a| && |a| == |b| => a[i] == b[i]) else [];
    if |a| == |b| {
      forall i | 0 <= i < |a|
        ensures Apart(SegmentParts(a)[i], SegmentParts(b)[i], same[i])
      {
        SegmentApart(a[i], b[i]);
      }
      if forall i :: 0 <= i < |same| ==> same[i] {
        forall i | 0 <= i < |a|
          ensures a[i] == b[i]
        {
          assert same[i];
        }
        assert a == b;
      }
    }
    CountedApart(SegmentParts(a), SegmentParts(b), same, a == b);
    ApartWeaker(CanonicalCurve(a), CanonicalCurve(b), |a| == |b| && a == b, a == b);
  }

  lemma ModeApart(a: RevisionMode, b: RevisionMode)
    ensures Apart([ModeByte(a)], [ModeByte(b)], a == b)
  {
    hide Apart;
    FixedApart([ModeByte(a)], [ModeByte(b)], a == b);
  }

  lemma NewStateApart(a: ReplacementState, b: ReplacementState)
    requires (a.ReplacedHeld? ==> FitsI64(a.deadline)) && (b.ReplacedHeld? ==> FitsI64(b.deadline))
    ensures Apart(NewStateBytes(a), NewStateBytes(b), a == b)
  {
    hide Apart, U64Bytes;
    if a.ReplacedHeld? && b.ReplacedHeld? {
      FixedApart([1], [1], true);
      I64Apart(a.deadline, b.deadline);
      ApartThen([1], [1], true, U64Bytes(a.deadline), U64Bytes(b.deadline), a == b);
    } else if a.ReplacedCommitted? && b.ReplacedCommitted? {
      FixedApart([2], [2], true);
    } else {
      DifferentTags(a, b);
    }
  }

  lemma DifferentTags(a: ReplacementState, b: ReplacementState)
    requires a.ReplacedHeld? <==> b.ReplacedCommitted?
    ensures Apart(NewStateBytes(a), NewStateBytes(b), false)
  {
    forall x, y
      ensures NewStateBytes(a) + x != NewStateBytes(b) + y
    {
      assert (NewStateBytes(a) + x)[0] != (NewStateBytes(b) + y)[0];
    }
  }

  // ---- Operations ----

  /** The fields behind the tag, with claims in canonical order. */
  function CanonicalFields(text: Text, operation: Operation): seq<byte> {
    match operation
    case CreateResourcePool(poolId, displayName, unit, curve) =>
      IdBytes(poolId) + (CanonicalString(text, displayName) + (CanonicalUnit(text, unit) + CanonicalCurve(curve)))
    case ReviseCapacity(poolId, curve, mode) => IdBytes(poolId) + (CanonicalCurve(curve) + [ModeByte(mode)])
    case Hold(promiseId, bundle, expiresAt) => IdBytes(promiseId) + (CanonicalBundle(bundle) + U64Bytes(expiresAt))
    case HoldOneOf(promiseId, choice, expiresAt) => IdBytes(promiseId) + (CanonicalChoice(choice) + U64Bytes(expiresAt))
    case HoldFirstSlot(promiseId, relative, earliest, latest, step, expiresAt) =>
      IdBytes(promiseId)
      + (CanonicalRelative(relative)
         + (U64Bytes(earliest) + (U64Bytes(latest) + (U64Bytes(step) + U64Bytes(expiresAt)))))
    case Commit(promiseId, expectedVersion) => IdBytes(promiseId) + U64Bytes(expectedVersion)
    case Release(promiseId, expectedVersion) => IdBytes(promiseId) + U64Bytes(expectedVersion)
    case Replace(promiseId, expectedVersion, newBundle, newState) =>
      IdBytes(promiseId) + (U64Bytes(expectedVersion) + (CanonicalBundle(newBundle) + NewStateBytes(newState)))
    case ProcessExpirations => []
  }

  function CanonicalOperation(text: Text, operation: Operation): seq<byte> {
    [TagOf(operation)] + CanonicalFields(text, operation)
  }

  /** Lengths of collections and texts in memory fit 64 bits. */
  ghost predicate CountedOperation(text: Text, operation: Operation) {
    match operation
    case CreateResourcePool(_, displayName, unit, curve) =>
      |text.encode(displayName)| <= U64_MAX && |text.encode(unit.name)| <= U64_MAX && |curve| <= U64_MAX
    case ReviseCapacity(_, curve, _) => |curve| <= U64_MAX
    case Hold(_, bundle, _) => |bundle| <= U64_MAX
    case HoldOneOf(_, choice, _) => CountedChoice(choice)
    case HoldFirstSlot(_, relative, _, _, _, _) => |relative| <= U64_MAX
    case Replace(_, _, newBundle, _) => |newBundle| <= U64_MAX
    case _ => true
  }

  /** Equal up to the order of claims inside each bundle; alternatives keep their order. */
  ghost predicate SameOperation(a: Operation, b: Operation) {
    match a
    case Hold(promiseId, bundle, expiresAt) =>
      b.Hold? && promiseId == b.promiseId && multiset(bundle) == multiset(b.bundle) && expiresAt == b.expiresAt
    case HoldOneOf(promiseId, choice, expiresAt) =>
      b.HoldOneOf? && promiseId == b.promiseId && SameChoice(choice, b.choice) && expiresAt == b.expiresAt
    case HoldFirstSlot(promiseId, relative, earliest, latest, step, expiresAt) =>
      && b.HoldFirstSlot? && promiseId == b.promiseId && multiset(relative) == multiset(b.relative)
      && earliest == b.earliest && latest == b.latest && step == b.step && expiresAt == b.expiresAt
    case Replace(promiseId, expectedVersion, newBundle, newState) =>
      && b.Replace? && promiseId == b.promiseId && expectedVersion == b.expectedVersion
      && multiset(newBundle) == multiset(b.newBundle) && newState == b.newState
    case _ => a == b
  }

  /** An operation whose values lie in their machine types. */
  ghost predicate TypedOperation(text: Text, operation: Operation) {
    FitsOperation(text, operation) && CountedOperation(text, operation)
  }

  lemma CreateResourcePoolApart(text: Text, a: Operation, b: Operation)
    requires Lossless(text) && a.CreateResourcePool? && b.CreateResourcePool? && TypedOperation(text, a)
             && TypedOperation(text, b)
    ensures Apart(CanonicalFields(text, a), CanonicalFields(text, b), SameOperation(a, b))
  {
    hide Apart, IdBytes, CanonicalString, CanonicalUnit, CanonicalCurve;
    var p0, q0, same0 := IdBytes(a.poolId), IdBytes(b.poolId), a.poolId == b.poolId;
    var p1, q1, same1 := CanonicalString(text, a.displayName), CanonicalString(text, b.displayName),
                         a.displayName == b.displayName;
    var p2, q2, same2 := CanonicalUnit(text, a.unit), CanonicalUnit(text, b.unit), a.unit == b.unit;
    var p3, q3, same3 := CanonicalCurve(a.curve), CanonicalCurve(b.curve), a.curve == b.curve;
    IdApart(a.poolId, b.poolId);
    StringApart(text, a.displayName, b.displayName);
    UnitApart(text, a.unit, b.unit);
    CurveApart(a.curve, b.curve);
    ApartThen(p2, q2, same2, p3, q3, same3);
    ApartThen(p1, q1, same1, p2 + p3, q2 + q3, same2 && same3);
    ApartThen(p0, q0, same0, p1 + (p2 + p3), q1 + (q2 + q3), same1 && same2 && same3);
  }

  lemma ReviseCapacityApart(text: Text, a: Operation, b: Operation)
    requires Lossless(text) && a.ReviseCapacity? && b.ReviseCapacity? && TypedOperation(text, a)
             && TypedOperation(text, b)
    ensures Apart(CanonicalFields(text, a), CanonicalFields(text, b), SameOperation(a, b))
  {
    hide Apart, IdBytes, CanonicalCurve;
    var p0, q0, same0 := IdBytes(a.poolId), IdBytes(b.poolId), a.poolId == b.poolId;
    var p1, q1, same1 := CanonicalCurve(a.curve), CanonicalCurve(b.curve), a.curve == b.curve;
    var p2, q2, same2 := [ModeByte(a.mode)], [ModeByte(b.mode)], a.mode == b.mode;
    IdApart(a.poolId, b.poolId);
    CurveApart(a.curve, b.curve);
    ModeApart(a.mode, b.mode);
    ApartThen(p1, q1, same1, p2, q2, same2);
    ApartThen(p0, q0, same0, p1 + p2, q1 + q2, same1 && same2);
  }

  lemma HoldApart(text: Text, a: Operation, b: Operation)
    requires Lossless(text) && a.Hold? && b.Hold? && TypedOperation(text, a) && TypedOperation(text, b)
    ensures Apart(CanonicalFields(text, a), CanonicalFields(text, b), SameOperation(a, b))
  {
    hide Apart, U64Bytes, IdBytes, CanonicalBundle;
    var p0, q0, same0 := IdBytes(a.promiseId), IdBytes(b.promiseId), a.promiseId == b.promiseId;
    var p1, q1, same1 := CanonicalBundle(a.bundle), CanonicalBundle(b.bundle), multiset(a.bundle) == multiset(b.bundle);
    var p2, q2, same2 := U64Bytes(a.expiresAt), U64Bytes(b.expiresAt), a.expiresAt == b.expiresAt;
    IdApart(a.promiseId, b.promiseId);
    BundleApart(a.bundle, b.bundle);
    I64Apart(a.expiresAt, b.expiresAt);
    ApartThen(p1, q1, same1, p2, q2, same2);
    ApartThen(p0, q0, same0, p1 + p2, q1 + q2, same1 && same2);
  }

  lemma HoldOneOfApart(text: Text, a: Operation, b: Operation)
    requires Lossless(text) && a.HoldOneOf? && b.HoldOneOf? && TypedOperation(text, a) && TypedOperation(text, b)
    ensures Apart(CanonicalFields(text, a), CanonicalFields(text, b), SameOperation(a, b))
  {
    hide Apart, U64Bytes, IdBytes, CanonicalChoice, SameChoice;
    var p0, q0, same0 := IdBytes(a.promiseId), IdBytes(b.promiseId), a.promiseId == b.promiseId;
    var p1, q1, same1 := CanonicalChoice(a.choice), CanonicalChoice(b.choice), SameChoice(a.choice, b.choice);
    var p2, q2, same2 := U64Bytes(a.expiresAt), U64Bytes(b.expiresAt), a.expiresAt == b.expiresAt;
    IdApart(a.promiseId, b.promiseId);
    ChoiceApart(a.choice, b.choice);
    I64Apart(a.expiresAt, b.expiresAt);
    ApartThen(p1, q1, same1, p2, q2, same2);
    ApartThen(p0, q0, same0, p1 + p2, q1 + q2, same1 && same2);
  }

  lemma HoldFirstSlotApart(text: Text, a: Operation, b: Operation)
    requires Lossless(text) && a.HoldFirstSlot? && b.HoldFirstSlot? && TypedOperation(text, a)
             && TypedOperation(text, b)
    ensures Apart(CanonicalFields(text, a), CanonicalFields(text, b), SameOperation(a, b))
  {
    hide Apart, U64Bytes, IdBytes, CanonicalRelative;
    var p0, q0, same0 := IdBytes(a.promiseId), IdBytes(b.promiseId), a.promiseId == b.promiseId;
    var p1, q1, same1 := CanonicalRelative(a.relative), CanonicalRelative(b.relative),
                         multiset(a.relative) == multiset(b.relative);
    var p2, q2, same2 := U64Bytes(a.earliest), U64Bytes(b.earliest), a.earliest == b.earliest;
    var p3, q3, same3 := U64Bytes(a.latest), U64Bytes(b.latest), a.latest == b.latest;
    var p4, q4, same4 := U64Bytes(a.step), U64Bytes(b.step), a.step == b.step;
    var p5, q5, same5 := U64Bytes(a.expiresAt), U64Bytes(b.expiresAt), a.expiresAt == b.expiresAt;
    IdApart(a.promiseId, b.promiseId);
    RelativeApart(a.relative, b.relative);
    I64Apart(a.earliest, b.earliest);
    I64Apart(a.latest, b.latest);
    I64Apart(a.step, b.step);
    I64Apart(a.expiresAt, b.expiresAt);
    ApartThen(p4, q4, same4, p5, q5, same5);
    ApartThen(p3, q3, same3, p4 + p5, q4 + q5, same4 && same5);
    ApartThen(p2, q2, same2, p3 + (p4 + p5), q3 + (q4 + q5), same3 && same4 && same5);
    ApartThen(p1, q1, same1, p2 + (p3 + (p4 + p5)), q2 + (q3 + (q4 + q5)), same2 && same3 && same4 && same5);
    ApartThen(p0, q0, same0, p1 + (p2 + (p3 + (p4 + p5))), q1 + (q2 + (q3 + (q4 + q5))),
              same1 && same2 && same3 && same4 && same5);
  }

  lemma CommitApart(text: Text, a: Operation, b: Operation)
    requires Lossless(text) && a.Commit? && b.Commit? && TypedOperation(text, a) && TypedOperation(text, b)
    ensures Apart(CanonicalFields(text, a), CanonicalFields(text, b), SameOperation(a, b))
  {
    hide Apart, U64Bytes, IdBytes;
    var p0, q0, same0 := IdBytes(a.promiseId), IdBytes(b.promiseId), a.promiseId == b.promiseId;
    var p1, q1, same1 := U64Bytes(a.expectedVersion), U64Bytes(b.expectedVersion),
                         a.expectedVersion == b.expectedVersion;
    IdApart(a.promiseId, b.promiseId);
    U64Apart(a.expectedVersion, b.expectedVersion);
    ApartThen(p0, q0, same0, p1, q1, same1);
  }

  lemma ReleaseApart(text: Text, a: Operation, b: Operation)
    requires Lossless(text) && a.Release? && b.Release? && TypedOperation(text, a) && TypedOperation(text, b)
    ensures Apart(CanonicalFields(text, a), CanonicalFields(text, b), SameOperation(a, b))
  {
    hide Apart, U64Bytes, IdBytes;
    var p0, q0, same0 := IdBytes(a.promiseId), IdBytes(b.promiseId), a.promiseId == b.promiseId;
    var p1, q1, same1 := U64Bytes(a.expectedVersion), U64Bytes(b.expectedVersion),
                         a.expectedVersion == b.expectedVersion;
    IdApart(a.promiseId, b.promiseId);
    U64Apart(a.expectedVersion, b.expectedVersion);
    ApartThen(p0, q0, same0, p1, q1, same1);
  }

  lemma ReplaceApart(text: Text, a: Operation, b: Operation)
    requires Lossless(text) && a.Replace? && b.Replace? && TypedOperation(text, a) && TypedOperation(text, b)
    ensures Apart(CanonicalFields(text, a), CanonicalFields(text, b), SameOperation(a, b))
  {
    hide Apart, U64Bytes, IdBytes, CanonicalBundle, NewStateBytes;
    var p0, q0, same0 := IdBytes(a.promiseId), IdBytes(b.promiseId), a.promiseId == b.promiseId;
    var p1, q1, same1 := U64Bytes(a.expectedVersion), U64Bytes(b.expectedVersion),
                         a.expectedVersion == b.expectedVersion;
    var p2, q2, same2 := CanonicalBundle(a.newBundle), CanonicalBundle(b.newBundle),
                         multiset(a.newBundle) == multiset(b.newBundle);
    var p3, q3, same3 := NewStateBytes(a.newState), NewStateBytes(b.newState), a.newState == b.newState;
    IdApart(a.promiseId, b.promiseId);
    U64Apart(a.expectedVersion, b.expectedVersion);
    BundleApart(a.newBundle, b.newBundle);
    NewStateApart(a.newState, b.newState);
    ApartThen(p2, q2, same2, p3, q3, same3);
    ApartThen(p1, q1, same1, p2 + p3, q2 + q3, same2 && same3);
    ApartThen(p0, q0, same0, p1 + (p2 + p3), q1 + (q2 + q3), same1 && same2 && same3);
  }

  lemma FieldsApart(text: Text, a: Operation, b: Operation)
    requires Lossless(text) && TagOf(a) == TagOf(b) && TypedOperation(text, a) && TypedOperation(text, b)
    ensures Apart(CanonicalFields(text, a), CanonicalFields(text, b), SameOperation(a, b))
  {
    hide Apart, CanonicalFields, SameOperation, TypedOperation;
    match a
    case CreateResourcePool(_, _, _, _) => CreateResourcePoolApart(text, a, b);
    case ReviseCapacity(_, _, _) => ReviseCapacityApart(text, a, b);
    case Hold(_, _, _) => HoldApart(text, a, b);
    case HoldOneOf(_, _, _) => HoldOneOfApart(text, a, b);
    case HoldFirstSlot(_, _, _, _, _, _) => HoldFirstSlotApart(text, a, b);
    case Commit(_, _) => CommitApart(text, a, b);
    case Release(_, _) => ReleaseApart(text, a, b);
    case Replace(_, _, _, _) => ReplaceApart(text, a, b);
    case ProcessExpirations => ExpirationsApart(text, a, b);
  }

  lemma ExpirationsApart(text: Text, a: Operation, b: Operation)
    requires a.ProcessExpirations? && b.ProcessExpirations?
    ensures Apart(CanonicalFields(text, a), CanonicalFields(text, b), SameOperation(a, b))
  {
    hide Apart;
    FixedApart([], [], true);
  }

  lemma SameTags(a: Operation, b: Operation)
    requires SameOperation(a, b)
    ensures TagOf(a) == TagOf(b)
  {
  }

  /** Permuting claims changes no byte. */
  lemma SameWritten(text: Text, a: Operation, b: Operation)
    requires SameOperation(a, b)
    ensures CanonicalFields(text, a) == CanonicalFields(text, b)
  {
    hide CanonicalKeys, CanonicalUnit, CanonicalCurve, CanonicalString, CountedBytes, NewStateBytes;
    match a
    case Hold(_, bundle, _) => BundleWritten(bundle, b.bundle);
    case HoldOneOf(_, choice, _) =>
      forall i | 0 <= i < |choice|
        ensures CanonicalBundle(choice[i]) == CanonicalBundle(b.choice[i])
      {
        BundleWritten(choice[i], b.choice[i]);
      }
      assert CanonicalAlternatives(choice) == CanonicalAlternatives(b.choice);
    case HoldFirstSlot(_, relative, _, _, _, _) =>
      RelativePermuted(relative, b.relative);
      KeysWritten(RelativeKeys(relative), RelativeKeys(b.relative));
    case Replace(_, _, newBundle, _) => BundleWritten(newBundle, b.newBundle);
    case _ =>
  }

  lemma BundleWritten(a: Bundle, b: Bundle)
    requires multiset(a) == multiset(b)
    ensures CanonicalBundle(a) == CanonicalBundle(b)
  {
    hide CanonicalKeys;
    ClaimsPermuted(a, b);
    KeysWritten(ClaimKeys(a), ClaimKeys(b));
  }

  lemma KeysWritten(a: seq<ClaimKey>, b: seq<ClaimKey>)
    requires multiset(a) == multiset(b)
    ensures CanonicalKeys(a) == CanonicalKeys(b)
  {
    hide SortKeys;
    SortIdentifies(a, b);
  }

  /**
   Canonical bytes are injective up to claim order: two operations write the same bytes exactly when they
   are equal after permuting claims inside each bundle or relative bundle.
   */
  lemma CanonicalExactly(text: Text, a: Operation, b: Operation)
    requires Lossless(text) && TypedOperation(text, a) && TypedOperation(text, b)
    ensures CanonicalOperation(text, a) == CanonicalOperation(text, b) <==> SameOperation(a, b)
  {
    hide Apart, CanonicalFields, TagOf, SameOperation, TypedOperation;
    FixedApart([TagOf(a)], [TagOf(b)], TagOf(a) == TagOf(b));
    if TagOf(a) == TagOf(b) {
      FieldsApart(text, a, b);
    }
    ApartThen([TagOf(a)], [TagOf(b)], TagOf(a) == TagOf(b), CanonicalFields(text, a), CanonicalFields(text, b),
              SameOperation(a, b));
    if CanonicalOperation(text, a) == CanonicalOperation(text, b) {
      EqualBytes(CanonicalOperation(text, a), CanonicalOperation(text, b), TagOf(a) == TagOf(b) && SameOperation(a, b));
    }
    if SameOperation(a, b) {
      SameTags(a, b);
      SameWritten(text, a, b);
    }
  }
}
