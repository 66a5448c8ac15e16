/**
 What a capacity revision answers and logs, told by slack before and after it: its deficits, the promises
 they affect, and one event for every deficit that disappeared, appeared or changed.
 */
module RevisionOutcomes {
  import opened Results
  import opened Intervals
  import opened StepFunctions
  import opened SlackTimelines
  import opened CapacityCurves
  import opened Domain
  import opened OrderedKeys
  import opened TimelineRebuild
  import opened Transitions
  import opened ActiveUsage
  import opened EngineInvariants
  import opened EngineSafety
  import opened EngineGuarantees

  // ---- Deficits as pieces of slack ----

  /** Over the whole interval slack is short by exactly this amount, and the interval extends no further. */
  ghost predicate DeficitPiece(points: seq<SlackPoint>, interval: Interval, amount: int) {
    && interval.Valid() && 0 < amount
    && (forall t :: interval.Contains(t) ==> At(0, points, t) == -amount)
    && At(0, points, interval.start - 1) != -amount && At(0, points, interval.end) != -amount
  }

  ghost predicate NegativeIn(points: seq<SlackPoint>, interval: Interval) {
    exists t :: interval.Contains(t) && At(0, points, t) < 0
  }

  lemma {:induction false} DeficitSpans(points: seq<SlackPoint>, i: nat) returns (k: nat)
    requires i < |Deficits(points)|
    ensures k + 1 < |points| && points[k].slack < 0
    ensures Deficits(points)[i]
            == SlackDeficit(Interval(points[k].timestamp, points[k + 1].timestamp), -points[k].slack)
  {
    var n := |points| - 1;
    if i < |Deficits(points[..n])| {
      k := DeficitSpans(points[..n], i);
    } else {
      k := n - 1;
    }
  }

  /** A reported deficit extends no further: its neighbouring points differ. */
  lemma ReportedIsPiece(points: seq<SlackPoint>, i: nat)
    requires Canonical(points) && i < |Deficits(points)|
    ensures DeficitPiece(points, Deficits(points)[i].interval, Deficits(points)[i].amount)
  {
    hide At, Deficits;
    var k := DeficitSpans(points, i);
    var interval := Deficits(points)[i].interval;
    forall t | interval.Contains(t)
      ensures At(0, points, t) == points[k].slack
    {
      AtIndex(0, points, k, t);
    }
    AtIndex(0, points, k + 1, interval.end);
    if k == 0 {
      AtLater(0, points, interval.start - 1);
    } else {
      AtIndex(0, points, k - 1, interval.start - 1);
    }
  }

  /** Pieces of the same amount that share a timestamp are one. */
  lemma PiecesAgree(points: seq<SlackPoint>, a: Interval, b: Interval, amount: int, t: int)
    requires DeficitPiece(points, a, amount) && DeficitPiece(points, b, amount) && a.Contains(t) && b.Contains(t)
    ensures a == b
  {
    hide At;
    assert a.start < b.start ==> a.Contains(b.start - 1);
    assert b.start < a.start ==> b.Contains(a.start - 1);
    assert a.end < b.end ==> b.Contains(a.end);
    assert b.end < a.end ==> a.Contains(b.end);
  }

  lemma NegativeReported(points: seq<SlackPoint>, curve: seq<CapacitySegment>, claims: seq<Claim>, t: int)
    requires DenotesSlack(points, curve, claims) && At(0, points, t) < 0
    ensures Reported(Deficits(points), t, -At(0, points, t))
  {
    hide At, Deficits, SlackOf, Canonical;
    DeficitsOfSlack(points, curve, claims);
    assert At(0, points, t) == SlackOf(curve, claims, t);
  }

  /** What is reported is exactly the maximal stretches of one negative value. */
  lemma DeficitsArePieces(points: seq<SlackPoint>, curve: seq<CapacitySegment>, claims: seq<Claim>)
    requires DenotesSlack(points, curve, claims)
    ensures forall interval, amount ::
              SlackDeficit(interval, amount) in Deficits(points) <==> DeficitPiece(points, interval, amount)
  {
    hide At, Deficits, SlackOf, Canonical;
    DeficitsOfSlack(points, curve, claims);
    var deficits := Deficits(points);
    forall interval, amount
      ensures SlackDeficit(interval, amount) in deficits <==> DeficitPiece(points, interval, amount)
    {
      if SlackDeficit(interval, amount) in deficits {
        var i :| 0 <= i < |deficits| && deficits[i] == SlackDeficit(interval, amount);
        ReportedIsPiece(points, i);
      }
      if DeficitPiece(points, interval, amount) {
        assert interval.Contains(interval.start);
        assert Reported(deficits, interval.start, amount);
        var i :| 0 <= i < |deficits| && deficits[i].interval.Contains(interval.start) && deficits[i].amount == amount;
        ReportedIsPiece(points, i);
        PiecesAgree(points, interval, deficits[i].interval, amount, interval.start);
      }
    }
  }

  // ---- Holders ----

  /** A live promise with a claim on the pool at some time of the interval. */
  ghost predicate LiveHolder(promises: map<PromiseId, Promise>, pool: PoolId, interval: Interval, id: PromiseId) {
    && id in promises && (promises[id].state.Held? || promises[id].state.Committed?)
    && exists i, t :: 0 <= i < |promises[id].bundle| && promises[id].bundle[i].poolId == pool
                      && promises[id].bundle[i].interval.Contains(t) && interval.Contains(t)
  }

  /** The live holders, in identity order. */
  ghost predicate ExactHolders(promises: map<PromiseId, Promise>, pool: PoolId, interval: Interval,
                               ids: seq<PromiseId>)
  {
    StrictlyIncreasing(ids) && forall id :: id in ids <==> LiveHolder(promises, pool, interval, id)
  }

  lemma TouchingShares(p: Promise, pool: PoolId, interval: Interval)
    requires ValidClaims(p.bundle) && interval.Valid()
    ensures p.Touches(pool, interval)
            <==> exists i, t :: 0 <= i < |p.bundle| && p.bundle[i].poolId == pool && p.bundle[i].interval.Contains(t)
                                && interval.Contains(t)
  {
    if p.Touches(pool, interval) {
      var i :| 0 <= i < |p.bundle| && p.bundle[i].poolId == pool && p.bundle[i].interval.Overlaps(interval);
      assert p.bundle[i].Valid();
      var t := Max(p.bundle[i].interval.start, interval.start);
      assert p.bundle[i].interval.Contains(t) && interval.Contains(t);
    }
  }

  /** Reported holders are exactly the live promises with a claim somewhere in the interval. */
  lemma HoldersExact(promises: map<PromiseId, Promise>, pool: PoolId, interval: Interval)
    requires ValidBundles(promises) && interval.Valid()
    ensures ExactHolders(promises, pool, interval, Holders(promises, pool, interval))
  {
    hide SortedKeys, HoldersAmong, Promise.Touches, ValidClaims;
    var keys := SortedKeys(promises.Keys);
    forall i | 0 <= i < |keys|
      ensures keys[i] in promises
    {
      var id := keys[i];
      assert id in keys;
    }
    HoldersIncrease(promises, keys, pool, interval);
    var ids := Holders(promises, pool, interval);
    forall id
      ensures id in ids <==> LiveHolder(promises, pool, interval, id)
    {
      if id in promises {
        assert id in keys;
        TouchingShares(promises[id], pool, interval);
      }
    }
  }

  // ---- Reported deficits ----

  /** The reported deficits of a pool: its pieces of negative slack in order, each once, with their holders. */
  ghost predicate DeficitsTold(points: seq<SlackPoint>, promises: map<PromiseId, Promise>, pool: PoolId,
                               deficits: seq<CapacityDeficit>)
  {
    && (forall i, j :: 0 <= i < j < |deficits| ==> deficits[i].interval.end <= deficits[j].interval.start)
    && forall d :: d in deficits
                   <==> d.poolId == pool && DeficitPiece(points, d.interval, d.quantity)
                        && ExactHolders(promises, pool, d.interval, d.promiseIds)
  }

  lemma HoldersUnique(promises: map<PromiseId, Promise>, pool: PoolId, interval: Interval, a: seq<PromiseId>,
                      b: seq<PromiseId>)
    requires ExactHolders(promises, pool, interval, a) && ExactHolders(promises, pool, interval, b)
    ensures a == b
  {
    hide LiveHolder;
    IncreasingUnique(a, b);
  }

  lemma DeficitsAreTold(st: EngineState, pool: PoolId, points: seq<SlackPoint>, curve: seq<CapacitySegment>,
                        claims: seq<Claim>)
    requires DenotesSlack(points, curve, claims) && ValidBundles(st.promises)
    ensures DeficitsTold(points, st.promises, pool, PoolDeficits(st, pool, Deficits(points)))
  {
    hide At, Deficits, SlackOf, Canonical, DeficitPiece, ExactHolders, Holders;
    DeficitsOfSlack(points, curve, claims);
    DeficitsArePieces(points, curve, claims);
    var found := Deficits(points);
    var told := PoolDeficits(st, pool, found);
    forall d
      ensures d in told
              <==> d.poolId == pool && DeficitPiece(points, d.interval, d.quantity)
                   && ExactHolders(st.promises, pool, d.interval, d.promiseIds)
    {
      if d in told {
        var i :| 0 <= i < |told| && told[i] == d;
        assert found[i] == SlackDeficit(d.interval, d.quantity);
        HoldersExact(st.promises, pool, d.interval);
      }
      if && d.poolId == pool && DeficitPiece(points, d.interval, d.quantity)
         && ExactHolders(st.promises, pool, d.interval, d.promiseIds)
      {
        PieceValid(points, d.interval, d.quantity);
        assert SlackDeficit(d.interval, d.quantity) in found;
        var i :| 0 <= i < |found| && found[i] == SlackDeficit(d.interval, d.quantity);
        HoldersExact(st.promises, pool, d.interval);
        HoldersUnique(st.promises, pool, d.interval, d.promiseIds, Holders(st.promises, pool, d.interval));
        assert told[i] == d;
      }
    }
  }

  lemma PieceValid(points: seq<SlackPoint>, interval: Interval, amount: int)
    requires DeficitPiece(points, interval, amount)
    ensures interval.Valid() && At(0, points, interval.start) == -amount < 0
  {
    hide At;
    assert interval.Contains(interval.start);
  }

  /** An interval meets a reported deficit exactly where slack is negative in it. */
  lemma MeetsNegative(points: seq<SlackPoint>, promises: map<PromiseId, Promise>, pool: PoolId,
                      curve: seq<CapacitySegment>, claims: seq<Claim>, deficits: seq<CapacityDeficit>,
                      interval: Interval)
    requires DenotesSlack(points, curve, claims) && DeficitsTold(points, promises, pool, deficits)
    requires |deficits| == |Deficits(points)|
    requires forall i :: 0 <= i < |deficits| ==> deficits[i].interval == Deficits(points)[i].interval
    requires interval.Valid()
    ensures OverlapsDeficit(deficits, interval) <==> NegativeIn(points, interval)
  {
    hide At, Deficits, SlackOf, Canonical, ExactHolders;
    DeficitsOfSlack(points, curve, claims);
    if OverlapsDeficit(deficits, interval) {
      var i :| 0 <= i < |deficits| && deficits[i].interval.Overlaps(interval);
      var d := deficits[i];
      assert d in deficits;
      var t := Max(d.interval.start, interval.start);
      assert interval.Contains(t) && d.interval.Contains(t);
    }
    if NegativeIn(points, interval) {
      var t :| interval.Contains(t) && At(0, points, t) < 0;
      assert Reported(Deficits(points), t, -At(0, points, t));
      var i :| 0 <= i < |Deficits(points)| && Deficits(points)[i].interval.Contains(t)
               && Deficits(points)[i].amount == -At(0, points, t);
      assert deficits[i].interval.Overlaps(interval);
    }
  }

  // ---- Events ----

  /** Deficit events in order of time, no two meeting. */
  ghost predicate InTime(events: seq<Event>) {
    && (forall i :: 0 <= i < |events| ==> events[i].data.OnDeficit?)
    && forall i, j :: 0 <= i < j < |events| ==> events[i].data.interval.end <= events[j].data.interval.start
  }

  /** The event tells of this piece of negative slack and who holds it. */
  ghost predicate TellsPiece(points: seq<SlackPoint>, promises: map<PromiseId, Promise>, pool: PoolId, e: Event) {
    && e.data.OnDeficit? && e.data.poolId == pool && DeficitPiece(points, e.data.interval, e.data.quantity)
    && ExactHolders(promises, pool, e.data.interval, e.data.promiseIds)
  }

  /** A deficit of before where nothing is short any more. */
  ghost predicate ResolvedEvent(before: seq<SlackPoint>, after: seq<SlackPoint>, promises: map<PromiseId, Promise>,
                                pool: PoolId, e: Event)
  {
    && e.kind == DeficitResolved && TellsPiece(before, promises, pool, e)
    && !NegativeIn(after, e.data.interval)
  }

  /** A deficit of after that is new where nothing was short, or differs from what was. */
  ghost predicate CurrentEvent(before: seq<SlackPoint>, after: seq<SlackPoint>, promises: map<PromiseId, Promise>,
                               pool: PoolId, e: Event)
  {
    && TellsPiece(after, promises, pool, e) && !DeficitPiece(before, e.data.interval, e.data.quantity)
    && e.kind == if NegativeIn(before, e.data.interval) then DeficitChanged else DeficitCreated
  }

  lemma {:induction false} ResolvedAre(previous: seq<CapacityDeficit>, current: seq<CapacityDeficit>, sequence: int,
                                       now: int)
    requires forall i, j :: 0 <= i < j < |previous| ==> previous[i].interval.end <= previous[j].interval.start
    ensures InTime(ResolvedEvents(previous, current, sequence, now))
    ensures forall e :: e in ResolvedEvents(previous, current, sequence, now)
                        <==> exists i :: 0 <= i < |previous| && !OverlapsDeficit(current, previous[i].interval)
                                         && e == DeficitEvent(previous[i], sequence, now, DeficitResolved)
  {
    hide OverlapsDeficit;
    if previous != [] {
      var n := |previous| - 1;
      ResolvedAre(previous[..n], current, sequence, now);
      var earlier := ResolvedEvents(previous[..n], current, sequence, now);
      var all := ResolvedEvents(previous, current, sequence, now);
      forall k | 0 <= k < |earlier|
        ensures earlier[k].data.OnDeficit? && earlier[k].data.interval.end <= previous[n].interval.start
      {
        var e := earlier[k];
        assert e in earlier;
      }
      forall e
        ensures e in all
                <==> exists i :: 0 <= i < |previous| && !OverlapsDeficit(current, previous[i].interval)
                                 && e == DeficitEvent(previous[i], sequence, now, DeficitResolved)
      {
        assert e in all
               <==> e in earlier || (!OverlapsDeficit(current, previous[n].interval)
                                     && e == DeficitEvent(previous[n], sequence, now, DeficitResolved));
        if e in earlier {
          var i :| 0 <= i < n && !OverlapsDeficit(current, previous[..n][i].interval)
                   && e == DeficitEvent(previous[..n][i], sequence, now, DeficitResolved);
          assert previous[i] == previous[..n][i];
        }
        if i :| 0 <= i < n && !OverlapsDeficit(current, previous[i].interval)
                && e == DeficitEvent(previous[i], sequence, now, DeficitResolved)
        {
          assert previous[..n][i] == previous[i];
        }
      }
    }
  }

  function CurrentKind(previous: seq<CapacityDeficit>, interval: Interval): EventKind {
    if OverlapsDeficit(previous, interval) then DeficitChanged else DeficitCreated
  }

  lemma {:induction false} CurrentAre(previous: seq<CapacityDeficit>, current: seq<CapacityDeficit>, sequence: int,
                                      now: int)
    requires forall i, j :: 0 <= i < j < |current| ==> current[i].interval.end <= current[j].interval.start
    ensures InTime(CurrentEvents(previous, current, sequence, now))
    ensures forall e :: e in CurrentEvents(previous, current, sequence, now)
                        <==> exists i :: 0 <= i < |current| && !SameDeficit(previous, current[i])
                                         && e == DeficitEvent(current[i], sequence, now,
                                                              CurrentKind(previous, current[i].interval))
  {
    hide OverlapsDeficit, SameDeficit;
    if current != [] {
      var n := |current| - 1;
      CurrentAre(previous, current[..n], sequence, now);
      var earlier := CurrentEvents(previous, current[..n], sequence, now);
      var all := CurrentEvents(previous, current, sequence, now);
      var last := DeficitEvent(current[n], sequence, now, CurrentKind(previous, current[n].interval));
      forall k | 0 <= k < |earlier|
        ensures earlier[k].data.OnDeficit? && earlier[k].data.interval.end <= current[n].interval.start
      {
        var e := earlier[k];
        assert e in earlier;
      }
      forall e
        ensures e in all
                <==> exists i :: 0 <= i < |current| && !SameDeficit(previous, current[i])
                                 && e == DeficitEvent(current[i], sequence, now,
                                                      CurrentKind(previous, current[i].interval))
      {
        assert e in all <==> e in earlier || (!SameDeficit(previous, current[n]) && e == last);
        if e in earlier {
          var i :| 0 <= i < n && !SameDeficit(previous, current[..n][i])
                   && e == DeficitEvent(current[..n][i], sequence, now,
                                        CurrentKind(previous, current[..n][i].interval));
          assert current[i] == current[..n][i];
        }
        if i :| 0 <= i < n && !SameDeficit(previous, current[i])
                && e == DeficitEvent(current[i], sequence, now, CurrentKind(previous, current[i].interval))
        {
          assert current[..n][i] == current[i];
        }
      }
    }
  }

  /** The deficits of before and after as a revision compares them. */
  ghost predicate Compared(st: EngineState, pool: PoolId, points: seq<SlackPoint>, curve: seq<CapacitySegment>,
                           claims: seq<Claim>, deficits: seq<CapacityDeficit>)
  {
    && DenotesSlack(points, curve, claims) && deficits == PoolDeficits(st, pool, Deficits(points))
    && DeficitsTold(points, st.promises, pool, deficits)
  }

  lemma ComparedMeets(st: EngineState, pool: PoolId, points: seq<SlackPoint>, curve: seq<CapacitySegment>,
                      claims: seq<Claim>, deficits: seq<CapacityDeficit>, interval: Interval)
    requires Compared(st, pool, points, curve, claims, deficits) && interval.Valid()
    ensures OverlapsDeficit(deficits, interval) <==> NegativeIn(points, interval)
  {
    hide At, Deficits, DeficitsTold, OverlapsDeficit, NegativeIn, DenotesSlack, Holders;
    MeetsNegative(points, st.promises, pool, curve, claims, deficits, interval);
  }

  lemma ComparedSame(st: EngineState, pool: PoolId, points: seq<SlackPoint>, curve: seq<CapacitySegment>,
                     claims: seq<Claim>, deficits: seq<CapacityDeficit>, d: CapacityDeficit)
    requires Compared(st, pool, points, curve, claims, deficits) && ValidBundles(st.promises)
    ensures SameDeficit(deficits, d) <==> DeficitPiece(points, d.interval, d.quantity)
  {
    hide At, Deficits, DenotesSlack, DeficitPiece, ExactHolders, Holders;
    if SameDeficit(deficits, d) {
      var i :| 0 <= i < |deficits| && deficits[i].interval == d.interval && deficits[i].quantity == d.quantity;
      var same := deficits[i];
      assert same in deficits;
    }
    if DeficitPiece(points, d.interval, d.quantity) {
      PieceValid(points, d.interval, d.quantity);
      HoldersExact(st.promises, pool, d.interval);
      var same := CapacityDeficit(pool, d.interval, d.quantity, Holders(st.promises, pool, d.interval));
      assert same in deficits;
    }
  }

  /** Exactly these events are logged for deficits, in this order. */
  ghost predicate EventsTold(before: seq<SlackPoint>, after: seq<SlackPoint>, promises: map<PromiseId, Promise>,
                             pool: PoolId, sequence: int, now: int, resolved: seq<Event>, current: seq<Event>)
  {
    && InTime(resolved) && InTime(current)
    && (forall e :: e in resolved
                    <==> e.sequence == sequence && e.timestamp == now
                         && ResolvedEvent(before, after, promises, pool, e))
    && forall e :: e in current
                   <==> e.sequence == sequence && e.timestamp == now && CurrentEvent(before, after, promises, pool, e)
  }

  /** These are the events logged for deficits: first what is resolved, then what is current. */
  ghost predicate DeficitsLogged(before: seq<SlackPoint>, after: seq<SlackPoint>, promises: map<PromiseId, Promise>,
                                 pool: PoolId, sequence: int, now: int, events: seq<Event>)
  {
    exists resolved: nat :: && resolved <= |events|
                            && EventsTold(before, after, promises, pool, sequence, now, events[..resolved],
                                          events[resolved..])
  }

  lemma LoggedAs(before: seq<SlackPoint>, after: seq<SlackPoint>, promises: map<PromiseId, Promise>, pool: PoolId,
                 sequence: int, now: int, events: seq<Event>, logged: seq<Event>, resolved: seq<Event>,
                 current: seq<Event>)
    requires EventsTold(before, after, promises, pool, sequence, now, resolved, current)
    requires events + resolved + current == logged
    ensures events <= logged && DeficitsLogged(before, after, promises, pool, sequence, now, logged[|events|..])
  {
    hide EventsTold;
    var told := logged[|events|..];
    assert told == resolved + current;
    assert told[..|resolved|] == resolved && told[|resolved|..] == current;
  }

  function DeficitOf(e: Event): CapacityDeficit
    requires e.data.OnDeficit?
  {
    CapacityDeficit(e.data.poolId, e.data.interval, e.data.quantity, e.data.promiseIds)
  }

  lemma ResolvedTold(st: EngineState, pool: PoolId, before: seq<SlackPoint>, after: seq<SlackPoint>,
                     curveBefore: seq<CapacitySegment>, curveAfter: seq<CapacitySegment>, claims: seq<Claim>,
                     previous: seq<CapacityDeficit>, current: seq<CapacityDeficit>, sequence: int, now: int)
    requires Compared(st, pool, before, curveBefore, claims, previous)
    requires Compared(st, pool, after, curveAfter, claims, current)
    ensures var events := ResolvedEvents(previous, current, sequence, now);
            && InTime(events)
            && forall e :: e in events
                           <==> e.sequence == sequence && e.timestamp == now
                                && ResolvedEvent(before, after, st.promises, pool, e)
  {
    hide At, Deficits, DenotesSlack, DeficitPiece, ExactHolders, Holders, OverlapsDeficit, NegativeIn, PoolDeficits,
         ResolvedEvents, InTime;
    ResolvedAre(previous, current, sequence, now);
    var events := ResolvedEvents(previous, current, sequence, now);
    forall e
      ensures e in events
              <==> e.sequence == sequence && e.timestamp == now && ResolvedEvent(before, after, st.promises, pool, e)
    {
      if e in events {
        var i :| 0 <= i < |previous| && !OverlapsDeficit(current, previous[i].interval)
                 && e == DeficitEvent(previous[i], sequence, now, DeficitResolved);
        var d := previous[i];
        assert d in previous;
        PieceValid(before, d.interval, d.quantity);
        ComparedMeets(st, pool, after, curveAfter, claims, current, d.interval);
      }
      if e.sequence == sequence && e.timestamp == now && ResolvedEvent(before, after, st.promises, pool, e) {
        var d := DeficitOf(e);
        assert d in previous;
        var i :| 0 <= i < |previous| && previous[i] == d;
        PieceValid(before, d.interval, d.quantity);
        ComparedMeets(st, pool, after, curveAfter, claims, current, d.interval);
        assert e == DeficitEvent(previous[i], sequence, now, DeficitResolved);
      }
    }
  }

  lemma CurrentTold(st: EngineState, pool: PoolId, before: seq<SlackPoint>, after: seq<SlackPoint>,
                    curveBefore: seq<CapacitySegment>, curveAfter: seq<CapacitySegment>, claims: seq<Claim>,
                    previous: seq<CapacityDeficit>, current: seq<CapacityDeficit>, sequence: int, now: int)
    requires Compared(st, pool, before, curveBefore, claims, previous) && ValidBundles(st.promises)
    requires Compared(st, pool, after, curveAfter, claims, current)
    ensures var events := CurrentEvents(previous, current, sequence, now);
            && InTime(events)
            && forall e :: e in events
                           <==> e.sequence == sequence && e.timestamp == now
                                && CurrentEvent(before, after, st.promises, pool, e)
  {
    hide At, Deficits, DenotesSlack, DeficitPiece, ExactHolders, Holders, OverlapsDeficit, SameDeficit, NegativeIn,
         PoolDeficits, CurrentEvents, InTime, ValidBundles;
    CurrentAre(previous, current, sequence, now);
    var events := CurrentEvents(previous, current, sequence, now);
    forall e
      ensures e in events
              <==> e.sequence == sequence && e.timestamp == now && CurrentEvent(before, after, st.promises, pool, e)
    {
      if e in events {
        var i :| 0 <= i < |current| && !SameDeficit(previous, current[i])
                 && e == DeficitEvent(current[i], sequence, now, CurrentKind(previous, current[i].interval));
        var d := current[i];
        assert d in current;
        PieceValid(after, d.interval, d.quantity);
        ComparedMeets(st, pool, before, curveBefore, claims, previous, d.interval);
        ComparedSame(st, pool, before, curveBefore, claims, previous, d);
      }
      if e.sequence == sequence && e.timestamp == now && CurrentEvent(before, after, st.promises, pool, e) {
        var d := DeficitOf(e);
        assert d in current;
        var i :| 0 <= i < |current| && current[i] == d;
        PieceValid(after, d.interval, d.quantity);
        ComparedMeets(st, pool, before, curveBefore, claims, previous, d.interval);
        ComparedSame(st, pool, before, curveBefore, claims, previous, d);
        assert e == DeficitEvent(current[i], sequence, now, CurrentKind(previous, current[i].interval));
      }
    }
  }

  // ---- Affected promises ----

  /** A live promise with a claim on the pool at some time slack is negative. */
  ghost predicate HoldsShort(points: seq<SlackPoint>, promises: map<PromiseId, Promise>, pool: PoolId, id: PromiseId) {
    && id in promises && (promises[id].state.Held? || promises[id].state.Committed?)
    && exists i, t :: 0 <= i < |promises[id].bundle| && promises[id].bundle[i].poolId == pool
                      && promises[id].bundle[i].interval.Contains(t) && At(0, points, t) < 0
  }

  /** The affected promises are exactly those that hold capacity the pool is short of. */
  lemma AffectedTold(st: EngineState, pool: PoolId, points: seq<SlackPoint>, curve: seq<CapacitySegment>,
                     claims: seq<Claim>, deficits: seq<CapacityDeficit>)
    requires Compared(st, pool, points, curve, claims, deficits)
    ensures StrictlyIncreasing(AffectedPromises(deficits))
    ensures forall id :: id in AffectedPromises(deficits) <==> HoldsShort(points, st.promises, pool, id)
  {
    hide At, DenotesSlack, Deficits, Holders, SortedKeys;
    forall id
      ensures id in AffectedPromises(deficits) <==> HoldsShort(points, st.promises, pool, id)
    {
      if id in AffectedPromises(deficits) {
        var i, j :| 0 <= i < |deficits| && 0 <= j < |deficits[i].promiseIds| && deficits[i].promiseIds[j] == id;
        var d := deficits[i];
        assert d in deficits && id in d.promiseIds;
        assert LiveHolder(st.promises, pool, d.interval, id);
      }
      if HoldsShort(points, st.promises, pool, id) {
        var k, t :| 0 <= k < |st.promises[id].bundle| && st.promises[id].bundle[k].poolId == pool
                    && st.promises[id].bundle[k].interval.Contains(t) && At(0, points, t) < 0;
        NegativeReported(points, curve, claims, t);
        var i :| 0 <= i < |Deficits(points)| && Deficits(points)[i].interval.Contains(t)
                 && Deficits(points)[i].amount == -At(0, points, t);
        var d := deficits[i];
        assert d in deficits;
        assert LiveHolder(st.promises, pool, d.interval, id);
        assert id in d.promiseIds;
        var j :| 0 <= j < |d.promiseIds| && d.promiseIds[j] == id;
        assert deficits[i].promiseIds[j] == id;
      }
    }
  }

  // ---- The revision ----

  /** Slack fits 64 bits under the new curve at every time. */
  ghost predicate FitsEverywhere(st: EngineState, pool: PoolId, curve: seq<CapacitySegment>) {
    forall t :: FitsI64(CapacityAt(curve, t) - Usage(ActiveClaims(st.promises, pool), t))
  }

  /** The new curve falls short of what is held at some time. */
  ghost predicate FallsShort(st: EngineState, pool: PoolId, curve: seq<CapacitySegment>) {
    exists t :: CapacityAt(curve, t) < Usage(ActiveClaims(st.promises, pool), t)
  }

  /** What stands in the way of a revision, in the order it is noticed. */
  ghost predicate RevisionRefused(st: EngineState, pool: PoolId, curve: seq<CapacitySegment>, mode: RevisionMode,
                                  error: DomainError)
  {
    match error
    case ResourcePoolNotFound => pool !in st.pools
    case IndexOverflow => pool in st.pools && !FitsEverywhere(st, pool, curve)
    case CapacityRevisionCreatesDeficit =>
      pool in st.pools && FitsEverywhere(st, pool, curve) && mode.Strict? && FallsShort(st, pool, curve)
    case SequenceOverflow =>
      && pool in st.pools && FitsEverywhere(st, pool, curve) && !(mode.Strict? && FallsShort(st, pool, curve))
      && st.sequence == U64_MAX
    case _ => false
  }

  /** The whole new state after a revision, and its answer. */
  ghost predicate RevisedTo(st: EngineState, pool: PoolId, curve: seq<CapacitySegment>, now: int, after: EngineState,
                            answer: CommandResult)
    requires pool in st.pools && pool in st.timelines
  {
    && after.pools == st.pools[pool := st.pools[pool].(curve := curve)]
    && after.promises == st.promises && after.records == st.records && after.sequence == st.sequence + 1
    && pool in after.timelines && after.timelines == st.timelines[pool := after.timelines[pool]]
    && (forall t :: At(0, after.timelines[pool], t)
                    == CapacityAt(curve, t) - Usage(ActiveClaims(st.promises, pool), t))
    && st.events + [Event(st.sequence + 1, now, CapacityChanged, OnPool(pool))] <= after.events
    && DeficitsLogged(st.timelines[pool], after.timelines[pool], st.promises, pool, st.sequence + 1, now,
                      after.events[|st.events| + 1..])
    && answer.CapacityRevised? && answer.sequence == st.sequence + 1
    && DeficitsTold(after.timelines[pool], st.promises, pool, answer.deficits)
    && StrictlyIncreasing(answer.promiseIds)
    && forall id :: id in answer.promiseIds <==> HoldsShort(after.timelines[pool], st.promises, pool, id)
  }

  lemma RevisionParts(st: EngineState, pool: PoolId, curve: seq<CapacitySegment>, now: int)
    requires Coherent(st) && ValidCurve(curve) && pool in st.pools && FitsEverywhere(st, pool, curve)
    ensures pool in st.timelines
    ensures var claims, before := ActiveClaims(st.promises, pool), st.timelines[pool];
            var after := RebuiltPoints(curve, claims);
            var previous, current := PoolDeficits(st, pool, Deficits(before)), PoolDeficits(st, pool, Deficits(after));
            && Rebuild(curve, claims) == Ok(after)
            && Compared(st, pool, before, st.pools[pool].curve, claims, previous)
            && Compared(st, pool, after, curve, claims, current)
            && EventsTold(before, after, st.promises, pool, st.sequence + 1, now,
                          ResolvedEvents(previous, current, st.sequence + 1, now),
                          CurrentEvents(previous, current, st.sequence + 1, now))
            && (current == [] <==> !FallsShort(st, pool, curve))
  {
    hide At, ActiveAmong, RebuiltPoints, SortedKeys, Canonical, AllFit, Usage, CapacityAt, DeficitPiece, ExactHolders,
         ResolvedEvents, CurrentEvents, ResolvedEvent, CurrentEvent, Deficits, Holders, ActiveClaims, InTime,
         FallsShort;
    assert Indexed(st, pool);
    var claims, before := ActiveClaims(st.promises, pool), st.timelines[pool];
    BundlesValid(st);
    ClaimsValid(st, pool);
    RebuildCorrect(curve, claims);
    var after := RebuiltPoints(curve, claims);
    DeficitsAreTold(st, pool, before, st.pools[pool].curve, claims);
    DeficitsAreTold(st, pool, after, curve, claims);
    var previous, current := PoolDeficits(st, pool, Deficits(before)), PoolDeficits(st, pool, Deficits(after));
    ResolvedTold(st, pool, before, after, st.pools[pool].curve, curve, claims, previous, current, st.sequence + 1, now);
    CurrentTold(st, pool, before, after, st.pools[pool].curve, curve, claims, previous, current, st.sequence + 1, now);
    DeficitsDecide(after, curve, claims);
    ShortSomewhere(st, pool, curve);
  }

  lemma ShortSomewhere(st: EngineState, pool: PoolId, curve: seq<CapacitySegment>)
    ensures FallsShort(st, pool, curve) <==> exists t :: SlackOf(curve, ActiveClaims(st.promises, pool), t) < 0
  {
    hide CapacityAt, Usage, ActiveClaims;
    if FallsShort(st, pool, curve) {
      var t :| CapacityAt(curve, t) < Usage(ActiveClaims(st.promises, pool), t);
      assert SlackOf(curve, ActiveClaims(st.promises, pool), t) < 0;
    }
    if t :| SlackOf(curve, ActiveClaims(st.promises, pool), t) < 0 {
      assert CapacityAt(curve, t) < Usage(ActiveClaims(st.promises, pool), t);
    }
  }

  lemma ClaimsValid(st: EngineState, pool: PoolId)
    requires Coherent(st)
    ensures ValidClaims(ActiveClaims(st.promises, pool))
  {
    hide AllIndexed, ActiveAmong, SortedKeys;
    BundlesValid(st);
    ActiveValid(st.promises, SortedKeys(st.promises.Keys), pool);
  }

  /** How a revision is answered, and what it leaves behind. */
  ghost predicate RevisionAnswered(st: EngineState, pool: PoolId, curve: seq<CapacitySegment>, mode: RevisionMode,
                                   now: int, outcome: Outcome<CommandResult>)
  {
    if outcome.result.Err? then outcome.state == st && RevisionRefused(st, pool, curve, mode, outcome.result.error)
    else
      && (forall error :: !RevisionRefused(st, pool, curve, mode, error))
      && pool in st.pools && pool in st.timelines
      && RevisedTo(st, pool, curve, now, outcome.state, outcome.result.value)
  }

  /** What a revision does once its timeline can be built. */
  lemma RevisionBuilt(st: EngineState, pool: PoolId, curve: seq<CapacitySegment>, mode: RevisionMode, now: int,
                      after: seq<SlackPoint>)
    requires pool in st.pools && pool in st.timelines && Rebuild(curve, ActiveClaims(st.promises, pool)) == Ok(after)
    ensures var previous := PoolDeficits(st, pool, Deficits(st.timelines[pool]));
            var current := PoolDeficits(st, pool, Deficits(after));
            RevisePool(st, pool, curve, mode, now)
            == if mode.Strict? && current != [] then Outcome(st, Err(CapacityRevisionCreatesDeficit))
               else if st.sequence >= U64_MAX then Outcome(st, Err(SequenceOverflow))
               else
                 Outcome(st.(pools := st.pools[pool := st.pools[pool].(curve := curve)],
                             timelines := st.timelines[pool := after], sequence := st.sequence + 1,
                             events := st.events + [Event(st.sequence + 1, now, CapacityChanged, OnPool(pool))]
                                       + ResolvedEvents(previous, current, st.sequence + 1, now)
                                       + CurrentEvents(previous, current, st.sequence + 1, now)),
                         Ok(CapacityRevised(st.sequence + 1, current, AffectedPromises(current))))
  {
    hide Deficits, PoolDeficits, ResolvedEvents, CurrentEvents, AffectedPromises, ActiveClaims, Rebuild;
  }

  lemma RevisionUnbuilt(st: EngineState, pool: PoolId, curve: seq<CapacitySegment>, mode: RevisionMode, now: int)
    requires Coherent(st) && !(pool in st.pools && FitsEverywhere(st, pool, curve))
    ensures var outcome := RevisePool(st, pool, curve, mode, now);
            outcome.state == st && outcome.result.Err? && RevisionRefused(st, pool, curve, mode, outcome.result.error)
  {
    hide AllIndexed, SoundPromises, RebuiltPoints, Representable, PoolDeficits, ResolvedEvents, CurrentEvents,
         AffectedPromises, ActiveClaims, FitsEverywhere, FallsShort, Deficits;
    FitsRepresentable(st, pool, curve);
  }

  lemma RequestedRevises(st: EngineState, pool: PoolId, curve: seq<CapacitySegment>, mode: RevisionMode, expired: int,
                         now: int)
    ensures Requested(st, ReviseCapacity(pool, curve, mode), expired, now) == RevisePool(st, pool, curve, mode, now)
  {
    hide RevisePool;
  }

  /**
   A revision goes ahead exactly when nothing refuses it. It then stores the curve, moves slack to the new
   capacity minus what is held, answers with the exact deficits and the promises they affect, and logs one
   event for every deficit that is resolved, created or changed, in order and no other. A refused revision
   changes nothing and names its reason.
   */
  lemma RevisionOutcome(st: EngineState, pool: PoolId, curve: seq<CapacitySegment>, mode: RevisionMode, expired: int,
                        now: int)
    requires Coherent(st) && ValidCurve(curve)
    ensures RevisionAnswered(st, pool, curve, mode, now, Requested(st, ReviseCapacity(pool, curve, mode), expired, now))
  {
    hide Coherent, ValidCurve, RebuiltPoints, DeficitsTold, EventsTold, ResolvedEvents, CurrentEvents, Deficits,
         HoldsShort, AffectedPromises, ActiveClaims, FallsShort, PoolDeficits, DeficitsLogged, FitsEverywhere,
         RevisePool, Requested, DenotesSlack, Rebuild, At, Usage, CapacityAt;
    RequestedRevises(st, pool, curve, mode, expired, now);
    StateFacts(st, pool);
    if pool in st.pools && FitsEverywhere(st, pool, curve) {
      RevisionParts(st, pool, curve, now);
      var claims := ActiveClaims(st.promises, pool);
      var after := RebuiltPoints(curve, claims);
      RevisionBuilt(st, pool, curve, mode, now, after);
      AffectedTold(st, pool, after, curve, claims, PoolDeficits(st, pool, Deficits(after)));
      SlackIs(after, curve, claims);
      var before := st.timelines[pool];
      var previous, current := PoolDeficits(st, pool, Deficits(before)), PoolDeficits(st, pool, Deficits(after));
      var resolved := ResolvedEvents(previous, current, st.sequence + 1, now);
      var changed := CurrentEvents(previous, current, st.sequence + 1, now);
      var known := st.events + [Event(st.sequence + 1, now, CapacityChanged, OnPool(pool))];
      LoggedAs(before, after, st.promises, pool, st.sequence + 1, now, known, known + resolved + changed, resolved,
               changed);
    } else {
      RevisionUnbuilt(st, pool, curve, mode, now);
    }
  }

  lemma StateFacts(st: EngineState, pool: PoolId)
    requires Coherent(st)
    ensures 0 <= st.sequence <= U64_MAX && (pool in st.pools <==> pool in st.timelines)
  {
    hide AllIndexed, SoundPromises;
  }

  lemma SlackIs(points: seq<SlackPoint>, curve: seq<CapacitySegment>, claims: seq<Claim>)
    requires DenotesSlack(points, curve, claims)
    ensures forall t :: At(0, points, t) == CapacityAt(curve, t) - Usage(claims, t)
  {
    hide At, CapacityAt, Usage, Canonical;
  }

  lemma FitsRepresentable(st: EngineState, pool: PoolId, curve: seq<CapacitySegment>)
    ensures FitsEverywhere(st, pool, curve) <==> Representable(curve, ActiveClaims(st.promises, pool))
  {
    hide CapacityAt, Usage, ActiveClaims;
    if FitsEverywhere(st, pool, curve) {
      forall t
        ensures FitsI64(SlackOf(curve, ActiveClaims(st.promises, pool), t))
      {
        assert FitsI64(CapacityAt(curve, t) - Usage(ActiveClaims(st.promises, pool), t));
      }
    }
    if Representable(curve, ActiveClaims(st.promises, pool)) {
      forall t
        ensures FitsI64(CapacityAt(curve, t) - Usage(ActiveClaims(st.promises, pool), t))
      {
        assert FitsI64(SlackOf(curve, ActiveClaims(st.promises, pool), t));
      }
    }
  }
}
