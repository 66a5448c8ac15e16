/** Expiration processing: every due hold, by deadline and then identity, each under its own sequence. */
module Expiry {
  import opened Results
  import opened Domain
  import opened OrderedKeys
  import opened Promises
  import opened Transitions
  import opened EngineInvariants
  import opened EngineSteps

  ghost predicate DueBefore(promises: map<PromiseId, Promise>, a: PromiseId, b: PromiseId) {
    Deadline(promises, a) < Deadline(promises, b) || (Deadline(promises, a) == Deadline(promises, b) && a < b)
  }

  ghost predicate DueOrder(promises: map<PromiseId, Promise>, due: seq<PromiseId>) {
    forall i, j :: 0 <= i < j < |due| ==> DueBefore(promises, due[i], due[j])
  }

  lemma {:induction false} InsertDueCorrect(promises: map<PromiseId, Promise>, due: seq<PromiseId>, id: PromiseId)
    requires DueOrder(promises, due) && forall other :: other in due ==> other < id
    ensures DueOrder(promises, InsertDue(promises, due, id))
    ensures forall other :: other in InsertDue(promises, due, id) <==> other in due || other == id
  {
    hide Deadline;
    if due != [] && Deadline(promises, due[|due| - 1]) > Deadline(promises, id) {
      var n := |due| - 1;
      var last := due[n];
      assert due == due[..n] + [last];
      assert forall other :: other in due[..n] ==> other in due;
      InsertDueCorrect(promises, due[..n], id);
      forall other | other in due[..n]
        ensures DueBefore(promises, other, last)
      {
        var j :| 0 <= j < n && due[..n][j] == other;
      }
      DueOrderPush(promises, InsertDue(promises, due[..n], id), last);
    } else {
      forall other | other in due
        ensures DueBefore(promises, other, id)
      {
        LastIsLatest(promises, due);
      }
      DueOrderPush(promises, due, id);
    }
  }

  lemma DueOrderPush(promises: map<PromiseId, Promise>, due: seq<PromiseId>, id: PromiseId)
    requires DueOrder(promises, due) && forall other :: other in due ==> DueBefore(promises, other, id)
    ensures DueOrder(promises, due + [id])
  {
    hide DueBefore;
    var all := due + [id];
    forall i, j | 0 <= i < j < |all|
      ensures DueBefore(promises, all[i], all[j])
    {
      if j == |due| {
        var other := due[i];
        assert other in due;
      }
    }
  }

  lemma LastIsLatest(promises: map<PromiseId, Promise>, due: seq<PromiseId>)
    requires DueOrder(promises, due) && due != []
    ensures forall i :: 0 <= i < |due| ==> Deadline(promises, due[i]) <= Deadline(promises, due[|due| - 1])
  {
    hide Deadline;
    forall i | 0 <= i < |due| - 1
      ensures Deadline(promises, due[i]) <= Deadline(promises, due[|due| - 1])
    {
      assert DueBefore(promises, due[i], due[|due| - 1]);
    }
  }

  lemma {:induction false} DueAmongCorrect(promises: map<PromiseId, Promise>, keys: seq<PromiseId>, now: int)
    requires StrictlyIncreasing(keys)
    ensures DueOrder(promises, DueAmong(promises, keys, now))
    ensures forall id :: id in DueAmong(promises, keys, now) <==> id in keys && id in promises && Due(promises[id], now)
  {
    hide InsertDue;
    if keys != [] {
      var n := |keys| - 1;
      var last := keys[n];
      assert keys == keys[..n] + [last];
      DueAmongCorrect(promises, keys[..n], now);
      forall other | other in keys[..n]
        ensures other < last
      {
      }
      if last in promises && Due(promises[last], now) {
        InsertDueCorrect(promises, DueAmong(promises, keys[..n], now), last);
      }
    }
  }

  /** The schedule is exactly the due holds, ordered by deadline and then identity. */
  lemma DueHoldsExact(st: EngineState, now: int)
    ensures DueOrder(st.promises, DueHolds(st, now))
    ensures forall id :: id in DueHolds(st, now) <==> id in st.promises && Due(st.promises[id], now)
  {
    DueAmongCorrect(st.promises, SortedKeys(st.promises.Keys), now);
  }

  // ---- What processing does ----

  /** The promise as the `i`-th expiration leaves it. */
  function ExpiredAs(st: EngineState, p: Promise, i: nat): Promise {
    p.(state := Expired, version := p.version + 1, updatedSequence := st.sequence + i + 1)
  }

  /** Exactly the first `k` due holds are expired, under consecutive sequences. */
  ghost predicate ExpiredFirst(st: EngineState, due: seq<PromiseId>, k: nat, after: EngineState)
    requires k <= |due|
  {
    && after.sequence == st.sequence + k
    && after.pools == st.pools && after.records == st.records
    && after.promises.Keys == st.promises.Keys
    && (forall i :: 0 <= i < k ==>
                      due[i] in st.promises && after.promises[due[i]] == ExpiredAs(st, st.promises[due[i]], i))
    && (forall id :: id in st.promises && id !in due[..k] ==> after.promises[id] == st.promises[id])
  }

  lemma ExpireOneMeaning(st: EngineState, id: PromiseId, now: int)
    requires Coherent(st) && id in st.promises
    ensures var one := ExpireOne(st, id, now);
            one.result.Ok? ==>
              && one.state.sequence == st.sequence + 1
              && one.state.promises == st.promises[id := ExpiredAs(st, st.promises[id], 0)]
              && one.state.pools == st.pools && one.state.records == st.records
  {
    hide AllIndexed;
    hide RestoredTimelines;
  }

  lemma NextExpired(st: EngineState, due: seq<PromiseId>, k: nat, middle: EngineState, after: EngineState)
    requires k < |due| && DueOrder(st.promises, due) && ExpiredFirst(st, due, k, middle)
    requires due[k] in st.promises && after.sequence == middle.sequence + 1
    requires after.promises == middle.promises[due[k] := ExpiredAs(middle, middle.promises[due[k]], 0)]
    requires after.pools == middle.pools && after.records == middle.records
    ensures ExpiredFirst(st, due, k + 1, after)
  {
    hide Deadline;
    assert due[..k + 1] == due[..k] + [due[k]];
    forall i | 0 <= i < k
      ensures due[i] != due[k]
    {
      assert DueBefore(st.promises, due[i], due[k]);
    }
    var last := due[k];
    assert last !in due[..k];
    assert middle.promises[last] == st.promises[last];
    forall i | 0 <= i < k + 1
      ensures due[i] in st.promises && after.promises[due[i]] == ExpiredAs(st, st.promises[due[i]], i)
    {
    }
    forall id | id in st.promises && id !in due[..k + 1]
      ensures after.promises[id] == st.promises[id]
    {
      assert id !in due[..k];
    }
  }

  /** Processing explained as effects, with its exact outcome. */
  lemma {:induction false} ExpireUpToExplained(st: EngineState, due: seq<PromiseId>, k: nat, now: int)
    returns (effects: seq<Effect>)
    requires Coherent(st) && k <= |due| && DueOrder(st.promises, due)
    requires forall i :: 0 <= i < |due| ==> due[i] in st.promises
    ensures var expired := ExpireUpTo(st, due, k, now);
            && Explains(st, effects, expired.state, false)
            && (expired.result.Ok? ==> expired.result.value == k && ExpiredFirst(st, due, k, expired.state))
            && (expired.result.Err? ==>
                  expired.result.error in {SequenceOverflow, VersionOverflow, HoldNotExpired, InvalidPromiseState})
  {
    hide Coherent;
    hide Explains;
    hide ExpireOne;
    hide DueOrder;
    if k == 0 {
      effects := [];
      NoEffect(st, false);
    } else {
      var earlier := ExpireUpTo(st, due, k - 1, now);
      effects := ExpireUpToExplained(st, due, k - 1, now);
      if earlier.result.Ok? {
        StaysCoherent(st, effects, earlier.state, false);
        var last := ExpireOneExplained(earlier.state, due[k - 1], now);
        Then(st, effects, earlier.state, last, ExpireOne(earlier.state, due[k - 1], now).state, false);
        effects := effects + last;
        ExpireOneMeaning(earlier.state, due[k - 1], now);
        if ExpireOne(earlier.state, due[k - 1], now).result.Ok? {
          NextExpired(st, due, k - 1, earlier.state, ExpireOne(earlier.state, due[k - 1], now).state);
        }
      }
    }
  }

  lemma StaysCoherent(st: EngineState, effects: seq<Effect>, after: EngineState, forced: bool)
    requires Coherent(st) && Explains(st, effects, after, forced)
    ensures Coherent(after)
  {
    hide Coherent;
    hide PermittedRun;
    hide PerformAll;
    hide CarefulRun;
    RunCoherent(st, effects);
  }

  lemma ExpirationsExplained(st: EngineState, now: int) returns (effects: seq<Effect>)
    requires Coherent(st)
    ensures var expired := Expirations(st, now);
            var due := DueHolds(st, now);
            && Explains(st, effects, expired.state, false)
            && (expired.result.Ok? ==> expired.result.value == |due| && ExpiredFirst(st, due, |due|, expired.state))
            && (expired.result.Err? ==>
                  expired.result.error in {SequenceOverflow, VersionOverflow, HoldNotExpired, InvalidPromiseState})
  {
    var due := DueHolds(st, now);
    DueHoldsExact(st, now);
    hide *;
    assert forall i :: 0 <= i < |due| ==> due[i] in due;
    effects := ExpireUpToExplained(st, due, |due|, now);
    ExpirationsUnfold(st, now);
  }

  lemma ExpirationsUnfold(st: EngineState, now: int)
    ensures Expirations(st, now) == ExpireUpTo(st, DueHolds(st, now), |DueHolds(st, now)|, now)
  {
    hide ExpireUpTo;
    hide DueHolds;
  }

  /** After processing succeeds, nothing is due, so processing again at the same time changes nothing. */
  lemma ExpirationsIdempotent(st: EngineState, now: int)
    requires Coherent(st) && Expirations(st, now).result.Ok?
    ensures var after := Expirations(st, now).state;
            && (forall id :: id in after.promises ==> !Due(after.promises[id], now))
            && Expirations(after, now) == Outcome(after, Ok(0))
  {
    hide Coherent;
    hide Explains;
    hide ExpireUpTo;
    hide DueAmong;
    var after := Expirations(st, now).state;
    var due := DueHolds(st, now);
    var effects := ExpirationsExplained(st, now);
    DueHoldsExact(st, now);
    forall id | id in after.promises
      ensures !Due(after.promises[id], now)
    {
      if id in due {
        var i :| 0 <= i < |due| && due[i] == id;
      } else {
        assert due[..|due|] == due;
      }
    }
    DueHoldsExact(after, now);
    if DueHolds(after, now) != [] {
      FirstMember(DueHolds(after, now));
      assert false;
    }
    NothingDue(after, now);
  }

  lemma FirstMember(ids: seq<PromiseId>)
    requires ids != []
    ensures ids[0] in ids
  {
  }

  lemma NothingDue(st: EngineState, now: int)
    requires DueHolds(st, now) == []
    ensures Expirations(st, now) == Outcome(st, Ok(0))
  {
    hide DueHolds;
  }
}
