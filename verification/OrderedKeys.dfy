/** The keys of an ordered map, visited in increasing order. */
module OrderedKeys {
  ghost predicate StrictlyIncreasing(keys: seq<int>) {
    forall i, j :: 0 <= i < j < |keys| ==> keys[i] < keys[j]
  }

  lemma {:induction false} LeastExists(s: set<int>)
    requires s != {}
    ensures exists key :: key in s && forall k :: k in s ==> key <= k
  {
    if forall k :: k !in s {
      assert false;
    }
    var key: int :| key in s;
    var rest := s - {key};
    if rest == {} {
      assert s == {key};
    } else {
      LeastExists(rest);
      var least :| least in rest && forall k :: k in rest ==> least <= k;
      var both := if key < least then key else least;
      forall k | k in s
        ensures both <= k
      {
        assert k == key || k in rest;
      }
      assert both in s;
    }
  }

  /** The members of a finite set in increasing order, as an ordered map iterates its keys. */
  function SortedKeys(s: set<int>): (keys: seq<int>)
    ensures StrictlyIncreasing(keys)
    ensures forall k :: k in keys <==> k in s
  {
    if s == {} then []
    else
      LeastExists(s);
      var key :| key in s && forall k :: k in s ==> key <= k;
      [key] + SortedKeys(s - {key})
  }

  /** Increasing sequences are determined by their members. */
  lemma {:induction false} IncreasingUnique(a: seq<int>, b: seq<int>)
    requires StrictlyIncreasing(a) && StrictlyIncreasing(b)
    requires forall k :: k in a <==> k in b
    ensures a == b
  {
    if a == [] {
      assert forall i :: 0 <= i < |b| ==> b[i] in a;
    } else {
      var firstA := a[0];
      assert firstA in a && firstA in b;
      var firstB := b[0];
      assert firstB in b && firstB in a;
      forall k
        ensures k in a[1..] <==> k in b[1..]
      {
        TailMembers(a, k);
        TailMembers(b, k);
      }
      IncreasingUnique(a[1..], b[1..]);
    }
  }

  lemma TailMembers(keys: seq<int>, k: int)
    requires StrictlyIncreasing(keys) && keys != []
    ensures k in keys[1..] <==> k in keys && k != keys[0]
  {
    if k in keys && k != keys[0] {
      var i :| 0 <= i < |keys| && keys[i] == k;
      assert keys[1..][i - 1] == k;
    }
  }
}
