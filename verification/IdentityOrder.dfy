/** Client identities in the order their map iterates them: client, then key, both compared as text. */
module IdentityOrder {
  import opened Domain

  /** Lexicographic order on text. */
  predicate TextBefore(a: string, b: string) {
    b != [] && (a == [] || a[0] < b[0] || (a[0] == b[0] && TextBefore(a[1..], b[1..])))
  }

  lemma {:induction false} TextTransitive(a: string, b: string, c: string)
    requires TextBefore(a, b) && TextBefore(b, c)
    ensures TextBefore(a, c)
  {
    if a != [] && a[0] == b[0] && b[0] == c[0] {
      TextTransitive(a[1..], b[1..], c[1..]);
    }
  }

  /** Exactly one of before, equal and after holds. */
  lemma {:induction false} TextTotal(a: string, b: string)
    ensures TextBefore(a, b) || TextBefore(b, a) <==> a != b
    ensures !(TextBefore(a, b) && TextBefore(b, a))
  {
    if a != [] && b != [] && a[0] == b[0] {
      TextTotal(a[1..], b[1..]);
      assert a == [a[0]] + a[1..] && b == [b[0]] + b[1..];
    }
  }

  predicate IdentityBefore(a: Identity, b: Identity) {
    TextBefore(a.clientId, b.clientId) || (a.clientId == b.clientId && TextBefore(a.key, b.key))
  }

  lemma IdentityTransitive(a: Identity, b: Identity, c: Identity)
    requires IdentityBefore(a, b) && IdentityBefore(b, c)
    ensures IdentityBefore(a, c)
  {
    hide TextBefore;
    if TextBefore(a.clientId, b.clientId) && TextBefore(b.clientId, c.clientId) {
      TextTransitive(a.clientId, b.clientId, c.clientId);
    } else if a.clientId == b.clientId == c.clientId {
      TextTransitive(a.key, b.key, c.key);
    }
  }

  lemma IdentityTotal(a: Identity, b: Identity)
    ensures IdentityBefore(a, b) || IdentityBefore(b, a) <==> a != b
    ensures !(IdentityBefore(a, b) && IdentityBefore(b, a))
  {
    hide TextBefore;
    TextTotal(a.clientId, b.clientId);
    TextTotal(a.key, b.key);
  }

  lemma {:induction false} FirstIdentityExists(s: set<Identity>)
    requires s != {}
    ensures exists first :: first in s && forall other :: other in s && other != first ==> IdentityBefore(first, other)
  {
    hide IdentityBefore;
    if forall identity :: identity !in s {
      assert false;
    }
    var identity :| identity in s;
    var rest := s - {identity};
    if rest == {} {
      assert s == {identity};
    } else {
      FirstIdentityExists(rest);
      var first :| first in rest && forall other :: other in rest && other != first ==> IdentityBefore(first, other);
      IdentityTotal(identity, first);
      var least := if IdentityBefore(identity, first) then identity else first;
      forall other | other in s && other != least
        ensures IdentityBefore(least, other)
      {
        if least == identity && other != first {
          IdentityTransitive(identity, first, other);
        }
      }
      assert least in s;
    }
  }

  ghost predicate IdentitiesAscend(ids: seq<Identity>) {
    forall i, j :: 0 <= i < j < |ids| ==> IdentityBefore(ids[i], ids[j])
  }

  /** The members of a finite set in ascending order. */
  function SortedIdentities(s: set<Identity>): (ids: seq<Identity>)
    ensures IdentitiesAscend(ids)
    ensures forall identity :: identity in ids <==> identity in s
  {
    if s == {} then []
    else
      FirstIdentityExists(s);
      FirstIdentityUnique(s);
      var first :| first in s && forall other :: other in s && other != first ==> IdentityBefore(first, other);
      var rest := SortedIdentities(s - {first});
      FirstBeforeRest(first, s, rest);
      [first] + rest
  }

  lemma FirstIdentityUnique(s: set<Identity>)
    ensures forall a, b :: (a in s && forall other :: other in s && other != a ==> IdentityBefore(a, other))
                           && (b in s && forall other :: other in s && other != b ==> IdentityBefore(b, other))
                           ==> a == b
  {
    hide IdentityBefore;
    forall a, b | (a in s && forall other :: other in s && other != a ==> IdentityBefore(a, other))
                  && (b in s && forall other :: other in s && other != b ==> IdentityBefore(b, other))
      ensures a == b
    {
      IdentityTotal(a, b);
    }
  }

  lemma FirstBeforeRest(first: Identity, s: set<Identity>, rest: seq<Identity>)
    requires forall other :: other in s && other != first ==> IdentityBefore(first, other)
    requires IdentitiesAscend(rest) && forall identity :: identity in rest <==> identity in s - {first}
    ensures IdentitiesAscend([first] + rest)
  {
    hide IdentityBefore;
    var all := [first] + rest;
    forall i, j | 0 <= i < j < |all|
      ensures IdentityBefore(all[i], all[j])
    {
      var other := all[j];
      assert other == rest[j - 1];
      assert other in rest;
    }
  }
}
