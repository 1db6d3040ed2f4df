/** A set of visibility labels, kept as a sorted slice without duplicates. */
module Auths {
  import opened Bytes
  import opened SortSearch

  function NotBelow(labels: seq<Bytes>, auth: Bytes): nat -> bool {
    (i: nat) => i < |labels| ==> !Less(labels[i], auth)
  }

  /** The position a label occupies, or would occupy. */
  function SearchLabel(labels: seq<Bytes>, auth: Bytes): (index: nat)
    ensures index <= |labels|
  {
    Search(NotBelow(labels, auth), 0, |labels|)
  }

  predicate Contains(labels: seq<Bytes>, auth: Bytes) {
    var index := SearchLabel(labels, auth);
    index < |labels| && labels[index] == auth
  }

  lemma SearchSplits(labels: seq<Bytes>, auth: Bytes)
    requires StrictlySorted(labels)
    ensures var index := SearchLabel(labels, auth);
            && (forall i :: 0 <= i < index ==> Less(labels[i], auth))
            && (forall i :: index <= i < |labels| ==> AtMost(auth, labels[i]))
  {
    forall i: nat, j: nat | i <= j < |labels| && Less(labels[j], auth) ensures Less(labels[i], auth) {
      if i < j { CompareTransitive(labels[i], labels[j], auth); }
    }
    forall i | 0 <= i < |labels| ensures Less(labels[i], auth) <==> !AtMost(auth, labels[i]) {
      CompareAntisymmetric(labels[i], auth);
    }
    SearchIsLeast(NotBelow(labels, auth), 0, |labels|, SearchLabel(labels, auth));
  }

  /** Bisection finds exactly the labels the slice holds. */
  lemma ContainsIsMembership(labels: seq<Bytes>, auth: Bytes)
    requires StrictlySorted(labels)
    ensures Contains(labels, auth) <==> auth in labels
  {
    SearchSplits(labels, auth);
    var index := SearchLabel(labels, auth);
    forall i | index < i < |labels| ensures labels[i] != auth {
      CompareAntisymmetric(labels[index], auth);
      CompareTransitive(auth, labels[index], labels[i]);
    }
    assert forall i :: 0 <= i < index ==> labels[i] != auth;
  }

  /** The first label of a sorted list is below every other one. */
  lemma HeadIsLeast(a: seq<Bytes>, x: Bytes)
    requires StrictlySorted(a) && x in a
    ensures AtMost(a[0], x)
    ensures x in a[1..] <==> x != a[0]
  {
    assert forall i :: 0 < i < |a| ==> Less(a[0], a[i]);
    assert a == [a[0]] + a[1..];
  }

  /** A set of labels has one sorted list. */
  lemma {:induction false} SortedListIsUnique(a: seq<Bytes>, b: seq<Bytes>)
    requires StrictlySorted(a) && StrictlySorted(b)
    requires forall x :: x in a <==> x in b
    ensures a == b
  {
    assert a != [] ==> a[0] in a && a[0] in b;
    assert b != [] ==> b[0] in b && b[0] in a;
    if a != [] {
      HeadIsLeast(a, b[0]);
      HeadIsLeast(b, a[0]);
      CompareAntisymmetric(a[0], b[0]);
      forall x ensures x in a[1..] <==> x in b[1..] {
        if x in a { HeadIsLeast(a, x); HeadIsLeast(b, x); }
      }
      SortedListIsUnique(a[1..], b[1..]);
    }
  }

  lemma InsertKeepsSorted(labels: seq<Bytes>, index: nat, auth: Bytes)
    requires StrictlySorted(labels) && index <= |labels|
    requires forall i :: 0 <= i < index ==> Less(labels[i], auth)
    requires forall i :: index <= i < |labels| ==> Less(auth, labels[i])
    ensures StrictlySorted(labels[..index] + [auth] + labels[index..])
    ensures forall x :: x in labels[..index] + [auth] + labels[index..] <==> x == auth || x in labels
  {
    assert labels == labels[..index] + labels[index..];
  }

  lemma RemoveKeepsSorted(labels: seq<Bytes>, index: nat)
    requires StrictlySorted(labels) && index < |labels|
    ensures StrictlySorted(labels[..index] + labels[index + 1..])
    ensures forall x :: x in labels[..index] + labels[index + 1..] <==> x != labels[index] && x in labels
  {
    assert labels == labels[..index] + [labels[index]] + labels[index + 1..];
    assert forall i :: 0 <= i < |labels| && i != index ==> labels[i] != labels[index];
  }

  class Authorizations {
    var labels: seq<Bytes>

    ghost predicate Valid()
      reads this
    {
      StrictlySorted(labels)
    }

    ghost function Labels(): set<Bytes>
      reads this
    {
      set auth | auth in labels
    }

    constructor ()
      ensures Valid() && Labels() == {} && labels == []
    {
      labels := [];
    }

    /** Inserts a label; reports whether the set changed. */
    method Add(auth: Bytes) returns (changed: bool)
      requires Valid()
      modifies this
      ensures Valid() && Labels() == old(Labels()) + {auth}
      ensures changed <==> auth !in old(Labels())
    {
      var index := SearchLabel(labels, auth);
      ContainsIsMembership(labels, auth);
      if index < |labels| && labels[index] == auth {
        return false;
      }
      SearchSplits(labels, auth);
      assert forall i :: index <= i < |labels| ==> labels[i] in labels && Less(auth, labels[i]);
      InsertKeepsSorted(labels, index, auth);
      labels := labels[..index] + [auth] + labels[index..];
      return true;
    }

    /** Drops a label; reports whether the set changed. */
    method Remove(auth: Bytes) returns (changed: bool)
      requires Valid()
      modifies this
      ensures Valid() && Labels() == old(Labels()) - {auth}
      ensures changed <==> auth in old(Labels())
    {
      var index := SearchLabel(labels, auth);
      ContainsIsMembership(labels, auth);
      if index == |labels| || labels[index] != auth {
        return false;
      }
      RemoveKeepsSorted(labels, index);
      labels := labels[..index] + labels[index + 1..];
      return true;
    }

    /** Two sets are equal when their slices hold the same bytes in the same order. */
    method Equal(other: Authorizations) returns (equal: bool)
      requires Valid() && other.Valid()
      ensures equal <==> Labels() == other.Labels()
    {
      if Labels() == other.Labels() {
        assert forall x :: x in labels <==> x in Labels();
        assert forall x :: x in other.labels <==> x in other.Labels();
        SortedListIsUnique(labels, other.labels);
      }
      if |labels| != |other.labels| {
        return false;
      }
      for i := 0 to |labels|
        invariant forall j :: 0 <= j < i ==> labels[j] == other.labels[j]
      {
        if labels[i] != other.labels[i] {
          return false;
        }
      }
      assert labels == other.labels;
      return true;
    }
  }
}
