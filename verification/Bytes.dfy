/** Byte strings and their unsigned lexicographic order, the one every row, label and term is compared by. */
module Bytes {
  newtype byte = b: int | 0 <= b < 0x100

  type Bytes = seq<byte>

  /** bytes.Compare: -1, 0 or +1. */
  function Compare(a: Bytes, b: Bytes): (order: int)
    ensures -1 <= order <= 1
    ensures order == 0 <==> a == b
  {
    if a == [] then (if b == [] then 0 else -1)
    else if b == [] then 1
    else if a[0] < b[0] then -1
    else if b[0] < a[0] then 1
    else
      assert a == [a[0]] + a[1..] && b == [b[0]] + b[1..];
      Compare(a[1..], b[1..])
  }

  predicate Less(a: Bytes, b: Bytes) {
    Compare(a, b) < 0
  }

  predicate AtMost(a: Bytes, b: Bytes) {
    Compare(a, b) <= 0
  }

  lemma {:induction false} CompareAntisymmetric(a: Bytes, b: Bytes)
    ensures Compare(a, b) == -Compare(b, a)
  {
    if a != [] && b != [] && a[0] == b[0] {
      CompareAntisymmetric(a[1..], b[1..]);
    }
  }

  lemma {:induction false} CompareTransitive(a: Bytes, b: Bytes, c: Bytes)
    requires AtMost(a, b) && AtMost(b, c)
    ensures AtMost(a, c)
    ensures Less(a, b) || Less(b, c) ==> Less(a, c)
  {
    if a != [] && b != [] && c != [] && a[0] == b[0] == c[0] {
      CompareTransitive(a[1..], b[1..], c[1..]);
    }
  }

  /** The first place two strings differ at, where one of them may have ended. */
  ghost predicate FirstDifference(a: Bytes, b: Bytes, i: nat) {
    && i <= |a| && i <= |b| && a[..i] == b[..i]
    && (i == |a| || i == |b| || a[i] != b[i])
  }

  /** One string is below another exactly when it ends, or has the smaller byte, where they first differ. */
  lemma {:induction false} LessIsLexicographic(a: Bytes, b: Bytes, i: nat)
    requires FirstDifference(a, b, i)
    ensures Less(a, b) <==> i < |b| && (i == |a| || a[i] < b[i])
    decreases i
  {
    if i > 0 {
      assert a[0] == a[..i][0] == b[..i][0] == b[0];
      assert a[1..][..i - 1] == a[..i][1..] == b[..i][1..] == b[1..][..i - 1];
      LessIsLexicographic(a[1..], b[1..], i - 1);
    }
  }

  /** The byte string that follows `row` immediately: no row lies between the two. */
  function Successor(row: Bytes): Bytes {
    row + [0]
  }

  /** `Successor(row)` is the least byte string above `row`. */
  lemma {:induction false} SuccessorIsNext(row: Bytes, other: Bytes)
    ensures Less(row, Successor(row))
    ensures Less(other, Successor(row)) <==> AtMost(other, row)
    ensures AtMost(Successor(row), other) <==> Less(row, other)
  {
    CompareAntisymmetric(Successor(row), other);
    CompareAntisymmetric(row, other);
    if row != [] {
      assert Successor(row)[1..] == Successor(row[1..]);
      SuccessorIsNext(row[1..], if other == [] then [] else other[1..]);
      if other != [] {
        CompareAntisymmetric(Successor(row[1..]), other[1..]);
        CompareAntisymmetric(row[1..], other[1..]);
      }
    } else if other != [] {
      assert Successor(row) == [0];
      assert Successor(row)[1..] == [];
      assert other == [other[0]] + other[1..];
    }
  }

  /** Appending NUL to both sides keeps their order. */
  lemma SuccessorMonotone(a: Bytes, b: Bytes)
    ensures AtMost(Successor(a), Successor(b)) <==> AtMost(a, b)
    ensures Less(Successor(a), Successor(b)) <==> Less(a, b)
  {
    SuccessorIsNext(b, a);
    SuccessorIsNext(a, b);
    SuccessorIsNext(b, Successor(a));
    SuccessorIsNext(a, Successor(b));
    CompareAntisymmetric(a, b);
    CompareAntisymmetric(Successor(a), Successor(b));
  }

  /** Rows in strictly ascending order: a sorted list without duplicates. */
  predicate StrictlySorted(rows: seq<Bytes>) {
    forall i, j :: 0 <= i < j < |rows| ==> Less(rows[i], rows[j])
  }
}
