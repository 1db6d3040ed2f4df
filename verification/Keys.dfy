/** Accumulo keys and their total order. */
module Keys {
  import opened Bytes

  newtype int64 = t: int | -0x8000_0000_0000_0000 <= t < 0x8000_0000_0000_0000

  const MAX_TIMESTAMP: int64 := 0x7FFF_FFFF_FFFF_FFFF

  datatype Key = Key(
    row: Bytes, family: Bytes, qualifier: Bytes, visibility: Bytes, timestamp: int64, deleted: bool)

  /** The order of the columns below a row; the newest version first, deletion markers before live keys. */
  function CompareColumns(k: Key, other: Key): int {
    if Compare(k.family, other.family) != 0 then Compare(k.family, other.family)
    else if Compare(k.qualifier, other.qualifier) != 0 then Compare(k.qualifier, other.qualifier)
    else if Compare(k.visibility, other.visibility) != 0 then Compare(k.visibility, other.visibility)
    else if other.timestamp < k.timestamp then -1
    else if other.timestamp > k.timestamp then 1
    else if k.deleted == other.deleted then 0
    else if k.deleted then -1
    else 1
  }

  /** Key.Compare. */
  function CompareKeys(k: Key, other: Key): (order: int)
    ensures -1 <= order <= 1
  {
    if Compare(k.row, other.row) != 0 then Compare(k.row, other.row) else CompareColumns(k, other)
  }

  predicate KeyLess(k: Key, other: Key) {
    CompareKeys(k, other) < 0
  }

  predicate KeyAtMost(k: Key, other: Key) {
    CompareKeys(k, other) <= 0
  }

  lemma KeysAntisymmetric(k: Key, other: Key)
    ensures CompareKeys(k, other) == -CompareKeys(other, k)
    ensures CompareKeys(k, other) == 0 <==> k == other
  {
    CompareAntisymmetric(k.row, other.row);
    CompareAntisymmetric(k.family, other.family);
    CompareAntisymmetric(k.qualifier, other.qualifier);
    CompareAntisymmetric(k.visibility, other.visibility);
  }

  lemma ColumnsTransitive(a: Key, b: Key, c: Key)
    requires CompareColumns(a, b) <= 0 && CompareColumns(b, c) <= 0
    ensures CompareColumns(a, c) <= 0
    ensures CompareColumns(a, b) < 0 || CompareColumns(b, c) < 0 ==> CompareColumns(a, c) < 0
  {
    CompareTransitive(a.family, b.family, c.family);
    if Compare(a.family, b.family) == 0 && Compare(b.family, c.family) == 0 {
      CompareTransitive(a.qualifier, b.qualifier, c.qualifier);
      if Compare(a.qualifier, b.qualifier) == 0 && Compare(b.qualifier, c.qualifier) == 0 {
        CompareTransitive(a.visibility, b.visibility, c.visibility);
      }
    }
  }

  /** Key.Compare is a total order: antisymmetric, zero only on equal keys, and transitive. */
  lemma KeysTransitive(a: Key, b: Key, c: Key)
    requires KeyAtMost(a, b) && KeyAtMost(b, c)
    ensures KeyAtMost(a, c)
    ensures KeyLess(a, b) || KeyLess(b, c) ==> KeyLess(a, c)
  {
    CompareTransitive(a.row, b.row, c.row);
    if Compare(a.row, b.row) == 0 && Compare(b.row, c.row) == 0 {
      ColumnsTransitive(a, b, c);
    }
  }

  /** The first field that differs decides: row, family, qualifier and visibility ascend, timestamps descend,
      and of two otherwise equal keys the deletion marker comes first. */
  lemma FirstFieldDecides(k: Key, other: Key)
    ensures KeyLess(k, other) <==>
              if k.row != other.row then Less(k.row, other.row)
              else if k.family != other.family then Less(k.family, other.family)
              else if k.qualifier != other.qualifier then Less(k.qualifier, other.qualifier)
              else if k.visibility != other.visibility then Less(k.visibility, other.visibility)
              else if k.timestamp != other.timestamp then k.timestamp > other.timestamp
              else k.deleted && !other.deleted
  {
  }

  /** firstKeyOfRow for the row itself. */
  function FirstKey(row: Bytes): Key {
    Key(row, [], [], [], MAX_TIMESTAMP, false)
  }

  /** Rows decide against a row's first key, whatever the columns: nothing live in the row is below it. */
  lemma FirstKeySplitsRows(row: Bytes, k: Key)
    ensures Less(k.row, row) ==> KeyLess(k, FirstKey(row))
    ensures Less(row, k.row) ==> KeyLess(FirstKey(row), k)
    ensures k.row == row && !k.deleted ==> KeyAtMost(FirstKey(row), k)
    ensures KeyAtMost(FirstKey(row), k) ==> AtMost(row, k.row)
  {
    CompareAntisymmetric(row, k.row);
    CompareAntisymmetric(k.family, []);
    CompareAntisymmetric(k.qualifier, []);
    CompareAntisymmetric(k.visibility, []);
    KeysAntisymmetric(FirstKey(row), k);
  }
}
