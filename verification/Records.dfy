/** Index records and their order: field by field, each under its column's collation and
    direction, with the shorter of two otherwise equal records first. */
module Records {
  import opened Bytes
  import opened Values

  type Record = seq<StoredValue>

  /** Per-column collations and DESC flags; columns past the end are BINARY and ascending. */
  datatype KeyInfo = KeyInfo(colls: seq<Collation>, descs: seq<bool>) {
    function Coll(i: nat): Collation {
      if i < |colls| then colls[i] else Binary
    }

    function Desc(i: nat): bool {
      i < |descs| && descs[i]
    }
  }

  function CmpField(x: StoredValue, y: StoredValue, info: KeyInfo, i: nat): Ordering {
    var o := CmpValuesColl(x, y, info.Coll(i));
    if info.Desc(i) then o.Reverse() else o
  }

  function CmpRecordsFrom(a: Record, b: Record, info: KeyInfo, i: nat): Ordering
    decreases |a| - i
  {
    if i < |a| && i < |b| then
      var o := CmpField(a[i], b[i], info, i);
      if o != Equal then o else CmpRecordsFrom(a, b, info, i + 1)
    else CmpInt(|a|, |b|)
  }

  /** The comparison that orders an index. */
  function CmpRecords(a: Record, b: Record, info: KeyInfo): Ordering {
    CmpRecordsFrom(a, b, info, 0)
  }

  function PrefixCmpFrom(key: Record, rec: Record, info: KeyInfo, i: nat): Ordering
    decreases |key| - i
  {
    if i < |key| && i < |rec| then
      var o := CmpField(key[i], rec[i], info, i);
      if o != Equal then o else PrefixCmpFrom(key, rec, info, i + 1)
    else Equal
  }

  /** A search key against the leading columns of a record. */
  function PrefixCmp(key: Record, rec: Record, info: KeyInfo): Ordering {
    PrefixCmpFrom(key, rec, info, 0)
  }

  // ----- Total preorders

  type Comparator = (Record, Record) -> Ordering

  ghost predicate TotalPreorder(cmp: Comparator) {
    && (forall a, b :: cmp(b, a) == cmp(a, b).Reverse())
    && (forall a, b, c :: cmp(a, b) != Greater && cmp(b, c) != Greater ==> cmp(a, c) != Greater)
  }

  // A chain of comparisons with a strict link is strict.
  lemma {:induction false} StrictChain(cmp: Comparator, a: Record, b: Record, c: Record)
    requires TotalPreorder(cmp)
    requires cmp(a, b) != Greater && cmp(b, c) != Greater
    requires cmp(a, b) == Less || cmp(b, c) == Less
    ensures cmp(a, c) == Less
  {
    assert cmp(c, a) == cmp(a, c).Reverse();
    assert cmp(b, a) == cmp(a, b).Reverse();
    assert cmp(c, b) == cmp(b, c).Reverse();
    assert cmp(c, a) != Greater ==> cmp(b, a) != Greater && cmp(c, b) != Greater;
  }

  lemma {:induction false} FieldFlip(x: StoredValue, y: StoredValue, info: KeyInfo, i: nat)
    ensures CmpField(y, x, info, i) == CmpField(x, y, info, i).Reverse()
  {
    ComparisonFollowsKeys(x, y, info.Coll(i));
    ComparisonFollowsKeys(y, x, info.Coll(i));
    KeyFlip(KeyOf(x, info.Coll(i)), KeyOf(y, info.Coll(i)));
  }

  lemma {:induction false} FieldTransitive(x: StoredValue, y: StoredValue, z: StoredValue, info: KeyInfo, i: nat)
    requires CmpField(x, y, info, i) != Greater && CmpField(y, z, info, i) != Greater
    ensures CmpField(x, z, info, i) != Greater
    ensures CmpField(x, y, info, i) == Less || CmpField(y, z, info, i) == Less ==> CmpField(x, z, info, i) == Less
  {
    var coll := info.Coll(i);
    ComparisonFollowsKeys(x, y, coll);
    ComparisonFollowsKeys(y, z, coll);
    ComparisonFollowsKeys(x, z, coll);
    var kx, ky, kz := KeyOf(x, coll), KeyOf(y, coll), KeyOf(z, coll);
    if info.Desc(i) {
      KeyFlip(kx, ky);
      KeyFlip(ky, kz);
      KeyFlip(kx, kz);
      KeyTransitive(kz, ky, kx);
    } else {
      KeyTransitive(kx, ky, kz);
    }
  }

  lemma {:induction false} RecordFlip(a: Record, b: Record, info: KeyInfo, i: nat)
    ensures CmpRecordsFrom(b, a, info, i) == CmpRecordsFrom(a, b, info, i).Reverse()
    decreases |a| - i
  {
    if i < |a| && i < |b| {
      FieldFlip(a[i], b[i], info, i);
      RecordFlip(a, b, info, i + 1);
    }
  }

  lemma {:induction false} RecordTransitive(a: Record, b: Record, c: Record, info: KeyInfo, i: nat)
    requires i <= |a| && i <= |b| && i <= |c|
    requires CmpRecordsFrom(a, b, info, i) != Greater && CmpRecordsFrom(b, c, info, i) != Greater
    ensures CmpRecordsFrom(a, c, info, i) != Greater
    decreases |a| - i
  {
    if i < |a| && i < |b| && i < |c| {
      FieldTransitive(a[i], b[i], c[i], info, i);
      if CmpField(a[i], b[i], info, i) == Equal && CmpField(b[i], c[i], info, i) == Equal {
        FieldFlip(a[i], b[i], info, i);
        FieldFlip(b[i], c[i], info, i);
        FieldFlip(a[i], c[i], info, i);
        FieldTransitive(c[i], b[i], a[i], info, i);
        RecordTransitive(a, b, c, info, i + 1);
      }
    }
  }

  /** The order of an index, as a comparator. */
  function IndexOrder(info: KeyInfo): Comparator {
    (a, b) => CmpRecords(a, b, info)
  }

  /** The index comparison is a total preorder, whatever the collations and directions. */
  lemma {:induction false} CmpRecordsIsTotalPreorder(info: KeyInfo)
    ensures TotalPreorder(IndexOrder(info))
  {
    forall a: Record, b: Record
      ensures CmpRecords(b, a, info) == CmpRecords(a, b, info).Reverse()
    {
      RecordFlip(a, b, info, 0);
    }
    forall a: Record, b: Record, c: Record | CmpRecords(a, b, info) != Greater && CmpRecords(b, c, info) != Greater
      ensures CmpRecords(a, c, info) != Greater
    {
      RecordTransitive(a, b, c, info, 0);
    }
  }

  // ----- Prefix keys

  /** Records that have every column of the key keep the key's verdict in order: moving up
      the index, a key goes from above the records, to equal, to below them. */
  lemma {:induction false} PrefixMonotone(key: Record, a: Record, b: Record, info: KeyInfo)
    requires |key| <= |a| && |key| <= |b|
    requires CmpRecords(a, b, info) != Greater
    ensures PrefixCmp(key, a, info) == Less ==> PrefixCmp(key, b, info) == Less
    ensures PrefixCmp(key, b, info) == Greater ==> PrefixCmp(key, a, info) == Greater
  {
    PrefixMonotoneFrom(key, a, b, info, 0);
  }

  lemma {:induction false} PrefixMonotoneFrom(key: Record, a: Record, b: Record, info: KeyInfo, i: nat)
    requires i <= |key| <= |a| && |key| <= |b|
    requires CmpRecordsFrom(a, b, info, i) != Greater
    ensures PrefixCmpFrom(key, a, info, i) == Less ==> PrefixCmpFrom(key, b, info, i) == Less
    ensures PrefixCmpFrom(key, b, info, i) == Greater ==> PrefixCmpFrom(key, a, info, i) == Greater
    decreases |key| - i
  {
    if i < |key| {
      var k, x, y := key[i], a[i], b[i];
      FieldFlip(k, x, info, i);
      FieldFlip(k, y, info, i);
      FieldFlip(x, y, info, i);
      if CmpField(k, x, info, i) != Greater {
        FieldTransitive(k, x, y, info, i);
      }
      if CmpField(y, k, info, i) != Greater {
        FieldTransitive(x, y, k, info, i);
      }
      if CmpField(x, y, info, i) == Equal {
        PrefixMonotoneFrom(key, a, b, info, i + 1);
      }
    }
  }
}
