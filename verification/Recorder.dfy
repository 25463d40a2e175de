/** The recorder of a session: per table, the first change of every row, in a growing hash table. */
module Recorder {
  import opened Bytes
  import opened Changeset
  import opened SessionValues
  import opened Buckets
  import RecordBytes

  datatype ChangeOp = Insert | Update | Delete

  /** A row's first change: its key and, unless it was inserted, its values before. */
  datatype Tracked = Tracked(op: ChangeOp, pk: seq<Value>, was: seq<Value>, indirect: bool)

  // ----- Hashing keys

  function HashWord(h: bv32, u: nat): bv32 {
    RecordBytes.HashAppend(RecordBytes.HashAppend(h, (u % 0x1_0000_0000) as bv32),
                           (u / 0x1_0000_0000 % 0x1_0000_0000) as bv32)
  }

  function HashValue(h: bv32, v: Value): bv32 {
    match v
    case Null => RecordBytes.HashAppend(h, T_NULL as bv32)
    case Integer(i) => HashWord(RecordBytes.HashAppend(h, T_INT as bv32), i % 0x1_0000_0000_0000_0000)
    case Real(bits) => HashWord(RecordBytes.HashAppend(h, T_FLOAT as bv32), bits)
    case Text(t) => RecordBytes.HashBlob(RecordBytes.HashAppend(h, T_TEXT as bv32), t)
    case Blob(b) => RecordBytes.HashBlob(RecordBytes.HashAppend(h, T_BLOB as bv32), b)
  }

  function HashValues(h: bv32, pk: seq<Value>): bv32
    decreases pk
  {
    if pk == [] then h else HashValues(HashValue(h, pk[0]), pk[1..])
  }

  function HashPk(pk: seq<Value>): nat {
    HashValues(0, pk) as nat
  }

  function KeyFn(): Tracked -> seq<Value> {
    (c: Tracked) => c.pk
  }

  function HashFn(): seq<Value> -> nat {
    pk => HashPk(pk)
  }

  // ----- The table of changes

  /** One change per row, each in its bucket, and all of them counted. */
  ghost predicate TrackOk(bs: seq<seq<Tracked>>, nentry: nat) {
    InPlace(bs, KeyFn(), HashFn()) && OnePerKey(Spread(bs), KeyFn()) && nentry == |Spread(bs)|
  }

  // The change of the same row already there only has its flag updated.
  ghost predicate Adjusts(m: multiset<Tracked>, c: Tracked, e: Tracked, after: multiset<Tracked>) {
    && e in m && e.pk == c.pk
    && after == m - multiset{e} + multiset{e.(indirect := e.indirect && c.indirect)}
  }

  /** The contents after `c` has been recorded: the first change of a row stays. */
  ghost predicate RecordsTo(m: multiset<Tracked>, c: Tracked, after: multiset<Tracked>) {
    if forall e :: e in m ==> e.pk != c.pk then after == m + multiset{c}
    else exists e :: Adjusts(m, c, e, after)
  }

  lemma {:induction false} TrackedNew(bs: seq<seq<Tracked>>, nentry: nat, c: Tracked)
    requires |bs| > 0 && TrackOk(bs, nentry)
    requires forall e :: e in bs[HashPk(c.pk) % |bs|] ==> e.pk != c.pk
    ensures var i := HashPk(c.pk) % |bs|;
            var after := bs[i := [c] + bs[i]];
            TrackOk(after, nentry + 1) && RecordsTo(Spread(bs), c, Spread(after))
  {
    var key, hash := KeyFn(), HashFn();
    assert forall e :: key(e) == e.pk;
    NotElsewhere(bs, key, hash, c.pk);
    Prepended(bs, key, hash, c);
    OneMore(Spread(bs), key, c);
  }

  lemma {:induction false} TrackedAdjusted(bs: seq<seq<Tracked>>, nentry: nat, i: nat, j: nat, c: Tracked)
    requires TrackOk(bs, nentry) && i < |bs| && j < |bs[i]| && bs[i][j].pk == c.pk
    ensures var e := bs[i][j];
            var after := bs[i := bs[i][j := e.(indirect := e.indirect && c.indirect)]];
            TrackOk(after, nentry) && RecordsTo(Spread(bs), c, Spread(after))
  {
    var e := bs[i][j];
    var x := e.(indirect := e.indirect && c.indirect);
    var m, key := Spread(bs), KeyFn();
    Adjusted(bs, key, HashFn(), i, j, x);
    OneLess(m, key, e);
    OneMore(m - multiset{e}, key, x);
    assert |m - multiset{e} + multiset{x}| == |m|;
    assert Adjusts(m, c, e, m - multiset{e} + multiset{x});
  }

  class TableChanges {
    const name: bytes
    const pkFlags: bytes
    var buckets: seq<seq<Tracked>>
    var nentry: nat

    ghost predicate Valid()
      reads this
    {
      TrackOk(buckets, nentry)
    }

    constructor (name: bytes, pkFlags: bytes)
      ensures Valid() && this.name == name && this.pkFlags == pkFlags && buckets == [] && nentry == 0
    {
      this.name, this.pkFlags, buckets, nentry := name, pkFlags, [], 0;
    }

    /** Make room: 256 buckets at first, twice as many whenever half are taken. */
    method MaybeGrow()
      requires Valid()
      modifies this
      ensures Valid() && |buckets| > 0 && Spread(buckets) == old(Spread(buckets)) && nentry == old(nentry)
    {
      var n := |buckets|;
      if n == 0 || nentry >= n / 2 {
        buckets := Regrow(buckets, KeyFn(), HashFn(), if n == 0 then 256 else n * 2);
      }
    }

    // The position in bucket `i` of the change of this row.
    method Find(i: nat, pk: seq<Value>) returns (j: Option<nat>)
      requires i < |buckets|
      ensures j.Some? ==> j.value < |buckets[i]| && buckets[i][j.value].pk == pk
      ensures j.None? ==> forall e :: e in buckets[i] ==> e.pk != pk
    {
      for k := 0 to |buckets[i]|
        invariant forall l :: 0 <= l < k ==> buckets[i][l].pk != pk
      {
        if buckets[i][k].pk == pk {
          return Some(k);
        }
      }
      return None;
    }

    method Adjust(i: nat, j: nat, c: Tracked)
      requires Valid() && i < |buckets| && j < |buckets[i]| && buckets[i][j].pk == c.pk
      modifies this
      ensures Valid() && RecordsTo(old(Spread(buckets)), c, Spread(buckets))
    {
      TrackedAdjusted(buckets, nentry, i, j, c);
      var e := buckets[i][j];
      buckets := buckets[i := buckets[i][j := e.(indirect := e.indirect && c.indirect)]];
    }

    method Prepend(i: nat, c: Tracked)
      requires Valid() && |buckets| > 0 && i == HashPk(c.pk) % |buckets| && forall e :: e in buckets[i] ==> e.pk != c.pk
      modifies this
      ensures Valid() && RecordsTo(old(Spread(buckets)), c, Spread(buckets))
    {
      TrackedNew(buckets, nentry, c);
      nentry := nentry + 1;
      buckets := buckets[i := [c] + buckets[i]];
    }

    /** Record a change of a row: only the first one counts. */
    method Record(c: Tracked)
      requires Valid()
      modifies this
      ensures Valid() && RecordsTo(old(Spread(buckets)), c, Spread(buckets))
    {
      MaybeGrow();
      var i := HashPk(c.pk) % |buckets|;
      var j := Find(i, c.pk);
      if j.Some? {
        Adjust(i, j.value, c);
      } else {
        Prepend(i, c);
      }
    }
  }
}
