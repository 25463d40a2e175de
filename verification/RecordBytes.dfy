/** Records in their serialized form: walking them with byte cursors, and folding two of them. Each
    walk is tied to what it does to the list of fields. */
module RecordBytes {
  import opened Bytes
  import opened Changeset
  import opened Invert
  import opened Applying
  import opened Coalesce
  import Varint

  /** `record` starts with these fields. */
  predicate Starts(record: bytes, fs: seq<bytes>) {
    SplitRecord(record, |fs|) == Ok(fs)
  }

  // How far a cursor has moved before column `i`.
  function Offset(fs: seq<bytes>, i: nat): nat
    requires i <= |fs|
  {
    |Join(fs[..i])|
  }

  /** At the offset of column `i`, the cursor sees the field `i`. */
  lemma {:induction false} AtCursor(record: bytes, fs: seq<bytes>, i: nat)
    requires Starts(record, fs) && i < |fs|
    ensures var at := Offset(fs, i);
            && at + |fs[i]| <= |record| && IsField(fs[i]) && fs[i] != []
            && SerialLen(record[at..]) == Ok(|fs[i]|) && record[at..at + |fs[i]|] == fs[i]
            && Offset(fs, i + 1) == at + |fs[i]|
  {
    SplitThenJoin(record, |fs|);
    var tail := Join(fs[i + 1..]) + record[|Join(fs)|..];
    JoinAround(fs, i, record[|Join(fs)|..]);
    FieldThen(fs[i], tail);
    MiddleOf(Join(fs[..i]), fs[i], tail);
    JoinSnoc(fs, i);
    OmittedField(fs[i]);
  }

  lemma {:induction false} JoinAround(fs: seq<bytes>, i: nat, rest: bytes)
    requires i < |fs|
    ensures Join(fs) + rest == Join(fs[..i]) + (fs[i] + (Join(fs[i + 1..]) + rest))
  {
    var front, back := fs[..i], fs[i + 1..];
    assert fs == front + ([fs[i]] + back);
    JoinCat(front, [fs[i]] + back);
    assert ([fs[i]] + back)[1..] == back;
    FourCat(Join(front), fs[i], Join(back), rest);
  }

  lemma {:induction false} FourCat(a: bytes, b: bytes, c: bytes, d: bytes)
    ensures (a + (b + c)) + d == a + (b + (c + d))
  {
  }

  lemma {:induction false} MiddleOf(a: bytes, b: bytes, c: bytes)
    ensures (a + (b + c))[|a|..] == b + c && (a + (b + c))[|a|..|a| + |b|] == b
  {
  }

  // ----- Hashing the key

  function HashAppend(h: bv32, add: bv32): bv32 {
    (h << 3) ^ h ^ add
  }

  function Word(b: bytes): bv32
    requires |b| == 4
  {
    (b[0] as bv32 << 24) | (b[1] as bv32 << 16) | (b[2] as bv32 << 8) | b[3] as bv32
  }

  function HashBlob(h: bv32, b: bytes): bv32
    decreases b
  {
    if b == [] then h else HashBlob(HashAppend(h, b[0] as bv32), b[1..])
  }

  /** One key field: its type byte, then its value. */
  function HashField(h: bv32, f: bytes): bv32 {
    if f == [] then h
    else
      var h1 := HashAppend(h, f[0] as bv32);
      if (f[0] == T_INT || f[0] == T_FLOAT) && |f| == 9 then
        HashAppend(HashAppend(h1, Word(f[5..9])), Word(f[1..5]))
      else if f[0] == T_TEXT || f[0] == T_BLOB then
        match Varint.Decode(f[1..])
        case Truncated => h1
        case Decoded(n, len) => if 1 + len + n <= |f| then HashBlob(h1, f[1 + len..1 + len + n]) else h1
      else h1
  }

  function HashColumns(key: seq<bytes>, pk: bytes, n: nat): bv32
    requires n <= |key|
  {
    if n == 0 then 0
    else if IsKey(pk, n - 1) then HashField(HashColumns(key, pk, n - 1), key[n - 1])
    else HashColumns(key, pk, n - 1)
  }

  /** The hash of a key; the columns outside the key do not enter into it. */
  function KeyHash(key: seq<bytes>, pk: bytes): nat {
    HashColumns(key, pk, |key|) as nat
  }

  lemma {:induction false} HashIgnoresRest(fs: seq<bytes>, pk: bytes, n: nat)
    requires n <= |pk| <= |fs|
    ensures HashColumns(fs, pk, n) == HashColumns(KeyOf(fs, pk), pk, n)
  {
    if n > 0 {
      HashIgnoresRest(fs, pk, n - 1);
    }
  }

  // The length of the field at the cursor.
  method FieldLen(record: bytes, off: nat, ghost fs: seq<bytes>, ghost i: nat) returns (n: nat)
    requires Starts(record, fs) && i < |fs| && off == Offset(fs, i)
    ensures n == |fs[i]| && off + n == Offset(fs, i + 1) <= |record| && record[off..off + n] == fs[i]
    ensures IsField(fs[i]) && fs[i] != []
  {
    AtCursor(record, fs, i);
    n := SerialLen(record[off..]).value;
  }

  /** The bucket of a record, by a walk over its bytes. */
  method Hash(record: bytes, pk: bytes, nbucket: nat, ghost fs: seq<bytes>) returns (i: nat)
    requires Starts(record, fs) && |fs| == |pk| && nbucket > 0
    ensures i == KeyHash(KeyOf(fs, pk), pk) % nbucket
  {
    var h: bv32, off := 0, 0;
    for i := 0 to |pk|
      invariant off == Offset(fs, i) && h == HashColumns(fs, pk, i)
    {
      var n := FieldLen(record, off, fs, i);
      if IsKey(pk, i) {
        h := HashField(h, record[off..off + n]);
      }
      off := off + n;
    }
    HashIgnoresRest(fs, pk, |pk|);
    i := h as nat % nbucket;
  }

  /** Whether two records are about the same row. */
  method PkEqual(a: bytes, b: bytes, pk: bytes, ghost fa: seq<bytes>, ghost fb: seq<bytes>) returns (same: bool)
    requires Starts(a, fa) && Starts(b, fb) && |fa| == |fb| == |pk|
    ensures same <==> KeyOf(fa, pk) == KeyOf(fb, pk)
  {
    SameKey(fa, fb, pk);
    var oa, ob := 0, 0;
    for i := 0 to |pk|
      invariant oa == Offset(fa, i) && ob == Offset(fb, i)
      invariant forall j :: 0 <= j < i && IsKey(pk, j) ==> fa[j] == fb[j]
    {
      var na := FieldLen(a, oa, fa, i);
      var nb := FieldLen(b, ob, fb, i);
      if IsKey(pk, i) && (na != nb || a[oa..oa + na] != b[ob..ob + nb]) {
        return false;
      }
      oa, ob := oa + na, ob + nb;
    }
    return true;
  }

  // ----- Folding records

  /** Field by field, the right one where it is given, else the left one. */
  method MergeRecord(left: bytes, right: bytes, ncol: nat, ghost lf: seq<bytes>, ghost rf: seq<bytes>)
    returns (out: bytes)
    requires Starts(left, lf) && Starts(right, rf) && |lf| == |rf| == ncol
    ensures out == Join(Overlay(lf, rf))
  {
    var lo, ro := 0, 0;
    ghost var merged := Overlay(lf, rf);
    out := [];
    for i := 0 to ncol
      invariant lo == Offset(lf, i) && ro == Offset(rf, i) && out == Join(merged[..i])
    {
      var nl := FieldLen(left, lo, lf, i);
      var nr := FieldLen(right, ro, rf, i);
      OmittedField(rf[i]);
      JoinSnoc(merged, i);
      assert right[ro..ro + nr][0] == right[ro];
      if right[ro] != 0 {
        out := out + right[ro..ro + nr];
      } else {
        out := out + left[lo..lo + nl];
      }
      lo, ro := lo + nl, ro + nr;
    }
    assert merged[..ncol] == merged;
  }

  // The fields of the record that prefers `two` where it is given.
  ghost function Preferred(one: seq<bytes>, two: Option<seq<bytes>>): (r: seq<bytes>)
    requires two.Some? ==> |two.value| == |one|
    ensures |r| == |one|
  {
    if two.Some? then Overlay(one, two.value) else one
  }

  ghost predicate MaybeStarts(record: Option<bytes>, fs: Option<seq<bytes>>, n: nat) {
    (record.Some? <==> fs.Some?) && (fs.Some? ==> |fs.value| == n && Starts(record.value, fs.value))
  }

  ghost function MaybeOffset(fs: Option<seq<bytes>>, i: nat): nat
    requires fs.Some? ==> i <= |fs.value|
  {
    if fs.Some? then Offset(fs.value, i) else 0
  }

  /** One column of two parallel records, and both cursors moved on. */
  method MergeValue(one: bytes, co: nat, two: Option<bytes>, ct: nat, i: nat,
                    ghost f1: seq<bytes>, ghost f2: Option<seq<bytes>>)
    returns (field: bytes, co': nat, ct': nat)
    requires Starts(one, f1) && i < |f1| && co == Offset(f1, i)
    requires MaybeStarts(two, f2, |f1|) && ct == MaybeOffset(f2, i)
    ensures field == Preferred(f1, f2)[i] && co' == Offset(f1, i + 1) && ct' == MaybeOffset(f2, i + 1)
  {
    AtCursor(one, f1, i);
    var n1 := SerialLen(one[co..]).value;
    field, co', ct' := one[co..co + n1], co + n1, ct;
    if two.Some? {
      AtCursor(two.value, f2.value, i);
      var n2 := SerialLen(two.value[ct..]).value;
      var g := two.value[ct..ct + n2];
      OmittedField(g);
      if g[0] != 0 {
        field := g;
      }
      ct' := ct + n2;
    }
  }

  // The four records an update is folded from, and where their cursors stand.
  datatype Sources = Sources(old1: bytes, old2: Option<bytes>, new1: bytes, new2: Option<bytes>)

  datatype SourceFields = SourceFields(old1: Row, old2: Option<Row>, new1: Row, new2: Option<Row>) {
    ghost predicate Of(s: Sources, n: nat) {
      && |old1| == |new1| == n && Starts(s.old1, old1) && Starts(s.new1, new1)
      && MaybeStarts(s.old2, old2, n) && MaybeStarts(s.new2, new2, n)
    }

    ghost function Was(): Row
      requires old2.Some? ==> |old2.value| == |old1|
    {
      Preferred(old1, old2)
    }

    ghost function Now(): Row
      requires new2.Some? ==> |new2.value| == |new1|
    {
      Preferred(new1, new2)
    }
  }

  datatype Cursors = Cursors(co1: nat, co2: nat, cn1: nat, cn2: nat)

  ghost predicate CursorsAt(c: Cursors, fs: SourceFields, s: Sources, n: nat, i: nat) {
    && fs.Of(s, n) && i <= n
    && c.co1 == Offset(fs.old1, i) && c.co2 == MaybeOffset(fs.old2, i)
    && c.cn1 == Offset(fs.new1, i) && c.cn2 == MaybeOffset(fs.new2, i)
  }

  // The old and the new value of column `i`.
  method NextValues(s: Sources, c: Cursors, n: nat, i: nat, ghost fs: SourceFields)
    returns (o: bytes, v: bytes, c': Cursors)
    requires CursorsAt(c, fs, s, n, i) && i < n
    ensures CursorsAt(c', fs, s, n, i + 1) && o == fs.Was()[i] && v == fs.Now()[i]
  {
    var co1, co2, cn1, cn2;
    o, co1, co2 := MergeValue(s.old1, c.co1, s.old2, c.co2, i, fs.old1, fs.old2);
    v, cn1, cn2 := MergeValue(s.new1, c.cn1, s.new2, c.cn2, i, fs.new1, fs.new2);
    c' := Cursors(co1, co2, cn1, cn2);
  }

  method FoldOld(s: Sources, pk: bytes, ghost fs: SourceFields) returns (out: bytes, required: bool)
    requires fs.Of(s, |pk|)
    ensures out == Join(FoldedWas(fs.Was(), fs.Now(), pk)) && required == Required(fs.Was(), fs.Now(), pk)
  {
    var c := Cursors(0, 0, 0, 0);
    ghost var was, now := fs.Was(), fs.Now();
    ghost var folded := FoldedWas(was, now, pk);
    out, required := [], false;
    for i := 0 to |pk|
      invariant CursorsAt(c, fs, s, |pk|, i) && out == Join(folded[..i])
      invariant required <==> exists j :: 0 <= j < i && !IsKey(pk, j) && was[j] != now[j]
    {
      var o, v;
      o, v, c := NextValues(s, c, |pk|, i, fs);
      JoinSnoc(folded, i);
      if IsKey(pk, i) || o != v {
        if !IsKey(pk, i) {
          required := true;
        }
        out := out + o;
      } else {
        out := out + [0];
      }
    }
    assert folded[..|pk|] == folded;
  }

  method FoldNew(s: Sources, pk: bytes, ghost fs: SourceFields) returns (out: bytes)
    requires fs.Of(s, |pk|)
    ensures out == Join(FoldedNow(fs.Was(), fs.Now(), pk))
  {
    var c := Cursors(0, 0, 0, 0);
    ghost var folded := FoldedNow(fs.Was(), fs.Now(), pk);
    out := [];
    for i := 0 to |pk|
      invariant CursorsAt(c, fs, s, |pk|, i) && out == Join(folded[..i])
    {
      var o, v;
      o, v, c := NextValues(s, c, |pk|, i, fs);
      JoinSnoc(folded, i);
      out := out + (if IsKey(pk, i) || o == v then [0] else v);
    }
    assert folded[..|pk|] == folded;
  }

  /** Fold the records of two changes into those of one update. */
  method MergeUpdate(s: Sources, pk: bytes, ghost fs: SourceFields) returns (out: Option<bytes>)
    requires fs.Of(s, |pk|)
    ensures match FoldUpdate(fs.Was(), fs.Now(), pk)
            case None => out.None?
            case Some(fields) => out == Some(Join(fields))
  {
    var was, required := FoldOld(s, pk, fs);
    if !required {
      return None;
    }
    var now := FoldNew(s, pk, fs);
    JoinCat(FoldedWas(fs.Was(), fs.Now(), pk), FoldedNow(fs.Was(), fs.Now(), pk));
    return Some(was + now);
  }
}
