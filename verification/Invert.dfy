/** Inverting a changeset: inserts and deletes trade places, an update's old and new values are
    swapped. */
module Invert {
  import opened Bytes
  import opened Changeset

  predicate IsKey(pk: bytes, i: nat) {
    i < |pk| && pk[i] != 0
  }

  // The inverse of an update's old record, and of its new record.
  function SwappedOld(was: seq<bytes>, now: seq<bytes>, pk: bytes): (r: seq<bytes>)
    requires |was| == |now|
    ensures |r| == |was|
  {
    seq(|was|, i requires 0 <= i < |was| => if IsKey(pk, i) then was[i] else now[i])
  }

  function SwappedNew(was: seq<bytes>, pk: bytes): (r: seq<bytes>)
    ensures |r| == |was|
  {
    seq(|was|, i requires 0 <= i < |was| => if IsKey(pk, i) then OMIT else was[i])
  }

  function InvertFields(fields: seq<bytes>, ncol: nat, pk: bytes): seq<bytes>
    requires |fields| == ncol + ncol
  {
    SwappedOld(fields[..ncol], fields[ncol..], pk) + SwappedNew(fields[..ncol], pk)
  }

  // The key columns in force after `it`.
  function NextKey(it: Item, pk: bytes): bytes {
    if it.Head? then it.hdr.pk else pk
  }

  function InvertItem(it: Item, ncol: nat, pk: bytes): Item {
    match it
    case Head(_) => it
    case Change(op, indirect, fields) =>
      if op == OP_INSERT then Change(OP_DELETE, indirect, fields)
      else if op == OP_DELETE then Change(OP_INSERT, indirect, fields)
      else if |fields| == ncol + ncol then Change(op, indirect, InvertFields(fields, ncol, pk))
      else it
  }

  function InvertItems(items: seq<Item>, ncol: nat, pk: bytes): seq<Item>
    decreases items
  {
    if items == [] then []
    else
      [InvertItem(items[0], ncol, pk)]
      + InvertItems(items[1..], NextCols(items[0], ncol), NextKey(items[0], pk))
  }

  /** The inverse of the changeset `s`, read with `ncol` columns and key columns `pk` in force. */
  function Inverse(s: bytes, ncol: nat, pk: bytes): Result<bytes> {
    match Items(s, ncol)
    case Corrupt => Corrupt
    case Ok(items) => Ok(Unparse(InvertItems(items, ncol, pk)))
  }

  lemma {:induction false} InverseStep(s: bytes, ncol: nat, pk: bytes)
    requires s != [] && ReadItem(s, ncol).Ok?
    ensures var it := ReadItem(s, ncol).value;
            && 0 < |Raw(it)| <= |s|
            && Inverse(s, ncol, pk) == Prepend(Raw(InvertItem(it, ncol, pk)),
                                               Inverse(s[|Raw(it)|..], NextCols(it, ncol), NextKey(it, pk)))
  {
    ItemRead(s, ncol);
    var it := ReadItem(s, ncol).value;
    var rest := Items(s[|Raw(it)|..], NextCols(it, ncol));
    if rest.Ok? {
      assert ([it] + rest.value)[1..] == rest.value;
      var inv := InvertItems(rest.value, NextCols(it, ncol), NextKey(it, pk));
      assert ([InvertItem(it, ncol, pk)] + inv)[1..] == inv;
    }
  }

  // ----- The transform over bytes

  function Append(front: seq<bytes>, r: Result<seq<bytes>>): Result<seq<bytes>> {
    match r
    case Corrupt => Corrupt
    case Ok(rest) => Ok(front + rest)
  }

  lemma {:induction false} SplitFailsEarly(s: bytes, m: nat, n: nat)
    requires SplitRecord(s, m).Corrupt?
    ensures SplitRecord(s, m + n).Corrupt?
    decreases m
  {
    if m > 0 && SerialLen(s).Ok? {
      SplitFailsEarly(s[SerialLen(s).value..], m - 1, n);
    }
  }

  /** Old then new records, each split by itself, are the fields of the update. */
  lemma {:induction false} SplitTwice(s: bytes, m: nat, n: nat)
    requires SplitRecord(s, m).Ok?
    ensures var was := SplitRecord(s, m).value;
            |Join(was)| <= |s| && SplitRecord(s, m + n) == Append(was, SplitRecord(s[|Join(was)|..], n))
    decreases m
  {
    if m == 0 {
      assert s[0..] == s;
      AppendNothing(SplitRecord(s, n));
    } else {
      var k := SerialLen(s).value;
      SplitTwice(s[k..], m - 1, n);
      SplitStep(s, m);
      SplitStep(s, m + n);
      var rest := SplitRecord(s[k..], m - 1).value;
      JoinStep(s, k, rest);
      AppendTwice([s[..k]], rest, SplitRecord(s[k + |Join(rest)|..], n));
    }
  }

  lemma {:induction false} SplitStep(s: bytes, n: nat)
    requires n > 0 && SerialLen(s).Ok?
    ensures SplitRecord(s, n) == Append([s[..SerialLen(s).value]], SplitRecord(s[SerialLen(s).value..], n - 1))
  {
  }

  lemma {:induction false} JoinStep(s: bytes, k: nat, rest: seq<bytes>)
    requires k + |Join(rest)| <= |s|
    ensures |Join([s[..k]] + rest)| == k + |Join(rest)| && s[k..][|Join(rest)|..] == s[k + |Join(rest)|..]
  {
    assert ([s[..k]] + rest)[1..] == rest;
  }

  lemma {:induction false} AppendNothing(r: Result<seq<bytes>>)
    ensures Append([], r) == r
  {
    if r.Ok? {
      assert [] + r.value == r.value;
    }
  }

  lemma {:induction false} AppendTwice(a: seq<bytes>, b: seq<bytes>, r: Result<seq<bytes>>)
    ensures Append(a, Append(b, r)) == Append(a + b, r)
  {
    if r.Ok? {
      assert a + (b + r.value) == (a + b) + r.value;
    }
  }

  // The two loops that rebuild an update's records.
  method SwapRecords(was: seq<bytes>, now: seq<bytes>, pk: bytes) returns (out: bytes)
    requires |was| == |now|
    ensures out == Join(SwappedOld(was, now, pk) + SwappedNew(was, pk))
  {
    var o, n := SwappedOld(was, now, pk), SwappedNew(was, pk);
    out := [];
    for i := 0 to |was|
      invariant out == Join(o[..i])
    {
      out := out + (if IsKey(pk, i) then was[i] else now[i]);
      JoinSnoc(o, i);
    }
    assert o[..|was|] == o;
    for i := 0 to |was|
      invariant out == Join(o) + Join(n[..i])
    {
      out := out + (if IsKey(pk, i) then [0] else was[i]);
      JoinSnoc(n, i);
    }
    assert n[..|was|] == n;
    JoinCat(o, n);
  }

  lemma {:induction false} JoinSnoc(fs: seq<bytes>, i: nat)
    requires i < |fs|
    ensures Join(fs[..i + 1]) == Join(fs[..i]) + fs[i]
  {
    assert fs[..i + 1] == fs[..i] + [fs[i]];
    JoinCat(fs[..i], [fs[i]]);
  }

  // The update record after its two leading bytes: rebuilt, and its length.
  method InvertUpdate(s: bytes, ncol: nat, pk: bytes) returns (r: Result<(bytes, nat)>)
    ensures r.Ok? <==> SplitRecord(s, ncol + ncol).Ok?
    ensures r.Ok? ==> var fields := SplitRecord(s, ncol + ncol).value;
                      && |fields| == ncol + ncol
                      && r.value.0 == Join(InvertFields(fields, ncol, pk)) && r.value.1 == |Join(fields)|
  {
    var was := SplitRecord(s, ncol);
    if was.Corrupt? {
      SplitFailsEarly(s, ncol, ncol);
      return Corrupt;
    }
    SplitTwice(s, ncol, ncol);
    var n := |Join(was.value)|;
    var now := SplitRecord(s[n..], ncol);
    if now.Corrupt? {
      return Corrupt;
    }
    SplitThenJoin(s, ncol);
    SplitThenJoin(s[n..], ncol);
    var swapped := SwapRecords(was.value, now.value, pk);
    JoinCat(was.value, now.value);
    ghost var fields := was.value + now.value;
    assert fields[..ncol] == was.value && fields[ncol..] == now.value;
    return Ok((swapped, n + |Join(now.value)|));
  }

  // The change record at the front of `s`, inverted.
  method InvertChange(s: bytes, ncol: nat, pk: bytes) returns (r: Result<(bytes, nat)>)
    requires s != [] && IsOp(s[0])
    ensures r.Ok? <==> ReadItem(s, ncol).Ok?
    ensures r.Ok? ==> var it := ReadItem(s, ncol).value;
                      r.value.0 == Raw(InvertItem(it, ncol, pk)) && r.value.1 == |Raw(it)|
  {
    if |s| < 2 {
      return Corrupt;
    }
    if s[0] == OP_UPDATE {
      var u := InvertUpdate(s[2..], ncol, pk);
      if u.Corrupt? {
        return Corrupt;
      }
      return Ok(([OP_UPDATE, s[1]] + u.value.0, 2 + u.value.1));
    }
    var rec := SplitRecord(s[2..], ncol);
    if rec.Corrupt? {
      return Corrupt;
    }
    var op := if s[0] == OP_INSERT then OP_DELETE else OP_INSERT;
    return Ok(([op, s[1]] + Join(rec.value), 2 + |Join(rec.value)|));
  }

  // The result, given what has been written and what is left to read.
  ghost function ToGo(rest: bytes, out: bytes, ncol: nat, pk: bytes): Result<bytes> {
    Prepend(out, Inverse(rest, ncol, pk))
  }

  lemma {:induction false} InvertFails(rest: bytes, out: bytes, ncol: nat, pk: bytes)
    requires rest != [] && ReadItem(rest, ncol).Corrupt?
    ensures ToGo(rest, out, ncol, pk).Corrupt?
  {
  }

  lemma {:induction false} InvertStep(rest: bytes, out: bytes, ncol: nat, pk: bytes)
    requires rest != [] && ReadItem(rest, ncol).Ok?
    ensures var it := ReadItem(rest, ncol).value;
            && 0 < |Raw(it)| <= |rest|
            && ToGo(rest, out, ncol, pk)
               == ToGo(rest[|Raw(it)|..], out + Raw(InvertItem(it, ncol, pk)), NextCols(it, ncol), NextKey(it, pk))
  {
    InverseStep(rest, ncol, pk);
    var it := ReadItem(rest, ncol).value;
    PrependStep(out, Raw(InvertItem(it, ncol, pk)),
                Inverse(rest[|Raw(it)|..], NextCols(it, ncol), NextKey(it, pk)));
  }

  lemma {:induction false} InvertEnds(out: bytes, ncol: nat, pk: bytes)
    ensures ToGo([], out, ncol, pk) == Ok(out)
  {
    assert out + [] == out;
  }

  lemma {:induction false} PrependNothing(r: Result<bytes>)
    ensures Prepend([], r) == r
  {
    if r.Ok? {
      assert [] + r.value == r.value;
    }
  }

  // The header or change at the front, inverted, and what is then in force.
  method InvertNext(rest: bytes, ncol: nat, pk: bytes) returns (r: Result<(bytes, nat)>, ncol': nat, pk': bytes)
    requires rest != []
    ensures r.Ok? <==> ReadItem(rest, ncol).Ok?
    ensures r.Ok? ==> var it := ReadItem(rest, ncol).value;
                      && r.value.0 == Raw(InvertItem(it, ncol, pk)) && r.value.1 == |Raw(it)|
                      && ncol' == NextCols(it, ncol) && pk' == NextKey(it, pk)
  {
    ncol', pk' := ncol, pk;
    if rest[0] == HEADER_BYTE {
      var h := ReadHeader(rest);
      if h.Corrupt? {
        return Corrupt, ncol, pk;
      }
      return Ok((h.value.raw, |h.value.raw|)), h.value.ncol, h.value.pk;
    }
    if !IsOp(rest[0]) {
      return Corrupt, ncol, pk;
    }
    r := InvertChange(rest, ncol, pk);
  }

  /** Invert a changeset. */
  method Invert(changeset: bytes) returns (r: Result<bytes>)
    ensures r == Inverse(changeset, 0, [])
  {
    var rest, out: bytes, ncol: nat, pk: bytes := changeset, [], 0, [];
    ghost var goal := Inverse(changeset, 0, []);
    PrependNothing(goal);
    while rest != []
      invariant ToGo(rest, out, ncol, pk) == goal
      decreases |rest|
    {
      var c, ncol', pk' := InvertNext(rest, ncol, pk);
      if c.Corrupt? {
        InvertFails(rest, out, ncol, pk);
        return Corrupt;
      }
      InvertStep(rest, out, ncol, pk);
      rest, out, ncol, pk := rest[c.value.1..], out + c.value.0, ncol', pk';
    }
    InvertEnds(out, ncol, pk);
    return Ok(out);
  }

  // ----- Twice gives the changeset back

  /** The condition under which nothing is lost: no update gives a new value for a key column. */
  predicate KeysStay(it: Item, ncol: nat, pk: bytes) {
    it.Change? && it.op == OP_UPDATE && |it.fields| == ncol + ncol ==>
      forall i :: 0 <= i < ncol && IsKey(pk, i) ==> it.fields[ncol + i] == OMIT
  }

  predicate AllKeysStay(items: seq<Item>, ncol: nat, pk: bytes)
    decreases items
  {
    items == []
    || (KeysStay(items[0], ncol, pk) && AllKeysStay(items[1..], NextCols(items[0], ncol), NextKey(items[0], pk)))
  }

  lemma {:induction false} InvertFieldsTwice(fields: seq<bytes>, ncol: nat, pk: bytes)
    requires |fields| == ncol + ncol
    ensures |InvertFields(fields, ncol, pk)| == ncol + ncol
    ensures InvertFields(InvertFields(fields, ncol, pk), ncol, pk) == fields
            <==> forall i :: 0 <= i < ncol && IsKey(pk, i) ==> fields[ncol + i] == OMIT
  {
    var once := InvertFields(fields, ncol, pk);
    var twice := InvertFields(once, ncol, pk);
    assert forall i :: 0 <= i < ncol ==> twice[i] == fields[i];
    assert forall i :: 0 <= i < ncol ==> twice[ncol + i] == if IsKey(pk, i) then OMIT else fields[ncol + i];
    if twice == fields {
      assert forall i :: 0 <= i < ncol && IsKey(pk, i) ==> fields[ncol + i] == twice[ncol + i] == OMIT;
    }
  }

  lemma {:induction false} InvertKeepsItem(it: Item, ncol: nat, pk: bytes)
    requires IsItem(it, ncol)
    ensures var inv := InvertItem(it, ncol, pk);
            && IsItem(inv, ncol) && NextCols(inv, ncol) == NextCols(it, ncol) && NextKey(inv, pk) == NextKey(it, pk)
            && (InvertItem(inv, ncol, pk) == it <==> KeysStay(it, ncol, pk))
  {
    if it.Change? && it.op == OP_UPDATE {
      InvertFieldsTwice(it.fields, ncol, pk);
      OmitIsField();
    }
  }

  lemma {:induction false} InvertItemsTwice(items: seq<Item>, ncol: nat, pk: bytes)
    requires AreItems(items, ncol)
    ensures var inv := InvertItems(items, ncol, pk);
            && AreItems(inv, ncol)
            && (InvertItems(inv, ncol, pk) == items <==> AllKeysStay(items, ncol, pk))
    decreases items
  {
    if items != [] {
      var it, rest := items[0], items[1..];
      var n, k := NextCols(it, ncol), NextKey(it, pk);
      InvertKeepsItem(it, ncol, pk);
      InvertItemsTwice(rest, n, k);
      var inv := InvertItems(rest, n, k);
      assert InvertItems(items, ncol, pk)[1..] == inv;
      var twice := [InvertItem(InvertItem(it, ncol, pk), ncol, pk)] + InvertItems(inv, n, k);
      assert twice[0] == InvertItem(InvertItem(it, ncol, pk), ncol, pk) && twice[1..] == InvertItems(inv, n, k);
      assert items == [it] + rest;
    }
  }

  /** Inverting a readable changeset always succeeds, and inverting again gives the same bytes exactly
      when no update gives a new value for a key column. */
  lemma {:induction false} InvertTwice(s: bytes)
    requires Items(s, 0).Ok?
    ensures var once := Inverse(s, 0, []);
            && once.Ok?
            && (Inverse(once.value, 0, []) == Ok(s) <==> AllKeysStay(Items(s, 0).value, 0, []))
  {
    var items := Items(s, 0).value;
    ParseThenUnparse(s, 0);
    InvertItemsTwice(items, 0, []);
    var inv := InvertItems(items, 0, []);
    UnparseThenParse(inv, 0);
    InvertItemsTwice(inv, 0, []);
    var twice := InvertItems(inv, 0, []);
    UnparseThenParse(twice, 0);
    UnparseThenParse(items, 0);
  }
}
