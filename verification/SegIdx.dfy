/** The `%_idx` rows of a segment: for every leaf on which a term starts, a separator below which a
    search does not reach it. */
module SegIdx {
  import opened Bytes
  import opened SegLeaf
  import opened SegBuild

  datatype IdxRow = IdxRow(term: bytes, pgno: nat)

  /** `first` cut just after the first byte in which it differs from `prevLast`. */
  function Separator(prevLast: bytes, first: bytes): bytes {
    var n := Common(prevLast, first);
    if n + 1 <= |first| then first[..n + 1] else first
  }

  // The last key on these leaves.
  function LastKeyOf(ls: seq<Leaf>): Option<bytes> {
    if ls == [] then None
    else
      var n := |ls| - 1;
      if ls[n].parts != [] then LastKey(ls[n].parts) else LastKeyOf(ls[..n])
  }

  function FirstKey(parts: seq<Part>): Option<bytes> {
    if parts == [] then None else Some(parts[0].key)
  }

  function SepFor(prev: Option<bytes>, first: bytes): bytes {
    if prev.Some? then Separator(prev.value, first) else []
  }

  /** The rows of these leaves, in order. */
  function IdxRows(ls: seq<Leaf>): seq<IdxRow> {
    if ls == [] then []
    else
      var n := |ls| - 1;
      IdxRows(ls[..n])
      + (if ls[n].parts == [] then [] else [IdxRow(SepFor(LastKeyOf(ls[..n]), ls[n].parts[0].key), n + 1)])
  }

  /** What the writer keeps for the rows: those of finished leaves, the first and the last term of the
      leaf being filled, and the last term before it. */
  datatype IdxState = IdxState(rows: seq<IdxRow>, first: Option<bytes>, last: Option<bytes>, prevLast: Option<bytes>) {
    // The page is turned.
    function Turn(pgno: nat): IdxState {
      IdxState(if first.Some? then rows + [IdxRow(SepFor(prevLast, first.value), pgno)] else rows,
               None, None, if last.Some? then last else prevLast)
    }

    // A term starts on the page.
    function Note(key: bytes): IdxState {
      this.(first := if first.Some? then first else Some(key), last := Some(key))
    }
  }

  ghost predicate Indexes(ix: IdxState, done: seq<Leaf>, cur: Leaf) {
    ix == IdxState(IdxRows(done), FirstKey(cur.parts), LastKey(cur.parts), LastKeyOf(done))
  }

  lemma {:induction false} IndexTurn(ix: IdxState, done: seq<Leaf>, cur: Leaf)
    requires Indexes(ix, done, cur)
    ensures Indexes(ix.Turn(|done| + 1), done + [cur], BLANK)
  {
    var ls := done + [cur];
    assert ls[..|ls| - 1] == done && ls[|ls| - 1] == cur;
    assert IdxRows(done) + [] == IdxRows(done);
  }

  lemma {:induction false} IndexNote(ix: IdxState, done: seq<Leaf>, cur: Leaf, key: bytes)
    requires Indexes(ix, done, cur)
    ensures Indexes(ix.Note(key), done, AddTerm(cur, key))
  {
  }

  lemma {:induction false} IndexAppend(ix: IdxState, done: seq<Leaf>, cur: Leaf, b: bytes)
    requires Indexes(ix, done, cur)
    ensures Indexes(ix, done, Append(cur, b))
  {
  }

  // ----- Routing

  function PartKeys(parts: seq<Part>): (r: seq<bytes>)
    ensures |r| == |parts| && forall i :: 0 <= i < |r| ==> r[i] == parts[i].key
  {
    seq(|parts|, i requires 0 <= i < |parts| => parts[i].key)
  }

  /** The keys on these leaves, in order. */
  function AllKeys(ls: seq<Leaf>): seq<bytes> {
    if ls == [] then [] else AllKeys(ls[..|ls| - 1]) + PartKeys(ls[|ls| - 1].parts)
  }

  predicate KeysAscend(ks: seq<bytes>) {
    forall i, j :: 0 <= i < j < |ks| ==> LexCmp(ks[i], ks[j]) == Less
  }

  predicate RowsAscend(rows: seq<IdxRow>) {
    forall i, j :: 0 <= i < j < |rows| ==> LexCmp(rows[i].term, rows[j].term) == Less
  }

  /** The leaf of the greatest separator that is not above `key`. */
  function Route(rows: seq<IdxRow>, key: bytes): Option<nat> {
    if rows == [] then None
    else
      var row := rows[|rows| - 1];
      if LexCmp(row.term, key) != Greater then Some(row.pgno) else Route(rows[..|rows| - 1], key)
  }

  // `b` is compared with an extension of itself.
  lemma {:induction false} LexPrefix(a: bytes, n: nat)
    requires n <= |a|
    ensures LexCmp(a[..n], a) != Greater
  {
    if n > 0 {
      assert a[..n][1..] == a[1..][..n - 1];
      LexPrefix(a[1..], n - 1);
    }
  }

  lemma {:induction false} SeparatorAbove(prev: bytes, first: bytes)
    requires LexCmp(prev, first) == Less
    ensures LexCmp(prev, Separator(prev, first)) == Less
    decreases prev
  {
    if prev != [] && prev[0] == first[0] {
      SeparatorAbove(prev[1..], first[1..]);
      var n := Common(prev[1..], first[1..]);
      assert Common(prev, first) == n + 1;
      var sep, rest := Separator(prev, first), Separator(prev[1..], first[1..]);
      assert sep[1..] == rest;
      assert sep[0] == prev[0];
    }
  }

  /** A separator is above the last key before it and not above the first key after it. */
  lemma {:induction false} SeparatorBetween(prev: bytes, first: bytes)
    requires LexCmp(prev, first) == Less
    ensures LexCmp(prev, Separator(prev, first)) == Less && LexCmp(Separator(prev, first), first) != Greater
  {
    SeparatorAbove(prev, first);
    var n := Common(prev, first);
    if n + 1 <= |first| {
      LexPrefix(first, n + 1);
    } else {
      LexPrefix(first, |first|);
      assert first[..|first|] == first;
    }
  }

  lemma {:induction false} LastOfAll(ls: seq<Leaf>)
    ensures AllKeys(ls) == [] <==> LastKeyOf(ls) == None
    ensures AllKeys(ls) != [] ==> LastKeyOf(ls) == Some(AllKeys(ls)[|AllKeys(ls)| - 1])
  {
    if ls != [] {
      LastOfAll(ls[..|ls| - 1]);
    }
  }

  // The keys of all leaves but the last, and of the last.
  lemma {:induction false} AscendSplit(a: seq<bytes>, b: seq<bytes>)
    requires KeysAscend(a + b)
    ensures KeysAscend(a) && KeysAscend(b)
    ensures forall i, j :: 0 <= i < |a| && 0 <= j < |b| ==> LexCmp(a[i], b[j]) == Less
  {
    var c := a + b;
    assert forall i :: 0 <= i < |a| ==> c[i] == a[i];
    assert forall j :: 0 <= j < |b| ==> c[|a| + j] == b[j];
  }

  // Not above the last key.
  lemma {:induction false} BelowLast(ks: seq<bytes>, i: nat)
    requires KeysAscend(ks) && i < |ks|
    ensures LexCmp(ks[i], ks[|ks| - 1]) != Greater
  {
    LexEqual(ks[i], ks[i]);
  }

  // The separator of the last leaf lies between the keys before it and its own.
  lemma {:induction false} LastSeparator(ls: seq<Leaf>, key: bytes)
    requires ls != [] && ls[|ls| - 1].parts != [] && KeysAscend(AllKeys(ls))
    ensures var n := |ls| - 1;
            var sep := SepFor(LastKeyOf(ls[..n]), ls[n].parts[0].key);
            && (key in AllKeys(ls[..n]) ==> LexCmp(key, sep) == Less)
            && (key in PartKeys(ls[n].parts) ==> LexCmp(sep, key) != Greater)
  {
    var n := |ls| - 1;
    var before, own := AllKeys(ls[..n]), PartKeys(ls[n].parts);
    var sep := SepFor(LastKeyOf(ls[..n]), own[0]);
    AscendSplit(before, own);
    LastOfAll(ls[..n]);
    if before != [] {
      SeparatorBetween(before[|before| - 1], own[0]);
      if key in before {
        BeforeSeparator(before, key, sep);
      }
    }
    if key in own {
      AfterSeparator(own, key, sep);
    }
  }

  lemma {:induction false} BeforeSeparator(before: seq<bytes>, key: bytes, sep: bytes)
    requires KeysAscend(before) && key in before && LexCmp(before[|before| - 1], sep) == Less
    ensures LexCmp(key, sep) == Less
  {
    var i :| 0 <= i < |before| && before[i] == key;
    BelowLast(before, i);
    LexTransitive(key, before[|before| - 1], sep);
  }

  lemma {:induction false} AfterSeparator(own: seq<bytes>, key: bytes, sep: bytes)
    requires KeysAscend(own) && key in own && LexCmp(sep, own[0]) != Greater
    ensures LexCmp(sep, key) != Greater
  {
    var j :| 0 <= j < |own| && own[j] == key;
    LexEqual(own[0], own[0]);
    LexTransitive(sep, own[0], key);
  }

  // A separator is not above the last key on the leaves so far.
  lemma {:induction false} RowBelow(ls: seq<Leaf>, i: nat)
    requires KeysAscend(AllKeys(ls)) && i < |IdxRows(ls)|
    ensures AllKeys(ls) != [] && LexCmp(IdxRows(ls)[i].term, AllKeys(ls)[|AllKeys(ls)| - 1]) != Greater
  {
    var n := |ls| - 1;
    var rows, ks, own := IdxRows(ls[..n]), AllKeys(ls), PartKeys(ls[n].parts);
    AscendSplit(AllKeys(ls[..n]), own);
    if i < |rows| {
      RowBelow(ls[..n], i);
      var last := |AllKeys(ls[..n])| - 1;
      assert ks[last] == AllKeys(ls[..n])[last];
      BelowLast(ks, last);
      LexTransitive(rows[i].term, ks[last], ks[|ks| - 1]);
    } else {
      assert own[|own| - 1] == ks[|ks| - 1];
      LastSeparator(ls, own[|own| - 1]);
    }
  }

  /** The separators of ascending keys strictly ascend. */
  lemma {:induction false} SeparatorsAscend(ls: seq<Leaf>)
    requires KeysAscend(AllKeys(ls))
    ensures RowsAscend(IdxRows(ls))
  {
    if ls != [] {
      var n := |ls| - 1;
      var before, rows := AllKeys(ls[..n]), IdxRows(ls[..n]);
      AscendSplit(before, PartKeys(ls[n].parts));
      SeparatorsAscend(ls[..n]);
      if ls[n].parts != [] {
        var sep := IdxRows(ls)[|rows|].term;
        forall i | 0 <= i < |rows|
          ensures LexCmp(rows[i].term, sep) == Less
        {
          RowBelow(ls[..n], i);
          LastSeparator(ls, before[|before| - 1]);
          LexTransitive(rows[i].term, before[|before| - 1], sep);
        }
      }
    }
  }

  lemma {:induction false} KeyOnLeaf(ls: seq<Leaf>, li: nat, ti: nat)
    requires li < |ls| && ti < |ls[li].parts|
    ensures ls[li].parts[ti].key in AllKeys(ls)
  {
    if li < |ls| - 1 {
      KeyOnLeaf(ls[..|ls| - 1], li, ti);
    } else {
      assert PartKeys(ls[li].parts)[ti] == ls[li].parts[ti].key;
    }
  }

  /** The greatest separator that is not above a key is that of the leaf holding its record. */
  lemma {:induction false} Routes(ls: seq<Leaf>, li: nat, ti: nat)
    requires KeysAscend(AllKeys(ls)) && li < |ls| && ti < |ls[li].parts|
    ensures Route(IdxRows(ls), ls[li].parts[ti].key) == Some(li + 1)
  {
    var n, key := |ls| - 1, ls[li].parts[ti].key;
    AscendSplit(AllKeys(ls[..n]), PartKeys(ls[n].parts));
    if li < n {
      KeyOnLeaf(ls[..n], li, ti);
      Routes(ls[..n], li, ti);
    } else {
      assert PartKeys(ls[n].parts)[ti] == key;
    }
    if ls[n].parts != [] {
      LastSeparator(ls, key);
      LexFlip(key, IdxRows(ls)[|IdxRows(ls)| - 1].term);
      assert IdxRows(ls)[..|IdxRows(ls)| - 1] == IdxRows(ls[..n]);
    } else {
      assert IdxRows(ls) == IdxRows(ls[..n]);
    }
  }
}
