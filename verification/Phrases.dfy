/** Phrases from posting lists: the documents that have all terms, in one column and one after the other. */
module Phrases {
  import opened Seqs
  import opened Bytes
  import opened Poslist
  import opened Segment
  import opened Postings
  import opened SegQuery

  type Columns = seq<seq<nat>>

  // ----- A run in one document

  /** Position `p` of the first term starts a run: every further term is that much further on. */
  predicate RunAt(cols: seq<Columns>, c: nat, p: nat) {
    forall i :: 1 <= i < |cols| ==> p + i < TWO_32 && p + i in ColumnOf(cols[i], c)
  }

  predicate RunInColumn(cols: seq<Columns>, c: nat)
    requires cols != []
  {
    exists k :: 0 <= k < |ColumnOf(cols[0], c)| && RunAt(cols, c, ColumnOf(cols[0], c)[k])
  }

  function MaxColumns(cols: seq<Columns>): nat {
    if cols == [] then 0
    else
      var n := MaxColumns(cols[1..]);
      if |cols[0]| > n then |cols[0]| else n
  }

  /** A run in the given column, or in any. */
  predicate RunMatches(cols: seq<Columns>, column: Option<nat>)
    requires cols != []
  {
    match column
    case Some(c) => RunInColumn(cols, c)
    case None => exists c :: 0 <= c < MaxColumns(cols) && RunInColumn(cols, c)
  }

  // ----- The documents that all lists have

  predicate InAll(lists: seq<seq<Posting>>, r: int) {
    forall i :: 0 <= i < |lists| ==> HasRowid(lists[i], r)
  }

  function ColsIn(ps: seq<Posting>, r: int): Columns {
    match At(ps, r)
    case None => []
    case Some(p) => p.cols
  }

  function ColsAt(lists: seq<seq<Posting>>, r: int): (cols: seq<Columns>)
    ensures |cols| == |lists|
  {
    seq(|lists|, i requires 0 <= i < |lists| => ColsIn(lists[i], r))
  }

  ghost predicate Wanted(lists: seq<seq<Posting>>, column: Option<nat>, r: int)
    requires lists != []
  {
    InAll(lists, r) && RunMatches(ColsAt(lists, r), column)
  }

  ghost predicate AllAscend(lists: seq<seq<Posting>>) {
    forall i :: 0 <= i < |lists| ==> Ascend(lists[i])
  }

  lemma {:induction false} AtAscend(ps: seq<Posting>, j: nat)
    requires Ascend(ps) && j < |ps|
    ensures At(ps, ps[j].rowid) == Some(ps[j])
  {
    if j > 0 {
      var t := ps[1..];
      assert forall i :: 0 <= i < |t| ==> t[i] == ps[i + 1];
      AtAscend(t, j - 1);
    }
  }

  // ----- Going through the lists together

  predicate Within(lists: seq<seq<Posting>>, idx: seq<nat>) {
    |idx| == |lists| && forall i :: 0 <= i < |lists| ==> idx[i] <= |lists[i]|
  }

  predicate AllLeft(lists: seq<seq<Posting>>, idx: seq<nat>)
    requires Within(lists, idx)
  {
    forall i :: 0 <= i < |lists| ==> idx[i] < |lists[i]|
  }

  // The postings before the indices are those below `bound`.
  ghost predicate PassedBelow(lists: seq<seq<Posting>>, idx: seq<nat>, bound: int) {
    && Within(lists, idx)
    && forall i, j :: 0 <= i < |lists| && 0 <= j < |lists[i]| ==> (j < idx[i] <==> lists[i][j].rowid < bound)
  }

  ghost predicate LeastHead(lists: seq<seq<Posting>>, idx: seq<nat>, min: int)
    requires Within(lists, idx) && AllLeft(lists, idx)
  {
    && (forall i :: 0 <= i < |lists| ==> min <= lists[i][idx[i]].rowid)
    && (exists i :: 0 <= i < |lists| && lists[i][idx[i]].rowid == min)
  }

  method MinHead(lists: seq<seq<Posting>>, idx: seq<nat>) returns (left: bool, min: int)
    requires lists != [] && Within(lists, idx)
    ensures left <==> AllLeft(lists, idx)
    ensures left ==> LeastHead(lists, idx, min)
  {
    min := 0;
    for i := 0 to |lists|
      invariant forall k :: 0 <= k < i ==> idx[k] < |lists[k]| && min <= lists[k][idx[k]].rowid
      invariant i > 0 ==> exists k :: 0 <= k < i && lists[k][idx[k]].rowid == min
    {
      if idx[i] >= |lists[i]| {
        return false, min;
      }
      if i == 0 || lists[i][idx[i]].rowid < min {
        min := lists[i][idx[i]].rowid;
      }
    }
    left := true;
  }

  function Advance(lists: seq<seq<Posting>>, idx: seq<nat>, min: int): (r: seq<nat>)
    requires Within(lists, idx) && AllLeft(lists, idx)
    ensures Within(lists, r)
    ensures forall i :: 0 <= i < |idx| ==> r[i] == if lists[i][idx[i]].rowid == min then idx[i] + 1 else idx[i]
  {
    seq(|idx|, i requires 0 <= i < |idx| => if lists[i][idx[i]].rowid == min then idx[i] + 1 else idx[i])
  }

  lemma {:induction false} AdvancePasses(lists: seq<seq<Posting>>, idx: seq<nat>, bound: int, min: int)
    requires AllAscend(lists) && PassedBelow(lists, idx, bound) && AllLeft(lists, idx) && LeastHead(lists, idx, min)
    ensures bound <= min && PassedBelow(lists, Advance(lists, idx, min), min + 1)
  {
    var now := Advance(lists, idx, min);
    forall i, j | 0 <= i < |lists| && 0 <= j < |lists[i]|
      ensures j < now[i] <==> lists[i][j].rowid < min + 1
    {
      assert Ascend(lists[i]);
      assert min <= lists[i][idx[i]].rowid;
    }
  }

  // The head is at `min` in every list exactly if all of them have it.
  lemma {:induction false} HeadsAt(lists: seq<seq<Posting>>, idx: seq<nat>, bound: int, min: int)
    requires AllAscend(lists) && PassedBelow(lists, idx, bound) && AllLeft(lists, idx) && LeastHead(lists, idx, min)
    ensures InAll(lists, min) <==> forall i :: 0 <= i < |lists| ==> lists[i][idx[i]].rowid == min
    ensures (forall i :: 0 <= i < |lists| ==> lists[i][idx[i]].rowid == min) ==> ColsAt(lists, min) == Heads(lists, idx)
  {
    AdvancePasses(lists, idx, bound, min);
    if InAll(lists, min) {
      forall i | 0 <= i < |lists|
        ensures lists[i][idx[i]].rowid == min
      {
        var j :| 0 <= j < |lists[i]| && lists[i][j].rowid == min;
        assert Ascend(lists[i]);
      }
    }
    if forall i :: 0 <= i < |lists| ==> lists[i][idx[i]].rowid == min {
      forall i | 0 <= i < |lists|
        ensures HasRowid(lists[i], min) && ColsAt(lists, min)[i] == Heads(lists, idx)[i]
      {
        AtAscend(lists[i], idx[i]);
      }
    }
  }

  function Heads(lists: seq<seq<Posting>>, idx: seq<nat>): (cols: seq<Columns>)
    requires Within(lists, idx) && AllLeft(lists, idx)
    ensures |cols| == |lists|
  {
    seq(|lists|, i requires 0 <= i < |lists| => lists[i][idx[i]].cols)
  }

  // A document between the bounds is not in all lists, unless it is the least head.
  lemma {:induction false} OnlyLeast(lists: seq<seq<Posting>>, idx: seq<nat>, bound: int, min: int, r: int)
    requires lists != [] && AllAscend(lists) && PassedBelow(lists, idx, bound) && AllLeft(lists, idx)
    requires LeastHead(lists, idx, min)
    requires bound <= r < min
    ensures !InAll(lists, r)
  {
    var ps, k := lists[0], idx[0];
    assert Ascend(ps) && min <= ps[k].rowid;
    assert forall j :: 0 <= j < |ps| ==> (j < k <==> ps[j].rowid < bound) && (j >= k ==> ps[j].rowid >= min);
    assert !HasRowid(ps, r);
  }

  // At the end of one list no further document is in all of them.
  lemma {:induction false} Drained(lists: seq<seq<Posting>>, idx: seq<nat>, bound: int, r: int)
    requires PassedBelow(lists, idx, bound) && !AllLeft(lists, idx) && r >= bound
    ensures !InAll(lists, r)
  {
    var i :| 0 <= i < |lists| && idx[i] >= |lists[i]|;
    assert forall j :: 0 <= j < |lists[i]| ==> lists[i][j].rowid < bound;
    assert !HasRowid(lists[i], r);
  }

  ghost function Left(lists: seq<seq<Posting>>, idx: seq<nat>): nat
    requires Within(lists, idx)
  {
    if lists == [] then 0
    else
      assert forall i :: 0 <= i < |lists| - 1 ==> lists[1..][i] == lists[i + 1] && idx[1..][i] == idx[i + 1];
      |lists[0]| - idx[0] + Left(lists[1..], idx[1..])
  }

  lemma {:induction false} LeftDrops(lists: seq<seq<Posting>>, a: seq<nat>, b: seq<nat>)
    requires Within(lists, a) && Within(lists, b) && forall i :: 0 <= i < |lists| ==> a[i] <= b[i]
    ensures Left(lists, b) <= Left(lists, a)
    ensures ((exists i :: 0 <= i < |lists| && a[i] < b[i]) ==> Left(lists, b) < Left(lists, a))
    decreases lists
  {
    if lists != [] {
      var t, x, y := lists[1..], a[1..], b[1..];
      assert forall i :: 0 <= i < |t| ==> t[i] == lists[i + 1] && x[i] == a[i + 1] && y[i] == b[i + 1];
      LeftDrops(t, x, y);
      if i :| 0 <= i < |lists| && a[i] < b[i] {
        assert i > 0 ==> x[i - 1] < y[i - 1];
      }
    }
  }

  // The wanted documents below `bound`.
  ghost predicate FoundBelow(lists: seq<seq<Posting>>, column: Option<nat>, bound: int, out: seq<int>)
    requires lists != []
  {
    Ascending(out) && forall r :: r in out <==> r < bound && Wanted(lists, column, r)
  }

  lemma {:induction false} FoundStep(lists: seq<seq<Posting>>, column: Option<nat>, idx: seq<nat>, bound: int, min: int,
                                     out: seq<int>, now: seq<int>)
    requires lists != [] && AllAscend(lists) && PassedBelow(lists, idx, bound) && AllLeft(lists, idx)
    requires LeastHead(lists, idx, min)
    requires FoundBelow(lists, column, bound, out) && now == if Wanted(lists, column, min) then out + [min] else out
    ensures FoundBelow(lists, column, min + 1, now)
  {
    AdvancePasses(lists, idx, bound, min);
    forall r
      ensures r in now <==> r < min + 1 && Wanted(lists, column, r)
    {
      if bound <= r < min {
        OnlyLeast(lists, idx, bound, min, r);
      }
    }
    forall k | 0 <= k < |out|
      ensures out[k] < min
    {
      assert out[k] in out;
    }
  }

  // The document at the least head, if it is wanted.
  method Examine(lists: seq<seq<Posting>>, column: Option<nat>, idx: seq<nat>, ghost bound: int, min: int,
                 out: seq<int>)
    returns (now: seq<int>)
    requires lists != [] && AllAscend(lists) && PassedBelow(lists, idx, bound) && AllLeft(lists, idx)
    requires LeastHead(lists, idx, min)
    requires FoundBelow(lists, column, bound, out)
    ensures FoundBelow(lists, column, min + 1, now)
  {
    HeadsAt(lists, idx, bound, min);
    now := out;
    if (forall i :: 0 <= i < |lists| ==> lists[i][idx[i]].rowid == min) && RunMatches(Heads(lists, idx), column) {
      now := now + [min];
    }
    FoundStep(lists, column, idx, bound, min, out, now);
  }

  lemma {:induction false} AdvanceDrops(lists: seq<seq<Posting>>, idx: seq<nat>, min: int)
    requires Within(lists, idx) && AllLeft(lists, idx) && LeastHead(lists, idx, min)
    ensures Left(lists, Advance(lists, idx, min)) < Left(lists, idx)
  {
    LeftDrops(lists, idx, Advance(lists, idx, min));
  }

  lemma {:induction false} FoundAll(lists: seq<seq<Posting>>, column: Option<nat>, idx: seq<nat>, bound: int,
                                    out: seq<int>)
    requires lists != [] && PassedBelow(lists, idx, bound) && !AllLeft(lists, idx)
    requires FoundBelow(lists, column, bound, out)
    ensures forall r :: r in out <==> Wanted(lists, column, r)
  {
    forall r
      ensures r in out <==> Wanted(lists, column, r)
    {
      if r >= bound {
        Drained(lists, idx, bound, r);
      }
    }
  }

  /** The documents, by rowid, that all lists have and in which their terms follow one another. */
  method PhraseIntersect(lists: seq<seq<Posting>>, column: Option<nat>) returns (out: seq<int>)
    requires lists != [] && AllAscend(lists)
    ensures Ascending(out) && forall r :: r in out <==> Wanted(lists, column, r)
  {
    out := [];
    var idx: seq<nat> := seq(|lists|, i => 0);
    var left, min := MinHead(lists, idx);
    ghost var bound := min;
    if !left {
      NoneWanted(lists, idx);
      return;
    }
    StartBelow(lists, idx, min, column);
    while left
      invariant PassedBelow(lists, idx, bound) && FoundBelow(lists, column, bound, out)
      invariant left <==> AllLeft(lists, idx)
      invariant left ==> LeastHead(lists, idx, min)
      decreases Left(lists, idx)
    {
      out := Examine(lists, column, idx, bound, min, out);
      AdvancePasses(lists, idx, bound, min);
      AdvanceDrops(lists, idx, min);
      idx, bound := Advance(lists, idx, min), min + 1;
      left, min := MinHead(lists, idx);
    }
    FoundAll(lists, column, idx, bound, out);
  }

  lemma {:induction false} NoneWanted(lists: seq<seq<Posting>>, idx: seq<nat>)
    requires lists != [] && idx == seq(|lists|, i => 0) && Within(lists, idx) && !AllLeft(lists, idx)
    ensures forall r :: !InAll(lists, r)
  {
    var i :| 0 <= i < |lists| && idx[i] >= |lists[i]|;
    forall r
      ensures !InAll(lists, r)
    {
      assert !HasRowid(lists[i], r);
    }
  }

  lemma {:induction false} StartBelow(lists: seq<seq<Posting>>, idx: seq<nat>, min: int, column: Option<nat>)
    requires lists != [] && AllAscend(lists) && idx == seq(|lists|, i => 0)
    requires Within(lists, idx) && AllLeft(lists, idx) && LeastHead(lists, idx, min)
    ensures PassedBelow(lists, idx, min) && FoundBelow(lists, column, min, [])
  {
    forall i, j | 0 <= i < |lists| && 0 <= j < |lists[i]|
      ensures lists[i][j].rowid >= min
    {
      assert Ascend(lists[i]) && min <= lists[i][idx[i]].rowid;
    }
    forall r | r < min
      ensures !InAll(lists, r)
    {
      assert !HasRowid(lists[0], r);
    }
  }
}
