/** Sibling rebalancing: how a pool of cells is divided among pages.

    `Distribute` is the size-only core of the rebalance. It is given the byte size of every
    pooled cell and the boundaries of the old pages, and returns the boundaries of the new
    ones: page `i` owns the cells `[Start(cnt, i), cnt[i])`. When the siblings are not
    table leaves the cell at a boundary is promoted to the parent, so the next page starts
    one cell later.

    The size kept for a page is always the difference of two prefix sums. During the greedy
    pass a page that has not been reached yet may have its start past its end, and its size
    is then negative. */
module Balance {

  /** Bytes taken by the first `j` cells, each with its two-byte cell pointer; constant
      from the end of the pool on. */
  function Prefix(sz: seq<nat>, j: nat): nat {
    if j == 0 then 0
    else Prefix(sz, j - 1) + if j <= |sz| then sz[j - 1] + 2 else 0
  }

  /** The first cell of page `i` under the boundaries `cnt`. */
  function Start(cnt: seq<nat>, leafData: bool, i: nat): nat
    requires i <= |cnt|
  {
    if i == 0 then 0 else cnt[i - 1] + if leafData then 0 else 1
  }

  ghost function PageBytes(sz: seq<nat>, cnt: seq<nat>, leafData: bool, i: nat): int
    requires i < |cnt|
  {
    Prefix(sz, cnt[i]) - Prefix(sz, Start(cnt, leafData, i))
  }

  function UsableSpace(usable: nat, leaf: bool): int {
    usable + (if leaf then 4 else 0) - 12
  }

  ghost predicate GoodPage(sz: seq<nat>, cnt: seq<nat>, leafData: bool, space: int, i: nat)
    requires i < |cnt|
  {
    Start(cnt, leafData, i) < cnt[i] && PageBytes(sz, cnt, leafData, i) <= space
  }

  /** The boundaries divide the whole pool into non-empty pages that fit. */
  ghost predicate Partition(sz: seq<nat>, cnt: seq<nat>, leafData: bool, space: int) {
    && |cnt| > 0
    && cnt[|cnt| - 1] == |sz|
    && forall i :: 0 <= i < |cnt| ==> GoodPage(sz, cnt, leafData, space, i)
  }

  /** No division of the pool into pages that fit has fewer than `k` pages. */
  ghost predicate Fewest(sz: seq<nat>, k: nat, leafData: bool, space: int) {
    forall c :: Partition(sz, c, leafData, space) ==> k <= |c|
  }

  /** More than one page is used only if all but one of them are filled by the bytes. */
  ghost predicate Earned(k: nat, space: int, bytes: int) {
    k > 1 ==> Times(k - 1, space) < bytes
  }

  ghost function Times(n: nat, x: int): int {
    if n == 0 then 0 else Times(n - 1, x) + x
  }

  /** Boundaries of pages that once held the cells: they cover the pool in order, and an old
      page may be empty or over-full. */
  ghost predicate OldBoundaries(sz: seq<nat>, cntOld: seq<nat>, leafData: bool) {
    && |cntOld| > 0
    && |cntOld| <= |sz| + 2
    && cntOld[|cntOld| - 1] == |sz|
    && forall i :: 0 <= i < |cntOld| ==> OldPage(cntOld, leafData, |sz|, i)
  }

  ghost predicate OldPage(cntOld: seq<nat>, leafData: bool, n: nat, i: nat)
    requires i < |cntOld|
  {
    Start(cntOld, leafData, i) <= cntOld[i] <= n
  }

  /** Every cell fits on a page; where a boundary cell is promoted, two cells do. */
  ghost predicate CellsFit(sz: seq<nat>, leafData: bool, space: int) {
    forall i :: 0 <= i < |sz| ==> (if leafData then sz[i] + 2 else 2 * (sz[i] + 2)) <= space
  }

  lemma {:induction false} PrefixMonotone(sz: seq<nat>, a: nat, b: nat)
    requires a <= b
    ensures Prefix(sz, a) <= Prefix(sz, b)
    ensures a < b && a < |sz| ==> Prefix(sz, a) + sz[a] + 2 <= Prefix(sz, b)
    decreases b
  {
    if a < b {
      PrefixMonotone(sz, a, b - 1);
    }
  }

  // Reading a size difference back as an order on positions.
  lemma {:induction false} PrefixOrder(sz: seq<nat>, a: nat, b: nat)
    requires Prefix(sz, a) < Prefix(sz, b)
    ensures a < b
  {
    if b <= a {
      PrefixMonotone(sz, b, a);
    }
  }

  // ----- The greedy pass

  // What the pass knows of every live page: its recorded size is its byte count.
  ghost predicate Weighed(sz: seq<nat>, szNew: seq<int>, cnt: seq<nat>, leafData: bool, k: nat) {
    && 0 < k <= |cnt| == |szNew|
    && cnt[k - 1] == |sz|
    && (forall i :: 0 <= i < k ==> cnt[i] <= |sz|)
    && forall i :: 0 <= i < k ==> szNew[i] == PageBytes(sz, cnt, leafData, i)
  }

  /** Page `i` is filled to the brim: it fits, and the next cell would not. Only the right-most
      page may be empty, and only when the boundary before it took the last cell. */
  ghost predicate Brimful(sz: seq<nat>, cnt: seq<nat>, leafData: bool, space: int, i: nat)
    requires i < |cnt|
  {
    && Start(cnt, leafData, i) <= cnt[i] <= |sz|
    && i < cnt[i]
    && (Start(cnt, leafData, i) < |sz| ==> Start(cnt, leafData, i) < cnt[i])
    && PageBytes(sz, cnt, leafData, i) <= space
    && (cnt[i] < |sz| ==> Prefix(sz, cnt[i] + 1) - Prefix(sz, Start(cnt, leafData, i)) > space)
  }

  ghost predicate PackedBelow(sz: seq<nat>, cnt: seq<nat>, leafData: bool, space: int, i: nat)
    requires i <= |cnt|
  {
    forall j :: 0 <= j < i ==> Brimful(sz, cnt, leafData, space, j)
  }

  // Moving one boundary changes the byte counts of the two pages it separates, by the same
  // amounts the code adds and subtracts.
  lemma {:induction false} MoveBoundary(sz: seq<nat>, szNew: seq<int>, cnt: seq<nat>, k: nat, i: nat, leafData: bool,
                                        c: nat, szMoved: seq<int>)
    requires Weighed(sz, szNew, cnt, leafData, k) && i < k - 1 && c <= |sz| && |szMoved| == |szNew|
    requires szMoved[i] == szNew[i] + Prefix(sz, c) - Prefix(sz, cnt[i])
    requires szMoved[i + 1]
          == szNew[i + 1] + Prefix(sz, Start(cnt, leafData, i + 1)) - Prefix(sz, Start(cnt[i := c], leafData, i + 1))
    requires forall j :: 0 <= j < |szNew| && j != i && j != i + 1 ==> szMoved[j] == szNew[j]
    ensures Weighed(sz, szMoved, cnt[i := c], leafData, k)
    ensures szMoved[i] == PageBytes(sz, cnt[i := c], leafData, i)
  {
    var moved := cnt[i := c];
    forall j | 0 <= j < k
      ensures szMoved[j] == PageBytes(sz, moved, leafData, j)
    {
      assert szNew[j] == PageBytes(sz, cnt, leafData, j);
      if j != i + 1 {
        assert Start(moved, leafData, j) == Start(cnt, leafData, j);
      }
    }
  }

  // A fresh empty page after the last one.
  lemma {:induction false} AppendPage(sz: seq<nat>, szNew: seq<int>, cnt: seq<nat>, k: nat, leafData: bool)
    requires Weighed(sz, szNew, cnt, leafData, k) && k < |cnt|
    ensures Weighed(sz, szNew[k := 0], cnt[k := |sz|], leafData, k + 1)
  {
    var grown := cnt[k := |sz|];
    forall j | 0 <= j < k + 1
      ensures szNew[k := 0][j] == PageBytes(sz, grown, leafData, j)
    {
      if j < k {
        assert szNew[j] == PageBytes(sz, cnt, leafData, j);
        assert Start(grown, leafData, j) == Start(cnt, leafData, j);
      }
    }
  }

  /** Move cells off page `i` to its right neighbour until it fits, growing the page list when
      there is no neighbour. */
  method ShedRight(sz: seq<nat>, szNew0: seq<int>, cnt0: seq<nat>, k0: nat, i: nat, leafData: bool, space: int)
    returns (szNew: seq<int>, cnt: seq<nat>, k: nat)
    requires Weighed(sz, szNew0, cnt0, leafData, k0) && |cnt0| == |sz| + 2
    requires i < k0 && i < |sz| && space >= 0
    ensures Weighed(sz, szNew, cnt, leafData, k) && |cnt| == |cnt0|
    ensures i < k && szNew[i] <= space
    ensures forall j :: 0 <= j < i ==> cnt[j] == cnt0[j]
  {
    szNew, cnt, k := szNew0, cnt0, k0;
    while szNew[i] > space
      invariant Weighed(sz, szNew, cnt, leafData, k) && |cnt| == |cnt0| && i < k
      invariant forall j :: 0 <= j < i ==> cnt[j] == cnt0[j]
      decreases cnt[i]
    {
      if i + 1 >= k {
        AppendPage(sz, szNew, cnt, k, leafData);
        k := i + 2;
        szNew := szNew[k - 1 := 0];
        cnt := cnt[k - 1 := |sz|];
      }
      ghost var szBefore := szNew;
      PrefixOrder(sz, Start(cnt, leafData, i), cnt[i]);
      var s := 2 + sz[cnt[i] - 1];
      szNew := szNew[i := szNew[i] - s];
      if !leafData {
        s := if cnt[i] < |sz| then 2 + sz[cnt[i]] else 0;
      }
      szNew := szNew[i + 1 := szNew[i + 1] + s];
      MoveBoundary(sz, szBefore, cnt, k, i, leafData, cnt[i] - 1, szNew);
      cnt := cnt[i := cnt[i] - 1];
    }
  }

  // A page that stopped growing is full to the brim.
  lemma {:induction false} StoppedIsBrimful(sz: seq<nat>, cnt: seq<nat>, leafData: bool, space: int, i: nat)
    requires i < |cnt| && cnt[i] <= |sz| && i <= Start(cnt, leafData, i) <= |sz| && i < |sz|
    requires PageBytes(sz, cnt, leafData, i) <= space
    requires CellsFit(sz, leafData, space)
    requires cnt[i] < |sz| ==> Prefix(sz, cnt[i] + 1) - Prefix(sz, Start(cnt, leafData, i)) > space >= 0
    ensures Brimful(sz, cnt, leafData, space, i)
  {
    if cnt[i] < |sz| {
      PrefixOrder(sz, Start(cnt, leafData, i), cnt[i] + 1);
      assert Prefix(sz, cnt[i] + 1) == Prefix(sz, cnt[i]) + sz[cnt[i]] + 2;
      assert sz[cnt[i]] + 2 <= space;
    }
  }

  /** Pull cells from the right onto page `i` while they fit. */
  method FillLeft(sz: seq<nat>, szNew0: seq<int>, cnt0: seq<nat>, k: nat, i: nat, leafData: bool, space: int)
    returns (szNew: seq<int>, cnt: seq<nat>)
    requires Weighed(sz, szNew0, cnt0, leafData, k) && |cnt0| == |sz| + 2
    requires i < k && i < |sz| && space >= 0 && szNew0[i] <= space
    requires CellsFit(sz, leafData, space)
    requires i <= Start(cnt0, leafData, i) <= |sz|
    ensures Weighed(sz, szNew, cnt, leafData, k) && |cnt| == |cnt0|
    ensures cnt == cnt0[i := cnt[i]]
    ensures Brimful(sz, cnt, leafData, space, i)
  {
    szNew, cnt := szNew0, cnt0;
    while cnt[i] < |sz|
      invariant Weighed(sz, szNew, cnt, leafData, k) && |cnt| == |cnt0|
      invariant cnt == cnt0[i := cnt[i]]
      invariant szNew[i] <= space
      decreases |sz| - cnt[i]
    {
      var s := 2 + sz[cnt[i]];
      if szNew[i] + s > space {
        break;
      }
      ghost var szBefore, cntBefore := szNew, cnt;
      szNew := szNew[i := szNew[i] + s];
      cnt := cnt[i := cnt[i] + 1];
      if !leafData {
        s := if cnt[i] < |sz| then 2 + sz[cnt[i]] else 0;
      }
      szNew := szNew[i + 1 := szNew[i + 1] - s];
      MoveBoundary(sz, szBefore, cntBefore, k, i, leafData, cnt[i], szNew);
    }
    assert szNew[i] == PageBytes(sz, cnt, leafData, i);
    StoppedIsBrimful(sz, cnt, leafData, space, i);
  }

  // Pages below `i` do not see a change of the boundaries from `i` on.
  lemma {:induction false} PackedFrame(sz: seq<nat>, cnt: seq<nat>, cnt': seq<nat>, leafData: bool, space: int, i: nat)
    requires i <= |cnt| && i <= |cnt'| && forall j :: 0 <= j < i ==> cnt'[j] == cnt[j]
    requires PackedBelow(sz, cnt, leafData, space, i)
    ensures PackedBelow(sz, cnt', leafData, space, i)
  {
    forall j | 0 <= j < i
      ensures Brimful(sz, cnt', leafData, space, j)
    {
      assert Brimful(sz, cnt, leafData, space, j);
      assert Start(cnt', leafData, j) == Start(cnt, leafData, j);
    }
  }

  /** The greedy pass as a whole. */
  method GreedyPack(sz: seq<nat>, szNew0: seq<int>, cnt0: seq<nat>, k0: nat, leafData: bool, space: int)
    returns (szNew: seq<int>, cnt: seq<nat>, k: nat)
    requires |sz| > 0 && space >= 0 && CellsFit(sz, leafData, space)
    requires Weighed(sz, szNew0, cnt0, leafData, k0) && |cnt0| == |sz| + 2
    ensures Weighed(sz, szNew, cnt, leafData, k)
    ensures PackedBelow(sz, cnt, leafData, space, k)
    ensures forall j :: 0 <= j < k - 1 ==> cnt[j] < |sz|
  {
    szNew, cnt, k := szNew0, cnt0, k0;
    var i := 0;
    while i < k
      invariant Weighed(sz, szNew, cnt, leafData, k) && |cnt| == |sz| + 2
      invariant 0 <= i <= k
      invariant PackedBelow(sz, cnt, leafData, space, i)
      invariant forall j :: 0 <= j < i && j < k - 1 ==> cnt[j] < |sz|
      decreases |sz| + 2 - i
    {
      assert i > 0 ==> Brimful(sz, cnt, leafData, space, i - 1);
      ghost var before := cnt;
      szNew, cnt, k := ShedRight(sz, szNew, cnt, k, i, leafData, space);
      szNew, cnt := FillLeft(sz, szNew, cnt, k, i, leafData, space);
      PackedFrame(sz, before, cnt, leafData, space, i);
      if cnt[i] >= |sz| {
        k := i + 1;
      }
      i := i + 1;
    }
  }

  // A page filled to the brim reaches at least as far as any page that starts no later.
  lemma {:induction false} BrimReaches(sz: seq<nat>, space: int, start: nat, end: nat, start': nat, end': nat)
    requires Prefix(sz, end + 1) - Prefix(sz, start) > space
    requires start' <= start && Prefix(sz, end') - Prefix(sz, start') <= space
    ensures end' <= end
  {
    PrefixMonotone(sz, start', start);
    PrefixOrder(sz, end', end + 1);
  }

  /** Filling each page to the brim never falls behind: every other way of dividing the same
      pool has its boundaries at or before the greedy ones. */
  lemma {:induction false} GreedyIsAhead(sz: seq<nat>, cnt: seq<nat>, k: nat, leafData: bool, space: int, c: seq<nat>,
                                         j: nat)
    requires k <= |cnt| && PackedBelow(sz, cnt, leafData, space, k)
    requires forall i :: 0 <= i < k - 1 ==> cnt[i] < |sz|
    requires Partition(sz, c, leafData, space)
    requires j < |c| && j < k - 1
    ensures c[j] <= cnt[j]
  {
    if j > 0 {
      GreedyIsAhead(sz, cnt, k, leafData, space, c, j - 1);
    }
    assert Brimful(sz, cnt, leafData, space, j);
    assert GoodPage(sz, c, leafData, space, j);
    BrimReaches(sz, space, Start(cnt, leafData, j), cnt[j], Start(c, leafData, j), c[j]);
  }

  lemma {:induction false} FewestPages(sz: seq<nat>, cnt: seq<nat>, k: nat, leafData: bool, space: int, c: seq<nat>)
    requires 0 < k <= |cnt| && PackedBelow(sz, cnt, leafData, space, k)
    requires forall i :: 0 <= i < k - 1 ==> cnt[i] < |sz|
    requires Partition(sz, c, leafData, space)
    ensures k <= |c|
  {
    if |c| < k {
      GreedyIsAhead(sz, cnt, k, leafData, space, c, |c| - 1);
    }
  }

  /** Where boundary cells are promoted, every page but the last accounts, together with the
      cell promoted after it, for more than a whole page of bytes. */
  lemma {:induction false} PagesAreEarned(sz: seq<nat>, cnt: seq<nat>, k: nat, space: int, j: nat)
    requires j < k <= |cnt| && PackedBelow(sz, cnt, false, space, k)
    requires forall i :: 0 <= i < k - 1 ==> cnt[i] < |sz|
    ensures Times(j, space) <= Prefix(sz, Start(cnt, false, j))
    ensures j > 0 ==> Times(j, space) < Prefix(sz, Start(cnt, false, j))
  {
    if j > 0 {
      PagesAreEarned(sz, cnt, k, space, j - 1);
      assert Brimful(sz, cnt, false, space, j - 1);
    }
  }

  // ----- The right-to-left pass

  // The greedy pass can leave the right-most page empty; its left neighbour then holds at
  // least two cells.
  ghost predicate EmptyTail(sz: seq<nat>, cnt: seq<nat>, leafData: bool, space: int, k: nat, i: nat)
    requires 0 < i < |cnt|
  {
    && i == k - 1
    && !leafData
    && cnt[i] == |sz|
    && cnt[i - 1] == |sz| - 1
    && Prefix(sz, |sz|) - Prefix(sz, Start(cnt, leafData, i - 1)) > space
  }

  lemma {:induction false} PositiveMeansNonEmpty(sz: seq<nat>, cnt: seq<nat>, leafData: bool, i: nat)
    requires i < |cnt| && cnt[i] <= |sz|
    ensures PageBytes(sz, cnt, leafData, i) > 0 <==> Start(cnt, leafData, i) < cnt[i]
  {
    if Start(cnt, leafData, i) < cnt[i] {
      PrefixMonotone(sz, Start(cnt, leafData, i), cnt[i]);
    } else {
      PrefixMonotone(sz, cnt[i], Start(cnt, leafData, i));
    }
  }

  // The sizes the right-to-left pass works with for the pair `i - 1`, `i`.
  ghost predicate PairWeighed(sz: seq<nat>, cnt: seq<nat>, leafData: bool, i: nat, szLeft: int, szRight: int)
    requires 0 < i < |cnt|
  {
    szLeft == PageBytes(sz, cnt, leafData, i - 1) && szRight == PageBytes(sz, cnt, leafData, i)
  }

  // One cell moves right across the boundary `cnt[i - 1]`.
  lemma {:induction false} ShiftOne(sz: seq<nat>, cnt: seq<nat>, leafData: bool, i: nat, szLeft: int, szRight: int)
    requires 0 < i < |cnt| && 0 < cnt[i - 1] <= |sz| && (!leafData ==> cnt[i - 1] < |sz|)
    requires PairWeighed(sz, cnt, leafData, i, szLeft, szRight)
    ensures var r := cnt[i - 1] - 1;
            var d := if leafData then r else r + 1;
            PairWeighed(sz, cnt[i - 1 := r], leafData, i, szLeft - (sz[r] + 2), szRight + sz[d] + 2)
  {
    var r := cnt[i - 1] - 1;
    assert Start(cnt[i - 1 := r], leafData, i - 1) == Start(cnt, leafData, i - 1);
  }

  // Taking the forced first cell for an empty tail leaves the left page with a cell.
  lemma {:induction false} EmptyTailHasSpare(sz: seq<nat>, cnt: seq<nat>, leafData: bool, space: int, k: nat, i: nat)
    requires 0 < i < |cnt| && EmptyTail(sz, cnt, leafData, space, k, i) && CellsFit(sz, leafData, space)
    requires |sz| > 1 && Start(cnt, leafData, i - 1) < |sz| - 1
    ensures PageBytes(sz, cnt, leafData, i - 1) > sz[|sz| - 2] + 2
    ensures sz[|sz| - 1] + 2 <= space
  {
    assert 2 * (sz[|sz| - 1] + 2) <= space;
    assert 2 * (sz[|sz| - 2] + 2) <= space;
  }

  // The pair after some cells have been shifted.
  ghost predicate PairShifting(sz: seq<nat>, cnt0: seq<nat>, cnt: seq<nat>, leafData: bool, space: int, k: nat, i: nat,
                               szLeft: int, szRight: int)
    requires 0 < i < |cnt0| == |cnt|
  {
    && cnt == cnt0[i - 1 := cnt[i - 1]] && 0 < cnt[i - 1] <= cnt0[i - 1]
    && PairWeighed(sz, cnt, leafData, i, szLeft, szRight)
    && 0 < szLeft <= space && 0 <= szRight <= space
    && (szRight == 0 ==> cnt == cnt0 && EmptyTail(sz, cnt, leafData, space, k, i))
  }

  lemma {:induction false} ShiftKeeps(sz: seq<nat>, cnt0: seq<nat>, cnt: seq<nat>, leafData: bool, space: int, k: nat,
                                      i: nat, szLeft: int, szRight: int)
    requires 0 < i < k <= |cnt0| == |cnt| && cnt0[i - 1] < |sz| && CellsFit(sz, leafData, space)
    requires PairShifting(sz, cnt0, cnt, leafData, space, k, i, szLeft, szRight)
    requires var r := cnt[i - 1] - 1; var d := if leafData then r else r + 1;
             szRight == 0 || szRight + sz[d] + 2 <= szLeft - (sz[r] + if i == k - 1 then 0 else 2)
    ensures var r := cnt[i - 1] - 1; var d := if leafData then r else r + 1;
            PairShifting(sz, cnt0, cnt[i - 1 := r], leafData, space, k, i, szLeft - (sz[r] + 2), szRight + sz[d] + 2)
  {
    var r := cnt[i - 1] - 1;
    PositiveMeansNonEmpty(sz, cnt, leafData, i - 1);
    if szRight == 0 {
      EmptyTailHasSpare(sz, cnt, leafData, space, k, i);
    }
    ShiftOne(sz, cnt, leafData, i, szLeft, szRight);
    PositiveMeansNonEmpty(sz, cnt[i - 1 := r], leafData, i - 1);
  }

  /** Shift cells from page `i - 1` to page `i` until the pair is balanced. */
  method ShiftPair(sz: seq<nat>, szNew0: seq<int>, cnt0: seq<nat>, k: nat, i: nat, leafData: bool, space: int)
    returns (szNew: seq<int>, cnt: seq<nat>)
    requires 0 < i < k <= |cnt0| == |szNew0| && CellsFit(sz, leafData, space)
    requires forall j :: 0 <= j < |cnt0| ==> cnt0[j] <= |sz|
    requires PairWeighed(sz, cnt0, leafData, i, szNew0[i - 1], szNew0[i])
    requires cnt0[i - 1] < |sz| && GoodPage(sz, cnt0, leafData, space, i - 1)
    requires GoodPage(sz, cnt0, leafData, space, i) || EmptyTail(sz, cnt0, leafData, space, k, i)
    ensures |szNew| == |szNew0| && |cnt| == |cnt0|
    ensures PairWeighed(sz, cnt, leafData, i, szNew[i - 1], szNew[i])
    ensures cnt == cnt0[i - 1 := cnt[i - 1]] && cnt[i - 1] <= cnt0[i - 1]
    ensures szNew == szNew0[i - 1 := szNew[i - 1]][i := szNew[i]]
    ensures GoodPage(sz, cnt, leafData, space, i - 1) && GoodPage(sz, cnt, leafData, space, i)
  {
    cnt := cnt0;
    var szRight, szLeft := szNew0[i], szNew0[i - 1];
    var r: int := cnt[i - 1] - 1;
    var d: int := r + 1 - if leafData then 1 else 0;
    PositiveMeansNonEmpty(sz, cnt, leafData, i - 1);
    PositiveMeansNonEmpty(sz, cnt, leafData, i);
    while true
      invariant |cnt| == |cnt0| && PairShifting(sz, cnt0, cnt, leafData, space, k, i, szLeft, szRight)
      invariant r + 1 == cnt[i - 1] && d == r + 1 - if leafData then 1 else 0
      decreases r
    {
      if r < 0 {
        break;
      }
      var szR, szD := sz[r], sz[d];
      if szRight != 0 && szRight + szD + 2 > szLeft - (szR + if i == k - 1 then 0 else 2) {
        break;
      }
      ShiftKeeps(sz, cnt0, cnt, leafData, space, k, i, szLeft, szRight);
      szRight := szRight + szD + 2;
      szLeft := szLeft - (szR + 2);
      cnt := cnt[i - 1 := r];
      r := r - 1;
      d := d - 1;
    }
    szNew := szNew0[i := szRight][i - 1 := szLeft];
    PositiveMeansNonEmpty(sz, cnt, leafData, i - 1);
    PositiveMeansNonEmpty(sz, cnt, leafData, i);
  }

  /** The whole right-to-left pass, from the last page down. */
  method Rebalance(sz: seq<nat>, szNew0: seq<int>, cnt0: seq<nat>, k: nat, leafData: bool, space: int)
    returns (cnt: seq<nat>)
    requires |sz| > 0 && CellsFit(sz, leafData, space)
    requires Weighed(sz, szNew0, cnt0, leafData, k) && |cnt0| == k
    requires PackedBelow(sz, cnt0, leafData, space, k)
    requires forall j :: 0 <= j < k - 1 ==> cnt0[j] < |sz|
    ensures |cnt| == k && Partition(sz, cnt, leafData, space)
  {
    var szNew := szNew0;
    cnt := cnt0;
    var i := k - 1;
    TailShape(sz, cnt0, leafData, space, k);
    while i > 0
      invariant 0 <= i < k && |cnt| == |szNew| == k
      invariant Shifting(sz, szNew0, cnt0, szNew, cnt, leafData, space, i)
    {
      LeftIsGood(sz, szNew0, cnt0, szNew, cnt, leafData, space, i);
      ghost var before, szBefore := cnt, szNew;
      szNew, cnt := ShiftPair(sz, szNew, cnt, k, i, leafData, space);
      Shifted(sz, szNew0, cnt0, szBefore, before, szNew, cnt, leafData, space, i);
      i := i - 1;
    }
    forall j | 0 <= j < k
      ensures GoodPage(sz, cnt, leafData, space, j)
    {
    }
  }

  /** The state of the pass with page `i` next: pages below it are as the greedy pass left
      them, pages above it are done. */
  ghost predicate Shifting(sz: seq<nat>, szNew0: seq<int>, cnt0: seq<nat>, szNew: seq<int>, cnt: seq<nat>,
                           leafData: bool, space: int, i: nat) {
    && i < |cnt| == |szNew|
    && Unreached(cnt0, cnt, szNew0, szNew, i)
    && InPool(sz, cnt)
    && szNew[i] == PageBytes(sz, cnt, leafData, i)
    && (GoodPage(sz, cnt, leafData, space, i) || (i > 0 && EmptyTail(sz, cnt, leafData, space, |cnt|, i)))
    && Settled(sz, cnt, leafData, space, i)
  }

  ghost predicate InPool(sz: seq<nat>, cnt: seq<nat>) {
    |cnt| > 0 && cnt[|cnt| - 1] == |sz| && forall j :: 0 <= j < |cnt| ==> cnt[j] <= |sz|
  }

  ghost predicate Settled(sz: seq<nat>, cnt: seq<nat>, leafData: bool, space: int, i: nat) {
    forall j :: i < j < |cnt| ==> GoodPage(sz, cnt, leafData, space, j)
  }

  ghost predicate Unreached(cnt0: seq<nat>, cnt: seq<nat>, szNew0: seq<int>, szNew: seq<int>, i: nat) {
    && i <= |cnt0| == |cnt| && i <= |szNew0| == |szNew|
    && forall j :: 0 <= j < i ==> cnt[j] == cnt0[j] && szNew[j] == szNew0[j]
  }

  lemma {:induction false} TailShape(sz: seq<nat>, cnt: seq<nat>, leafData: bool, space: int, k: nat)
    requires |sz| > 0 && |cnt| == k > 0 && cnt[k - 1] == |sz|
    requires PackedBelow(sz, cnt, leafData, space, k)
    requires forall j :: 0 <= j < k - 1 ==> cnt[j] < |sz|
    ensures GoodPage(sz, cnt, leafData, space, k - 1) || (k > 1 && EmptyTail(sz, cnt, leafData, space, k, k - 1))
  {
    assert Brimful(sz, cnt, leafData, space, k - 1);
    if k > 1 {
      assert Brimful(sz, cnt, leafData, space, k - 2);
    }
  }

  // A page the pass has not reached is still as the greedy pass left it.
  lemma {:induction false} LeftIsGood(sz: seq<nat>, szNew0: seq<int>, cnt0: seq<nat>, szNew: seq<int>, cnt: seq<nat>,
                                      leafData: bool, space: int, i: nat)
    requires Shifting(sz, szNew0, cnt0, szNew, cnt, leafData, space, i) && 0 < i
    requires PackedBelow(sz, cnt0, leafData, space, |cnt0|) && cnt0[i - 1] < |sz|
    requires Weighed(sz, szNew0, cnt0, leafData, |cnt0|)
    requires i > 1 ==> cnt0[i - 2] < |sz|
    ensures cnt[i - 1] < |sz| && GoodPage(sz, cnt, leafData, space, i - 1)
    ensures PairWeighed(sz, cnt, leafData, i, szNew[i - 1], szNew[i])
  {
    assert Brimful(sz, cnt0, leafData, space, i - 1);
    assert Start(cnt, leafData, i - 1) == Start(cnt0, leafData, i - 1);
    assert szNew0[i - 1] == PageBytes(sz, cnt0, leafData, i - 1);
  }

  lemma {:induction false} Shifted(sz: seq<nat>, szNew0: seq<int>, cnt0: seq<nat>, szBefore: seq<int>,
                                   before: seq<nat>, szNew: seq<int>, cnt: seq<nat>, leafData: bool, space: int,
                                   i: nat)
    requires Shifting(sz, szNew0, cnt0, szBefore, before, leafData, space, i) && 0 < i
    requires |cnt| == |before| && cnt == before[i - 1 := cnt[i - 1]] && cnt[i - 1] <= before[i - 1]
    requires |szNew| == |szBefore| && szNew == szBefore[i - 1 := szNew[i - 1]][i := szNew[i]]
    requires PairWeighed(sz, cnt, leafData, i, szNew[i - 1], szNew[i])
    requires GoodPage(sz, cnt, leafData, space, i - 1) && GoodPage(sz, cnt, leafData, space, i)
    ensures Shifting(sz, szNew0, cnt0, szNew, cnt, leafData, space, i - 1)
  {
    forall j | i < j < |cnt|
      ensures GoodPage(sz, cnt, leafData, space, j)
    {
      assert GoodPage(sz, before, leafData, space, j);
      assert Start(cnt, leafData, j) == Start(before, leafData, j);
    }
  }

  // ----- The whole redistribution

  method SumBytes(sz: seq<nat>, start: nat, end: nat) returns (s: int)
    requires start <= end <= |sz|
    ensures s == Prefix(sz, end) - Prefix(sz, start)
  {
    s := 0;
    for j := start to end
      invariant s == Prefix(sz, j) - Prefix(sz, start)
    {
      s := s + sz[j] + 2;
    }
  }

  /** The sizes and boundaries of the old pages, as the starting point. */
  method SeedFromOld(sz: seq<nat>, cntOld: seq<nat>, leafData: bool) returns (szNew: seq<int>, cnt: seq<nat>)
    requires OldBoundaries(sz, cntOld, leafData)
    ensures |cnt| == |sz| + 2 && Weighed(sz, szNew, cnt, leafData, |cntOld|)
  {
    var cap := |sz| + 2;
    szNew := seq(cap, _ => 0);
    cnt := seq(cap, _ => 0);
    for i := 0 to |cntOld|
      invariant |szNew| == |cnt| == cap
      invariant forall j :: 0 <= j < i ==> cnt[j] == cntOld[j] && szNew[j] == PageBytes(sz, cntOld, leafData, j)
    {
      var start := Start(cntOld, leafData, i);
      assert OldPage(cntOld, leafData, |sz|, i);
      var s := SumBytes(sz, start, cntOld[i]);
      szNew := szNew[i := s];
      cnt := cnt[i := cntOld[i]];
    }
    SeedIsWeighed(sz, cntOld, szNew, cnt, leafData);
  }

  lemma {:induction false} SeedIsWeighed(sz: seq<nat>, cntOld: seq<nat>, szNew: seq<int>, cnt: seq<nat>, leafData: bool)
    requires OldBoundaries(sz, cntOld, leafData) && |cntOld| <= |szNew| == |cnt|
    requires forall j :: 0 <= j < |cntOld| ==> cnt[j] == cntOld[j] && szNew[j] == PageBytes(sz, cntOld, leafData, j)
    ensures Weighed(sz, szNew, cnt, leafData, |cntOld|)
  {
    forall j | 0 <= j < |cntOld|
      ensures cnt[j] <= |sz| && szNew[j] == PageBytes(sz, cnt, leafData, j)
    {
      assert OldPage(cntOld, leafData, |sz|, j);
      assert Start(cnt, leafData, j) == Start(cntOld, leafData, j);
      assert szNew[j] == PageBytes(sz, cntOld, leafData, j);
    }
  }

  /** Divide the pooled cells among new pages. The result is a partition into non-empty pages
      that fit; no partition uses fewer pages; and where boundary cells are promoted, the
      number of pages is bounded by the bytes pooled. */
  method Distribute(sz: seq<nat>, cntOld: seq<nat>, leaf: bool, leafData: bool, usable: nat) returns (cntNew: seq<nat>)
    requires |sz| > 0 && OldBoundaries(sz, cntOld, leafData)
    requires CellsFit(sz, leafData, UsableSpace(usable, leaf))
    ensures Partition(sz, cntNew, leafData, UsableSpace(usable, leaf))
    ensures Fewest(sz, |cntNew|, leafData, UsableSpace(usable, leaf))
    ensures !leafData ==> Earned(|cntNew|, UsableSpace(usable, leaf), Prefix(sz, |sz|))
  {
    var space := UsableSpace(usable, leaf);
    SpaceIsNatural(sz, leafData, space);
    var szNew, cnt := SeedFromOld(sz, cntOld, leafData);
    var k;
    szNew, cnt, k := GreedyPack(sz, szNew, cnt, |cntOld|, leafData, space);
    forall c | Partition(sz, c, leafData, space)
      ensures k <= |c|
    {
      FewestPages(sz, cnt, k, leafData, space, c);
    }
    if !leafData && k > 1 {
      PagesAreEarned(sz, cnt, k, space, k - 1);
      PrefixMonotone(sz, Start(cnt, leafData, k - 1), |sz|);
    }
    Truncated(sz, szNew, cnt, leafData, space, k);
    cntNew := Rebalance(sz, szNew[..k], cnt[..k], k, leafData, space);
  }

  lemma {:induction false} SpaceIsNatural(sz: seq<nat>, leafData: bool, space: int)
    requires |sz| > 0 && CellsFit(sz, leafData, space)
    ensures space >= 0
  {
    assert (if leafData then sz[0] + 2 else 2 * (sz[0] + 2)) <= space;
  }

  // The entries past the live pages play no part.
  lemma {:induction false} Truncated(sz: seq<nat>, szNew: seq<int>, cnt: seq<nat>, leafData: bool, space: int, k: nat)
    requires Weighed(sz, szNew, cnt, leafData, k) && PackedBelow(sz, cnt, leafData, space, k)
    ensures Weighed(sz, szNew[..k], cnt[..k], leafData, k) && PackedBelow(sz, cnt[..k], leafData, space, k)
  {
    PackedFrame(sz, cnt, cnt[..k], leafData, space, k);
    forall j | 0 <= j < k
      ensures szNew[..k][j] == PageBytes(sz, cnt[..k], leafData, j)
    {
      assert szNew[j] == PageBytes(sz, cnt, leafData, j);
      assert Start(cnt[..k], leafData, j) == Start(cnt, leafData, j);
    }
  }

  /** The siblings to pool with child `p`: up to three, including `p`, all of them when the
      parent has fewer. */
  function SiblingWindow(p: nat, nChildren: nat): (w: (nat, nat))
    requires p < nChildren
    ensures w.0 <= p < w.0 + w.1 <= nChildren
    ensures w.1 == if nChildren < 3 then nChildren else 3
    // as centred on p as the edges allow
    ensures nChildren >= 3 && 0 < p < nChildren - 1 ==> p == w.0 + 1
  {
    var i := nChildren - 1;
    if i < 2 then (0, nChildren)
    else if p == 0 then (0, 3)
    else if p == i then (i - 2, 3)
    else (p - 1, 3)
  }
}
