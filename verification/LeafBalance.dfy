/** Redistributing a pool of leaf entries over pages. */
module LeafBalance {
  import opened IndexTree
  import opened Pager
  import Balance

  // ----- Page number lists

  ghost predicate NoDup(s: seq<nat>) {
    forall i, j :: 0 <= i < j < |s| ==> s[i] != s[j]
  }

  ghost function AsSet(s: seq<nat>): set<nat> {
    set p | p in s
  }

  lemma {:induction false} NoDupIsMultiset(s: seq<nat>)
    ensures NoDup(s) <==> forall p :: multiset(s)[p] <= 1
  {
    if s != [] {
      var rest, last := s[..|s| - 1], s[|s| - 1];
      assert s == rest + [last];
      NoDupIsMultiset(rest);
      assert last in rest <==> multiset(rest)[last] > 0;
      if NoDup(s) {
        assert last !in rest;
      }
      if forall p :: multiset(s)[p] <= 1 {
        forall p
          ensures multiset(rest)[p] <= 1
        {
          assert multiset(s)[p] <= 1;
        }
        assert multiset(s)[last] <= 1;
        assert last !in rest;
      }
    }
  }

  lemma {:induction false} PermutationKeeps(s: seq<nat>, r: seq<nat>)
    requires multiset(s) == multiset(r)
    ensures |s| == |r| && AsSet(s) == AsSet(r) && (NoDup(s) <==> NoDup(r))
  {
    assert |multiset(s)| == |s| && |multiset(r)| == |r|;
    forall p
      ensures p in s <==> p in r
    {
      assert p in multiset(s) <==> p in multiset(r);
    }
    NoDupIsMultiset(s);
    NoDupIsMultiset(r);
  }

  ghost predicate NonDescending(s: seq<nat>) {
    forall i, j :: 0 <= i < j < |s| ==> s[i] <= s[j]
  }

  method InsertPage(s: seq<nat>, p: nat) returns (r: seq<nat>)
    requires NonDescending(s)
    ensures multiset(r) == multiset(s) + multiset{p} && NonDescending(r)
  {
    var k := 0;
    while k < |s| && s[k] < p
      invariant 0 <= k <= |s|
      invariant forall i :: 0 <= i < k ==> s[i] < p
    {
      k := k + 1;
    }
    r := s[..k] + [p] + s[k..];
    InsertedAt(s, p, k);
  }

  lemma {:induction false} InsertedAt(s: seq<nat>, p: nat, k: nat)
    requires NonDescending(s) && k <= |s|
    requires (forall i :: 0 <= i < k ==> s[i] < p) && (k < |s| ==> p <= s[k])
    ensures NonDescending(s[..k] + [p] + s[k..])
    ensures multiset(s[..k] + [p] + s[k..]) == multiset(s) + multiset{p}
  {
    var r := s[..k] + [p] + s[k..];
    forall i, j | 0 <= i < j < |r|
      ensures r[i] <= r[j]
    {
      if i < k && j < k {
        assert s[i] <= s[j];
      } else if i >= k && j > k {
        assert k < |s| && s[k] <= s[j - 1];
      } else if j > k {
        assert s[i] <= s[j - 1];
      }
    }
    assert s == s[..k] + s[k..];
  }

  /** Page numbers in ascending order. */
  method SortPages(s: seq<nat>) returns (r: seq<nat>)
    ensures multiset(r) == multiset(s) && NonDescending(r)
  {
    r := [];
    for n := 0 to |s|
      invariant multiset(r) == multiset(s[..n]) && NonDescending(r)
    {
      assert s[..n + 1] == s[..n] + [s[n]];
      r := InsertPage(r, s[n]);
    }
    assert s[..|s|] == s;
  }

  // ----- Rows of leaves

  /** How a page map changes when the pages `before` are rewritten as the pages `after`: other
      pages stay as they are, and what is new was not in use. */
  ghost predicate Footprint(pages: map<nat, Node>, pages': map<nat, Node>, before: set<nat>, after: set<nat>) {
    && (forall p :: p in pages && p !in before ==> p in pages' && pages'[p] == pages[p])
    && (forall p :: p in after ==> p in before || p !in pages)
  }

  // Page `i` of the redistribution: the pooled entries between two boundaries.
  ghost function Slice(pooled: seq<Entry>, cnt: seq<nat>, i: nat): seq<Entry>
    requires i < |cnt| && Balance.Start(cnt, false, i) <= cnt[i] <= |pooled|
  {
    pooled[Balance.Start(cnt, false, i)..cnt[i]]
  }

  ghost predicate HoldsEntry(cnt: seq<nat>, i: nat)
    requires i < |cnt|
  {
    Balance.Start(cnt, false, i) < cnt[i]
  }

  ghost predicate Slices(pooled: seq<Entry>, cnt: seq<nat>) {
    && |cnt| > 0
    && cnt[|cnt| - 1] == |pooled|
    && (forall i :: 0 <= i < |cnt| ==> HoldsEntry(cnt, i))
    && (forall i :: 0 <= i < |cnt| ==> cnt[i] <= |pooled|)
    && (forall i :: 0 <= i < |cnt| - 1 ==> cnt[i] < |pooled|)
  }

  /** The row of leaves a redistribution makes, and the entries promoted between them. */
  ghost function Row(pooled: seq<Entry>, cnt: seq<nat>, kept: seq<nat>, n: nat): seq<Tree>
    requires Slices(pooled, cnt) && |kept| == |cnt| && n <= |cnt|
  {
    seq(n, i requires 0 <= i < n => assert HoldsEntry(cnt, i); TLeaf(kept[i], Slice(pooled, cnt, i)))
  }

  ghost function Promoted(pooled: seq<Entry>, cnt: seq<nat>, n: nat): seq<Entry>
    requires Slices(pooled, cnt) && n < |cnt|
  {
    seq(n, i requires 0 <= i < n => pooled[cnt[i]])
  }

  lemma {:induction false} PartitionSlices(pooled: seq<Entry>, cnt: seq<nat>, space: int, i: nat)
    requires Balance.Partition(Sizes(pooled), cnt, false, space) && i < |cnt|
    ensures cnt[i] <= |pooled| && (i < |cnt| - 1 ==> cnt[i] < |pooled|)
    decreases |cnt| - i
  {
    if i < |cnt| - 1 {
      PartitionSlices(pooled, cnt, space, i + 1);
      assert Balance.GoodPage(Sizes(pooled), cnt, false, space, i + 1);
    }
  }

  lemma {:induction false} PartitionIsSlices(pooled: seq<Entry>, cnt: seq<nat>, space: int)
    requires Balance.Partition(Sizes(pooled), cnt, false, space)
    ensures Slices(pooled, cnt)
  {
    forall i | 0 <= i < |cnt|
      ensures cnt[i] <= |pooled| && (i < |cnt| - 1 ==> cnt[i] < |pooled|) && HoldsEntry(cnt, i)
    {
      PartitionSlices(pooled, cnt, space, i);
      assert Balance.GoodPage(Sizes(pooled), cnt, false, space, i);
    }
  }

  /** Leaf by leaf, with the promoted entries between them, the row holds the whole pool. */
  lemma {:induction false} RowFlat(pooled: seq<Entry>, cnt: seq<nat>, kept: seq<nat>, n: nat)
    requires Slices(pooled, cnt) && |kept| == |cnt| && 0 < n <= |cnt|
    ensures FlatF(Row(pooled, cnt, kept, n), Promoted(pooled, cnt, n - 1)) == pooled[..cnt[n - 1]]
  {
    assert HoldsEntry(cnt, n - 1);
    if n == 1 {
      assert Row(pooled, cnt, kept, 1)[0] == TLeaf(kept[0], Slice(pooled, cnt, 0));
    } else {
      RowFlat(pooled, cnt, kept, n - 1);
      var row', divs' := Row(pooled, cnt, kept, n - 1), Promoted(pooled, cnt, n - 2);
      var last, d := TLeaf(kept[n - 1], Slice(pooled, cnt, n - 1)), pooled[cnt[n - 2]];
      assert Row(pooled, cnt, kept, n) == row' + [last];
      assert Promoted(pooled, cnt, n - 1) == divs' + [d] + [];
      FlatCat(row', divs', d, [last], []);
      OneMoreSlice(pooled, cnt[n - 2], cnt[n - 1]);
    }
  }

  lemma {:induction false} OneMoreSlice<T>(s: seq<T>, a: nat, b: nat)
    requires a < b <= |s|
    ensures s[..b] == s[..a] + [s[a]] + s[a + 1..b]
  {
  }

  lemma {:induction false} RowPages(pooled: seq<Entry>, cnt: seq<nat>, kept: seq<nat>, n: nat)
    requires Slices(pooled, cnt) && |kept| == |cnt| && n <= |cnt| && NoDup(kept)
    ensures PagesF(Row(pooled, cnt, kept, n)) == AsSet(kept[..n])
    ensures DistinctF(Row(pooled, cnt, kept, n))
  {
    if n > 0 {
      RowPages(pooled, cnt, kept, n - 1);
      assert HoldsEntry(cnt, n - 1);
      var row', last := Row(pooled, cnt, kept, n - 1), TLeaf(kept[n - 1], Slice(pooled, cnt, n - 1));
      assert Row(pooled, cnt, kept, n) == row' + [last];
      PagesCat(row', [last]);
      assert PagesF([last]) == {kept[n - 1]};
      assert kept[..n] == kept[..n - 1] + [kept[n - 1]];
      assert AsSet(kept[..n]) == AsSet(kept[..n - 1]) + {kept[n - 1]};
    }
  }

  lemma {:induction false} RowShape(pooled: seq<Entry>, cnt: seq<nat>, kept: seq<nat>, usable: nat)
    requires Slices(pooled, cnt) && |kept| == |cnt|
    requires Balance.Partition(Sizes(pooled), cnt, false, usable - 8)
    requires forall i :: 0 <= i < |kept| ==> kept[i] != 1
    ensures ShapeF(Row(pooled, cnt, kept, |cnt|), 1, usable)
  {
    forall i | 0 <= i < |cnt|
      ensures HoldsEntry(cnt, i) && LeafFits(Slice(pooled, cnt, i), 0, usable)
    {
      assert Balance.GoodPage(Sizes(pooled), cnt, false, usable - 8, i);
      UsedOfSlice(pooled, Balance.Start(cnt, false, i), cnt[i]);
    }
  }

  // ----- The redistribution itself

  /** The pages for `n` leaves: the old ones first, more if there are too few, the surplus freed. */
  method AssignPages(wp: WritePager, oldPages: seq<nat>, n: nat) returns (kept: seq<nat>)
    requires wp.Valid() && NoDup(oldPages) && forall i :: 0 <= i < |oldPages| ==> oldPages[i] in wp.pages
    modifies wp
    ensures wp.Valid() && |kept| == n && NoDup(kept) && NonDescending(kept)
    ensures forall i :: 0 <= i < n ==> kept[i] in wp.pages
    ensures Footprint(old(wp.pages), wp.pages, AsSet(oldPages), AsSet(kept))
  {
    var m := if n < |oldPages| then n else |oldPages|;
    var pgs := oldPages[..m];
    ghost var before := wp.pages;
    for i := m to n
      invariant wp.Valid() && |pgs| == i && NoDup(pgs)
      invariant m < n ==> m == |oldPages|
      invariant forall j :: 0 <= j < i ==> pgs[j] in wp.pages
      invariant forall j :: 0 <= j < i ==> pgs[j] in oldPages || pgs[j] !in before
      invariant forall p :: p in before ==> p in wp.pages && wp.pages[p] == before[p]
      invariant forall j :: m <= j < |oldPages| ==> oldPages[j] in wp.pages && oldPages[j] !in pgs
    {
      var pg := wp.AllocatePage();
      pgs := pgs + [pg];
    }
    for i := m to |oldPages|
      invariant wp.Valid()
      invariant forall j :: 0 <= j < n ==> pgs[j] in wp.pages
      invariant forall p :: p in before && p !in oldPages ==> p in wp.pages && wp.pages[p] == before[p]
      invariant forall j :: i <= j < |oldPages| ==> oldPages[j] in wp.pages && oldPages[j] !in pgs
    {
      wp.FreePage(oldPages[i]);
    }
    kept := SortPages(pgs);
    PermutationKeeps(pgs, kept);
    forall i | 0 <= i < n
      ensures kept[i] in wp.pages && (kept[i] in oldPages || kept[i] !in before)
    {
      assert kept[i] in AsSet(kept);
    }
  }

  /** Write each slice to its page and collect the entries promoted between them. */
  method WriteRow(wp: WritePager, pooled: seq<Entry>, cnt: seq<nat>, kept: seq<nat>) returns (divs: seq<Entry>)
    requires wp.Valid() && Slices(pooled, cnt) && |kept| == |cnt| && NoDup(kept)
    requires Balance.Partition(Sizes(pooled), cnt, false, wp.usable - 8)
    requires forall i :: 0 <= i < |kept| ==> kept[i] in wp.pages
    modifies wp
    ensures wp.Valid() && divs == Promoted(pooled, cnt, |cnt| - 1)
    ensures RepresentsF(wp.pages, Row(pooled, cnt, kept, |cnt|))
    ensures forall p :: p in old(wp.pages) && p !in kept ==> p in wp.pages && wp.pages[p] == old(wp.pages)[p]
  {
    divs := [];
    var start := 0;
    RowShape(pooled, cnt, kept, wp.usable);
    for i := 0 to |cnt|
      invariant wp.Valid() && start == Balance.Start(cnt, false, i)
      invariant forall j :: 0 <= j < |kept| ==> kept[j] in wp.pages
      invariant forall j :: 0 <= j < i ==> wp.pages[kept[j]] == Leaf(Row(pooled, cnt, kept, |cnt|)[j].entries)
      invariant divs == Promoted(pooled, cnt, if i < |cnt| then i else i - 1)
      invariant forall p :: p in old(wp.pages) && p !in kept ==> p in wp.pages && wp.pages[p] == old(wp.pages)[p]
    {
      assert HoldsEntry(cnt, i);
      var slice := pooled[start..cnt[i]];
      assert Row(pooled, cnt, kept, |cnt|)[i] == TLeaf(kept[i], slice);
      wp.WriteNode(kept[i], Leaf(slice));
      if i < |cnt| - 1 {
        divs := divs + [pooled[cnt[i]]];
      }
      start := cnt[i] + 1;
    }
  }

  /** Redistribute a pool of entries over the right number of leaves, reusing the old pages. The
      new row holds exactly the pool, every page fits and is non-empty, and no page is shared. */
  method BalanceLeafPooled(wp: WritePager, oldPages: seq<nat>, pooled: seq<Entry>, cntOld: seq<nat>)
    returns (pages: seq<nat>, newDividers: seq<Entry>, ghost row: seq<Tree>)
    requires wp.Valid() && NoDup(oldPages) && forall i :: 0 <= i < |oldPages| ==> oldPages[i] in wp.pages
    requires pooled != [] && CellsOk(pooled, wp.usable)
    requires Balance.OldBoundaries(Sizes(pooled), cntOld, false)
    modifies wp
    ensures wp.Valid() && pages == Roots(row) && |row| == |newDividers| + 1
    ensures RepresentsF(wp.pages, row) && ShapeF(row, 1, wp.usable) && DistinctF(row)
    ensures FlatF(row, newDividers) == pooled
    ensures Footprint(old(wp.pages), wp.pages, AsSet(oldPages), PagesF(row))
    ensures LeafUsed(pooled) > wp.usable - 8 ==> |row| > 1
    ensures Balance.Earned(|row|, wp.usable - 8, LeafUsed(pooled))
  {
    var sz := Sizes(pooled);
    CellsFitLeaf(pooled, wp.usable);
    var cnt := Balance.Distribute(sz, cntOld, true, false, wp.usable);
    PartitionIsSlices(pooled, cnt, wp.usable - 8);
    var kept := AssignPages(wp, oldPages, |cnt|);
    newDividers := WriteRow(wp, pooled, cnt, kept);
    pages := kept;
    row := Row(pooled, cnt, kept, |cnt|);
    RowIsGood(pooled, cnt, kept, wp.usable);
  }

  lemma {:induction false} RowIsGood(pooled: seq<Entry>, cnt: seq<nat>, kept: seq<nat>, usable: nat)
    requires Slices(pooled, cnt) && |kept| == |cnt| && NoDup(kept)
    requires Balance.Partition(Sizes(pooled), cnt, false, usable - 8)
    requires forall i :: 0 <= i < |kept| ==> kept[i] != 1
    ensures var row := Row(pooled, cnt, kept, |cnt|);
            && Roots(row) == kept && PagesF(row) == AsSet(kept)
            && ShapeF(row, 1, usable) && DistinctF(row)
            && FlatF(row, Promoted(pooled, cnt, |cnt| - 1)) == pooled
    ensures LeafUsed(pooled) > usable - 8 ==> |cnt| > 1
  {
    RowShape(pooled, cnt, kept, usable);
    RowFlat(pooled, cnt, kept, |cnt|);
    RowPages(pooled, cnt, kept, |cnt|);
    assert kept[..|cnt|] == kept;
    assert pooled[..|pooled|] == pooled;
    assert Balance.GoodPage(Sizes(pooled), cnt, false, usable - 8, 0);
  }

  lemma {:induction false} CellsFitLeaf(pooled: seq<Entry>, usable: nat)
    requires CellsOk(pooled, usable)
    ensures Balance.CellsFit(Sizes(pooled), false, Balance.UsableSpace(usable, true))
  {
    forall i | 0 <= i < |pooled|
      ensures 2 * (Sizes(pooled)[i] + 2) <= usable - 8
    {
      assert CellOk(pooled[i], usable);
    }
  }
}
