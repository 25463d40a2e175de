/** Splitting an over-full interior page. */
module InteriorSplit {
  import opened IndexTree
  import opened LeafBalance
  import Balance

  /** One part of a split: its children and the dividers between them. */
  datatype Part = Part(children: seq<nat>, dividers: seq<Entry>)

  // Part `k` under the boundaries `cnt`: its dividers, with the children around each of them.
  ghost function PartAt(children: seq<nat>, divs: seq<Entry>, cnt: seq<nat>, k: nat): Part
    requires |children| == |divs| + 1 && Slices(divs, cnt) && k < |cnt|
  {
    assert HoldsEntry(cnt, k);
    Part(children[Balance.Start(cnt, false, k)..cnt[k] + 1], Slice(divs, cnt, k))
  }

  /** The parts divide children and dividers exactly: the divider at each boundary is promoted and
      its left child closes the part before it. */
  ghost predicate PartsOf(parts: seq<Part>, seps: seq<Entry>, children: seq<nat>, divs: seq<Entry>, cnt: seq<nat>)
    requires |children| == |divs| + 1
  {
    && Slices(divs, cnt)
    && |parts| == |cnt|
    && (forall k :: 0 <= k < |parts| ==> parts[k] == PartAt(children, divs, cnt, k))
    && seps == Promoted(divs, cnt, |cnt| - 1)
  }

  ghost predicate ThreeFit(divs: seq<Entry>, cap: int) {
    forall i :: 0 <= i < |divs| ==> 3 * (|divs[i].cell| + 6) <= cap
  }

  lemma {:induction false} InteriorUsedStep(divs: seq<Entry>, i: nat, b: nat)
    requires i <= b < |divs|
    ensures InteriorUsed(divs[i..b + 1]) == InteriorUsed(divs[i..b]) + |divs[b].cell| + 6
  {
    assert divs[i..b + 1] == divs[i..b] + [divs[b]];
    UsedCat(divs[i..b], [divs[b]]);
    UsedOne(divs[b]);
  }

  lemma {:induction false} InteriorUsedCat(divs: seq<Entry>, i: nat, b: nat, c: nat)
    requires i <= b <= c <= |divs|
    ensures InteriorUsed(divs[i..c]) == InteriorUsed(divs[i..b]) + InteriorUsed(divs[b..c])
  {
    assert divs[i..c] == divs[i..b] + divs[b..c];
    UsedCat(divs[i..b], divs[b..c]);
  }

  /** How many dividers, from `i` on, fit on a page of capacity `cap`: always three, if there are
      as many. */
  method TakeWhileFits(divs: seq<Entry>, i: nat, cap: int) returns (b: nat)
    requires i < |divs| && ThreeFit(divs, cap)
    ensures i < b <= |divs| && InteriorUsed(divs[i..b]) <= cap
    ensures b < |divs| ==> i + 3 <= b && InteriorUsed(divs[i..b + 1]) > cap
  {
    var used := 0;
    b := i;
    assert divs[i..i] == [];
    assert 3 * (|divs[i].cell| + 6) <= cap;
    while b < |divs|
      invariant i <= b <= |divs| && used == InteriorUsed(divs[i..b])
      invariant used <= cap
      invariant b == i ==> used == 0
      invariant b == i + 1 ==> 3 * used <= cap
      invariant b == i + 2 ==> 3 * used <= 2 * cap
    {
      assert 3 * (|divs[b].cell| + 6) <= cap;
      InteriorUsedStep(divs, i, b);
      var need := 4 + |divs[b].cell| + 2;
      if b == i || used + need <= cap {
        used := used + need;
        b := b + 1;
      } else {
        break;
      }
    }
  }

  // Part `k` was cut off at divider `cuts[k]`.
  ghost predicate Cut(children: seq<nat>, divs: seq<Entry>, parts: seq<Part>, seps: seq<Entry>, cuts: seq<nat>, k: nat)
    requires |children| == |divs| + 1 && |parts| == |seps| == |cuts| && k < |cuts|
  {
    var start := Balance.Start(cuts, false, k);
    && start < cuts[k] < |divs|
    && parts[k] == Part(children[start..cuts[k] + 1], divs[start..cuts[k]])
    && seps[k] == divs[cuts[k]]
  }

  /** The state of the split when the next part starts at divider `i`: every part so far fits, and
      the bytes passed pay for them. */
  ghost predicate Splitting(children: seq<nat>, divs: seq<Entry>, parts: seq<Part>, seps: seq<Entry>, cuts: seq<nat>,
                            i: nat) {
    && |children| == |divs| + 1
    && |parts| == |seps| == |cuts|
    && i == Balance.Start(cuts, false, |cuts|)
    && i < |divs|
    && forall k :: 0 <= k < |cuts| ==> Cut(children, divs, parts, seps, cuts, k)
  }

  ghost predicate PartsFit(parts: seq<Part>, body0: nat, usable: nat) {
    forall k :: 0 <= k < |parts| ==> InteriorFits(parts[k].dividers, if k == 0 then body0 else 0, usable)
  }

  lemma {:induction false} CutMore(children: seq<nat>, divs: seq<Entry>, parts: seq<Part>, seps: seq<Entry>,
                                   cuts: seq<nat>, i: nat, bb: nat)
    requires Splitting(children, divs, parts, seps, cuts, i) && i < bb < |divs| - 1
    ensures Splitting(children, divs, parts + [Part(children[i..bb + 1], divs[i..bb])], seps + [divs[bb]], cuts + [bb],
                      bb + 1)
  {
    var parts', seps', cuts' := parts + [Part(children[i..bb + 1], divs[i..bb])], seps + [divs[bb]], cuts + [bb];
    forall k | 0 <= k < |cuts'|
      ensures Cut(children, divs, parts', seps', cuts', k)
    {
      if k < |cuts| {
        assert Cut(children, divs, parts, seps, cuts, k);
        assert Balance.Start(cuts', false, k) == Balance.Start(cuts, false, k);
      }
    }
  }

  // The last part takes what is left.
  lemma {:induction false} CutLast(children: seq<nat>, divs: seq<Entry>, parts: seq<Part>, seps: seq<Entry>,
                                   cuts: seq<nat>, i: nat)
    requires Splitting(children, divs, parts, seps, cuts, i)
    ensures PartsOf(parts + [Part(children[i..], divs[i..])], seps, children, divs, cuts + [|divs|])
  {
    var parts', cnt := parts + [Part(children[i..], divs[i..])], cuts + [|divs|];
    CutsAreSlices(children, divs, parts, seps, cuts, i);
    forall k | 0 <= k < |cnt|
      ensures parts'[k] == PartAt(children, divs, cnt, k)
    {
      if k < |cuts| {
        assert Cut(children, divs, parts, seps, cuts, k);
        assert Balance.Start(cnt, false, k) == Balance.Start(cuts, false, k);
      }
    }
    assert |seps| == |Promoted(divs, cnt, |cnt| - 1)|;
    forall k | 0 <= k < |seps|
      ensures seps[k] == Promoted(divs, cnt, |cnt| - 1)[k]
    {
      assert Cut(children, divs, parts, seps, cuts, k);
    }
  }

  lemma {:induction false} CutsAreSlices(children: seq<nat>, divs: seq<Entry>, parts: seq<Part>, seps: seq<Entry>,
                                         cuts: seq<nat>, i: nat)
    requires Splitting(children, divs, parts, seps, cuts, i)
    ensures Slices(divs, cuts + [|divs|])
  {
    var cnt := cuts + [|divs|];
    forall k | 0 <= k < |cnt|
      ensures HoldsEntry(cnt, k) && cnt[k] <= |divs| && (k < |cnt| - 1 ==> cnt[k] < |divs|)
    {
      if k < |cuts| {
        assert Cut(children, divs, parts, seps, cuts, k);
        assert Balance.Start(cnt, false, k) == Balance.Start(cuts, false, k);
      }
    }
  }

  /** Parts cut off so far are paid for by the dividers passed, or, when the last cut moved back, by
      all of them. */
  ghost predicate Paid(divs: seq<Entry>, n: nat, cap: int, i: nat)
    requires i < |divs|
  {
    n > 0 ==>
      || Balance.Times(n, cap) < InteriorUsed(divs[..i])
      || (i == |divs| - 1 && Balance.Times(n, cap) < InteriorUsed(divs))
  }

  lemma {:induction false} PaidInFull(divs: seq<Entry>, n: nat, cap: int, i: nat)
    requires i < |divs| && Paid(divs, n, cap, i)
    ensures Balance.Earned(n + 1, cap, InteriorUsed(divs))
  {
    InteriorUsedCat(divs, 0, i, |divs|);
    assert divs[0..i] == divs[..i] && divs[0..|divs|] == divs;
  }

  lemma {:induction false} PayOneMore(divs: seq<Entry>, n: nat, cap0: int, cap: int, i: nat, b: nat, bb: nat)
    requires i + 3 <= b < |divs| && cap0 <= cap && InteriorUsed(divs[i..b + 1]) > cap
    requires bb == (if b == |divs| - 1 then b - 1 else b)
    requires Paid(divs, n, cap0, i)
    ensures Paid(divs, n + 1, cap0, bb + 1)
  {
    InteriorUsedCat(divs, 0, i, b + 1);
    assert divs[0..i] == divs[..i] && divs[0..b + 1] == divs[..b + 1];
    assert Balance.Times(n + 1, cap0) == Balance.Times(n, cap0) + cap0;
    assert b == |divs| - 1 ==> divs[..b + 1] == divs;
  }

  ghost predicate Packing(children: seq<nat>, divs: seq<Entry>, parts: seq<Part>, seps: seq<Entry>, cuts: seq<nat>,
                          i: nat, body0: nat, usable: nat) {
    && Splitting(children, divs, parts, seps, cuts, i)
    && PartsFit(parts, body0, usable)
    && Paid(divs, |parts|, usable - body0 - 12, i)
  }

  function Capacity(n: nat, body0: nat, usable: nat): int {
    usable - ((if n == 0 then body0 else 0) + 12)
  }

  lemma {:induction false} PackMore(children: seq<nat>, divs: seq<Entry>, parts: seq<Part>, seps: seq<Entry>,
                                    cuts: seq<nat>, i: nat, body0: nat, usable: nat, b: nat, bb: nat)
    requires Packing(children, divs, parts, seps, cuts, i, body0, usable)
    requires i + 3 <= b < |divs|
    requires InteriorUsed(divs[i..b]) <= Capacity(|parts|, body0, usable) < InteriorUsed(divs[i..b + 1])
    requires bb == (if b == |divs| - 1 then b - 1 else b)
    ensures Packing(children, divs, parts + [Part(children[i..bb + 1], divs[i..bb])], seps + [divs[bb]], cuts + [bb],
                    bb + 1, body0, usable)
  {
    CutMore(children, divs, parts, seps, cuts, i, bb);
    InteriorUsedCat(divs, i, bb, b);
    PayOneMore(divs, |parts|, usable - body0 - 12, Capacity(|parts|, body0, usable), i, b, bb);
  }

  lemma {:induction false} PackLast(children: seq<nat>, divs: seq<Entry>, parts: seq<Part>, seps: seq<Entry>,
                                    cuts: seq<nat>, i: nat, body0: nat, usable: nat)
    requires Packing(children, divs, parts, seps, cuts, i, body0, usable)
    requires InteriorUsed(divs[i..|divs|]) <= Capacity(|parts|, body0, usable)
    ensures var parts' := parts + [Part(children[i..], divs[i..])];
            && PartsOf(parts', seps, children, divs, cuts + [|divs|])
            && PartsFit(parts', body0, usable)
            && Balance.Earned(|parts'|, usable - body0 - 12, InteriorUsed(divs))
  {
    CutLast(children, divs, parts, seps, cuts, i);
    PaidInFull(divs, |parts|, usable - body0 - 12, i);
    assert divs[i..] == divs[i..|divs|];
  }

  /** Greedily divide an over-full interior page into parts that fit. The last part keeps at least
      one divider: if the greedy cut would leave it none, the cut moves back by one. */
  method PackIndexInterior(children: seq<nat>, divs: seq<Entry>, body0: nat, usable: nat)
    returns (parts: seq<Part>, seps: seq<Entry>, ghost cnt: seq<nat>)
    requires |children| == |divs| + 1 && |divs| > 0
    requires ThreeFit(divs, usable - body0 - 12)
    ensures PartsOf(parts, seps, children, divs, cnt)
    ensures PartsFit(parts, body0, usable)
    ensures Balance.Earned(|parts|, usable - body0 - 12, InteriorUsed(divs))
  {
    parts, seps, cnt := [], [], [];
    var i := 0;
    while true
      invariant Packing(children, divs, parts, seps, cnt, i, body0, usable)
      decreases |divs| - i
    {
      var cap := Capacity(|parts|, body0, usable);
      var b := TakeWhileFits(divs, i, cap);
      if b >= |divs| {
        PackLast(children, divs, parts, seps, cnt, i, body0, usable);
        parts := parts + [Part(children[i..], divs[i..])];
        cnt := cnt + [|divs|];
        return;
      }
      var bb := b;
      if bb == |divs| - 1 && bb > i + 1 {
        bb := bb - 1;
      }
      PackMore(children, divs, parts, seps, cnt, i, body0, usable, b, bb);
      parts := parts + [Part(children[i..bb + 1], divs[i..bb])];
      seps := seps + [divs[bb]];
      cnt := cnt + [bb];
      i := bb + 1;
    }
  }

  // ----- The trees of the parts

  /** The row of interior nodes a split makes. */
  ghost function NodeRow(kids: seq<Tree>, divs: seq<Entry>, cnt: seq<nat>, pgs: seq<nat>, n: nat): seq<Tree>
    requires |kids| == |divs| + 1 && Slices(divs, cnt) && |pgs| == |cnt| && n <= |cnt|
  {
    seq(n, k requires 0 <= k < n => NodeAt(kids, divs, cnt, pgs, k))
  }

  ghost function NodeAt(kids: seq<Tree>, divs: seq<Entry>, cnt: seq<nat>, pgs: seq<nat>, k: nat): Tree
    requires |kids| == |divs| + 1 && Slices(divs, cnt) && |pgs| == |cnt| && k < |cnt|
  {
    assert HoldsEntry(cnt, k);
    TNode(pgs[k], kids[Balance.Start(cnt, false, k)..cnt[k] + 1], Slice(divs, cnt, k))
  }

  /** Part by part, with the promoted dividers between them, a split holds what the page held. */
  lemma {:induction false} NodeRowFlat(kids: seq<Tree>, divs: seq<Entry>, cnt: seq<nat>, pgs: seq<nat>, n: nat)
    requires |kids| == |divs| + 1 && Slices(divs, cnt) && |pgs| == |cnt| && 0 < n <= |cnt|
    ensures FlatF(NodeRow(kids, divs, cnt, pgs, n), Promoted(divs, cnt, n - 1))
         == FlatF(kids[..cnt[n - 1] + 1], divs[..cnt[n - 1]])
  {
    assert HoldsEntry(cnt, n - 1);
    var last := NodeAt(kids, divs, cnt, pgs, n - 1);
    if n == 1 {
      assert NodeRow(kids, divs, cnt, pgs, 1) == [last];
      assert last.kids == kids[..cnt[0] + 1] && last.divs == divs[..cnt[0]];
    } else {
      NodeRowFlat(kids, divs, cnt, pgs, n - 1);
      var c, c' := cnt[n - 2], cnt[n - 1];
      var row, seps := NodeRow(kids, divs, cnt, pgs, n - 1), Promoted(divs, cnt, n - 2);
      assert NodeRow(kids, divs, cnt, pgs, n) == row + [last];
      assert Promoted(divs, cnt, n - 1) == seps + [divs[c]] + [];
      FlatCat(row, seps, divs[c], [last], []);
      NextPartFlat(kids, divs, c, c');
    }
  }

  lemma {:induction false} NextPartFlat(kids: seq<Tree>, divs: seq<Entry>, c: nat, c': nat)
    requires |kids| == |divs| + 1 && c < c' <= |divs|
    ensures FlatF(kids[..c' + 1], divs[..c'])
         == FlatF(kids[..c + 1], divs[..c]) + [divs[c]] + FlatF(kids[c + 1..c' + 1], divs[c + 1..c'])
  {
    FlatCat(kids[..c + 1], divs[..c], divs[c], kids[c + 1..c' + 1], divs[c + 1..c']);
    OneMoreSlice(divs, c, c');
    assert kids[..c' + 1] == kids[..c + 1] + kids[c + 1..c' + 1];
  }

  lemma {:induction false} NodeRowPages(kids: seq<Tree>, divs: seq<Entry>, cnt: seq<nat>, pgs: seq<nat>, n: nat)
    requires |kids| == |divs| + 1 && Slices(divs, cnt) && |pgs| == |cnt| && 0 < n <= |cnt|
    requires NoDup(pgs) && DistinctF(kids) && AsSet(pgs) !! PagesF(kids)
    ensures PagesF(NodeRow(kids, divs, cnt, pgs, n)) == AsSet(pgs[..n]) + PagesF(kids[..cnt[n - 1] + 1])
    ensures DistinctF(NodeRow(kids, divs, cnt, pgs, n))
  {
    assert HoldsEntry(cnt, n - 1);
    var last := NodeAt(kids, divs, cnt, pgs, n - 1);
    var lo, hi := Balance.Start(cnt, false, n - 1), cnt[n - 1] + 1;
    OneNodePages(kids, pgs, last, lo, hi, n - 1);
    if n == 1 {
      assert NodeRow(kids, divs, cnt, pgs, 1) == [last];
      assert AsSet(pgs[..1]) == {pgs[0]};
      assert kids[lo..hi] == kids[..hi];
    } else {
      NodeRowPages(kids, divs, cnt, pgs, n - 1);
      assert NodeRow(kids, divs, cnt, pgs, n) == NodeRow(kids, divs, cnt, pgs, n - 1) + [last];
      OneMoreNode(NodeRow(kids, divs, cnt, pgs, n - 1), kids, pgs, last, lo, hi, n - 1);
    }
  }

  lemma {:induction false} OneNodePages(kids: seq<Tree>, pgs: seq<nat>, last: Tree, lo: nat, hi: nat, i: nat)
    requires lo <= hi <= |kids| && i < |pgs| && DistinctF(kids) && AsSet(pgs) !! PagesF(kids)
    requires last.TNode? && last.pg == pgs[i] && last.kids == kids[lo..hi]
    ensures PagesF([last]) == {pgs[i]} + PagesF(kids[lo..hi])
    ensures DistinctF([last])
  {
    PagesOfSlice(kids, lo, hi);
    assert pgs[i] in AsSet(pgs);
  }

  lemma {:induction false} OneMoreNode(row: seq<Tree>, kids: seq<Tree>, pgs: seq<nat>, last: Tree, lo: nat, hi: nat,
                                       i: nat)
    requires lo <= hi <= |kids| && i < |pgs| && DistinctF(kids) && AsSet(pgs) !! PagesF(kids) && NoDup(pgs)
    requires DistinctF(row) && PagesF(row) == AsSet(pgs[..i]) + PagesF(kids[..lo])
    requires DistinctF([last]) && PagesF([last]) == {pgs[i]} + PagesF(kids[lo..hi])
    ensures DistinctF(row + [last])
    ensures PagesF(row + [last]) == AsSet(pgs[..i + 1]) + PagesF(kids[..hi])
  {
    PagesCat(row, [last]);
    assert AsSet(pgs[..i + 1]) == AsSet(pgs[..i]) + {pgs[i]};
    assert kids[..hi] == kids[..lo] + kids[lo..hi];
    PagesCat(kids[..lo], kids[lo..hi]);
    SlicesApart(kids, lo, hi);
    PagesOfSlice(kids, lo, hi);
    PagesOfSlice(kids, 0, lo);
    assert kids[0..lo] == kids[..lo];
    assert AsSet(pgs[..i]) <= AsSet(pgs) && pgs[i] in AsSet(pgs);
  }

  lemma {:induction false} PagesOfSlice(kids: seq<Tree>, lo: nat, hi: nat)
    requires lo <= hi <= |kids|
    ensures PagesF(kids[lo..hi]) <= PagesF(kids)
    ensures DistinctF(kids) ==> DistinctF(kids[lo..hi])
  {
    ThreeSlices(kids, lo, hi);
    PagesCat(kids[..lo] + kids[lo..hi], kids[hi..]);
    PagesCat(kids[..lo], kids[lo..hi]);
  }

  lemma {:induction false} SlicesApart(kids: seq<Tree>, lo: nat, hi: nat)
    requires lo <= hi <= |kids| && DistinctF(kids)
    ensures PagesF(kids[..lo]) !! PagesF(kids[lo..hi])
  {
    ThreeSlices(kids, lo, hi);
    PagesCat(kids[..lo] + kids[lo..hi], kids[hi..]);
    PagesCat(kids[..lo], kids[lo..hi]);
  }
}
