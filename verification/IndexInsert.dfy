/** Insertion into an index b-tree held in pages. */
module IndexInsert {
  import opened Bytes
  import opened Records
  import opened IndexTree
  import opened Pager
  import opened LeafBalance
  import opened InteriorSplit
  import Balance

  // ----- Rows of trees in a page map

  /** The page map holds a row of well-formed trees of height `h` that share no page. */
  ghost predicate HoldsF(pages: map<nat, Node>, ts: seq<Tree>, h: nat, usable: nat) {
    RepresentsF(pages, ts) && ShapeF(ts, h, usable) && DistinctF(ts)
  }

  lemma {:induction false} RepresentedPages(pages: map<nat, Node>, t: Tree)
    requires Represents(pages, t)
    ensures PagesOf(t) <= pages.Keys
    decreases t, 0
  {
    if t.TNode? {
      RepresentedPagesF(pages, t.kids);
    }
  }

  lemma {:induction false} RepresentedPagesF(pages: map<nat, Node>, ts: seq<Tree>)
    requires RepresentsF(pages, ts)
    ensures PagesF(ts) <= pages.Keys
    decreases ts, 1
  {
    if ts != [] {
      assert Represents(pages, ts[0]);
      RepresentedPages(pages, ts[0]);
      assert forall i :: 0 <= i < |ts[1..]| ==> ts[1..][i] == ts[i + 1];
      RepresentedPagesF(pages, ts[1..]);
    }
  }

  lemma {:induction false} HoldsCat(pages: map<nat, Node>, a: seq<Tree>, b: seq<Tree>, h: nat, usable: nat)
    ensures HoldsF(pages, a + b, h, usable)
       <==> HoldsF(pages, a, h, usable) && HoldsF(pages, b, h, usable) && PagesF(a) !! PagesF(b)
  {
    PagesCat(a, b);
    RowCat(pages, a, b, h, usable);
  }

  lemma {:induction false} RowCat(pages: map<nat, Node>, a: seq<Tree>, b: seq<Tree>, h: nat, usable: nat)
    ensures RepresentsF(pages, a + b) <==> RepresentsF(pages, a) && RepresentsF(pages, b)
    ensures ShapeF(a + b, h, usable) <==> ShapeF(a, h, usable) && ShapeF(b, h, usable)
  {
    assert forall i :: 0 <= i < |a| ==> a[i] == (a + b)[i];
    assert forall i :: 0 <= i < |b| ==> b[i] == (a + b)[|a| + i];
  }

  // Trees that a rewrite does not touch stay as they are, and apart from what is new.
  lemma {:induction false} Untouched(pages: map<nat, Node>, pages': map<nat, Node>, ts: seq<Tree>, before: set<nat>,
                                     after: set<nat>, h: nat, usable: nat)
    requires HoldsF(pages, ts, h, usable) && Footprint(pages, pages', before, after) && PagesF(ts) !! before
    ensures HoldsF(pages', ts, h, usable) && PagesF(ts) !! after
  {
    RepresentsFFrame(pages, pages', ts);
    RepresentedPagesF(pages, ts);
  }

  /** Replacing part of a row by trees that hold its pages keeps a well-formed row. */
  lemma {:induction false} SpliceHolds(pages: map<nat, Node>, pages': map<nat, Node>, kids: seq<Tree>, i: nat, j: nat,
                                       ts: seq<Tree>, h: nat, usable: nat)
    requires i <= j <= |kids| && HoldsF(pages, kids, h, usable) && HoldsF(pages', ts, h, usable)
    requires Footprint(pages, pages', PagesF(kids[i..j]), PagesF(ts))
    ensures HoldsF(pages', kids[..i] + ts + kids[j..], h, usable)
    ensures Footprint(pages, pages', PagesF(kids), PagesF(kids[..i] + ts + kids[j..]))
  {
    var a, m, b := kids[..i], kids[i..j], kids[j..];
    ThreeSlices(kids, i, j);
    HoldsCat(pages, a + m, b, h, usable);
    HoldsCat(pages, a, m, h, usable);
    PagesCat(a + m, b);
    PagesCat(a, m);
    Untouched(pages, pages', a, PagesF(m), PagesF(ts), h, usable);
    Untouched(pages, pages', b, PagesF(m), PagesF(ts), h, usable);
    HoldsCat(pages', a, ts, h, usable);
    HoldsCat(pages', a + ts, b, h, usable);
    PagesCat(a, ts);
    PagesCat(a + ts, b);
  }

  // ----- Where the new entry goes

  lemma {:induction false} LeftIsBelow(kids: seq<Tree>, divs: seq<Entry>, p: nat, e: Entry, cmp: Comparator)
    requires TotalPreorder(cmp) && |kids| == |divs| + 1 && p <= |divs|
    requires Sorted(LeftOf(kids, divs, p), cmp)
    requires p > 0 ==> cmp(e.rec, divs[p - 1].rec) == Greater
    ensures AllBelow(LeftOf(kids, divs, p), e, cmp)
  {
    var s := LeftOf(kids, divs, p);
    forall i | 0 <= i < |s|
      ensures cmp(e.rec, s[i].rec) == Greater
    {
      var d := s[|s| - 1];
      assert d == divs[p - 1];
      assert cmp(d.rec, e.rec) == cmp(e.rec, d.rec).Reverse();
      if i < |s| - 1 {
        StrictChain(cmp, s[i].rec, d.rec, e.rec);
      }
      assert cmp(e.rec, s[i].rec) == cmp(s[i].rec, e.rec).Reverse();
    }
  }

  lemma {:induction false} SortedParts(a: seq<Entry>, m: seq<Entry>, b: seq<Entry>, cmp: Comparator)
    requires Sorted(a + m + b, cmp)
    ensures Sorted(a, cmp) && Sorted(m, cmp) && Sorted(b, cmp)
  {
    var s := a + m + b;
    assert forall i :: 0 <= i < |a| ==> a[i] == s[i];
    assert forall i :: 0 <= i < |m| ==> m[i] == s[|a| + i];
    assert forall i :: 0 <= i < |b| ==> b[i] == s[|a| + |m| + i];
  }

  /** Between the dividers around it, the new entry goes into child `p`. */
  lemma {:induction false} InsertDescends(kids: seq<Tree>, divs: seq<Entry>, p: nat, e: Entry, cmp: Comparator)
    requires TotalPreorder(cmp) && |kids| == |divs| + 1 && p <= |divs|
    requires Sorted(FlatF(kids, divs), cmp)
    requires p > 0 ==> cmp(e.rec, divs[p - 1].rec) == Greater
    requires p < |divs| ==> cmp(e.rec, divs[p].rec) == Less
    ensures Sorted(Flat(kids[p]), cmp)
    ensures InsertSorted(FlatF(kids, divs), e, cmp)
         == LeftOf(kids, divs, p) + InsertSorted(Flat(kids[p]), e, cmp) + RightOf(kids, divs, p + 1)
  {
    WindowFlat(kids, divs, p, p + 1);
    assert kids[p..p + 1] == [kids[p]] && divs[p..p] == [];
    SortedParts(LeftOf(kids, divs, p), Flat(kids[p]), RightOf(kids, divs, p + 1), cmp);
    LeftIsBelow(kids, divs, p, e, cmp);
    InsertInside(LeftOf(kids, divs, p), Flat(kids[p]), RightOf(kids, divs, p + 1), e, cmp);
  }

  /** A divider with an equal record: nothing to insert. */
  lemma {:induction false} EqualDivider(kids: seq<Tree>, divs: seq<Entry>, p: nat, e: Entry, cmp: Comparator)
    requires TotalPreorder(cmp) && |kids| == |divs| + 1 && p < |divs|
    requires Sorted(FlatF(kids, divs), cmp) && cmp(e.rec, divs[p].rec) == Equal
    ensures InsertSorted(FlatF(kids, divs), e, cmp) == FlatF(kids, divs)
  {
    WindowFlat(kids, divs, p, p + 1);
    var s, i := FlatF(kids, divs), |LeftOf(kids, divs, p)| + |FlatF(kids[p..p + 1], divs[p..p])|;
    assert s[i] == divs[p];
    InsertMeaning(s, e, cmp);
  }

  // ----- What a level reports to the one above

  /** A new page to the right of a split page, with the divider that follows it. The key of the last
      sibling is a placeholder: the parent's own divider follows it. */
  datatype Sibling = Sibling(key: Entry, pg: nat)

  const NO_KEY := Entry([], [])

  datatype Up =
    | Fit
    | LeafOverfull(entries: seq<Entry>)
    | Split(first: Entry, siblings: seq<Sibling>)
    | Corrupt
  {
    /** The dividers promoted by a split. */
    function Seps(): seq<Entry> {
      if Split? && |siblings| > 0
      then [first] + seq(|siblings| - 1, k requires 0 <= k < |siblings| - 1 => siblings[k].key)
      else []
    }

    function NewPages(): seq<nat> {
      if Split? then seq(|siblings|, k requires 0 <= k < |siblings| => siblings[k].pg) else []
    }
  }

  /** The page became the row `ts`: it kept its number for the first of them, the others are its new
      siblings, and at most one divider was promoted. */
  ghost predicate Became(pages: map<nat, Node>, pages': map<nat, Node>, pg: nat, before: set<nat>, up: Up,
                         ts: seq<Tree>, h: nat, usable: nat) {
    && (up.Fit? || (up.Split? && |up.siblings| == 1))
    && Roots(ts) == [pg] + up.NewPages()
    && HoldsF(pages', ts, h, usable)
    && Footprint(pages, pages', before, PagesF(ts))
  }

  // ----- Interior pages

  // The map after the parts of a split are written: the first over the old page, the rest on new
  // pages.
  ghost predicate PartsWritten(pages: map<nat, Node>, parts: seq<Part>, pgs: seq<nat>) {
    |pgs| <= |parts| && forall k :: 0 <= k < |pgs| ==>
      pgs[k] in pages && pages[pgs[k]] == Interior(parts[k].children, parts[k].dividers)
  }

  // A new page for a part.
  method WritePart(wp: WritePager, part: Part) returns (pg: nat)
    requires wp.Valid() && |part.children| == |part.dividers| + 1
    requires InteriorFits(part.dividers, 0, wp.usable)
    modifies wp
    ensures wp.Valid() && pg !in old(wp.pages)
    ensures wp.pages == old(wp.pages)[pg := Interior(part.children, part.dividers)]
  {
    pg := wp.AllocatePage();
    wp.WriteNode(pg, Interior(part.children, part.dividers));
  }

  // What is written once the pages `pgs` are.
  ghost predicate Written(before: map<nat, Node>, pages: map<nat, Node>, pg: nat, parts: seq<Part>, pgs: seq<nat>) {
    && pgs != [] && pgs[0] == pg && NoDup(pgs) && PartsWritten(pages, parts, pgs)
    && (forall k :: 0 < k < |pgs| ==> pgs[k] !in before)
    && forall p :: p in before && p != pg ==> p in pages && pages[p] == before[p]
  }

  lemma {:induction false} WrittenNext(before: map<nat, Node>, pages: map<nat, Node>, pg: nat, parts: seq<Part>,
                                       pgs: seq<nat>, next: nat)
    requires Written(before, pages, pg, parts, pgs) && |pgs| < |parts| && pg in before && next !in pages
    ensures var part := parts[|pgs|];
            Written(before, pages[next := Interior(part.children, part.dividers)], pg, parts, pgs + [next])
  {
  }

  ghost predicate SiblingsOf(siblings: seq<Sibling>, pgs: seq<nat>, seps: seq<Entry>) {
    && |pgs| == |siblings| + 1 && (forall k :: 0 <= k < |siblings| ==> siblings[k].pg == pgs[k + 1])
    && forall k :: 0 <= k < |siblings| && k < |seps| - 1 ==> siblings[k].key == seps[k + 1]
  }

  lemma {:induction false} SiblingNext(siblings: seq<Sibling>, pgs: seq<nat>, seps: seq<Entry>, key: Entry, next: nat)
    requires SiblingsOf(siblings, pgs, seps) && (|pgs| < |seps| ==> key == seps[|pgs|])
    ensures SiblingsOf(siblings + [Sibling(key, next)], pgs + [next], seps)
  {
  }

  method WriteParts(wp: WritePager, pg: nat, parts: seq<Part>, seps: seq<Entry>)
    returns (siblings: seq<Sibling>, ghost pgs: seq<nat>)
    requires wp.Valid() && pg in wp.pages && |parts| == |seps| + 1 && |seps| > 0
    requires PartsFit(parts, BodyOffset(pg), wp.usable)
    requires forall k :: 0 <= k < |parts| ==> |parts[k].children| == |parts[k].dividers| + 1
    modifies wp
    ensures wp.Valid() && |pgs| == |parts| && pgs[0] == pg && NoDup(pgs)
    ensures PartsWritten(wp.pages, parts, pgs)
    ensures |siblings| == |seps| && forall k :: 0 <= k < |siblings| ==> siblings[k].pg == pgs[k + 1]
    ensures forall k :: 0 <= k < |siblings| - 1 ==> siblings[k].key == seps[k + 1]
    ensures forall k :: 0 < k < |pgs| ==> pgs[k] !in old(wp.pages)
    ensures forall p :: p in old(wp.pages) && p != pg ==> p in wp.pages && wp.pages[p] == old(wp.pages)[p]
  {
    ghost var before := wp.pages;
    wp.WriteNode(pg, Interior(parts[0].children, parts[0].dividers));
    siblings, pgs := [], [pg];
    for k := 1 to |parts|
      invariant wp.Valid() && |pgs| == k && Written(before, wp.pages, pg, parts, pgs) && SiblingsOf(siblings, pgs, seps)
    {
      ghost var was := wp.pages;
      var pgk := WritePart(wp, parts[k]);
      WrittenNext(before, was, pg, parts, pgs, pgk);
      var key := if k < |seps| then seps[k] else NO_KEY;
      SiblingNext(siblings, pgs, seps, key, pgk);
      pgs := pgs + [pgk];
      siblings := siblings + [Sibling(key, pgk)];
    }
  }

  // The pages written for a split hold the row of its parts.
  lemma {:induction false} PartsHold(pages: map<nat, Node>, kids: seq<Tree>, divs: seq<Entry>, cnt: seq<nat>,
                                     parts: seq<Part>, seps: seq<Entry>, pgs: seq<nat>, h: nat, usable: nat)
    requires |kids| == |divs| + 1 && PartsOf(parts, seps, Roots(kids), divs, cnt) && |pgs| == |parts|
    requires PartsWritten(pages, parts, pgs) && PartsFit(parts, 0, usable)
    requires HoldsF(pages, kids, h, usable) && NoDup(pgs) && AsSet(pgs) !! PagesF(kids)
    requires forall k :: 0 <= k < |pgs| ==> BodyOffset(pgs[k]) == 0
    ensures HoldsF(pages, NodeRow(kids, divs, cnt, pgs, |cnt|), h + 1, usable)
    ensures PagesF(NodeRow(kids, divs, cnt, pgs, |cnt|)) == AsSet(pgs) + PagesF(kids)
    ensures FlatF(NodeRow(kids, divs, cnt, pgs, |cnt|), seps) == FlatF(kids, divs)
  {
    PartsRepresented(pages, kids, divs, cnt, parts, seps, pgs, h, usable);
    PartsRow(kids, divs, cnt, pgs);
  }

  lemma {:induction false} PartsRow(kids: seq<Tree>, divs: seq<Entry>, cnt: seq<nat>, pgs: seq<nat>)
    requires |kids| == |divs| + 1 && Slices(divs, cnt) && |pgs| == |cnt|
    requires NoDup(pgs) && DistinctF(kids) && AsSet(pgs) !! PagesF(kids)
    ensures var row := NodeRow(kids, divs, cnt, pgs, |cnt|);
            && DistinctF(row) && PagesF(row) == AsSet(pgs) + PagesF(kids)
            && FlatF(row, Promoted(divs, cnt, |cnt| - 1)) == FlatF(kids, divs)
  {
    PartsRowPages(kids, divs, cnt, pgs);
    PartsRowFlat(kids, divs, cnt, pgs);
  }

  lemma {:induction false} PartsRowPages(kids: seq<Tree>, divs: seq<Entry>, cnt: seq<nat>, pgs: seq<nat>)
    requires |kids| == |divs| + 1 && Slices(divs, cnt) && |pgs| == |cnt|
    requires NoDup(pgs) && DistinctF(kids) && AsSet(pgs) !! PagesF(kids)
    ensures var row := NodeRow(kids, divs, cnt, pgs, |cnt|); DistinctF(row) && PagesF(row) == AsSet(pgs) + PagesF(kids)
  {
    NodeRowPages(kids, divs, cnt, pgs, |cnt|);
    WholeSlice(pgs, |cnt|);
    WholeSlice(kids, |divs| + 1);
  }

  lemma {:induction false} WholeSlice<T>(s: seq<T>, n: nat)
    requires n == |s|
    ensures s[..n] == s
  {
  }

  lemma {:induction false} PartsRowFlat(kids: seq<Tree>, divs: seq<Entry>, cnt: seq<nat>, pgs: seq<nat>)
    requires |kids| == |divs| + 1 && Slices(divs, cnt) && |pgs| == |cnt|
    ensures FlatF(NodeRow(kids, divs, cnt, pgs, |cnt|), Promoted(divs, cnt, |cnt| - 1)) == FlatF(kids, divs)
  {
    NodeRowFlat(kids, divs, cnt, pgs, |cnt|);
    WholeSlice(kids, |divs| + 1);
    WholeSlice(divs, |divs|);
  }

  lemma {:induction false} PartsRepresented(pages: map<nat, Node>, kids: seq<Tree>, divs: seq<Entry>, cnt: seq<nat>,
                                            parts: seq<Part>, seps: seq<Entry>, pgs: seq<nat>, h: nat, usable: nat)
    requires |kids| == |divs| + 1 && PartsOf(parts, seps, Roots(kids), divs, cnt) && |pgs| == |parts|
    requires PartsWritten(pages, parts, pgs) && PartsFit(parts, 0, usable)
    requires HoldsF(pages, kids, h, usable)
    requires forall k :: 0 <= k < |pgs| ==> BodyOffset(pgs[k]) == 0
    ensures RepresentsF(pages, NodeRow(kids, divs, cnt, pgs, |cnt|))
    ensures ShapeF(NodeRow(kids, divs, cnt, pgs, |cnt|), h + 1, usable)
  {
    var row := NodeRow(kids, divs, cnt, pgs, |cnt|);
    forall k | 0 <= k < |cnt|
      ensures Represents(pages, row[k]) && Populated(row[k]) && Shape(row[k], h + 1, usable)
    {
      PartHolds(pages, kids, divs, cnt, parts, seps, pgs, h, usable, k);
    }
  }

  lemma {:induction false} PartHolds(pages: map<nat, Node>, kids: seq<Tree>, divs: seq<Entry>, cnt: seq<nat>,
                                     parts: seq<Part>, seps: seq<Entry>, pgs: seq<nat>, h: nat, usable: nat, k: nat)
    requires |kids| == |divs| + 1 && PartsOf(parts, seps, Roots(kids), divs, cnt) && |pgs| == |parts|
    requires PartsWritten(pages, parts, pgs) && PartsFit(parts, 0, usable)
    requires HoldsF(pages, kids, h, usable) && k < |cnt|
    requires BodyOffset(pgs[k]) == 0
    ensures Represents(pages, NodeAt(kids, divs, cnt, pgs, k)) && Shape(NodeAt(kids, divs, cnt, pgs, k), h + 1, usable)
  {
    assert HoldsEntry(cnt, k);
    var t := NodeAt(kids, divs, cnt, pgs, k);
    assert parts[k] == PartAt(Roots(kids), divs, cnt, k);
    assert Roots(t.kids) == parts[k].children && t.divs == parts[k].dividers;
    assert forall i :: 0 <= i < |t.kids| ==> t.kids[i] == kids[Balance.Start(cnt, false, k) + i];
    if |kids| > 0 {
      assert h > 0 by {
        assert Shape(kids[0], h, usable);
      }
    }
  }

  // A page that holds twice its capacity at most splits in two.
  lemma {:induction false} TwoParts(n: nat, cap: int, used: int)
    requires Balance.Earned(n, cap, used) && 0 <= used <= 2 * cap
    ensures n <= 2
  {
    assert Balance.Times(2, cap) == Balance.Times(1, cap) + cap == 2 * cap;
    if n > 2 {
      TimesGrows(2, n - 1, cap);
    }
  }

  lemma {:induction false} TimesGrows(a: nat, b: nat, x: int)
    requires a <= b && 0 <= x
    ensures Balance.Times(a, x) <= Balance.Times(b, x)
  {
    if a < b {
      TimesGrows(a, b - 1, x);
    }
  }

  /** Rebuild an interior page from its children and dividers: write it back if it fits, else split
      it. Either way the row that results holds the same entries. */
  method FinishInterior(wp: WritePager, pg: nat, children: seq<nat>, divs: seq<Entry>, ghost kids: seq<Tree>,
                        ghost h: nat)
    returns (up: Up, ghost ts: seq<Tree>)
    requires wp.Valid() && pg in wp.pages && pg !in PagesF(kids)
    requires HoldsF(wp.pages, kids, h, wp.usable) && children == Roots(kids) && |kids| == |divs| + 1 && |divs| > 0
    requires CellsOk(divs, wp.usable) && InteriorUsed(divs) <= 2 * (wp.usable - 12)
    modifies wp
    ensures wp.Valid() && Became(old(wp.pages), wp.pages, pg, {pg} + PagesF(kids), up, ts, h + 1, wp.usable)
    ensures FlatF(ts, up.Seps()) == FlatF(kids, divs)
  {
    if InteriorFits(divs, BodyOffset(pg), wp.usable) {
      wp.WriteNode(pg, Interior(children, divs));
      up, ts := Fit, [TNode(pg, kids, divs)];
      FitsInPlace(old(wp.pages), wp.pages, pg, kids, divs, h, wp.usable);
    } else {
      ghost var before := wp.pages;
      var parts, seps, cnt := PackIndexInterior(children, divs, BodyOffset(pg), wp.usable);
      TwoParts(|parts|, wp.usable - 12, InteriorUsed(divs));
      assert |parts| == 2 by {
        if |parts| == 1 {
          OnePartIsAll(parts, seps, children, divs, cnt);
        }
      }
      forall k | 0 <= k < |parts|
        ensures |parts[k].children| == |parts[k].dividers| + 1
      {
        assert HoldsEntry(cnt, k);
        assert parts[k] == PartAt(children, divs, cnt, k);
      }
      var siblings, pgs := WriteParts(wp, pg, parts, seps);
      up := Split(seps[0], siblings);
      ts := NodeRow(kids, divs, cnt, pgs, |cnt|);
      SplitHolds(before, wp.pages, pg, kids, divs, cnt, parts, seps, pgs, up, h, wp.usable);
    }
  }

  lemma {:induction false} OnePartIsAll(parts: seq<Part>, seps: seq<Entry>, children: seq<nat>, divs: seq<Entry>,
                                        cnt: seq<nat>)
    requires |children| == |divs| + 1 && PartsOf(parts, seps, children, divs, cnt) && |parts| == 1
    ensures parts[0].dividers == divs
  {
    assert HoldsEntry(cnt, 0);
    assert parts[0] == PartAt(children, divs, cnt, 0);
  }

  lemma {:induction false} FitsInPlace(pages: map<nat, Node>, pages': map<nat, Node>, pg: nat, kids: seq<Tree>,
                                       divs: seq<Entry>, h: nat, usable: nat)
    requires pg in pages && pg !in PagesF(kids) && HoldsF(pages, kids, h, usable) && |kids| == |divs| + 1 && |divs| > 0
    requires pages' == pages[pg := Interior(Roots(kids), divs)] && InteriorFits(divs, BodyOffset(pg), usable)
    ensures Became(pages, pages', pg, {pg} + PagesF(kids), Fit, [TNode(pg, kids, divs)], h + 1, usable)
  {
    var t := TNode(pg, kids, divs);
    RepresentsFFrame(pages, pages', kids);
    assert Shape(kids[0], h, usable);
    assert PagesF([t]) == {pg} + PagesF(kids);
    assert Roots([t]) == [pg];
  }

  lemma {:induction false} SplitHolds(pages: map<nat, Node>, pages': map<nat, Node>, pg: nat, kids: seq<Tree>,
                                      divs: seq<Entry>, cnt: seq<nat>, parts: seq<Part>, seps: seq<Entry>,
                                      pgs: seq<nat>, up: Up, h: nat, usable: nat)
    requires pg in pages && pg !in PagesF(kids) && HoldsF(pages, kids, h, usable)
    requires |kids| == |divs| + 1 && PartsOf(parts, seps, Roots(kids), divs, cnt) && |parts| == 2
    requires |pgs| == 2 && pgs[0] == pg && pgs[1] !in pages && NoDup(pgs)
    requires forall k :: 0 <= k < 2 ==> BodyOffset(pgs[k]) == 0
    requires PartsWritten(pages', parts, pgs) && PartsFit(parts, 0, usable)
    requires forall p :: p in pages && p != pg ==> p in pages' && pages'[p] == pages[p]
    requires up.Split? && up.first == seps[0] && |up.siblings| == 1 && up.siblings[0].pg == pgs[1]
    ensures Became(pages, pages', pg, {pg} + PagesF(kids), up, NodeRow(kids, divs, cnt, pgs, |cnt|), h + 1, usable)
    ensures FlatF(NodeRow(kids, divs, cnt, pgs, |cnt|), up.Seps()) == FlatF(kids, divs)
  {
    RepresentedPagesF(pages, kids);
    RepresentsFFrame(pages, pages', kids);
    assert AsSet(pgs) == {pg, pgs[1]};
    PartsHold(pages', kids, divs, cnt, parts, seps, pgs, h, usable);
    assert up.Seps() == seps;
    assert Roots(NodeRow(kids, divs, cnt, pgs, |cnt|)) == pgs == [pg] + up.NewPages();
  }

  /** Adopt a split of child `p`: its new siblings follow it, with the promoted dividers between. */
  method AdoptSplit(children: seq<nat>, divs: seq<Entry>, p: nat, up: Up)
    returns (children': seq<nat>, divs': seq<Entry>)
    requires |children| == |divs| + 1 && p < |children| && up.Split? && |up.siblings| > 0
    ensures children' == children[..p + 1] + up.NewPages() + children[p + 1..]
    ensures divs' == divs[..p] + up.Seps() + divs[p..]
  {
    var pgs := seq(|up.siblings|, k requires 0 <= k < |up.siblings| => up.siblings[k].pg);
    var keys := seq(|up.siblings| - 1, k requires 0 <= k < |up.siblings| - 1 => up.siblings[k].key);
    if p < |divs| {
      children' := children[..p + 1] + pgs + children[p + 1..];
      divs' := divs[..p] + ([up.first] + keys + [divs[p]]) + divs[p + 1..];
      assert divs[p..] == [divs[p]] + divs[p + 1..];
    } else {
      divs' := divs + [up.first] + keys;
      children' := children + pgs;
      assert children[..p + 1] == children && children[p + 1..] == [];
    }
  }

  // ----- Rebalancing an over-full leaf

  // The row of leaves with the over-full entries in place of what page `p` holds.
  ghost function Overfull(kids: seq<Tree>, p: nat, entries: seq<Entry>): seq<Tree>
    requires p < |kids|
  {
    kids[p := TLeaf(kids[p].pg, entries)]
  }

  // What a leaf of the row holds.
  method LeafEntries(wp: WritePager, pg: nat, ghost kids: seq<Tree>, ghost i: nat) returns (entries: seq<Entry>)
    requires HoldsF(wp.pages, kids, 1, wp.usable) && i < |kids| && kids[i].pg == pg
    ensures entries == Flat(kids[i])
  {
    assert Shape(kids[i], 1, wp.usable) && Represents(wp.pages, kids[i]);
    entries := wp.pages[pg].entries;
  }

  /** Entries of up to three sibling leaves, with the dividers between them; the boundaries say how
      many entries came from each. */
  method PoolSiblings(wp: WritePager, children: seq<nat>, divs: seq<Entry>, p: nat, entries: seq<Entry>, w0: nat,
                      n: nat, ghost kids: seq<Tree>)
    returns (pooled: seq<Entry>, cntOld: seq<nat>)
    requires HoldsF(wp.pages, kids, 1, wp.usable) && children == Roots(kids) && |kids| == |divs| + 1
    requires w0 <= p < w0 + n <= |kids|
    ensures pooled == FlatF(Overfull(kids, p, entries)[w0..w0 + n], divs[w0..w0 + n - 1])
    ensures Balance.OldBoundaries(Sizes(pooled), cntOld, false)
  {
    ghost var row := Overfull(kids, p, entries)[w0..w0 + n];
    ghost var ds := divs[w0..w0 + n - 1];
    pooled, cntOld := [], [];
    for k := 0 to n
      invariant Pooling(row, ds, pooled, cntOld, k)
    {
      var more;
      if w0 + k == p {
        more := entries;
      } else {
        more := LeafEntries(wp, children[w0 + k], kids, w0 + k);
      }
      assert Flat(row[k]) == more;
      PoolOne(row, ds, pooled, cntOld, k);
      pooled := pooled + more;
      cntOld := cntOld + [|pooled|];
      if k + 1 < n {
        pooled := pooled + [divs[w0 + k]];
      }
    }
    PoolDone(row, ds, pooled, cntOld);
  }

  /** The pool after `k` siblings: their entries, with the divider that follows if more is to come. */
  ghost predicate Pooling(row: seq<Tree>, ds: seq<Entry>, pooled: seq<Entry>, cntOld: seq<nat>, k: nat) {
    && |row| == |ds| + 1
    && k == |cntOld| <= |row|
    && (k == 0 ==> pooled == [])
    && (0 < k < |row| ==> pooled == FlatF(row[..k], ds[..k - 1]) + [ds[k - 1]])
    && (k == |row| ==> pooled == FlatF(row, ds))
    && (k > 0 ==> |pooled| == cntOld[k - 1] + if k < |row| then 1 else 0)
    && k <= |pooled| + (if k < |row| then 0 else 1)
    && forall i :: 0 <= i < k ==> Balance.OldPage(cntOld, false, |pooled|, i)
  }

  lemma {:induction false} PoolOne(row: seq<Tree>, ds: seq<Entry>, pooled: seq<Entry>, cntOld: seq<nat>, k: nat)
    requires Pooling(row, ds, pooled, cntOld, k) && k < |row|
    ensures var all := pooled + Flat(row[k]);
            Pooling(row, ds, if k + 1 < |row| then all + [ds[k]] else all, cntOld + [|all|], k + 1)
  {
    var all := pooled + Flat(row[k]);
    var pooled', cnt' := if k + 1 < |row| then all + [ds[k]] else all, cntOld + [|all|];
    PoolFlat(row, ds, pooled, cntOld, k);
    forall i | 0 <= i < k + 1
      ensures Balance.OldPage(cnt', false, |pooled'|, i)
    {
      if i < k {
        assert Balance.OldPage(cntOld, false, |pooled|, i);
        assert Balance.Start(cnt', false, i) == Balance.Start(cntOld, false, i);
      }
    }
    assert row[..|row|] == row && ds[..|ds|] == ds;
  }

  lemma {:induction false} PoolFlat(row: seq<Tree>, ds: seq<Entry>, pooled: seq<Entry>, cntOld: seq<nat>, k: nat)
    requires Pooling(row, ds, pooled, cntOld, k) && k < |row|
    ensures pooled + Flat(row[k]) == FlatF(row[..k + 1], ds[..k])
  {
    assert row[..k + 1] == row[..k] + [row[k]];
    if k == 0 {
      assert row[..1] == [row[0]];
    } else {
      assert ds[..k] == ds[..k - 1] + [ds[k - 1]] + [];
      FlatCat(row[..k], ds[..k - 1], ds[k - 1], [row[k]], []);
    }
  }

  lemma {:induction false} PoolDone(row: seq<Tree>, ds: seq<Entry>, pooled: seq<Entry>, cntOld: seq<nat>)
    requires Pooling(row, ds, pooled, cntOld, |row|)
    ensures Balance.OldBoundaries(Sizes(pooled), cntOld, false)
  {
    forall i | 0 <= i < |cntOld|
      ensures Balance.OldPage(cntOld, false, |Sizes(pooled)|, i)
    {
      assert Balance.OldPage(cntOld, false, |pooled|, i);
    }
  }

  // Three times the bytes of a row of leaves that fit, all but the one at `p`, which is over-full by
  // one entry, with dividers between them: counted in pages.
  lemma {:induction false} PoolUsed(row: seq<Tree>, ds: seq<Entry>, p: nat, usable: nat, k: nat)
    requires |row| == |ds| + 1 && 0 < k <= |row| && CellsOk(ds, usable)
    requires forall i :: 0 <= i < |row| && i != p ==> LeafUsed(Flat(row[i])) <= usable - 8
    requires p < |row| ==> 3 * LeafUsed(Flat(row[p])) <= 4 * (usable - 8)
    ensures 3 * UsedTo(row, ds)(k) <= Balance.Times(4 * k - 1, usable - 8) + if p < k then usable - 8 else 0
  {
    var used, leaf := UsedTo(row, ds), UsedBy(row);
    PoolUsedFirst(row, ds);
    forall n | 1 < n <= k
      ensures 3 * used(n) <= 3 * used(n - 1) + (usable - 8) + 3 * leaf(n - 1)
    {
      PoolUsedNext(row, ds, usable, n);
    }
    forall i: nat | i < k
      ensures i != p ==> leaf(i) <= usable - 8
      ensures i == p ==> 3 * leaf(i) <= 4 * (usable - 8)
    {
    }
    PoolSum(used, leaf, p, usable - 8, k);
  }

  lemma {:induction false} PoolUsedFirst(row: seq<Tree>, ds: seq<Entry>)
    requires |row| == |ds| + 1
    ensures UsedTo(row, ds)(1) == UsedBy(row)(0)
  {
    assert row[..1] == [row[0]];
  }

  // The bytes of the first `n` leaves of a row, with the dividers between them.
  ghost function UsedTo(row: seq<Tree>, ds: seq<Entry>): nat -> int
    requires |row| == |ds| + 1
  {
    (n: nat) => if 0 < n <= |row| then LeafUsed(FlatF(row[..n], ds[..n - 1])) else 0
  }

  ghost function UsedBy(row: seq<Tree>): nat -> int {
    (n: nat) => if n < |row| then LeafUsed(Flat(row[n])) else 0
  }

  lemma {:induction false} PoolUsedNext(row: seq<Tree>, ds: seq<Entry>, usable: nat, n: nat)
    requires |row| == |ds| + 1 && 1 < n <= |row| && CellsOk(ds, usable)
    ensures 3 * UsedTo(row, ds)(n) <= 3 * UsedTo(row, ds)(n - 1) + (usable - 8) + 3 * UsedBy(row)(n - 1)
  {
    assert row[..n] == row[..n - 1] + [row[n - 1]] && ds[..n - 1] == ds[..n - 2] + [ds[n - 2]] + [];
    PoolUsedStep(row[..n - 1], ds[..n - 2], ds[n - 2], row[n - 1]);
    assert CellOk(ds[n - 2], usable);
  }

  // The bytes of the first `k` leaves and the dividers between them, each no more than a third of `u`.
  lemma {:induction false} PoolSum(used: nat -> int, leaf: nat -> int, p: nat, u: int, k: nat)
    requires k > 0 && used(1) == leaf(0)
    requires forall n :: 1 < n <= k ==> 3 * used(n) <= 3 * used(n - 1) + u + 3 * leaf(n - 1)
    requires (forall i :: 0 <= i < k && i != p ==> leaf(i) <= u) && (p < k ==> 3 * leaf(p) <= 4 * u)
    ensures 3 * used(k) <= Balance.Times(4 * k - 1, u) + if p < k then u else 0
  {
    TimesFour(k, u);
    if k > 1 {
      PoolSum(used, leaf, p, u, k - 1);
    }
  }

  lemma {:induction false} PoolUsedStep(a: seq<Tree>, da: seq<Entry>, d: Entry, t: Tree)
    requires |a| == |da| + 1
    ensures LeafUsed(FlatF(a + [t], da + [d] + [])) == LeafUsed(FlatF(a, da)) + |d.cell| + 2 + LeafUsed(Flat(t))
  {
    FlatCat(a, da, d, [t], []);
    UsedCat(FlatF(a, da) + [d], Flat(t));
    UsedCat(FlatF(a, da), [d]);
    UsedOne(d);
  }

  lemma {:induction false} TimesFour(k: nat, x: int)
    requires k > 0
    ensures Balance.Times(4 * k - 1, x) == Balance.Times(4 * k - 2, x) + x == Balance.Times(4 * k - 3, x) + 2 * x
         == Balance.Times(4 * k - 4, x) + 3 * x
    ensures k > 1 ==> Balance.Times(4 * k - 4, x) == Balance.Times(4 * (k - 1) - 1, x) + x
    ensures Balance.Times(0, x) == 0
  {
  }

  /** Redistributing three siblings, one of them over-full by an entry, makes four pages at most. */
  lemma {:induction false} FourPages(row: seq<Tree>, ds: seq<Entry>, p: nat, usable: nat, n: nat)
    requires |row| == |ds| + 1 <= 3 && p < |row| && CellsOk(ds, usable) && usable >= 480
    requires forall i :: 0 <= i < |row| && i != p ==> LeafUsed(Flat(row[i])) <= usable - 8
    requires 3 * LeafUsed(Flat(row[p])) <= 4 * (usable - 8)
    requires Balance.Earned(n, usable - 8, LeafUsed(FlatF(row, ds)))
    ensures n <= |row| + 1
  {
    var k, u := |row|, usable - 8;
    PoolUsed(row, ds, p, usable, k);
    assert row[..k] == row && ds[..k - 1] == ds;
    PagesBound(k, n, u, LeafUsed(FlatF(row, ds)));
  }

  lemma {:induction false} SmallMultiples(x: int)
    ensures Balance.Times(1, x) == x && Balance.Times(2, x) == 2 * x && Balance.Times(3, x) == 3 * x
    ensures Balance.Times(4, x) == 4 * x
    ensures Balance.Times(7, x) == 7 * x && Balance.Times(11, x) == 11 * x
  {
    assert Balance.Times(1, x) == x;
    assert Balance.Times(2, x) == 2 * x;
    assert Balance.Times(3, x) == 3 * x;
    assert Balance.Times(4, x) == 4 * x;
    assert Balance.Times(5, x) == 5 * x;
    assert Balance.Times(6, x) == 6 * x;
    assert Balance.Times(7, x) == 7 * x;
    assert Balance.Times(8, x) == 8 * x;
    assert Balance.Times(9, x) == 9 * x;
    assert Balance.Times(10, x) == 10 * x;
  }

  lemma {:induction false} PagesBound(k: nat, n: nat, u: int, used: nat)
    requires 1 <= k <= 3 && u > 0 && Balance.Earned(n, u, used)
    requires 3 * used <= Balance.Times(4 * k - 1, u) + u
    ensures n <= k + 1
  {
    SmallMultiples(u);
    assert 3 * used <= (if k == 1 then 4 * u else if k == 2 then 8 * u else 12 * u);
    if n > k + 1 {
      TimesGrows(k + 1, n - 1, u);
    }
  }

  // Dividers between leaves that were pooled: fewer than four of them.
  lemma {:induction false} FewDividers(divs: seq<Entry>, usable: nat)
    requires CellsOk(divs, usable) && |divs| <= 3
    ensures 3 * InteriorUsed(divs) <= Balance.Times(|divs|, usable - 12)
  {
    if divs != [] {
      var rest, d := divs[..|divs| - 1], divs[|divs| - 1];
      FewDividers(rest, usable);
      assert divs == rest + [d];
      UsedCat(rest, [d]);
      UsedOne(d);
      assert CellOk(d, usable);
    }
  }

  lemma {:induction false} SplicedUsed(divs: seq<Entry>, i: nat, j: nat, ds: seq<Entry>, usable: nat)
    requires i <= j <= |divs| && |ds| <= 3 && CellsOk(ds, usable) && usable >= 480
    requires InteriorUsed(divs) <= usable - 12
    ensures InteriorUsed(divs[..i] + ds + divs[j..]) <= 2 * (usable - 12)
  {
    InteriorThree(divs[..i], ds, divs[j..]);
    ThreeSlices(divs, i, j);
    InteriorThree(divs[..i], divs[i..j], divs[j..]);
    FewDividers(ds, usable);
    SmallMultiples(usable - 12);
  }

  lemma {:induction false} InteriorThree(a: seq<Entry>, b: seq<Entry>, c: seq<Entry>)
    ensures InteriorUsed(a + b + c) == InteriorUsed(a) + InteriorUsed(b) + InteriorUsed(c)
  {
    UsedCat(a + b, c);
    UsedCat(a, b);
  }

  // More entries than fit on a page, the boundaries of the pages they come from, and these pages.
  ghost predicate Poolable(pages: map<nat, Node>, pooled: seq<Entry>, cntOld: seq<nat>, reuse: seq<nat>,
                           usable: nat) {
    && pooled != [] && CellsOk(pooled, usable) && LeafUsed(pooled) > usable - 8
    && Balance.OldBoundaries(Sizes(pooled), cntOld, false)
    && NoDup(reuse) && forall i :: 0 <= i < |reuse| ==> reuse[i] in pages
  }

  // The row of leaves that the pool has become.
  ghost predicate Distributed(pages: map<nat, Node>, pages': map<nat, Node>, pooled: seq<Entry>, reuse: seq<nat>,
                              row: seq<Tree>, ds: seq<Entry>, usable: nat) {
    && Footprint(pages, pages', AsSet(reuse), PagesF(row)) && HoldsF(pages', row, 1, usable)
    && |row| == |ds| + 1 && FlatF(row, ds) == pooled && |row| > 1
    && Balance.Earned(|row|, usable - 8, LeafUsed(pooled))
  }

  method BalancePool(wp: WritePager, reuse: seq<nat>, pooled: seq<Entry>, cntOld: seq<nat>)
    returns (pages: seq<nat>, newDividers: seq<Entry>, ghost row: seq<Tree>)
    requires wp.Valid() && Poolable(wp.pages, pooled, cntOld, reuse, wp.usable)
    modifies wp
    ensures wp.Valid() && pages == Roots(row)
    ensures Distributed(old(wp.pages), wp.pages, pooled, reuse, row, newDividers, wp.usable)
  {
    pages, newDividers, row := BalanceLeafPooled(wp, reuse, pooled, cntOld);
  }

  method PoolWindow(wp: WritePager, children: seq<nat>, divs: seq<Entry>, p: nat, entries: seq<Entry>, w0: nat,
                    w1: nat, ghost kids: seq<Tree>)
    returns (pooled: seq<Entry>, cntOld: seq<nat>, reuse: seq<nat>)
    requires wp.Valid() && HoldsF(wp.pages, kids, 1, wp.usable) && children == Roots(kids)
    requires |kids| == |divs| + 1 && w0 <= p < w1 <= |kids| && w1 <= w0 + 3
    requires CellsOk(FlatF(Overfull(kids, p, entries), divs), wp.usable)
    requires LeafUsed(entries) > wp.usable - 8 && 3 * LeafUsed(entries) <= 4 * (wp.usable - 8)
    ensures pooled == FlatF(Overfull(kids, p, entries)[w0..w1], divs[w0..w1 - 1])
    ensures Poolable(wp.pages, pooled, cntOld, reuse, wp.usable) && AsSet(reuse) == PagesF(kids[w0..w1])
  {
    reuse := children[w0..w1];
    pooled, cntOld := PoolSiblings(wp, children, divs, p, entries, w0, w1 - w0, kids);
    PoolFacts(wp.pages, kids, divs, p, entries, w0, w1, pooled, wp.usable);
    LeavesToReuse(wp.pages, kids, w0, w1, wp.usable);
  }

  // Pool the siblings from `w0` to `w1` and distribute their entries over pages again.
  method BalanceWindow(wp: WritePager, children: seq<nat>, divs: seq<Entry>, p: nat, entries: seq<Entry>, w0: nat,
                       w1: nat, ghost kids: seq<Tree>)
    returns (pages: seq<nat>, newDividers: seq<Entry>, ghost row: seq<Tree>)
    requires wp.Valid() && HoldsF(wp.pages, kids, 1, wp.usable) && children == Roots(kids)
    requires |kids| == |divs| + 1 && w0 <= p < w1 <= |kids| && w1 <= w0 + 3
    requires CellsOk(FlatF(Overfull(kids, p, entries), divs), wp.usable)
    requires LeafUsed(entries) > wp.usable - 8 && 3 * LeafUsed(entries) <= 4 * (wp.usable - 8)
    modifies wp
    ensures wp.Valid() && pages == Roots(row)
    ensures Refilled(old(wp.pages), wp.pages, kids, divs, p, entries, w0, w1, row, newDividers, wp.usable)
  {
    var pooled, cntOld, reuse := PoolWindow(wp, children, divs, p, entries, w0, w1, kids);
    ghost var before := wp.pages;
    pages, newDividers, row := BalancePool(wp, reuse, pooled, cntOld);
    RefilledBy(before, wp.pages, kids, divs, p, entries, w0, w1, row, newDividers, wp.usable, pooled, reuse);
  }

  // The row that the siblings from `w0` to `w1` have become.
  ghost predicate Refilled(pages: map<nat, Node>, pages': map<nat, Node>, kids: seq<Tree>, divs: seq<Entry>, p: nat,
                           entries: seq<Entry>, w0: nat, w1: nat, row: seq<Tree>, ds: seq<Entry>, usable: nat)
    requires |kids| == |divs| + 1 && w0 <= p < w1 <= |kids|
  {
    && HoldsF(pages', row, 1, usable) && |row| == |ds| + 1 && 0 < |ds| <= 3 && CellsOk(FlatF(row, ds), usable)
    && FlatF(row, ds) == FlatF(Overfull(kids, p, entries)[w0..w1], divs[w0..w1 - 1])
    && Footprint(pages, pages', PagesF(kids[w0..w1]), PagesF(row))
  }

  lemma {:induction false} RefilledBy(pages: map<nat, Node>, pages': map<nat, Node>, kids: seq<Tree>,
                                      divs: seq<Entry>, p: nat, entries: seq<Entry>, w0: nat, w1: nat, row: seq<Tree>,
                                      ds: seq<Entry>, usable: nat, pooled: seq<Entry>, reuse: seq<nat>)
    requires |kids| == |divs| + 1 && w0 <= p < w1 <= |kids| && w1 <= w0 + 3 && usable >= 480
    requires ShapeF(kids, 1, usable) && 3 * LeafUsed(entries) <= 4 * (usable - 8)
    requires pooled == FlatF(Overfull(kids, p, entries)[w0..w1], divs[w0..w1 - 1]) && CellsOk(pooled, usable)
    requires AsSet(reuse) == PagesF(kids[w0..w1]) && Distributed(pages, pages', pooled, reuse, row, ds, usable)
    ensures Refilled(pages, pages', kids, divs, p, entries, w0, w1, row, ds, usable)
  {
    PoolPages(kids, divs, p, entries, w0, w1, pooled, usable, |row|);
  }

  /** Rebalance the over-full child `p` with its siblings and splice the new pages and dividers back
      into the parent's lists. */
  method BalanceLeafInto(wp: WritePager, children: seq<nat>, divs: seq<Entry>, p: nat, entries: seq<Entry>,
                         ghost kids: seq<Tree>)
    returns (children': seq<nat>, divs': seq<Entry>, ghost kids': seq<Tree>)
    requires wp.Valid() && HoldsF(wp.pages, kids, 1, wp.usable) && children == Roots(kids)
    requires |kids| == |divs| + 1 && |divs| > 0 && p < |kids| && InteriorUsed(divs) <= wp.usable - 12
    requires CellsOk(FlatF(Overfull(kids, p, entries), divs), wp.usable)
    requires LeafUsed(entries) > wp.usable - 8 && 3 * LeafUsed(entries) <= 4 * (wp.usable - 8)
    modifies wp
    ensures wp.Valid() && HoldsF(wp.pages, kids', 1, wp.usable) && children' == Roots(kids')
    ensures |kids'| == |divs'| + 1 && |divs'| > 0 && InteriorUsed(divs') <= 2 * (wp.usable - 12)
    ensures FlatF(kids', divs') == FlatF(Overfull(kids, p, entries), divs)
    ensures Footprint(old(wp.pages), wp.pages, PagesF(kids), PagesF(kids'))
  {
    ghost var before := wp.pages;
    var (w0, nOld) := Balance.SiblingWindow(p, |children|);
    var w1 := w0 + nOld;
    var pages, newDividers, row := BalanceWindow(wp, children, divs, p, entries, w0, w1, kids);
    children' := children[..w0] + pages + children[w1..];
    divs' := divs[..w0] + newDividers + divs[w1 - 1..];
    kids' := kids[..w0] + row + kids[w1..];
    Rebalanced(before, wp.pages, kids, divs, p, entries, w0, w1, row, newDividers, wp.usable);
  }

  lemma {:induction false} PoolFacts(pages: map<nat, Node>, kids: seq<Tree>, divs: seq<Entry>, p: nat,
                                     entries: seq<Entry>, w0: nat, w1: nat, pooled: seq<Entry>, usable: nat)
    requires HoldsF(pages, kids, 1, usable) && |kids| == |divs| + 1 && w0 <= p < w1 <= |kids| && w1 <= w0 + 3
    requires usable >= 480
    requires CellsOk(FlatF(Overfull(kids, p, entries), divs), usable)
    requires pooled == FlatF(Overfull(kids, p, entries)[w0..w1], divs[w0..w1 - 1])
    requires LeafUsed(entries) > usable - 8 && 3 * LeafUsed(entries) <= 4 * (usable - 8)
    ensures CellsOk(pooled, usable) && LeafUsed(pooled) > usable - 8 && pooled != []
  {
    var all := Overfull(kids, p, entries);
    WindowFlat(all, divs, w0, w1);
    PartsOk(LeftOf(all, divs, w0), pooled, RightOf(all, divs, w1), usable);
    assert all[w0..w1][p - w0] == TLeaf(kids[p].pg, entries);
    UsedInRow(all[w0..w1], divs[w0..w1 - 1], p - w0);
  }

  // A row uses at least what one of its leaves does.
  lemma {:induction false} UsedInRow(row: seq<Tree>, ds: seq<Entry>, i: nat)
    requires |row| == |ds| + 1 && i < |row|
    ensures LeafUsed(FlatF(row, ds)) >= LeafUsed(Flat(row[i]))
  {
    WindowFlat(row, ds, i, i + 1);
    assert row[i..i + 1] == [row[i]] && ds[i..i] == [];
    UsedCat(LeftOf(row, ds, i) + Flat(row[i]), RightOf(row, ds, i + 1));
    UsedCat(LeftOf(row, ds, i), Flat(row[i]));
  }

  lemma {:induction false} PoolPages(kids: seq<Tree>, divs: seq<Entry>, p: nat, entries: seq<Entry>, w0: nat, w1: nat,
                                     pooled: seq<Entry>, usable: nat, n: nat)
    requires ShapeF(kids, 1, usable) && |kids| == |divs| + 1 && w0 <= p < w1 <= |kids| && w1 <= w0 + 3 && usable >= 480
    requires pooled == FlatF(Overfull(kids, p, entries)[w0..w1], divs[w0..w1 - 1]) && CellsOk(pooled, usable)
    requires 3 * LeafUsed(entries) <= 4 * (usable - 8)
    requires Balance.Earned(n, usable - 8, LeafUsed(pooled))
    ensures n <= 4
  {
    var row, ds := Overfull(kids, p, entries)[w0..w1], divs[w0..w1 - 1];
    DividersOk(row, ds, usable);
    forall i | 0 <= i < |row| && i != p - w0
      ensures LeafUsed(Flat(row[i])) <= usable - 8
    {
      assert Shape(kids[w0 + i], 1, usable);
    }
    FourPages(row, ds, p - w0, usable, n);
  }

  lemma {:induction false} PartsOk(a: seq<Entry>, m: seq<Entry>, b: seq<Entry>, usable: nat)
    requires CellsOk(a + m + b, usable)
    ensures CellsOk(a, usable) && CellsOk(m, usable) && CellsOk(b, usable)
  {
    var s := a + m + b;
    assert forall i :: 0 <= i < |a| ==> a[i] == s[i];
    assert forall i :: 0 <= i < |m| ==> m[i] == s[|a| + i];
    assert forall i :: 0 <= i < |b| ==> b[i] == s[|a| + |m| + i];
  }

  lemma {:induction false} DividersOk(kids: seq<Tree>, divs: seq<Entry>, usable: nat)
    requires |kids| == |divs| + 1 && CellsOk(FlatF(kids, divs), usable)
    ensures CellsOk(divs, usable)
  {
    forall i | 0 <= i < |divs|
      ensures CellOk(divs[i], usable)
    {
      WindowFlat(kids, divs, i, i + 1);
      PartsOk(LeftOf(kids, divs, i), FlatF(kids[i..i + 1], divs[i..i]), RightOf(kids, divs, i + 1), usable);
      assert RightOf(kids, divs, i + 1)[0] == divs[i];
    }
  }

  // A row of leaves has no page but its roots.
  lemma {:induction false} LeafRowPages(kids: seq<Tree>)
    requires DistinctF(kids) && forall i :: 0 <= i < |kids| ==> kids[i].TLeaf?
    ensures AsSet(Roots(kids)) == PagesF(kids) && NoDup(Roots(kids))
  {
    if kids != [] {
      LeafRowPages(kids[1..]);
      assert Roots(kids) == [kids[0].pg] + Roots(kids[1..]);
      assert AsSet(Roots(kids)) == {kids[0].pg} + AsSet(Roots(kids[1..]));
      assert kids[0].pg !in AsSet(Roots(kids[1..]));
    }
  }

  lemma {:induction false} LeavesToReuse(pages: map<nat, Node>, kids: seq<Tree>, w0: nat, w1: nat, usable: nat)
    requires HoldsF(pages, kids, 1, usable) && w0 <= w1 <= |kids|
    ensures NoDup(Roots(kids)[w0..w1]) && AsSet(Roots(kids)[w0..w1]) == PagesF(kids[w0..w1])
    ensures forall i :: 0 <= i < w1 - w0 ==> Roots(kids)[w0..w1][i] in pages
  {
    assert Roots(kids)[w0..w1] == Roots(kids[w0..w1]);
    PagesOfSlice(kids, w0, w1);
    forall i | 0 <= i < w1 - w0
      ensures kids[w0..w1][i].TLeaf? && Roots(kids)[w0..w1][i] in pages
    {
      assert Shape(kids[w0 + i], 1, usable) && Represents(pages, kids[w0 + i]);
    }
    LeafRowPages(kids[w0..w1]);
  }

  lemma {:induction false} Rebalanced(pages: map<nat, Node>, pages': map<nat, Node>, kids: seq<Tree>,
                                      divs: seq<Entry>, p: nat, entries: seq<Entry>, w0: nat, w1: nat, row: seq<Tree>,
                                      ds: seq<Entry>, usable: nat)
    requires HoldsF(pages, kids, 1, usable) && |kids| == |divs| + 1 && w0 <= p < w1 <= |kids| && usable >= 480
    requires InteriorUsed(divs) <= usable - 12
    requires Refilled(pages, pages', kids, divs, p, entries, w0, w1, row, ds, usable)
    ensures var kids', divs' := kids[..w0] + row + kids[w1..], divs[..w0] + ds + divs[w1 - 1..];
            && HoldsF(pages', kids', 1, usable) && Footprint(pages, pages', PagesF(kids), PagesF(kids'))
            && Roots(kids') == Roots(kids)[..w0] + Roots(row) + Roots(kids)[w1..]
            && |kids'| == |divs'| + 1 && InteriorUsed(divs') <= 2 * (usable - 12)
            && FlatF(kids', divs') == FlatF(Overfull(kids, p, entries), divs)
  {
    var all := Overfull(kids, p, entries);
    SpliceHolds(pages, pages', kids, w0, w1, row, 1, usable);
    assert all[..w0] == kids[..w0] && all[w1..] == kids[w1..];
    SpliceFlat(all, divs, w0, w1, row, ds);
    WindowFlat(all, divs, w0, w1);
    DividersOk(row, ds, usable);
    SplicedUsed(divs, w0, w1 - 1, ds, usable);
    RootsSplice(kids, w0, w1, row);
  }

  lemma {:induction false} RootsSplice(kids: seq<Tree>, i: nat, j: nat, ts: seq<Tree>)
    requires i <= j <= |kids|
    ensures Roots(kids[..i] + ts + kids[j..]) == Roots(kids)[..i] + Roots(ts) + Roots(kids)[j..]
  {
  }

  // ----- Insertion

  /** The page map holds a well-formed tree whose cells keep the size bound. */
  ghost predicate Holds(pages: map<nat, Node>, t: Tree, h: nat, usable: nat) {
    Represents(pages, t) && Shape(t, h, usable) && Distinct(t) && CellsOk(Flat(t), usable)
  }

  /** Where an entry goes in a sorted list. */
  method FindSlot(s: seq<Entry>, e: Entry, cmp: Comparator) returns (pos: nat, found: bool)
    requires TotalPreorder(cmp)
    ensures found ==> pos < |s| && cmp(e.rec, s[pos].rec) == Equal
    ensures !found ==> pos <= |s| && AllBelow(s[..pos], e, cmp) && (pos < |s| ==> cmp(e.rec, s[pos].rec) == Less)
  {
    for i := 0 to |s|
      invariant AllBelow(s[..i], e, cmp)
    {
      match cmp(e.rec, s[i].rec) {
        case Less => return i, false;
        case Equal => return i, true;
        case Greater =>
      }
    }
    assert s[..|s|] == s;
    return |s|, false;
  }

  lemma {:induction false} SlotInserts(s: seq<Entry>, e: Entry, cmp: Comparator, pos: nat)
    requires pos <= |s| && AllBelow(s[..pos], e, cmp) && (pos < |s| ==> cmp(e.rec, s[pos].rec) == Less)
    ensures InsertSorted(s, e, cmp) == s[..pos] + [e] + s[pos..]
    ensures LeafUsed(s[..pos] + [e] + s[pos..]) == LeafUsed(s) + |e.cell| + 2
  {
    InsertSkips(s[..pos], s[pos..], e, cmp);
    assert s[..pos] + s[pos..] == s;
    UsedCat(s[..pos], s[pos..]);
    UsedCat(s[..pos] + [e], s[pos..]);
    UsedCat(s[..pos], [e]);
    UsedOne(e);
  }

  lemma {:induction false} LeafRewritten(pages: map<nat, Node>, t: Tree, entries: seq<Entry>, usable: nat)
    requires Represents(pages, t) && t.TLeaf? && entries != [] && LeafFits(entries, BodyOffset(t.pg), usable)
    ensures Became(pages, pages[t.pg := Leaf(entries)], t.pg, PagesOf(t), Fit, [TLeaf(t.pg, entries)], 1, usable)
    ensures FlatF([TLeaf(t.pg, entries)], Fit.Seps()) == entries
  {
    var t' := TLeaf(t.pg, entries);
    assert PagesF([t']) == {t.pg};
    assert Roots([t']) == [t.pg];
  }

  // Nothing was written.
  lemma {:induction false} Unchanged(pages: map<nat, Node>, t: Tree, h: nat, usable: nat)
    requires Represents(pages, t) && Shape(t, h, usable) && Distinct(t) && Populated(t)
    ensures Became(pages, pages, t.pg, PagesOf(t), Fit, [t], h, usable)
    ensures FlatF([t], Fit.Seps()) == Flat(t)
  {
    assert PagesF([t]) == PagesOf(t);
    assert Roots([t]) == [t.pg];
  }

  // What an interior page knows of its own children.
  lemma {:induction false} KidsHold(pages: map<nat, Node>, t: Tree, h: nat, usable: nat)
    requires Holds(pages, t, h, usable) && t.TNode?
    ensures h > 1 && HoldsF(pages, t.kids, h - 1, usable) && t.pg !in PagesF(t.kids) && CellsOk(t.divs, usable)
    ensures forall i :: 0 <= i < |t.kids| ==> Holds(pages, t.kids[i], h - 1, usable)
  {
    DividersOk(t.kids, t.divs, usable);
    assert ShapeF(t.kids, h - 1, usable) && RepresentsF(pages, t.kids);
    forall i | 0 <= i < |t.kids|
      ensures Holds(pages, t.kids[i], h - 1, usable)
    {
      PageOfKid(t.kids, i);
      assert Populated(t.kids[i]);
      WindowFlat(t.kids, t.divs, i, i + 1);
      assert t.kids[i..i + 1] == [t.kids[i]] && t.divs[i..i] == [];
      PartsOk(LeftOf(t.kids, t.divs, i), Flat(t.kids[i]), RightOf(t.kids, t.divs, i + 1), usable);
    }
  }

  lemma {:induction false} FootprintCompose(p0: map<nat, Node>, p1: map<nat, Node>, p2: map<nat, Node>, pg: nat,
                                            a: set<nat>, b: set<nat>, c: set<nat>)
    requires Footprint(p0, p1, a, b) && Footprint(p1, p2, {pg} + b, c)
    ensures Footprint(p0, p2, {pg} + a, c)
  {
  }

  /** The child absorbed the entry and kept its page number: the parent's page stays as it is. */
  lemma {:induction false} ChildFit(pages: map<nat, Node>, pages': map<nat, Node>, t: Tree, p: nat, ts: seq<Tree>,
                                    h: nat, usable: nat)
    requires Holds(pages, t, h, usable) && t.TNode? && p < |t.kids|
    requires Became(pages, pages', t.kids[p].pg, PagesOf(t.kids[p]), Fit, ts, h - 1, usable)
    ensures Became(pages, pages', t.pg, PagesOf(t), Fit, [TNode(t.pg, t.kids[..p] + ts + t.kids[p + 1..], t.divs)], h,
                   usable)
  {
    KidsHold(pages, t, h, usable);
    var kids' := t.kids[..p] + ts + t.kids[p + 1..];
    ChildSpliced(pages, pages', t.kids, p, ts, h - 1, usable);
    SameRoots(Roots(t.kids), p);
    assert Roots(ts) == [t.kids[p].pg];
    PageOfKid(t.kids, p);
    OneNode(pages, pages', t.pg, t.kids, kids', t.divs, h - 1, usable);
  }

  lemma {:induction false} SameRoots(roots: seq<nat>, p: nat)
    requires p < |roots|
    ensures roots[..p] + [roots[p]] + roots[p + 1..] == roots
  {
  }

  // A child replaced by the row it became.
  lemma {:induction false} ChildSpliced(pages: map<nat, Node>, pages': map<nat, Node>, kids: seq<Tree>, p: nat,
                                        ts: seq<Tree>, h: nat, usable: nat)
    requires HoldsF(pages, kids, h, usable) && p < |kids| && HoldsF(pages', ts, h, usable)
    requires Footprint(pages, pages', PagesOf(kids[p]), PagesF(ts))
    ensures HoldsF(pages', kids[..p] + ts + kids[p + 1..], h, usable)
    ensures Footprint(pages, pages', PagesF(kids), PagesF(kids[..p] + ts + kids[p + 1..]))
    ensures Roots(kids[..p] + ts + kids[p + 1..]) == Roots(kids)[..p] + Roots(ts) + Roots(kids)[p + 1..]
  {
    assert kids[p..p + 1] == [kids[p]];
    assert PagesF([kids[p]]) == PagesOf(kids[p]);
    SpliceHolds(pages, pages', kids, p, p + 1, ts, h, usable);
    RootsSplice(kids, p, p + 1, ts);
  }

  lemma {:induction false} OneNode(pages: map<nat, Node>, pages': map<nat, Node>, pg: nat, kids: seq<Tree>,
                                   kids': seq<Tree>, divs: seq<Entry>, h: nat, usable: nat)
    requires |kids'| == |divs| + 1 && |divs| > 0 && InteriorFits(divs, BodyOffset(pg), usable) && h > 0
    requires HoldsF(pages', kids', h, usable) && Footprint(pages, pages', PagesF(kids), PagesF(kids'))
    requires pg in pages && pg !in PagesF(kids) && pages[pg] == Interior(Roots(kids'), divs)
    ensures Became(pages, pages', pg, {pg} + PagesF(kids), Fit, [TNode(pg, kids', divs)], h + 1, usable)
  {
    var t' := TNode(pg, kids', divs);
    assert PagesF([t']) == {pg} + PagesF(kids');
    assert Roots([t']) == [pg];
  }

  lemma {:induction false} InsertKeepsCells(s: seq<Entry>, e: Entry, cmp: Comparator, usable: nat)
    requires CellsOk(s, usable) && CellOk(e, usable)
    ensures CellsOk(InsertSorted(s, e, cmp), usable)
  {
    if s != [] && cmp(e.rec, s[0].rec) == Greater {
      InsertKeepsCells(s[1..], e, cmp, usable);
      assert CellOk(s[0], usable);
    }
  }

  // The entry belongs into child `p` of an interior page.
  ghost predicate GoesInto(t: Tree, p: nat, e: Entry, cmp: Comparator) {
    && t.TNode? && |t.kids| == |t.divs| + 1 && p < |t.kids|
    && Sorted(Flat(t), cmp)
    && (p > 0 ==> cmp(e.rec, t.divs[p - 1].rec) == Greater)
    && (p < |t.divs| ==> cmp(e.rec, t.divs[p].rec) == Less)
  }

  /** The child's row, with the entry inserted, in place of the child: the page's entries with the
      entry inserted. */
  lemma {:induction false} InsertedBelow(t: Tree, p: nat, e: Entry, cmp: Comparator, ts: seq<Tree>, seps: seq<Entry>,
                                         usable: nat)
    requires TotalPreorder(cmp) && GoesInto(t, p, e, cmp) && |ts| == |seps| + 1
    requires FlatF(ts, seps) == InsertSorted(Flat(t.kids[p]), e, cmp)
    requires CellsOk(Flat(t), usable) && CellOk(e, usable)
    ensures FlatF(t.kids[..p] + ts + t.kids[p + 1..], t.divs[..p] + seps + t.divs[p..]) == InsertSorted(Flat(t), e, cmp)
    ensures CellsOk(InsertSorted(Flat(t), e, cmp), usable)
    ensures CellsOk(FlatF(ts, seps), usable)
  {
    InsertDescends(t.kids, t.divs, p, e, cmp);
    SpliceFlat(t.kids, t.divs, p, p + 1, ts, seps);
    InsertKeepsCells(Flat(t), e, cmp, usable);
    PartsOk(LeftOf(t.kids, t.divs, p), FlatF(ts, seps), RightOf(t.kids, t.divs, p + 1), usable);
  }

  /** The child split: adopt its parts and finish the page. */
  method AbsorbSplit(wp: WritePager, pg: nat, children: seq<nat>, divs: seq<Entry>, p: nat, below: Up, e: Entry,
                     cmp: Comparator, ghost pages: map<nat, Node>, ghost t: Tree, ghost h: nat, ghost ts0: seq<Tree>)
    returns (up: Up, ghost ts: seq<Tree>)
    requires wp.Valid() && TotalPreorder(cmp) && Holds(pages, t, h, wp.usable) && GoesInto(t, p, e, cmp)
    requires CellOk(e, wp.usable)
    requires t.pg == pg && children == Roots(t.kids) && divs == t.divs && BodyOffset(pg) == 0
    requires below.Split? && Became(pages, wp.pages, children[p], PagesOf(t.kids[p]), below, ts0, h - 1, wp.usable)
    requires FlatF(ts0, below.Seps()) == InsertSorted(Flat(t.kids[p]), e, cmp)
    modifies wp
    ensures wp.Valid() && Became(pages, wp.pages, pg, PagesOf(t), up, ts, h, wp.usable)
    ensures FlatF(ts, up.Seps()) == InsertSorted(Flat(t), e, cmp)
  {
    var children', divs' := AdoptSplit(children, divs, p, below);
    ghost var kids' := t.kids[..p] + ts0 + t.kids[p + 1..];
    ghost var mid := wp.pages;
    Adopted(pages, mid, t, p, below, ts0, h, wp.usable, children', divs');
    InsertedBelow(t, p, e, cmp, ts0, below.Seps(), wp.usable);
    DividersOk(kids', divs', wp.usable);
    DividersOk(ts0, below.Seps(), wp.usable);
    SplicedUsed(divs, p, p, below.Seps(), wp.usable);
    up, ts := FinishInterior(wp, pg, children', divs', kids', h - 1);
    FootprintCompose(pages, mid, wp.pages, pg, PagesF(t.kids), PagesF(kids'), PagesF(ts));
  }

  lemma {:induction false} Adopted(pages: map<nat, Node>, mid: map<nat, Node>, t: Tree, p: nat, below: Up,
                                   ts: seq<Tree>, h: nat, usable: nat, children: seq<nat>, divs: seq<Entry>)
    requires Holds(pages, t, h, usable) && t.TNode? && p < |t.kids| && below.Split?
    requires Became(pages, mid, t.kids[p].pg, PagesOf(t.kids[p]), below, ts, h - 1, usable)
    requires children == Roots(t.kids)[..p + 1] + below.NewPages() + Roots(t.kids)[p + 1..]
    requires divs == t.divs[..p] + below.Seps() + t.divs[p..]
    ensures var kids' := t.kids[..p] + ts + t.kids[p + 1..];
            && HoldsF(mid, kids', h - 1, usable) && children == Roots(kids') && |kids'| == |divs| + 1 && |divs| > 0
            && t.pg in mid && t.pg !in PagesF(kids') && Footprint(pages, mid, PagesF(t.kids), PagesF(kids'))
    ensures |ts| == 2 && |below.Seps()| == 1
  {
    KidsHold(pages, t, h, usable);
    ChildSpliced(pages, mid, t.kids, p, ts, h - 1, usable);
    PageOfKid(t.kids, p);
    assert |ts| == |Roots(ts)| == 2;
    AdoptedRoots(Roots(t.kids), p, below.NewPages());
  }

  lemma {:induction false} AdoptedRoots(roots: seq<nat>, p: nat, more: seq<nat>)
    requires p < |roots|
    ensures roots[..p + 1] + more + roots[p + 1..] == roots[..p] + ([roots[p]] + more) + roots[p + 1..]
  {
  }

  /** The child leaf is over-full: rebalance it with its siblings and finish the page. */
  method AbsorbOverfull(wp: WritePager, pg: nat, children: seq<nat>, divs: seq<Entry>, p: nat, entries: seq<Entry>,
                        e: Entry, cmp: Comparator,
                        ghost t: Tree, ghost h: nat)
    returns (up: Up, ghost ts: seq<Tree>)
    requires wp.Valid() && TotalPreorder(cmp) && Holds(wp.pages, t, h, wp.usable) && GoesInto(t, p, e, cmp)
    requires CellOk(e, wp.usable)
    requires t.pg == pg && children == Roots(t.kids) && divs == t.divs && BodyOffset(pg) == 0
    requires t.kids[p].TLeaf? && entries == InsertSorted(t.kids[p].entries, e, cmp)
    requires LeafUsed(entries) > wp.usable - 8 && 3 * LeafUsed(entries) <= 4 * (wp.usable - 8)
    modifies wp
    ensures wp.Valid() && Became(old(wp.pages), wp.pages, pg, PagesOf(t), up, ts, h, wp.usable)
    ensures FlatF(ts, up.Seps()) == InsertSorted(Flat(t), e, cmp)
  {
    ghost var pages := wp.pages;
    OverfullFlat(pages, t, p, entries, e, cmp, h, wp.usable);
    var children', divs', kids' := BalanceLeafInto(wp, children, divs, p, entries, t.kids);
    ghost var mid := wp.pages;
    DividersOk(kids', divs', wp.usable);
    up, ts := FinishInterior(wp, pg, children', divs', kids', h - 1);
    FootprintCompose(pages, mid, wp.pages, pg, PagesF(t.kids), PagesF(kids'), PagesF(ts));
  }

  lemma {:induction false} OverfullFlat(pages: map<nat, Node>, t: Tree, p: nat, entries: seq<Entry>, e: Entry,
                                        cmp: Comparator, h: nat, usable: nat)
    requires TotalPreorder(cmp) && Holds(pages, t, h, usable) && GoesInto(t, p, e, cmp) && CellOk(e, usable)
    requires t.kids[p].TLeaf? && entries == InsertSorted(t.kids[p].entries, e, cmp)
    ensures FlatF(Overfull(t.kids, p, entries), t.divs) == InsertSorted(Flat(t), e, cmp)
    ensures CellsOk(InsertSorted(Flat(t), e, cmp), usable)
    ensures h == 2 && HoldsF(pages, t.kids, 1, usable) && t.pg !in PagesF(t.kids)
  {
    OverfullSplice(t, p, entries, e, cmp, usable);
    KidsHold(pages, t, h, usable);
    assert Holds(pages, t.kids[p], h - 1, usable);
  }

  lemma {:induction false} OverfullSplice(t: Tree, p: nat, entries: seq<Entry>, e: Entry, cmp: Comparator, usable: nat)
    requires TotalPreorder(cmp) && GoesInto(t, p, e, cmp) && CellsOk(Flat(t), usable) && CellOk(e, usable)
    requires t.kids[p].TLeaf? && entries == InsertSorted(t.kids[p].entries, e, cmp)
    ensures FlatF(Overfull(t.kids, p, entries), t.divs) == InsertSorted(Flat(t), e, cmp)
    ensures CellsOk(InsertSorted(Flat(t), e, cmp), usable)
  {
    var leaf := TLeaf(t.kids[p].pg, entries);
    InsertedBelow(t, p, e, cmp, [leaf], [], usable);
    ReplaceOne(t.kids, p, leaf);
    assert t.divs[..p] + [] + t.divs[p..] == t.divs;
  }

  lemma {:induction false} ReplaceOne<T>(s: seq<T>, p: nat, x: T)
    requires p < |s|
    ensures s[..p] + [x] + s[p + 1..] == s[p := x]
  {
  }

  const MAX_DEPTH := 20

  /** What inserting below a page reports. An entry with an equal record is left alone. A tree deeper
      than the limit is reported before anything is written; an over-full leaf is handed up unwritten. */
  ghost predicate Inserted(pages: map<nat, Node>, pages': map<nat, Node>, t: Tree, h: nat, usable: nat, e: Entry,
                           cmp: Comparator, depth: nat, up: Up, ts: seq<Tree>) {
    match up
    case Corrupt => h + depth > MAX_DEPTH && pages' == pages
    case LeafOverfull(entries) =>
      && t.TLeaf? && pages' == pages && entries == InsertSorted(t.entries, e, cmp)
      && LeafUsed(entries) > usable - 8 && 3 * LeafUsed(entries) <= 4 * (usable - 8)
    case _ =>
      && Became(pages, pages', t.pg, PagesOf(t), up, ts, h, usable)
      && FlatF(ts, up.Seps()) == InsertSorted(Flat(t), e, cmp)
  }

  method InsertLeaf(wp: WritePager, pg: nat, entries: seq<Entry>, e: Entry, cmp: Comparator, ghost t: Tree,
                    ghost depth: nat)
    returns (up: Up, ghost ts: seq<Tree>)
    requires wp.Valid() && TotalPreorder(cmp) && Holds(wp.pages, t, 1, wp.usable) && t == TLeaf(pg, entries)
    requires Sorted(entries, cmp) && CellOk(e, wp.usable)
    modifies wp
    ensures wp.Valid() && !up.Corrupt? && Inserted(old(wp.pages), wp.pages, t, 1, wp.usable, e, cmp, depth, up, ts)
  {
    var pos, found := FindSlot(entries, e, cmp);
    if found {
      InsertMeaning(entries, e, cmp);
      Unchanged(wp.pages, t, 1, wp.usable);
      return Fit, [t];
    }
    SlotInserts(entries, e, cmp, pos);
    var entries' := entries[..pos] + [e] + entries[pos..];
    if LeafFits(entries', BodyOffset(pg), wp.usable) {
      LeafRewritten(wp.pages, t, entries', wp.usable);
      wp.WriteNode(pg, Leaf(entries'));
      return Fit, [TLeaf(pg, entries')];
    }
    return LeafOverfull(entries'), [];
  }

  lemma {:induction false} FitBelow(pages: map<nat, Node>, pages': map<nat, Node>, t: Tree, h: nat, usable: nat, p: nat,
                                    e: Entry, cmp: Comparator, depth: nat, ts: seq<Tree>)
    requires TotalPreorder(cmp) && Holds(pages, t, h, usable) && GoesInto(t, p, e, cmp) && CellOk(e, usable)
    requires Inserted(pages, pages', t.kids[p], h - 1, usable, e, cmp, depth + 1, Fit, ts)
    ensures Inserted(pages, pages', t, h, usable, e, cmp, depth, Fit,
                     [TNode(t.pg, t.kids[..p] + ts + t.kids[p + 1..], t.divs)])
  {
    ChildFit(pages, pages', t, p, ts, h, usable);
    assert |ts| == |Roots(ts)| == 1;
    InsertedBelow(t, p, e, cmp, ts, [], usable);
    assert t.divs[..p] + [] + t.divs[p..] == t.divs;
  }

  /** Insert below page `pg`, at depth `depth`. */
  method InsertRec(wp: WritePager, pg: nat, e: Entry, cmp: Comparator, depth: nat, ghost t: Tree, ghost h: nat)
    returns (up: Up, ghost ts: seq<Tree>)
    requires wp.Valid() && TotalPreorder(cmp) && Holds(wp.pages, t, h, wp.usable) && t.pg == pg
    requires Sorted(Flat(t), cmp) && CellOk(e, wp.usable)
    modifies wp
    ensures wp.Valid() && Inserted(old(wp.pages), wp.pages, t, h, wp.usable, e, cmp, depth, up, ts)
    decreases t
  {
    if depth >= MAX_DEPTH {
      return Up.Corrupt, [];
    }
    match wp.pages[pg] {
      case Leaf(entries) =>
        up, ts := InsertLeaf(wp, pg, entries, e, cmp, t, depth);
      case Interior(children, divs) =>
        var p, found := FindSlot(divs, e, cmp);
        if found {
          EqualDivider(t.kids, t.divs, p, e, cmp);
          Unchanged(wp.pages, t, h, wp.usable);
          return Fit, [t];
        }
        KidsHold(wp.pages, t, h, wp.usable);
        assert p > 0 ==> divs[p - 1] == divs[..p][p - 1];
        InsertDescends(t.kids, t.divs, p, e, cmp);
        ghost var pages := wp.pages;
        var below, ts0 := InsertRec(wp, children[p], e, cmp, depth + 1, t.kids[p], h - 1);
        match below {
          case Corrupt =>
            return Up.Corrupt, [];
          case Fit =>
            FitBelow(pages, wp.pages, t, h, wp.usable, p, e, cmp, depth, ts0);
            return Fit, [TNode(pg, t.kids[..p] + ts0 + t.kids[p + 1..], t.divs)];
          case LeafOverfull(entries) =>
            up, ts := AbsorbOverfull(wp, pg, children, divs, p, entries, e, cmp, t, h);
          case Split(_, _) =>
            up, ts := AbsorbSplit(wp, pg, children, divs, p, below, e, cmp, pages, t, h, ts0);
        }
    }
  }

  // ----- The root

  /** The page map holds an index: a well-formed tree rooted at `root`, its entries in order. */
  ghost predicate IsIndex(pages: map<nat, Node>, root: nat, t: Tree, h: nat, usable: nat, cmp: Comparator) {
    t.pg == root && Holds(pages, t, h, usable) && Sorted(Flat(t), cmp)
  }

  method CreateIndexRoot(wp: WritePager, ghost cmp: Comparator) returns (root: nat, ghost t: Tree)
    requires wp.Valid()
    modifies wp
    ensures wp.Valid() && root !in old(wp.pages) && IsIndex(wp.pages, root, t, 1, wp.usable, cmp) && Flat(t) == []
    ensures Footprint(old(wp.pages), wp.pages, {}, PagesOf(t))
  {
    root := wp.AllocatePage();
    wp.WriteNode(root, Leaf([]));
    t := TLeaf(root, []);
  }

  // A root over a row of two trees.
  lemma {:induction false} NewRoot(pages: map<nat, Node>, pages': map<nat, Node>, root: nat, row: seq<Tree>, d: Entry,
                                   h: nat, usable: nat)
    requires HoldsF(pages, row, h, usable) && |row| == 2 && root !in PagesF(row) && root != 1 && h > 0
    requires CellOk(d, usable) && CellsOk(FlatF(row, [d]), usable)
    requires pages' == pages[root := Interior(Roots(row), [d])]
    ensures Holds(pages', TNode(root, row, [d]), h + 1, usable)
    ensures InteriorFits([d], BodyOffset(root), usable)
  {
    RepresentsFFrame(pages, pages', row);
    UsedOne(d);
  }

  /** The root leaf overflowed: its entries go to two new leaves under it. */
  method DeepenLeafRoot(wp: WritePager, root: nat, entries: seq<Entry>, ghost t: Tree) returns (ghost t': Tree)
    requires wp.Valid() && Represents(wp.pages, t) && t.TLeaf? && t.pg == root && CellsOk(entries, wp.usable)
    requires LeafUsed(entries) > wp.usable - 8 && 3 * LeafUsed(entries) <= 4 * (wp.usable - 8)
    modifies wp
    ensures wp.Valid() && t'.pg == root && Holds(wp.pages, t', 2, wp.usable) && Flat(t') == entries
    ensures Footprint(old(wp.pages), wp.pages, PagesOf(t), PagesOf(t'))
  {
    ghost var before := wp.pages;
    var child0 := wp.AllocatePage();
    assert Balance.OldPage([|entries|], false, |Sizes(entries)|, 0);
    var pages, dividers, row := BalanceLeafPooled(wp, [child0], entries, [|entries|]);
    SmallMultiples(wp.usable - 8);
    PagesBound(1, |row|, wp.usable - 8, LeafUsed(entries));
    DividersOk(row, dividers, wp.usable);
    assert dividers == [dividers[0]] && CellOk(dividers[0], wp.usable);
    assert AsSet([child0]) == {child0};
    ghost var mid := wp.pages;
    NewRoot(mid, mid[root := Interior(pages, dividers)], root, row, dividers[0], 1, wp.usable);
    wp.WriteNode(root, Interior(pages, dividers));
    t' := TNode(root, row, dividers);
  }

  // A tree moved to another page keeps everything but its root's number.
  lemma {:induction false} Relocated(pages: map<nat, Node>, t: Tree, pg: nat, h: nat, usable: nat)
    requires Represents(pages, t) && Shape(t, h, usable) && Distinct(t) && Populated(t)
    requires pg !in pages && pg != 1 && t.pg != 1
    ensures var t' := t.(pg := pg); var pages' := pages[pg := pages[t.pg]];
            Represents(pages', t') && Shape(t', h, usable) && Distinct(t') && Populated(t') && Flat(t') == Flat(t)
    ensures PagesOf(t.(pg := pg)) == PagesOf(t) - {t.pg} + {pg}
  {
    RepresentedPages(pages, t);
    var pages' := pages[pg := pages[t.pg]];
    if t.TNode? {
      RepresentsFFrame(pages, pages', t.kids);
    }
  }

  lemma {:induction false} OneTree(t: Tree)
    ensures PagesF([t]) == PagesOf(t) && (DistinctF([t]) <==> Distinct(t))
  {
    assert [t][1..] == [];
  }

  lemma {:induction false} RelocatedRow(pages: map<nat, Node>, ts: seq<Tree>, pg: nat, d: Entry, h: nat, usable: nat)
    requires HoldsF(pages, ts, h, usable) && |ts| == 2 && pg !in pages && pg != 1 && ts[0].pg != 1
    ensures ts[0].pg in pages && NodeFits(pages[ts[0].pg], pg, usable)
    ensures var row, pages' := [ts[0].(pg := pg), ts[1]], pages[pg := pages[ts[0].pg]];
            && HoldsF(pages', row, h, usable) && PagesF(row) == PagesF(ts) - {ts[0].pg} + {pg}
            && FlatF(row, [d]) == FlatF(ts, [d])
  {
    assert Represents(pages, ts[0]) && Populated(ts[0]) && Represents(pages, ts[1]) && Populated(ts[1]);
    var row, pages' := [ts[0].(pg := pg), ts[1]], pages[pg := pages[ts[0].pg]];
    assert ts == [ts[0]] + [ts[1]] && row == [row[0]] + [row[1]];
    OneTree(ts[0]);
    OneTree(ts[1]);
    OneTree(row[0]);
    HoldsCat(pages, [ts[0]], [ts[1]], h, usable);
    PagesCat([ts[0]], [ts[1]]);
    PagesCat([row[0]], [row[1]]);
    Relocated(pages, ts[0], pg, h, usable);
    RepresentedPages(pages, ts[1]);
    RepresentsFrame(pages, pages', ts[1]);
    HoldsCat(pages', [row[0]], [row[1]], h, usable);
  }

  /** The root split: its first part moves to a new page, and the root becomes their parent. */
  method GrowRoot(wp: WritePager, root: nat, up: Up, ghost pages: map<nat, Node>, ghost t: Tree, ghost h: nat,
                  ghost ts: seq<Tree>) returns (ghost t': Tree)
    requires wp.Valid() && up.Split? && Became(pages, wp.pages, root, PagesOf(t), up, ts, h, wp.usable)
    requires root in PagesOf(t)
    requires CellsOk(FlatF(ts, up.Seps()), wp.usable) && h > 0
    modifies wp
    ensures wp.Valid() && t'.pg == root && Holds(wp.pages, t', h + 1, wp.usable) && Flat(t') == FlatF(ts, up.Seps())
    ensures Footprint(pages, wp.pages, PagesOf(t), PagesOf(t'))
  {
    ghost var mid := wp.pages;
    assert |ts| == |Roots(ts)| == 2 && ts[0].pg == Roots(ts)[0] && ts[1].pg == Roots(ts)[1];
    assert Represents(mid, ts[0]);
    var left := wp.pages[root];
    var newLeft := wp.AllocatePage();
    assert newLeft in wp.pages && root in mid;
    RelocatedRow(mid, ts, newLeft, up.first, h, wp.usable);
    wp.WriteNode(newLeft, left);
    ghost var row := [ts[0].(pg := newLeft), ts[1]];
    assert wp.pages == mid[newLeft := left];
    var children := [newLeft] + up.NewPages();
    var divs := up.Seps();
    assert divs == [up.first] && children == Roots(row);
    DividersOk(ts, divs, wp.usable);
    ghost var late := wp.pages;
    NewRoot(late, late[root := Interior(children, divs)], root, row, up.first, h, wp.usable);
    wp.WriteNode(root, Interior(children, divs));
    t' := TNode(root, row, divs);
  }

  // The index has become `t'`, with the entry inserted in order.
  ghost predicate Enlarged(before: map<nat, Node>, pages: map<nat, Node>, t: Tree, t': Tree, h': nat, usable: nat,
                           e: Entry, cmp: Comparator) {
    && IsIndex(pages, t.pg, t', h', usable, cmp) && Flat(t') == InsertSorted(Flat(t), e, cmp)
    && Footprint(before, pages, PagesOf(t), PagesOf(t'))
  }

  // What is known once the entry is inserted below the root.
  ghost predicate AtRoot(t: Tree, usable: nat, e: Entry, cmp: Comparator) {
    Sorted(InsertSorted(Flat(t), e, cmp), cmp) && CellsOk(InsertSorted(Flat(t), e, cmp), usable)
  }

  lemma {:induction false} InsertedAtRoot(pages: map<nat, Node>, t: Tree, h: nat, usable: nat, e: Entry,
                                          cmp: Comparator)
    requires TotalPreorder(cmp) && IsIndex(pages, t.pg, t, h, usable, cmp) && CellOk(e, usable)
    ensures AtRoot(t, usable, e, cmp)
  {
    InsertMeaning(Flat(t), e, cmp);
    InsertKeepsCells(Flat(t), e, cmp, usable);
  }

  lemma {:induction false} FitRoot(before: map<nat, Node>, pages: map<nat, Node>, t: Tree, h: nat, usable: nat,
                                   e: Entry, cmp: Comparator, ts: seq<Tree>)
    requires Inserted(before, pages, t, h, usable, e, cmp, 0, Fit, ts) && AtRoot(t, usable, e, cmp)
    ensures |ts| == 1 && Enlarged(before, pages, t, ts[0], h, usable, e, cmp)
  {
    assert |ts| == |Roots(ts)| == 1;
    assert ts == [ts[0]] && ts[0].pg == Roots(ts)[0] && PagesF(ts) == PagesOf(ts[0]);
    assert Represents(pages, ts[0]) && Populated(ts[0]);
  }

  method SplitRoot(wp: WritePager, root: nat, up: Up, ghost e: Entry, ghost cmp: Comparator,
                   ghost before: map<nat, Node>, ghost t: Tree, ghost h: nat, ghost ts: seq<Tree>)
    returns (ghost t': Tree)
    requires wp.Valid() && t.pg == root && up.Split? && Inserted(before, wp.pages, t, h, wp.usable, e, cmp, 0, up, ts)
    requires AtRoot(t, wp.usable, e, cmp) && h > 0
    modifies wp
    ensures wp.Valid() && Enlarged(before, wp.pages, t, t', h + 1, wp.usable, e, cmp)
  {
    t' := GrowRoot(wp, root, up, before, t, h, ts);
  }

  method OverfullRoot(wp: WritePager, root: nat, entries: seq<Entry>, ghost e: Entry, ghost cmp: Comparator,
                      ghost t: Tree)
    returns (ghost t': Tree)
    requires wp.Valid() && t.pg == root && Represents(wp.pages, t)
    requires t.TLeaf? && entries == InsertSorted(Flat(t), e, cmp)
    requires LeafUsed(entries) > wp.usable - 8 && 3 * LeafUsed(entries) <= 4 * (wp.usable - 8)
    requires AtRoot(t, wp.usable, e, cmp)
    modifies wp
    ensures wp.Valid() && Enlarged(old(wp.pages), wp.pages, t, t', 2, wp.usable, e, cmp)
  {
    t' := DeepenLeafRoot(wp, root, entries, t);
  }

  /** Insert into an index. The root keeps its page number, the tree stays well-formed, and its entries
      are the old ones with the new one inserted in order (or the old ones, if an equal record is there).
      Only a tree deeper than the limit fails, and then nothing has changed. */
  method InsertIndex(wp: WritePager, root: nat, e: Entry, cmp: Comparator, ghost t: Tree, ghost h: nat)
    returns (ok: bool, ghost t': Tree, ghost h': nat)
    requires wp.Valid() && TotalPreorder(cmp) && IsIndex(wp.pages, root, t, h, wp.usable, cmp) && CellOk(e, wp.usable)
    modifies wp
    ensures wp.Valid() && (h <= MAX_DEPTH ==> ok)
    ensures ok ==> IsIndex(wp.pages, root, t', h', wp.usable, cmp) && h <= h' <= h + 1
    ensures ok ==> Flat(t') == InsertSorted(Flat(t), e, cmp)
    ensures ok ==> Footprint(old(wp.pages), wp.pages, PagesOf(t), PagesOf(t'))
    ensures !ok ==> wp.pages == old(wp.pages)
  {
    ghost var before := wp.pages;
    InsertedAtRoot(before, t, h, wp.usable, e, cmp);
    var up, ts := InsertRec(wp, root, e, cmp, 0, t, h);
    match up {
      case Fit =>
        FitRoot(before, wp.pages, t, h, wp.usable, e, cmp, ts);
        ok, t', h' := true, ts[0], h;
      case Split(_, _) =>
        t' := SplitRoot(wp, root, up, e, cmp, before, t, h, ts);
        ok, h' := true, h + 1;
      case LeafOverfull(entries) =>
        t' := OverfullRoot(wp, root, entries, e, cmp, t);
        ok, h' := true, 2;
      case Corrupt =>
        ok, t', h' := false, t, h;
    }
  }

  /** Entries inserted one after another. */
  ghost function InsertAll(s: seq<Entry>, es: seq<Entry>, cmp: Comparator): seq<Entry> {
    if es == [] then s else InsertSorted(InsertAll(s, es[..|es| - 1], cmp), es[|es| - 1], cmp)
  }

  lemma {:induction false} InsertAllNext(es: seq<Entry>, n: nat, cmp: Comparator)
    requires n < |es|
    ensures InsertAll([], es[..n + 1], cmp) == InsertSorted(InsertAll([], es[..n], cmp), es[n], cmp)
  {
    assert es[..n + 1][..n] == es[..n];
  }

  lemma {:induction false} FootprintThen(a: map<nat, Node>, b: map<nat, Node>, c: map<nat, Node>, mid: set<nat>,
                                         after: set<nat>)
    requires Footprint(a, b, {}, mid) && Footprint(b, c, mid, after)
    ensures Footprint(a, c, {}, after)
  {
  }

  /** A whole run of insertions into a fresh index: as long as the depth limit is not reached, the tree
      holds exactly the entries inserted, each record once, in order. */
  method BuildIndex(wp: WritePager, es: seq<Entry>, cmp: Comparator)
    returns (root: nat, n: nat, ghost t: Tree, ghost h: nat)
    requires wp.Valid() && TotalPreorder(cmp) && CellsOk(es, wp.usable)
    modifies wp
    ensures wp.Valid() && n <= |es| && IsIndex(wp.pages, root, t, h, wp.usable, cmp)
    ensures Flat(t) == InsertAll([], es[..n], cmp)
    ensures n < |es| ==> h > MAX_DEPTH
    ensures Footprint(old(wp.pages), wp.pages, {}, PagesOf(t))
  {
    root, t := CreateIndexRoot(wp, cmp);
    h := 1;
    n := 0;
    while n < |es|
      invariant n <= |es| && wp.Valid() && IsIndex(wp.pages, root, t, h, wp.usable, cmp)
      invariant Flat(t) == InsertAll([], es[..n], cmp)
      invariant Footprint(old(wp.pages), wp.pages, {}, PagesOf(t))
    {
      assert CellOk(es[n], wp.usable);
      ghost var t0, h0, mid := t, h, wp.pages;
      var ok;
      ok, t, h := InsertIndex(wp, root, es[n], cmp, t, h);
      if !ok {
        t, h := t0, h0;
        return;
      }
      InsertAllNext(es, n, cmp);
      FootprintThen(old(wp.pages), mid, wp.pages, PagesOf(t0), PagesOf(t));
      n := n + 1;
    }
  }
}
