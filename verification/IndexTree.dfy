/** Index b-trees as trees.

    A database keeps an index as pages that refer to each other by number. `Tree` is the tree
    those pages form, `Represents` says that a page map holds it, and `Flat` is the list of
    entries it stands for. An index tree is a true B-tree: the dividers of an interior page are
    entries themselves. */
module IndexTree {
  import opened Seqs
  import opened Bytes
  import opened Records
  import Balance

  /** An index entry: its record, and the bytes that hold it on a page (the record's length,
      the local part of the record, and an overflow page number if it spills). */
  datatype Entry = Entry(rec: Record, cell: bytes)

  /** The content of an index page. `Interior` has one more child than dividers; the last child
      is the page's right pointer. */
  datatype Node = Leaf(entries: seq<Entry>) | Interior(children: seq<nat>, dividers: seq<Entry>)

  datatype Tree = TLeaf(pg: nat, entries: seq<Entry>) | TNode(pg: nat, kids: seq<Tree>, divs: seq<Entry>)

  // ----- The entries of a tree, in order

  ghost function Flat(t: Tree): seq<Entry>
    decreases t
  {
    match t
    case TLeaf(_, entries) => entries
    case TNode(_, kids, divs) => FlatF(kids, divs)
  }

  /** The entries of a row of trees with dividers between them. */
  ghost function FlatF(kids: seq<Tree>, divs: seq<Entry>): seq<Entry>
    decreases kids
  {
    if kids == [] then []
    else if |kids| == 1 || divs == [] then Flat(kids[0])
    else Flat(kids[0]) + [divs[0]] + FlatF(kids[1..], divs[1..])
  }

  lemma {:induction false} FlatCat(a: seq<Tree>, da: seq<Entry>, d: Entry, b: seq<Tree>, db: seq<Entry>)
    requires |a| == |da| + 1 && |b| == |db| + 1
    ensures FlatF(a + b, da + [d] + db) == FlatF(a, da) + [d] + FlatF(b, db)
    decreases |a|
  {
    var divs := da + [d] + db;
    if |a| == 1 {
      assert (a + b)[1..] == b && divs[1..] == db;
    } else {
      FlatCat(a[1..], da[1..], d, b, db);
      assert (a + b)[1..] == a[1..] + b;
      assert divs[1..] == da[1..] + [d] + db;
    }
  }

  // What lies left and right of the kids `[i, j)`.
  ghost function LeftOf(kids: seq<Tree>, divs: seq<Entry>, i: nat): seq<Entry>
    requires |kids| == |divs| + 1 && i <= |divs|
  {
    if i == 0 then [] else FlatF(kids[..i], divs[..i - 1]) + [divs[i - 1]]
  }

  ghost function RightOf(kids: seq<Tree>, divs: seq<Entry>, j: nat): seq<Entry>
    requires |kids| == |divs| + 1 && 0 < j <= |kids|
  {
    if j == |kids| then [] else [divs[j - 1]] + FlatF(kids[j..], divs[j..])
  }

  // Rows put together with different names for the same lists.
  lemma {:induction false} FlatGlue(a: seq<Tree>, da: seq<Entry>, d: Entry, b: seq<Tree>, db: seq<Entry>,
                                    kids: seq<Tree>, divs: seq<Entry>)
    requires |a| == |da| + 1 && |b| == |db| + 1 && kids == a + b && divs == da + [d] + db
    ensures FlatF(kids, divs) == FlatF(a, da) + [d] + FlatF(b, db)
  {
    FlatCat(a, da, d, b, db);
  }

  lemma {:induction false} TakeSplit<T>(s: seq<T>, i: nat, t: seq<T>)
    requires 0 < i <= |s|
    ensures s[..i] + t == s[..i - 1] + [s[i - 1]] + t
  {
  }

  lemma {:induction false} DropSplit<T>(s: seq<T>, i: nat, t: seq<T>)
    requires i < |s|
    ensures t + s[i..] == t + [s[i]] + s[i + 1..]
  {
  }

  lemma {:induction false} SpliceLeft(kids: seq<Tree>, divs: seq<Entry>, i: nat, ts: seq<Tree>, seps: seq<Entry>)
    requires |kids| == |divs| + 1 && i < |kids| && |ts| == |seps| + 1
    ensures FlatF(kids[..i] + ts, divs[..i] + seps) == LeftOf(kids, divs, i) + FlatF(ts, seps)
  {
    if i == 0 {
      assert kids[..i] + ts == ts && divs[..i] + seps == seps && [] + FlatF(ts, seps) == FlatF(ts, seps);
    } else {
      TakeSplit(divs, i, seps);
      FlatGlue(kids[..i], divs[..i - 1], divs[i - 1], ts, seps, kids[..i] + ts, divs[..i] + seps);
    }
  }

  lemma {:induction false} SpliceRight(a: seq<Tree>, da: seq<Entry>, kids: seq<Tree>, divs: seq<Entry>, j: nat)
    requires |kids| == |divs| + 1 && 0 < j <= |kids| && |a| == |da| + 1
    ensures FlatF(a + kids[j..], da + divs[j - 1..]) == FlatF(a, da) + RightOf(kids, divs, j)
  {
    if j == |kids| {
      assert a + kids[j..] == a && da + divs[j - 1..] == da && FlatF(a, da) + [] == FlatF(a, da);
    } else {
      DropSplit(divs, j - 1, da);
      FlatGlue(a, da, divs[j - 1], kids[j..], divs[j..], a + kids[j..], da + divs[j - 1..]);
      Assoc(FlatF(a, da), [divs[j - 1]], FlatF(kids[j..], divs[j..]));
    }
  }

  /** Replacing the kids `[i, j)` and the dividers among them leaves what is around them. */
  lemma {:induction false} SpliceFlat(kids: seq<Tree>, divs: seq<Entry>, i: nat, j: nat, ts: seq<Tree>,
                                      seps: seq<Entry>)
    requires |kids| == |divs| + 1 && i < j <= |kids| && |ts| == |seps| + 1
    ensures FlatF(kids[..i] + ts + kids[j..], divs[..i] + seps + divs[j - 1..])
         == LeftOf(kids, divs, i) + FlatF(ts, seps) + RightOf(kids, divs, j)
  {
    SpliceLeft(kids, divs, i, ts, seps);
    SpliceRight(kids[..i] + ts, divs[..i] + seps, kids, divs, j);
  }

  lemma {:induction false} WindowFlat(kids: seq<Tree>, divs: seq<Entry>, i: nat, j: nat)
    requires |kids| == |divs| + 1 && i < j <= |kids|
    ensures FlatF(kids, divs) == LeftOf(kids, divs, i) + FlatF(kids[i..j], divs[i..j - 1]) + RightOf(kids, divs, j)
  {
    SpliceFlat(kids, divs, i, j, kids[i..j], divs[i..j - 1]);
    ThreeSlices(kids, i, j);
    ThreeSlices(divs, i, j - 1);
  }

  lemma {:induction false} ThreeSlices<T>(s: seq<T>, i: nat, j: nat)
    requires i <= j <= |s|
    ensures s[..i] + s[i..j] + s[j..] == s
  {
  }

  // ----- The pages of a tree

  ghost function PagesOf(t: Tree): set<nat>
    decreases t
  {
    match t
    case TLeaf(pg, _) => {pg}
    case TNode(pg, kids, _) => {pg} + PagesF(kids)
  }

  ghost function PagesF(kids: seq<Tree>): set<nat>
    decreases kids
  {
    if kids == [] then {} else PagesOf(kids[0]) + PagesF(kids[1..])
  }

  /** No page is shared. */
  ghost predicate Distinct(t: Tree)
    decreases t
  {
    match t
    case TLeaf(_, _) => true
    case TNode(pg, kids, _) => pg !in PagesF(kids) && DistinctF(kids)
  }

  ghost predicate DistinctF(kids: seq<Tree>)
    decreases kids
  {
    kids == [] || (Distinct(kids[0]) && PagesOf(kids[0]) !! PagesF(kids[1..]) && DistinctF(kids[1..]))
  }

  lemma {:induction false} PagesCat(a: seq<Tree>, b: seq<Tree>)
    ensures PagesF(a + b) == PagesF(a) + PagesF(b)
    ensures DistinctF(a + b) <==> DistinctF(a) && DistinctF(b) && PagesF(a) !! PagesF(b)
    decreases |a|
  {
    if a == [] {
      assert a + b == b;
    } else {
      PagesCat(a[1..], b);
      assert (a + b)[1..] == a[1..] + b;
    }
  }

  lemma {:induction false} PageOfKid(kids: seq<Tree>, i: nat)
    requires i < |kids|
    ensures PagesOf(kids[i]) <= PagesF(kids) && kids[i].pg in PagesF(kids)
    ensures DistinctF(kids) ==> Distinct(kids[i])
  {
    if i > 0 {
      PageOfKid(kids[1..], i - 1);
    }
  }

  // ----- The page map

  ghost function Roots(kids: seq<Tree>): seq<nat> {
    seq(|kids|, i requires 0 <= i < |kids| => kids[i].pg)
  }

  ghost predicate Represents(pages: map<nat, Node>, t: Tree)
    decreases t
  {
    && t.pg in pages
    && match t
       case TLeaf(pg, entries) => pages[pg] == Leaf(entries)
       case TNode(pg, kids, divs) => pages[pg] == Interior(Roots(kids), divs) && RepresentsF(pages, kids)
  }

  ghost predicate RepresentsF(pages: map<nat, Node>, kids: seq<Tree>)
    decreases kids
  {
    forall i :: 0 <= i < |kids| ==> Represents(pages, kids[i])
  }

  ghost predicate SameOn(pages: map<nat, Node>, pages': map<nat, Node>, s: set<nat>) {
    forall p :: p in s && p in pages ==> p in pages' && pages'[p] == pages[p]
  }

  lemma {:induction false} RepresentsFrame(pages: map<nat, Node>, pages': map<nat, Node>, t: Tree)
    requires Represents(pages, t) && SameOn(pages, pages', PagesOf(t))
    ensures Represents(pages', t)
    decreases t, 0
  {
    if t.TNode? {
      RepresentsFFrame(pages, pages', t.kids);
    }
  }

  lemma {:induction false} RepresentsFFrame(pages: map<nat, Node>, pages': map<nat, Node>, kids: seq<Tree>)
    requires RepresentsF(pages, kids) && SameOn(pages, pages', PagesF(kids))
    ensures RepresentsF(pages', kids)
    decreases kids, 1
  {
    forall i | 0 <= i < |kids|
      ensures Represents(pages', kids[i])
    {
      PageOfKid(kids, i);
      RepresentsFrame(pages, pages', kids[i]);
    }
  }

  // ----- Space

  function Sizes(entries: seq<Entry>): seq<nat> {
    seq(|entries|, i requires 0 <= i < |entries| => |entries[i].cell|)
  }

  /** Bytes a list of entries takes on a leaf, with the cell pointers. */
  function LeafUsed(entries: seq<Entry>): nat {
    Balance.Prefix(Sizes(entries), |entries|)
  }

  /** Bytes a list of dividers takes on an interior page: each also has a child pointer. */
  function InteriorUsed(divs: seq<Entry>): nat {
    LeafUsed(divs) + 4 * |divs|
  }

  // The b-tree header of page 1 follows the 100-byte database header.
  function BodyOffset(pg: nat): nat {
    if pg == 1 then 100 else 0
  }

  predicate LeafFits(entries: seq<Entry>, body: nat, usable: nat) {
    LeafUsed(entries) <= usable - body - 8
  }

  predicate InteriorFits(divs: seq<Entry>, body: nat, usable: nat) {
    InteriorUsed(divs) <= usable - body - 12
  }

  /** The cell-size bound: three cells of this size fit on an interior page. */
  ghost predicate CellOk(e: Entry, usable: nat) {
    3 * (|e.cell| + 6) <= usable - 12
  }

  ghost predicate CellsOk(s: seq<Entry>, usable: nat) {
    forall i :: 0 <= i < |s| ==> CellOk(s[i], usable)
  }

  lemma {:induction false} PrefixOfSlice(s: seq<Entry>, a: nat, b: nat, j: nat)
    requires a <= b <= |s| && j <= b - a
    ensures Balance.Prefix(Sizes(s[a..b]), j) == Balance.Prefix(Sizes(s), a + j) - Balance.Prefix(Sizes(s), a)
  {
    if j > 0 {
      PrefixOfSlice(s, a, b, j - 1);
      assert Sizes(s[a..b])[j - 1] == Sizes(s)[a + j - 1];
    }
  }

  lemma {:induction false} UsedOfSlice(s: seq<Entry>, a: nat, b: nat)
    requires a <= b <= |s|
    ensures LeafUsed(s[a..b]) == Balance.Prefix(Sizes(s), b) - Balance.Prefix(Sizes(s), a)
  {
    PrefixOfSlice(s, a, b, b - a);
  }

  lemma {:induction false} UsedCat(a: seq<Entry>, b: seq<Entry>)
    ensures LeafUsed(a + b) == LeafUsed(a) + LeafUsed(b)
  {
    UsedOfSlice(a + b, 0, |a|);
    UsedOfSlice(a + b, |a|, |a + b|);
    assert (a + b)[0..|a|] == a && (a + b)[|a|..|a + b|] == b;
  }

  lemma {:induction false} UsedOne(e: Entry)
    ensures LeafUsed([e]) == |e.cell| + 2
  {
    assert Balance.Prefix(Sizes([e]), 1) == Balance.Prefix(Sizes([e]), 0) + Sizes([e])[0] + 2;
  }

  // ----- Well-formed trees

  /** A tree of height `h` whose leaves are all at the same depth and whose pages all fit; below
      the root no page is empty. */
  ghost predicate Shape(t: Tree, h: nat, usable: nat)
    decreases t
  {
    match t
    case TLeaf(pg, entries) => h == 1 && LeafFits(entries, BodyOffset(pg), usable)
    case TNode(pg, kids, divs) =>
      h > 1 && |kids| == |divs| + 1 && |divs| > 0 && InteriorFits(divs, BodyOffset(pg), usable)
      && ShapeF(kids, h - 1, usable)
  }

  ghost predicate ShapeF(kids: seq<Tree>, h: nat, usable: nat)
    decreases kids
  {
    forall i :: 0 <= i < |kids| ==> Populated(kids[i]) && Shape(kids[i], h, usable)
  }

  /** Every interior page has one more child than dividers. */
  ghost predicate Linked(t: Tree)
    decreases t
  {
    t.TNode? ==> |t.kids| == |t.divs| + 1 && forall i :: 0 <= i < |t.kids| ==> Linked(t.kids[i])
  }

  lemma {:induction false} ShapeIsLinked(t: Tree, h: nat, usable: nat)
    requires Shape(t, h, usable)
    ensures Linked(t)
    decreases t
  {
    if t.TNode? {
      assert ShapeF(t.kids, h - 1, usable);
      forall i | 0 <= i < |t.kids|
        ensures Linked(t.kids[i])
      {
        assert Populated(t.kids[i]);
        ShapeIsLinked(t.kids[i], h - 1, usable);
      }
    }
  }

  ghost predicate Populated(t: Tree) {
    t.TLeaf? ==> t.entries != []
  }

  ghost predicate Sorted(s: seq<Entry>, cmp: Comparator) {
    forall i, j :: 0 <= i < j < |s| ==> cmp(s[i].rec, s[j].rec) == Less
  }

  // ----- Ordered insertion

  /** Insert by key; an entry with an equal record is left alone. */
  ghost function InsertSorted(s: seq<Entry>, e: Entry, cmp: Comparator): seq<Entry> {
    if s == [] then [e]
    else match cmp(e.rec, s[0].rec)
      case Less => [e] + s
      case Equal => s
      case Greater => [s[0]] + InsertSorted(s[1..], e, cmp)
  }

  ghost predicate AllBelow(s: seq<Entry>, e: Entry, cmp: Comparator) {
    forall i :: 0 <= i < |s| ==> cmp(e.rec, s[i].rec) == Greater
  }

  // Entries below the new one are passed over.
  lemma {:induction false} InsertSkips(a: seq<Entry>, s: seq<Entry>, e: Entry, cmp: Comparator)
    requires AllBelow(a, e, cmp)
    ensures InsertSorted(a + s, e, cmp) == a + InsertSorted(s, e, cmp)
  {
    if a == [] {
      assert a + s == s;
    } else {
      InsertSkips(a[1..], s, e, cmp);
      assert (a + s)[1..] == a[1..] + s;
      assert a + InsertSorted(s, e, cmp) == [a[0]] + (a[1..] + InsertSorted(s, e, cmp));
    }
  }

  // Insertion stops before an entry above the new one.
  lemma {:induction false} InsertStops(s: seq<Entry>, b: seq<Entry>, e: Entry, cmp: Comparator)
    requires b != [] ==> cmp(e.rec, b[0].rec) == Less
    ensures InsertSorted(s + b, e, cmp) == InsertSorted(s, e, cmp) + b
  {
    if s == [] {
      assert s + b == b;
    } else {
      InsertStops(s[1..], b, e, cmp);
      assert (s + b)[1..] == s[1..] + b;
    }
  }

  /** Insertion into the middle of a list whose ends are known to lie below and above. */
  lemma {:induction false} InsertInside(a: seq<Entry>, s: seq<Entry>, b: seq<Entry>, e: Entry, cmp: Comparator)
    requires AllBelow(a, e, cmp) && (b != [] ==> cmp(e.rec, b[0].rec) == Less)
    ensures InsertSorted(a + s + b, e, cmp) == a + InsertSorted(s, e, cmp) + b
  {
    InsertStops(a + s, b, e, cmp);
    InsertSkips(a, s, e, cmp);
  }

  /** What insertion means: an order-preserving addition of exactly one entry, or nothing at all
      if an equal record is there. */
  lemma {:induction false} InsertMeaning(s: seq<Entry>, e: Entry, cmp: Comparator)
    requires TotalPreorder(cmp) && Sorted(s, cmp)
    ensures Sorted(InsertSorted(s, e, cmp), cmp)
    ensures (exists i :: 0 <= i < |s| && cmp(e.rec, s[i].rec) == Equal) ==> InsertSorted(s, e, cmp) == s
    ensures (forall i :: 0 <= i < |s| ==> cmp(e.rec, s[i].rec) != Equal)
      ==> exists k :: 0 <= k <= |s| && InsertSorted(s, e, cmp) == s[..k] + [e] + s[k..]
  {
    var k := InsertPosition(s, e, cmp);
    InsertSkips(s[..k], s[k..], e, cmp);
    assert s[..k] + s[k..] == s;
    if k == |s| || cmp(e.rec, s[k].rec) == Less {
      assert InsertSorted(s, e, cmp) == s[..k] + [e] + s[k..];
      NewEntryIsSorted(s, e, cmp, k);
    }
  }

  // Where insertion stops, and what that says of the rest.
  lemma {:induction false} InsertPosition(s: seq<Entry>, e: Entry, cmp: Comparator) returns (k: nat)
    requires TotalPreorder(cmp) && Sorted(s, cmp)
    ensures k <= |s| && AllBelow(s[..k], e, cmp)
    ensures k < |s| ==> cmp(e.rec, s[k].rec) != Greater
    ensures forall j :: k < j < |s| ==> cmp(e.rec, s[j].rec) == Less
  {
    k := 0;
    while k < |s| && cmp(e.rec, s[k].rec) == Greater
      invariant k <= |s| && AllBelow(s[..k], e, cmp)
    {
      k := k + 1;
    }
    if k < |s| {
      forall j | k < j < |s|
        ensures cmp(e.rec, s[j].rec) == Less
      {
        StrictChain(cmp, e.rec, s[k].rec, s[j].rec);
      }
    }
  }

  lemma {:induction false} NewEntryIsSorted(s: seq<Entry>, e: Entry, cmp: Comparator, k: nat)
    requires TotalPreorder(cmp) && Sorted(s, cmp) && k <= |s|
    requires AllBelow(s[..k], e, cmp) && forall j :: k <= j < |s| ==> cmp(e.rec, s[j].rec) == Less
    ensures Sorted(s[..k] + [e] + s[k..], cmp)
  {
    var s' := s[..k] + [e] + s[k..];
    forall i, j | 0 <= i < j < |s'|
      ensures cmp(s'[i].rec, s'[j].rec) == Less
    {
      if j == k {
        assert s'[i] == s[..k][i];
        assert cmp(s[i].rec, e.rec) == cmp(e.rec, s[i].rec).Reverse();
      }
    }
  }
}
