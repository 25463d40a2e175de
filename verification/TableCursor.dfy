/** The table b-tree cursor: a stack of pages that walks the rows in rowid order. */
module TableCursor {
  import opened Seqs
  import opened Bytes

  datatype Row = Row(rowid: int, payload: bytes)

  /** A table page. Rows are only in the leaves; an interior page has one more child than keys. */
  datatype Page = Leaf(cells: seq<Row>) | Interior(children: seq<nat>, keys: seq<int>) {
    function NumCells(): nat {
      if Leaf? then |cells| else |keys|
    }
  }

  datatype Tree = TLeaf(pg: nat, cells: seq<Row>) | TNode(pg: nat, kids: seq<Tree>, keys: seq<int>)

  ghost function Rows(t: Tree): seq<Row>
    decreases t
  {
    match t
    case TLeaf(_, cells) => cells
    case TNode(_, kids, _) => RowsF(kids)
  }

  ghost function RowsF(kids: seq<Tree>): seq<Row>
    decreases kids
  {
    if kids == [] then [] else Rows(kids[0]) + RowsF(kids[1..])
  }

  /** The pages hold the tree, and every interior page has one more child than keys. */
  ghost predicate Represents(pages: map<nat, Page>, t: Tree)
    decreases t
  {
    && t.pg in pages
    && match t
       case TLeaf(pg, cells) => pages[pg] == Leaf(cells)
       case TNode(pg, kids, keys) =>
         && |kids| == |keys| + 1
         && pages[pg] == Interior(Roots(kids), keys)
         && forall i :: 0 <= i < |kids| ==> Represents(pages, kids[i])
  }

  ghost function Roots(kids: seq<Tree>): seq<nat> {
    seq(|kids|, i requires 0 <= i < |kids| => kids[i].pg)
  }

  // Pages of a tree, for termination.
  ghost function Size(t: Tree): nat
    ensures Size(t) > 0
    decreases t
  {
    match t
    case TLeaf(_, _) => 1
    case TNode(_, kids, _) => 1 + SizeF(kids)
  }

  ghost function SizeF(kids: seq<Tree>): nat
    decreases kids
  {
    if kids == [] then 0 else Size(kids[0]) + SizeF(kids[1..])
  }

  /** For a leaf, the index of the current cell; for an interior page, the child descended into. */
  datatype Frame = Frame(page: Page, idx: nat)

  // ----- What a stack stands for

  ghost predicate Framed(pages: map<nat, Page>, f: Frame, t: Tree) {
    Represents(pages, t) && f.page == pages[t.pg]
  }

  // The frames above the leaf: each is on the child its index names.
  ghost predicate OnPath(pages: map<nat, Page>, stack: seq<Frame>, path: seq<Tree>) {
    && |stack| == |path|
    && (forall i {:trigger Framed(pages, stack[i], path[i])} :: 0 <= i < |stack| ==> Framed(pages, stack[i], path[i]))
    && (forall i :: 0 <= i < |stack| - 1 ==> path[i].TNode?)
    && forall i :: 0 <= i < |stack| - 1 ==> stack[i].idx < |path[i].kids|
  }

  /** Rows to the right of the path through interior frames. */
  ghost function Pending(stack: seq<Frame>, path: seq<Tree>): seq<Row>
    requires |stack| == |path|
  {
    if stack == [] then []
    else
      var n := |stack| - 1;
      (if path[n].TNode? && stack[n].idx < |path[n].kids| then RowsF(path[n].kids[stack[n].idx + 1..]) else [])
      + Pending(stack[..n], path[..n])
  }

  /** Rows from the current cell of the leaf on top of the stack to the end. */
  ghost function Remaining(stack: seq<Frame>, path: seq<Tree>): seq<Row>
    requires |stack| == |path|
  {
    if stack == [] then []
    else
      var n := |stack| - 1;
      (if path[n].TLeaf? && stack[n].idx <= |path[n].cells| then path[n].cells[stack[n].idx..] else [])
      + Pending(stack[..n], path[..n])
  }

  // Pages still to be visited, and frames to be popped.
  ghost function Work(stack: seq<Frame>, path: seq<Tree>): nat
    requires |stack| == |path|
  {
    if stack == [] then 0
    else
      var n := |stack| - 1;
      1 + (if path[n].TNode? && stack[n].idx < |path[n].kids| then SizeF(path[n].kids[stack[n].idx + 1..]) else 0)
      + Work(stack[..n], path[..n])
  }

  ghost function AfterRows(f: Frame, t: Tree): seq<Row> {
    if t.TNode? && f.idx < |t.kids| then RowsF(t.kids[f.idx + 1..]) else []
  }

  ghost function AfterSize(f: Frame, t: Tree): nat {
    if t.TNode? && f.idx < |t.kids| then SizeF(t.kids[f.idx + 1..]) else 0
  }

  ghost function LeafRows(f: Frame, t: Tree): seq<Row> {
    LeafFrom(t, f.idx)
  }

  ghost function LeafFrom(t: Tree, idx: nat): seq<Row> {
    if t.TLeaf? && idx <= |t.cells| then t.cells[idx..] else []
  }

  lemma {:induction false} Push(stack: seq<Frame>, path: seq<Tree>, f: Frame, t: Tree)
    requires |stack| == |path|
    ensures Pending(stack + [f], path + [t]) == AfterRows(f, t) + Pending(stack, path)
    ensures Remaining(stack + [f], path + [t]) == LeafRows(f, t) + Pending(stack, path)
    ensures Work(stack + [f], path + [t]) == 1 + AfterSize(f, t) + Work(stack, path)
  {
    PushSlices(stack, path, f, t);
    PopSums(stack + [f], path + [t]);
  }

  lemma {:induction false} PushSlices(stack: seq<Frame>, path: seq<Tree>, f: Frame, t: Tree)
    requires |stack| == |path|
    ensures var n, s, p := |stack|, stack + [f], path + [t];
            s[..n] == stack && p[..n] == path && s[n] == f && p[n] == t && |s| == |p| == n + 1
  {
  }

  // The top of the stack is an interior page standing on one of its children.
  ghost predicate Inside(stack: seq<Frame>, path: seq<Tree>)
    requires |stack| == |path|
  {
    stack != [] ==> path[|path| - 1].TNode? && stack[|stack| - 1].idx < |path[|path| - 1].kids|
  }

  ghost predicate AtLeaf(stack: seq<Frame>, path: seq<Tree>)
    requires |stack| == |path|
  {
    stack != [] && path[|path| - 1].TLeaf?
  }

  // On a real cell of a leaf.
  ghost predicate OnCell(stack: seq<Frame>, path: seq<Tree>)
    requires |stack| == |path|
  {
    AtLeaf(stack, path) && stack[|stack| - 1].idx < |path[|path| - 1].cells|
  }

  lemma {:induction false} PushPath(pages: map<nat, Page>, stack: seq<Frame>, path: seq<Tree>, f: Frame, t: Tree)
    requires OnPath(pages, stack, path) && Inside(stack, path) && Framed(pages, f, t)
    ensures OnPath(pages, stack + [f], path + [t])
  {
    PushSlices(stack, path, f, t);
    var s, p := stack + [f], path + [t];
    forall i | 0 <= i < |s|
      ensures Framed(pages, s[i], p[i])
    {
      assert i < |stack| ==> Framed(pages, stack[i], path[i]);
    }
  }

  /** On the way down to the left-most leaf below `t`, with `rows` and `work` to come. */
  ghost predicate Descending(pages: map<nat, Page>, stack: seq<Frame>, path: seq<Tree>, t: Tree, rows: seq<Row>,
                             work: nat) {
    && Represents(pages, t)
    && OnPath(pages, stack, path) && Inside(stack, path)
    && Rows(t) + Pending(stack, path) == rows
    && Size(t) + Work(stack, path) == work
  }

  lemma {:induction false} DescendOne(pages: map<nat, Page>, stack: seq<Frame>, path: seq<Tree>, t: Tree,
                                      rows: seq<Row>, work: nat)
    requires Descending(pages, stack, path, t, rows, work) && t.TNode?
    ensures Descending(pages, stack + [Frame(pages[t.pg], 0)], path + [t], t.kids[0], rows, work)
  {
    var f := Frame(pages[t.pg], 0);
    Push(stack, path, f, t);
    PushPath(pages, stack, path, f, t);
    FirstKid(pages, t);
    assert AfterRows(f, t) == RowsF(t.kids[1..]);
    Assoc(Rows(t.kids[0]), AfterRows(f, t), Pending(stack, path));
  }

  lemma {:induction false} DescendToLeaf(pages: map<nat, Page>, stack: seq<Frame>, path: seq<Tree>, t: Tree,
                                         rows: seq<Row>, work: nat)
    requires Descending(pages, stack, path, t, rows, work) && t.TLeaf?
    ensures var stack', path' := stack + [Frame(pages[t.pg], 0)], path + [t];
            && OnPath(pages, stack', path') && AtLeaf(stack', path')
            && Remaining(stack', path') == rows && Work(stack', path') == work
  {
    var f := Frame(pages[t.pg], 0);
    Push(stack, path, f, t);
    PushPath(pages, stack, path, f, t);
    assert t.cells[0..] == t.cells;
  }

  /** Push the frames from a page down to its left-most leaf. */
  method DescendLeft(pages: map<nat, Page>, stack0: seq<Frame>, pg0: nat, ghost path0: seq<Tree>, ghost t0: Tree)
    returns (stack: seq<Frame>, ghost path: seq<Tree>)
    requires Represents(pages, t0) && t0.pg == pg0 && OnPath(pages, stack0, path0) && Inside(stack0, path0)
    ensures OnPath(pages, stack, path) && AtLeaf(stack, path) && stack[|stack| - 1].idx == 0
    ensures Remaining(stack, path) == Rows(t0) + Pending(stack0, path0)
    ensures Work(stack, path) == Size(t0) + Work(stack0, path0)
  {
    stack, path := stack0, path0;
    var pg := pg0;
    ghost var t := t0;
    ghost var rows, work := Rows(t0) + Pending(stack0, path0), Size(t0) + Work(stack0, path0);
    while pages[pg].Interior?
      invariant Descending(pages, stack, path, t, rows, work) && t.pg == pg
      decreases t
    {
      DescendOne(pages, stack, path, t, rows, work);
      stack, path := stack + [Frame(pages[pg], 0)], path + [t];
      pg, t := pages[pg].children[0], t.kids[0];
    }
    DescendToLeaf(pages, stack, path, t, rows, work);
    stack, path := stack + [Frame(pages[pg], 0)], path + [t];
  }

  lemma {:induction false} FirstKid(pages: map<nat, Page>, t: Tree)
    requires Represents(pages, t) && t.TNode?
    ensures Represents(pages, t.kids[0]) && Roots(t.kids)[0] == t.kids[0].pg
    ensures Rows(t) == Rows(t.kids[0]) + RowsF(t.kids[1..]) && Size(t) == 1 + Size(t.kids[0]) + SizeF(t.kids[1..])
  {
  }

  // Stepping from one child to the next.
  lemma {:induction false} NextKid(pages: map<nat, Page>, t: Tree, i: nat)
    requires Represents(pages, t) && t.TNode? && i + 1 < |t.kids|
    ensures Represents(pages, t.kids[i + 1])
    ensures RowsF(t.kids[i + 1..]) == Rows(t.kids[i + 1]) + RowsF(t.kids[i + 2..])
    ensures SizeF(t.kids[i + 1..]) == Size(t.kids[i + 1]) + SizeF(t.kids[i + 2..])
  {
    assert t.kids[i + 1..][1..] == t.kids[i + 2..];
  }

  lemma {:induction false} PopPending(stack: seq<Frame>, path: seq<Tree>)
    requires |stack| == |path| && stack != []
    ensures var n := |stack| - 1; Pending(stack, path) == AfterRows(stack[n], path[n]) + Pending(stack[..n], path[..n])
  {
  }

  lemma {:induction false} PopRemaining(stack: seq<Frame>, path: seq<Tree>)
    requires |stack| == |path| && stack != []
    ensures var n := |stack| - 1; Remaining(stack, path) == LeafRows(stack[n], path[n]) + Pending(stack[..n], path[..n])
  {
  }

  lemma {:induction false} PopWork(stack: seq<Frame>, path: seq<Tree>)
    requires |stack| == |path| && stack != []
    ensures var n := |stack| - 1; Work(stack, path) == 1 + AfterSize(stack[n], path[n]) + Work(stack[..n], path[..n])
  {
  }

  lemma {:induction false} PopSums(stack: seq<Frame>, path: seq<Tree>)
    requires |stack| == |path| && stack != []
    ensures var n := |stack| - 1;
            && Pending(stack, path) == AfterRows(stack[n], path[n]) + Pending(stack[..n], path[..n])
            && Remaining(stack, path) == LeafRows(stack[n], path[n]) + Pending(stack[..n], path[..n])
            && Work(stack, path) == 1 + AfterSize(stack[n], path[n]) + Work(stack[..n], path[..n])
  {
    PopPending(stack, path);
    PopRemaining(stack, path);
    PopWork(stack, path);
  }

  // The frames below the top, seen from a stack whose top is done.
  lemma {:induction false} Pop(pages: map<nat, Page>, stack: seq<Frame>, path: seq<Tree>)
    requires OnPath(pages, stack, path) && stack != []
    ensures var n := |stack| - 1;
            && OnPath(pages, stack[..n], path[..n]) && Inside(stack[..n], path[..n])
            && Pending(stack, path) == AfterRows(stack[n], path[n]) + Pending(stack[..n], path[..n])
            && Remaining(stack, path) == LeafRows(stack[n], path[n]) + Pending(stack[..n], path[..n])
            && Work(stack, path) == 1 + AfterSize(stack[n], path[n]) + Work(stack[..n], path[..n])
  {
    var n := |stack| - 1;
    PopSums(stack, path);
    forall i | 0 <= i < n
      ensures Framed(pages, stack[..n][i], path[..n][i])
    {
      assert Framed(pages, stack[i], path[i]);
    }
  }

  // Moving the top interior frame on to its next child.
  lemma {:induction false} AdvancePath(pages: map<nat, Page>, stack: seq<Frame>, path: seq<Tree>)
    requires OnPath(pages, stack, path) && stack != [] && Inside(stack, path)
    requires stack[|stack| - 1].idx + 1 <= stack[|stack| - 1].page.NumCells()
    ensures var n := |stack| - 1;
            var stack' := stack[..n] + [stack[n].(idx := stack[n].idx + 1)];
            stack[n].idx + 1 < |path[n].kids| && OnPath(pages, stack', path) && Inside(stack', path)
  {
    var n := |stack| - 1;
    assert Framed(pages, stack[n], path[n]);
    var stack' := stack[..n] + [stack[n].(idx := stack[n].idx + 1)];
    forall i | 0 <= i < |stack'|
      ensures Framed(pages, stack'[i], path[i])
    {
      assert Framed(pages, stack[i], path[i]);
    }
  }

  lemma {:induction false} Advance(pages: map<nat, Page>, stack: seq<Frame>, path: seq<Tree>)
    requires OnPath(pages, stack, path) && stack != [] && Inside(stack, path)
    requires stack[|stack| - 1].idx + 1 < |path[|stack| - 1].kids|
    ensures var n := |stack| - 1; var t, i := path[n], stack[n].idx + 1;
            var stack' := stack[..n] + [stack[n].(idx := i)];
            && Represents(pages, t.kids[i])
            && Pending(stack, path) == Rows(t.kids[i]) + Pending(stack', path)
            && Work(stack, path) == Size(t.kids[i]) + Work(stack', path)
  {
    var n := |stack| - 1;
    FramedTop(pages, stack, path);
    assert stack[..n] + [stack[n]] == stack && path[..n] + [path[n]] == path;
    AdvanceTop(pages, stack[..n], path[..n], stack[n], path[n]);
  }

  lemma {:induction false} AdvanceTop(pages: map<nat, Page>, below: seq<Frame>, path: seq<Tree>, f: Frame, t: Tree)
    requires |below| == |path| && Represents(pages, t) && t.TNode? && f.idx + 1 < |t.kids|
    ensures var now, kid := below + [f.(idx := f.idx + 1)], t.kids[f.idx + 1];
            && Represents(pages, kid)
            && Pending(below + [f], path + [t]) == Rows(kid) + Pending(now, path + [t])
            && Work(below + [f], path + [t]) == Size(kid) + Work(now, path + [t])
  {
    Push(below, path, f, t);
    AdvanceRows(pages, below, path, f, t);
  }

  lemma {:induction false} FramedTop(pages: map<nat, Page>, stack: seq<Frame>, path: seq<Tree>)
    requires OnPath(pages, stack, path) && stack != [] && Inside(stack, path)
    ensures var t := path[|stack| - 1]; Represents(pages, t) && t.TNode?
  {
    assert Framed(pages, stack[|stack| - 1], path[|stack| - 1]);
  }

  lemma {:induction false} AdvanceRows(pages: map<nat, Page>, below: seq<Frame>, path: seq<Tree>, f: Frame, t: Tree)
    requires |below| == |path| && Represents(pages, t) && t.TNode? && f.idx + 1 < |t.kids|
    ensures var f' := f.(idx := f.idx + 1);
            && Represents(pages, t.kids[f.idx + 1])
            && AfterRows(f, t) + Pending(below, path) == Rows(t.kids[f.idx + 1]) + Pending(below + [f'], path + [t])
            && 1 + AfterSize(f, t) + Work(below, path) == Size(t.kids[f.idx + 1]) + Work(below + [f'], path + [t])
  {
    var f' := f.(idx := f.idx + 1);
    NextKid(pages, t, f.idx);
    AfterNext(f, t);
    Push(below, path, f', t);
    Assoc(Rows(t.kids[f.idx + 1]), AfterRows(f', t), Pending(below, path));
  }

  lemma {:induction false} AfterNext(f: Frame, t: Tree)
    requires t.TNode? && f.idx + 1 < |t.kids|
    requires RowsF(t.kids[f.idx + 1..]) == Rows(t.kids[f.idx + 1]) + RowsF(t.kids[f.idx + 2..])
    requires SizeF(t.kids[f.idx + 1..]) == Size(t.kids[f.idx + 1]) + SizeF(t.kids[f.idx + 2..])
    ensures AfterRows(f, t) == Rows(t.kids[f.idx + 1]) + AfterRows(f.(idx := f.idx + 1), t)
    ensures AfterSize(f, t) == Size(t.kids[f.idx + 1]) + AfterSize(f.(idx := f.idx + 1), t)
  {
  }

  // An interior frame past its last child has nothing to come.
  lemma {:induction false} Finished(pages: map<nat, Page>, stack: seq<Frame>, path: seq<Tree>)
    requires OnPath(pages, stack, path) && stack != [] && Inside(stack, path)
    requires stack[|stack| - 1].idx + 1 > stack[|stack| - 1].page.NumCells()
    ensures var n := |stack| - 1;
            && OnPath(pages, stack[..n], path[..n]) && Inside(stack[..n], path[..n])
            && Pending(stack, path) == Pending(stack[..n], path[..n])
            && Work(stack, path) == 1 + Work(stack[..n], path[..n])
  {
    var n := |stack| - 1;
    assert Framed(pages, stack[n], path[n]);
    Pop(pages, stack, path);
    assert path[n].kids[stack[n].idx + 1..] == [];
  }

  // From the top frame on to its next child, and down to its left-most leaf.
  method NextChild(pages: map<nat, Page>, stack0: seq<Frame>, ghost path0: seq<Tree>)
    returns (stack: seq<Frame>, ghost path: seq<Tree>)
    requires OnPath(pages, stack0, path0) && Inside(stack0, path0) && stack0 != []
    requires stack0[|stack0| - 1].idx + 1 <= stack0[|stack0| - 1].page.NumCells()
    ensures OnPath(pages, stack, path) && AtLeaf(stack, path) && Remaining(stack, path) == Pending(stack0, path0)
    ensures Work(stack, path) <= Work(stack0, path0)
  {
    var n := |stack0| - 1;
    var top := stack0[n];
    AdvancePath(pages, stack0, path0);
    Advance(pages, stack0, path0);
    ChildRoot(pages, top, path0[n], top.idx + 1);
    stack := stack0[..n] + [top.(idx := top.idx + 1)];
    stack, path := DescendLeft(pages, stack, top.page.children[top.idx + 1], path0, path0[n].kids[top.idx + 1]);
  }

  lemma {:induction false} ChildRoot(pages: map<nat, Page>, f: Frame, t: Tree, i: nat)
    requires Framed(pages, f, t) && t.TNode? && i < |t.kids|
    ensures f.page.Interior? && i < |f.page.children| && f.page.children[i] == t.kids[i].pg
  {
  }

  /** Walk up to the next child in tree order and down to its left-most leaf. */
  method NextLeaf(pages: map<nat, Page>, stack0: seq<Frame>, ghost path0: seq<Tree>)
    returns (stack: seq<Frame>, ghost path: seq<Tree>, descended: bool)
    requires OnPath(pages, stack0, path0) && Inside(stack0, path0)
    ensures descended ==>
              OnPath(pages, stack, path) && AtLeaf(stack, path) && Remaining(stack, path) == Pending(stack0, path0)
    ensures descended ==> Work(stack, path) <= Work(stack0, path0)
    ensures !descended ==> stack == [] && path == [] && Pending(stack0, path0) == []
  {
    stack, path := stack0, path0;
    while |stack| > 0
      invariant OnPath(pages, stack, path) && Inside(stack, path)
      invariant Pending(stack, path) == Pending(stack0, path0) && Work(stack, path) <= Work(stack0, path0)
      decreases |stack|
    {
      var n := |stack| - 1;
      if stack[n].idx + 1 <= stack[n].page.NumCells() {
        stack, path := NextChild(pages, stack, path);
        return stack, path, true;
      }
      Finished(pages, stack, path);
      stack, path := stack[..n], path[..n];
    }
    descended := false;
  }

  /** Make the top of the stack a leaf at a real cell, passing exhausted and empty leaves in tree
      order; nothing of what is to come is lost. */
  method Settle(pages: map<nat, Page>, stack0: seq<Frame>, ghost path0: seq<Tree>)
    returns (stack: seq<Frame>, ghost path: seq<Tree>, found: bool)
    requires OnPath(pages, stack0, path0) && (stack0 == [] || AtLeaf(stack0, path0))
    ensures OnPath(pages, stack, path) && Remaining(stack, path) == Remaining(stack0, path0)
    ensures found ==> OnCell(stack, path)
    ensures found <==> Remaining(stack0, path0) != []
  {
    stack, path := stack0, path0;
    while true
      invariant OnPath(pages, stack, path) && (stack == [] || AtLeaf(stack, path))
      invariant Remaining(stack, path) == Remaining(stack0, path0)
      decreases Work(stack, path)
    {
      if |stack| == 0 {
        return stack, path, false;
      }
      var n := |stack| - 1;
      assert Framed(pages, stack[n], path[n]);
      Pop(pages, stack, path);
      if stack[n].idx < stack[n].page.NumCells() {
        return stack, path, true;
      }
      assert LeafRows(stack[n], path[n]) == [];
      var descended;
      stack, path, descended := NextLeaf(pages, stack[..n], path[..n]);
      if !descended {
        return stack, path, false;
      }
    }
  }

  // ----- Seeking a rowid

  ghost predicate InRowidOrder(s: seq<Row>) {
    forall i, j :: 0 <= i < j < |s| ==> s[i].rowid < s[j].rowid
  }

  /** Every key separates: rows of the children up to it are not above it, rows after it are. */
  ghost predicate Separated(t: Tree)
    decreases t
  {
    t.TNode? ==>
      && |t.kids| == |t.keys| + 1
      && (forall i :: 0 <= i < |t.kids| ==> Separated(t.kids[i]))
      && (forall i :: 0 <= i < |t.keys| ==> KeySplits(t, i))
  }

  ghost predicate KeySplits(t: Tree, i: nat)
    requires t.TNode? && |t.kids| == |t.keys| + 1 && i < |t.keys|
  {
    NotAbove(RowsF(t.kids[..i + 1]), t.keys[i]) && Above(RowsF(t.kids[i + 1..]), t.keys[i])
  }

  ghost predicate NotAbove(s: seq<Row>, key: int) {
    forall i :: 0 <= i < |s| ==> s[i].rowid <= key
  }

  ghost predicate Above(s: seq<Row>, key: int) {
    forall i :: 0 <= i < |s| ==> s[i].rowid > key
  }

  ghost predicate Below(s: seq<Row>, target: int) {
    forall i :: 0 <= i < |s| ==> s[i].rowid < target
  }

  ghost function FromRowid(s: seq<Row>, target: int): seq<Row> {
    if s == [] || s[0].rowid >= target then s else FromRowid(s[1..], target)
  }

  lemma {:induction false} FromSkips(a: seq<Row>, b: seq<Row>, target: int)
    requires Below(a, target)
    ensures FromRowid(a + b, target) == FromRowid(b, target)
  {
    if a == [] {
      assert a + b == b;
    } else {
      assert (a + b)[1..] == a[1..] + b;
      FromSkips(a[1..], b, target);
    }
  }

  lemma {:induction false} RowsCat(a: seq<Tree>, b: seq<Tree>)
    ensures RowsF(a + b) == RowsF(a) + RowsF(b)
    decreases |a|
  {
    if a == [] {
      assert a + b == b;
    } else {
      assert (a + b)[1..] == a[1..] + b;
      RowsCat(a[1..], b);
    }
  }

  /** On the way down to a rowid: what was passed is below it, what is pending is above it. */
  ghost predicate Seeking(pages: map<nat, Page>, stack: seq<Frame>, path: seq<Tree>, t: Tree, all: seq<Row>,
                          target: int) {
    && Represents(pages, t) && Separated(t)
    && OnPath(pages, stack, path) && Inside(stack, path)
    && FromRowid(all, target) == FromRowid(Rows(t) + Pending(stack, path), target)
    && Above(Pending(stack, path), target)
  }

  // The child chosen by the keys: left of it everything is below the target, right of it above.
  ghost predicate Chosen(t: Tree, i: nat, target: int) {
    && t.TNode? && i < |t.kids| && |t.kids| == |t.keys| + 1
    && (i > 0 ==> t.keys[i - 1] < target)
    && (i < |t.keys| ==> target <= t.keys[i])
  }

  lemma {:induction false} ChosenSplits(t: Tree, i: nat, target: int)
    requires Separated(t) && Chosen(t, i, target)
    ensures Rows(t) == RowsF(t.kids[..i]) + Rows(t.kids[i]) + RowsF(t.kids[i + 1..])
    ensures Below(RowsF(t.kids[..i]), target) && Above(RowsF(t.kids[i + 1..]), target)
  {
    RowsAround(t.kids, i);
    if i > 0 {
      assert KeySplits(t, i - 1);
      assert t.kids[..i - 1 + 1] == t.kids[..i];
    }
    if i < |t.keys| {
      assert KeySplits(t, i);
    } else {
      assert t.kids[i + 1..] == [];
    }
  }

  lemma {:induction false} RowsAround(kids: seq<Tree>, i: nat)
    requires i < |kids|
    ensures RowsF(kids) == RowsF(kids[..i]) + Rows(kids[i]) + RowsF(kids[i + 1..])
  {
    assert kids == kids[..i] + kids[i..];
    RowsCat(kids[..i], kids[i..]);
    assert kids[i..][0] == kids[i] && kids[i..][1..] == kids[i + 1..];
    Assoc(RowsF(kids[..i]), Rows(kids[i]), RowsF(kids[i + 1..]));
  }

  lemma {:induction false} SeekStep(pages: map<nat, Page>, stack: seq<Frame>, path: seq<Tree>, t: Tree, all: seq<Row>,
                                    target: int, i: nat)
    requires Seeking(pages, stack, path, t, all, target) && Chosen(t, i, target)
    ensures Seeking(pages, stack + [Frame(pages[t.pg], i)], path + [t], t.kids[i], all, target)
  {
    var f := Frame(pages[t.pg], i);
    PushPath(pages, stack, path, f, t);
    ChosenSplits(t, i, target);
    Push(stack, path, f, t);
    SkipAndRegroup(RowsF(t.kids[..i]), Rows(t.kids[i]), RowsF(t.kids[i + 1..]), Pending(stack, path), target);
    assert AfterRows(f, t) == RowsF(t.kids[i + 1..]);
  }

  lemma {:induction false} SkipAndRegroup(a: seq<Row>, m: seq<Row>, b: seq<Row>, p: seq<Row>, target: int)
    requires Below(a, target) && Above(b, target) && Above(p, target)
    ensures FromRowid(a + m + b + p, target) == FromRowid(m + (b + p), target) && Above(b + p, target)
  {
    FromSkips(a, m + (b + p), target);
    assert a + m + b + p == a + (m + (b + p));
  }

  lemma {:induction false} FromIndex(s: seq<Row>, rest: seq<Row>, i: nat, target: int)
    requires i <= |s| && Below(s[..i], target) && (i < |s| ==> s[i].rowid >= target) && Above(rest, target)
    ensures FromRowid(s + rest, target) == s[i..] + rest
  {
    FromSkips(s[..i], s[i..] + rest, target);
    assert s + rest == s[..i] + (s[i..] + rest);
  }

  lemma {:induction false} Landed(pages: map<nat, Page>, stack: seq<Frame>, path: seq<Tree>, t: Tree, all: seq<Row>,
                                  target: int, idx: nat)
    requires Seeking(pages, stack, path, t, all, target) && t.TLeaf?
    requires idx <= |t.cells| && Below(t.cells[..idx], target) && (idx < |t.cells| ==> t.cells[idx].rowid >= target)
    ensures var stack', path' := stack + [Frame(pages[t.pg], idx)], path + [t];
            && OnPath(pages, stack', path') && AtLeaf(stack', path')
            && Remaining(stack', path') == FromRowid(all, target) == t.cells[idx..] + Pending(stack, path)
            && Above(Pending(stack, path), target)
  {
    FromIndex(t.cells, Pending(stack, path), idx, target);
    Push(stack, path, Frame(pages[t.pg], idx), t);
    PushPath(pages, stack, path, Frame(pages[t.pg], idx), t);
  }

  // The first key that is not below the target.
  method ChooseChild(keys: seq<int>, target: int) returns (i: nat)
    ensures i <= |keys| && (i > 0 ==> keys[i - 1] < target) && (i < |keys| ==> target <= keys[i])
  {
    i := 0;
    while i < |keys| && target > keys[i]
      invariant 0 <= i <= |keys|
      invariant i > 0 ==> keys[i - 1] < target
    {
      i := i + 1;
    }
  }

  // The first cell that is not below the target.
  method FindCell(cells: seq<Row>, target: int) returns (idx: nat)
    ensures idx <= |cells| && Below(cells[..idx], target) && (idx < |cells| ==> cells[idx].rowid >= target)
  {
    idx := 0;
    while idx < |cells| && cells[idx].rowid < target
      invariant 0 <= idx <= |cells| && Below(cells[..idx], target)
    {
      idx := idx + 1;
    }
  }

  // Descend to the leaf that a rowid belongs on.
  method SeekDown(pages: map<nat, Page>, root: nat, target: int, ghost tree: Tree)
    returns (stack: seq<Frame>, pg: nat, ghost path: seq<Tree>, ghost t: Tree)
    requires Represents(pages, tree) && tree.pg == root && Separated(tree)
    ensures Seeking(pages, stack, path, t, Rows(tree), target) && t.TLeaf? && t.pg == pg
  {
    stack, path, pg, t := [], [], root, tree;
    assert Rows(tree) + [] == Rows(tree);
    while pages[pg].Interior?
      invariant Seeking(pages, stack, path, t, Rows(tree), target) && t.pg == pg
      decreases t
    {
      var page := pages[pg];
      var i := ChooseChild(page.keys, target);
      SeekStep(pages, stack, path, t, Rows(tree), target, i);
      stack, path := stack + [Frame(page, i)], path + [t];
      pg, t := page.children[i], t.kids[i];
    }
  }

  /** Descend to the leaf that a rowid belongs on, and to its place there. */
  method SeekLeaf(pages: map<nat, Page>, root: nat, target: int, ghost tree: Tree)
    returns (stack: seq<Frame>, ghost path: seq<Tree>, exact: bool, pastEnd: bool)
    requires Represents(pages, tree) && tree.pg == root && Separated(tree)
    ensures OnPath(pages, stack, path) && AtLeaf(stack, path)
    ensures pastEnd <==> !OnCell(stack, path)
    ensures Remaining(stack, path) == FromRowid(Rows(tree), target)
    ensures exact ==> !pastEnd
    ensures exact <==> Remaining(stack, path) != [] && Remaining(stack, path)[0].rowid == target
  {
    var pg;
    ghost var t;
    stack, pg, path, t := SeekDown(pages, root, target, tree);
    var page := pages[pg];
    var idx := FindCell(page.cells, target);
    Landed(pages, stack, path, t, Rows(tree), target, idx);
    LandedExact(page.cells, idx, Pending(stack, path), target);
    exact := idx < |page.cells| && page.cells[idx].rowid == target;
    pastEnd := idx >= |page.cells|;
    stack, path := stack + [Frame(page, idx)], path + [t];
  }

  lemma {:induction false} LandedExact(cells: seq<Row>, idx: nat, rest: seq<Row>, target: int)
    requires idx <= |cells| && Above(rest, target)
    ensures var r := cells[idx..] + rest;
            (idx < |cells| && cells[idx].rowid == target) || idx == |cells|
            ==> (idx < |cells| <==> r != [] && r[0].rowid == target)
    ensures idx < |cells| ==> (cells[idx..] + rest) != [] && (cells[idx..] + rest)[0] == cells[idx]
  {
  }

  ghost function NotBelow(s: seq<Row>, target: int): seq<Row> {
    if s == [] then [] else (if s[0].rowid >= target then [s[0]] else []) + NotBelow(s[1..], target)
  }

  lemma {:induction false} AllNotBelow(s: seq<Row>, target: int)
    requires forall i :: 0 <= i < |s| ==> s[i].rowid >= target
    ensures NotBelow(s, target) == s
  {
    if s != [] {
      AllNotBelow(s[1..], target);
    }
  }

  /** On rows in order, what is left from the target on is exactly the rows not below it. */
  lemma {:induction false} FromRowidMeaning(s: seq<Row>, target: int)
    requires InRowidOrder(s)
    ensures FromRowid(s, target) == NotBelow(s, target)
  {
    if s != [] {
      if s[0].rowid >= target {
        AllNotBelow(s, target);
      } else {
        FromRowidMeaning(s[1..], target);
      }
    }
  }

  // ----- The cursor

  class Cursor {
    const pages: map<nat, Page>
    const root: nat
    ghost const tree: Tree
    var stack: seq<Frame>
    var exhausted: bool
    ghost var path: seq<Tree>

    ghost predicate Valid()
      reads this
    {
      && Represents(pages, tree) && tree.pg == root
      && OnPath(pages, stack, path)
      && (!exhausted ==> OnCell(stack, path))
    }

    /** The rows the cursor has yet to deliver, the current one first. */
    ghost function ToCome(): seq<Row>
      requires Valid()
      reads this
    {
      if exhausted then [] else Remaining(stack, path)
    }

    constructor (pages: map<nat, Page>, root: nat, ghost tree: Tree)
      requires Represents(pages, tree) && tree.pg == root
      ensures Valid() && this.pages == pages && this.root == root && this.tree == tree && ToCome() == []
    {
      this.pages, this.root, this.tree := pages, root, tree;
      stack, path, exhausted := [], [], true;
    }

    /** The row at the cursor. */
    method Current() returns (row: Row)
      requires Valid() && !exhausted
      ensures ToCome() != [] && row == ToCome()[0]
    {
      var top := stack[|stack| - 1];
      assert Framed(pages, top, path[|path| - 1]);
      Pop(pages, stack, path);
      row := top.page.cells[top.idx];
    }

    method First() returns (b: bool)
      requires Valid()
      modifies this
      ensures Valid() && ToCome() == Rows(tree) && (b <==> Rows(tree) != [])
    {
      stack, path := [], [];
      exhausted := false;
      stack, path := DescendLeft(pages, [], root, [], tree);
      b := SettleHere();
    }

    /** Position on the last cell of the right-most leaf, or report an empty table if that leaf is
        empty. */
    method Last() returns (b: bool)
      requires Valid()
      modifies this
      ensures Valid() && b == (RightLeaf(tree) != [])
      ensures tree.TLeaf? || Filled(tree) ==> (b <==> Rows(tree) != [])
      ensures b ==> Rows(tree) != [] && ToCome() == [Rows(tree)[|Rows(tree)| - 1]]
      ensures !b ==> ToCome() == []
    {
      if tree.TLeaf? || Filled(tree) {
        LastIsRight(tree);
      }
      stack, path := DescendRight(pages, root, tree);
      b := SettleLast();
    }

    // Settle on the last cell of the right-most leaf.
    method SettleLast() returns (b: bool)
      requires Represents(pages, tree) && tree.pg == root && OnPath(pages, stack, path) && AtLeaf(stack, path)
      requires path[|path| - 1].cells == RightLeaf(tree) && Pending(stack[..|stack| - 1], path[..|path| - 1]) == []
      modifies this
      ensures Valid() && b == (RightLeaf(tree) != [])
      ensures b ==> Rows(tree) != [] && ToCome() == [Rows(tree)[|Rows(tree)| - 1]]
      ensures !b ==> ToCome() == []
    {
      var n := |stack| - 1;
      assert Framed(pages, stack[n], path[n]);
      var page := stack[n].page;
      if page.NumCells() == 0 {
        exhausted := true;
        return false;
      }
      RightLeafIsLast(tree);
      LastLanding(pages, stack, path, page.cells, Rows(tree));
      stack, exhausted, b := Moved(stack, |page.cells| - 1), false, true;
    }

    // Settle the fields.
    method SettleHere() returns (b: bool)
      requires Represents(pages, tree) && tree.pg == root && OnPath(pages, stack, path) && AtLeaf(stack, path)
      requires !exhausted
      modifies this
      ensures Valid() && ToCome() == old(Remaining(stack, path)) && (b <==> ToCome() != []) && b == !exhausted
    {
      stack, path, b := Settle(pages, stack, path);
      if !b {
        exhausted := true;
      }
    }

    /** Step to the next row; at the end the cursor stays at the end. */
    method Next() returns (b: bool)
      requires Valid()
      modifies this
      ensures Valid() && (b <==> ToCome() != [])
      ensures ToCome() == if old(ToCome()) == [] then [] else old(ToCome())[1..]
    {
      if exhausted {
        return false;
      }
      StepRight(stack, path);
      MoveTopPath(pages, stack, path, stack[|stack| - 1].idx + 1);
      stack := Moved(stack, stack[|stack| - 1].idx + 1);
      b := SettleHere();
    }

    // Behind the last cell of a leaf: on to the next row.
    method StepOff()
      requires Represents(pages, tree) && tree.pg == root && OnPath(pages, stack, path) && AtLeaf(stack, path)
      requires !exhausted && !OnCell(stack, path)
      modifies this
      ensures Valid() && ToCome() == old(Remaining(stack, path))
    {
      StepOffEnd(stack, path);
      MoveTopPath(pages, stack, path, stack[|stack| - 1].idx + 1);
      stack := Moved(stack, stack[|stack| - 1].idx + 1);
      var _ := SettleHere();
    }

    // Position at the first row, in tree order, that is not below the target.
    method SeekInTree(target: int) returns (exact: bool)
      requires Valid() && Separated(tree)
      modifies this
      ensures Valid() && ToCome() == FromRowid(Rows(tree), target)
      ensures exact <==> ToCome() != [] && ToCome()[0].rowid == target
    {
      var s, pastEnd;
      ghost var p;
      s, p, exact, pastEnd := SeekLeaf(pages, root, target, tree);
      stack, path, exhausted := s, p, false;
      if pastEnd {
        StepOff();
      }
    }

    /** Position at the smallest rowid not below the target; the result says whether it is the target. */
    method Seek(target: int) returns (exact: bool)
      requires Valid() && Separated(tree) && InRowidOrder(Rows(tree))
      modifies this
      ensures Valid() && ToCome() == NotBelow(Rows(tree), target)
      ensures exact <==> ToCome() != [] && ToCome()[0].rowid == target
    {
      FromRowidMeaning(Rows(tree), target);
      exact := SeekInTree(target);
    }
  }

  // ----- The right edge

  /** The cells of the right-most leaf. */
  ghost function RightLeaf(t: Tree): seq<Row>
    decreases t
  {
    match t
    case TLeaf(_, cells) => cells
    case TNode(_, kids, _) => if kids == [] then [] else RightLeaf(kids[|kids| - 1])
  }

  lemma {:induction false} RightLeafIsLast(t: Tree)
    ensures |RightLeaf(t)| <= |Rows(t)| && Rows(t)[|Rows(t)| - |RightLeaf(t)|..] == RightLeaf(t)
    decreases t
  {
    if t.TNode? && t.kids != [] {
      var n := |t.kids| - 1;
      RightLeafIsLast(t.kids[n]);
      assert t.kids == t.kids[..n] + [t.kids[n]];
      RowsCat(t.kids[..n], [t.kids[n]]);
      assert RowsF([t.kids[n]]) == Rows(t.kids[n]);
    }
  }

  /** No leaf is empty. */
  ghost predicate Filled(t: Tree)
    decreases t
  {
    match t
    case TLeaf(_, cells) => cells != []
    case TNode(_, kids, _) => kids != [] && forall i :: 0 <= i < |kids| ==> Filled(kids[i])
  }

  lemma {:induction false} FilledRight(t: Tree)
    requires Filled(t)
    ensures RightLeaf(t) != []
    decreases t
  {
    if t.TNode? {
      FilledRight(t.kids[|t.kids| - 1]);
    }
  }

  /** The right-most leaf tells whether there are rows, if no leaf is empty or there is only one. */
  lemma {:induction false} LastIsRight(t: Tree)
    requires t.TLeaf? || Filled(t)
    ensures RightLeaf(t) != [] <==> Rows(t) != []
  {
    RightLeafIsLast(t);
    if !t.TLeaf? {
      FilledRight(t);
    }
  }

  ghost function Emptied(): Tree {
    TNode(1, [TLeaf(2, [Row(1, [])]), TLeaf(3, [])], [1])
  }

  lemma {:induction false} EmptiedRows(pages: map<nat, Page>)
    requires pages == map[1 := Interior([2, 3], [1]), 2 := Leaf([Row(1, [])]), 3 := Leaf([])]
    ensures Represents(pages, Emptied()) && Separated(Emptied()) && Rows(Emptied()) == [Row(1, [])]
    ensures RightLeaf(Emptied()) == []
  {
    var left, right := TLeaf(2, [Row(1, [])]), TLeaf(3, []);
    var t := TNode(1, [left, right], [1]);
    assert Roots(t.kids) == [2, 3];
    assert t.kids[..1] == [left] && t.kids[1..] == [right] && [right][1..] == [] && [left][1..] == [];
    assert Rows(left) == [Row(1, [])] && Rows(right) == [] && RightLeaf(right) == [];
    assert RowsF([]) == [];
    assert RowsF([right]) == Rows(right) + RowsF([]) == [];
    assert RowsF([left]) == Rows(left) + RowsF([]) == [Row(1, [])];
    assert RowsF([left, right]) == Rows(left) + RowsF([right]);
    assert KeySplits(t, 0);
    assert Represents(pages, left) && Represents(pages, right);
    assert Separated(left) && Separated(right);
    assert RightLeaf(t) == RightLeaf(t.kids[1]);
    assert Represents(pages, t) && Separated(t) && Rows(t) != [] && RightLeaf(t) == [];
  }

  /** `Last` is not right for every tree: an emptied right-most leaf hides the row before it. */
  method LastMissesRow() returns (found: bool, c: Cursor)
    ensures c.Valid() && Separated(c.tree) && Rows(c.tree) == [Row(1, [])] && !found
  {
    var pages := map[1 := Interior([2, 3], [1]), 2 := Leaf([Row(1, [])]), 3 := Leaf([])];
    EmptiedRows(pages);
    c := new Cursor(pages, 1, Emptied());
    found := c.Last();
  }

  // On the way down the right edge nothing is pending.
  ghost predicate RightEdge(pages: map<nat, Page>, stack: seq<Frame>, path: seq<Tree>, t: Tree, tree: Tree) {
    && Represents(pages, t) && OnPath(pages, stack, path) && Inside(stack, path)
    && Pending(stack, path) == [] && RightLeaf(t) == RightLeaf(tree)
  }

  lemma {:induction false} RightStep(pages: map<nat, Page>, stack: seq<Frame>, path: seq<Tree>, t: Tree, tree: Tree)
    requires RightEdge(pages, stack, path, t, tree) && t.TNode?
    ensures RightEdge(pages, stack + [Frame(pages[t.pg], |t.keys|)], path + [t], t.kids[|t.keys|], tree)
  {
    var f := Frame(pages[t.pg], |t.keys|);
    Push(stack, path, f, t);
    PushPath(pages, stack, path, f, t);
    assert t.kids[f.idx + 1..] == [];
  }

  method DescendRight(pages: map<nat, Page>, root: nat, ghost tree: Tree)
    returns (stack: seq<Frame>, ghost path: seq<Tree>)
    requires Represents(pages, tree) && tree.pg == root
    ensures OnPath(pages, stack, path) && AtLeaf(stack, path) && path[|path| - 1].cells == RightLeaf(tree)
    ensures Pending(stack[..|stack| - 1], path[..|path| - 1]) == []
  {
    stack, path := [], [];
    var pg := root;
    ghost var t := tree;
    while pages[pg].Interior?
      invariant RightEdge(pages, stack, path, t, tree) && t.pg == pg
      decreases t
    {
      var nc := |pages[pg].keys|;
      RightStep(pages, stack, path, t, tree);
      stack, path := stack + [Frame(pages[pg], nc)], path + [t];
      pg, t := pages[pg].children[nc], t.kids[nc];
    }
    PushPath(pages, stack, path, Frame(pages[pg], 0), t);
    assert (stack + [Frame(pages[pg], 0)])[..|stack|] == stack && (path + [t])[..|path|] == path;
    stack, path := stack + [Frame(pages[pg], 0)], path + [t];
  }

  // Moving within the leaf on top.
  function Moved(stack: seq<Frame>, idx: nat): (r: seq<Frame>)
    requires stack != []
    ensures |r| == |stack|
  {
    stack[..|stack| - 1] + [stack[|stack| - 1].(idx := idx)]
  }

  lemma {:induction false} MovedSlices(stack: seq<Frame>, idx: nat)
    requires stack != []
    ensures var n, s := |stack| - 1, Moved(stack, idx); s[..n] == stack[..n] && s[n] == stack[n].(idx := idx)
  {
  }

  lemma {:induction false} MoveTopPath(pages: map<nat, Page>, stack: seq<Frame>, path: seq<Tree>, idx: nat)
    requires OnPath(pages, stack, path) && AtLeaf(stack, path)
    ensures OnPath(pages, Moved(stack, idx), path) && AtLeaf(Moved(stack, idx), path)
  {
    var s := Moved(stack, idx);
    forall i | 0 <= i < |s|
      ensures Framed(pages, s[i], path[i])
    {
      assert Framed(pages, stack[i], path[i]);
    }
  }

  lemma {:induction false} MoveTopRows(stack: seq<Frame>, path: seq<Tree>, idx: nat)
    requires |stack| == |path| && stack != []
    ensures var n := |stack| - 1;
            && Remaining(Moved(stack, idx), path) == LeafFrom(path[n], idx) + Pending(stack[..n], path[..n])
            && Remaining(stack, path) == LeafFrom(path[n], stack[n].idx) + Pending(stack[..n], path[..n])
  {
    MovedSlices(stack, idx);
    PopSums(stack, path);
    PopSums(Moved(stack, idx), path);
  }

  // From the start of a leaf with nothing pending, to its last row.
  lemma {:induction false} ToLastCell(stack: seq<Frame>, path: seq<Tree>, rows: seq<Row>)
    requires |stack| == |path| && AtLeaf(stack, path)
    requires Pending(stack[..|stack| - 1], path[..|path| - 1]) == []
    requires var leaf := path[|path| - 1].cells; leaf != [] && |leaf| <= |rows| && rows[|rows| - |leaf|..] == leaf
    ensures Remaining(Moved(stack, |path[|path| - 1].cells| - 1), path) == [rows[|rows| - 1]]
  {
    var leaf := path[|path| - 1].cells;
    MoveTopRows(stack, path, |leaf| - 1);
    LastOfTail(rows, leaf);
  }

  // On the last cell of the right-most leaf.
  lemma {:induction false} LastLanding(pages: map<nat, Page>, stack: seq<Frame>, path: seq<Tree>, leaf: seq<Row>,
                                       rows: seq<Row>)
    requires OnPath(pages, stack, path) && AtLeaf(stack, path) && leaf != []
    requires path[|path| - 1].cells == leaf && Pending(stack[..|stack| - 1], path[..|path| - 1]) == []
    requires |leaf| <= |rows| && rows[|rows| - |leaf|..] == leaf
    ensures var now := Moved(stack, |leaf| - 1);
            OnPath(pages, now, path) && OnCell(now, path) && Remaining(now, path) == [rows[|rows| - 1]]
  {
    ToLastCell(stack, path, rows);
    MoveTopPath(pages, stack, path, |leaf| - 1);
    MovedTop(stack, |leaf| - 1);
  }

  lemma {:induction false} MovedTop(stack: seq<Frame>, idx: nat)
    requires stack != []
    ensures Moved(stack, idx)[|stack| - 1] == stack[|stack| - 1].(idx := idx)
  {
  }

  lemma {:induction false} LastOfTail(rows: seq<Row>, tail: seq<Row>)
    requires tail != [] && |tail| <= |rows| && rows[|rows| - |tail|..] == tail
    ensures tail[|tail| - 1..] + [] == [rows[|rows| - 1]]
  {
    assert tail[|tail| - 1] == rows[|rows| - |tail|..][|tail| - 1];
  }

  lemma {:induction false} DropFirst(a: seq<Row>, b: seq<Row>)
    requires a != []
    ensures a + b != [] && (a + b)[1..] == a[1..] + b
  {
  }

  // Leaving the current cell.
  lemma {:induction false} StepRight(stack: seq<Frame>, path: seq<Tree>)
    requires |stack| == |path| && OnCell(stack, path)
    ensures Remaining(stack, path) != []
    ensures Remaining(Moved(stack, stack[|stack| - 1].idx + 1), path) == Remaining(stack, path)[1..]
  {
    var n := |stack| - 1;
    var i := stack[n].idx;
    MoveTopRows(stack, path, i + 1);
    assert LeafFrom(path[n], i + 1) == LeafFrom(path[n], i)[1..];
    DropFirst(LeafFrom(path[n], i), Pending(stack[..n], path[..n]));
  }

  lemma {:induction false} StepOffEnd(stack: seq<Frame>, path: seq<Tree>)
    requires |stack| == |path| && AtLeaf(stack, path) && !OnCell(stack, path)
    ensures Remaining(Moved(stack, stack[|stack| - 1].idx + 1), path) == Remaining(stack, path)
  {
    var n := |stack| - 1;
    MoveTopRows(stack, path, stack[n].idx + 1);
    NoLeafRows(path[n], stack[n].idx);
    NoLeafRows(path[n], stack[n].idx + 1);
  }

  lemma {:induction false} NoLeafRows(t: Tree, idx: nat)
    requires t.TLeaf? && idx >= |t.cells|
    ensures LeafFrom(t, idx) == []
  {
  }

  /** A full pass: every row of the table once, in tree order, whatever leaves are empty. */
  method CollectAll(pages: map<nat, Page>, root: nat, ghost tree: Tree) returns (rows: seq<Row>)
    requires Represents(pages, tree) && tree.pg == root
    ensures rows == Rows(tree)
  {
    var cursor := new Cursor(pages, root, tree);
    rows := [];
    var more := cursor.First();
    while more
      invariant cursor.Valid() && fresh(cursor) && cursor.tree == tree
      invariant rows + cursor.ToCome() == Rows(tree) && (more <==> cursor.ToCome() != [])
      decreases |cursor.ToCome()|
    {
      var row := cursor.Current();
      TakeFirst(rows, cursor.ToCome());
      rows := rows + [row];
      more := cursor.Next();
    }
    assert rows + [] == rows;
  }

  lemma {:induction false} TakeFirst(rows: seq<Row>, more: seq<Row>)
    requires more != []
    ensures (rows + [more[0]]) + more[1..] == rows + more
  {
  }
}
