/** The index cursor: an in-order walk that yields the entries of interior pages between those of
    their children. */
module IndexCursor {
  import opened Bytes
  import opened IndexTree

  /** A page on the stack and the next step on it. On a leaf, step `i` yields cell `i`; on an interior
      page, step `2k` descends into child `k` and step `2k + 1` yields cell `k`. */
  datatype Frame = Frame(page: Node, step: nat)

  // ----- What a frame has yet to yield

  ghost predicate Framed(pages: map<nat, Node>, f: Frame, t: Tree) {
    && Represents(pages, t) && f.page == pages[t.pg]
    && Linked(t)
    && f.step <= if t.TLeaf? then |t.entries| else 2 * |t.divs| + 1
  }

  ghost function Yields(f: Frame, t: Tree): seq<Entry> {
    match t
    case TLeaf(_, entries) => if f.step <= |entries| then entries[f.step..] else []
    case TNode(_, kids, divs) =>
      var k := f.step / 2;
      if k > |divs| || k >= |kids| then []
      else if f.step % 2 == 0 then FlatF(kids[k..], divs[k..])
      else if k < |divs| then [divs[k]] + FlatF(kids[k + 1..], divs[k + 1..])
      else []
  }

  // Steps on a page and below it.
  ghost function Cost(t: Tree): nat
    decreases t
  {
    match t
    case TLeaf(_, entries) => 1 + |entries|
    case TNode(_, kids, divs) => 2 * |divs| + 2 + CostF(kids)
  }

  ghost function CostF(kids: seq<Tree>): nat
    decreases kids
  {
    if kids == [] then 0 else Cost(kids[0]) + CostF(kids[1..])
  }

  ghost function Todo(f: Frame, t: Tree): int {
    match t
    case TLeaf(_, entries) => 1 + |entries| - f.step
    case TNode(_, kids, divs) =>
      var next := (f.step + 1) / 2;
      2 * |divs| + 2 - f.step + if next <= |kids| then CostF(kids[next..]) else 0
  }

  lemma {:induction false} FramedTodo(pages: map<nat, Node>, f: Frame, t: Tree)
    requires Framed(pages, f, t)
    ensures Todo(f, t) > 0
  {
  }

  ghost function YieldsAll(stack: seq<Frame>, path: seq<Tree>): seq<Entry>
    requires |stack| == |path|
  {
    if stack == [] then []
    else Yields(stack[|stack| - 1], path[|path| - 1]) + YieldsAll(stack[..|stack| - 1], path[..|path| - 1])
  }

  ghost function TodoAll(stack: seq<Frame>, path: seq<Tree>): int
    requires |stack| == |path|
  {
    if stack == [] then 0
    else Todo(stack[|stack| - 1], path[|path| - 1]) + TodoAll(stack[..|stack| - 1], path[..|path| - 1])
  }

  ghost predicate AllFramed(pages: map<nat, Node>, stack: seq<Frame>, path: seq<Tree>) {
    |stack| == |path| && forall i :: 0 <= i < |stack| ==> Framed(pages, stack[i], path[i])
  }

  lemma {:induction false} TodoAllNatural(pages: map<nat, Node>, stack: seq<Frame>, path: seq<Tree>)
    requires AllFramed(pages, stack, path)
    ensures TodoAll(stack, path) >= 0
  {
    if stack != [] {
      var n := |stack| - 1;
      FramedTodo(pages, stack[n], path[n]);
      TodoAllNatural(pages, stack[..n], path[..n]);
    }
  }

  lemma {:induction false} Pushed(stack: seq<Frame>, path: seq<Tree>, f: Frame, t: Tree)
    requires |stack| == |path|
    ensures YieldsAll(stack + [f], path + [t]) == Yields(f, t) + YieldsAll(stack, path)
    ensures TodoAll(stack + [f], path + [t]) == Todo(f, t) + TodoAll(stack, path)
  {
    var n := |stack|;
    assert (stack + [f])[..n] == stack && (path + [t])[..n] == path;
  }

  lemma {:induction false} LastSplit<T>(s: seq<T>)
    requires s != []
    ensures s == s[..|s| - 1] + [s[|s| - 1]]
  {
  }

  // Replacing the top frame.
  lemma {:induction false} Replaced(stack: seq<Frame>, path: seq<Tree>, f: Frame)
    requires |stack| == |path| > 0
    ensures var n := |stack| - 1;
            && YieldsAll(stack, path) == Yields(stack[n], path[n]) + YieldsAll(stack[..n], path[..n])
            && TodoAll(stack, path) == Todo(stack[n], path[n]) + TodoAll(stack[..n], path[..n])
            && YieldsAll(stack[..n] + [f], path) == Yields(f, path[n]) + YieldsAll(stack[..n], path[..n])
            && TodoAll(stack[..n] + [f], path) == Todo(f, path[n]) + TodoAll(stack[..n], path[..n])
  {
    var n := |stack| - 1;
    LastSplit(path);
    Pushed(stack[..n], path[..n], f, path[n]);
  }

  // Descending into child `k` at step `2k`.
  lemma {:induction false} StepDescends(pages: map<nat, Node>, f: Frame, t: Tree, k: nat)
    requires Framed(pages, f, t) && t.TNode? && f.step == 2 * k && k <= |t.divs|
    ensures var f' := f.(step := f.step + 1);
            && Represents(pages, t.kids[k]) && Linked(t.kids[k]) && Roots(t.kids)[k] == t.kids[k].pg
            && Framed(pages, f', t) && Framed(pages, Frame(pages[t.kids[k].pg], 0), t.kids[k])
            && Yields(f, t) == Flat(t.kids[k]) + Yields(f', t)
            && Todo(f, t) == 1 + Cost(t.kids[k]) + Todo(f', t)
  {
    assert Linked(t.kids[k]);
    assert RepresentsF(pages, t.kids);
    assert t.kids[k..][1..] == t.kids[k + 1..];
    if k < |t.divs| {
      assert t.divs[k..][1..] == t.divs[k + 1..];
    }
  }

  // Yielding cell `k` at step `2k + 1`.
  lemma {:induction false} StepYields(pages: map<nat, Node>, f: Frame, t: Tree, k: nat)
    requires Framed(pages, f, t) && t.TNode? && f.step == 2 * k + 1 && k < |t.divs|
    ensures var f' := f.(step := f.step + 1);
            Framed(pages, f', t) && Yields(f, t) == [t.divs[k]] + Yields(f', t)
  {
  }

  lemma {:induction false} StartYields(pages: map<nat, Node>, t: Tree)
    requires t.pg in pages && (t.TNode? ==> |t.kids| == |t.divs| + 1)
    ensures Yields(Frame(pages[t.pg], 0), t) == Flat(t) && Todo(Frame(pages[t.pg], 0), t) == Cost(t)
  {
    if t.TNode? {
      assert t.kids[0..] == t.kids && t.divs[0..] == t.divs;
    } else {
      assert t.entries[0..] == t.entries;
    }
  }

  // A stack with the root alone yields the whole tree.
  lemma {:induction false} OneFrame(pages: map<nat, Node>, tree: Tree)
    requires Represents(pages, tree) && Linked(tree)
    ensures AllFramed(pages, [Frame(pages[tree.pg], 0)], [tree])
    ensures YieldsAll([Frame(pages[tree.pg], 0)], [tree]) == Flat(tree)
  {
    var f := Frame(pages[tree.pg], 0);
    StartYields(pages, tree);
    OneYields(f, tree);
  }

  lemma {:induction false} OneYields(f: Frame, t: Tree)
    ensures YieldsAll([f], [t]) == Yields(f, t)
  {
    Pushed([], [], f, t);
    assert [] + [f] == [f] && [] + [t] == [t];
    assert Yields(f, t) + [] == Yields(f, t);
  }

  class Cursor {
    const pages: map<nat, Node>
    const root: nat
    ghost const tree: Tree
    var stack: seq<Frame>
    var started: bool
    ghost var path: seq<Tree>

    ghost predicate Valid()
      reads this
    {
      && Represents(pages, tree) && Linked(tree) && tree.pg == root
      && AllFramed(pages, stack, path)
      && (!started ==> stack == [])
    }

    /** The entries the cursor has yet to yield. */
    ghost function ToCome(): seq<Entry>
      requires Valid()
      reads this
    {
      if started then YieldsAll(stack, path) else Flat(tree)
    }

    constructor (pages: map<nat, Node>, root: nat, ghost tree: Tree)
      requires Represents(pages, tree) && Linked(tree) && tree.pg == root
      ensures Valid() && ToCome() == Flat(tree) && this.tree == tree
    {
      this.pages, this.root, this.tree := pages, root, tree;
      stack, path, started := [], [], false;
    }

    method Start()
      requires Valid()
      modifies this
      ensures Valid() && started && ToCome() == old(ToCome())
    {
      if !started {
        started := true;
        OneFrame(pages, tree);
        stack, path := [Frame(pages[root], 0)], [tree];
      }
    }

    /** The next entry in key order, or none at the end. */
    method Next() returns (r: Option<Entry>)
      requires Valid()
      modifies this
      ensures Valid()
      ensures r == if old(ToCome()) == [] then None else Some(old(ToCome())[0])
      ensures ToCome() == if old(ToCome()) == [] then [] else old(ToCome())[1..]
    {
      Start();
      while |stack| > 0
        invariant Valid() && started && ToCome() == old(ToCome())
        decreases TodoAll(stack, path)
      {
        stack, path, r := Step(pages, stack, path);
        if r.Some? {
          return;
        }
      }
      return None;
    }
  }

  /** One step on the top frame: yield an entry, descend, or pop. */
  method Step(pages: map<nat, Node>, stack0: seq<Frame>, ghost path0: seq<Tree>)
    returns (stack: seq<Frame>, ghost path: seq<Tree>, r: Option<Entry>)
    requires AllFramed(pages, stack0, path0) && stack0 != []
    ensures AllFramed(pages, stack, path)
    ensures r.None? ==>
              YieldsAll(stack, path) == YieldsAll(stack0, path0) && 0 <= TodoAll(stack, path) < TodoAll(stack0, path0)
    ensures r.Some? ==> YieldsAll(stack0, path0) == [r.value] + YieldsAll(stack, path)
  {
    var n := |stack0| - 1;
    var top := stack0[n];
    assert Framed(pages, top, path0[n]);
    Popped(pages, stack0, path0);
    match top.page {
      case Leaf(entries) =>
        if top.step < |entries| {
          YieldFromLeaf(pages, stack0, path0);
          return stack0[..n] + [top.(step := top.step + 1)], path0, Some(entries[top.step]);
        }
        return stack0[..n], path0[..n], None;
      case Interior(children, divs) =>
        if top.step > 2 * |divs| {
          return stack0[..n], path0[..n], None;
        }
        var k := top.step / 2;
        if top.step % 2 == 0 {
          Descended(pages, stack0, path0, k);
          stack := stack0[..n] + [top.(step := top.step + 1)] + [Frame(pages[children[k]], 0)];
          path := path0 + [path0[n].kids[k]];
          TodoAllNatural(pages, stack, path);
          return stack, path, None;
        }
        YieldFromInterior(pages, stack0, path0, k);
        return stack0[..n] + [top.(step := top.step + 1)], path0, Some(divs[k]);
    }
  }

  // Regrouping what the top frame yields first with what the rest yields.
  lemma {:induction false} Regroup<T>(y: seq<T>, first: seq<T>, y': seq<T>, rest: seq<T>)
    requires y == first + y'
    ensures y + rest == first + (y' + rest)
  {
  }

  // A frame with nothing left can be popped.
  lemma {:induction false} Popped(pages: map<nat, Node>, stack: seq<Frame>, path: seq<Tree>)
    requires AllFramed(pages, stack, path) && stack != []
    ensures var n := |stack| - 1;
            && AllFramed(pages, stack[..n], path[..n])
            && YieldsAll(stack, path) == Yields(stack[n], path[n]) + YieldsAll(stack[..n], path[..n])
            && 0 <= TodoAll(stack[..n], path[..n]) < TodoAll(stack, path)
  {
    var n := |stack| - 1;
    TodoAllNatural(pages, stack[..n], path[..n]);
    FramedTodo(pages, stack[n], path[n]);
  }

  lemma {:induction false} Reframed(pages: map<nat, Node>, stack: seq<Frame>, path: seq<Tree>, f: Frame)
    requires AllFramed(pages, stack, path) && stack != [] && Framed(pages, f, path[|path| - 1])
    ensures AllFramed(pages, stack[..|stack| - 1] + [f], path)
  {
  }

  lemma {:induction false} YieldFromLeaf(pages: map<nat, Node>, stack: seq<Frame>, path: seq<Tree>)
    requires AllFramed(pages, stack, path) && stack != [] && path[|path| - 1].TLeaf?
    requires stack[|stack| - 1].step < |path[|path| - 1].entries|
    ensures var n := |stack| - 1; var f := stack[n];
            var stack' := stack[..n] + [f.(step := f.step + 1)];
            && AllFramed(pages, stack', path)
            && YieldsAll(stack, path) == [path[n].entries[f.step]] + YieldsAll(stack', path)
  {
    var n := |stack| - 1;
    var f := stack[n];
    assert Framed(pages, f, path[n]);
    var f' := f.(step := f.step + 1);
    Reframed(pages, stack, path, f');
    assert Yields(f, path[n]) == [path[n].entries[f.step]] + Yields(f', path[n]);
    YieldsFirst(stack, path, f', [path[n].entries[f.step]]);
  }

  lemma {:induction false} YieldFromInterior(pages: map<nat, Node>, stack: seq<Frame>, path: seq<Tree>, k: nat)
    requires AllFramed(pages, stack, path) && stack != [] && path[|path| - 1].TNode?
    requires stack[|stack| - 1].step == 2 * k + 1 && k < |path[|path| - 1].divs|
    ensures var n := |stack| - 1;
            var stack' := stack[..n] + [stack[n].(step := stack[n].step + 1)];
            && AllFramed(pages, stack', path)
            && YieldsAll(stack, path) == [path[n].divs[k]] + YieldsAll(stack', path)
  {
    var n := |stack| - 1;
    var f, f' := stack[n], stack[n].(step := stack[n].step + 1);
    assert Framed(pages, f, path[n]);
    StepYields(pages, f, path[n], k);
    Reframed(pages, stack, path, f');
    YieldsFirst(stack, path, f', [path[n].divs[k]]);
  }

  lemma {:induction false} YieldsFirst(stack: seq<Frame>, path: seq<Tree>, f': Frame, first: seq<Entry>)
    requires |stack| == |path| && stack != []
    requires Yields(stack[|stack| - 1], path[|stack| - 1]) == first + Yields(f', path[|stack| - 1])
    ensures YieldsAll(stack, path) == first + YieldsAll(stack[..|stack| - 1] + [f'], path)
  {
    var n := |stack| - 1;
    Replaced(stack, path, f');
    Regroup(Yields(stack[n], path[n]), first, Yields(f', path[n]), YieldsAll(stack[..n], path[..n]));
  }

  lemma {:induction false} Descended(pages: map<nat, Node>, stack: seq<Frame>, path: seq<Tree>, k: nat)
    requires AllFramed(pages, stack, path) && stack != [] && path[|path| - 1].TNode?
    requires stack[|stack| - 1].step == 2 * k && k <= |path[|path| - 1].divs|
    ensures var n := |stack| - 1; var t := path[n];
            k < |t.kids| && Roots(t.kids)[k] in pages &&
            var stack' := stack[..n] + [stack[n].(step := stack[n].step + 1)] + [Frame(pages[Roots(t.kids)[k]], 0)];
            && AllFramed(pages, stack', path + [t.kids[k]])
            && YieldsAll(stack, path) == YieldsAll(stack', path + [t.kids[k]])
            && TodoAll(stack', path + [t.kids[k]]) < TodoAll(stack, path)
  {
    var n := |stack| - 1;
    var f, t := stack[n], path[n];
    assert Framed(pages, f, t);
    StepDescends(pages, f, t, k);
    var f', g, kid := f.(step := f.step + 1), Frame(pages[t.kids[k].pg], 0), t.kids[k];
    StartYields(pages, kid);
    DescendInto(stack, path, f', g, kid);
    Reframed(pages, stack, path, f');
    BothFramed(pages, stack[..n] + [f'], path, g, kid);
  }

  lemma {:induction false} DescendInto(stack: seq<Frame>, path: seq<Tree>, f: Frame, g: Frame, kid: Tree)
    requires |stack| == |path| > 0
    requires Yields(stack[|stack| - 1], path[|path| - 1]) == Yields(g, kid) + Yields(f, path[|path| - 1])
    requires Todo(stack[|stack| - 1], path[|path| - 1]) == 1 + Todo(g, kid) + Todo(f, path[|path| - 1])
    ensures var stack' := stack[..|stack| - 1] + [f] + [g];
            && YieldsAll(stack, path) == YieldsAll(stack', path + [kid])
            && TodoAll(stack', path + [kid]) < TodoAll(stack, path)
  {
    var n := |stack| - 1;
    Replaced(stack, path, f);
    Pushed(stack[..n] + [f], path, g, kid);
    Regroup(Yields(stack[n], path[n]), Yields(g, kid), Yields(f, path[n]), YieldsAll(stack[..n], path[..n]));
  }

  lemma {:induction false} BothFramed(pages: map<nat, Node>, stack: seq<Frame>, path: seq<Tree>, g: Frame, kid: Tree)
    requires AllFramed(pages, stack, path) && Framed(pages, g, kid)
    ensures AllFramed(pages, stack + [g], path + [kid])
  {
  }

  /** A full pass yields exactly the entries of the tree, in order. */
  method CollectAll(pages: map<nat, Node>, root: nat, ghost tree: Tree) returns (entries: seq<Entry>)
    requires Represents(pages, tree) && Linked(tree) && tree.pg == root
    ensures entries == Flat(tree)
  {
    var cursor := new Cursor(pages, root, tree);
    entries := [];
    while true
      invariant cursor.Valid() && fresh(cursor) && entries + cursor.ToCome() == Flat(tree)
      decreases |cursor.ToCome()|
    {
      ghost var more := cursor.ToCome();
      var r := cursor.Next();
      match r {
        case None =>
          assert entries + [] == entries;
          return;
        case Some(e) =>
          TakeFirst(entries, more);
          entries := entries + [e];
      }
    }
  }

  lemma {:induction false} TakeFirst(entries: seq<Entry>, more: seq<Entry>)
    requires more != []
    ensures (entries + [more[0]]) + more[1..] == entries + more
  {
  }
}
