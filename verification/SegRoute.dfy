/** Which queries are answered from the index, and that the answers are those of the scan. */
module SegRoute {
  import opened Seqs
  import opened Bytes
  import opened SegDocs
  import opened SegLive
  import opened SegStore
  import opened SegScan
  import opened SegMatch
  import opened SegNear
  import opened SegPrefix
  import SegLevels
  import SegMerge

  /** How the index answers a query; a column by its position. */
  datatype Route = TermRoute(token: bytes, column: Option<nat>) | PhraseRoute(tokens: seq<bytes>, column: Option<nat>)
    | NearRoute(a: bytes, b: bytes, dist: nat) | TreeRoute(tree: Tree) | PrefixRoute(prefix: bytes, column: Option<nat>)

  // ----- The route of a query

  // The one column that a filter names.
  function SingleColumn(t: Term): Option<bytes> {
    if |t.columns| == 1 && !t.columns[0].negated && |t.columns[0].names| == 1 then Some(t.columns[0].names[0]) else None
  }

  // The first column of a name, from `c` on.
  function ResolveFrom(names: seq<bytes>, name: bytes, c: nat): (r: Option<nat>)
    requires c <= |names|
    ensures r.Some? ==> c <= r.value < |names| && SameName(name, names[r.value])
    ensures r.None? ==> forall i :: c <= i < |names| ==> !SameName(name, names[i])
    decreases |names| - c
  {
    if c == |names| then None else if SameName(name, names[c]) then Some(c) else ResolveFrom(names, name, c + 1)
  }

  // The column that a term is looked for in; any column without a filter.
  function Scope(t: Term, names: seq<bytes>): Option<Option<nat>> {
    if t.columns == [] then Some(None)
    else if SingleColumn(t).None? then None
    else
      match ResolveFrom(names, SingleColumn(t).value, 0)
      case None => None
      case Some(c) => Some(Some(c))
  }

  function TermRouteOf(t: Term, names: seq<bytes>): Option<Route> {
    if t.anchored || t.phrase == [] then None
    else
      match Scope(t, names)
      case None => None
      case Some(column) =>
        if t.prefix then
          if |t.phrase| == 1 && t.phrase[0] != [] then Some(PrefixRoute(t.phrase[0], column)) else None
        else if |t.phrase| == 1 then Some(TermRoute(t.phrase[0], column))
        else Some(PhraseRoute(t.phrase, column))
  }

  /** The route of a query, if it is of a kind the index knows: a bare term, a phrase or a prefix, anywhere or in one
      column; two bare terms near each other; a tree of bare terms. */
  function RouteOf(q: Query, names: seq<bytes>): Option<Route> {
    match q
    case Single(t) => TermRouteOf(t, names)
    case NearGroup(phrases, dist) =>
      if |phrases| == 2 && BareToken(phrases[0]).Some? && BareToken(phrases[1]).Some?
      then Some(NearRoute(BareToken(phrases[0]).value, BareToken(phrases[1]).value, dist)) else None
    case _ =>
      match ToTree(q)
      case None => None
      case Some(tree) => Some(TreeRoute(tree))
  }

  // ----- What a route stands for

  ghost predicate TermIn(token: bytes, doc: Document, column: Option<nat>) {
    match column
    case None => Has(doc, Key(token))
    case Some(c) => InColumn(doc, Key(token), c)
  }

  ghost predicate PrefixTrue(doc: Document, want: bytes, column: Option<nat>) {
    match column
    case None => Prefixed(doc, want)
    case Some(c) => PrefixedIn(doc, want, c)
  }

  /** What the query asks of a document. */
  ghost predicate Asked(route: Route, doc: Document) {
    match route
    case TermRoute(token, column) => TermIn(token, doc, column)
    case PhraseRoute(tokens, column) => RunSomewhere(tokens, doc, column)
    case NearRoute(a, b, dist) => NearTokens(doc, a, b, dist)
    case TreeRoute(tree) => TreeHolds(tree, doc)
    case PrefixRoute(prefix, column) => PrefixTrue(doc, Key(prefix), column)
  }

  /** What the index looks for. */
  ghost predicate LookedFor(route: Route, doc: Document) {
    match route
    case NearRoute(a, b, dist) => NearTokens(doc, a, b, Truncated(dist))
    case PrefixRoute(prefix, column) => PrefixWanted(doc, Key(prefix), column)
    case _ => Asked(route, doc)
  }

  // ----- The scan asks the same

  // At most one column has this name.
  ghost predicate OneOfName(names: seq<bytes>, name: bytes) {
    forall i, j :: 0 <= i < j < |names| ==> !(SameName(name, names[i]) && SameName(name, names[j]))
  }

  // The column that a filter names is the only one of that name.
  ghost predicate Unambiguous(q: Query, names: seq<bytes>) {
    q.Single? && SingleColumn(q.term).Some? ==> OneOfName(names, SingleColumn(q.term).value)
  }

  // The term may be in this column.
  ghost predicate Scoped(column: Option<nat>, c: nat) {
    column.None? || column.value == c
  }

  lemma {:induction false} ScopeAdmits(t: Term, names: seq<bytes>, c: nat)
    requires Unambiguous(Single(t), names) && Scope(t, names).Some? && c < |names|
    ensures t.AdmitsColumn(names[c]) <==> Scoped(Scope(t, names).value, c)
  {
    if t.columns != [] {
      var filter, name := t.columns[0], SingleColumn(t).value;
      assert filter.names[0] == name;
      assert filter.Admits(names[c]) <==> SameName(name, names[c]);
      assert t.AdmitsColumn(names[c]) <==> filter.Admits(names[c]);
    }
  }

  // A term matches a document exactly if it matches in a column of its scope.
  ghost predicate ColumnMatch(t: Term, doc: Document, c: nat) {
    c < |doc| && exists s: nat :: PhraseAt(t.phrase, t.prefix, doc[c], s)
  }

  lemma {:induction false} StartsMatch(t: Term, doc: Document, c: nat)
    requires t.phrase != [] && !t.anchored && c < |doc|
    ensures TermStarts(t, doc[c]) != [] <==> ColumnMatch(t, doc, c)
  {
    var starts := PhraseStarts(t.phrase, t.prefix, doc[c]);
    if starts != [] {
      assert starts[0] in starts;
    }
    if s: nat :| PhraseAt(t.phrase, t.prefix, doc[c], s) {
      assert s in starts;
    }
  }

  ghost predicate ScopedMatch(t: Term, doc: Document, column: Option<nat>) {
    match column
    case None => exists c: nat :: ColumnMatch(t, doc, c)
    case Some(c) => ColumnMatch(t, doc, c)
  }

  lemma {:induction false} MatchesInScope(t: Term, names: seq<bytes>, doc: Document)
    requires Unambiguous(Single(t), names) && TermRouteOf(t, names).Some? && |names| == |doc|
    ensures Eval(Single(t), names, doc) <==> ScopedMatch(t, doc, Scope(t, names).value)
  {
    var column := Scope(t, names).value;
    forall c: nat | c < |doc|
      ensures t.AdmitsColumn(names[c]) && TermStarts(t, doc[c]) != [] <==> Scoped(column, c) && ColumnMatch(t, doc, c)
    {
      ScopeAdmits(t, names, c);
      StartsMatch(t, doc, c);
    }
    if TermMatches(t, names, doc) {
      var c :| 0 <= c < |doc| && t.AdmitsColumn(names[c]) && TermStarts(t, doc[c]) != [];
      assert Scoped(column, c) && ColumnMatch(t, doc, c);
    }
    if ScopedMatch(t, doc, column) {
      var c: nat := if column.Some? then column.value else var c: nat :| ColumnMatch(t, doc, c); c;
      assert t.AdmitsColumn(names[c]) && TermStarts(t, doc[c]) != [];
    }
  }

  lemma {:induction false} TokenMatch(t: Term, doc: Document, c: nat)
    requires |t.phrase| == 1 && !t.prefix
    ensures ColumnMatch(t, doc, c) <==> InColumn(doc, Key(t.phrase[0]), c)
  {
    if c < |doc| {
      var token, tokens := t.phrase[0], doc[c];
      assert t.phrase == [token];
      var ps := Positions(tokens, Key(token), |tokens|);
      if s: nat :| PhraseAt(t.phrase, false, tokens, s) {
        OneToken(tokens, token, s);
        TokenPosition(tokens, token, s);
      }
      if ps != [] {
        TokenPosition(tokens, token, ps[0]);
        OneToken(tokens, token, ps[0]);
      }
    }
  }

  // One prefix as a phrase.
  lemma {:induction false} OnePrefix(tokens: seq<bytes>, prefix: bytes, p: nat)
    ensures PhraseAt([prefix], true, tokens, p) <==> p < |tokens| && Key(prefix) <= Key(tokens[p])
  {
    var phrase := [prefix];
    if PhraseAt(phrase, true, tokens, p) {
      assert TokenMatches(phrase[0], tokens[p + 0], true);
    }
    if p < |tokens| {
      var want, key := Key(prefix), Key(tokens[p]);
      assert want[1..] == prefix && key[1..] == tokens[p];
      if want <= key {
        assert prefix == tokens[p][..|prefix|] by {
          assert want == key[..|want|];
        }
      }
      if prefix <= tokens[p] {
        assert want == key[..|want|];
      }
    }
  }

  lemma {:induction false} PrefixMatch(t: Term, doc: Document, c: nat)
    requires |t.phrase| == 1 && t.prefix
    ensures ColumnMatch(t, doc, c) <==> PrefixedIn(doc, Key(t.phrase[0]), c)
  {
    if c < |doc| {
      var prefix, tokens := t.phrase[0], doc[c];
      assert t.phrase == [prefix];
      if s: nat :| PhraseAt(t.phrase, true, tokens, s) {
        OnePrefix(tokens, prefix, s);
        TokenPosition(tokens, tokens[s], s);
        assert InColumn(doc, Key(tokens[s]), c);
      }
      if key :| Key(prefix) <= key && InColumn(doc, key, c) {
        var ps := Positions(tokens, key, |tokens|);
        PositionsAre(tokens, key, |tokens|);
        assert ps[0] in ps;
        OnePrefix(tokens, prefix, ps[0]);
      }
    }
  }

  lemma {:induction false} PrefixSomewhere(doc: Document, want: bytes)
    ensures Prefixed(doc, want) <==> exists c: nat :: PrefixedIn(doc, want, c)
  {
    if Prefixed(doc, want) {
      var key :| want <= key && Has(doc, key);
      var c :| 0 <= c < |doc| && Positions(doc[c], key, |doc[c]|) != [];
      assert InColumn(doc, key, c);
      assert PrefixedIn(doc, want, c);
    }
    if c: nat :| PrefixedIn(doc, want, c) {
      var key :| want <= key && InColumn(doc, key, c);
      assert Has(doc, key);
    }
  }

  lemma {:induction false} TermAsks(t: Term, names: seq<bytes>, doc: Document)
    requires Unambiguous(Single(t), names) && TermRouteOf(t, names).Some? && |names| == |doc|
    ensures Eval(Single(t), names, doc) <==> Asked(TermRouteOf(t, names).value, doc)
  {
    var route := TermRouteOf(t, names).value;
    MatchesInScope(t, names, doc);
    forall c: nat
      ensures route.TermRoute? ==> (ColumnMatch(t, doc, c) <==> InColumn(doc, Key(t.phrase[0]), c))
      ensures route.PrefixRoute? ==> (ColumnMatch(t, doc, c) <==> PrefixedIn(doc, Key(t.phrase[0]), c))
      ensures route.PhraseRoute? ==> (ColumnMatch(t, doc, c) <==> RunIn(t.phrase, doc, c))
    {
      if route.TermRoute? {
        TokenMatch(t, doc, c);
      } else if route.PrefixRoute? {
        PrefixMatch(t, doc, c);
      }
    }
    PrefixSomewhere(doc, Key(t.phrase[0]));
    if route.TermRoute? && Has(doc, Key(t.phrase[0])) {
      var c :| 0 <= c < |doc| && Positions(doc[c], Key(t.phrase[0]), |doc[c]|) != [];
      assert InColumn(doc, Key(t.phrase[0]), c);
    }
  }

  /** The scan accepts a document exactly if it has what the route asks for. */
  lemma {:induction false} RouteAsks(q: Query, names: seq<bytes>, doc: Document)
    requires Unambiguous(q, names) && RouteOf(q, names).Some? && |names| == |doc|
    ensures Eval(q, names, doc) <==> Asked(RouteOf(q, names).value, doc)
  {
    match q
    case Single(t) => TermAsks(t, names, doc);
    case NearGroup(phrases, dist) =>
      NearMeans(phrases, BareToken(phrases[0]).value, BareToken(phrases[1]).value, dist, names, doc);
    case _ => TreeMeans(q, names, doc);
  }

  // ----- The index looks for the same

  // A distance that is kept.
  predicate Kept(route: Route) {
    route.NearRoute? ==> DistanceKept(route.a, route.b, route.dist)
  }

  // In a search for a prefix in one column, the least term with the prefix tells.
  ghost predicate Tells(route: Route, docs: Documents) {
    route.PrefixRoute? && route.column.Some? ==> LeastTells(docs, Key(route.prefix), route.column.value)
  }

  lemma {:induction false} LookedForIff(route: Route, docs: Documents)
    requires DocumentsOk(docs) && Kept(route)
    ensures (forall id :: id in docs ==> (LookedFor(route, docs[id]) <==> Asked(route, docs[id])))
       <==> Tells(route, docs)
  {
    if route.NearRoute? {
      forall id | id in docs
        ensures LookedFor(route, docs[id]) <==> Asked(route, docs[id])
      {
        TruncationKeeps(docs[id], route.a, route.b, route.dist);
      }
    }
  }

  // ----- No segments

  // No segment, no term in any document.
  lemma {:induction false} NoSegments(docs: Documents, key: bytes, r: int)
    requires Reflects([], docs) && r in docs
    ensures !Has(docs[r], key)
  {
    assert SegMerge.Live([], key, r) == Indexed(docs, key, r);
  }

  lemma {:induction false} NoTree(tree: Tree, docs: Documents, r: int)
    requires Reflects([], docs) && r in docs
    ensures !TreeHolds(tree, docs[r])
  {
    match tree
    case Leaf(token) => NoSegments(docs, Key(token), r);
    case Op(op, a, b) =>
      NoTree(a, docs, r);
      NoTree(b, docs, r);
  }

  lemma {:induction false} NoColumn(docs: Documents, key: bytes, c: nat, r: int)
    requires Reflects([], docs) && r in docs
    ensures !InColumn(docs[r], key, c)
  {
    NoSegments(docs, key, r);
  }

  lemma {:induction false} NoRun(tokens: seq<bytes>, docs: Documents, c: nat, r: int)
    requires tokens != [] && Reflects([], docs) && r in docs
    ensures !RunIn(tokens, docs[r], c)
  {
    var doc := docs[r];
    if RunIn(tokens, doc, c) {
      var s: nat :| PhraseAt(tokens, false, doc[c], s);
      assert TokenMatches(tokens[0], doc[c][s + 0], false);
      TokenPosition(doc[c], tokens[0], s);
      NoColumn(docs, Key(tokens[0]), c, r);
    }
  }

  // Without a term in any document no route finds anything.
  lemma {:induction false} NothingAsked(q: Query, names: seq<bytes>, docs: Documents, r: int)
    requires RouteOf(q, names).Some? && Reflects([], docs) && r in docs
    ensures !Asked(RouteOf(q, names).value, docs[r])
  {
    match RouteOf(q, names).value
    case TermRoute(token, column) => NoSegments(docs, Key(token), r);
    case PhraseRoute(tokens, column) =>
      forall c: nat
        ensures !RunIn(tokens, docs[r], c)
      {
        NoRun(tokens, docs, c, r);
      }
    case NearRoute(a, b, dist) =>
      NoSegments(docs, Key(a), r);
      if NearTokens(docs[r], a, b, dist) {
        NearHas(docs[r], a, b, dist);
      }
    case TreeRoute(tree) => NoTree(tree, docs, r);
    case PrefixRoute(prefix, column) =>
      forall key
        ensures !Has(docs[r], key)
      {
        NoSegments(docs, key, r);
      }
      PrefixSomewhere(docs[r], Key(prefix));
  }

  lemma {:induction false} StoredLeaves(ages: seq<SegLevels.StructSeg>, data: Data)
    requires AllStored(ages, data) && ages != []
    ensures HasLeaves(data)
  {
    assert Stored(ages[0], data);
  }

  lemma {:induction false} EmptyIndex(ages: seq<SegLevels.StructSeg>, data: Data, docs: Documents)
    requires Holds(ages, data, docs) && !HasLeaves(data)
    ensures Reflects([], docs)
  {
    if ages != [] {
      StoredLeaves(ages, data);
    }
    assert ReadAll(ages, data) == [];
  }

  // ----- The router

  // The index cannot tell about a term of the route.
  ghost predicate SilentRoute(ix: Index, route: Route)
    reads ix, ix.structure
  {
    match route
    case TermRoute(token, _) => Silent(ix, [Key(token)])
    case PhraseRoute(tokens, _) => |tokens| < 2 || Silent(ix, Keys(tokens))
    case NearRoute(a, b, _) => Silent(ix, [Key(a), Key(b)])
    case TreeRoute(tree) => SilentTree(ix, tree)
    case PrefixRoute(prefix, _) => SilentPrefix(ix, Key(prefix))
  }

  /** Answer a route from the index: the documents that have what it looks for. */
  method LookUp(ix: Index, route: Route) returns (r: Option<seq<int>>)
    requires ix.Valid()
    ensures r.None? <==> SilentRoute(ix, route)
    ensures r.Some? ==> Ascending(r.value)
    ensures r.Some? ==> forall id :: id in r.value <==> id in ix.docs && LookedFor(route, ix.docs[id])
  {
    match route
    case TermRoute(token, None) => r := TermRowids(ix, token);
    case TermRoute(token, Some(c)) => r := TermRowidsInColumn(ix, token, c);
    case PhraseRoute(tokens, column) => r := PhraseRowids(ix, tokens, column);
    case NearRoute(a, b, dist) => r := NearRowids(ix, a, b, dist);
    case TreeRoute(tree) => r := EvalTree(ix, tree);
    case PrefixRoute(prefix, column) => r := PrefixRowids(ix, prefix, column);
  }

  ghost predicate Tabular(docs: Documents, names: seq<bytes>) {
    forall id :: id in docs ==> |docs[id]| == |names|
  }

  // The answer of the scan.
  ghost predicate Answer(r: seq<int>, docs: Documents, names: seq<bytes>, q: Query)
    requires Tabular(docs, names)
  {
    Ascending(r) && forall id :: id in r <==> id in docs && Eval(q, names, docs[id])
  }

  lemma {:induction false} AnswersIff(r: seq<int>, docs: Documents, names: seq<bytes>, q: Query)
    requires DocumentsOk(docs) && Tabular(docs, names) && RouteOf(q, names).Some?
    requires Unambiguous(q, names) && Kept(RouteOf(q, names).value)
    requires Ascending(r) && forall id :: id in r <==> id in docs && LookedFor(RouteOf(q, names).value, docs[id])
    ensures Answer(r, docs, names, q) <==> Tells(RouteOf(q, names).value, docs)
  {
    var route := RouteOf(q, names).value;
    LookedForIff(route, docs);
    forall id | id in docs
      ensures Eval(q, names, docs[id]) <==> Asked(route, docs[id])
    {
      RouteAsks(q, names, docs[id]);
    }
    if Answer(r, docs, names, q) {
      assert forall id :: id in docs ==> (id in r <==> Asked(route, docs[id]));
    }
  }

  // Nothing is the right answer if there are no terms.
  lemma {:induction false} NothingAnswers(docs: Documents, names: seq<bytes>, q: Query)
    requires Reflects([], docs) && Tabular(docs, names) && RouteOf(q, names).Some? && Unambiguous(q, names)
    ensures Answer([], docs, names, q) && Tells(RouteOf(q, names).value, docs)
  {
    var route := RouteOf(q, names).value;
    forall id | id in docs
      ensures !Eval(q, names, docs[id]) && !Asked(route, docs[id])
    {
      RouteAsks(q, names, docs[id]);
      NothingAsked(q, names, docs, id);
    }
  }

  /** Answer a query from the index, if it is of a kind the index knows and no segment stands in the way. The
      answer is the rowids, in order, of exactly the documents that the scan accepts; for a prefix in one column
      if and only if the least term with the prefix always tells. */
  method MatchRowids(ix: Index, names: seq<bytes>, q: Query) returns (r: Option<seq<int>>)
    requires ix.Valid() && Tabular(ix.docs, names)
    ensures r.None? <==> RouteOf(q, names).None? || (HasLeaves(ix.data) && SilentRoute(ix, RouteOf(q, names).value))
    ensures r.Some? && Unambiguous(q, names) && Kept(RouteOf(q, names).value) ==>
              (Answer(r.value, ix.docs, names, q) <==> Tells(RouteOf(q, names).value, ix.docs))
  {
    var route := RouteOf(q, names);
    if route.None? {
      return None;
    }
    if !HasLeaves(ix.data) {
      EmptyIndex(SegLevels.Ages(ix.structure.levels), ix.data, ix.docs);
      if Unambiguous(q, names) {
        NothingAnswers(ix.docs, names, q);
      }
      return Some([]);
    }
    r := LookUp(ix, route.value);
    if r.Some? && Unambiguous(q, names) && Kept(route.value) {
      AnswersIff(r.value, ix.docs, names, q);
    }
  }
}
