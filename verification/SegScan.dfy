/** Full-text queries as the document scan answers them, and the trees of bare terms that the index can
    answer instead. */
module SegScan {
  import opened Seqs
  import opened Bytes
  import opened SegDocs
  import Near

  /** Columns by name, or all others. */
  datatype ColSet = ColSet(names: seq<bytes>, negated: bool) {
    predicate Admits(column: bytes) {
      (exists i :: 0 <= i < |names| && SameName(names[i], column)) != negated
    }
  }

  function Lower(b: byte): byte {
    if 0x41 <= b <= 0x5A then b + 0x20 else b
  }

  // Names are compared without regard to ASCII case.
  predicate SameName(a: bytes, b: bytes) {
    |a| == |b| && forall i :: 0 <= i < |a| ==> Lower(a[i]) == Lower(b[i])
  }

  /** Consecutive tokens, the last of which may be a prefix, possibly at the start of a column. */
  datatype Term = Term(columns: seq<ColSet>, phrase: seq<bytes>, prefix: bool, anchored: bool) {
    predicate AdmitsColumn(column: bytes) {
      forall i :: 0 <= i < |columns| ==> columns[i].Admits(column)
    }
  }

  datatype Query = Single(term: Term) | NearGroup(phrases: seq<Term>, dist: nat)
    | And(a: Query, b: Query) | Or(a: Query, b: Query) | Not(a: Query, b: Query)

  // ----- The scan

  predicate TokenMatches(want: bytes, got: bytes, prefix: bool) {
    if prefix then want <= got else want == got
  }

  predicate PhraseAt(phrase: seq<bytes>, prefix: bool, doc: seq<bytes>, start: nat) {
    && start + |phrase| <= |doc|
    && forall k :: 0 <= k < |phrase| ==> TokenMatches(phrase[k], doc[start + k], prefix && k == |phrase| - 1)
  }

  // The starts from `start` on.
  function StartsFrom(phrase: seq<bytes>, prefix: bool, doc: seq<bytes>, start: nat): (r: seq<nat>)
    requires start <= |doc| + 1
    ensures forall s :: s in r <==> start <= s && PhraseAt(phrase, prefix, doc, s)
    ensures Ascending(r)
    decreases |doc| + 1 - start
  {
    if start + |phrase| > |doc| then []
    else
      var rest := StartsFrom(phrase, prefix, doc, start + 1);
      assert forall i :: 0 <= i < |rest| ==> rest[i] in rest;
      if PhraseAt(phrase, prefix, doc, start) then [start] + rest else rest
  }

  /** Where a phrase occurs in a column; an empty phrase occurs nowhere. */
  function PhraseStarts(phrase: seq<bytes>, prefix: bool, doc: seq<bytes>): (r: seq<nat>)
    ensures forall s :: s in r <==> phrase != [] && s >= 0 && PhraseAt(phrase, prefix, doc, s)
    ensures Ascending(r)
  {
    if phrase == [] then [] else StartsFrom(phrase, prefix, doc, 0)
  }

  function TermStarts(t: Term, tokens: seq<bytes>): (r: seq<nat>)
    ensures Ascending(r)
  {
    var starts := PhraseStarts(t.phrase, t.prefix, tokens);
    if !t.anchored then starts else if 0 in starts then [0] else []
  }

  predicate TermMatches(t: Term, names: seq<bytes>, doc: Document)
    requires |names| == |doc|
  {
    exists c :: 0 <= c < |doc| && t.AdmitsColumn(names[c]) && TermStarts(t, doc[c]) != []
  }

  function Located(phrases: seq<Term>, tokens: seq<bytes>): (r: seq<Near.Phrase>)
    ensures |r| == |phrases|
  {
    seq(|phrases|, i requires 0 <= i < |phrases| => Near.Phrase(TermStarts(phrases[i], tokens), |phrases[i].phrase|))
  }

  ghost predicate NearGroupMatches(phrases: seq<Term>, dist: nat, names: seq<bytes>, doc: Document)
    requires |names| == |doc|
  {
    exists c :: 0 <= c < |doc| && NearInColumn(phrases, dist, names[c], doc[c])
  }

  ghost predicate NearInColumn(phrases: seq<Term>, dist: nat, name: bytes, tokens: seq<bytes>) {
    (forall i :: 0 <= i < |phrases| ==> phrases[i].AdmitsColumn(name)) && Near.NearHolds(Located(phrases, tokens), dist)
  }

  /** Whether the scan accepts a document. */
  ghost predicate Eval(q: Query, names: seq<bytes>, doc: Document)
    requires |names| == |doc|
  {
    match q
    case Single(t) => TermMatches(t, names, doc)
    case NearGroup(phrases, dist) => NearGroupMatches(phrases, dist, names, doc)
    case And(a, b) => Eval(a, names, doc) && Eval(b, names, doc)
    case Or(a, b) => Eval(a, names, doc) || Eval(b, names, doc)
    case Not(a, b) => Eval(a, names, doc) && !Eval(b, names, doc)
  }

  // ----- Trees of bare terms

  datatype BoolOp = AndOp | OrOp | NotOp

  datatype Tree = Leaf(token: bytes) | Op(op: BoolOp, a: Tree, b: Tree)

  function BareToken(t: Term): Option<bytes> {
    if t.columns != [] || t.prefix || t.anchored || |t.phrase| != 1 then None else Some(t.phrase[0])
  }

  function Node(op: BoolOp, a: Option<Tree>, b: Option<Tree>): Option<Tree> {
    if a.Some? && b.Some? then Some(Op(op, a.value, b.value)) else None
  }

  /** The tree of a query all of whose terms are bare. */
  function ToTree(q: Query): Option<Tree> {
    match q
    case Single(t) =>
      (match BareToken(t)
       case None => None
       case Some(token) => Some(Leaf(token)))
    case NearGroup(_, _) => None
    case And(a, b) => Node(AndOp, ToTree(a), ToTree(b))
    case Or(a, b) => Node(OrOp, ToTree(a), ToTree(b))
    case Not(a, b) => Node(NotOp, ToTree(a), ToTree(b))
  }

  /** What a tree says of a document: each term stands for its occurrence in any column. */
  predicate TreeHolds(tree: Tree, doc: Document) {
    match tree
    case Leaf(token) => Has(doc, Key(token))
    case Op(AndOp, a, b) => TreeHolds(a, doc) && TreeHolds(b, doc)
    case Op(OrOp, a, b) => TreeHolds(a, doc) || TreeHolds(b, doc)
    case Op(NotOp, a, b) => TreeHolds(a, doc) && !TreeHolds(b, doc)
  }

  // A token is where its key has a position.
  lemma {:induction false} TokenPosition(tokens: seq<bytes>, token: bytes, p: nat)
    ensures p in Positions(tokens, Key(token), |tokens|) <==> p < |tokens| && tokens[p] == token
  {
    PositionsAre(tokens, Key(token), |tokens|);
    if p < |tokens| {
      KeyInjective(tokens[p], token);
    }
  }

  // One token as a phrase.
  lemma {:induction false} OneToken(tokens: seq<bytes>, token: bytes, p: nat)
    ensures PhraseAt([token], false, tokens, p) <==> p < |tokens| && tokens[p] == token
  {
    var phrase := [token];
    if PhraseAt(phrase, false, tokens, p) {
      assert TokenMatches(phrase[0], tokens[p + 0], false);
    }
  }

  lemma {:induction false} TokenStart(tokens: seq<bytes>, token: bytes, p: nat)
    ensures p in PhraseStarts([token], false, tokens) <==> p in Positions(tokens, Key(token), |tokens|)
  {
    TokenPosition(tokens, token, p);
    OneToken(tokens, token, p);
  }

  lemma {:induction false} TokenStarts(tokens: seq<bytes>, token: bytes)
    ensures PhraseStarts([token], false, tokens) == [] <==> Positions(tokens, Key(token), |tokens|) == []
  {
    var starts, ps := PhraseStarts([token], false, tokens), Positions(tokens, Key(token), |tokens|);
    if starts != [] {
      TokenStart(tokens, token, starts[0]);
    }
    if ps != [] {
      TokenStart(tokens, token, ps[0]);
    }
  }

  lemma {:induction false} BareMatches(t: Term, token: bytes, names: seq<bytes>, doc: Document)
    requires BareToken(t) == Some(token) && |names| == |doc|
    ensures TermMatches(t, names, doc) <==> Has(doc, Key(token))
  {
    assert t.phrase == [token];
    forall c | 0 <= c < |doc|
      ensures t.AdmitsColumn(names[c])
      ensures (TermStarts(t, doc[c]) == [] <==> Positions(doc[c], Key(token), |doc[c]|) == [])
    {
      TokenStarts(doc[c], token);
    }
    if TermMatches(t, names, doc) {
      var c :| 0 <= c < |doc| && t.AdmitsColumn(names[c]) && TermStarts(t, doc[c]) != [];
      assert Positions(doc[c], Key(token), |doc[c]|) != [];
    }
    if Has(doc, Key(token)) {
      var c :| 0 <= c < |doc| && Positions(doc[c], Key(token), |doc[c]|) != [];
      assert TermStarts(t, doc[c]) != [];
    }
  }

  /** The tree of a query means what the query means to the scan. */
  lemma {:induction false} TreeMeans(q: Query, names: seq<bytes>, doc: Document)
    requires ToTree(q).Some? && |names| == |doc|
    ensures TreeHolds(ToTree(q).value, doc) <==> Eval(q, names, doc)
  {
    match q
    case Single(t) => BareMatches(t, t.phrase[0], names, doc);
    case And(a, b) =>
      TreeMeans(a, names, doc);
      TreeMeans(b, names, doc);
    case Or(a, b) =>
      TreeMeans(a, names, doc);
      TreeMeans(b, names, doc);
    case Not(a, b) =>
      TreeMeans(a, names, doc);
      TreeMeans(b, names, doc);
  }
}
