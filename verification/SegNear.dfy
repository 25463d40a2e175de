/** Two tokens near each other: the rowids that the index gives for them, what the scan makes of them, and what
    becomes of a distance of more than 32 bits. */
module SegNear {
  import opened Seqs
  import opened Bytes
  import opened Poslist
  import opened Segment
  import opened SegDocs
  import opened SegLive
  import opened SegStore
  import opened SegScan
  import opened SegQuery
  import opened Phrases
  import opened SegMatch
  import Near
  import RowidSets

  // ----- Two tokens near each other

  ghost predicate NearColumn(pa: seq<nat>, pb: seq<nat>, n: nat) {
    exists x, y :: x in pa && y in pb && Near.AbsDiff(x, y) <= n + 1
  }

  ghost predicate NearCols(a: Columns, b: Columns, n: nat) {
    exists c: nat :: NearColumn(ColumnOf(a, c), ColumnOf(b, c), n)
  }

  ghost predicate Sweepable(cols: Columns) {
    forall c :: 0 <= c < |cols| ==> Near.Positions(cols[c])
  }

  method NearMatches(a: Columns, b: Columns, n: nat) returns (r: bool)
    requires Sweepable(a) && Sweepable(b) && n <= Near.U32_MAX
    ensures r <==> NearCols(a, b, n)
  {
    var ncols := if |a| > |b| then |a| else |b|;
    for c := 0 to ncols
      invariant forall k: nat :: k < c ==> !NearColumn(ColumnOf(a, k), ColumnOf(b, k), n)
    {
      var pa, pb := ColumnOf(a, c), ColumnOf(b, c);
      var here := Near.NearWithinInColumn(pa, pb, n);
      if here {
        var i, j :| 0 <= i < |pa| && 0 <= j < |pb| && Near.AbsDiff(pa[i], pb[j]) <= n + 1;
        assert pa[i] in pa && pb[j] in pb;
        assert NearColumn(ColumnOf(a, c), ColumnOf(b, c), n);
        return true;
      }
    }
    r := false;
  }

  ghost predicate AllSweepable(ps: seq<Posting>) {
    forall i :: 0 <= i < |ps| ==> Sweepable(ps[i].cols)
  }

  // In both lists and near each other there.
  ghost function NearIn(a: seq<Posting>, b: seq<Posting>, n: nat): int -> bool {
    r => NearCols(ColsIn(a, r), ColsIn(b, r), n)
  }

  method NearHere(a: seq<Posting>, i: nat, b: seq<Posting>, j: nat, n: nat) returns (near: bool)
    requires Ascend(a) && Ascend(b) && AllSweepable(a) && AllSweepable(b) && n <= Near.U32_MAX
    requires i < |a| && j < |b| && a[i].rowid == b[j].rowid
    ensures near == NearIn(a, b, n)(a[i].rowid)
  {
    AtAscend(a, i);
    AtAscend(b, j);
    near := NearMatches(a[i].cols, b[j].cols, n);
  }

  /** The documents that both lists have with the tokens near each other. */
  method NearIntersect(a: seq<Posting>, b: seq<Posting>, n: nat) returns (out: seq<int>)
    requires Ascend(a) && Ascend(b) && AllSweepable(a) && AllSweepable(b) && n <= Near.U32_MAX
    ensures Ascending(out) && forall r :: r in out <==> r in Rowids(a) && r in Rowids(b) && NearIn(a, b, n)(r)
  {
    out := [];
    ghost var ra, rb, want := Rowids(a), Rowids(b), NearIn(a, b, n);
    var i, j := 0, 0;
    while i < |a| && j < |b|
      invariant RowidSets.CommonTo(ra, i, rb, j, want, out)
    {
      if a[i].rowid < b[j].rowid {
        RowidSets.CommonSkip(ra, i, rb, j, want, out);
        i := i + 1;
      } else if a[i].rowid > b[j].rowid {
        RowidSets.CommonFlip(ra, i, rb, j, want, out);
        RowidSets.CommonSkip(rb, j, ra, i, want, out);
        RowidSets.CommonFlip(rb, j + 1, ra, i, want, out);
        j := j + 1;
      } else {
        RowidSets.CommonTake(ra, i, rb, j, want, out);
        var near := NearHere(a, i, b, j, n);
        if near {
          out := out + [a[i].rowid];
        }
        i, j := i + 1, j + 1;
      }
    }
    RowidSets.CommonEnd(ra, i, rb, j, want, out);
  }

  // ----- The distance that is searched for

  /** The distance as the index is given it: its low 32 bits. */
  function Truncated(n: nat): nat {
    n % TWO_32
  }

  /** Two tokens of a document at most `n + 1` apart in one column. */
  ghost predicate NearTokens(doc: Document, a: bytes, b: bytes, n: nat) {
    exists c :: 0 <= c < |doc| && NearColumn(PositionsOf(doc, c, a), PositionsOf(doc, c, b), n)
  }

  function PositionsOf(doc: Document, c: nat, token: bytes): seq<nat>
    requires c < |doc|
  {
    Positions(doc[c], Key(token), |doc[c]|)
  }

  lemma {:induction false} SweepableList(ps: seq<Posting>, docs: Documents, token: bytes)
    requires Lists(ps, docs, Key(token)) && DocumentsOk(docs)
    ensures AllSweepable(ps)
  {
    forall i, c | 0 <= i < |ps| && 0 <= c < |ps[i].cols|
      ensures Near.Positions(ps[i].cols[c])
    {
      AtAscend(ps, i);
      ColumnIs(ps, docs, token, ps[i].rowid, c);
      SweepableColumn(docs[ps[i].rowid], token, c, ps[i].cols[c]);
    }
  }

  lemma {:induction false} SweepableColumn(doc: Document, token: bytes, c: nat, ps: seq<nat>)
    requires DocOk(doc) && ps == if c < |doc| then PositionsOf(doc, c, token) else []
    ensures Near.Positions(ps)
  {
    if c < |doc| {
      PositionsAre(doc[c], Key(token), |doc[c]|);
      assert ColumnOk(doc[c]);
      assert forall k :: 0 <= k < |ps| ==> ps[k] in ps;
    }
  }

  lemma {:induction false} RowidsIn(ps: seq<Posting>, r: int)
    ensures r in Rowids(ps) <==> HasRowid(ps, r)
  {
    if HasRowid(ps, r) {
      var i :| 0 <= i < |ps| && ps[i].rowid == r;
      assert Rowids(ps)[i] == r;
    }
  }

  lemma {:induction false} NearListed(la: seq<Posting>, lb: seq<Posting>, docs: Documents, a: bytes, b: bytes, n: nat,
                                      r: int)
    requires Lists(la, docs, Key(a)) && Lists(lb, docs, Key(b))
    ensures r in Rowids(la) && r in Rowids(lb) && NearIn(la, lb, n)(r) <==> r in docs && NearTokens(docs[r], a, b, n)
  {
    RowidsIn(la, r);
    RowidsIn(lb, r);
    if r in docs && NearTokens(docs[r], a, b, n) {
      NearHas(docs[r], a, b, n);
    }
    if HasRowid(la, r) && HasRowid(lb, r) {
      NearBoth(la, lb, docs, a, b, n, r);
    }
  }

  lemma {:induction false} NearHas(doc: Document, a: bytes, b: bytes, n: nat)
    requires NearTokens(doc, a, b, n)
    ensures Has(doc, Key(a)) && Has(doc, Key(b))
  {
    var c :| 0 <= c < |doc| && NearColumn(PositionsOf(doc, c, a), PositionsOf(doc, c, b), n);
    assert PositionsOf(doc, c, a) != [] && PositionsOf(doc, c, b) != [];
  }

  lemma {:induction false} NearBoth(la: seq<Posting>, lb: seq<Posting>, docs: Documents, a: bytes, b: bytes, n: nat,
                                    r: int)
    requires Lists(la, docs, Key(a)) && Lists(lb, docs, Key(b)) && HasRowid(la, r) && HasRowid(lb, r)
    ensures r in docs && (NearIn(la, lb, n)(r) <==> NearTokens(docs[r], a, b, n))
  {
    ColumnIs(la, docs, a, r, 0);
    forall c: nat
      ensures ColumnOf(ColsIn(la, r), c) == if c < |docs[r]| then PositionsOf(docs[r], c, a) else []
      ensures ColumnOf(ColsIn(lb, r), c) == if c < |docs[r]| then PositionsOf(docs[r], c, b) else []
    {
      ColumnIs(la, docs, a, r, c);
      ColumnIs(lb, docs, b, r, c);
    }
    if NearIn(la, lb, n)(r) {
      var c: nat :| NearColumn(ColumnOf(ColsIn(la, r), c), ColumnOf(ColsIn(lb, r), c), n);
      assert c < |docs[r]|;
    }
    if NearTokens(docs[r], a, b, n) {
      var c :| 0 <= c < |docs[r]| && NearColumn(PositionsOf(docs[r], c, a), PositionsOf(docs[r], c, b), n);
      assert NearColumn(ColumnOf(ColsIn(la, r), c), ColumnOf(ColsIn(lb, r), c), n);
    }
  }

  /** Two tokens near each other: the rowids of the documents that have them within the truncated distance. */
  method NearRowids(ix: Index, a: bytes, b: bytes, n: nat) returns (r: Option<seq<int>>)
    requires ix.Valid()
    ensures r.None? <==> Silent(ix, [Key(a), Key(b)])
    ensures r.Some? ==> Ascending(r.value)
    ensures r.Some? ==> forall id :: id in r.value <==> id in ix.docs && NearTokens(ix.docs[id], a, b, Truncated(n))
  {
    var keys := [Key(a), Key(b)];
    var lists := TermLists(ix, keys);
    if lists.None? {
      return None;
    }
    var la, lb := lists.value[0], lists.value[1];
    assert Lists(la, ix.docs, keys[0]) && Lists(lb, ix.docs, keys[1]);
    SweepableList(la, ix.docs, a);
    SweepableList(lb, ix.docs, b);
    var out := NearIntersect(la, lb, Truncated(n));
    forall id
      ensures id in out <==> id in ix.docs && NearTokens(ix.docs[id], a, b, Truncated(n))
    {
      NearListed(la, lb, ix.docs, a, b, Truncated(n), id);
    }
    r := Some(out);
  }

  // ----- What the scan makes of it

  lemma {:induction false} StartsNear(tokens: seq<bytes>, a: bytes, b: bytes, n: nat)
    ensures NearColumn(PhraseStarts([a], false, tokens), PhraseStarts([b], false, tokens), n)
       <==> NearColumn(Positions(tokens, Key(a), |tokens|), Positions(tokens, Key(b), |tokens|), n)
  {
    var sa, sb := PhraseStarts([a], false, tokens), PhraseStarts([b], false, tokens);
    var pa, pb := Positions(tokens, Key(a), |tokens|), Positions(tokens, Key(b), |tokens|);
    if NearColumn(sa, sb, n) {
      var x, y :| x in sa && y in sb && Near.AbsDiff(x, y) <= n + 1;
      TokenStart(tokens, a, x);
      TokenStart(tokens, b, y);
    }
    if NearColumn(pa, pb, n) {
      var x, y :| x in pa && y in pb && Near.AbsDiff(x, y) <= n + 1;
      TokenStart(tokens, a, x);
      TokenStart(tokens, b, y);
    }
  }

  lemma {:induction false} IndicesNear(pa: seq<nat>, pb: seq<nat>, n: nat)
    ensures NearColumn(pa, pb, n)
       <==> exists i, j :: 0 <= i < |pa| && 0 <= j < |pb| && Near.AbsDiff(pa[i], pb[j]) <= n + 1
  {
    if NearColumn(pa, pb, n) {
      var x, y :| x in pa && y in pb && Near.AbsDiff(x, y) <= n + 1;
      var i :| 0 <= i < |pa| && pa[i] == x;
      var j :| 0 <= j < |pb| && pb[j] == y;
    }
    if i, j :| 0 <= i < |pa| && 0 <= j < |pb| && Near.AbsDiff(pa[i], pb[j]) <= n + 1 {
      assert pa[i] in pa && pb[j] in pb;
    }
  }

  lemma {:induction false} BareStarts(t: Term, token: bytes, tokens: seq<bytes>)
    requires BareToken(t) == Some(token)
    ensures TermStarts(t, tokens) == PhraseStarts([token], false, tokens) && |t.phrase| == 1
  {
    assert t.phrase == [token];
  }

  lemma {:induction false} LocatedPair(phrases: seq<Term>, a: bytes, b: bytes, tokens: seq<bytes>)
    requires |phrases| == 2 && BareToken(phrases[0]) == Some(a) && BareToken(phrases[1]) == Some(b)
    ensures Located(phrases, tokens)
         == [Near.Phrase(PhraseStarts([a], false, tokens), 1), Near.Phrase(PhraseStarts([b], false, tokens), 1)]
  {
    BareStarts(phrases[0], a, tokens);
    BareStarts(phrases[1], b, tokens);
  }

  lemma {:induction false} NearStarts(sa: seq<nat>, sb: seq<nat>, n: nat)
    requires Ascending(sa) && Ascending(sb)
    ensures Near.NearHolds([Near.Phrase(sa, 1), Near.Phrase(sb, 1)], n) <==> NearColumn(sa, sb, n)
  {
    Near.TwoTokenAgreement(sa, sb, n);
    IndicesNear(sa, sb, n);
  }

  lemma {:induction false} NearColumnMeans(phrases: seq<Term>, a: bytes, b: bytes, n: nat, name: bytes,
                                           tokens: seq<bytes>)
    requires |phrases| == 2 && BareToken(phrases[0]) == Some(a) && BareToken(phrases[1]) == Some(b)
    ensures NearInColumn(phrases, n, name, tokens)
       <==> NearColumn(Positions(tokens, Key(a), |tokens|), Positions(tokens, Key(b), |tokens|), n)
  {
    LocatedPair(phrases, a, b, tokens);
    NearStarts(PhraseStarts([a], false, tokens), PhraseStarts([b], false, tokens), n);
    StartsNear(tokens, a, b, n);
  }

  /** For the scan, too, two bare terms are near each other if their tokens are. */
  lemma {:induction false} NearMeans(phrases: seq<Term>, a: bytes, b: bytes, n: nat, names: seq<bytes>, doc: Document)
    requires |phrases| == 2 && BareToken(phrases[0]) == Some(a) && BareToken(phrases[1]) == Some(b) && |names| == |doc|
    ensures Eval(NearGroup(phrases, n), names, doc) <==> NearTokens(doc, a, b, n)
  {
    forall c | 0 <= c < |doc|
      ensures NearInColumn(phrases, n, names[c], doc[c])
         <==> NearColumn(PositionsOf(doc, c, a), PositionsOf(doc, c, b), n)
    {
      NearColumnMeans(phrases, a, b, n, names[c], doc[c]);
    }
  }

  // ----- The truncated distance

  lemma {:induction false} WideColumn(pa: seq<nat>, pb: seq<nat>, m: nat, n: nat)
    requires m <= n && (m == n || m >= TWO_32 - 2)
    requires (forall x :: x in pa ==> x < TWO_32) && (forall y :: y in pb ==> y < TWO_32)
    ensures NearColumn(pa, pb, m) <==> NearColumn(pa, pb, n)
  {
    if NearColumn(pa, pb, n) {
      var x, y :| x in pa && y in pb && Near.AbsDiff(x, y) <= n + 1;
      assert Near.AbsDiff(x, y) <= m + 1;
    }
  }

  // Tokens of a document are less than 32 bits apart.
  lemma {:induction false} WideNear(doc: Document, a: bytes, b: bytes, m: nat, n: nat)
    requires DocOk(doc) && m <= n && (m == n || m >= TWO_32 - 2)
    ensures NearTokens(doc, a, b, m) <==> NearTokens(doc, a, b, n)
  {
    forall c | 0 <= c < |doc|
      ensures NearColumn(PositionsOf(doc, c, a), PositionsOf(doc, c, b), m)
         <==> NearColumn(PositionsOf(doc, c, a), PositionsOf(doc, c, b), n)
    {
      PositionsAre(doc[c], Key(a), |doc[c]|);
      PositionsAre(doc[c], Key(b), |doc[c]|);
      assert ColumnOk(doc[c]);
      WideColumn(PositionsOf(doc, c, a), PositionsOf(doc, c, b), m, n);
    }
  }

  // A token is as near to itself as can be.
  lemma {:induction false} SelfNear(doc: Document, a: bytes, m: nat, n: nat)
    ensures NearTokens(doc, a, a, m) <==> NearTokens(doc, a, a, n)
  {
    forall c | 0 <= c < |doc|
      ensures NearColumn(PositionsOf(doc, c, a), PositionsOf(doc, c, a), m)
         <==> NearColumn(PositionsOf(doc, c, a), PositionsOf(doc, c, a), n)
    {
      var ps := PositionsOf(doc, c, a);
      if ps != [] {
        assert ps[0] in ps && Near.AbsDiff(ps[0], ps[0]) == 0;
        assert NearColumn(ps, ps, m) && NearColumn(ps, ps, n);
      }
    }
  }

  // A token that is neither of these.
  function Filler(a: bytes, b: bytes): (t: bytes)
    ensures t != a && t != b && |t| <= 1
  {
    if a != [] && b != [] then [] else if a != [0] && b != [0] then [0] else [1]
  }

  /** The two tokens just further apart than `n + 1`. */
  ghost function Apart(a: bytes, b: bytes, n: nat): Document {
    [[a] + seq(n + 1, _ => Filler(a, b)) + [b]]
  }

  lemma {:induction false} ApartPositions(a: bytes, b: bytes, n: nat, p: nat)
    requires a != b
    ensures p in PositionsOf(Apart(a, b, n), 0, a) <==> p == 0
    ensures p in PositionsOf(Apart(a, b, n), 0, b) <==> p == n + 2
  {
    var tokens := Apart(a, b, n)[0];
    TokenPosition(tokens, a, p);
    TokenPosition(tokens, b, p);
    assert |tokens| == n + 3 && tokens[0] == a && tokens[n + 2] == b;
    assert 0 < p < n + 2 ==> tokens[p] == Filler(a, b);
  }

  lemma {:induction false} ApartNear(a: bytes, b: bytes, m: nat, n: nat)
    requires a != b
    ensures NearTokens(Apart(a, b, m), a, b, n) <==> n > m
  {
    var doc := Apart(a, b, m);
    var pa, pb := PositionsOf(doc, 0, a), PositionsOf(doc, 0, b);
    ApartPositions(a, b, m, 0);
    ApartPositions(a, b, m, m + 2);
    if n > m {
      assert Near.AbsDiff(0, m + 2) <= n + 1;
      assert NearColumn(pa, pb, n);
    }
    if NearTokens(doc, a, b, n) {
      assert NearColumn(pa, pb, n);
      var x, y :| x in pa && y in pb && Near.AbsDiff(x, y) <= n + 1;
      ApartPositions(a, b, m, x);
      ApartPositions(a, b, m, y);
    }
  }

  ghost predicate SameDistance(a: bytes, b: bytes, n: nat) {
    forall doc {:trigger DocOk(doc)} :: DocOk(doc) ==>
      (NearTokens(doc, a, b, Truncated(n)) <==> NearTokens(doc, a, b, n))
  }

  /** The tokens are the same, the distance has no more than 32 bits, or its low bits are as wide as any column. */
  predicate DistanceKept(a: bytes, b: bytes, n: nat) {
    a == b || n < TWO_32 || Truncated(n) >= TWO_32 - 2
  }

  lemma {:induction false} TruncationKeeps(doc: Document, a: bytes, b: bytes, n: nat)
    requires DocOk(doc) && DistanceKept(a, b, n)
    ensures NearTokens(doc, a, b, Truncated(n)) <==> NearTokens(doc, a, b, n)
  {
    if a == b {
      SelfNear(doc, a, Truncated(n), n);
    } else {
      WideNear(doc, a, b, Truncated(n), n);
    }
  }

  /** The index is asked for the low 32 bits of the distance. It finds the same documents exactly if the
      distance is kept in this sense. */
  lemma {:induction false} TruncationIff(a: bytes, b: bytes, n: nat)
    requires |Key(a)| <= MAX_KEY && |Key(b)| <= MAX_KEY
    ensures SameDistance(a, b, n) <==> DistanceKept(a, b, n)
  {
    var m := Truncated(n);
    if DistanceKept(a, b, n) {
      forall doc | DocOk(doc)
        ensures NearTokens(doc, a, b, m) <==> NearTokens(doc, a, b, n)
      {
        TruncationKeeps(doc, a, b, n);
      }
    } else {
      var doc := Apart(a, b, m);
      assert DocOk(doc);
      ApartNear(a, b, m, m);
      ApartNear(a, b, m, n);
    }
  }

  /** `NEAR(a b, 4294967296)` on a document with the two tokens two apart: the scan accepts it, the index
      does not find it. */
  lemma {:induction false} WideDistanceMisses()
    ensures var a, b, n := [0x61], [0x62], TWO_32;
            var doc := [[a, [], b]];
            NearTokens(doc, a, b, n) && !NearTokens(doc, a, b, Truncated(n))
  {
    var a, b, n: bytes := [0x61], [0x62], [];
    assert Truncated(TWO_32) == 0;
    assert Apart(a, b, 0) == [[a, [], b]] by {
      assert [a] + seq(1, _ => Filler(a, b)) + [b] == [a, [], b];
    }
    ApartNear(a, b, 0, TWO_32);
    ApartNear(a, b, 0, 0);
  }
}
