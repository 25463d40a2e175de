/** Reading an index: the bounded range scan and the equality-prefix seek.

    Both walk the tree and skip what cannot match. The claim is that nothing is missed: the result
    is the filter of the in-order entries. */
module IndexScan {
  import opened Seqs
  import opened Bytes
  import opened Values
  import opened Records
  import opened IndexTree

  /** A bound on the leading columns: a key and whether it is included. */
  datatype Bound = Unbounded | Bound(key: Record, inclusive: bool)

  predicate PassesLower(lower: Bound, rec: Record, info: KeyInfo) {
    match lower
    case Unbounded => true
    case Bound(key, inclusive) =>
      match PrefixCmp(key, rec, info)
      case Greater => false
      case Equal => inclusive
      case Less => true
  }

  predicate BeyondUpper(upper: Bound, rec: Record, info: KeyInfo) {
    match upper
    case Unbounded => false
    case Bound(key, inclusive) =>
      match PrefixCmp(key, rec, info)
      case Less => true
      case Equal => !inclusive
      case Greater => false
  }

  datatype Range = Range(lower: Bound, upper: Bound, info: KeyInfo) {
    /** The records a range query is for. */
    predicate Contains(rec: Record) {
      PassesLower(lower, rec, info) && !BeyondUpper(upper, rec, info)
    }

    predicate Past(rec: Record) {
      BeyondUpper(upper, rec, info)
    }

    function AsTests(): Tests {
      Tests((e: Entry) => Contains(e.rec), (e: Entry) => Past(e.rec))
    }
  }

  /** What a scan asks of an entry: whether to return it, and whether to stop at it. An entry to stop
      at is not returned. */
  datatype Tests = Tests(take: Entry -> bool, past: Entry -> bool) {
    ghost predicate Valid() {
      forall e :: past(e) ==> !take(e)
    }
  }

  ghost function InRange(s: seq<Entry>, q: Tests): seq<Record> {
    if s == [] then []
    else (if q.take(s[0]) then [s[0].rec] else []) + InRange(s[1..], q)
  }

  /** The scan of a list: stop at the first record past the upper bound. */
  ghost function Scan(s: seq<Entry>, q: Tests): seq<Record> {
    if s == [] || q.past(s[0]) then []
    else (if q.take(s[0]) then [s[0].rec] else []) + Scan(s[1..], q)
  }

  ghost predicate NonePast(s: seq<Entry>, q: Tests) {
    forall i :: 0 <= i < |s| ==> !q.past(s[i])
  }

  lemma {:induction false} NonePastCat(a: seq<Entry>, b: seq<Entry>, q: Tests)
    ensures NonePast(a + b, q) <==> NonePast(a, q) && NonePast(b, q)
  {
    assert forall i :: 0 <= i < |b| ==> b[i] == (a + b)[|a| + i];
    assert forall i :: 0 <= i < |a| ==> a[i] == (a + b)[i];
  }

  lemma {:induction false} NonePastFirst(a: seq<Entry>, q: Tests)
    requires a != []
    ensures NonePast(a, q) <==> !q.past(a[0]) && NonePast(a[1..], q)
  {
    assert a == [a[0]] + a[1..];
    NonePastCat([a[0]], a[1..], q);
  }

  lemma {:induction false} ScanFirst(s: seq<Entry>, first: Entry, rest: seq<Entry>, q: Tests)
    requires s != [] && s[0] == first && s[1..] == rest
    ensures Scan(s, q) == if q.past(first) then [] else (if q.take(first) then [first.rec] else []) + Scan(rest, q)
  {
  }

  lemma {:induction false} ScanCat(a: seq<Entry>, b: seq<Entry>, q: Tests)
    ensures Scan(a + b, q) == if NonePast(a, q) then Scan(a, q) + Scan(b, q) else Scan(a, q)
    ensures NonePast(a + b, q) <==> NonePast(a, q) && NonePast(b, q)
  {
    NonePastCat(a, b, q);
    if a == [] {
      assert a + b == b;
    } else {
      ScanCat(a[1..], b, q);
      assert (a + b)[1..] == a[1..] + b;
      NonePastFirst(a, q);
      ScanFirst(a + b, a[0], a[1..] + b, q);
      ScanFirst(a, a[0], a[1..], q);
      Assoc(if q.take(a[0]) then [a[0].rec] else [], Scan(a[1..], q), Scan(b, q));
    }
  }

  lemma {:induction false} ScanOne(e: Entry, q: Tests)
    requires q.Valid()
    ensures Scan([e], q) == if q.take(e) then [e.rec] else []
    ensures NonePast([e], q) <==> !q.past(e)
  {
    assert [e][1..] == [];
  }

  method ScanLeaf(entries: seq<Entry>, q: Tests) returns (out: seq<Record>, more: bool)
    requires q.Valid()
    ensures out == Scan(entries, q) && more == NonePast(entries, q)
  {
    out := [];
    for i := 0 to |entries|
      invariant out == Scan(entries[..i], q) && NonePast(entries[..i], q)
    {
      assert entries[..i + 1] == entries[..i] + [entries[i]];
      assert entries == entries[..i + 1] + entries[i + 1..];
      ScanCat(entries[..i], [entries[i]], q);
      ScanCat(entries[..i + 1], entries[i + 1..], q);
      ScanOne(entries[i], q);
      if q.past(entries[i]) {
        return out, false;
      }
      if q.take(entries[i]) {
        out := out + [entries[i].rec];
      }
    }
    assert entries[..|entries|] == entries;
    return out, true;
  }

  /** In-order range traversal; the second result is false once the upper bound was passed. */
  method RangeScan(pages: map<nat, Node>, pg: nat, q: Tests, ghost t: Tree)
    returns (out: seq<Record>, more: bool)
    requires Represents(pages, t) && Linked(t) && t.pg == pg && q.Valid()
    ensures out == Scan(Flat(t), q) && more == NonePast(Flat(t), q)
    decreases t
  {
    match pages[pg] {
      case Leaf(entries) =>
        out, more := ScanLeaf(entries, q);
      case Interior(children, divs) =>
        out := [];
        for k := 0 to |divs|
          invariant out == Scan(LeftOf(t.kids, t.divs, k), q) && NonePast(LeftOf(t.kids, t.divs, k), q)
        {
          assert Represents(pages, t.kids[k]) && Linked(t.kids[k]);
          StepFlat(t.kids, t.divs, k, q);
          var sub, go := RangeScan(pages, children[k], q, t.kids[k]);
          out := out + sub;
          if !go {
            return out, false;
          }
          if q.past(divs[k]) {
            return out, false;
          }
          if q.take(divs[k]) {
            out := out + [divs[k].rec];
          }
        }
        var n := |divs|;
        assert Represents(pages, t.kids[n]) && Linked(t.kids[n]);
        LastFlat(t.kids, t.divs, q);
        var sub, go := RangeScan(pages, children[n], q, t.kids[n]);
        return out + sub, go;
    }
  }

  // Passing child `k` and the divider after it.
  lemma {:induction false} StepFlat(kids: seq<Tree>, divs: seq<Entry>, k: nat, q: Tests)
    requires q.Valid() && |kids| == |divs| + 1 && k < |divs| && NonePast(LeftOf(kids, divs, k), q)
    ensures var left, sub := Scan(LeftOf(kids, divs, k), q), Scan(Flat(kids[k]), q);
            if NonePast(Flat(kids[k]), q) && !q.past(divs[k])
            then Scan(LeftOf(kids, divs, k + 1), q) == left + sub + (if q.take(divs[k]) then [divs[k].rec] else [])
                 && NonePast(LeftOf(kids, divs, k + 1), q)
            else Scan(FlatF(kids, divs), q) == left + sub && !NonePast(FlatF(kids, divs), q)
  {
    var a, m, d := LeftOf(kids, divs, k), Flat(kids[k]), divs[k];
    LeftOfNext(kids, divs, k);
    ScanCat(a + m, [d], q);
    ScanCat(a, m, q);
    ScanOne(d, q);
    StepRest(kids, divs, k, q);
  }

  lemma {:induction false} StepRest(kids: seq<Tree>, divs: seq<Entry>, k: nat, q: Tests)
    requires q.Valid() && |kids| == |divs| + 1 && k < |divs|
    ensures var am := LeftOf(kids, divs, k) + Flat(kids[k]);
            !NonePast(am + [divs[k]], q) ==>
              Scan(FlatF(kids, divs), q) == Scan(am, q) && !NonePast(FlatF(kids, divs), q)
  {
    var am, d := LeftOf(kids, divs, k) + Flat(kids[k]), divs[k];
    var rest := FlatF(kids[k + 1..], divs[k + 1..]);
    WindowFlat(kids, divs, k, k + 1);
    assert kids[k..k + 1] == [kids[k]] && divs[k..k] == [];
    assert FlatF(kids, divs) == am + [d] + rest;
    ScanCat(am + [d], rest, q);
    ScanCat(am, [d], q);
    ScanOne(d, q);
  }

  lemma {:induction false} LeftOfNext(kids: seq<Tree>, divs: seq<Entry>, k: nat)
    requires |kids| == |divs| + 1 && k < |divs|
    ensures LeftOf(kids, divs, k + 1) == LeftOf(kids, divs, k) + Flat(kids[k]) + [divs[k]]
  {
    if k == 0 {
      assert kids[..1] == [kids[0]] && divs[..0] == [];
    } else {
      assert kids[..k + 1] == kids[..k] + [kids[k]];
      assert divs[..k] == divs[..k - 1] + [divs[k - 1]] + [];
      FlatCat(kids[..k], divs[..k - 1], divs[k - 1], [kids[k]], []);
    }
  }

  lemma {:induction false} LastFlat(kids: seq<Tree>, divs: seq<Entry>, q: Tests)
    requires |kids| == |divs| + 1 && NonePast(LeftOf(kids, divs, |divs|), q)
    ensures Scan(FlatF(kids, divs), q) == Scan(LeftOf(kids, divs, |divs|), q) + Scan(Flat(kids[|divs|]), q)
    ensures NonePast(FlatF(kids, divs), q) <==> NonePast(Flat(kids[|divs|]), q)
  {
    LastChildFlat(kids, divs);
    ScanCat(LeftOf(kids, divs, |divs|), Flat(kids[|divs|]), q);
  }

  lemma {:induction false} LastChildFlat(kids: seq<Tree>, divs: seq<Entry>)
    requires |kids| == |divs| + 1
    ensures FlatF(kids, divs) == LeftOf(kids, divs, |divs|) + Flat(kids[|divs|])
  {
    var n := |divs|;
    WindowFlat(kids, divs, n, n + 1);
    assert kids[n..n + 1] == [kids[n]] && divs[n..n] == [];
  }

  // ----- Why stopping early is safe

  /** Records in index order that all have the columns of the key. */
  ghost predicate Keyed(s: seq<Entry>, info: KeyInfo, width: nat) {
    && Sorted(s, IndexOrder(info))
    && forall i :: 0 <= i < |s| ==> width <= |s[i].rec|
  }

  ghost function Width(b: Bound): nat {
    if b.Unbounded? then 0 else |b.key|
  }

  /** Nothing to return comes after a record that is past. */
  ghost predicate NoneAfterPast(s: seq<Entry>, q: Tests) {
    forall i, j :: 0 <= i < j < |s| && q.past(s[i]) ==> !q.take(s[j])
  }

  lemma {:induction false} KeyedNoneAfterPast(s: seq<Entry>, q: Range)
    requires Keyed(s, q.info, Width(q.upper))
    ensures NoneAfterPast(s, q.AsTests())
  {
    forall i, j | 0 <= i < j < |s| && q.Past(s[i].rec)
      ensures q.Past(s[j].rec)
    {
      assert IndexOrder(q.info)(s[i].rec, s[j].rec) == Less;
      PrefixMonotone(q.upper.key, s[i].rec, s[j].rec, q.info);
    }
  }

  lemma {:induction false} NothingInRange(s: seq<Entry>, q: Tests)
    ensures InRange(s, q) == [] <==> forall i :: 0 <= i < |s| ==> !q.take(s[i])
  {
    if s != [] {
      NothingInRange(s[1..], q);
      assert forall i :: 0 <= i < |s| ==> s[i] == if i == 0 then s[0] else s[1..][i - 1];
    }
  }

  lemma {:induction false} NoneAfterFirst(s: seq<Entry>, q: Tests)
    requires s != []
    ensures NoneAfterPast(s, q)
       <==> NoneAfterPast(s[1..], q) && (q.past(s[0]) ==> forall j :: 0 <= j < |s[1..]| ==> !q.take(s[1..][j]))
  {
    var t := s[1..];
    assert forall i :: 0 <= i < |t| ==> t[i] == s[i + 1];
    if NoneAfterPast(t, q) && (q.past(s[0]) ==> forall j :: 0 <= j < |t| ==> !q.take(t[j])) {
      forall i, j | 0 <= i < j < |s| && q.past(s[i])
        ensures !q.take(s[j])
      {
        assert s[j] == t[j - 1] && (i > 0 ==> s[i] == t[i - 1]);
      }
    }
  }

  /** The early exit loses nothing exactly if nothing to return comes after it. */
  lemma {:induction false} ScanIsFilter(s: seq<Entry>, q: Tests)
    requires q.Valid()
    ensures Scan(s, q) == InRange(s, q) <==> NoneAfterPast(s, q)
  {
    if s != [] {
      var t := s[1..];
      NoneAfterFirst(s, q);
      if q.past(s[0]) {
        assert !q.take(s[0]);
        NothingInRange(t, q);
        if InRange(t, q) == [] {
          NonePastNoTake(t, q);
        }
      } else {
        ScanIsFilter(t, q);
        SameTail(if q.take(s[0]) then [s[0].rec] else [], Scan(t, q), InRange(t, q));
      }
    }
  }

  lemma {:induction false} NonePastNoTake(t: seq<Entry>, q: Tests)
    requires forall i :: 0 <= i < |t| ==> !q.take(t[i])
    ensures NoneAfterPast(t, q)
  {
  }

  lemma {:induction false} SameTail<T>(a: seq<T>, b: seq<T>, c: seq<T>)
    ensures a + b == a + c <==> b == c
  {
    if a + b == a + c {
      assert b == (a + b)[|a|..] == (a + c)[|a|..] == c;
    }
  }

  /** A range query on an index stops at the first record past its upper bound. It returns exactly the
      records in range, in index order, with DESC columns or without, exactly if none of them comes later,
      and so whenever every record has the columns of the upper bound. */
  method IndexRangeRecords(pages: map<nat, Node>, root: nat, q: Range, ghost t: Tree) returns (out: seq<Record>)
    requires Represents(pages, t) && Linked(t) && t.pg == root
    ensures out == Scan(Flat(t), q.AsTests())
    ensures out == InRange(Flat(t), q.AsTests()) <==> NoneAfterPast(Flat(t), q.AsTests())
    ensures Keyed(Flat(t), q.info, Width(q.upper)) ==> out == InRange(Flat(t), q.AsTests())
  {
    var more;
    out, more := RangeScan(pages, root, q.AsTests(), t);
    if Keyed(Flat(t), q.info, Width(q.upper)) {
      KeyedNoneAfterPast(Flat(t), q);
    }
    ScanIsFilter(Flat(t), q.AsTests());
  }

  // ----- Equality-prefix seek

  /** How the search key compares with an entry. */
  type Verdict = Entry -> Ordering

  function KeyVerdict(key: Record, info: KeyInfo): Verdict {
    (e: Entry) => PrefixCmp(key, e.rec, info)
  }

  ghost function Matches(s: seq<Entry>, v: Verdict): seq<Record> {
    if s == [] then []
    else (if v(s[0]) == Equal then [s[0].rec] else []) + Matches(s[1..], v)
  }

  lemma {:induction false} MatchesCat(a: seq<Entry>, b: seq<Entry>, v: Verdict)
    ensures Matches(a + b, v) == Matches(a, v) + Matches(b, v)
  {
    if a == [] {
      assert a + b == b;
    } else {
      MatchesCat(a[1..], b, v);
      assert (a + b)[1..] == a[1..] + b && (a + b)[0] == a[0];
      Assoc(if v(a[0]) == Equal then [a[0].rec] else [], Matches(a[1..], v), Matches(b, v));
    }
  }

  lemma {:induction false} MatchesOne(e: Entry, v: Verdict)
    ensures Matches([e], v) == if v(e) == Equal then [e.rec] else []
  {
    assert [e][1..] == [];
  }

  lemma {:induction false} NoMatches(s: seq<Entry>, v: Verdict)
    requires forall i :: 0 <= i < |s| ==> v(s[i]) != Equal
    ensures Matches(s, v) == []
  {
    if s != [] {
      NoMatches(s[1..], v);
    }
  }

  /** No match comes after a record above the key, and none before a record below it. */
  ghost predicate Findable(s: seq<Entry>, v: Verdict) {
    forall i, j :: 0 <= i < j < |s| ==>
      && (v(s[i]) == Less ==> v(s[j]) != Equal)
      && (v(s[j]) == Greater ==> v(s[i]) != Equal)
  }

  lemma {:induction false} KeyedIsFindable(s: seq<Entry>, key: Record, info: KeyInfo)
    requires Keyed(s, info, |key|)
    ensures Findable(s, KeyVerdict(key, info))
  {
    var v := KeyVerdict(key, info);
    forall i, j | 0 <= i < j < |s|
      ensures v(s[i]) == Less ==> v(s[j]) == Less
      ensures v(s[j]) == Greater ==> v(s[i]) == Greater
    {
      assert IndexOrder(info)(s[i].rec, s[j].rec) == Less;
      PrefixMonotone(key, s[i].rec, s[j].rec, info);
    }
  }

  lemma {:induction false} FindableParts(a: seq<Entry>, m: seq<Entry>, b: seq<Entry>, v: Verdict)
    requires Findable(a + m + b, v)
    ensures Findable(a, v) && Findable(m, v) && Findable(b, v)
  {
    var s := a + m + b;
    assert forall i :: 0 <= i < |a| ==> a[i] == s[i];
    assert forall i :: 0 <= i < |m| ==> m[i] == s[|a| + i];
    assert forall i :: 0 <= i < |b| ==> b[i] == s[|a| + |m| + i];
  }

  // Before a record below the key there is no match.
  lemma {:induction false} NoMatchBefore(a: seq<Entry>, d: Entry, v: Verdict)
    requires Findable(a + [d], v) && v(d) == Greater
    ensures Matches(a + [d], v) == []
  {
    var s := a + [d];
    assert forall i :: 0 <= i < |a| ==> v(s[i]) != Equal by {
      assert s[|a|] == d;
    }
    NoMatches(s, v);
  }

  // Nothing from an entry above the key on matches.
  lemma {:induction false} StopHere(s: seq<Entry>, i: nat, v: Verdict)
    requires Findable(s, v) && i < |s| && v(s[i]) == Less
    ensures Matches(s, v) == Matches(s[..i], v)
  {
    forall j | 0 <= j < |s[i..]|
      ensures v(s[i..][j]) != Equal
    {
      assert s[i..][j] == s[i + j];
    }
    NoMatches(s[i..], v);
    MatchesCat(s[..i], s[i..], v);
    assert s == s[..i] + s[i..];
  }

  // ----- What the seek returns

  /** On a leaf the seek stops at the first record above the key. */
  ghost function SoughtLeaf(s: seq<Entry>, v: Verdict): seq<Record> {
    if s == [] || v(s[0]) == Less then []
    else (if v(s[0]) == Equal then [s[0].rec] else []) + SoughtLeaf(s[1..], v)
  }

  // The first divider that is not below the key.
  ghost function NotBelow(divs: seq<Entry>, v: Verdict): (i: nat)
    ensures i <= |divs| && (i < |divs| ==> v(divs[i]) != Greater) && forall k :: 0 <= k < i ==> v(divs[k]) == Greater
  {
    if divs == [] || v(divs[0]) != Greater then 0 else 1 + NotBelow(divs[1..], v)
  }

  /** What the seek returns from a tree, whatever the verdicts. */
  ghost function Sought(t: Tree, v: Verdict): seq<Record>
    decreases t, 2
  {
    match t
    case TLeaf(_, entries) => SoughtLeaf(entries, v)
    case TNode(_, kids, divs) => SoughtFrom(t, NotBelow(divs, v), v)
  }

  // From child `i` on: the child, and what comes after it.
  ghost function SoughtFrom(t: Tree, i: nat, v: Verdict): seq<Record>
    requires t.TNode?
    decreases t, 1, |t.kids| - i
  {
    if i >= |t.kids| then [] else Sought(t.kids[i], v) + SoughtAfter(t, i, v)
  }

  // After a matching divider the next child.
  ghost function SoughtAfter(t: Tree, i: nat, v: Verdict): seq<Record>
    requires t.TNode? && i < |t.kids|
    decreases t, 0, |t.kids| - i
  {
    if i < |t.divs| && v(t.divs[i]) == Equal then
      [t.divs[i].rec] + (if i + 1 >= |t.kids| then [] else Sought(t.kids[i + 1], v) + SoughtAfter(t, i + 1, v))
    else []
  }

  lemma {:induction false} AfterStep(t: Tree, i: nat, v: Verdict, out: seq<Record>, more: seq<Record>)
    requires t.TNode? && i < |t.divs| && i + 1 < |t.kids| && v(t.divs[i]) == Equal && more == Sought(t.kids[i + 1], v)
    ensures out + SoughtAfter(t, i, v) == (out + [t.divs[i].rec] + more) + SoughtAfter(t, i + 1, v)
  {
    Regroup(out, [t.divs[i].rec], more, SoughtAfter(t, i + 1, v));
  }

  lemma {:induction false} SoughtLeafCat(a: seq<Entry>, b: seq<Entry>, v: Verdict)
    requires forall i :: 0 <= i < |a| ==> v(a[i]) != Less
    ensures SoughtLeaf(a + b, v) == Matches(a, v) + SoughtLeaf(b, v)
  {
    if a == [] {
      assert a + b == b;
    } else {
      SoughtLeafCat(a[1..], b, v);
      assert (a + b)[1..] == a[1..] + b && (a + b)[0] == a[0];
      Assoc(if v(a[0]) == Equal then [a[0].rec] else [], Matches(a[1..], v), SoughtLeaf(b, v));
    }
  }

  lemma {:induction false} LeafFindable(s: seq<Entry>, v: Verdict)
    requires Findable(s, v)
    ensures SoughtLeaf(s, v) == Matches(s, v)
  {
    if s != [] {
      assert s == [s[0]] + s[1..] + [];
      FindableParts([s[0]], s[1..], [], v);
      if v(s[0]) == Less {
        NoMatches(s, v);
      } else {
        LeafFindable(s[1..], v);
      }
    }
  }

  lemma {:induction false} MatchesSnoc(entries: seq<Entry>, i: nat, v: Verdict)
    requires i < |entries|
    ensures Matches(entries[..i + 1], v)
         == Matches(entries[..i], v) + if v(entries[i]) == Equal then [entries[i].rec] else []
  {
    assert entries[..i + 1] == entries[..i] + [entries[i]];
    MatchesCat(entries[..i], [entries[i]], v);
    MatchesOne(entries[i], v);
  }

  method SeekLeaf(entries: seq<Entry>, v: Verdict) returns (out: seq<Record>)
    ensures out == SoughtLeaf(entries, v)
  {
    out := [];
    for i := 0 to |entries|
      invariant out == Matches(entries[..i], v) && forall k :: 0 <= k < i ==> v(entries[k]) != Less
    {
      MatchesSnoc(entries, i, v);
      match v(entries[i]) {
        case Greater =>
        case Equal => out := out + [entries[i].rec];
        case Less =>
          SoughtLeafTo(entries, i, v);
          return;
      }
    }
    SoughtLeafTo(entries, |entries|, v);
  }

  // The search on a leaf ends at the first entry that the key is below.
  lemma {:induction false} SoughtLeafTo(entries: seq<Entry>, i: nat, v: Verdict)
    requires i <= |entries| && (i < |entries| ==> v(entries[i]) == Less)
    requires forall k :: 0 <= k < i ==> v(entries[k]) != Less
    ensures SoughtLeaf(entries, v) == Matches(entries[..i], v)
  {
    assert entries == entries[..i] + entries[i..];
    SoughtLeafCat(entries[..i], entries[i..], v);
  }

  // The matches left of child `i` and in it, when `out` has them: nothing lies before the first divider
  // that is not below the key.
  lemma {:induction false} SkipLeft(kids: seq<Tree>, divs: seq<Entry>, i: nat, v: Verdict)
    requires |kids| == |divs| + 1 && i <= |divs| && Findable(FlatF(kids, divs), v)
    requires i > 0 ==> v(divs[i - 1]) == Greater
    ensures Matches(LeftOf(kids, divs, i), v) == []
  {
    if i > 0 {
      WindowFlat(kids, divs, i, i + 1);
      FindableParts(LeftOf(kids, divs, i), FlatF(kids[i..i + 1], divs[i..i]), RightOf(kids, divs, i + 1), v);
      NoMatchBefore(FlatF(kids[..i], divs[..i - 1]), divs[i - 1], v);
    }
  }

  lemma {:induction false} SkipRight(kids: seq<Tree>, divs: seq<Entry>, i: nat, v: Verdict)
    requires |kids| == |divs| + 1 && i <= |divs| && Findable(FlatF(kids, divs), v)
    requires i < |divs| ==> v(divs[i]) == Less
    ensures Matches(FlatF(kids, divs), v) == Matches(LeftOf(kids, divs, i), v) + Matches(Flat(kids[i]), v)
  {
    var am := LeftOf(kids, divs, i) + Flat(kids[i]);
    MatchesCat(LeftOf(kids, divs, i), Flat(kids[i]), v);
    if i == |divs| {
      LastChildFlat(kids, divs);
    } else {
      WindowFlat(kids, divs, i, i + 1);
      assert kids[i..i + 1] == [kids[i]] && divs[i..i] == [];
      var s := FlatF(kids, divs);
      assert s == am + RightOf(kids, divs, i + 1);
      assert s[|am|] == divs[i] && s[..|am|] == am;
      StopHere(s, |am|, v);
    }
  }

  lemma {:induction false} ChildFindable(kids: seq<Tree>, divs: seq<Entry>, i: nat, v: Verdict)
    requires |kids| == |divs| + 1 && i <= |divs| && Findable(FlatF(kids, divs), v)
    ensures Findable(Flat(kids[i]), v)
  {
    WindowFlat(kids, divs, i, i + 1);
    assert kids[i..i + 1] == [kids[i]] && divs[i..i] == [];
    FindableParts(LeftOf(kids, divs, i), Flat(kids[i]), RightOf(kids, divs, i + 1), v);
  }

  lemma {:induction false} NextMatches(kids: seq<Tree>, divs: seq<Entry>, i: nat, v: Verdict)
    requires |kids| == |divs| + 1 && i < |divs| && v(divs[i]) == Equal
    ensures Matches(LeftOf(kids, divs, i + 1), v)
         == Matches(LeftOf(kids, divs, i), v) + Matches(Flat(kids[i]), v) + [divs[i].rec]
  {
    LeftOfNext(kids, divs, i);
    MatchesCat(LeftOf(kids, divs, i) + Flat(kids[i]), [divs[i]], v);
    MatchesCat(LeftOf(kids, divs, i), Flat(kids[i]), v);
    MatchesOne(divs[i], v);
  }

  method SkipBelow(divs: seq<Entry>, v: Verdict) returns (i: nat)
    ensures i == NotBelow(divs, v)
  {
    i := 0;
    while i < |divs| && v(divs[i]) == Greater
      invariant i <= |divs| && i + NotBelow(divs[i..], v) == NotBelow(divs, v)
    {
      assert divs[i..][1..] == divs[i + 1..];
      i := i + 1;
    }
  }

  // In every child every match is found.
  ghost predicate KidsSought(t: Tree, v: Verdict) {
    t.TNode? && forall k :: 0 <= k < |t.kids| ==> Sought(t.kids[k], v) == Matches(Flat(t.kids[k]), v)
  }

  lemma {:induction false} KidSought(t: Tree, k: nat, v: Verdict)
    requires KidsSought(t, v) && k < |t.kids|
    ensures Sought(t.kids[k], v) == Matches(Flat(t.kids[k]), v)
  {
  }

  // From child `i` on every match is found, if that divider is not below the key.
  lemma {:induction false} FromFindable(t: Tree, i: nat, v: Verdict)
    requires t.TNode? && Linked(t) && i <= |t.divs| && Findable(Flat(t), v)
    requires (i < |t.divs| ==> v(t.divs[i]) != Greater) && KidsSought(t, v)
    ensures Matches(Flat(t), v) == Matches(LeftOf(t.kids, t.divs, i), v) + SoughtFrom(t, i, v)
    decreases |t.kids| - i
  {
    KidSought(t, i, v);
    if i < |t.divs| && v(t.divs[i]) == Equal {
      EqualThenNotGreater(t.kids, t.divs, i, v);
      FromFindable(t, i + 1, v);
      EqualStep(t, i, v);
    } else {
      LastStep(t, i, v);
    }
  }

  lemma {:induction false} LastStep(t: Tree, i: nat, v: Verdict)
    requires t.TNode? && |t.kids| == |t.divs| + 1 && i <= |t.divs| && Findable(Flat(t), v)
    requires Sought(t.kids[i], v) == Matches(Flat(t.kids[i]), v) && (i < |t.divs| ==> v(t.divs[i]) == Less)
    ensures Matches(Flat(t), v) == Matches(LeftOf(t.kids, t.divs, i), v) + SoughtFrom(t, i, v)
  {
    var here := Matches(Flat(t.kids[i]), v);
    SkipRight(t.kids, t.divs, i, v);
    assert here + [] == here;
  }

  lemma {:induction false} EqualStep(t: Tree, i: nat, v: Verdict)
    requires t.TNode? && |t.kids| == |t.divs| + 1 && i < |t.divs| && v(t.divs[i]) == Equal
    requires Sought(t.kids[i], v) == Matches(Flat(t.kids[i]), v)
    requires Matches(Flat(t), v) == Matches(LeftOf(t.kids, t.divs, i + 1), v) + SoughtFrom(t, i + 1, v)
    ensures Matches(Flat(t), v) == Matches(LeftOf(t.kids, t.divs, i), v) + SoughtFrom(t, i, v)
  {
    NextMatches(t.kids, t.divs, i, v);
    Regroup(Matches(LeftOf(t.kids, t.divs, i), v), Matches(Flat(t.kids[i]), v), [t.divs[i].rec],
            SoughtFrom(t, i + 1, v));
  }

  lemma {:induction false} Regroup<T>(a: seq<T>, b: seq<T>, c: seq<T>, d: seq<T>)
    ensures (a + b + c) + d == a + (b + (c + d))
  {
  }

  /** Where the matches can be found, the seek finds them all. */
  lemma {:induction false} SoughtFindable(t: Tree, v: Verdict)
    requires Linked(t) && Findable(Flat(t), v)
    ensures Sought(t, v) == Matches(Flat(t), v)
    decreases t
  {
    match t
    case TLeaf(_, entries) => LeafFindable(entries, v);
    case TNode(_, kids, divs) =>
      forall k | 0 <= k < |kids|
        ensures Sought(kids[k], v) == Matches(Flat(kids[k]), v)
      {
        ChildFindable(kids, divs, k, v);
        SoughtFindable(kids[k], v);
      }
      var i := NotBelow(divs, v);
      SkipLeft(kids, divs, i, v);
      FromFindable(t, i, v);
  }

  /** The equality-prefix seek: skip dividers below the key, then alternate between children and
      matching dividers. */
  method SeekPrefix(pages: map<nat, Node>, pg: nat, v: Verdict, ghost t: Tree)
    returns (out: seq<Record>)
    requires Represents(pages, t) && Linked(t) && t.pg == pg
    ensures out == Sought(t, v)
    decreases t
  {
    match pages[pg] {
      case Leaf(entries) =>
        out := SeekLeaf(entries, v);
      case Interior(children, divs) =>
        var i := SkipBelow(divs, v);
        assert Represents(pages, t.kids[i]) && Linked(t.kids[i]);
        out := SeekPrefix(pages, children[i], v, t.kids[i]);
        while i < |divs| && v(divs[i]) == Equal
          invariant i <= |divs| && Sought(t, v) == out + SoughtAfter(t, i, v)
        {
          assert Represents(pages, t.kids[i + 1]) && Linked(t.kids[i + 1]);
          var more := SeekPrefix(pages, children[i + 1], v, t.kids[i + 1]);
          AfterStep(t, i, v, out, more);
          out := out + [divs[i].rec] + more;
          i := i + 1;
        }
        assert out + [] == out;
    }
  }

  lemma {:induction false} EqualThenNotGreater(kids: seq<Tree>, divs: seq<Entry>, i: nat, v: Verdict)
    requires |kids| == |divs| + 1 && i < |divs| && Findable(FlatF(kids, divs), v)
    requires v(divs[i]) == Equal
    ensures i + 1 < |divs| ==> v(divs[i + 1]) != Greater
  {
    if i + 1 < |divs| {
      WindowFlat(kids, divs, i + 1, i + 2);
      var s := FlatF(kids, divs);
      var a, m := LeftOf(kids, divs, i + 1), FlatF(kids[i + 1..i + 2], divs[i + 1..i + 1]);
      assert s[|a| - 1] == divs[i];
      assert s[|a| + |m|] == divs[i + 1];
    }
  }

  /** The trailing rowid of an index record. */
  function RowidOf(rec: Record): int {
    if rec != [] && rec[|rec| - 1].Integer? then rec[|rec| - 1].i else 0
  }

  function RowidsOf(recs: seq<Record>): (r: seq<int>)
    ensures |r| == |recs|
  {
    seq(|recs|, i requires 0 <= i < |recs| => RowidOf(recs[i]))
  }

  ghost function MatchingRowids(s: seq<Entry>, key: Record, info: KeyInfo): seq<int> {
    RowidsOf(Matches(s, KeyVerdict(key, info)))
  }

  /** An equality lookup on an index returns the rowids of exactly the matching entries, in order, where the
      matches can be found, and so whenever every record has the columns of the key. */
  method IndexSeekRowids(pages: map<nat, Node>, root: nat, key: Record, info: KeyInfo, ghost t: Tree)
    returns (rowids: seq<int>)
    requires Represents(pages, t) && Linked(t) && t.pg == root
    ensures rowids == RowidsOf(Sought(t, KeyVerdict(key, info)))
    ensures Findable(Flat(t), KeyVerdict(key, info)) ==> rowids == MatchingRowids(Flat(t), key, info)
    ensures Keyed(Flat(t), info, |key|) ==> rowids == MatchingRowids(Flat(t), key, info)
  {
    if Keyed(Flat(t), info, |key|) {
      KeyedIsFindable(Flat(t), key, info);
    }
    if Findable(Flat(t), KeyVerdict(key, info)) {
      SoughtFindable(t, KeyVerdict(key, info));
    }
    var recs := SeekPrefix(pages, root, KeyVerdict(key, info), t);
    rowids := RowidsOf(recs);
  }

  // ----- When the seek can miss a match

  // The seek of a leaf returns no more than the matches, and less if one comes after a record above the key.
  lemma {:induction false} LeafMisses(s: seq<Entry>, v: Verdict)
    ensures |SoughtLeaf(s, v)| <= |Matches(s, v)|
    ensures (exists i, j :: 0 <= i < j < |s| && v(s[i]) == Less && v(s[j]) == Equal) ==>
              |SoughtLeaf(s, v)| < |Matches(s, v)|
  {
    if s != [] {
      var t := s[1..];
      LeafMisses(t, v);
      if i, j :| 0 <= i < j < |s| && v(s[i]) == Less && v(s[j]) == Equal {
        assert s[j] == t[j - 1];
        if i == 0 {
          MatchesSome(t, j - 1, v);
        } else {
          assert s[i] == t[i - 1];
        }
      }
    }
  }

  lemma {:induction false} MatchesSome(s: seq<Entry>, j: nat, v: Verdict)
    requires j < |s| && v(s[j]) == Equal
    ensures |Matches(s, v)| > 0
  {
    if j > 0 {
      MatchesSome(s[1..], j - 1, v);
    }
  }

  // Two leaves around entry `j`.
  ghost function SplitAt(s: seq<Entry>, j: nat): Tree
    requires j < |s|
  {
    TNode(1, [TLeaf(2, s[..j]), TLeaf(3, s[j + 1..])], [s[j]])
  }

  lemma {:induction false} SplitAtFlat(s: seq<Entry>, j: nat)
    requires j < |s|
    ensures Linked(SplitAt(s, j)) && Flat(SplitAt(s, j)) == s
  {
    var t := SplitAt(s, j);
    var none: seq<Entry> := [];
    assert t.kids[1..] == [t.kids[1]] && t.divs[1..] == none;
    assert FlatF([t.kids[1]], none) == Flat(t.kids[1]) == s[j + 1..];
    assert FlatF(t.kids, t.divs) == Flat(t.kids[0]) + [t.divs[0]] + FlatF(t.kids[1..], t.divs[1..]);
    assert s == s[..j] + [s[j]] + s[j + 1..];
  }

  // A divider below the key hides a match before it.
  lemma {:induction false} SplitAtMisses(s: seq<Entry>, i: nat, j: nat, v: Verdict)
    requires i < j < |s| && v(s[i]) == Equal && v(s[j]) == Greater
    ensures |Sought(SplitAt(s, j), v)| < |Matches(s, v)|
  {
    var t, right := SplitAt(s, j), s[j + 1..];
    assert NotBelow(t.divs, v) == 1 by {
      assert t.divs[1..] == [];
    }
    assert SoughtAfter(t, 1, v) == [];
    assert Sought(t, v) == SoughtFrom(t, 1, v) == Sought(t.kids[1], v) + [];
    LeafMisses(right, v);
    assert s == s[..j] + ([s[j]] + right);
    MatchesCat(s[..j], [s[j]] + right, v);
    MatchesCat([s[j]], right, v);
    MatchesSome(s[..j], i, v);
  }

  ghost predicate AlwaysFound(s: seq<Entry>, v: Verdict) {
    forall t :: Linked(t) && Flat(t) == s ==> Sought(t, v) == Matches(s, v)
  }

  /** Every tree of these entries gives all matches exactly if no match comes after a record above the key and
      none before a record below it. */
  lemma {:induction false} FoundIff(s: seq<Entry>, v: Verdict)
    ensures AlwaysFound(s, v) <==> Findable(s, v)
  {
    if Findable(s, v) {
      forall t | Linked(t) && Flat(t) == s
        ensures Sought(t, v) == Matches(s, v)
      {
        SoughtFindable(t, v);
      }
    } else {
      var i, j :| 0 <= i < j < |s|
        && ((v(s[i]) == Less && v(s[j]) == Equal) || (v(s[j]) == Greater && v(s[i]) == Equal));
      if v(s[j]) == Equal {
        LeafMisses(s, v);
        assert Linked(TLeaf(1, s)) && Flat(TLeaf(1, s)) == s;
      } else {
        SplitAtMisses(s, i, j, v);
        SplitAtFlat(s, j);
        assert Linked(SplitAt(s, j));
      }
    }
  }

  // ----- Records shorter than the key

  const PLAIN := KeyInfo([], [])

  // A record with fewer columns than the key, and longer ones after it.
  const SHORT: Record := [Integer(1)]

  const LONG: Record := [Integer(1), Integer(0)]

  const LONGER: Record := [Integer(1), Integer(1)]

  const WANTED: Record := [Integer(1), Integer(2)]

  ghost function ShortEntries(): seq<Entry> {
    [Entry(SHORT, []), Entry(LONG, []), Entry(LONGER, [])]
  }

  ghost function ShortTree(): Tree {
    TNode(1, [TLeaf(2, [Entry(SHORT, [])]), TLeaf(3, [Entry(LONGER, [])])], [Entry(LONG, [])])
  }

  lemma {:induction false} ShortVerdicts()
    ensures Sorted(ShortEntries(), IndexOrder(PLAIN))
    ensures PrefixCmp(WANTED, SHORT, PLAIN) == Equal && PrefixCmp(WANTED, LONG, PLAIN) == Greater
    ensures PrefixCmp(WANTED, LONGER, PLAIN) == Greater
  {
    assert CmpRecordsFrom(SHORT, LONG, PLAIN, 1) == Less;
    assert CmpRecordsFrom(SHORT, LONGER, PLAIN, 1) == Less;
    assert CmpRecordsFrom(LONG, LONGER, PLAIN, 1) == Less;
    assert PrefixCmpFrom(WANTED, SHORT, PLAIN, 1) == Equal;
    assert PrefixCmpFrom(WANTED, LONG, PLAIN, 1) == Greater;
    assert PrefixCmpFrom(WANTED, LONGER, PLAIN, 1) == Greater;
  }

  lemma {:induction false} ShortTreeFlat()
    ensures Flat(ShortTree()) == ShortEntries() && Linked(ShortTree())
  {
    var s := ShortEntries();
    assert s[..1] == [s[0]] && s[2..] == [s[2]];
    assert ShortTree() == SplitAt(s, 1);
    SplitAtFlat(s, 1);
  }

  lemma {:induction false} ShortMatches()
    ensures MatchingRowids(ShortEntries(), WANTED, PLAIN) == [1]
    ensures Sought(ShortTree(), KeyVerdict(WANTED, PLAIN)) == []
  {
    ShortVerdicts();
    var s, t, v := ShortEntries(), ShortTree(), KeyVerdict(WANTED, PLAIN);
    NoMatches(s[1..], v);
    assert Matches(s, v) == [SHORT];
    assert NotBelow(t.divs, v) == 1 by {
      assert t.divs[1..] == [];
    }
    assert SoughtAfter(t, 1, v) == [];
    var leaf := [Entry(LONGER, [])];
    assert leaf[1..] == [];
    assert SoughtLeaf(leaf, v) == [];
  }

  lemma {:induction false} ShortPages(pages: map<nat, Node>)
    requires pages == map[1 := Interior([2, 3], [Entry(LONG, [])]), 2 := Leaf([Entry(SHORT, [])]),
                          3 := Leaf([Entry(LONGER, [])])]
    ensures Represents(pages, ShortTree())
  {
    var t := ShortTree();
    assert Represents(pages, t.kids[0]) && Represents(pages, t.kids[1]);
  }

  /** A missing column counts as equal, so with a record shorter than the key the lookup can skip the match:
      on this index in order, one entry matches and none is found. */
  method ShortRecordIsLost() returns (rowids: seq<int>)
    ensures Flat(ShortTree()) == ShortEntries() && Sorted(ShortEntries(), IndexOrder(PLAIN))
    ensures MatchingRowids(ShortEntries(), WANTED, PLAIN) == [1] && rowids == []
  {
    var pages := map[1 := Interior([2, 3], [Entry(LONG, [])]), 2 := Leaf([Entry(SHORT, [])]),
                     3 := Leaf([Entry(LONGER, [])])];
    ShortPages(pages);
    ShortTreeFlat();
    ShortVerdicts();
    ShortMatches();
    rowids := IndexSeekRowids(pages, 1, WANTED, PLAIN, ShortTree());
  }

  const BELOW_WANTED := Range(Unbounded, Bound(WANTED, false), PLAIN)

  /** The same for a range below the key: the short record counts as equal and so ends the scan before the two
      records that are in range. */
  method ShortRecordEndsScan() returns (out: seq<Record>)
    ensures Flat(ShortTree()) == ShortEntries() && Sorted(ShortEntries(), IndexOrder(PLAIN))
    ensures InRange(ShortEntries(), BELOW_WANTED.AsTests()) == [LONG, LONGER] && out == []
  {
    var pages := map[1 := Interior([2, 3], [Entry(LONG, [])]), 2 := Leaf([Entry(SHORT, [])]),
                     3 := Leaf([Entry(LONGER, [])])];
    ShortPages(pages);
    ShortTreeFlat();
    ShortVerdicts();
    ghost var s, q := ShortEntries(), BELOW_WANTED.AsTests();
    assert s[1..] == [s[1], s[2]] && [s[1], s[2]][1..] == [s[2]] && [s[2]][1..] == [];
    assert InRange([s[2]], q) == [LONGER];
    assert InRange([s[1], s[2]], q) == [LONG] + InRange([s[2]], q);
    out := IndexRangeRecords(pages, 1, BELOW_WANTED, ShortTree());
  }
}
