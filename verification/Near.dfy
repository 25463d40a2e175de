/** Proximity search inside one column.

    `NEAR(p1 p2 ..., n)` holds when one occurrence of every phrase can be chosen so
    that the span they cover is at most `n` tokens longer than the phrases themselves.
    The document scan decides this with a sweep over the sorted occurrence lists; the
    index decides the two-token case with a two-pointer sweep. Both are proved to
    decide the existential definition. */
module Near {
  import opened Seqs

  /** One phrase of a NEAR group: the ascending start offsets of its occurrences in the
      column, and its length in tokens. */
  datatype Phrase = Phrase(starts: seq<nat>, len: nat)

  ghost predicate WellFormed(phrases: seq<Phrase>) {
    && |phrases| > 0
    && (forall i :: 0 <= i < |phrases| ==> Ascending(phrases[i].starts))
       // an empty phrase never occurs, so it has no starts
    && (forall i :: 0 <= i < |phrases| && phrases[i].starts != [] ==> phrases[i].len > 0)
  }

  ghost function TotalLen(phrases: seq<Phrase>): nat {
    if phrases == [] then 0 else TotalLen(phrases[..|phrases| - 1]) + phrases[|phrases| - 1].len
  }

  // A choice picks, for each phrase, the index of one of its occurrences.
  ghost predicate IsChoice(phrases: seq<Phrase>, c: seq<nat>) {
    && |c| == |phrases|
    && forall i :: 0 <= i < |c| ==> c[i] < |phrases[i].starts|
  }

  ghost function Start(phrases: seq<Phrase>, c: seq<nat>, i: nat): nat
    requires IsChoice(phrases, c) && i < |c|
  {
    phrases[i].starts[c[i]]
  }

  ghost function End(phrases: seq<Phrase>, c: seq<nat>, i: nat): int
    requires IsChoice(phrases, c) && i < |c|
  {
    phrases[i].starts[c[i]] + phrases[i].len - 1
  }

  /** The choice lies within the window: the distance from any chosen start to any chosen
      end is below `n + totalLen`, i.e. `max_end - min_start < n + totalLen`. */
  ghost predicate InWindow(phrases: seq<Phrase>, n: nat, c: seq<nat>)
    requires IsChoice(phrases, c)
  {
    forall i, j :: 0 <= i < |c| && 0 <= j < |c| ==>
      End(phrases, c, j) - Start(phrases, c, i) < n + TotalLen(phrases)
  }

  ghost predicate Satisfies(phrases: seq<Phrase>, n: nat, c: seq<nat>) {
    IsChoice(phrases, c) && InWindow(phrases, n, c)
  }

  /** The meaning of a NEAR group. */
  ghost predicate NearHolds(phrases: seq<Phrase>, n: nat) {
    exists c :: Satisfies(phrases, n, c)
  }

  ghost predicate Dominates(o: seq<nat>, ptr: seq<nat>) {
    |o| == |ptr| && forall i :: 0 <= i < |o| ==> ptr[i] <= o[i]
  }

  method SumLengths(phrases: seq<Phrase>) returns (total: nat)
    ensures total == TotalLen(phrases)
  {
    total := 0;
    for i := 0 to |phrases|
      invariant total == TotalLen(phrases[..i])
    {
      assert phrases[..i + 1][..i] == phrases[..i];
      total := total + phrases[i].len;
    }
    assert phrases[..|phrases|] == phrases;
  }

  /** One pass of the sweep: the smallest current start (and the phrase that holds it)
      and the largest current end. */
  method Window(phrases: seq<Phrase>, ptr: seq<nat>) returns (minStart: nat, maxEnd: int, minPhrase: nat)
    requires WellFormed(phrases) && IsChoice(phrases, ptr)
    ensures minPhrase < |phrases| && minStart == Start(phrases, ptr, minPhrase)
    ensures forall i :: 0 <= i < |ptr| ==> minStart <= Start(phrases, ptr, i)
    ensures exists j :: 0 <= j < |ptr| && maxEnd == End(phrases, ptr, j)
    ensures forall j :: 0 <= j < |ptr| ==> End(phrases, ptr, j) <= maxEnd
  {
    minStart, minPhrase := phrases[0].starts[ptr[0]], 0;
    maxEnd := phrases[0].starts[ptr[0]] + phrases[0].len - 1;
    ghost var endPhrase := 0;
    assert maxEnd == End(phrases, ptr, endPhrase);
    for i := 1 to |phrases|
      invariant minPhrase < i && minStart == Start(phrases, ptr, minPhrase)
      invariant forall j :: 0 <= j < i ==> minStart <= Start(phrases, ptr, j)
      invariant 0 <= endPhrase < i && maxEnd == End(phrases, ptr, endPhrase)
      invariant forall j :: 0 <= j < i ==> End(phrases, ptr, j) <= maxEnd
    {
      var s := phrases[i].starts[ptr[i]];
      var e := s + phrases[i].len - 1;
      if s < minStart {
        minStart, minPhrase := s, i;
      }
      if e > maxEnd {
        maxEnd, endPhrase := e, i;
      }
    }
  }

  /** While no window has been found, every satisfying choice lies strictly to the right of
      the pointer at the current minimum. */
  lemma {:induction false} AdvanceIsSafe(phrases: seq<Phrase>, n: nat, ptr: seq<nat>, o: seq<nat>, m: nat, last: nat)
    requires WellFormed(phrases) && IsChoice(phrases, ptr) && Satisfies(phrases, n, o)
    requires Dominates(o, ptr) && m < |ptr| && last < |ptr|
    requires End(phrases, ptr, last) - Start(phrases, ptr, m) >= n + TotalLen(phrases)
    ensures ptr[m] < o[m]
  {
    assert Ascending(phrases[last].starts);
    assert End(phrases, ptr, last) <= End(phrases, o, last);
    assert Start(phrases, ptr, m) < Start(phrases, o, m);
  }

  /** The K-phrase sweep of the document scan. */
  method NearMatches(phrases: seq<Phrase>, n: nat) returns (b: bool)
    requires WellFormed(phrases)
    ensures b <==> NearHolds(phrases, n)
  {
    for i := 0 to |phrases|
      invariant forall j :: 0 <= j < i ==> phrases[j].starts != []
    {
      if phrases[i].starts == [] {
        assert forall c :: IsChoice(phrases, c) ==> c[i] < |phrases[i].starts|;
        return false;
      }
    }
    var totalLen := SumLengths(phrases);
    var ptr: seq<nat> := seq(|phrases|, _ => 0);
    while true
      invariant IsChoice(phrases, ptr)
      invariant forall o :: Satisfies(phrases, n, o) ==> Dominates(o, ptr)
      decreases Remaining(phrases, ptr)
    {
      var minStart, maxEnd, minPhrase := Window(phrases, ptr);
      if maxEnd - minStart < n + totalLen {
        assert Satisfies(phrases, n, ptr);
        return true;
      }
      ghost var last :| 0 <= last < |ptr| && maxEnd == End(phrases, ptr, last);
      forall o | Satisfies(phrases, n, o)
        ensures ptr[minPhrase] < o[minPhrase]
      {
        AdvanceIsSafe(phrases, n, ptr, o, minPhrase, last);
      }
      if ptr[minPhrase] + 1 >= |phrases[minPhrase].starts| {
        return false;
      }
      RemainingDrops(phrases, ptr, minPhrase);
      ptr := ptr[minPhrase := ptr[minPhrase] + 1];
    }
  }

  // Occurrences not yet passed by the pointers: the sweep's termination measure.
  ghost function Remaining(phrases: seq<Phrase>, ptr: seq<nat>): nat
    requires IsChoice(phrases, ptr)
  {
    if phrases == [] then 0
    else Remaining(phrases[1..], ptr[1..]) + |phrases[0].starts| - ptr[0]
  }

  lemma {:induction false} RemainingDrops(phrases: seq<Phrase>, ptr: seq<nat>, m: nat)
    requires IsChoice(phrases, ptr) && m < |ptr| && ptr[m] + 1 < |phrases[m].starts|
    ensures IsChoice(phrases, ptr[m := ptr[m] + 1])
    ensures Remaining(phrases, ptr[m := ptr[m] + 1]) < Remaining(phrases, ptr)
  {
    var next := ptr[m := ptr[m] + 1];
    if m == 0 {
      assert next[1..] == ptr[1..];
    } else {
      RemainingDrops(phrases[1..], ptr[1..], m - 1);
      assert next[1..] == ptr[1..][m - 1 := ptr[m] + 1];
    }
  }

  // ----- The index's two-token sweep

  const U32_MAX: nat := 0xFFFF_FFFF

  ghost predicate Positions(s: seq<nat>) {
    Ascending(s) && forall i :: 0 <= i < |s| ==> s[i] <= U32_MAX
  }

  function AbsDiff(a: nat, b: nat): nat {
    if a < b then b - a else a - b
  }

  function SaturatingSucc(n: nat): nat {
    if n >= U32_MAX then U32_MAX else n + 1
  }

  /** Some position of the first token is at most `n + 1` away from some position of the
      second (the limit saturates at the 32-bit maximum, which no gap exceeds). */
  method NearWithinInColumn(pa: seq<nat>, pb: seq<nat>, n: nat) returns (b: bool)
    requires Positions(pa) && Positions(pb) && n <= U32_MAX
    ensures b <==> exists i, j :: 0 <= i < |pa| && 0 <= j < |pb| && AbsDiff(pa[i], pb[j]) <= n + 1
  {
    var limit := SaturatingSucc(n);
    var i, j := 0, 0;
    while i < |pa| && j < |pb|
      invariant 0 <= i <= |pa| && 0 <= j <= |pb|
      invariant forall x, y :: 0 <= x < |pa| && 0 <= y < |pb| && (x < i || y < j) ==> AbsDiff(pa[x], pb[y]) > n + 1
    {
      var gap := AbsDiff(pa[i], pb[j]);
      if gap <= limit {
        return true;
      }
      if pa[i] < pb[j] {
        i := i + 1;
      } else {
        j := j + 1;
      }
    }
    return false;
  }

  /** The index test and the scan test agree on every pair of single-token phrases. */
  lemma {:induction false} TwoTokenAgreement(pa: seq<nat>, pb: seq<nat>, n: nat)
    requires Ascending(pa) && Ascending(pb)
    ensures NearHolds([Phrase(pa, 1), Phrase(pb, 1)], n)
       <==> exists i, j :: 0 <= i < |pa| && 0 <= j < |pb| && AbsDiff(pa[i], pb[j]) <= n + 1
  {
    var ps := [Phrase(pa, 1), Phrase(pb, 1)];
    assert TotalLen(ps) == 2 by {
      assert ps[..1] == [ps[0]] && [ps[0]][..0] == [];
      assert TotalLen([ps[0]]) == 1;
    }
    if NearHolds(ps, n) {
      var c :| Satisfies(ps, n, c);
      assert End(ps, c, 1) - Start(ps, c, 0) < n + 2;
      assert End(ps, c, 0) - Start(ps, c, 1) < n + 2;
      assert AbsDiff(pa[c[0]], pb[c[1]]) <= n + 1;
    }
    if i, j :| 0 <= i < |pa| && 0 <= j < |pb| && AbsDiff(pa[i], pb[j]) <= n + 1 {
      assert Satisfies(ps, n, [i, j]);
    }
  }
}
