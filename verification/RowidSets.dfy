/** Set operations on ascending lists of rowids, by merging. */
module RowidSets {
  import opened Seqs

  // The wanted ones of what lies before `i` and `j` in both lists.
  ghost predicate CommonTo(a: seq<int>, i: nat, b: seq<int>, j: nat, want: int -> bool, out: seq<int>) {
    && i <= |a| && j <= |b| && Ascending(out) && Past(a, i, b, j) && Past(b, j, a, i)
    && forall x :: x in out <==> x in a[..i] && x in b[..j] && want(x)
  }

  lemma {:induction false} CommonSkip(a: seq<int>, i: nat, b: seq<int>, j: nat, want: int -> bool, out: seq<int>)
    requires Ascending(a) && Ascending(b) && CommonTo(a, i, b, j, want, out) && i < |a| && j < |b| && a[i] < b[j]
    ensures CommonTo(a, i + 1, b, j, want, out)
  {
    assert a[..i + 1] == a[..i] + [a[i]];
    assert a[i] !in b[..j];
  }

  lemma {:induction false} CommonFlip(a: seq<int>, i: nat, b: seq<int>, j: nat, want: int -> bool, out: seq<int>)
    requires CommonTo(a, i, b, j, want, out)
    ensures CommonTo(b, j, a, i, want, out)
  {
  }

  lemma {:induction false} CommonTake(a: seq<int>, i: nat, b: seq<int>, j: nat, want: int -> bool, out: seq<int>)
    requires Ascending(a) && Ascending(b) && CommonTo(a, i, b, j, want, out) && i < |a| && j < |b| && a[i] == b[j]
    ensures CommonTo(a, i + 1, b, j + 1, want, if want(a[i]) then out + [a[i]] else out)
  {
    BothBelow(a, i, b, j, out);
    assert a[..i + 1] == a[..i] + [a[i]] && b[..j + 1] == b[..j] + [b[j]];
    assert a[i] !in a[..i] && b[j] !in b[..j];
  }

  lemma {:induction false} CommonEnd(a: seq<int>, i: nat, b: seq<int>, j: nat, want: int -> bool, out: seq<int>)
    requires CommonTo(a, i, b, j, want, out) && (i == |a| || j == |b|)
    ensures Ascending(out) && forall x :: x in out <==> x in a && x in b && want(x)
  {
    Rest(a, i, b, j);
  }

  method Intersect(a: seq<int>, b: seq<int>) returns (out: seq<int>)
    requires Ascending(a) && Ascending(b)
    ensures Ascending(out) && forall x :: x in out <==> x in a && x in b
  {
    out := [];
    ghost var want := (x: int) => true;
    var i, j := 0, 0;
    while i < |a| && j < |b|
      invariant CommonTo(a, i, b, j, want, out)
    {
      if a[i] < b[j] {
        CommonSkip(a, i, b, j, want, out);
        i := i + 1;
      } else if a[i] > b[j] {
        CommonFlip(a, i, b, j, want, out);
        CommonSkip(b, j, a, i, want, out);
        CommonFlip(b, j + 1, a, i, want, out);
        j := j + 1;
      } else {
        CommonTake(a, i, b, j, want, out);
        out := out + [a[i]];
        i, j := i + 1, j + 1;
      }
    }
    CommonEnd(a, i, b, j, want, out);
  }

  // What lies before `i` in `a` is below what is left of `b`.
  ghost predicate Past(a: seq<int>, i: nat, b: seq<int>, j: nat) {
    i <= |a| && forall x, y :: 0 <= x < i && j <= y < |b| ==> a[x] < b[y]
  }

  lemma {:induction false} BothBelow(a: seq<int>, i: nat, b: seq<int>, j: nat, out: seq<int>)
    requires i < |a| && j < |b| && Ascending(a) && forall x :: x in out ==> x in a[..i]
    ensures forall k :: 0 <= k < |out| ==> out[k] < a[i]
  {
    forall k | 0 <= k < |out|
      ensures out[k] < a[i]
    {
      assert out[k] in out;
    }
  }

  // One list is at its end: the other has nothing more in common.
  lemma {:induction false} Rest(a: seq<int>, i: nat, b: seq<int>, j: nat)
    requires i <= |a| && j <= |b| && (i == |a| || j == |b|) && Past(a, i, b, j) && Past(b, j, a, i)
    ensures forall x :: x in a && x in b <==> x in a[..i] && x in b[..j]
  {
    forall x | x in a && x in b
      ensures x in a[..i] && x in b[..j]
    {
      var k :| 0 <= k < |a| && a[k] == x;
      var l :| 0 <= l < |b| && b[l] == x;
    }
  }

  // The union of what lies before `i` and `j`, below the rest.
  ghost predicate UnionTo(a: seq<int>, i: nat, b: seq<int>, j: nat, out: seq<int>) {
    && i <= |a| && j <= |b| && Ascending(out) && Below(out, a[i..]) && Below(out, b[j..])
    && forall x :: x in out <==> x in a[..i] || x in b[..j]
  }

  lemma {:induction false} TakeFirst(a: seq<int>, i: nat, b: seq<int>, j: nat, out: seq<int>)
    requires Ascending(a) && Ascending(b) && UnionTo(a, i, b, j, out) && i < |a| && (j < |b| ==> a[i] < b[j])
    ensures UnionTo(a, i + 1, b, j, out + [a[i]]) && UnionTo(b, j, a, i + 1, out + [a[i]])
  {
    assert a[..i + 1] == a[..i] + [a[i]];
    assert a[i..] == [a[i]] + a[i + 1..];
  }

  lemma {:induction false} TakeBoth(a: seq<int>, i: nat, b: seq<int>, j: nat, out: seq<int>)
    requires Ascending(a) && Ascending(b) && UnionTo(a, i, b, j, out) && i < |a| && j < |b| && a[i] == b[j]
    ensures UnionTo(a, i + 1, b, j + 1, out + [a[i]])
  {
    assert a[..i + 1] == a[..i] + [a[i]] && b[..j + 1] == b[..j] + [b[j]];
    assert a[i..] == [a[i]] + a[i + 1..] && b[j..] == [b[j]] + b[j + 1..];
  }

  // The rest of the first list, after the end of the second.
  lemma {:induction false} TakeRest(a: seq<int>, i: nat, b: seq<int>, out: seq<int>)
    requires Ascending(a) && UnionTo(a, i, b, |b|, out)
    ensures Ascending(out + a[i..]) && forall x :: x in out + a[i..] <==> x in a || x in b
  {
    AscendingCat(out, a[i..]);
    assert a == a[..i] + a[i..] && b[..|b|] == b;
  }

  method Union(a: seq<int>, b: seq<int>) returns (out: seq<int>)
    requires Ascending(a) && Ascending(b)
    ensures Ascending(out) && forall x :: x in out <==> x in a || x in b
  {
    out := [];
    var i, j := 0, 0;
    while i < |a| && j < |b|
      invariant UnionTo(a, i, b, j, out)
    {
      if a[i] < b[j] {
        TakeFirst(a, i, b, j, out);
        out, i := out + [a[i]], i + 1;
      } else if a[i] > b[j] {
        TakeFirst(b, j, a, i, out);
        out, j := out + [b[j]], j + 1;
      } else {
        TakeBoth(a, i, b, j, out);
        out, i, j := out + [a[i]], i + 1, j + 1;
      }
    }
    if j == |b| {
      TakeRest(a, i, b, out);
    } else {
      TakeRest(b, j, a, out);
    }
    assert out + a[i..] + b[j..] == if j == |b| then out + a[i..] else out + b[j..];
    out := out + a[i..] + b[j..];
  }

  ghost predicate Below(a: seq<int>, b: seq<int>) {
    forall x, y :: 0 <= x < |a| && 0 <= y < |b| ==> a[x] < b[y]
  }

  lemma {:induction false} AscendingCat(a: seq<int>, b: seq<int>)
    requires Ascending(a) && Ascending(b) && Below(a, b)
    ensures Ascending(a + b)
  {
  }

  method Difference(a: seq<int>, b: seq<int>) returns (out: seq<int>)
    requires Ascending(a) && Ascending(b)
    ensures Ascending(out) && forall x :: x in out <==> x in a && x !in b
  {
    out := [];
    var i, j := 0, 0;
    while i < |a| && j < |b|
      invariant i <= |a| && j <= |b| && Ascending(out) && Past(b, j, a, i)
      invariant forall x :: x in out <==> x in a[..i] && x !in b
    {
      if a[i] < b[j] {
        BothBelow(a, i, b, j, out);
        out := out + [a[i]];
        i := i + 1;
      } else if a[i] > b[j] {
        j := j + 1;
      } else {
        i := i + 1;
        j := j + 1;
      }
    }
    if i < |a| {
      BelowTail(a, i, out);
      AscendingCat(out, a[i..]);
    }
    assert a == a[..i] + a[i..];
    out := out + a[i..];
  }

  lemma {:induction false} BelowTail(a: seq<int>, i: nat, out: seq<int>)
    requires i <= |a| && Ascending(a) && forall x :: x in out ==> x in a[..i]
    ensures Below(out, a[i..])
  {
    forall k, y | 0 <= k < |out| && 0 <= y < |a[i..]|
      ensures out[k] < a[i..][y]
    {
      assert out[k] in out;
    }
  }
}
