/** Hash tables of chains, as both the session recorder and the change group keep them: an array of
    buckets, each a list with the newest entry first, rehashed into a larger array as it fills. */
module Buckets {

  // Everything in the table.
  ghost function Spread<T>(bs: seq<seq<T>>): multiset<T> {
    if bs == [] then multiset{} else multiset(bs[0]) + Spread(bs[1..])
  }

  // In the order it is walked.
  function Flatten<T>(bs: seq<seq<T>>): seq<T> {
    if bs == [] then [] else bs[0] + Flatten(bs[1..])
  }

  lemma {:induction false} FlattenIsSpread<T>(bs: seq<seq<T>>)
    ensures multiset(Flatten(bs)) == Spread(bs)
  {
    if bs != [] {
      FlattenIsSpread(bs[1..]);
    }
  }

  lemma {:induction false} FlattenCat<T>(a: seq<seq<T>>, b: seq<seq<T>>)
    ensures Flatten(a + b) == Flatten(a) + Flatten(b)
  {
    if a == [] {
      assert a + b == b;
    } else {
      FlattenCat(a[1..], b);
      assert (a + b)[1..] == a[1..] + b;
      assert a[0] + (Flatten(a[1..]) + Flatten(b)) == (a[0] + Flatten(a[1..])) + Flatten(b);
    }
  }

  lemma {:induction false} SpreadCat<T>(a: seq<seq<T>>, b: seq<seq<T>>)
    ensures Spread(a + b) == Spread(a) + Spread(b)
  {
    if a == [] {
      assert a + b == b;
    } else {
      SpreadCat(a[1..], b);
      assert a + b == [a[0]] + (a[1..] + b);
      SpreadCons(a[0], a[1..] + b);
      Regroup(multiset(a[0]), Spread(a[1..]), Spread(b));
    }
  }

  lemma {:induction false} Regroup<T>(a: multiset<T>, b: multiset<T>, c: multiset<T>)
    ensures a + (b + c) == (a + b) + c
  {
  }

  lemma {:induction false} SpreadEmpty<T>(bs: seq<seq<T>>)
    requires forall i :: 0 <= i < |bs| ==> bs[i] == []
    ensures Spread(bs) == multiset{}
  {
    if bs != [] {
      SpreadEmpty(bs[1..]);
    }
  }

  lemma {:induction false} InBucket<T>(bs: seq<seq<T>>, x: T)
    ensures x in Spread(bs) <==> exists i :: 0 <= i < |bs| && x in bs[i]
  {
    if bs != [] {
      InBucket(bs[1..], x);
      if x in Spread(bs[1..]) {
        var i :| 0 <= i < |bs[1..]| && x in bs[1..][i];
        assert x in bs[i + 1];
      }
      if i :| 0 <= i < |bs| && x in bs[i] {
        if i > 0 {
          assert x in bs[1..][i - 1];
        }
      }
    }
  }

  /** Replacing one bucket replaces its part of the contents. */
  lemma {:induction false} SpreadUpdate<T>(bs: seq<seq<T>>, i: nat, b: seq<T>)
    requires i < |bs|
    ensures multiset(bs[i]) <= Spread(bs)
    ensures Spread(bs[i := b]) == Spread(bs) - multiset(bs[i]) + multiset(b)
  {
    var front, back := bs[..i], bs[i + 1..];
    assert bs == front + ([bs[i]] + back) && bs[i := b] == front + ([b] + back);
    SpreadCat(front, [bs[i]] + back);
    SpreadCat(front, [b] + back);
    SpreadCons(bs[i], back);
    SpreadCons(b, back);
  }

  lemma {:induction false} SpreadCons<T>(b: seq<T>, back: seq<seq<T>>)
    ensures Spread([b] + back) == multiset(b) + Spread(back)
  {
    assert ([b] + back)[1..] == back;
  }

  // ----- Entries in their place

  /** Every entry is in the bucket its key hashes to. */
  ghost predicate InPlace<T(!new), K>(bs: seq<seq<T>>, key: T -> K, hash: K -> nat) {
    forall i, x :: 0 <= i < |bs| && x in bs[i] ==> hash(key(x)) % |bs| == i
  }

  /** At most one entry per key. */
  ghost predicate OnePerKey<T(!new), K>(m: multiset<T>, key: T -> K) {
    && (forall x :: x in m ==> m[x] == 1)
    && (forall x, y :: x in m && y in m && key(x) == key(y) ==> x == y)
  }

  /** A key that is not in its bucket is nowhere in the table. */
  lemma {:induction false} NotElsewhere<T(!new), K>(bs: seq<seq<T>>, key: T -> K, hash: K -> nat, k: K)
    requires |bs| > 0 && InPlace(bs, key, hash)
    requires forall x :: x in bs[hash(k) % |bs|] ==> key(x) != k
    ensures forall x :: x in Spread(bs) ==> key(x) != k
  {
    forall x | x in Spread(bs)
      ensures key(x) != k
    {
      InBucket(bs, x);
    }
  }

  /** Prepending an entry to its bucket. */
  lemma {:induction false} Prepended<T(!new), K>(bs: seq<seq<T>>, key: T -> K, hash: K -> nat, x: T)
    requires |bs| > 0 && InPlace(bs, key, hash)
    ensures var i := hash(key(x)) % |bs|;
            && InPlace(bs[i := [x] + bs[i]], key, hash)
            && Spread(bs[i := [x] + bs[i]]) == Spread(bs) + multiset{x}
  {
    var i := hash(key(x)) % |bs|;
    SpreadUpdate(bs, i, [x] + bs[i]);
    var after := bs[i := [x] + bs[i]];
    forall j, y | 0 <= j < |after| && y in after[j]
      ensures hash(key(y)) % |after| == j
    {
      assert j == i || y in bs[j];
      assert j == i ==> y == x || y in bs[i];
    }
  }

  lemma {:induction false} WithoutOne<T>(b: seq<T>, j: nat)
    requires j < |b|
    ensures multiset(b) == multiset(b[..j] + b[j + 1..]) + multiset{b[j]}
  {
    assert b == b[..j] + [b[j]] + b[j + 1..];
  }

  lemma {:induction false} LessOne<T>(whole: multiset<T>, part: multiset<T>, rest: multiset<T>, e: T)
    requires part <= whole && part == rest + multiset{e}
    ensures e in whole && whole - part + rest == whole - multiset{e}
  {
  }

  /** Taking an entry out of its bucket. */
  lemma {:induction false} Removed<T(!new), K>(bs: seq<seq<T>>, key: T -> K, hash: K -> nat, i: nat, j: nat)
    requires InPlace(bs, key, hash) && i < |bs| && j < |bs[i]|
    ensures var after := bs[i := bs[i][..j] + bs[i][j + 1..]];
            && InPlace(after, key, hash)
            && bs[i][j] in Spread(bs) && Spread(after) == Spread(bs) - multiset{bs[i][j]}
  {
    var b := bs[i][..j] + bs[i][j + 1..];
    SpreadUpdate(bs, i, b);
    WithoutOne(bs[i], j);
    LessOne(Spread(bs), multiset(bs[i]), multiset(b), bs[i][j]);
    var after := bs[i := b];
    forall k, y | 0 <= k < |after| && y in after[k]
      ensures hash(key(y)) % |after| == k
    {
      assert y in bs[k];
    }
  }

  lemma {:induction false} Swapped<T>(b: seq<T>, j: nat, x: T)
    requires j < |b|
    ensures multiset(b[j := x]) == multiset(b) - multiset{b[j]} + multiset{x}
    ensures b[j] in multiset(b)
  {
    assert b == b[..j] + [b[j]] + b[j + 1..];
    assert b[j := x] == b[..j] + [x] + b[j + 1..];
  }

  lemma {:induction false} SwappedWithin<T>(whole: multiset<T>, part: multiset<T>, e: T, x: T)
    requires part <= whole && e in part
    ensures whole - part + (part - multiset{e} + multiset{x}) == whole - multiset{e} + multiset{x}
  {
  }

  /** Replacing an entry by another with the same key. */
  lemma {:induction false} Adjusted<T(!new), K>(bs: seq<seq<T>>, key: T -> K, hash: K -> nat, i: nat, j: nat, x: T)
    requires InPlace(bs, key, hash) && i < |bs| && j < |bs[i]| && key(x) == key(bs[i][j])
    ensures var after := bs[i := bs[i][j := x]];
            && InPlace(after, key, hash)
            && bs[i][j] in Spread(bs) && Spread(after) == Spread(bs) - multiset{bs[i][j]} + multiset{x}
  {
    var b := bs[i][j := x];
    SpreadUpdate(bs, i, b);
    Swapped(bs[i], j, x);
    SwappedWithin(Spread(bs), multiset(bs[i]), bs[i][j], x);
    assert bs[i][j] in bs[i];
    var after := bs[i := b];
    forall k, y | 0 <= k < |after| && y in after[k]
      ensures hash(key(y)) % |after| == k
    {
      assert k == i && y != x ==> y in bs[i];
    }
  }

  // Prepend the entries of one chain, in order, each to its bucket.
  method RegrowChain<T(!new), K>(chain: seq<T>, key: T -> K, hash: K -> nat, bs: seq<seq<T>>)
    returns (after: seq<seq<T>>)
    requires |bs| > 0 && InPlace(bs, key, hash)
    ensures |after| == |bs| && InPlace(after, key, hash) && Spread(after) == Spread(bs) + multiset(chain)
  {
    after := bs;
    for j := 0 to |chain|
      invariant |after| == |bs| && InPlace(after, key, hash)
      invariant Spread(after) == Spread(bs) + multiset(chain[..j])
    {
      var x := chain[j];
      var at := hash(key(x)) % |bs|;
      Prepended(after, key, hash, x);
      after := after[at := [x] + after[at]];
      assert chain[..j + 1] == chain[..j] + [x];
    }
    assert chain[..|chain|] == chain;
  }

  lemma {:induction false} SpreadSnoc<T>(bs: seq<seq<T>>, i: nat)
    requires i < |bs|
    ensures Spread(bs[..i + 1]) == Spread(bs[..i]) + multiset(bs[i])
  {
    assert bs[..i + 1] == bs[..i] + ([bs[i]] + []);
    SpreadCat(bs[..i], [bs[i]] + []);
    SpreadCons(bs[i], []);
  }

  /** Distribute the entries of `bs` over `n` new buckets, walking the chains in order. */
  method Regrow<T(!new), K>(bs: seq<seq<T>>, key: T -> K, hash: K -> nat, n: nat) returns (after: seq<seq<T>>)
    requires n > 0
    ensures |after| == n && InPlace(after, key, hash) && Spread(after) == Spread(bs)
  {
    after := seq(n, _ => []);
    SpreadEmpty(after);
    for i := 0 to |bs|
      invariant |after| == n && InPlace(after, key, hash) && Spread(after) == Spread(bs[..i])
    {
      after := RegrowChain(bs[i], key, hash, after);
      SpreadSnoc(bs, i);
    }
    assert bs[..|bs|] == bs;
  }

  lemma {:induction false} OneMore<T(!new), K>(m: multiset<T>, key: T -> K, x: T)
    requires OnePerKey(m, key) && forall y :: y in m ==> key(y) != key(x)
    ensures OnePerKey(m + multiset{x}, key)
  {
    var after := m + multiset{x};
    assert x !in m;
    forall y | y in after
      ensures after[y] == 1
    {
    }
  }

  lemma {:induction false} OneLess<T(!new), K>(m: multiset<T>, key: T -> K, x: T)
    requires OnePerKey(m, key) && x in m
    ensures OnePerKey(m - multiset{x}, key)
    ensures forall y :: y in m - multiset{x} <==> y in m && y != x
    ensures forall y :: y in m - multiset{x} ==> key(y) != key(x)
  {
    var after := m - multiset{x};
    assert m[x] == 1 && after[x] == 0;
  }

  lemma {:induction false} Twice<T>(s: seq<T>, i: nat, j: nat)
    requires i < j < |s| && s[i] == s[j]
    ensures multiset(s)[s[i]] >= 2
  {
    assert s == s[..j] + [s[j]] + s[j + 1..];
    assert s[i] == s[..j][i];
    assert s[i] in multiset(s[..j]);
  }
}
