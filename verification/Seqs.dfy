/** Facts about sequences that several proofs need. */
module Seqs {

  lemma {:induction false} Assoc<T>(a: seq<T>, b: seq<T>, c: seq<T>)
    ensures (a + b) + c == a + (b + c)
  {
  }

  lemma {:induction false} TailOf<T>(a: seq<T>, b: seq<T>)
    ensures (a + b)[|a|..] == b
  {
  }

  // A list with one element more, seen from the front.
  lemma {:induction false} Snoc<T>(s: seq<T>, x: T)
    requires s != []
    ensures (s + [x])[0] == s[0] && (s + [x])[1..] == s[1..] + [x]
  {
  }

  lemma {:induction false} Single<T>(x: T)
    ensures [] + [x] == [x] && [x] + [] == [x] && [x][1..] == []
  {
  }

  ghost predicate Ascending(s: seq<int>) {
    forall i, j :: 0 <= i < j < |s| ==> s[i] < s[j]
  }

  method Pick(s: set<int>) returns (x: int)
    requires s != {}
    ensures x in s
  {
    if forall y :: y !in s {
      assert false;
    }
    x :| x in s;
  }

  /** A token: an invariant written under `Unfold(k) ==>` stays folded in proofs that do not mention it. */
  predicate Unfold(k: nat) {
    true
  }
}
