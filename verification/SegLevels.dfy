/** The structure record of a full-text index: its segments by level. Level 0 holds the youngest data and
    the newest segment of a level comes last, so the levels read from the highest down give the segments
    by age. Writing and promoting keep that order. */
module SegLevels {
  import opened Seqs

  datatype StructSeg = StructSeg(segid: int, pgnoFirst: int, pgnoLast: int) {
    // In leaf pages.
    function Size(): int {
      1 + pgnoLast - pgnoFirst
    }
  }

  datatype Level = Level(nMerge: int, segs: seq<StructSeg>)

  /** The segments, oldest first. */
  function Ages(levels: seq<Level>): seq<StructSeg> {
    if levels == [] then [] else Ages(levels[1..]) + levels[0].segs
  }

  // ----- Moving a segment down

  // The newest segment of level `from` to the front of level `dest`.
  function MoveDown(levels: seq<Level>, from: nat, dest: nat): (r: seq<Level>)
    requires dest < from < |levels| && levels[from].segs != []
    ensures |r| == |levels|
  {
    var src := levels[from].segs;
    var n := |src| - 1;
    levels[from := levels[from].(segs := src[..n])][dest := levels[dest].(segs := [src[n]] + levels[dest].segs)]
  }

  predicate EmptyBetween(levels: seq<Level>, from: nat, dest: nat) {
    forall k :: from <= k < dest && k < |levels| ==> levels[k].segs == []
  }

  lemma {:induction false} SkipEmpty(levels: seq<Level>, n: nat)
    requires n <= |levels| && EmptyBetween(levels, 0, n)
    ensures Ages(levels) == Ages(levels[n..])
    decreases n
  {
    if n > 0 {
      SkipEmpty(levels[1..], n - 1);
      assert levels[1..][n - 1..] == levels[n..];
      assert levels[0].segs == [];
    } else {
      assert levels[0..] == levels;
    }
  }

  // The ages of the levels above the lowest, when they are empty up to `from`.
  lemma {:induction false} AgesAbove(levels: seq<Level>, from: nat)
    requires 0 < from < |levels| && EmptyBetween(levels, 1, from)
    ensures Ages(levels[1..]) == Ages(levels[from + 1..]) + levels[from].segs
  {
    var up := levels[1..];
    forall k | 0 <= k < from - 1
      ensures up[k].segs == []
    {
      assert up[k] == levels[k + 1];
    }
    SkipEmpty(up, from - 1);
    assert up[from - 1..] == levels[from..] && levels[from..][1..] == levels[from + 1..];
  }

  lemma {:induction false} Regroup<T>(older: seq<T>, src: seq<T>, low: seq<T>)
    requires src != []
    ensures (older + src) + low == (older + src[..|src| - 1]) + ([src[|src| - 1]] + low)
  {
    var n := |src| - 1;
    assert src == src[..n] + [src[n]];
  }

  // To the lowest level.
  lemma {:induction false} MoveDownFirst(levels: seq<Level>, from: nat)
    requires 0 < from < |levels| && levels[from].segs != [] && EmptyBetween(levels, 1, from)
    ensures Ages(MoveDown(levels, from, 0)) == Ages(levels)
  {
    var now := MoveDown(levels, from, 0);
    AgesAbove(levels, from);
    AgesAbove(now, from);
    assert now[from + 1..] == levels[from + 1..];
    Regroup(Ages(levels[from + 1..]), levels[from].segs, levels[0].segs);
  }

  /** Moving the newest segment of a level to the front of a lower one keeps the order, if the levels
      between are empty. */
  lemma {:induction false} MoveDownKeeps(levels: seq<Level>, from: nat, dest: nat)
    requires dest < from < |levels| && levels[from].segs != [] && EmptyBetween(levels, dest + 1, from)
    ensures Ages(MoveDown(levels, from, dest)) == Ages(levels)
    decreases dest
  {
    if dest == 0 {
      MoveDownFirst(levels, from);
    } else {
      assert MoveDown(levels, from, dest)[1..] == MoveDown(levels[1..], from - 1, dest - 1);
      forall k | dest <= k < from - 1
        ensures levels[1..][k].segs == []
      {
        assert levels[1..][k] == levels[k + 1];
      }
      MoveDownKeeps(levels[1..], from - 1, dest - 1);
    }
  }

  // ----- Around a level

  lemma {:induction false} AgesSplit(levels: seq<Level>, lvl: nat)
    requires lvl < |levels|
    ensures Ages(levels) == Ages(levels[lvl + 1..]) + levels[lvl].segs + Ages(levels[..lvl])
    decreases lvl
  {
    if lvl == 0 {
      assert Ages(levels[..0]) == [];
    } else {
      var up := levels[1..];
      AgesSplit(up, lvl - 1);
      assert up[lvl..] == levels[lvl + 1..] && up[lvl - 1] == levels[lvl] && levels[..lvl][1..] == up[..lvl - 1];
      Assoc(Ages(up[lvl..]) + up[lvl - 1].segs, Ages(up[..lvl - 1]), levels[0].segs);
    }
  }

  /** The segments of a level are merged into one, the youngest of the level above. */
  function MergeUp(levels: seq<Level>, lvl: nat, out: seq<StructSeg>): (r: seq<Level>)
    requires lvl + 1 < |levels|
    ensures |r| == |levels|
  {
    levels[lvl := Level(0, [])][lvl + 1 := levels[lvl + 1].(segs := levels[lvl + 1].segs + out)]
  }

  lemma {:induction false} MergeUpAges(levels: seq<Level>, lvl: nat, out: seq<StructSeg>)
    requires lvl + 1 < |levels|
    ensures Ages(MergeUp(levels, lvl, out)) == Ages(levels[lvl + 1..]) + out + Ages(levels[..lvl])
  {
    var now := MergeUp(levels, lvl, out);
    AgesSplit(now, lvl);
    assert now[..lvl] == levels[..lvl];
    var up, upNow := levels[lvl + 1..], now[lvl + 1..];
    assert upNow[1..] == up[1..] && up[0] == levels[lvl + 1] && upNow[0].segs == up[0].segs + out;
    Assoc(Ages(up[1..]), up[0].segs, out);
    assert Ages(upNow) + [] == Ages(upNow);
  }

  // An empty level on top changes nothing.
  lemma {:induction false} AgesTop(levels: seq<Level>)
    ensures Ages(levels + [Level(0, [])]) == Ages(levels)
  {
    if levels == [] {
      assert levels + [Level(0, [])] == [Level(0, [])];
    } else {
      assert (levels + [Level(0, [])])[1..] == levels[1..] + [Level(0, [])];
      AgesTop(levels[1..]);
    }
  }

  // ----- What is left above a level that has been promoted to

  /** Nothing more can be pulled down to `dest`: the levels above are empty up to one that is being merged
      or whose newest segment is larger than `size`. */
  ghost predicate Settled(levels: seq<Level>, dest: nat, size: int) {
    exists k :: Stops(levels, dest, size, k)
  }

  ghost predicate NewestLarger(segs: seq<StructSeg>, size: int) {
    segs != [] && segs[|segs| - 1].Size() > size
  }

  ghost predicate Stops(levels: seq<Level>, dest: nat, size: int, k: nat) {
    && dest < k <= |levels| && EmptyBetween(levels, dest + 1, k)
    && (k < |levels| ==> levels[k].nMerge != 0 || NewestLarger(levels[k].segs, size))
  }

  /** Where a segment just written to `lvl` is promoted to, and the size that counts there. */
  ghost predicate Joins(levels: seq<Level>, lvl: nat, dest: nat, size: int)
    requires lvl < |levels| && levels[lvl].segs != []
  {
    var sz := levels[lvl].segs[|levels[lvl].segs| - 1].Size();
    && dest <= lvl && EmptyBetween(levels, dest + 1, lvl)
    && (dest < lvl ==> NoLarger(levels[dest].segs, size) && HasSize(levels[dest].segs, size) && sz <= size)
    && (dest == lvl ==> size == sz && forall k :: 0 <= k < lvl && EmptyBetween(levels, k + 1, lvl) ==>
          forall i :: 0 <= i < |levels[k].segs| ==> levels[k].segs[i].Size() < sz)
  }

  ghost predicate HasSize(segs: seq<StructSeg>, size: int) {
    exists i :: 0 <= i < |segs| && segs[i].Size() == size
  }

  ghost predicate NoLarger(segs: seq<StructSeg>, size: int) {
    forall i :: 0 <= i < |segs| ==> segs[i].Size() <= size
  }

  // The segments pulled down from level `il` to level `dest` so far.
  ghost predicate Pulled(was: seq<Level>, levels: seq<Level>, il: nat, dest: nat, size: int, pulled: seq<StructSeg>) {
    && dest < il < |levels| && Ages(levels) == Ages(was) && SameMerging(levels, was)
    && EmptyBetween(levels, dest + 1, il) && levels[dest].segs == pulled + was[dest].segs && NoLarger(pulled, size)
  }

  lemma {:induction false} PullOne(was: seq<Level>, levels: seq<Level>, il: nat, dest: nat, size: int,
                                   pulled: seq<StructSeg>)
    requires Pulled(was, levels, il, dest, size, pulled) && levels[il].segs != []
    requires levels[il].segs[|levels[il].segs| - 1].Size() <= size
    ensures Pulled(was, MoveDown(levels, il, dest), il, dest, size, [levels[il].segs[|levels[il].segs| - 1]] + pulled)
  {
    MoveDownKeeps(levels, il, dest);
    Assoc([levels[il].segs[|levels[il].segs| - 1]], pulled, was[dest].segs);
  }

  // What promotion to `dest` makes of the levels: nothing if the level is empty or the target is being merged, or
  // else nothing more to pull down.
  ghost predicate Promoted(was: seq<Level>, levels: seq<Level>, lvl: nat, dest: nat, size: int)
    requires lvl < |was| == |levels|
  {
    if was[lvl].segs == [] then levels == was
    else
      && Joins(was, lvl, dest, size)
      && if was[dest].nMerge == 0 then Settled(levels, dest, size) else levels == was
  }

  ghost predicate SameMerging(a: seq<Level>, b: seq<Level>) {
    |a| == |b| && forall i :: 0 <= i < |a| ==> a[i].nMerge == b[i].nMerge
  }

  predicate Uses(segs: seq<StructSeg>, id: int) {
    exists i :: 0 <= i < |segs| && segs[i].segid == id
  }

  method MaxSize(segs: seq<StructSeg>) returns (max: int)
    requires segs != []
    ensures NoLarger(segs, max) && HasSize(segs, max)
  {
    max := segs[0].Size();
    for i := 1 to |segs|
      invariant NoLarger(segs[..i], max) && exists j :: 0 <= j < i && segs[j].Size() == max
    {
      if segs[i].Size() > max {
        max := segs[i].Size();
      }
    }
    assert segs[..|segs|] == segs;
  }

  class SegStructure {
    var writeCounter: nat
    var levels: seq<Level>

    constructor (writeCounter: nat, levels: seq<Level>)
      ensures this.writeCounter == writeCounter && this.levels == levels
    {
      this.writeCounter := writeCounter;
      this.levels := levels;
    }

    /** The lowest positive id that no segment has. */
    method AllocateSegid() returns (id: int)
      ensures id > 0 && !Uses(Ages(levels), id) && forall k :: 0 < k < id ==> Uses(Ages(levels), k)
    {
      var segs := Ages(levels);
      var used := set i | 0 <= i < |segs| && segs[i].segid > 0 :: segs[i].segid;
      id := 1;
      ghost var left := used;
      while id in used
        invariant id > 0 && forall k :: k in used && k >= id ==> k in left
        invariant forall k :: 0 < k < id ==> Uses(segs, k)
        decreases |left|
      {
        left := left - {id};
        id := id + 1;
      }
    }

    // Pull the segments of level `il`, newest first, until one is larger than `size`.
    method PullLevel(il: nat, dest: nat, size: int) returns (ghost pulled: seq<StructSeg>)
      requires dest < il < |levels| && EmptyBetween(levels, dest + 1, il)
      modifies this`levels
      ensures Ages(levels) == old(Ages(levels)) && SameMerging(levels, old(levels))
      ensures EmptyBetween(levels, dest + 1, il)
      ensures levels[dest].segs == pulled + old(levels[dest].segs) && NoLarger(pulled, size)
      ensures levels[il].segs != [] ==> levels[il].segs[|levels[il].segs| - 1].Size() > size
    {
      pulled := [];
      while levels[il].segs != []
        invariant Pulled(old(levels), levels, il, dest, size, pulled)
        decreases |levels[il].segs|
      {
        var segs := levels[il].segs;
        if segs[|segs| - 1].Size() > size {
          return;
        }
        PullOne(old(levels), levels, il, dest, size, pulled);
        levels := MoveDown(levels, il, dest);
        pulled := [segs[|segs| - 1]] + pulled;
      }
    }

    /** Pull segments no larger than `size` down from the levels above `dest`, newest first. The order by age
        is kept, and pulling stops only at a level being merged or at a larger segment. */
    method PromoteTo(dest: nat, size: int) returns (ghost pulled: seq<StructSeg>)
      requires dest < |levels|
      modifies this`levels
      ensures Ages(levels) == old(Ages(levels)) && SameMerging(levels, old(levels))
      ensures levels[dest].segs == pulled + old(levels[dest].segs) && NoLarger(pulled, size)
      ensures if levels[dest].nMerge == 0 then Settled(levels, dest, size) else levels == old(levels)
    {
      pulled := [];
      if levels[dest].nMerge != 0 {
        return;
      }
      var il := dest + 1;
      while il < |levels|
        invariant dest < il <= |levels| && EmptyBetween(levels, dest + 1, il)
        invariant Ages(levels) == old(Ages(levels)) && SameMerging(levels, old(levels))
        invariant levels[dest].segs == pulled + old(levels[dest].segs) && NoLarger(pulled, size)
      {
        if levels[il].nMerge != 0 {
          assert Stops(levels, dest, size, il);
          return;
        }
        ghost var more := PullLevel(il, dest, size);
        Assoc(more, pulled, old(levels[dest].segs));
        pulled := more + pulled;
        if levels[il].segs != [] {
          assert Stops(levels, dest, size, il);
          return;
        }
        il := il + 1;
      }
      assert Stops(levels, dest, size, il);
    }

    // The level to promote to, and the size up to which: the next lower level in use if it has a segment as
    // large, or else the level itself.
    method PromoteTarget(lvl: nat) returns (dest: nat, size: int)
      requires lvl < |levels| && levels[lvl].segs != []
      ensures Joins(levels, lvl, dest, size)
    {
      var segs := levels[lvl].segs;
      var sz := segs[|segs| - 1].Size();
      var tst := lvl - 1;
      while tst >= 0 && levels[tst].segs == []
        invariant -1 <= tst < lvl && EmptyBetween(levels, tst + 1, lvl)
      {
        tst := tst - 1;
      }
      dest, size := lvl, sz;
      if tst >= 0 {
        var max := MaxSize(levels[tst].segs);
        if max >= sz {
          dest, size := tst, max;
        }
      }
    }

    /** After a segment was written to a level: it is to be joined by segments no larger from above, on its
        own level or on the next lower one in use if that has a segment as large. The order by age is kept. */
    method Promote(lvl: nat) returns (ghost dest: nat, ghost size: int)
      requires lvl < |levels|
      modifies this`levels
      ensures Ages(levels) == old(Ages(levels)) && SameMerging(levels, old(levels))
      ensures Promoted(old(levels), levels, lvl, dest, size)
    {
      dest, size := lvl, 0;
      if levels[lvl].segs == [] {
        return;
      }
      var iPromote, szPromote := PromoteTarget(lvl);
      dest, size := iPromote, szPromote;
      ghost var pulled := PromoteTo(iPromote, szPromote);
    }

    /** After a merge into a level that is still there: the same. */
    method PromoteAfterMerge(lvl: nat) returns (ghost dest: nat, ghost size: int)
      modifies this`levels
      ensures Ages(levels) == old(Ages(levels)) && SameMerging(levels, old(levels))
      ensures if lvl < |levels| then Promoted(old(levels), levels, lvl, dest, size) else levels == old(levels)
    {
      dest, size := lvl, 0;
      if lvl < |levels| {
        dest, size := Promote(lvl);
      }
    }

    /** A new segment is the youngest, and no other comes or goes. */
    method AppendLevel0(segid: int, nLeaves: nat)
      modifies this
      ensures Ages(levels) == old(Ages(levels)) + [StructSeg(segid, 1, nLeaves)]
      ensures writeCounter == old(writeCounter) + nLeaves && levels != []
      ensures forall i :: 0 < i < |old(levels)| ==> i < |levels| && levels[i].nMerge == old(levels[i].nMerge)
    {
      if levels == [] {
        levels := [Level(0, [])];
        assert Ages(levels) == [];
      }
      ghost var was := levels;
      levels := levels[0 := levels[0].(segs := levels[0].segs + [StructSeg(segid, 1, nLeaves)])];
      assert levels[1..] == was[1..];
      Assoc(Ages(was[1..]), was[0].segs, [StructSeg(segid, 1, nLeaves)]);
      writeCounter := writeCounter + nLeaves;
      ghost var dest, size := Promote(0);
    }
  }
}
