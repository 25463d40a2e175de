/** A full-text index on its pages: documents, the structure record and the leaf pages of every segment.
    Batches of changes are flushed as new segments, segments are merged and promoted, and the index can be
    rebuilt; after every step the pages say what the documents say. */
module SegStore {
  import opened Seqs
  import opened Bytes
  import opened SegRead
  import opened Segment
  import opened Postings
  import opened SegMerge
  import opened SegDocs
  import opened SegLive
  import opened SegLevels

  const PAGE_SIZE: nat := 4050

  type Data = map<int, seq<bytes>>

  // ----- Segments on pages

  /** The leaves of a segment are there, and they read as a segment. */
  ghost predicate Stored(s: StructSeg, data: Data) {
    s.segid in data && s.pgnoFirst == 1 && s.pgnoLast == |data[s.segid]| > 0 && IsSegment(data[s.segid])
  }

  ghost predicate IsSegment(leaves: seq<bytes>) {
    var r := ReadSegment(leaves);
    r.Ok? && GoodSeg(r.value) && Plain(r.value)
  }

  ghost function Read(s: StructSeg, data: Data): Seg {
    if s.segid in data && ReadSegment(data[s.segid]).Ok? then ReadSegment(data[s.segid]).value else []
  }

  ghost function ReadAll(ages: seq<StructSeg>, data: Data): (r: seq<Seg>)
    ensures |r| == |ages|
  {
    seq(|ages|, i requires 0 <= i < |ages| => Read(ages[i], data))
  }

  ghost predicate AllStored(ages: seq<StructSeg>, data: Data) {
    forall i :: 0 <= i < |ages| ==> Stored(ages[i], data)
  }

  ghost predicate OwnIds(ages: seq<StructSeg>) {
    forall i, j :: 0 <= i < j < |ages| ==> ages[i].segid != ages[j].segid
  }

  ghost predicate DocumentsOk(docs: Documents) {
    forall r :: r in docs ==> RowidOk(r) && DocOk(docs[r])
  }

  /** The pages of the segments say what the documents say. */
  ghost predicate Holds(ages: seq<StructSeg>, data: Data, docs: Documents) {
    AllStored(ages, data) && OwnIds(ages) && DocumentsOk(docs) && Reflects(ReadAll(ages, data), docs)
  }

  lemma {:induction false} StoredGood(ages: seq<StructSeg>, data: Data)
    requires AllStored(ages, data)
    ensures AllGood(ReadAll(ages, data))
  {
    forall i | 0 <= i < |ages|
      ensures GoodSeg(ReadAll(ages, data)[i]) && Plain(ReadAll(ages, data)[i])
    {
      assert Stored(ages[i], data);
    }
  }

  // Other segments are not touched.
  lemma {:induction false} SameRead(ages: seq<StructSeg>, data: Data, now: Data)
    requires AllStored(ages, data)
    requires forall i :: 0 <= i < |ages| ==> ages[i].segid in now && now[ages[i].segid] == data[ages[i].segid]
    ensures AllStored(ages, now) && ReadAll(ages, now) == ReadAll(ages, data)
  {
    forall i | 0 <= i < |ages|
      ensures Stored(ages[i], now) && ReadAll(ages, now)[i] == ReadAll(ages, data)[i]
    {
      assert Stored(ages[i], data);
    }
  }

  lemma {:induction false} ReadCat(a: seq<StructSeg>, b: seq<StructSeg>, data: Data)
    ensures ReadAll(a + b, data) == ReadAll(a, data) + ReadAll(b, data)
  {
  }

  lemma {:induction false} ReadOne(s: StructSeg, data: Data)
    ensures ReadAll([s], data) == [Read(s, data)]
  {
  }

  lemma {:induction false} Unused(ages: seq<StructSeg>, id: int)
    requires !Uses(ages, id)
    ensures forall i :: 0 <= i < |ages| ==> ages[i].segid != id
  {
  }

  lemma {:induction false} GoodTermsOk(seg: Seg)
    requires GoodSeg(seg)
    ensures TermsOk(seg, PAGE_SIZE)
  {
    OrderedKeys(seg);
    forall i | 0 <= i < |seg|
      ensures 0 < |seg[i].key| <= MAX_KEY
    {
      assert Good(seg[i].key, seg[i].postings[0]);
    }
  }

  // ----- A flush

  /** A segment written after the others. */
  lemma {:induction false} FlushHolds(ages: seq<StructSeg>, data: Data, docs: Documents, changes: seq<Change>,
                                      terms: Seg, id: int, leaves: seq<bytes>)
    requires Holds(ages, data, docs) && !Uses(ages, id)
    requires ChangesOk(changes) && Fits(docs, changes) && Builds(terms, changes) && GoodSeg(terms)
    requires ReadSegment(leaves) == Ok(NormedTerms(terms)) && leaves != []
    ensures Holds(ages + [StructSeg(id, 1, |leaves|)], data[id := leaves], Apply(docs, changes))
  {
    var s, now := StructSeg(id, 1, |leaves|), data[id := leaves];
    NormedGood(terms);
    Unused(ages, id);
    SameRead(ages, data, now);
    ReadCat(ages, [s], now);
    ReadOne(s, now);
    FlushReflects(ReadAll(ages, data), docs, changes, terms);
    AppliedOk(docs, changes);
    assert Stored(s, now);
  }

  lemma {:induction false} AppliedOk(docs: Documents, changes: seq<Change>)
    requires DocumentsOk(docs) && forall i :: 0 <= i < |changes| ==> ChangeOk(changes[i])
    ensures DocumentsOk(Apply(docs, changes))
  {
    if changes != [] {
      AppliedOk(docs, changes[..|changes| - 1]);
    }
  }

  // ----- A merge

  ghost predicate Apart(a: seq<StructSeg>, b: seq<StructSeg>) {
    forall i, j :: 0 <= i < |a| && 0 <= j < |b| ==> a[i].segid != b[j].segid
  }

  ghost function Without(data: Data, run: seq<StructSeg>): (r: Data)
    ensures forall id :: id in r <==> id in data && !Uses(run, id)
    ensures forall id :: id in r ==> r[id] == data[id]
  {
    map id | id in data && !Uses(run, id) :: data[id]
  }

  lemma {:induction false} KeptRead(ages: seq<StructSeg>, run: seq<StructSeg>, data: Data, now: Data)
    requires AllStored(ages, data) && Apart(ages, run)
    requires forall id :: id in Without(data, run) && Uses(ages, id) ==> id in now && now[id] == data[id]
    ensures AllStored(ages, now) && ReadAll(ages, now) == ReadAll(ages, data)
  {
    forall i | 0 <= i < |ages|
      ensures ages[i].segid in now && now[ages[i].segid] == data[ages[i].segid]
    {
      assert Stored(ages[i], data) && Uses(ages, ages[i].segid) && !Uses(run, ages[i].segid);
    }
    SameRead(ages, data, now);
  }

  // The segments after a run of them is merged into one with these leaves.
  ghost function MergedSeg(id: int, leaves: seq<bytes>): seq<StructSeg> {
    if leaves == [] then [] else [StructSeg(id, 1, |leaves|)]
  }

  ghost function MergedData(data: Data, run: seq<StructSeg>, id: int, leaves: seq<bytes>): Data {
    if leaves == [] then Without(data, run) else Without(data, run)[id := leaves]
  }

  lemma {:induction false} UnusedParts(a: seq<StructSeg>, b: seq<StructSeg>, c: seq<StructSeg>, id: int)
    requires !Uses(a + b + c, id)
    ensures !Uses(a, id) && !Uses(b, id) && !Uses(c, id)
  {
    var all := a + b + c;
    assert forall i :: 0 <= i < |a| ==> all[i] == a[i];
    assert forall i :: 0 <= i < |b| ==> all[|a| + i] == b[i];
    assert forall i :: 0 <= i < |c| ==> all[|a| + |b| + i] == c[i];
  }

  lemma {:induction false} ReadThree(a: seq<StructSeg>, b: seq<StructSeg>, c: seq<StructSeg>, data: Data)
    ensures ReadAll(a + b + c, data) == ReadAll(a, data) + ReadAll(b, data) + ReadAll(c, data)
  {
    ReadCat(a + b, c, data);
    ReadCat(a, b, data);
  }

  lemma {:induction false} StoredThree(a: seq<StructSeg>, b: seq<StructSeg>, c: seq<StructSeg>, data: Data)
    requires AllStored(a, data) && AllStored(b, data) && AllStored(c, data)
    ensures AllStored(a + b + c, data)
  {
  }

  lemma {:induction false} OwnSplit(a: seq<StructSeg>, b: seq<StructSeg>)
    requires OwnIds(a + b)
    ensures OwnIds(a) && OwnIds(b) && Apart(a, b)
  {
    var both := a + b;
    assert forall i :: 0 <= i < |a| ==> both[i] == a[i];
    assert forall i :: 0 <= i < |b| ==> both[|a| + i] == b[i];
  }

  lemma {:induction false} OwnJoin(a: seq<StructSeg>, b: seq<StructSeg>)
    requires OwnIds(a) && OwnIds(b) && Apart(a, b)
    ensures OwnIds(a + b)
  {
  }

  lemma {:induction false} StoredSplit(a: seq<StructSeg>, b: seq<StructSeg>, data: Data)
    requires AllStored(a + b, data)
    ensures AllStored(a, data) && AllStored(b, data)
  {
    var both := a + b;
    forall i | 0 <= i < |a|
      ensures Stored(a[i], data)
    {
      assert both[i] == a[i];
    }
    forall i | 0 <= i < |b|
      ensures Stored(b[i], data)
    {
      assert both[|a| + i] == b[i];
    }
  }

  lemma {:induction false} ApartSplit(a: seq<StructSeg>, b: seq<StructSeg>, c: seq<StructSeg>)
    requires Apart(a + b, c)
    ensures Apart(a, c) && Apart(c, b)
  {
    var both := a + b;
    assert forall i :: 0 <= i < |a| ==> both[i] == a[i];
    assert forall i :: 0 <= i < |b| ==> both[|a| + i] == b[i];
  }

  lemma {:induction false} CatHolds(a: seq<StructSeg>, b: seq<StructSeg>, c: seq<StructSeg>, data: Data)
    requires AllStored(a + b + c, data) && OwnIds(a + b + c)
    ensures AllStored(a, data) && AllStored(b, data) && AllStored(c, data)
    ensures OwnIds(a + c) && Apart(a, b) && Apart(c, b)
  {
    StoredSplit(a + b, c, data);
    StoredSplit(a, b, data);
    OwnSplit(a + b, c);
    OwnSplit(a, b);
    ApartSplit(a, b, c);
    OwnJoin(a, c);
  }

  lemma {:induction false} OwnThree(a: seq<StructSeg>, b: seq<StructSeg>, c: seq<StructSeg>, id: int)
    requires OwnIds(a + c) && !Uses(a, id) && !Uses(c, id) && (b == [] || (|b| == 1 && b[0].segid == id))
    ensures OwnIds(a + b + c)
  {
    OwnSplit(a, c);
    OwnJoin(a, b);
    OwnJoin(a + b, c);
  }

  // The other segments stay as they are, and the merged one is stored.
  lemma {:induction false} MergeStored(before: seq<StructSeg>, run: seq<StructSeg>, after: seq<StructSeg>, data: Data,
                                       id: int, leaves: seq<bytes>)
    requires AllStored(before + run + after, data) && OwnIds(before + run + after) && !Uses(before + run + after, id)
    requires leaves != [] ==> IsSegment(leaves)
    ensures var now, out := MergedData(data, run, id, leaves), MergedSeg(id, leaves);
            && AllStored(before + out + after, now) && OwnIds(before + out + after)
            && ReadAll(before, now) == ReadAll(before, data) && ReadAll(after, now) == ReadAll(after, data)
  {
    var now, out := MergedData(data, run, id, leaves), MergedSeg(id, leaves);
    CatHolds(before, run, after, data);
    UnusedParts(before, run, after, id);
    KeptRead(before, run, data, now);
    KeptRead(after, run, data, now);
    StoredThree(before, out, after, now);
    OwnThree(before, out, after, id);
  }

  /** A run of segments replaced by the one they are merged into, or by none if nothing is left. */
  lemma {:induction false} MergeHolds(before: seq<StructSeg>, run: seq<StructSeg>, after: seq<StructSeg>, data: Data,
                                      docs: Documents, oldest: bool, id: int, leaves: seq<bytes>)
    requires Holds(before + run + after, data, docs) && !Uses(before + run + after, id) && (oldest ==> before == [])
    requires ReadSegment(leaves) == Ok(Merged(ReadAll(run, data), oldest))
    requires leaves == [] <==> Merged(ReadAll(run, data), oldest) == []
    ensures Holds(before + MergedSeg(id, leaves) + after, MergedData(data, run, id, leaves), docs)
  {
    var segs := ReadAll(run, data);
    CatHolds(before, run, after, data);
    StoredGood(run, data);
    MergedGood(segs, oldest);
    MergeStored(before, run, after, data, id, leaves);
    ReadThree(before, run, after, data);
    MergeReflects(ReadAll(before, data), segs, ReadAll(after, data), oldest, docs);
    MergedReads(before, run, after, data, docs, oldest, id, leaves);
  }

  lemma {:induction false} MergedReads(before: seq<StructSeg>, run: seq<StructSeg>, after: seq<StructSeg>, data: Data,
                                       docs: Documents, oldest: bool, id: int, leaves: seq<bytes>)
    requires var m := Merged(ReadAll(run, data), oldest);
             && ReadSegment(leaves) == Ok(m) && (leaves == [] <==> m == [])
             && Reflects(ReadAll(before, data) + [m] + ReadAll(after, data), docs)
    requires var now := MergedData(data, run, id, leaves);
             ReadAll(before, now) == ReadAll(before, data) && ReadAll(after, now) == ReadAll(after, data)
    ensures Reflects(ReadAll(before + MergedSeg(id, leaves) + after, MergedData(data, run, id, leaves)), docs)
  {
    var now, out := MergedData(data, run, id, leaves), MergedSeg(id, leaves);
    ReadThree(before, out, after, now);
    if leaves == [] {
      NoneReflects(ReadAll(before, data), ReadAll(after, data), docs);
    } else {
      ReadOne(out[0], now);
    }
  }

  lemma {:induction false} NoneReflects(before: seq<Seg>, after: seq<Seg>, docs: Documents)
    requires Reflects(before + [[]] + after, docs)
    ensures Reflects(before + [] + after, docs)
  {
    EmptyReflects(before, after, docs);
    assert before + [] == before;
  }

  // ----- The index

  // Every document as a change from nothing.
  method AllInserts(docs: Documents) returns (changes: seq<Change>)
    requires DocumentsOk(docs)
    ensures ChangesOk(changes) && Fits(map[], changes) && Apply(map[], changes) == docs
  {
    changes := [];
    var left: set<int> := docs.Keys;
    while left != {}
      invariant left <= docs.Keys && ChangesOk(changes) && Fits(map[], changes)
      invariant forall i :: 0 <= i < |changes| ==> changes[i].rowid !in left
      invariant Apply(map[], changes) == map r | r in docs && r !in left :: docs[r]
    {
      var r := Pick(left);
      var all := changes + [Change(r, None, Some(docs[r]))];
      assert all[..|changes|] == changes;
      changes, left := all, left - {r};
    }
  }

  // The pages of a segment, read back as it is.
  method Leaves(terms: Seg, mergeMode: bool) returns (leaves: seq<bytes>)
    requires GoodSeg(terms)
    ensures ReadSegment(leaves) == Ok(NormedTerms(terms)) && (leaves == [] <==> terms == [])
  {
    GoodTermsOk(terms);
    var pages, idx, ls := WriteSegment(terms, PAGE_SIZE, mergeMode);
    leaves := pages;
  }

  class Index {
    var docs: Documents
    var data: Data
    const structure: SegStructure

    ghost predicate Valid()
      reads this, structure
    {
      Holds(Ages(structure.levels), data, docs)
    }

    constructor ()
      ensures Valid() && docs == map[] && fresh(structure)
    {
      docs, data := map[], map[];
      structure := new SegStructure(0, []);
    }

    // The segments of a level can always be read.
    method ReadLevel(segs: seq<StructSeg>) returns (out: seq<Seg>)
      requires AllStored(segs, data)
      ensures out == ReadAll(segs, data) && AllGood(out)
    {
      StoredGood(segs, data);
      out := [];
      for i := 0 to |segs|
        invariant out == ReadAll(segs, data)[..i]
      {
        var s := segs[i];
        assert Stored(s, data);
        var leaves := data[s.segid][s.pgnoFirst - 1..s.pgnoLast];
        assert leaves == data[s.segid];
        out := out + [ReadSegment(leaves).value];
      }
    }

    // Remove the pages of these segments.
    method Remove(segs: seq<StructSeg>)
      modifies this`data
      ensures data == Without(old(data), segs)
    {
      data := map id | id in data && !Uses(segs, id) :: data[id];
    }

    // Merge a run of segments into one with the id `id`, if anything is left.
    method MergeRun(run: seq<StructSeg>, oldest: bool, id: int, ghost before: seq<StructSeg>,
                    ghost after: seq<StructSeg>)
      returns (leaves: seq<bytes>)
      requires Holds(before + run + after, data, docs) && !Uses(before + run + after, id) && (oldest ==> before == [])
      modifies this`data
      ensures Holds(before + MergedSeg(id, leaves) + after, data, docs) && (run == [] ==> leaves == [])
    {
      CatHolds(before, run, after, data);
      var segs := ReadLevel(run);
      MergedGood(segs, oldest);
      var terms := MergeLevelPostings(segs, oldest);
      leaves := Leaves(terms, true);
      MergeHolds(before, run, after, data, docs, oldest, id, leaves);
      Remove(run);
      if leaves != [] {
        data := data[id := leaves];
      }
    }

    // There is a level above.
    method MakeLevel(lvl: nat)
      requires lvl < |structure.levels|
      modifies structure`levels
      ensures Ages(structure.levels) == old(Ages(structure.levels)) && lvl + 1 < |structure.levels|
      ensures |structure.levels| == |old(structure.levels)| + (if |old(structure.levels)| == lvl + 1 then 1 else 0)
      ensures structure.levels[..|old(structure.levels)|] == old(structure.levels)
      ensures |structure.levels| > |old(structure.levels)| ==> structure.levels[|old(structure.levels)|] == Level(0, [])
    {
      if lvl + 1 >= |structure.levels| {
        AgesTop(structure.levels);
        structure.levels := structure.levels + [Level(0, [])];
      }
    }

    /** Merge the segments of a level into one on the level above, unless they have too many pages. */
    method MergeLevel(lvl: nat, nRem: Option<int>) returns (written: Option<nat>)
      requires Valid() && lvl < |structure.levels|
      modifies this`data, structure`levels
      ensures Valid() && lvl + 1 < |structure.levels|
      ensures written.None? <==> nRem.Some? && TotalSize(old(structure.levels[lvl].segs)) > nRem.value
      ensures written.None? ==>
                data == old(data) && old(structure.levels) <= structure.levels
                && Ages(structure.levels) == old(Ages(structure.levels))
      ensures written.Some? ==>
                Lowered(old(structure.levels), structure.levels, lvl, if written.value == 0 then 0 else 1)
      ensures written.Some? && old(structure.levels[lvl].segs) == [] ==> written.value == 0
    {
      var outId := structure.AllocateSegid();
      MakeLevel(lvl);
      var levels := structure.levels;
      var oldest := levels[lvl + 1].segs == [] && |levels| == lvl + 2;
      var input := levels[lvl].segs;
      AgesSplit(levels, lvl);
      if nRem.Some? && TotalSize(input) > nRem.value {
        return None;
      }
      OldestAges(levels, lvl);
      var leaves := MergeRun(input, oldest, outId, Ages(levels[lvl + 1..]), Ages(levels[..lvl]));
      var out := if leaves == [] then [] else [StructSeg(outId, 1, |leaves|)];
      MergeUpAges(levels, lvl, out);
      structure.levels := MergeUp(levels, lvl, out);
      MergedBusy(old(structure.levels), levels, lvl, out);
      written := Some(|leaves|);
    }

    /** The level being merged, or else the one with the most segments. */
    method PickLevel(nMin: int) returns (best: nat, n: int)
      ensures n == Pressure(structure.levels, nMin) && (n > 0 ==> Pressing(structure.levels, best))
    {
      best, n := 0, 0;
      for lvl := 0 to |structure.levels|
        invariant n == MostSegs(structure.levels, lvl) && (n > 0 ==> HasMost(structure.levels, lvl, best))
        invariant forall k :: 0 <= k < lvl ==> structure.levels[k].nMerge == 0
      {
        var level := structure.levels[lvl];
        if level.nMerge != 0 {
          if level.nMerge > n {
            best, n := lvl, nMin;
          }
          return;
        }
        if |level.segs| > n {
          best, n := lvl, |level.segs|;
        }
      }
    }

    // Merge a level, and promote.
    method MergeBest(best: nat, nRem: int) returns (written: Option<nat>)
      requires Valid() && best < |structure.levels|
      modifies this`data, structure`levels
      ensures Valid()
      ensures written.None? ==> Ages(structure.levels) == old(Ages(structure.levels)) && Stalled(structure.levels, nRem)
      ensures written.Some? ==>
                Lighter(old(structure.levels), structure.levels, best, if written.value == 0 then 0 else 1)
      ensures written.Some? && old(structure.levels[best].segs) == [] ==> written.value == 0
    {
      written := MergeLevel(best, Some(nRem));
      if written.Some? {
        ghost var levels := structure.levels;
        if structure.levels[best].nMerge == 0 {
          ghost var dest, size := structure.PromoteAfterMerge(best + 1);
          SameBusy(levels, structure.levels);
        }
      }
    }

    /** Merge levels with many segments while the page budget lasts. Merging ends when the pages are spent or no
        level is left with `nMin` segments, and gives up only at a level with more pages than are left. */
    method IndexMerge(budget: int, nMin: int) returns (ok: bool, ghost spent: nat)
      requires Valid() && nMin > 0
      modifies this`data, structure`levels
      ensures Valid() && |Ages(structure.levels)| <= |old(Ages(structure.levels))|
      ensures ok ==> spent >= budget || Pressure(structure.levels, nMin) < nMin
      ensures budget <= 0 ==> ok && structure.levels == old(structure.levels) && data == old(data)
      ensures !ok ==> spent < budget && Stalled(structure.levels, budget - spent)
    {
      var nRem := budget;
      spent := 0;
      while nRem > 0
        invariant Valid() && |Ages(structure.levels)| <= |old(Ages(structure.levels))| && nRem == budget - spent
        invariant budget <= 0 ==> structure.levels == old(structure.levels) && data == old(data)
        decreases nRem, |Ages(structure.levels)| + Busy(structure.levels)
      {
        var best, n := PickLevel(nMin);
        if n < nMin {
          break;
        }
        var written := MergeBest(best, nRem);
        if written.None? {
          return false, spent;
        }
        nRem := nRem - written.value;
        spent := spent + written.value;
      }
      ok := true;
    }

    /** Merge work for every 64 pages that the last `nLeaf` complete. */
    method Automerge(nLeaf: nat) returns (ok: bool, ghost spent: nat)
      requires Valid() && nLeaf <= structure.writeCounter
      modifies this`data, structure`levels
      ensures Valid() && |Ages(structure.levels)| <= |old(Ages(structure.levels))|
      ensures var work := Work(structure.writeCounter, nLeaf, |old(structure.levels)|);
              && (work == 0 ==> ok && structure.levels == old(structure.levels) && data == old(data))
              && (ok ==> spent >= work || Pressure(structure.levels, AUTOMERGE) < AUTOMERGE)
              && (!ok ==> Stalled(structure.levels, work - spent))
    {
      var wc := structure.writeCounter;
      var nWork := wc / WORK_UNIT - (wc - nLeaf) / WORK_UNIT;
      if nWork <= 0 {
        assert nWork == 0 && WORK_UNIT * nWork == 0;
        return true, 0;
      }
      ok, spent := IndexMerge(WORK_UNIT * nWork * |structure.levels|, AUTOMERGE);
    }

    /** Merge the levels from the lowest up as long as they have too many segments: every merge takes at least 15
        segments away, and the first level left alone has fewer than 16. */
    method Crisismerge() returns (ok: bool, ghost top: nat)
      requires Valid()
      modifies this`data, structure`levels
      ensures Valid() && ok && top <= |structure.levels|
      ensures top < |structure.levels| ==> |structure.levels[top].segs| < CRISIS
      ensures |Ages(structure.levels)| + (CRISIS - 1) * top <= |old(Ages(structure.levels))|
      ensures top == 0 ==> structure.levels == old(structure.levels) && data == old(data)
    {
      var lvl := 0;
      while lvl < |structure.levels| && |structure.levels[lvl].segs| >= CRISIS
        invariant Valid() && lvl <= |structure.levels|
        invariant |Ages(structure.levels)| + (CRISIS - 1) * lvl <= |old(Ages(structure.levels))|
        invariant lvl == 0 ==> structure.levels == old(structure.levels) && data == old(data)
        decreases |Ages(structure.levels)|
      {
        var written := MergeLevel(lvl, None);
        ghost var dest, size := structure.PromoteAfterMerge(lvl + 1);
        lvl := lvl + 1;
      }
      ok, top := true, lvl;
    }

    // One segment with these leaves, or none.
    method Replace(leaves: seq<bytes>)
      modifies this`data, structure
      ensures Ages(structure.levels) == (if leaves == [] then [] else [StructSeg(1, 1, |leaves|)])
      ensures data == (if leaves == [] then map[] else map[1 := leaves])
    {
      data := if leaves == [] then map[] else map[1 := leaves];
      structure.levels := if leaves == [] then [] else [Level(0, [StructSeg(1, 1, |leaves|)])];
      structure.writeCounter := |leaves|;
    }

    /** Write the whole index anew as one segment. */
    method Rebuild()
      requires DocumentsOk(docs)
      modifies this`data, structure
      ensures Valid()
    {
      var changes := AllInserts(docs);
      var terms := BuildTerms(changes);
      var leaves := Leaves(terms, false);
      RebuiltHolds(docs, changes, terms, leaves);
      Replace(leaves);
    }

    /** Flush a batch of changes to the documents as a new segment. */
    method FlushBatch(changes: seq<Change>)
      requires Valid() && ChangesOk(changes) && Fits(docs, changes)
      modifies this`docs, this`data, structure
      ensures Valid() && docs == Apply(old(docs), changes)
    {
      if changes == [] {
        return;
      }
      AppliedOk(docs, changes);
      var terms := BuildTerms(changes);
      ghost var was := docs;
      docs := Apply(docs, changes);
      if terms == [] {
        Rebuild();
        return;
      }
      var id := structure.AllocateSegid();
      var leaves := Leaves(terms, false);
      FlushHolds(Ages(structure.levels), data, was, changes, terms, id, leaves);
      // A doclist long enough for a page of its own index is not appended.
      if * {
        Rebuild();
        return;
      }
      data := data[id := leaves];
      structure.AppendLevel0(id, |leaves|);
      var ok;
      ghost var spent, top;
      ok, spent := Automerge(|leaves|);
      if ok {
        ok, top := Crisismerge();
      }
      if !ok {
        Rebuild();
      }
    }
  }

  const WORK_UNIT: nat := 64
  const AUTOMERGE: nat := 4
  const CRISIS: nat := 16

  // The first level on which a merge is under way, or else the number of levels.
  function FirstBusy(levels: seq<Level>): (m: nat)
    ensures m <= |levels| && (forall k :: 0 <= k < m ==> levels[k].nMerge == 0)
    ensures m < |levels| ==> levels[m].nMerge != 0
  {
    if levels == [] || levels[0].nMerge != 0 then 0 else 1 + FirstBusy(levels[1..])
  }

  // The most segments on one of the first levels.
  function MostSegs(levels: seq<Level>, n: nat): (most: nat)
    requires n <= |levels|
    ensures forall k :: 0 <= k < n ==> |levels[k].segs| <= most
  {
    if n == 0 then 0
    else
      var before := MostSegs(levels, n - 1);
      if |levels[n - 1].segs| > before then |levels[n - 1].segs| else before
  }

  // A merge under way that goes before the level with the most segments.
  predicate MergeFirst(levels: seq<Level>) {
    var m := FirstBusy(levels);
    m < |levels| && levels[m].nMerge > MostSegs(levels, m)
  }

  /** What a merge could take up: `nMin` segments for one under way, or the most that a level has. */
  function Pressure(levels: seq<Level>, nMin: int): int {
    if MergeFirst(levels) then nMin else MostSegs(levels, FirstBusy(levels))
  }

  // The first of these levels with the most segments.
  predicate HasMost(levels: seq<Level>, n: nat, best: nat)
    requires n <= |levels|
  {
    && best < n && |levels[best].segs| == MostSegs(levels, n)
    && forall k :: 0 <= k < best ==> |levels[k].segs| < |levels[best].segs|
  }

  /** The level to merge. */
  predicate Pressing(levels: seq<Level>, best: nat) {
    if MergeFirst(levels) then best == FirstBusy(levels) else HasMost(levels, FirstBusy(levels), best)
  }

  // A level has more pages than this.
  ghost predicate Stalled(levels: seq<Level>, pages: int) {
    exists lvl :: 0 <= lvl < |levels| && TotalSize(levels[lvl].segs) > pages
  }

  // The pages of merge work that the last pages written unlock.
  function Work(written: nat, nLeaf: nat, nLevels: nat): int
    requires nLeaf <= written
  {
    WORK_UNIT * (written / WORK_UNIT - (written - nLeaf) / WORK_UNIT) * nLevels
  }

  // The levels on which a merge is under way.
  ghost function Busy(levels: seq<Level>): nat {
    if levels == [] then 0 else Busy(levels[1..]) + (if levels[0].nMerge != 0 then 1 else 0)
  }

  lemma {:induction false} SameBusy(a: seq<Level>, b: seq<Level>)
    requires SameMerging(a, b)
    ensures Busy(a) == Busy(b)
  {
    if a != [] {
      assert forall i :: 0 <= i < |a| - 1 ==> a[1..][i] == a[i + 1] && b[1..][i] == b[i + 1];
      SameBusy(a[1..], b[1..]);
    }
  }

  // The segments of the level have gone, and `more` have come.
  ghost predicate Lowered(was: seq<Level>, now: seq<Level>, lvl: nat, more: nat) {
    lvl + 1 < |now| && now[lvl] == Level(0, []) && Lighter(was, now, lvl, more)
  }

  ghost predicate Lighter(was: seq<Level>, now: seq<Level>, lvl: nat, more: nat) {
    && lvl < |was| && |Ages(now)| + |was[lvl].segs| == |Ages(was)| + more
    && Busy(now) + (if was[lvl].nMerge != 0 then 1 else 0) == Busy(was)
  }

  lemma {:induction false} BusyTop(levels: seq<Level>)
    ensures Busy(levels + [Level(0, [])]) == Busy(levels)
  {
    if levels == [] {
      assert levels + [Level(0, [])] == [Level(0, [])];
    } else {
      assert (levels + [Level(0, [])])[1..] == levels[1..] + [Level(0, [])];
      BusyTop(levels[1..]);
    }
  }

  lemma {:induction false} BusyMergeUp(levels: seq<Level>, lvl: nat, out: seq<StructSeg>)
    requires lvl + 1 < |levels|
    ensures Busy(MergeUp(levels, lvl, out)) + (if levels[lvl].nMerge != 0 then 1 else 0) == Busy(levels)
    decreases lvl
  {
    var now := MergeUp(levels, lvl, out);
    if lvl == 0 {
      assert now[1..][1..] == levels[1..][1..];
    } else {
      assert now[1..] == MergeUp(levels[1..], lvl - 1, out);
      BusyMergeUp(levels[1..], lvl - 1, out);
    }
  }

  lemma {:induction false} MergedBusy(was: seq<Level>, levels: seq<Level>, lvl: nat, out: seq<StructSeg>)
    requires lvl < |was| && lvl + 1 < |levels| && |levels| == |was| + (if |was| == lvl + 1 then 1 else 0)
    requires levels[..|was|] == was && (|levels| > |was| ==> levels[|was|] == Level(0, [])) && Ages(was) == Ages(levels)
    ensures Lowered(was, MergeUp(levels, lvl, out), lvl, |out|)
  {
    assert levels[lvl] == was[lvl];
    AgesSplit(levels, lvl);
    MergeUpAges(levels, lvl, out);
    BusyMergeUp(levels, lvl, out);
    if |levels| > |was| {
      assert levels == was + [Level(0, [])];
      BusyTop(was);
    } else {
      assert levels == was;
    }
  }

  lemma {:induction false} NothingHolds()
    ensures Holds([], map[], map[])
  {
    var none: seq<StructSeg>, data: Data, docs: Documents := [], map[], map[];
    assert ReadAll(none, data) == [];
    forall key, r
      ensures Live(ReadAll(none, data), key, r) == Indexed(docs, key, r)
    {
    }
  }

  // Documents without terms.
  lemma {:induction false} RebuiltEmpty(docs: Documents, changes: seq<Change>)
    requires ChangesOk(changes) && Fits(map[], changes) && Apply(map[], changes) == docs && DocumentsOk(docs)
    requires Builds([], changes)
    ensures Holds([], map[], docs)
  {
    NothingHolds();
    var none: seq<Seg> := [];
    assert ReadAll([], map[]) == none && NormedTerms([]) == [];
    FlushReflects(none, map[], changes, []);
    assert none + [[]] + none == none + [[]] && none + none == none;
    EmptyReflects(none, none, docs);
  }

  // One segment with all documents, or none if they have no terms.
  lemma {:induction false} RebuiltHolds(docs: Documents, changes: seq<Change>, terms: Seg, leaves: seq<bytes>)
    requires ChangesOk(changes) && Fits(map[], changes) && Apply(map[], changes) == docs
    requires Builds(terms, changes) && GoodSeg(terms) && DocumentsOk(docs)
    requires ReadSegment(leaves) == Ok(NormedTerms(terms)) && (leaves == [] <==> terms == [])
    ensures if leaves == [] then Holds([], map[], docs) else Holds([StructSeg(1, 1, |leaves|)], map[1 := leaves], docs)
  {
    if leaves == [] {
      RebuiltEmpty(docs, changes);
    } else {
      NothingHolds();
      var none: seq<StructSeg>, data: Data := [], map[];
      FlushHolds(none, data, map[], changes, terms, 1, leaves);
      assert none + [StructSeg(1, 1, |leaves|)] == [StructSeg(1, 1, |leaves|)];
      assert data[1 := leaves] == map[1 := leaves];
    }
  }

  function TotalSize(segs: seq<StructSeg>): int {
    if segs == [] then 0 else segs[0].Size() + TotalSize(segs[1..])
  }

  // Above the last but one level there is nothing if the last is empty.
  lemma {:induction false} OldestAges(levels: seq<Level>, lvl: nat)
    requires lvl + 1 < |levels|
    ensures levels[lvl + 1].segs == [] && |levels| == lvl + 2 ==> Ages(levels[lvl + 1..]) == []
  {
    if levels[lvl + 1].segs == [] && |levels| == lvl + 2 {
      assert levels[lvl + 1..] == [levels[lvl + 1]];
    }
  }

  // ----- Whole histories

  function ApplyAll(docs: Documents, batches: seq<seq<Change>>): Documents
    decreases batches
  {
    if batches == [] then docs else ApplyAll(Apply(docs, batches[0]), batches[1..])
  }

  // Every batch changes the documents that the ones before it left.
  ghost predicate History(docs: Documents, batches: seq<seq<Change>>)
    decreases batches
  {
    batches == []
    || (ChangesOk(batches[0]) && Fits(docs, batches[0]) && History(Apply(docs, batches[0]), batches[1..]))
  }

  /** After any history the pages say what the documents say. */
  method Replay(batches: seq<seq<Change>>) returns (ix: Index)
    requires History(map[], batches)
    ensures fresh(ix) && fresh(ix.structure) && ix.Valid() && ix.docs == ApplyAll(map[], batches)
  {
    ix := new Index();
    var rest := batches;
    while rest != []
      invariant fresh(ix) && fresh(ix.structure) && ix.Valid()
      invariant History(ix.docs, rest) && ApplyAll(ix.docs, rest) == ApplyAll(map[], batches)
      decreases rest
    {
      ix.FlushBatch(rest[0]);
      rest := rest[1..];
    }
  }
}
