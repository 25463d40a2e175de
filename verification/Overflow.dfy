/** Payloads too large for their page: the overflow chain, written and read back. */
module Overflow {
  import opened Bytes
  import opened BigEndian
  import opened PageFormat
  import Varint

  type Store = map<nat, bytes>

  /** Pages hold at least the four-byte link. */
  ghost predicate WellSized(store: Store) {
    forall pg :: pg in store ==> |store[pg]| >= 4
  }

  function Min(a: nat, b: nat): nat {
    if a < b then a else b
  }

  /** What following links from `next` for `need` more bytes yields. */
  function Follow(store: Store, next: nat, need: nat, cap: nat): Result<bytes>
    requires cap > 0 && WellSized(store)
    decreases need
  {
    if need == 0 then Ok([])
    else if next == 0 || next !in store then Corrupt
    else
      var take := Min(need, cap);
      if 4 + take > |store[next]| then Corrupt
      else
        match Follow(store, Get32(store[next], 0), need - take, cap)
        case Corrupt => Corrupt
        case Ok(rest) => Ok(store[next][4..4 + take] + rest)
  }

  datatype Payload = Payload(total: nat, at: nat, local: nat, overflow: nat)

  /** Reassemble a payload: the local part, then the chain. */
  method ReadPayload(store: Store, page: bytes, payload: Payload, usable: nat) returns (r: Result<bytes>)
    requires usable > 4 && WellSized(store)
    requires payload.at + payload.local <= |page| && payload.local <= payload.total
    ensures r == Prepend(page[payload.at..payload.at + payload.local],
                         Follow(store, payload.overflow, payload.total - payload.local, usable - 4))
  {
    var out := page[payload.at..payload.at + payload.local];
    var next := payload.overflow;
    ghost var goal := Prepend(out, Follow(store, next, payload.total - |out|, usable - 4));
    while next != 0 && |out| < payload.total
      invariant |out| <= payload.total
      invariant goal == Prepend(out, Follow(store, next, payload.total - |out|, usable - 4))
      decreases payload.total - |out|
    {
      if next !in store {
        return Corrupt;
      }
      var data := store[next];
      var take := Min(payload.total - |out|, usable - 4);
      if 4 + take > |data| {
        return Corrupt;
      }
      PrependStep(out, data[4..4 + take], Follow(store, Get32(data, 0), payload.total - |out| - take, usable - 4));
      out := out + data[4..4 + take];
      next := Get32(data, 0);
    }
    if |out| != payload.total {
      return Corrupt;
    }
    assert out + [] == out;
    return Ok(out);
  }

  // ----- Writing

  // What `k` full chain pages hold.
  ghost function Held(k: nat, cap: nat): nat {
    if k == 0 then 0 else Held(k - 1, cap) + cap
  }

  // Where the part of the data on chain page `k` begins.
  ghost function Begin(k: nat, cap: nat, len: nat): nat {
    Min(Held(k, cap), len)
  }

  function LinkAfter(pages: seq<nat>, k: nat): nat {
    if k + 1 < |pages| then pages[k + 1] else 0
  }

  // Exactly as many pages as the data needs.
  ghost predicate Enough(pages: seq<nat>, len: nat, cap: nat) {
    |pages| > 0 && Held(|pages| - 1, cap) < len <= Held(|pages|, cap)
  }

  ghost predicate ChainPages(pages: seq<nat>) {
    && (forall i :: 0 <= i < |pages| ==> 0 < pages[i] < 0x1_0000_0000)
    && (forall i, j :: 0 <= i < j < |pages| ==> pages[i] != pages[j])
  }

  ghost predicate LinkHeld(store: Store, pages: seq<nat>, k: nat, data: bytes, cap: nat)
    requires k < |pages|
  {
    var from, to := Begin(k, cap, |data|), Begin(k + 1, cap, |data|);
    && from <= to && pages[k] in store && 4 + (to - from) <= |store[pages[k]]|
    && LinkAfter(pages, k) < 0x1_0000_0000
    && store[pages[k]][..4] == Be32(LinkAfter(pages, k))
    && store[pages[k]][4..4 + (to - from)] == data[from..to]
  }

  /** The first `n` chain pages are in place. */
  ghost predicate Chained(store: Store, pages: seq<nat>, n: nat, data: bytes, cap: nat)
    requires n <= |pages|
  {
    forall k :: 0 <= k < n ==> LinkHeld(store, pages, k, data, cap)
  }

  lemma {:induction false} HeldGrows(i: nat, j: nat, cap: nat)
    requires i <= j
    ensures Held(i, cap) <= Held(j, cap)
  {
    if i < j {
      HeldGrows(i, j - 1, cap);
    }
  }

  // Writing chain page `i` leaves the pages before it alone.
  lemma {:induction false} ChainedStays(store: Store, page: bytes, pages: seq<nat>, i: nat, data: bytes, cap: nat)
    requires i < |pages| && ChainPages(pages) && Chained(store, pages, i, data, cap)
    ensures Chained(store[pages[i] := page], pages, i, data, cap)
  {
    var after := store[pages[i] := page];
    forall k | 0 <= k < i
      ensures LinkHeld(after, pages, k, data, cap)
    {
      assert LinkHeld(store, pages, k, data, cap);
    }
  }

  /** Write `data` over a chain of fresh pages, each page linked to the next. */
  method WriteOverflowChain(store: Store, pages: seq<nat>, data: bytes, usable: nat, pageSize: nat)
    returns (after: Store)
    requires 4 < usable <= pageSize && ChainPages(pages) && Enough(pages, |data|, usable - 4)
    ensures WellSized(store) ==> WellSized(after)
    ensures forall pg :: pg in store && pg !in pages ==> pg in after && after[pg] == store[pg]
    ensures Chained(after, pages, |pages|, data, usable - 4)
  {
    var cap := usable - 4;
    after := store;
    var start := 0;
    for i := 0 to |pages|
      invariant start == Held(i, cap)
      invariant WellSized(store) ==> WellSized(after)
      invariant forall pg :: pg in store && pg !in pages ==> pg in after && after[pg] == store[pg]
      invariant Chained(after, pages, i, data, cap)
    {
      HeldGrows(i, |pages| - 1, cap);
      var end := Min(start + cap, |data|);
      var page := Be32(LinkAfter(pages, i)) + data[start..end] + seq(pageSize - 4 - (end - start), _ => 0);
      ghost var before := after;
      after := after[pages[i] := page];
      assert LinkHeld(after, pages, i, data, cap);
      ChainedStays(before, page, pages, i, data, cap);
      start := start + cap;
    }
  }

  /** Following the chain from page `k` on yields the data from there on. */
  lemma {:induction false} ChainHolds(store: Store, pages: seq<nat>, data: bytes, cap: nat, k: nat)
    requires cap > 0 && WellSized(store) && ChainPages(pages) && Enough(pages, |data|, cap) && k <= |pages|
    requires Chained(store, pages, |pages|, data, cap)
    ensures var from := Begin(k, cap, |data|);
            Follow(store, if k < |pages| then pages[k] else 0, |data| - from, cap) == Ok(data[from..])
    decreases |pages| - k
  {
    var from := Begin(k, cap, |data|);
    if k < |pages| {
      ChainHolds(store, pages, data, cap, k + 1);
      assert LinkHeld(store, pages, k, data, cap);
      HeldGrows(k, |pages| - 1, cap);
      var to := Begin(k + 1, cap, |data|);
      Be32RoundTrip(store[pages[k]], 0, LinkAfter(pages, k));
      assert data[from..] == data[from..to] + data[to..];
    } else {
      assert data[|data|..] == [];
    }
  }

  /** The descriptor of a payload whose local part starts at `start` on the page. */
  function PayloadAt(data: bytes, start: nat, total: nat, usable: nat): Result<Payload> {
    var (local, spills) := PayloadSplit(usable, total);
    if start + local + (if spills then 4 else 0) > |data| then Corrupt
    else Ok(Payload(total, start, local, if spills then Get32(data, start + local) else 0))
  }

  /** The payload of index cell `i`. */
  function IndexCell(p: BtreePage, i: nat, usable: nat): Result<Payload> {
    if p.kind.IsTable() then Corrupt
    else
      match CellOffset(p, i)
      case Corrupt => Corrupt
      case Ok(off) =>
        var key := if p.kind.InteriorIndex? then off + 4 else off;
        if key > |p.data| then Corrupt
        else
          match Varint.Decode(p.data[key..])
          case Truncated => Corrupt
          case Decoded(plen, n) => PayloadAt(p.data, key + n, plen, usable)
  }

  // The part of the record that does not fit locally is on the chain `pages`.
  ghost predicate RestChained(store: Store, record: bytes, usable: nat, pages: seq<nat>)
    requires usable >= 480
  {
    PayloadSplitBounds(usable, |record|);
    var (local, spills) := PayloadSplit(usable, |record|);
    WellSized(store) && ChainPages(pages)
    && if spills then
         Enough(pages, |record| - local, usable - 4) && Chained(store, pages, |pages|, record[local..], usable - 4)
       else pages == []
  }

  // What `ReadPayload` makes of this descriptor is the record.
  ghost predicate ReadsAs(store: Store, page: bytes, payload: Payload, usable: nat, record: bytes) {
    && usable > 4 && WellSized(store) && payload.at + payload.local <= |page| && payload.local <= payload.total
    && Prepend(page[payload.at..payload.at + payload.local],
               Follow(store, payload.overflow, payload.total - payload.local, usable - 4)) == Ok(record)
  }

  function First(pages: seq<nat>): nat {
    if pages == [] then 0 else pages[0]
  }

  lemma {:induction false} ChainFromStart(store: Store, record: bytes, local: nat, usable: nat, pages: seq<nat>)
    requires 480 <= usable && WellSized(store) && ChainPages(pages) && local <= |record|
    requires if pages == [] then local == |record|
             else Enough(pages, |record| - local, usable - 4)
                  && Chained(store, pages, |pages|, record[local..], usable - 4)
    ensures Prepend(record[..local], Follow(store, First(pages), |record| - local, usable - 4))
         == Ok(record)
  {
    assert record[..local] + record[local..] == record;
    if pages == [] {
      assert record[..local] + [] == record;
    } else {
      ChainHolds(store, pages, record[local..], usable - 4, 0);
    }
  }

  lemma {:induction false} RecordCellParts(page: bytes, key: nat, v: bytes, local: bytes, link: bytes)
    requires key + |v + local + link| <= |page| && page[key..key + |v + local + link|] == v + local + link
    ensures page[key + |v|..key + |v| + |local|] == local
    ensures page[key + |v| + |local|..key + |v| + |local| + |link|] == link
  {
    PartsOfSlice(page, key, v + local, link);
    PartsOfSlice(page, key, v, local);
  }

  lemma {:induction false} PayloadFound(page: bytes, key: nat, record: bytes, usable: nat, first: nat)
    requires 480 <= usable && |record| < Varint.TWO_64 && first < 0x1_0000_0000
    requires PayloadSplit(usable, |record|).1 || first == 0
    requires var c := RecordCell(record, usable, first); key + |c| <= |page| && page[key..key + |c|] == c
    ensures var (n, local) := (|Varint.Encode(|record|)|, PayloadSplit(usable, |record|).0);
            && local <= |record| && key + n + local <= |page|
            && PayloadAt(page, key + n, |record|, usable) == Ok(Payload(|record|, key + n, local, first))
            && page[key + n..key + n + local] == record[..local]
  {
    PayloadSplitBounds(usable, |record|);
    var (local, spills) := PayloadSplit(usable, |record|);
    var v, link := Varint.Encode(|record|), if spills then Be32(first) else [];
    RecordCellParts(page, key, v, record[..local], link);
    if spills {
      Be32RoundTrip(page, key + |v| + local, first);
    }
  }

  lemma {:induction false} ReadsRecord(store: Store, page: bytes, at: nat, local: nat, record: bytes, usable: nat,
                                       pages: seq<nat>)
    requires 480 <= usable && RestChained(store, record, usable, pages)
    requires local == PayloadSplit(usable, |record|).0 <= |record|
    requires at + local <= |page| && page[at..at + local] == record[..local]
    ensures ReadsAs(store, page, Payload(|record|, at, local, First(pages)), usable, record)
  {
    PayloadSplitBounds(usable, |record|);
    ChainFromStart(store, record, local, usable, pages);
  }

  /** A record cell that lies on the page at `key`, with its rest on a chain, reads back as the record. */
  lemma {:induction false} RecordReadBack(store: Store, page: bytes, key: nat, record: bytes, usable: nat,
                                          pages: seq<nat>)
    requires 480 <= usable && |record| < Varint.TWO_64 && RestChained(store, record, usable, pages)
    requires var c := RecordCell(record, usable, First(pages)); key + |c| <= |page| && page[key..key + |c|] == c
    ensures var r := PayloadAt(page, key + |Varint.Encode(|record|)|, |record|, usable);
            r.Ok? && ReadsAs(store, page, r.value, usable, record)
  {
    PayloadFound(page, key, record, usable, First(pages));
    ReadsRecord(store, page, key + |Varint.Encode(|record|)|, PayloadSplit(usable, |record|).0, record, usable, pages);
  }

  lemma {:induction false} IndexCellIs(p: BtreePage, i: nat, off: nat, key: nat, plen: nat, n: nat, usable: nat)
    requires !p.kind.IsTable() && CellOffset(p, i) == Ok(off)
    requires key == (if p.kind.InteriorIndex? then off + 4 else off) && key <= |p.data|
    requires Varint.Decode(p.data[key..]) == Varint.Decoded(plen, n)
    ensures IndexCell(p, i, usable) == PayloadAt(p.data, key + n, plen, usable)
  {
  }

  // A record cell at `key` of the page.
  ghost predicate CellOfRecord(page: bytes, key: nat, record: bytes, usable: nat, first: nat) {
    && 480 <= usable && |record| < Varint.TWO_64 && first < 0x1_0000_0000
    && var c := RecordCell(record, usable, first); key + |c| <= |page| && page[key..key + |c|] == c
  }

  lemma {:induction false} IndexCellLocated(p: BtreePage, i: nat, off: nat, key: nat, record: bytes, usable: nat,
                                            first: nat)
    requires CellOfRecord(p.data, key, record, usable, first)
    requires !p.kind.IsTable() && CellOffset(p, i) == Ok(off)
    requires key == (if p.kind.InteriorIndex? then off + 4 else off)
    ensures IndexCell(p, i, usable) == PayloadAt(p.data, key + |Varint.Encode(|record|)|, |record|, usable)
  {
    RecordCellRead(p.data, key, record, usable, first);
    IndexCellIs(p, i, off, key, |record|, |Varint.Encode(|record|)|, usable);
  }

  /** The same through the reader of index cells, wherever on the page the pointer array leads. */
  lemma {:induction false} IndexCellReadBack(store: Store, p: BtreePage, i: nat, off: nat, key: nat, record: bytes,
                                             usable: nat, pages: seq<nat>)
    requires 480 <= usable && RestChained(store, record, usable, pages)
    requires CellOfRecord(p.data, key, record, usable, First(pages))
    requires !p.kind.IsTable() && CellOffset(p, i) == Ok(off)
    requires key == (if p.kind.InteriorIndex? then off + 4 else off)
    ensures IndexCell(p, i, usable).Ok? && ReadsAs(store, p.data, IndexCell(p, i, usable).value, usable, record)
  {
    IndexCellLocated(p, i, off, key, record, usable, First(pages));
    RecordReadBack(store, p.data, key, record, usable, pages);
  }
}
