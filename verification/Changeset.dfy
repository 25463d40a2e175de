/** The changeset format at the level of bytes: table headers and change records, whose fields stay
    in their serialized form. Reading and writing are inverse to each other on everything that can be
    read. */
module Changeset {
  import opened Seqs
  import opened Bytes
  import Varint

  const OP_INSERT: byte := 18
  const OP_UPDATE: byte := 23
  const OP_DELETE: byte := 9

  const T_INT: byte := 1
  const T_FLOAT: byte := 2
  const T_TEXT: byte := 3
  const T_BLOB: byte := 4
  const T_NULL: byte := 5

  // The marker of a field that is not given.
  const OMIT: bytes := [0]

  const HEADER_BYTE: byte := 0x54

  // ----- Fields

  /** Length of the serialized field at the front of `s`. */
  function SerialLen(s: bytes): (r: Result<nat>)
    ensures r.Ok? ==> 0 < r.value <= |s|
  {
    if s == [] then Corrupt
    else if s[0] == 0 || s[0] == 255 || s[0] == T_NULL then Ok(1)
    else if s[0] == T_INT || s[0] == T_FLOAT then if |s| < 9 then Corrupt else Ok(9)
    else if s[0] == T_TEXT || s[0] == T_BLOB then
      match Varint.Decode(s[1..])
      case Truncated => Corrupt
      case Decoded(n, len) => if 1 + len + n > |s| then Corrupt else Ok(1 + len + n)
    else Corrupt
  }

  predicate IsField(f: bytes) {
    SerialLen(f) == Ok(|f|)
  }

  ghost predicate AreFields(fs: seq<bytes>) {
    forall i :: 0 <= i < |fs| ==> IsField(fs[i])
  }

  /** Only the bytes of the field matter for its length. */
  lemma {:induction false} SerialLenLocal(s: bytes, t: bytes)
    requires SerialLen(s).Ok? && |t| >= SerialLen(s).value
    requires t[..SerialLen(s).value] == s[..SerialLen(s).value]
    ensures SerialLen(t) == SerialLen(s)
  {
    var k := SerialLen(s).value;
    assert t[0] == t[..k][0] == s[..k][0] == s[0];
    if s[0] == T_TEXT || s[0] == T_BLOB {
      var d := Varint.Decode(s[1..]);
      SamePart(s, t, k, d.length);
      Varint.DecodeLocal(s[1..], t[1..]);
    }
  }

  // The bytes after the first, up to the `n`th of them.
  lemma {:induction false} SamePart(s: bytes, t: bytes, k: nat, n: nat)
    requires 1 + n <= k <= |s| && k <= |t| && t[..k] == s[..k]
    ensures t[1..][..n] == s[1..][..n]
  {
    assert forall i :: 0 <= i < n ==> t[1..][..n][i] == t[..k][1 + i] == s[..k][1 + i] == s[1..][..n][i];
  }

  lemma {:induction false} FieldOfPrefix(s: bytes)
    requires SerialLen(s).Ok?
    ensures IsField(s[..SerialLen(s).value])
  {
    SerialLenLocal(s, s[..SerialLen(s).value]);
  }

  lemma {:induction false} FieldThen(f: bytes, t: bytes)
    requires IsField(f)
    ensures SerialLen(f + t) == Ok(|f|) && (f + t)[..|f|] == f && (f + t)[|f|..] == t
  {
    SerialLenLocal(f, f + t);
  }

  lemma {:induction false} OmitIsField()
    ensures IsField(OMIT)
  {
  }

  lemma {:induction false} OmittedField(f: bytes)
    requires IsField(f)
    ensures f != [] && (f[0] == 0 <==> f == OMIT)
  {
  }

  // ----- Records

  function Join(fs: seq<bytes>): bytes {
    if fs == [] then [] else fs[0] + Join(fs[1..])
  }

  /** The `n` fields at the front of `s`. */
  function SplitRecord(s: bytes, n: nat): Result<seq<bytes>>
    decreases n
  {
    if n == 0 then Ok([])
    else
      match SerialLen(s)
      case Corrupt => Corrupt
      case Ok(k) =>
        match SplitRecord(s[k..], n - 1)
        case Corrupt => Corrupt
        case Ok(rest) => Ok([s[..k]] + rest)
  }

  lemma {:induction false} SplitThenJoin(s: bytes, n: nat)
    requires SplitRecord(s, n).Ok?
    ensures var fs := SplitRecord(s, n).value;
            |fs| == n && AreFields(fs) && |Join(fs)| <= |s| && s == Join(fs) + s[|Join(fs)|..]
    decreases n
  {
    if n > 0 {
      var k := SerialLen(s).value;
      SplitThenJoin(s[k..], n - 1);
      FieldOfPrefix(s);
      var rest := SplitRecord(s[k..], n - 1).value;
      var fs := [s[..k]] + rest;
      assert fs[1..] == rest;
      JoinTail(s, k, Join(rest));
    }
  }

  lemma {:induction false} JoinTail(s: bytes, k: nat, j: bytes)
    requires k <= |s| && |j| <= |s| - k && s[k..] == j + s[k..][|j|..]
    ensures s == s[..k] + j + s[k + |j|..]
  {
    assert s[k..][|j|..] == s[k + |j|..];
  }

  lemma {:induction false} JoinThenSplit(fs: seq<bytes>, t: bytes)
    requires AreFields(fs)
    ensures SplitRecord(Join(fs) + t, |fs|) == Ok(fs)
  {
    if fs != [] {
      var rest := fs[1..];
      JoinThenSplit(rest, t);
      Assoc(fs[0], Join(rest), t);
      FieldThen(fs[0], Join(rest) + t);
      assert fs == [fs[0]] + rest;
    } else {
      assert Join(fs) + t == t;
    }
  }

  lemma {:induction false} JoinCat(a: seq<bytes>, b: seq<bytes>)
    ensures Join(a + b) == Join(a) + Join(b)
  {
    if a == [] {
      assert a + b == b;
    } else {
      assert (a + b)[1..] == a[1..] + b;
      JoinCat(a[1..], b);
    }
  }

  // ----- Table headers

  datatype Header = Header(ncol: nat, pk: bytes, name: bytes, raw: bytes)

  // The offset of the first zero byte.
  function NulAt(s: bytes): (r: Result<nat>)
    ensures r.Ok? ==> r.value < |s| && s[r.value] == 0 && 0 !in s[..r.value]
  {
    if s == [] then Corrupt
    else if s[0] == 0 then Ok(0)
    else
      match NulAt(s[1..])
      case Corrupt => Corrupt
      case Ok(k) =>
        assert s[..k + 1] == [s[0]] + s[1..][..k];
        Ok(k + 1)
  }

  lemma {:induction false} NulAfter(name: bytes, t: bytes)
    requires 0 !in name
    ensures NulAt(name + [0] + t) == Ok(|name|)
  {
    if name != [] {
      NulAfter(name[1..], t);
      assert (name + [0] + t)[1..] == name[1..] + [0] + t;
    }
  }

  // The column count, then one key byte per column, then a zero-terminated name.
  function HeaderBody(s: bytes, ncol: nat, at: nat): Result<Header>
    requires at <= |s|
  {
    if ncol == 0 || at + ncol > |s| then Corrupt
    else
      match NulAt(s[at + ncol..])
      case Corrupt => Corrupt
      case Ok(k) => Ok(Header(ncol, s[at..at + ncol], s[at + ncol..at + ncol + k], s[..at + ncol + k + 1]))
  }

  /** Read the table header at the front of `s`, which starts with its marker byte. */
  function ReadHeader(s: bytes): Result<Header>
    requires s != []
  {
    match Varint.Decode(s[1..])
    case Truncated => Corrupt
    case Decoded(ncol, len) => HeaderBody(s, ncol, 1 + len)
  }

  // The bytes of a header: `lead` is the marker, whichever it is, and the encoded column count.
  ghost predicate HeaderAfter(h: Header, lead: bytes) {
    && h.ncol > 0 && |h.pk| == h.ncol && 0 !in h.name
    && h.raw == lead + h.pk + h.name + [0]
    && lead != [] && Varint.Decode(lead[1..]) == Varint.Decoded(h.ncol, |lead| - 1)
  }

  ghost predicate HeaderOf(h: Header, lead: bytes) {
    HeaderAfter(h, lead) && lead[0] == HEADER_BYTE
  }

  ghost predicate IsHeader(h: Header) {
    exists lead :: HeaderOf(h, lead)
  }

  lemma {:induction false} HeaderRead(s: bytes)
    requires s != [] && s[0] == HEADER_BYTE && ReadHeader(s).Ok?
    ensures var h := ReadHeader(s).value; IsHeader(h) && |h.raw| <= |s| && h.raw == s[..|h.raw|]
  {
    var h, d := ReadHeader(s).value, Varint.Decode(s[1..]);
    var at := 1 + d.length;
    var lead := s[..at];
    Varint.DecodeLocal(s[1..], lead[1..]);
    var k := NulAt(s[at + h.ncol..]).value;
    assert h.name == s[at + h.ncol..][..k];
    assert h.raw == lead + h.pk + h.name + [0];
    assert HeaderOf(h, lead);
  }

  lemma {:induction false} FourParts(a: bytes, b: bytes, c: bytes, t: bytes)
    ensures var s := a + b + c + [0] + t;
            && s[|a|..|a| + |b|] == b && s[|a| + |b|..] == c + [0] + t
            && s[|a| + |b|..|a| + |b| + |c|] == c && s[..|a| + |b| + |c| + 1] == a + b + c + [0]
  {
    var s := a + b + c + [0] + t;
    assert s == a + (b + (c + [0] + t));
  }

  lemma {:induction false} HeaderBodyThen(h: Header, lead: bytes, t: bytes)
    requires HeaderAfter(h, lead)
    ensures HeaderBody(h.raw + t, h.ncol, |lead|) == Ok(h)
  {
    FourParts(lead, h.pk, h.name, t);
    NulAfter(h.name, t);
  }

  lemma {:induction false} HeaderAfterThen(h: Header, lead: bytes, t: bytes)
    requires HeaderAfter(h, lead)
    ensures h.raw != [] && (h.raw + t)[0] == lead[0] && ReadHeader(h.raw + t) == Ok(h)
  {
    var s := h.raw + t;
    assert s[1..] == lead[1..] + (h.pk + h.name + [0] + t);
    Varint.DecodeLocal(lead[1..], s[1..]);
    HeaderBodyThen(h, lead, t);
  }

  lemma {:induction false} HeaderThen(h: Header, t: bytes)
    requires IsHeader(h)
    ensures h.raw != [] && (h.raw + t)[0] == HEADER_BYTE && ReadHeader(h.raw + t) == Ok(h)
  {
    var lead :| HeaderOf(h, lead);
    HeaderAfterThen(h, lead, t);
  }

  // ----- Whole changesets

  datatype Item = Head(hdr: Header) | Change(op: byte, indirect: byte, fields: seq<bytes>)

  predicate IsOp(op: byte) {
    op == OP_INSERT || op == OP_UPDATE || op == OP_DELETE
  }

  // An update carries the old record and the new one.
  function FieldCount(op: byte, ncol: nat): nat {
    if op == OP_UPDATE then ncol + ncol else ncol
  }

  function Raw(it: Item): bytes {
    match it
    case Head(hdr) => hdr.raw
    case Change(op, indirect, fields) => [op, indirect] + Join(fields)
  }

  // The column count in force after `it`.
  function NextCols(it: Item, ncol: nat): nat {
    if it.Head? then it.hdr.ncol else ncol
  }

  ghost predicate IsItem(it: Item, ncol: nat) {
    match it
    case Head(hdr) => IsHeader(hdr)
    case Change(op, _, fields) => IsOp(op) && |fields| == FieldCount(op, ncol) && AreFields(fields)
  }

  function ReadItem(s: bytes, ncol: nat): Result<Item>
    requires s != []
  {
    if s[0] == HEADER_BYTE then
      match ReadHeader(s)
      case Corrupt => Corrupt
      case Ok(hdr) => Ok(Head(hdr))
    else if IsOp(s[0]) && |s| >= 2 then
      match SplitRecord(s[2..], FieldCount(s[0], ncol))
      case Corrupt => Corrupt
      case Ok(fields) => Ok(Change(s[0], s[1], fields))
    else Corrupt
  }

  lemma {:induction false} ChangeRead(s: bytes, n: nat)
    requires |s| >= 2 && SplitRecord(s[2..], n).Ok?
    ensures var fields := SplitRecord(s[2..], n).value;
            var raw := [s[0], s[1]] + Join(fields);
            |fields| == n && AreFields(fields) && |raw| <= |s| && s == raw + s[|raw|..]
  {
    SplitThenJoin(s[2..], n);
    JoinTail(s, 2, Join(SplitRecord(s[2..], n).value));
    assert s[..2] == [s[0], s[1]];
  }

  lemma {:induction false} ItemRead(s: bytes, ncol: nat)
    requires s != [] && ReadItem(s, ncol).Ok?
    ensures var it := ReadItem(s, ncol).value;
            IsItem(it, ncol) && 0 < |Raw(it)| <= |s| && s == Raw(it) + s[|Raw(it)|..]
  {
    if s[0] == HEADER_BYTE {
      HeaderRead(s);
      HeaderThen(ReadHeader(s).value, []);
    } else {
      ChangeRead(s, FieldCount(s[0], ncol));
    }
  }

  lemma {:induction false} ItemThen(it: Item, ncol: nat, t: bytes)
    requires IsItem(it, ncol)
    ensures Raw(it) != [] && ReadItem(Raw(it) + t, ncol) == Ok(it) && (Raw(it) + t)[|Raw(it)|..] == t
  {
    match it
    case Head(hdr) => HeaderThen(hdr, t);
    case Change(op, indirect, fields) =>
      var s := Raw(it) + t;
      assert s[2..] == Join(fields) + t;
      JoinThenSplit(fields, t);
  }

  /** The items of a changeset, starting with `ncol` columns. */
  function Items(s: bytes, ncol: nat): Result<seq<Item>>
    decreases |s|
  {
    if s == [] then Ok([])
    else
      match ReadItem(s, ncol)
      case Corrupt => Corrupt
      case Ok(it) =>
        ItemRead(s, ncol);
        match Items(s[|Raw(it)|..], NextCols(it, ncol))
        case Corrupt => Corrupt
        case Ok(rest) => Ok([it] + rest)
  }

  function Unparse(items: seq<Item>): bytes {
    if items == [] then [] else Raw(items[0]) + Unparse(items[1..])
  }

  lemma {:induction false} UnparseCons(x: Item, rest: seq<Item>)
    ensures Unparse([x] + rest) == Raw(x) + Unparse(rest)
  {
    assert ([x] + rest)[1..] == rest;
  }

  lemma {:induction false} ConsCat<T>(a: seq<T>, b: seq<T>)
    requires a != []
    ensures a == [a[0]] + a[1..] && a + b == [a[0]] + (a[1..] + b)
  {
  }

  lemma {:induction false} UnparseCat(a: seq<Item>, b: seq<Item>)
    ensures Unparse(a + b) == Unparse(a) + Unparse(b)
  {
    if a == [] {
      assert a + b == b;
      assert [] + Unparse(b) == Unparse(b);
    } else {
      UnparseCat(a[1..], b);
      ConsCat(a, b);
      UnparseCons(a[0], a[1..] + b);
      UnparseCons(a[0], a[1..]);
      Assoc(Raw(a[0]), Unparse(a[1..]), Unparse(b));
    }
  }

  ghost predicate AreItems(items: seq<Item>, ncol: nat)
    decreases items
  {
    items == [] || (IsItem(items[0], ncol) && AreItems(items[1..], NextCols(items[0], ncol)))
  }

  /** What was read is written back byte for byte. */
  lemma {:induction false} ParseThenUnparse(s: bytes, ncol: nat)
    requires Items(s, ncol).Ok?
    ensures Unparse(Items(s, ncol).value) == s && AreItems(Items(s, ncol).value, ncol)
    decreases |s|
  {
    if s != [] {
      ItemRead(s, ncol);
      var it := ReadItem(s, ncol).value;
      var n := |Raw(it)|;
      ParseThenUnparse(s[n..], NextCols(it, ncol));
      var rest := Items(s[n..], NextCols(it, ncol)).value;
      assert ([it] + rest)[1..] == rest;
    }
  }

  /** What is written is read back item for item. */
  lemma {:induction false} UnparseThenParse(items: seq<Item>, ncol: nat)
    requires AreItems(items, ncol)
    ensures Items(Unparse(items), ncol) == Ok(items)
    decreases items
  {
    if items != [] {
      var rest := Unparse(items[1..]);
      ItemThen(items[0], ncol, rest);
      UnparseThenParse(items[1..], NextCols(items[0], ncol));
      assert items == [items[0]] + items[1..];
    }
  }
}
