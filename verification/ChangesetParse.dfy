/** Reading a changeset or patchset into tables of change records. */
module ChangesetParse {
  import opened Seqs
  import opened Bytes
  import opened Changeset
  import opened Invert
  import opened SessionValues
  import opened Recorder
  import SessionOut
  import Varint

  /** One change; a field that is not given is `None`. */
  datatype ChangeRecord = ChangeRecord(op: ChangeOp, was: seq<Option<Value>>, now: seq<Option<Value>>)

  datatype TableChangeset = TableChangeset(name: bytes, pk: bytes, changes: seq<ChangeRecord>)

  datatype Fields = Fields(values: seq<Option<Value>>, length: nat)

  // ----- Records

  type Reader = bytes -> Result<ReadResult>

  // `n` values, one after the other.
  function ReadMany(read: Reader, s: bytes, n: nat): (r: Result<Fields>)
    ensures r.Ok? ==> r.value.length <= |s| && |r.value.values| == n
    decreases n
  {
    if n == 0 then Ok(Fields([], 0))
    else
      match read(s)
      case Corrupt => Corrupt
      case Ok(v) =>
        if v.length > |s| then Corrupt
        else
          match ReadMany(read, s[v.length..], n - 1)
          case Corrupt => Corrupt
          case Ok(rest) => Ok(Fields([v.value] + rest.values, v.length + rest.length))
  }

  /** The `n` values at the front of `s`. */
  function ReadRecord(s: bytes, n: nat): (r: Result<Fields>)
    ensures r.Ok? ==> r.value.length <= |s| && |r.value.values| == n
  {
    ReadMany(ReadValue, s, n)
  }

  /** The values of the key columns alone, the other columns not given. */
  function ReadPkOnly(s: bytes, flags: bytes): (r: Result<Fields>)
    ensures r.Ok? ==> r.value.length <= |s| && |r.value.values| == |flags|
    decreases flags
  {
    if flags == [] then Ok(Fields([], 0))
    else if flags[0] == 0 then
      match ReadPkOnly(s, flags[1..])
      case Corrupt => Corrupt
      case Ok(rest) => Ok(Fields([None] + rest.values, rest.length))
    else
      match ReadValue(s)
      case Corrupt => Corrupt
      case Ok(v) =>
        match ReadPkOnly(s[v.length..], flags[1..])
        case Corrupt => Corrupt
        case Ok(rest) => Ok(Fields([v.value] + rest.values, v.length + rest.length))
  }

  // The old values of a patchset update: those of the key.
  function KeyPart(values: seq<Option<Value>>, flags: bytes): (r: seq<Option<Value>>)
    ensures |r| == |values|
  {
    seq(|values|, i requires 0 <= i < |values| => if IsKey(flags, i) then values[i] else None)
  }

  datatype Parsed = Parsed(rec: ChangeRecord, length: nat)

  // The change at the front of `s`, under a table with these key flags.
  function ReadChange(s: bytes, flags: bytes, patchset: bool): (r: Result<Parsed>)
    requires s != [] && IsOp(s[0])
    ensures r.Ok? ==> 0 < r.value.length <= |s|
  {
    if |s| < 2 then Corrupt
    else if s[0] == OP_INSERT then
      match ReadRecord(s[2..], |flags|)
      case Corrupt => Corrupt
      case Ok(f) => Ok(Parsed(ChangeRecord(Insert, [], f.values), 2 + f.length))
    else if s[0] == OP_DELETE then
      match (if patchset then ReadPkOnly(s[2..], flags) else ReadRecord(s[2..], |flags|))
      case Corrupt => Corrupt
      case Ok(f) => Ok(Parsed(ChangeRecord(Delete, f.values, []), 2 + f.length))
    else if patchset then
      match ReadRecord(s[2..], |flags|)
      case Corrupt => Corrupt
      case Ok(f) => Ok(Parsed(ChangeRecord(Update, KeyPart(f.values, flags), f.values), 2 + f.length))
    else
      match ReadRecord(s[2..], |flags|)
      case Corrupt => Corrupt
      case Ok(o) =>
        match ReadRecord(s[2 + o.length..], |flags|)
        case Corrupt => Corrupt
        case Ok(n) => Ok(Parsed(ChangeRecord(Update, o.values, n.values), 2 + o.length + n.length))
  }

  // The header of a table, whose name must be text.
  function ReadTable(s: bytes): (r: Result<Header>)
    requires s != []
    ensures r.Ok? ==> 0 < |r.value.raw| <= |s| && |r.value.pk| == r.value.ncol
  {
    match ReadHeader(s)
    case Corrupt => Corrupt
    case Ok(h) => if ValidUtf8(h.name) then Ok(h) else Corrupt
  }

  // One change more for the last table.
  function AddChange(tables: seq<TableChangeset>, rec: ChangeRecord): seq<TableChangeset>
    requires tables != []
  {
    var last := tables[|tables| - 1];
    tables[..|tables| - 1] + [last.(changes := last.changes + [rec])]
  }

  /** What reading the rest `s` makes of the tables so far. */
  function ParseFrom(s: bytes, tables: seq<TableChangeset>, patchset: bool): Result<seq<TableChangeset>>
    decreases |s|
  {
    if s == [] then Ok(tables)
    else if s[0] == HEADER_BYTE || s[0] == SessionOut.PATCHSET_BYTE then
      match ReadTable(s)
      case Corrupt => Corrupt
      case Ok(h) =>
        ParseFrom(s[|h.raw|..], tables + [TableChangeset(h.name, h.pk, [])], s[0] == SessionOut.PATCHSET_BYTE)
    else if IsOp(s[0]) && tables != [] then
      match ReadChange(s, tables[|tables| - 1].pk, patchset)
      case Corrupt => Corrupt
      case Ok(p) => ParseFrom(s[p.length..], AddChange(tables, p.rec), patchset)
    else Corrupt
  }

  /** Parse a changeset or patchset. */
  method ParseChangeset(data: bytes) returns (r: Result<seq<TableChangeset>>)
    ensures r == ParseFrom(data, [], false)
  {
    var s, tables: seq<TableChangeset>, patchset := data, [], false;
    while s != []
      invariant ParseFrom(data, [], false) == ParseFrom(s, tables, patchset)
      decreases |s|
    {
      if s[0] == HEADER_BYTE || s[0] == SessionOut.PATCHSET_BYTE {
        var h := ReadTable(s);
        if h.Corrupt? {
          return Corrupt;
        }
        patchset := s[0] == SessionOut.PATCHSET_BYTE;
        tables := tables + [TableChangeset(h.value.name, h.value.pk, [])];
        s := s[|h.value.raw|..];
      } else if IsOp(s[0]) {
        if tables == [] {
          return Corrupt;
        }
        var p := ReadChange(s, tables[|tables| - 1].pk, patchset);
        if p.Corrupt? {
          return Corrupt;
        }
        tables := AddChange(tables, p.value.rec);
        s := s[p.value.length..];
      } else {
        return Corrupt;
      }
    }
    return Ok(tables);
  }

  // ----- Records read back

  function EncField(v: Option<Value>): bytes
    requires v.Some? ==> ValueOk(v.value)
  {
    match v
    case None => OMIT
    case Some(x) => Encode(x)
  }

  predicate AllOk(vs: seq<Option<Value>>) {
    forall i :: 0 <= i < |vs| && vs[i].Some? ==> ValueOk(vs[i].value)
  }

  function EncFields(vs: seq<Option<Value>>): (r: seq<bytes>)
    requires AllOk(vs)
    ensures |r| == |vs|
  {
    seq(|vs|, i requires 0 <= i < |vs| => EncField(vs[i]))
  }

  lemma {:induction false} FieldReadsBack(v: Option<Value>, rest: bytes)
    requires v.Some? ==> ValueOk(v.value)
    ensures ReadValue(EncField(v) + rest) == Ok(ReadResult(v, |EncField(v)|))
    ensures (EncField(v) + rest)[|EncField(v)|..] == rest
  {
    if v.Some? {
      ValueReadsBack(v.value, rest);
    }
  }

  // The field is read as this value, whatever follows.
  ghost predicate ReadsField(read: Reader, f: bytes, v: Option<Value>) {
    forall t: bytes :: read(f + t) == Ok(ReadResult(v, |f|))
  }

  lemma {:induction false} ManyReadBack(read: Reader, fs: seq<bytes>, vs: seq<Option<Value>>, rest: bytes)
    requires |fs| == |vs| && forall i :: 0 <= i < |fs| ==> ReadsField(read, fs[i], vs[i])
    ensures ReadMany(read, Join(fs) + rest, |fs|) == Ok(Fields(vs, |Join(fs)|))
    decreases fs
  {
    if fs == [] {
      assert Join(fs) + rest == rest;
    } else {
      assert forall i :: 0 <= i < |fs| - 1 ==> fs[1..][i] == fs[i + 1] && vs[1..][i] == vs[i + 1];
      ManyReadBack(read, fs[1..], vs[1..], rest);
      OneMoreRead(read, fs[0], vs[0], Join(fs[1..]), vs[1..], rest);
      assert [vs[0]] + vs[1..] == vs;
    }
  }

  lemma {:induction false} OneMoreRead(read: Reader, f: bytes, v: Option<Value>, more: bytes, vs: seq<Option<Value>>,
                                       rest: bytes)
    requires ReadsField(read, f, v) && ReadMany(read, more + rest, |vs|) == Ok(Fields(vs, |more|))
    ensures ReadMany(read, (f + more) + rest, |vs| + 1) == Ok(Fields([v] + vs, |f + more|))
  {
    Assoc(f, more, rest);
    TailOf(f, more + rest);
  }

  lemma {:induction false} RecordReadsBack(vs: seq<Option<Value>>, rest: bytes)
    requires AllOk(vs)
    ensures ReadRecord(Join(EncFields(vs)) + rest, |vs|) == Ok(Fields(vs, |Join(EncFields(vs))|))
  {
    var fs := EncFields(vs);
    forall i | 0 <= i < |fs|
      ensures ReadsField(ReadValue, fs[i], vs[i])
    {
      forall t: bytes
        ensures ReadValue(fs[i] + t) == Ok(ReadResult(vs[i], |fs[i]|))
      {
        FieldReadsBack(vs[i], t);
      }
    }
    ManyReadBack(ReadValue, fs, vs, rest);
  }

  /** What a key-only record is read back as. */
  function KeyOnly(row: seq<Value>, flags: bytes): (r: seq<Option<Value>>)
    ensures |r| == |row|
  {
    seq(|row|, i requires 0 <= i < |row| => if IsKey(flags, i) then Some(row[i]) else None)
  }

  lemma {:induction false} KeyOnlyReadsBack(row: seq<Value>, flags: bytes, rest: bytes)
    requires SessionOut.ValuesOk(row) && |row| == |flags|
    ensures var b := Join(SessionOut.DeleteFields(row, flags, true));
            ReadPkOnly(b + rest, flags) == Ok(Fields(KeyOnly(row, flags), |b|))
    decreases row
  {
    var fs := SessionOut.DeleteFields(row, flags, true);
    if row == [] {
      assert Join(fs) + rest == rest;
    } else {
      var more := SessionOut.DeleteFields(row[1..], flags[1..], true);
      KeyOnlyReadsBack(row[1..], flags[1..], rest);
      KeyOnlyCons(row, flags);
      if flags[0] == 0 {
        assert fs == [] + more == more;
      } else {
        assert fs[1..] == more;
        ValueReadsBack(row[0], Join(more) + rest);
        Assoc(Encode(row[0]), Join(more), rest);
        assert (Encode(row[0]) + (Join(more) + rest))[|Encode(row[0])|..] == Join(more) + rest;
      }
    }
  }

  lemma {:induction false} KeyOnlyCons(row: seq<Value>, flags: bytes)
    requires |row| == |flags| > 0
    ensures KeyOnly(row, flags) == [if flags[0] == 0 then None else Some(row[0])] + KeyOnly(row[1..], flags[1..])
  {
    forall i | 0 <= i < |row| - 1
      ensures KeyOnly(row, flags)[i + 1] == KeyOnly(row[1..], flags[1..])[i]
    {
      assert IsKey(flags, i + 1) == IsKey(flags[1..], i);
    }
  }

  // ----- Changes read back

  /** The fields of a change, as given values. */
  predicate Spells(fields: seq<bytes>, vs: seq<Option<Value>>) {
    AllOk(vs) && fields == EncFields(vs)
  }

  // The record of one kind of change, and what it is read as.
  ghost predicate SpellsChange(it: Item, flags: bytes, patchset: bool, rec: ChangeRecord) {
    && it.Change?
    && if it.op == OP_INSERT then rec.op.Insert? && rec.was == [] && |rec.now| == |flags| && Spells(it.fields, rec.now)
       else if it.op == OP_DELETE then
         && rec.op.Delete? && rec.now == [] && |rec.was| == |flags|
         && if patchset then SpellsKey(it.fields, flags, rec.was) else Spells(it.fields, rec.was)
       else if it.op == OP_UPDATE then
         && rec.op.Update? && |rec.was| == |rec.now| == |flags|
         && if patchset then Spells(it.fields, rec.now) && rec.was == KeyPart(rec.now, flags)
            else AllOk(rec.was) && AllOk(rec.now) && it.fields == EncFields(rec.was) + EncFields(rec.now)
       else false
  }

  ghost predicate SpellsKey(fields: seq<bytes>, flags: bytes, vs: seq<Option<Value>>)
    requires |vs| == |flags|
  {
    exists row: seq<Value> {:trigger KeyOnly(row, flags)} ::
      |row| == |flags| && SessionOut.ValuesOk(row) && vs == KeyOnly(row, flags)
      && fields == SessionOut.DeleteFields(row, flags, true)
  }

  lemma {:induction false} RestOfChange(it: Item, rest: bytes)
    requires it.Change?
    ensures var s := Raw(it) + rest;
            && |s| >= 2 && s[0] == it.op
            && s[1] == it.indirect
            && s[2..] == Join(it.fields) + rest
            && s[|Raw(it)|..] == rest
  {
  }

  /** A written change is read back as its record. */
  lemma {:induction false} ChangeReadsBack(it: Item, flags: bytes, patchset: bool, rec: ChangeRecord, rest: bytes)
    requires SpellsChange(it, flags, patchset, rec)
    ensures var s := Raw(it) + rest;
            && s != [] && IsOp(s[0]) && ReadChange(s, flags, patchset) == Ok(Parsed(rec, |Raw(it)|))
            && s[|Raw(it)|..] == rest
  {
    RestOfChange(it, rest);
    if it.op == OP_INSERT {
      RecordReadsBack(rec.now, rest);
    } else if it.op == OP_DELETE {
      if patchset {
        var row :| |row| == |flags| && SessionOut.ValuesOk(row) && rec.was == KeyOnly(row, flags)
                   && it.fields == SessionOut.DeleteFields(row, flags, true);
        KeyOnlyReadsBack(row, flags, rest);
      } else {
        RecordReadsBack(rec.was, rest);
      }
    } else if patchset {
      RecordReadsBack(rec.now, rest);
    } else {
      UpdateReadsBack(it, flags, rec, rest);
    }
  }

  lemma {:induction false} UpdateReadsBack(it: Item, flags: bytes, rec: ChangeRecord, rest: bytes)
    requires it.Change? && it.op == OP_UPDATE && SpellsChange(it, flags, false, rec)
    ensures ReadChange(Raw(it) + rest, flags, false) == Ok(Parsed(rec, |Raw(it)|))
  {
    RestOfChange(it, rest);
    var o, n := Join(EncFields(rec.was)), Join(EncFields(rec.now));
    JoinCat(EncFields(rec.was), EncFields(rec.now));
    Assoc(o, n, rest);
    RecordReads(rec.was);
    RecordReads(rec.now);
    TwoRecords(Raw(it) + rest, flags, o, n, rec.was, rec.now, rest);
  }

  // Whatever follows, these bytes are read as these values.
  ghost predicate ReadsAs(b: bytes, vs: seq<Option<Value>>) {
    forall rest: bytes :: ReadRecord(b + rest, |vs|) == Ok(Fields(vs, |b|))
  }

  lemma {:induction false} RecordReads(vs: seq<Option<Value>>)
    requires AllOk(vs)
    ensures ReadsAs(Join(EncFields(vs)), vs)
  {
    forall rest: bytes
      ensures ReadRecord(Join(EncFields(vs)) + rest, |vs|) == Ok(Fields(vs, |Join(EncFields(vs))|))
    {
      RecordReadsBack(vs, rest);
    }
  }

  lemma {:induction false} TwoRecords(s: bytes, flags: bytes, o: bytes, n: bytes, was: seq<Option<Value>>,
                                      now: seq<Option<Value>>, rest: bytes)
    requires ReadsAs(o, was) && ReadsAs(n, now) && |was| == |now| == |flags|
    requires |s| >= 2 && s[0] == OP_UPDATE && s[2..] == o + (n + rest)
    ensures ReadChange(s, flags, false) == Ok(Parsed(ChangeRecord(Update, was, now), 2 + |o| + |n|))
  {
    TailOf(o, n + rest);
    ReadUpdateIs(s, flags, Fields(was, |o|), Fields(now, |n|), n + rest);
  }

  lemma {:induction false} ReadUpdateIs(s: bytes, flags: bytes, o: Fields, n: Fields, rest: bytes)
    requires |s| >= 2 && s[0] == OP_UPDATE && ReadRecord(s[2..], |flags|) == Ok(o)
    requires o.length <= |s[2..]| && s[2..][o.length..] == rest && ReadRecord(rest, |flags|) == Ok(n)
    ensures ReadChange(s, flags, false)
         == Ok(Parsed(ChangeRecord(Update, o.values, n.values), 2 + o.length + n.length))
  {
    assert s[2 + o.length..] == s[2..][o.length..];
  }

  // ----- Tables read back

  ghost predicate AllSpell(items: seq<Item>, flags: bytes, patchset: bool, recs: seq<ChangeRecord>) {
    |items| == |recs| && forall i :: 0 <= i < |items| ==> SpellsChange(items[i], flags, patchset, recs[i])
  }

  lemma {:induction false} AddChangeTo(front: seq<TableChangeset>, t: TableChangeset, rec: ChangeRecord)
    ensures AddChange(front + [t], rec) == front + [t.(changes := t.changes + [rec])]
  {
    assert (front + [t])[..|front|] == front;
  }

  lemma {:induction false} OneChangeParses(it: Item, rec: ChangeRecord, front: seq<TableChangeset>, t: TableChangeset,
                                           patchset: bool, rest: bytes)
    requires SpellsChange(it, t.pk, patchset, rec)
    ensures ParseFrom(Raw(it) + rest, front + [t], patchset)
         == ParseFrom(rest, front + [t.(changes := t.changes + [rec])], patchset)
  {
    ChangeReadsBack(it, t.pk, patchset, rec, rest);
    AddChangeTo(front, t, rec);
    ParseChangeStep(Raw(it) + rest, front + [t], patchset);
  }

  // Reads the rest, given the changes of the last table so far.
  type Parser = (bytes, seq<ChangeRecord>) -> Result<seq<TableChangeset>>

  ghost predicate Absorbs(parse: Parser, it: Item, rec: ChangeRecord) {
    forall r: bytes, cs: seq<ChangeRecord> :: parse(Raw(it) + r, cs) == parse(r, cs + [rec])
  }

  // If every single change is taken over into the last table, a list of them is.
  lemma {:induction false} FoldChanges(parse: Parser, items: seq<Item>, recs: seq<ChangeRecord>,
                                       cs: seq<ChangeRecord>, rest: bytes)
    requires |items| == |recs| && forall i :: 0 <= i < |items| ==> Absorbs(parse, items[i], recs[i])
    ensures parse(Unparse(items) + rest, cs) == parse(rest, cs + recs)
    decreases items
  {
    if items == [] {
      assert Unparse(items) + rest == rest && cs + recs == cs;
    } else {
      assert Absorbs(parse, items[0], recs[0]);
      FoldChanges(parse, items[1..], recs[1..], cs + [recs[0]], rest);
      FoldOne(parse, items[0], recs[0], Unparse(items[1..]), recs[1..], cs, rest);
      assert recs == [recs[0]] + recs[1..];
    }
  }

  lemma {:induction false} FoldOne(parse: Parser, it: Item, rec: ChangeRecord, more: bytes, recs: seq<ChangeRecord>,
                                   cs: seq<ChangeRecord>, rest: bytes)
    requires Absorbs(parse, it, rec) && parse(more + rest, cs + [rec]) == parse(rest, (cs + [rec]) + recs)
    ensures parse((Raw(it) + more) + rest, cs) == parse(rest, cs + ([rec] + recs))
  {
    Assoc(Raw(it), more, rest);
    Assoc(cs, [rec], recs);
  }

  lemma {:induction false} ChangesParse(items: seq<Item>, recs: seq<ChangeRecord>, front: seq<TableChangeset>,
                                        name: bytes, flags: bytes, patchset: bool, rest: bytes)
    requires AllSpell(items, flags, patchset, recs)
    ensures ParseFrom(Unparse(items) + rest, front + [TableChangeset(name, flags, [])], patchset)
         == ParseFrom(rest, front + [TableChangeset(name, flags, recs)], patchset)
  {
    var parse := (s, cs) => ParseFrom(s, front + [TableChangeset(name, flags, cs)], patchset);
    forall i | 0 <= i < |items|
      ensures Absorbs(parse, items[i], recs[i])
    {
      forall r: bytes, cs: seq<ChangeRecord>
        ensures parse(Raw(items[i]) + r, cs) == parse(r, cs + [recs[i]])
      {
        OneChangeParses(items[i], recs[i], front, TableChangeset(name, flags, cs), patchset, r);
      }
    }
    FoldChanges(parse, items, recs, [], rest);
    assert [] + recs == recs;
  }

  lemma {:induction false} ParseChangeStep(s: bytes, tables: seq<TableChangeset>, patchset: bool)
    requires s != [] && IsOp(s[0]) && tables != [] && ReadChange(s, tables[|tables| - 1].pk, patchset).Ok?
    ensures var p := ReadChange(s, tables[|tables| - 1].pk, patchset).value;
            ParseFrom(s, tables, patchset) == ParseFrom(s[p.length..], AddChange(tables, p.rec), patchset)
  {
  }

  /** Headers of both kinds are read back. */
  lemma {:induction false} TableHeaderReads(name: bytes, flags: bytes, patchset: bool, rest: bytes)
    requires 0 < |flags| < Varint.TWO_56 && 0 !in name && ValidUtf8(name)
    ensures var h := SessionOut.HeaderFor(name, flags, patchset);
            var s := h.raw + rest;
            && s != [] && s[0] == (if patchset then SessionOut.PATCHSET_BYTE else HEADER_BYTE)
            && ReadTable(s) == Ok(h) && s[|h.raw|..] == rest
  {
    var h := SessionOut.HeaderFor(name, flags, patchset);
    var lead := [if patchset then SessionOut.PATCHSET_BYTE else HEADER_BYTE] + LengthBytes(|flags|);
    LengthReadsBack(|flags|, []);
    assert lead[1..] == LengthBytes(|flags|) + [];
    assert HeaderAfter(h, lead);
    HeaderAfterThen(h, lead, rest);
  }

  lemma {:induction false} TableParses(name: bytes, flags: bytes, patchset: bool, items: seq<Item>,
                                       recs: seq<ChangeRecord>, tables: seq<TableChangeset>, before: bool,
                                       rest: bytes)
    requires 0 < |flags| < Varint.TWO_56 && 0 !in name && ValidUtf8(name) && AllSpell(items, flags, patchset, recs)
    ensures var h := SessionOut.HeaderFor(name, flags, patchset);
            ParseFrom(h.raw + (Unparse(items) + rest), tables, before)
            == ParseFrom(rest, tables + [TableChangeset(name, flags, recs)], patchset)
  {
    var h := SessionOut.HeaderFor(name, flags, patchset);
    TableHeaderReads(name, flags, patchset, Unparse(items) + rest);
    ParseHeaderStep(h.raw + (Unparse(items) + rest), tables, before);
    ChangesParse(items, recs, tables, name, flags, patchset, rest);
  }

  lemma {:induction false} ParseHeaderStep(s: bytes, tables: seq<TableChangeset>, patchset: bool)
    requires s != [] && (s[0] == HEADER_BYTE || s[0] == SessionOut.PATCHSET_BYTE) && ReadTable(s).Ok?
    ensures var h := ReadTable(s).value;
            ParseFrom(s, tables, patchset)
            == ParseFrom(s[|h.raw|..], tables + [TableChangeset(h.name, h.pk, [])], s[0] == SessionOut.PATCHSET_BYTE)
  {
  }
}
