/** The append-only ingress recording and its reader. */
module Recorder {
  import opened Domain
  import opened Bytes
  import opened Wire

  const TS_BYTES := 8

  datatype Record = Record(frame: seq<Byte>, recvTs: I64)

  /** What the reader returns: the whole records and the count of trailing bytes. */
  datatype Recording = Recording(records: seq<Record>, trailing: nat)

  /** The only read failure: a declared frame length below one byte. */
  datatype ReadError = InvalidData

  /** The bytes `record` appends. */
  function RecordBytes(r: Record): seq<Byte> { r.frame + Le(ToU64(r.recvTs), TS_BYTES) }

  function AllBytes(rs: seq<Record>): seq<Byte> {
    if rs == [] then [] else RecordBytes(rs[0]) + AllBytes(rs[1..])
  }

  /** The frame's own prefix declares its length, and it has room for a kind byte. */
  predicate WellFramed(frame: seq<Byte>) {
    |frame| >= LEN_BYTES && Declared(frame) >= 1 && |frame| == LEN_BYTES + Declared(frame)
  }

  predicate Partial(bytes: seq<Byte>) {
    |bytes| < LEN_BYTES || (Declared(bytes) >= 1 && |bytes| < LEN_BYTES + Declared(bytes) + TS_BYTES)
  }

  function TsAt(bytes: seq<Byte>): I64
    requires |bytes| == TS_BYTES
  {
    FromLeRoundTrip(bytes);
    Widths();
    ToI64(FromLe(bytes))
  }

  /** Reference reader, record by record. */
  function ReadAll(bytes: seq<Byte>): Result<Recording, ReadError> {
    if Partial(bytes) then Ok(Recording([], |bytes|))
    else if Declared(bytes) < 1 then Err(InvalidData)
    else
      var split := LEN_BYTES + Declared(bytes);
      match ReadAll(bytes[split + TS_BYTES..])
      case Err(e) => Err(e)
      case Ok(rest) =>
        Ok(Recording([Record(bytes[..split], TsAt(bytes[split..split + TS_BYTES]))] + rest.records, rest.trailing))
  }

  /** The cursor loop over the whole file. */
  method ReadRecords(bytes: seq<Byte>) returns (r: Result<Recording, ReadError>)
    ensures r == ReadAll(bytes)
  {
    hide ReadAll;
    var records, cursor := [], 0;
    assert bytes[0..] == bytes;
    PrependNone(ReadAll(bytes));
    while cursor < |bytes|
      invariant 0 <= cursor <= |bytes|
      invariant ReadAll(bytes) == Prepend(records, ReadAll(bytes[cursor..]))
    {
      ReadAt(bytes, cursor);
      if |bytes| - cursor < 4 { break; }
      var frameLen := FromLe(bytes[cursor..cursor + 4]);
      if frameLen < 1 { return Err(InvalidData); }
      var total := 4 + frameLen + TS_BYTES;
      if |bytes| - cursor < total { break; }
      var frame := bytes[cursor..cursor + 4 + frameLen];
      var recvTs := TsAt(bytes[cursor + 4 + frameLen..cursor + total]);
      PrependTwice(records, [Record(frame, recvTs)], ReadAll(bytes[cursor + total..]));
      records := records + [Record(frame, recvTs)];
      cursor := cursor + total;
    }
    ReadAt(bytes, cursor);
    assert records + [] == records;
    return Ok(Recording(records, |bytes| - cursor));
  }

  /** What the reader finds from `cursor` on, in terms of the whole file. */
  lemma ReadAt(bytes: seq<Byte>, cursor: nat)
    requires cursor <= |bytes|
    ensures var size := |bytes| - cursor;
      var r := ReadAll(bytes[cursor..]);
      if size < LEN_BYTES then r == Ok(Recording([], size))
      else
        var split := LEN_BYTES + FromLe(bytes[cursor..cursor + LEN_BYTES]);
        if split == LEN_BYTES then r == Err(InvalidData)
        else if size < split + TS_BYTES then r == Ok(Recording([], size))
        else r == Prepend(
          [Record(bytes[cursor..cursor + split], TsAt(bytes[cursor + split..cursor + split + TS_BYTES]))],
          ReadAll(bytes[cursor + split + TS_BYTES..]))
  {
    var here := bytes[cursor..];
    if |here| >= LEN_BYTES {
      assert here[..LEN_BYTES] == bytes[cursor..cursor + LEN_BYTES];
      var split := LEN_BYTES + Declared(here);
      if |here| >= split + TS_BYTES {
        assert here[..split] == bytes[cursor..cursor + split];
        assert here == bytes[cursor..|bytes|];
        SubSlice(bytes, cursor, |bytes|, split, split + TS_BYTES);
        assert here[split + TS_BYTES..] == bytes[cursor + split + TS_BYTES..];
      }
    }
  }

  function Prepend(rs: seq<Record>, r: Result<Recording, ReadError>): Result<Recording, ReadError> {
    match r
    case Err(e) => Err(e)
    case Ok(rec) => Ok(Recording(rs + rec.records, rec.trailing))
  }

  lemma PrependNone(r: Result<Recording, ReadError>)
    ensures Prepend([], r) == r
  {
    if r.Ok? { assert [] + r.value.records == r.value.records; }
  }

  lemma PrependTwice(a: seq<Record>, b: seq<Record>, r: Result<Recording, ReadError>)
    ensures Prepend(a, Prepend(b, r)) == Prepend(a + b, r)
  {
    if r.Ok? { assert a + (b + r.value.records) == (a + b) + r.value.records; }
  }

  // -------------------------------------------------------------------------
  // Laws
  // -------------------------------------------------------------------------

  lemma RecordSize(r: Record)
    ensures |RecordBytes(r)| == |r.frame| + TS_BYTES
  {
    LeLength(ToU64(r.recvTs), TS_BYTES);
  }

  /** A whole record at the front reads back with its timestamp. */
  lemma ReadFront(r: Record, tail: seq<Byte>)
    requires WellFramed(r.frame)
    ensures ReadAll(RecordBytes(r) + tail) == Prepend([r], ReadAll(tail))
  {
    var bytes, split := RecordBytes(r) + tail, |r.frame|;
    RecordSize(r);
    Widths();
    LeRoundTrip(ToU64(r.recvTs), TS_BYTES);
    assert bytes[..LEN_BYTES] == r.frame[..LEN_BYTES];
    assert bytes[..split] == r.frame;
    assert bytes[split..split + TS_BYTES] == Le(ToU64(r.recvTs), TS_BYTES);
    assert bytes[split + TS_BYTES..] == tail;
  }

  /** A cut inside the front record leaves only trailing bytes. */
  lemma CutFront(r: Record, cut: nat)
    requires WellFramed(r.frame) && cut < |RecordBytes(r)|
    ensures ReadAll(RecordBytes(r)[..cut]) == Ok(Recording([], cut))
  {
    RecordSize(r);
    if cut >= LEN_BYTES { assert RecordBytes(r)[..cut][..LEN_BYTES] == r.frame[..LEN_BYTES]; }
  }

  lemma ReadNothing()
    ensures ReadAll([]) == Ok(Recording([], 0))
  {
  }

  lemma BytesCons(r: Record, rs: seq<Record>)
    ensures AllBytes([r] + rs) == RecordBytes(r) + AllBytes(rs)
  {
    assert ([r] + rs)[1..] == rs;
  }

  /** The reader accepts exactly the files that are whole records followed by a partial
      tail, and returns those records and the length of that tail. */
  lemma {:induction false} ReadWritten(rs: seq<Record>, tail: seq<Byte>)
    requires (forall r :: r in rs ==> WellFramed(r.frame)) && Partial(tail)
    ensures ReadAll(AllBytes(rs) + tail) == Ok(Recording(rs, |tail|))
  {
    hide ReadAll, RecordBytes, WellFramed, Partial;
    if rs == [] {
      assert AllBytes(rs) + tail == tail;
      ReadPartial(tail);
    } else {
      assert rs[0] in rs;
      ReadWritten(rs[1..], tail);
      ReadFront(rs[0], AllBytes(rs[1..]) + tail);
      assert AllBytes(rs) + tail == RecordBytes(rs[0]) + (AllBytes(rs[1..]) + tail);
      assert [rs[0]] + rs[1..] == rs;
    }
  }

  lemma ReadPartial(tail: seq<Byte>)
    requires Partial(tail)
    ensures ReadAll(tail) == Ok(Recording([], |tail|))
  {
  }

  lemma {:induction false} AcceptedIsWritten(bytes: seq<Byte>)
    requires ReadAll(bytes).Ok?
    ensures var rec := ReadAll(bytes).value;
      && rec.trailing <= |bytes|
      && (forall r :: r in rec.records ==> WellFramed(r.frame))
      && Partial(bytes[|bytes| - rec.trailing..])
      && bytes == AllBytes(rec.records) + bytes[|bytes| - rec.trailing..]
    decreases |bytes|
  {
    hide ReadAll, RecordBytes, Declared, FromLe;
    ReadFirst(bytes);
    if Partial(bytes) {
      assert bytes[0..] == bytes && [] + bytes == bytes;
    } else {
      var split := LEN_BYTES + Declared(bytes);
      var rest := bytes[split + TS_BYTES..];
      var r := Record(bytes[..split], TsAt(bytes[split..split + TS_BYTES]));
      AcceptedIsWritten(rest);
      var later := ReadAll(rest).value;
      var tail := rest[|rest| - later.trailing..];
      FrontIsRecord(bytes, split);
      BytesCons(r, later.records);
      CutTwice(bytes, split + TS_BYTES, later.trailing);
      Glue(RecordBytes(r), AllBytes(later.records), tail);
    }
  }

  lemma CutTwice(bytes: seq<Byte>, n: nat, k: nat)
    requires n + k <= |bytes|
    ensures bytes[n..][|bytes| - n - k..] == bytes[|bytes| - k..]
    ensures bytes == bytes[..n] + bytes[n..]
  {
  }

  lemma Glue(a: seq<Byte>, b: seq<Byte>, c: seq<Byte>)
    ensures a + (b + c) == (a + b) + c
  {
  }

  /** The reader's first record. */
  lemma ReadFirst(bytes: seq<Byte>)
    ensures if Partial(bytes) then ReadAll(bytes) == Ok(Recording([], |bytes|))
      else if Declared(bytes) < 1 then ReadAll(bytes).Err?
      else
        var split := LEN_BYTES + Declared(bytes);
        && WellFramed(bytes[..split])
        && ReadAll(bytes) == Prepend([Record(bytes[..split], TsAt(bytes[split..split + TS_BYTES]))],
            ReadAll(bytes[split + TS_BYTES..]))
  {
    if !Partial(bytes) {
      var split := LEN_BYTES + Declared(bytes);
      assert bytes[..split][..LEN_BYTES] == bytes[..LEN_BYTES];
    }
  }

  lemma FrontIsRecord(bytes: seq<Byte>, split: nat)
    requires split + TS_BYTES <= |bytes|
    ensures RecordBytes(Record(bytes[..split], TsAt(bytes[split..split + TS_BYTES]))) == bytes[..split + TS_BYTES]
  {
    var ts := bytes[split..split + TS_BYTES];
    FromLeRoundTrip(ts);
    Widths();
    assert ToU64(ToI64(FromLe(ts))) == FromLe(ts);
    assert bytes[..split] + ts == bytes[..split + TS_BYTES];
  }

  /** Number of records wholly inside the first `cut` bytes. */
  function Whole(rs: seq<Record>, cut: nat): (k: nat)
    ensures k <= |rs|
    ensures |AllBytes(rs[..k])| <= cut
    ensures k < |rs| ==> cut < |AllBytes(rs[..k + 1])|
  {
    if rs == [] then 0
    else if cut < |RecordBytes(rs[0])| then
      assert rs[..1][1..] == [];
      assert AllBytes(rs[..1]) == RecordBytes(rs[0]) + AllBytes([]);
      0
    else
      var k := Whole(rs[1..], cut - |RecordBytes(rs[0])|);
      assert rs[..k + 1][1..] == rs[1..][..k];
      assert k + 1 < |rs| ==> rs[..k + 2][1..] == rs[1..][..k + 1];
      k + 1
  }

  /** A recording cut at any byte reads as exactly the records wholly before the cut,
      timestamps intact, with the exact trailing count, and never fails. */
  lemma {:induction false} CutAnywhere(rs: seq<Record>, cut: nat)
    requires forall r :: r in rs ==> WellFramed(r.frame)
    requires cut <= |AllBytes(rs)|
    ensures var k := Whole(rs, cut);
      ReadAll(AllBytes(rs)[..cut]) == Ok(Recording(rs[..k], cut - |AllBytes(rs[..k])|))
  {
    hide ReadAll, RecordBytes, WellFramed;
    if rs == [] {
      ReadNothing();
    } else {
      assert rs[0] in rs;
      var head, tail := RecordBytes(rs[0]), AllBytes(rs[1..]);
      if cut < |head| {
        assert (head + tail)[..cut] == head[..cut];
        CutFront(rs[0], cut);
      } else {
        var k, rest := Whole(rs[1..], cut - |head|), cut - |head|;
        CutAnywhere(rs[1..], rest);
        ReadFront(rs[0], tail[..rest]);
        assert (head + tail)[..cut] == head + tail[..rest];
        assert rs[..k + 1] == [rs[0]] + rs[1..][..k];
        BytesCons(rs[0], rs[1..][..k]);
      }
    }
  }
}
