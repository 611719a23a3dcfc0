/** The variable-length snapshot payload: 40 header bytes, then 16 bytes per level. */
module SnapshotCodec {
  import opened Domain
  import opened Bytes
  import opened Wire

  datatype SnapshotLevel = SnapshotLevel(price: Price, qty: Qty)

  datatype SnapshotResponse = SnapshotResponse(
    engineSeq: U64, requestId: U64, recvTs: I64, emitTs: I64,
    bids: seq<SnapshotLevel>, asks: seq<SnapshotLevel>)

  const HEADER_BYTES := 40
  const LEVEL_BYTES := 16

  /** engine_seq, request_id, recv_ts, emit_ts, n_bid_levels, n_ask_levels. */
  const HEADER: seq<nat> := [8, 8, 8, 8, 4, 4]

  /** The level counts fit their 32-bit fields. */
  predicate Countable(m: SnapshotResponse) { |m.bids| <= U32_MAX && |m.asks| <= U32_MAX }

  function EncodedLen(m: SnapshotResponse): nat {
    HEADER_BYTES + LEVEL_BYTES * (|m.bids| + |m.asks|)
  }

  function LevelBytes(l: SnapshotLevel): seq<Byte> { Le(l.price, 8) + Le(l.qty, 8) }

  function LevelsBytes(ls: seq<SnapshotLevel>): seq<Byte> {
    if ls == [] then [] else LevelBytes(ls[0]) + LevelsBytes(ls[1..])
  }

  function HeaderFields(m: SnapshotResponse): seq<nat> {
    [m.engineSeq, m.requestId, ToU64(m.recvTs), ToU64(m.emitTs), |m.bids|, |m.asks|]
  }

  /** The payload as a value. */
  function Payload(m: SnapshotResponse): seq<Byte> {
    Pack(HeaderFields(m), HEADER) + LevelsBytes(m.bids) + LevelsBytes(m.asks)
  }

  lemma {:induction false} LevelsSnoc(ls: seq<SnapshotLevel>, l: SnapshotLevel)
    ensures LevelsBytes(ls + [l]) == LevelsBytes(ls) + LevelBytes(l)
  {
    if ls == [] {
      assert ([l])[1..] == [];
    } else {
      assert (ls + [l])[1..] == ls[1..] + [l];
      LevelsSnoc(ls[1..], l);
    }
  }

  lemma LevelsCons(l: SnapshotLevel, ls: seq<SnapshotLevel>)
    ensures LevelsBytes([l] + ls) == LevelBytes(l) + LevelsBytes(ls)
  {
    assert ([l] + ls)[1..] == ls;
  }

  lemma {:induction false} LevelsSize(ls: seq<SnapshotLevel>)
    ensures |LevelsBytes(ls)| == LEVEL_BYTES * |ls|
  {
    if ls != [] {
      LeLength(ls[0].price, 8);
      LeLength(ls[0].qty, 8);
      LevelsSize(ls[1..]);
    }
  }

  lemma HeaderSize()
    ensures Size(HEADER) == HEADER_BYTES
  {
    assert HEADER[1..] == [8, 8, 8, 4, 4];
    assert Size([8, 8, 4, 4]) == 24;
  }

  /** Append the levels one by one. */
  method AppendLevels(ls: seq<SnapshotLevel>, out: seq<Byte>) returns (r: seq<Byte>)
    ensures r == out + LevelsBytes(ls)
  {
    r := out;
    for i := 0 to |ls|
      invariant r == out + LevelsBytes(ls[..i])
    {
      r := r + Le(ls[i].price, 8) + Le(ls[i].qty, 8);
      LevelsSnoc(ls[..i], ls[i]);
      assert ls[..i + 1] == ls[..i] + [ls[i]];
      assert out + (LevelsBytes(ls[..i]) + LevelBytes(ls[i])) == (out + LevelsBytes(ls[..i])) + LevelBytes(ls[i]);
    }
    assert ls[..|ls|] == ls;
  }

  /** Append the payload; the length is the one announced beforehand. */
  method Encode(m: SnapshotResponse, out: seq<Byte>) returns (r: seq<Byte>)
    requires Countable(m)
    ensures r == out + Payload(m)
    ensures |r| == |out| + EncodedLen(m)
  {
    r := out + Pack(HeaderFields(m), HEADER);
    r := AppendLevels(m.bids, r);
    r := AppendLevels(m.asks, r);
    PackSize(HeaderFields(m), HEADER);
    HeaderSize();
    LevelsSize(m.bids);
    LevelsSize(m.asks);
  }

  // -------------------------------------------------------------------------
  // Decoding
  // -------------------------------------------------------------------------

  /** Domain validation of one raw level. */
  function LevelFrom(price: nat, qty: nat): Option<SnapshotLevel> {
    if 0 < price <= I64_MAX && QtyOf(qty).Some? then Some(SnapshotLevel(price, qty)) else None
  }

  function LevelsFrom(b: seq<Byte>): Option<seq<SnapshotLevel>> {
    if |b| < LEVEL_BYTES then Some([])
    else
      match LevelFrom(FromLe(b[..8]), FromLe(b[8..LEVEL_BYTES]))
      case None => None
      case Some(l) =>
        match LevelsFrom(b[LEVEL_BYTES..])
        case None => None
        case Some(ls) => Some([l] + ls)
  }

  function FromHeader(v: seq<nat>, bids: seq<SnapshotLevel>, asks: seq<SnapshotLevel>): SnapshotResponse
    requires Fits(v, HEADER)
  {
    Widths();
    SnapshotResponse(v[0], v[1], ToI64(v[2]), ToI64(v[3]), bids, asks)
  }

  function HeaderOf(p: seq<Byte>): (v: seq<nat>)
    requires |p| >= HEADER_BYTES
    ensures Fits(v, HEADER) && Pack(v, HEADER) == p[..HEADER_BYTES]
  {
    HeaderSize();
    PackUnpack(p[..HEADER_BYTES], HEADER);
    Unpack(p[..HEADER_BYTES], HEADER)
  }

  function Parsed(p: seq<Byte>): Result<SnapshotResponse, WireError> {
    if |p| < HEADER_BYTES then Err(PayloadSize(HEADER_BYTES, |p|))
    else
      var v := HeaderOf(p);
      var expected := HEADER_BYTES + LEVEL_BYTES * (v[4] + v[5]);
      if |p| != expected then Err(PayloadSize(expected, |p|))
      else
        var split := HEADER_BYTES + LEVEL_BYTES * v[4];
        match (LevelsFrom(p[HEADER_BYTES..split]), LevelsFrom(p[split..expected]))
        case (Some(bids), Some(asks)) => Ok(FromHeader(v, bids, asks))
        case _ => Err(DomainViolation)
  }

  /** The cursor loop over `n` levels. */
  method ParseLevels(p: seq<Byte>, start: nat, n: nat) returns (r: Option<seq<SnapshotLevel>>)
    requires start + LEVEL_BYTES * n <= |p|
    ensures r == LevelsFrom(p[start..start + LEVEL_BYTES * n])
  {
    hide LevelsFrom, LevelFrom;
    var levels, cursor := [], start;
    ghost var end := start + LEVEL_BYTES * n;
    PrependNothing(LevelsFrom(p[start..end]));
    for i := 0 to n
      invariant cursor == start + LEVEL_BYTES * i
      invariant LevelsFrom(p[start..end]) == Prepended(levels, LevelsFrom(p[cursor..end]))
    {
      LevelsStep(p, cursor, end);
      var l := LevelFrom(FromLe(p[cursor..cursor + 8]), FromLe(p[cursor + 8..cursor + 16]));
      if l.None? { return None; }
      PrependedTwice(levels, [l.value], LevelsFrom(p[cursor + 16..end]));
      levels := levels + [l.value];
      cursor := cursor + LEVEL_BYTES;
    }
    LevelsDone(p, end);
    assert levels + [] == levels;
    return Some(levels);
  }

  lemma LevelsStep(p: seq<Byte>, cursor: nat, end: nat)
    requires cursor + LEVEL_BYTES <= end <= |p|
    ensures LevelsFrom(p[cursor..end]) ==
      match LevelFrom(FromLe(p[cursor..cursor + 8]), FromLe(p[cursor + 8..cursor + 16]))
      case None => None
      case Some(l) => Prepended([l], LevelsFrom(p[cursor + 16..end]))
  {
    var here := p[cursor..end];
    SubSlice(p, cursor, end, 0, 8);
    SubSlice(p, cursor, end, 8, LEVEL_BYTES);
    SubSlice(p, cursor, end, LEVEL_BYTES, end - cursor);
    assert here[0..8] == here[..8] && here[LEVEL_BYTES..end - cursor] == here[LEVEL_BYTES..];
  }

  lemma LevelsDone(p: seq<Byte>, end: nat)
    requires end <= |p|
    ensures LevelsFrom(p[end..end]) == Some([])
  {
  }

  function Prepended(a: seq<SnapshotLevel>, b: Option<seq<SnapshotLevel>>): Option<seq<SnapshotLevel>> {
    match b
    case None => None
    case Some(ls) => Some(a + ls)
  }

  lemma PrependNothing(b: Option<seq<SnapshotLevel>>)
    ensures Prepended([], b) == b
  {
    if b.Some? { assert [] + b.value == b.value; }
  }

  lemma PrependedTwice(a: seq<SnapshotLevel>, b: seq<SnapshotLevel>, c: Option<seq<SnapshotLevel>>)
    ensures Prepended(a, Prepended(b, c)) == Prepended(a + b, c)
  {
    if c.Some? { assert a + (b + c.value) == (a + b) + c.value; }
  }

  method Parse(p: seq<Byte>) returns (r: Result<SnapshotResponse, WireError>)
    ensures r == Parsed(p)
  {
    if |p| < HEADER_BYTES { return Err(PayloadSize(HEADER_BYTES, |p|)); }
    var v := HeaderOf(p);
    var expected := HEADER_BYTES + LEVEL_BYTES * (v[4] + v[5]);
    if |p| != expected { return Err(PayloadSize(expected, |p|)); }
    var bids := ParseLevels(p, HEADER_BYTES, v[4]);
    if bids.None? { return Err(DomainViolation); }
    var split := HEADER_BYTES + LEVEL_BYTES * v[4];
    var asks := ParseLevels(p, split, v[5]);
    assert split + LEVEL_BYTES * v[5] == expected;
    if asks.None? { return Err(DomainViolation); }
    return Ok(FromHeader(v, bids.value, asks.value));
  }

  // -------------------------------------------------------------------------
  // Laws
  // -------------------------------------------------------------------------

  lemma {:induction false} LevelsRoundTrip(ls: seq<SnapshotLevel>)
    ensures LevelsFrom(LevelsBytes(ls)) == Some(ls)
  {
    if ls != [] {
      var b := LevelsBytes(ls);
      Widths();
      LeRoundTrip(ls[0].price, 8);
      LeRoundTrip(ls[0].qty, 8);
      assert b[..8] == Le(ls[0].price, 8);
      assert b[8..LEVEL_BYTES] == Le(ls[0].qty, 8);
      assert b[LEVEL_BYTES..] == LevelsBytes(ls[1..]);
      LevelsRoundTrip(ls[1..]);
      assert ls == [ls[0]] + ls[1..];
    }
  }

  lemma {:induction false} LevelsExact(b: seq<Byte>)
    requires |b| % LEVEL_BYTES == 0 && LevelsFrom(b).Some?
    ensures LevelsBytes(LevelsFrom(b).value) == b
  {
    hide FromLe, Le, Pow256;
    if |b| >= LEVEL_BYTES {
      var l, ls := LevelsFrom(b).value[0], LevelsFrom(b[LEVEL_BYTES..]).value;
      FromLeRoundTrip(b[..8]);
      FromLeRoundTrip(b[8..LEVEL_BYTES]);
      LevelsExact(b[LEVEL_BYTES..]);
      assert LevelsFrom(b).value == [l] + ls;
      LevelsCons(l, ls);
      assert b == b[..8] + b[8..LEVEL_BYTES] + b[LEVEL_BYTES..];
    }
  }

  lemma HeaderFits(m: SnapshotResponse)
    requires Countable(m)
    ensures Fits(HeaderFields(m), HEADER)
  {
    hide Pow256;
    Widths();
  }

  /** Every message with countable levels survives encoding and decoding. */
  lemma ParsePayload(m: SnapshotResponse)
    requires Countable(m)
    ensures Parsed(Payload(m)) == Ok(m)
  {
    hide Pack, Unpack, LevelsBytes, LevelsFrom, Size;
    HeaderSize();
    HeaderFits(m);
    UnpackPack(HeaderFields(m), HEADER);
    LevelsSize(m.bids);
    LevelsSize(m.asks);
    LevelsRoundTrip(m.bids);
    LevelsRoundTrip(m.asks);
    var p, split := Payload(m), HEADER_BYTES + LEVEL_BYTES * |m.bids|;
    assert p[..HEADER_BYTES] == Pack(HeaderFields(m), HEADER);
    assert p[HEADER_BYTES..split] == LevelsBytes(m.bids);
    assert p[split..|p|] == LevelsBytes(m.asks);
  }

  /** Every accepted payload, of any length, is the encoding of the message it decodes to. */
  lemma PayloadParse(p: seq<Byte>)
    requires Parsed(p).Ok?
    ensures Countable(Parsed(p).value) && Payload(Parsed(p).value) == p
  {
    hide Pack, HeaderOf, LevelsBytes, LevelsFrom, Pow256;
    var v, m := HeaderOf(p), Parsed(p).value;
    var split := HEADER_BYTES + LEVEL_BYTES * v[4];
    Widths();
    LevelsExact(p[HEADER_BYTES..split]);
    LevelsExact(p[split..|p|]);
    LevelsSize(m.bids);
    LevelsSize(m.asks);
    assert HeaderFields(m) == v;
    assert p == p[..HEADER_BYTES] + p[HEADER_BYTES..split] + p[split..|p|];
  }

  /** Level `i` of a side stands sixteen bytes behind the one before it. */
  lemma {:induction false} LevelAt(ls: seq<SnapshotLevel>, i: nat)
    requires i < |ls|
    ensures |LevelsBytes(ls)| == LEVEL_BYTES * |ls|
    ensures LevelsBytes(ls)[16 * i..16 * i + 8] == Le(ls[i].price, 8)
    ensures LevelsBytes(ls)[16 * i + 8..16 * i + 16] == Le(ls[i].qty, 8)
  {
    hide Le, LevelsBytes;
    LevelsSize(ls);
    LeLength(ls[0].price, 8);
    LeLength(ls[0].qty, 8);
    assert ls == [ls[0]] + ls[1..];
    LevelsCons(ls[0], ls[1..]);
    var head, rest := LevelBytes(ls[0]), LevelsBytes(ls[1..]);
    if i > 0 {
      LevelAt(ls[1..], i - 1);
      Behind(head, rest, 16 * (i - 1), 16 * (i - 1) + 8);
      Behind(head, rest, 16 * (i - 1) + 8, 16 * (i - 1) + 16);
    } else {
      InFront(head, rest, 0, 8);
      InFront(head, rest, 8, 16);
    }
  }

  lemma Behind(x: seq<Byte>, y: seq<Byte>, a: nat, b: nat)
    requires a <= b <= |y|
    ensures (x + y)[|x| + a..|x| + b] == y[a..b]
  {
  }

  /** The payload, field by field: header, then bids, then asks. */
  lemma PayloadAt(m: SnapshotResponse)
    requires Countable(m)
    ensures var p := Payload(m);
      && |p| == EncodedLen(m)
      && p[0..8] == Le(m.engineSeq, 8) && p[8..16] == Le(m.requestId, 8)
      && p[16..24] == Le(ToU64(m.recvTs), 8) && p[24..32] == Le(ToU64(m.emitTs), 8)
      && p[32..36] == Le(|m.bids|, 4) && p[36..40] == Le(|m.asks|, 4)
      && p[40..40 + 16 * |m.bids|] == LevelsBytes(m.bids) && p[40 + 16 * |m.bids|..] == LevelsBytes(m.asks)
  {
    hide Pack, Le, LevelsBytes;
    var v, p := HeaderFields(m), Payload(m);
    var h := Pack(v, HEADER);
    HeaderSize();
    PackSize(v, HEADER);
    LevelsSize(m.bids);
    LevelsSize(m.asks);
    HeaderOffsets();
    forall i | 0 <= i < 6
      ensures p[Size(HEADER[..i])..Size(HEADER[..i]) + HEADER[i]] == Le(v[i], HEADER[i])
    {
      PackAt(v, HEADER, i);
      InFront(h, LevelsBytes(m.bids) + LevelsBytes(m.asks), Size(HEADER[..i]), Size(HEADER[..i]) + HEADER[i]);
      assert p == h + (LevelsBytes(m.bids) + LevelsBytes(m.asks));
    }
  }

  lemma InFront(x: seq<Byte>, y: seq<Byte>, a: nat, b: nat)
    requires a <= b <= |x|
    ensures (x + y)[a..b] == x[a..b]
  {
  }

  lemma HeaderOffsets()
    ensures Size(HEADER[..0]) == 0 && Size(HEADER[..1]) == 8 && Size(HEADER[..2]) == 16
    ensures Size(HEADER[..3]) == 24 && Size(HEADER[..4]) == 32 && Size(HEADER[..5]) == 36
  {
    SizeSnoc(HEADER, 1);
    SizeSnoc(HEADER, 2);
    SizeSnoc(HEADER, 3);
    SizeSnoc(HEADER, 4);
    SizeSnoc(HEADER, 5);
    hide Size;
  }
}
