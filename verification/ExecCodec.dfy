/** The 64-byte execution report payload: canonicalising encode, validating decode. */
module ExecCodec {
  import opened Domain
  import opened Bytes
  import opened Wire
  import opened Messages

  /** A report with its sequence number and timestamps. */
  datatype Stamped = Stamped(engineSeq: U64, report: ExecReport, recvTs: I64, emitTs: I64)

  function StateCode(s: ExecState): nat {
    match s
    case Accepted => 1
    case Rejected => 2
    case PartiallyFilled => 3
    case Filled => 4
    case Cancelled => 5
    case Replaced => 6
  }

  function StateFrom(n: nat): Option<ExecState> {
    match n
    case 1 => Some(Accepted)
    case 2 => Some(Rejected)
    case 3 => Some(PartiallyFilled)
    case 4 => Some(Filled)
    case 5 => Some(Cancelled)
    case 6 => Some(Replaced)
    case _ => None
  }

  function RejectCode(r: RejectReason): nat {
    match r
    case KillSwitched => 1
    case InvalidPrice => 2
    case InvalidQty => 3
    case TickViolation => 4
    case LotViolation => 5
    case PriceBand => 6
    case MaxOpenOrders => 7
    case MaxNotional => 8
    case UnknownOrderId => 9
    case DuplicateOrderId => 10
    case PostOnlyWouldCross => 11
    case SelfTradePrevented => 12
    case MarketOrderInEmptyBook => 13
    case UnknownAccount => 14
    case MalformedMessage => 15
  }

  function RejectFrom(n: nat): Option<RejectReason> {
    match n
    case 1 => Some(KillSwitched)
    case 2 => Some(InvalidPrice)
    case 3 => Some(InvalidQty)
    case 4 => Some(TickViolation)
    case 5 => Some(LotViolation)
    case 6 => Some(PriceBand)
    case 7 => Some(MaxOpenOrders)
    case 8 => Some(MaxNotional)
    case 9 => Some(UnknownOrderId)
    case 10 => Some(DuplicateOrderId)
    case 11 => Some(PostOnlyWouldCross)
    case 12 => Some(SelfTradePrevented)
    case 13 => Some(MarketOrderInEmptyBook)
    case 14 => Some(UnknownAccount)
    case 15 => Some(MalformedMessage)
    case _ => None
  }

  function CancelCode(r: CancelReason): nat {
    match r
    case UserRequested => 1
    case MassCancelled => 2
    case IocRemaining => 3
    case SelfTrade => 4
    case Superseded => 5
  }

  function CancelFrom(n: nat): Option<CancelReason> {
    match n
    case 1 => Some(UserRequested)
    case 2 => Some(MassCancelled)
    case 3 => Some(IocRemaining)
    case 4 => Some(SelfTrade)
    case 5 => Some(Superseded)
    case _ => None
  }

  /** engine_seq, order_id, account_id, state, reject, cancel, pad, fill_price, fill_qty,
      leaves_qty, recv_ts, emit_ts. */
  const LAYOUT: seq<nat> := [8, 8, 4, 1, 1, 1, 1, 8, 8, 8, 8, 8]

  const PAYLOAD_BYTES := 64
  const PAD_OFFSET := 23

  /** The canonical wire fields: whatever the state does not carry is zero. */
  function WireFields(m: Stamped): (v: seq<nat>)
    ensures |v| == 12
  {
    var r := m.report;
    var filled := r.state in {PartiallyFilled, Filled} && r.fillPrice.Some? && r.fillQty.Some?;
    [ m.engineSeq,
      r.id,
      r.account,
      StateCode(r.state),
      if r.state.Rejected? && r.reject.Some? then RejectCode(r.reject.value) else 0,
      if r.state in {Cancelled, Replaced} && r.cancel.Some? then CancelCode(r.cancel.value) else 0,
      0,
      if filled then r.fillPrice.value else 0,
      if filled then r.fillQty.value else 0,
      if r.state in {Accepted, PartiallyFilled} && r.leaves.Some? then r.leaves.value else 0,
      ToU64(m.recvTs),
      ToU64(m.emitTs) ]
  }

  function Encode(m: Stamped): seq<Byte> { Pack(WireFields(m), LAYOUT) }

  /** The state-dependent pairing of fields. */
  predicate Coherent(r: ExecReport) {
    var fillNone := r.fillPrice.None? && r.fillQty.None?;
    var fillBoth := r.fillPrice.Some? && r.fillQty.Some?;
    match r.state
    case Accepted => fillNone && r.reject.None? && r.cancel.None? && r.leaves.Some?
    case Rejected => fillNone && r.leaves.None? && r.cancel.None? && r.reject.Some?
    case PartiallyFilled => fillBoth && r.leaves.Some? && r.reject.None? && r.cancel.None?
    case Filled => fillBoth && r.leaves.None? && r.reject.None? && r.cancel.None?
    case Cancelled => fillNone && r.leaves.None? && r.reject.None? && r.cancel.Some?
    case Replaced => fillNone && r.leaves.None? && r.reject.None? && r.cancel.Some?
  }

  function OptPrice(n: nat): Option<Price> { if 0 < n <= I64_MAX then Some(n) else None }

  /** Domain validation of the raw fields, then the coherence check. */
  function Interpret(v: seq<nat>): Result<Stamped, WireError>
    requires Fits(v, LAYOUT)
  {
    Widths();
    if v[6] != 0 then Err(NonZeroPad(PAD_OFFSET))
    else if StateFrom(v[3]).None? || v[1] == 0 || v[2] == 0 then Err(DomainViolation)
    else if v[4] != 0 && RejectFrom(v[4]).None? then Err(DomainViolation)
    else if v[5] != 0 && CancelFrom(v[5]).None? then Err(DomainViolation)
    else if v[7] > I64_MAX then Err(DomainViolation)
    else
      var r := ExecReport(
        v[1], v[2], StateFrom(v[3]).value, OptPrice(v[7]), QtyOf(v[8]), QtyOf(v[9]),
        RejectFrom(v[4]), CancelFrom(v[5]));
      if Coherent(r) then Ok(Stamped(v[0], r, ToI64(v[10]), ToI64(v[11]))) else Err(InconsistentPayload)
  }

  function Parse(p: seq<Byte>): Result<Stamped, WireError> {
    LayoutSize();
    if |p| != PAYLOAD_BYTES then Err(PayloadSize(PAYLOAD_BYTES, |p|))
    else
      PackUnpack(p, LAYOUT);
      Interpret(Unpack(p, LAYOUT))
  }

  lemma LayoutSize()
    ensures Size(LAYOUT) == PAYLOAD_BYTES
  {
    assert LAYOUT[1..] == [8, 4, 1, 1, 1, 1, 8, 8, 8, 8, 8];
    assert LAYOUT[1..][1..] == [4, 1, 1, 1, 1, 8, 8, 8, 8, 8];
    assert Size([8, 8, 8, 8, 8]) == 40;
    assert Size([1, 1, 1, 1, 8, 8, 8, 8, 8]) == 44;
  }

  // -------------------------------------------------------------------------
  // Laws
  // -------------------------------------------------------------------------

  /** The report carries what its state must carry. */
  predicate Encodable(r: ExecReport) {
    match r.state
    case Accepted => r.leaves.Some?
    case Rejected => r.reject.Some?
    case PartiallyFilled => r.fillPrice.Some? && r.fillQty.Some? && r.leaves.Some?
    case Filled => r.fillPrice.Some? && r.fillQty.Some?
    case Cancelled => r.cancel.Some?
    case Replaced => r.cancel.Some?
  }

  /** The report with everything its state does not carry cleared. */
  function Canonical(r: ExecReport): ExecReport {
    match r.state
    case Accepted => ExecReport(r.id, r.account, r.state, None, None, r.leaves, None, None)
    case Rejected => ExecReport(r.id, r.account, r.state, None, None, None, r.reject, None)
    case PartiallyFilled => ExecReport(r.id, r.account, r.state, r.fillPrice, r.fillQty, r.leaves, None, None)
    case Filled => ExecReport(r.id, r.account, r.state, r.fillPrice, r.fillQty, None, None, None)
    case Cancelled => ExecReport(r.id, r.account, r.state, None, None, None, None, r.cancel)
    case Replaced => ExecReport(r.id, r.account, r.state, None, None, None, None, r.cancel)
  }

  lemma StateCodesInvert()
    ensures forall s :: StateFrom(StateCode(s)) == Some(s) && 0 < StateCode(s) < 256
    ensures forall n: nat :: StateFrom(n).Some? ==> StateCode(StateFrom(n).value) == n
  {
  }

  lemma RejectCodesInvert()
    ensures forall r :: RejectFrom(RejectCode(r)) == Some(r) && 0 < RejectCode(r) < 256
    ensures forall n: nat :: RejectFrom(n).Some? ==> RejectCode(RejectFrom(n).value) == n
    ensures RejectFrom(0) == None
  {
  }

  lemma CancelCodesInvert()
    ensures forall c :: CancelFrom(CancelCode(c)) == Some(c) && 0 < CancelCode(c) < 256
    ensures forall n: nat :: CancelFrom(n).Some? ==> CancelCode(CancelFrom(n).value) == n
    ensures CancelFrom(0) == None
  {
  }

  lemma CodesInvert()
    ensures forall s :: StateFrom(StateCode(s)) == Some(s) && 0 < StateCode(s) < 256
    ensures forall n: nat :: StateFrom(n).Some? ==> StateCode(StateFrom(n).value) == n
    ensures forall r :: RejectFrom(RejectCode(r)) == Some(r) && 0 < RejectCode(r) < 256
    ensures forall n: nat :: RejectFrom(n).Some? ==> RejectCode(RejectFrom(n).value) == n
    ensures forall c :: CancelFrom(CancelCode(c)) == Some(c) && 0 < CancelCode(c) < 256
    ensures forall n: nat :: CancelFrom(n).Some? ==> CancelCode(CancelFrom(n).value) == n
    ensures RejectFrom(0) == None && CancelFrom(0) == None
  {
    hide *;
    StateCodesInvert();
    RejectCodesInvert();
    CancelCodesInvert();
  }

  lemma FieldsFit(m: Stamped)
    ensures Fits(WireFields(m), LAYOUT)
  {
    hide Pow256, StateCode, RejectCode, CancelCode, StateFrom, RejectFrom, CancelFrom;
    Widths();
    CodesInvert();
  }

  lemma InterpretFields(m: Stamped)
    requires Fits(WireFields(m), LAYOUT)
    ensures Interpret(WireFields(m)) ==
      if Encodable(m.report) then Ok(m.(report := Canonical(m.report))) else Err(InconsistentPayload)
  {
    hide StateCode, RejectCode, CancelCode, StateFrom, RejectFrom, CancelFrom;
    CodesInvert();
  }

  /** Encoding then decoding: an encodable report comes back in canonical form, and any
      other report is refused as inconsistent. */
  lemma ParseEncode(m: Stamped)
    ensures |Encode(m)| == PAYLOAD_BYTES
    ensures Parse(Encode(m)) ==
      if Encodable(m.report) then Ok(m.(report := Canonical(m.report))) else Err(InconsistentPayload)
  {
    hide WireFields, Interpret, Pack, Unpack, Size, Encodable, Canonical;
    FieldsFit(m);
    LayoutSize();
    UnpackPack(WireFields(m), LAYOUT);
    InterpretFields(m);
  }

  lemma FieldsInterpret(v: seq<nat>)
    requires Fits(v, LAYOUT) && Interpret(v).Ok?
    ensures WireFields(Interpret(v).value) == v
    ensures Coherent(Interpret(v).value.report)
  {
    hide Pow256, StateCode, RejectCode, CancelCode, StateFrom, RejectFrom, CancelFrom;
    Widths();
    CodesInvert();
  }

  /** Decoding then encoding: every accepted payload is the encoding of its message. */
  lemma EncodeParse(p: seq<Byte>)
    requires Parse(p).Ok?
    ensures Encode(Parse(p).value) == p
    ensures Coherent(Parse(p).value.report)
  {
    hide WireFields, Interpret, Pack, Unpack, Size;
    LayoutSize();
    PackUnpack(p, LAYOUT);
    FieldsInterpret(Unpack(p, LAYOUT));
  }

  /** The 64 bytes, field by field: where each stands and what it holds. */
  lemma FieldsAt(m: Stamped)
    ensures var p, r := Encode(m), m.report;
      && |p| == 64
      && p[0..8] == Le(m.engineSeq, 8) && p[8..16] == Le(r.id, 8) && p[16..20] == Le(r.account, 4)
      && p[20] == StateCode(r.state) && p[23] == 0
      && (r.state == Rejected && r.reject.Some? ==> p[21] == RejectCode(r.reject.value) && p[22] == 0)
      && (r.state in {Cancelled, Replaced} && r.cancel.Some? ==> p[21] == 0 && p[22] == CancelCode(r.cancel.value))
      && (r.state in {PartiallyFilled, Filled} && r.fillPrice.Some? && r.fillQty.Some? ==>
            p[24..32] == Le(r.fillPrice.value, 8) && p[32..40] == Le(r.fillQty.value, 8))
      && (r.state in {Accepted, PartiallyFilled} && r.leaves.Some? ==> p[40..48] == Le(r.leaves.value, 8))
      && p[48..56] == Le(ToU64(m.recvTs), 8) && p[56..64] == Le(ToU64(m.emitTs), 8)
  {
    hide Pack, Le, StateCode, RejectCode, CancelCode, StateFrom, RejectFrom, CancelFrom;
    FieldsFit(m);
    Slices(WireFields(m));
  }

  /** The packed record, slice by slice. */
  lemma Slices(v: seq<nat>)
    requires Fits(v, LAYOUT)
    ensures var p := Pack(v, LAYOUT);
      && |p| == 64
      && p[0..8] == Le(v[0], 8) && p[8..16] == Le(v[1], 8) && p[16..20] == Le(v[2], 4)
      && p[20] == v[3] && p[21] == v[4] && p[22] == v[5] && p[23] == v[6]
      && p[24..32] == Le(v[7], 8) && p[32..40] == Le(v[8], 8) && p[40..48] == Le(v[9], 8)
      && p[48..56] == Le(v[10], 8) && p[56..64] == Le(v[11], 8)
  {
    hide Pack, Le, Size, Pow256;
    LayoutSize();
    PackSize(v, LAYOUT);
    Offsets();
    Widths();
    Slice(v, 0);
    Slice(v, 1);
    Slice(v, 2);
    Slice(v, 3);
    Slice(v, 4);
    Slice(v, 5);
    Slice(v, 6);
    Slice(v, 7);
    Slice(v, 8);
    Slice(v, 9);
    Slice(v, 10);
    Slice(v, 11);
  }

  lemma Slice(v: seq<nat>, i: nat)
    requires Fits(v, LAYOUT) && i < 12
    ensures var p, a := Pack(v, LAYOUT), Size(LAYOUT[..i]);
      && a + LAYOUT[i] <= |p| && p[a..a + LAYOUT[i]] == Le(v[i], LAYOUT[i])
      && (LAYOUT[i] == 1 ==> p[a] == v[i])
  {
    hide Pack, Size, Le, Pow256;
    PackAt(v, LAYOUT, i);
    if LAYOUT[i] == 1 {
      Widths();
      OneByte(v[i]);
      var p, a := Pack(v, LAYOUT), Size(LAYOUT[..i]);
      assert p[a..a + 1] == [p[a]];
    }
  }

  lemma OneByte(n: nat)
    requires n < 256
    ensures Le(n, 1) == [n]
  {
    assert Le(n / 256, 0) == [];
  }

  lemma Offsets()
    ensures Size(LAYOUT[..0]) == 0 && Size(LAYOUT[..1]) == 8 && Size(LAYOUT[..2]) == 16 && Size(LAYOUT[..3]) == 20
    ensures Size(LAYOUT[..4]) == 21 && Size(LAYOUT[..5]) == 22 && Size(LAYOUT[..6]) == 23 && Size(LAYOUT[..7]) == 24
    ensures Size(LAYOUT[..8]) == 32 && Size(LAYOUT[..9]) == 40 && Size(LAYOUT[..10]) == 48 && Size(LAYOUT[..11]) == 56
  {
    SizeSnoc(LAYOUT, 1);
    SizeSnoc(LAYOUT, 2);
    SizeSnoc(LAYOUT, 3);
    SizeSnoc(LAYOUT, 4);
    SizeSnoc(LAYOUT, 5);
    SizeSnoc(LAYOUT, 6);
    SizeSnoc(LAYOUT, 7);
    SizeSnoc(LAYOUT, 8);
    SizeSnoc(LAYOUT, 9);
    SizeSnoc(LAYOUT, 10);
    SizeSnoc(LAYOUT, 11);
    hide Size;
  }

  /** Codes count up from one in the order of declaration. */
  lemma CodesCount()
    ensures var states := [Accepted, Rejected, PartiallyFilled, Filled, Cancelled, Replaced];
      forall i :: 0 <= i < 6 ==> StateCode(states[i]) == i + 1
    ensures var reasons := [KillSwitched, InvalidPrice, InvalidQty, TickViolation, LotViolation, PriceBand,
        MaxOpenOrders, MaxNotional, UnknownOrderId, DuplicateOrderId, PostOnlyWouldCross, SelfTradePrevented,
        MarketOrderInEmptyBook, UnknownAccount, MalformedMessage];
      forall i :: 0 <= i < 15 ==> RejectCode(reasons[i]) == i + 1
    ensures var reasons := [UserRequested, MassCancelled, IocRemaining, SelfTrade, Superseded];
      forall i :: 0 <= i < 5 ==> CancelCode(reasons[i]) == i + 1
  {
  }
}
