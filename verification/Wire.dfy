/** The length-prefixed frame and the errors of the wire layer. */
module Wire {
  import opened Domain
  import opened Bytes

  datatype WireError =
    | Truncated
    | UnknownKind(byte: Byte)
    | NonZeroPad(offset: nat)
    | PayloadSize(expected: nat, got: nat)
    | PayloadTooLarge(size: nat)
    | InconsistentPayload
    | DomainViolation

  const LEN_BYTES := 4
  const KIND_BYTES := 1

  predicate KnownKind(k: Byte) { 0x01 <= k <= 0x06 || 0x65 <= k <= 0x69 }

  datatype Frame = Frame(kind: Byte, payload: seq<Byte>)

  datatype ParseOutcome = Known(frame: Frame) | Unknown(byte: Byte)

  /** The declared length of the frame at the front of `buf`. */
  function Declared(buf: seq<Byte>): nat
    requires |buf| >= LEN_BYTES
  {
    FromLe(buf[..LEN_BYTES])
  }

  /** One frame and the bytes it consumed; an unassigned kind is skipped, not refused. */
  function ParseOrSkip(buf: seq<Byte>): Result<(ParseOutcome, nat), WireError> {
    if |buf| < LEN_BYTES then Err(Truncated)
    else
      var len := Declared(buf);
      if len < KIND_BYTES || |buf| < LEN_BYTES + len then Err(Truncated)
      else
        var kind := buf[LEN_BYTES];
        var total := LEN_BYTES + len;
        if KnownKind(kind) then Ok((Known(Frame(kind, buf[LEN_BYTES + KIND_BYTES..total])), total))
        else Ok((Unknown(kind), total))
  }

  function ParseStrict(buf: seq<Byte>): Result<(Frame, nat), WireError> {
    match ParseOrSkip(buf)
    case Err(e) => Err(e)
    case Ok((Known(frame), total)) => Ok((frame, total))
    case Ok((Unknown(byte), _)) => Err(UnknownKind(byte))
  }

  /** The bytes `write` appends, or its refusal to truncate the length prefix. */
  function Write(f: Frame): Result<seq<Byte>, WireError> {
    var len := KIND_BYTES + |f.payload|;
    if len > U32_MAX then Err(PayloadTooLarge(len)) else Ok(Le(len, LEN_BYTES) + [f.kind] + f.payload)
  }

  /** A written frame parses back, whatever follows it, and consumes exactly itself. */
  lemma WriteParse(f: Frame, suffix: seq<Byte>)
    requires KnownKind(f.kind) && 1 + |f.payload| <= U32_MAX
    ensures var bytes := Write(f).value;
      ParseStrict(bytes + suffix) == Ok((f, |bytes|))
  {
    var len := KIND_BYTES + |f.payload|;
    Widths();
    LeRoundTrip(len, LEN_BYTES);
    var bytes := Write(f).value;
    var buf := bytes + suffix;
    assert buf[..LEN_BYTES] == Le(len, LEN_BYTES);
    assert buf[LEN_BYTES] == f.kind;
    assert buf[LEN_BYTES + KIND_BYTES..LEN_BYTES + len] == f.payload;
  }

  /** Conversely, what parses is what was written. */
  lemma ParseWrite(buf: seq<Byte>)
    requires ParseStrict(buf).Ok?
    ensures var (f, total) := ParseStrict(buf).value;
      && KnownKind(f.kind) && total <= |buf| && Write(f) == Ok(buf[..total])
  {
    var (f, total) := ParseStrict(buf).value;
    FromLeRoundTrip(buf[..LEN_BYTES]);
    Widths();
    assert buf[..total] == buf[..LEN_BYTES] + [buf[LEN_BYTES]] + buf[LEN_BYTES + KIND_BYTES..total];
  }
}
