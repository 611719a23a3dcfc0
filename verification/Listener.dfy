/** The per-connection inbound decoder: bytes arrive in arbitrary pieces, messages leave
    in order. `decode` stands for the fixed-size payload decoders. */
module Listener {
  import opened Domain
  import opened Bytes
  import opened Wire

  datatype DecodeStep<+M> =
    | Decoded(msg: M, total: nat)
    | Malformed(total: nat)
    | Skipped(byte: Byte, total: nat)
    | NeedMore

  function TryDecode<M>(buf: seq<Byte>, decode: Frame -> Option<M>): (d: DecodeStep<M>)
    ensures !d.NeedMore? ==> LEN_BYTES < d.total <= |buf|
  {
    if |buf| < LEN_BYTES || |buf| < LEN_BYTES + Declared(buf) then NeedMore
    else
      match ParseOrSkip(buf)
      case Err(_) => NeedMore
      case Ok((Unknown(byte), total)) => Skipped(byte, total)
      case Ok((Known(frame), total)) =>
        match decode(frame)
        case Some(msg) => Decoded(msg, total)
        case None => Malformed(total)
  }

  /** What a connection has delivered, what it still buffers and whether it was closed. */
  datatype Drained<+M> = Drained(msgs: seq<M>, rest: seq<Byte>, closed: bool)

  /** Decode everything decodable; a malformed or unknown frame closes the connection. */
  function Drain<M>(buf: seq<Byte>, decode: Frame -> Option<M>): Drained<M> {
    match TryDecode(buf, decode)
    case Decoded(msg, total) =>
      var d := Drain(buf[total..], decode);
      d.(msgs := [msg] + d.msgs)
    case Malformed(_) => Drained([], [], true)
    case Skipped(_, _) => Drained([], [], true)
    case NeedMore => Drained([], buf, false)
  }

  /** A connection after one more read. */
  function Feed<M>(d: Drained<M>, chunk: seq<Byte>, decode: Frame -> Option<M>): Drained<M> {
    if d.closed then d
    else
      var e := Drain(d.rest + chunk, decode);
      e.(msgs := d.msgs + e.msgs)
  }

  function FeedAll<M>(d: Drained<M>, chunks: seq<seq<Byte>>, decode: Frame -> Option<M>): Drained<M>
    decreases chunks
  {
    if chunks == [] then d else FeedAll(Feed(d, chunks[0], decode), chunks[1..], decode)
  }

  function Joined(chunks: seq<seq<Byte>>): seq<Byte> {
    if chunks == [] then [] else chunks[0] + Joined(chunks[1..])
  }

  // -------------------------------------------------------------------------
  // Laws
  // -------------------------------------------------------------------------

  /** A decision about the front frame does not depend on what follows it. */
  lemma TryDecodeLocal<M>(a: seq<Byte>, b: seq<Byte>, decode: Frame -> Option<M>)
    requires !TryDecode(a, decode).NeedMore?
    ensures TryDecode(a + b, decode) == TryDecode(a, decode)
  {
    var total := LEN_BYTES + Declared(a);
    assert (a + b)[..LEN_BYTES] == a[..LEN_BYTES];
    assert (a + b)[LEN_BYTES] == a[LEN_BYTES];
    assert (a + b)[LEN_BYTES + KIND_BYTES..total] == a[LEN_BYTES + KIND_BYTES..total];
  }

  /** Draining in two pieces is draining at once. */
  lemma {:induction false} DrainAppend<M>(a: seq<Byte>, b: seq<Byte>, decode: Frame -> Option<M>)
    ensures Drain(a + b, decode) == Feed(Drain(a, decode), b, decode)
    decreases |a|
  {
    var step := TryDecode(a, decode);
    if !step.NeedMore? {
      TryDecodeLocal(a, b, decode);
      if step.Decoded? {
        assert (a + b)[step.total..] == a[step.total..] + b;
        DrainAppend(a[step.total..], b, decode);
        var d := Drain(a[step.total..], decode);
        if !d.closed {
          var e := Drain(d.rest + b, decode);
          assert [step.msg] + (d.msgs + e.msgs) == ([step.msg] + d.msgs) + e.msgs;
        }
      }
    } else {
      var e := Drain(a + b, decode);
      assert [] + e.msgs == e.msgs;
    }
  }

  /** What a connection leaves buffered decodes no further. */
  lemma {:induction false} DrainIdle<M>(buf: seq<Byte>, decode: Frame -> Option<M>)
    ensures var d := Drain(buf, decode);
      !d.closed ==> TryDecode(d.rest, decode).NeedMore?
    decreases |buf|
  {
    var step := TryDecode(buf, decode);
    if step.Decoded? { DrainIdle(buf[step.total..], decode); }
  }

  lemma {:induction false} FeedAllDrains<M>(sofar: seq<Byte>, chunks: seq<seq<Byte>>, decode: Frame -> Option<M>)
    ensures FeedAll(Drain(sofar, decode), chunks, decode) == Drain(sofar + Joined(chunks), decode)
    decreases chunks
  {
    hide Drain, Feed;
    if chunks == [] {
      assert sofar + [] == sofar;
    } else {
      DrainAppend(sofar, chunks[0], decode);
      FeedAllDrains(sofar + chunks[0], chunks[1..], decode);
      assert (sofar + chunks[0]) + Joined(chunks[1..]) == sofar + (chunks[0] + Joined(chunks[1..]));
    }
  }

  /** However a byte stream is cut into reads, the same messages are delivered and the
      connection ends in the same state. */
  lemma SplitInvariant<M>(chunks: seq<seq<Byte>>, others: seq<seq<Byte>>, decode: Frame -> Option<M>)
    requires Joined(chunks) == Joined(others)
    ensures FeedAll(Drained([], [], false), chunks, decode) == FeedAll(Drained([], [], false), others, decode)
    ensures FeedAll(Drained([], [], false), chunks, decode) == Drain(Joined(chunks), decode)
  {
    assert Drain([], decode) == Drained([], [], false);
    FeedAllDrains([], chunks, decode);
    FeedAllDrains([], others, decode);
    assert [] + Joined(chunks) == Joined(chunks);
  }

  /** A buffer is stuck when no further bytes ever make it deliver, shrink or close. */
  ghost predicate Stuck<M>(buf: seq<Byte>, decode: Frame -> Option<M>) {
    forall suffix: seq<Byte> :: Drain(buf + suffix, decode) == Drained([], buf + suffix, false)
  }

  /** A zero-length frame is never consumed and never closes the connection: everything
      behind it waits for ever.  Nothing else does. */
  lemma ZeroLengthWaits<M>(buf: seq<Byte>, decode: Frame -> Option<M>)
    ensures Stuck(buf, decode) <==> |buf| >= LEN_BYTES && Declared(buf) == 0
  {
    if |buf| >= LEN_BYTES && Declared(buf) == 0 {
      forall suffix: seq<Byte> ensures Drain(buf + suffix, decode) == Drained([], buf + suffix, false) {
        assert (buf + suffix)[..LEN_BYTES] == buf[..LEN_BYTES];
      }
    } else {
      var suffix := Completion(buf);
      assert Drain(buf + suffix, decode) != Drained([], buf + suffix, false) by { CompletionMoves(buf, decode); }
    }
  }

  function Zeros(n: nat): seq<Byte> { seq(n, _ => 0) }

  /** Bytes that complete a non-empty frame at the front of `buf`. */
  function Completion(buf: seq<Byte>): seq<Byte> {
    if |buf| >= LEN_BYTES then Zeros(Declared(buf))
    else
      var prefix := seq(LEN_BYTES - |buf|, _ => 1);
      prefix + Zeros(Declared(buf + prefix))
  }

  lemma CompletionMoves<M>(buf: seq<Byte>, decode: Frame -> Option<M>)
    requires |buf| < LEN_BYTES || Declared(buf) > 0
    ensures var all := buf + Completion(buf);
      Drain(all, decode) != Drained([], all, false)
  {
    if |buf| >= LEN_BYTES {
      WholeMoves(buf, Zeros(Declared(buf)), decode);
    } else {
      var prefix := seq(LEN_BYTES - |buf|, _ => 1);
      var front := buf + prefix;
      assert front[..LEN_BYTES] == front && front[LEN_BYTES - 1] == 1;
      LastByteCounts(front);
      WholeMoves(front, Zeros(Declared(front)), decode);
      assert buf + Completion(buf) == front + Zeros(Declared(front));
    }
  }

  lemma {:induction false} LastByteCounts(s: seq<Byte>)
    requires s != [] && s[|s| - 1] > 0
    ensures FromLe(s) > 0
  {
    if |s| > 1 { LastByteCounts(s[1..]); }
  }

  lemma WholeMoves<M>(front: seq<Byte>, tail: seq<Byte>, decode: Frame -> Option<M>)
    requires |front| >= LEN_BYTES && 0 < Declared(front) <= |tail|
    ensures Drain(front + tail, decode) != Drained([], front + tail, false)
  {
    assert (front + tail)[..LEN_BYTES] == front[..LEN_BYTES];
    assert !TryDecode(front + tail, decode).NeedMore?;
  }

  ghost predicate Deliverable<M>(f: Frame, decode: Frame -> Option<M>) {
    KnownKind(f.kind) && 1 + |f.payload| <= U32_MAX && decode(f).Some?
  }

  function Written(fs: seq<Frame>): seq<Byte> {
    if fs == [] then [] else (match Write(fs[0]) case Ok(b) => b case Err(_) => []) + Written(fs[1..])
  }

  lemma TryDecodeWritten<M>(f: Frame, tail: seq<Byte>, decode: Frame -> Option<M>)
    requires Deliverable(f, decode)
    ensures var bytes := Write(f).value;
      TryDecode(bytes + tail, decode) == Decoded(decode(f).value, |bytes|)
  {
    var bytes := Write(f).value;
    WriteParse(f, tail);
    Widths();
    LeRoundTrip(1 + |f.payload|, LEN_BYTES);
    assert (bytes + tail)[..LEN_BYTES] == Le(1 + |f.payload|, LEN_BYTES);
  }

  /** A written frame at the front is delivered, and the rest drained. */
  lemma DrainWritten<M>(f: Frame, tail: seq<Byte>, decode: Frame -> Option<M>)
    requires Deliverable(f, decode)
    ensures Write(f).Ok? && decode(f).Some?
    ensures var d := Drain(tail, decode);
      Drain(Write(f).value + tail, decode) == d.(msgs := [decode(f).value] + d.msgs)
  {
    TryDecodeWritten(f, tail, decode);
    hide TryDecode;
    var bytes := Write(f).value;
    assert (bytes + tail)[|bytes|..] == tail;
  }

  /** A stream of written frames delivers exactly their messages, in order, and is
      wholly consumed. */
  lemma {:induction false} WrittenDelivers<M>(fs: seq<Frame>, decode: Frame -> Option<M>)
    requires forall f :: f in fs ==> Deliverable(f, decode)
    ensures var d := Drain(Written(fs), decode);
      && !d.closed && d.rest == [] && |d.msgs| == |fs|
      && forall i :: 0 <= i < |fs| ==> decode(fs[i]) == Some(d.msgs[i])
  {
    hide Drain, Write, Deliverable;
    if fs == [] {
      EmptyWaits(decode);
    } else {
      assert fs[0] in fs;
      DrainWritten(fs[0], Written(fs[1..]), decode);
      WrittenDelivers(fs[1..], decode);
    }
  }

  /** A frame of any kind, known or not, as it stands on the wire. */
  function OnWire(f: Frame): seq<Byte> { Le(1 + |f.payload|, 4) + [f.kind] + f.payload }

  function AllOnWire(fs: seq<Frame>): seq<Byte> {
    if fs == [] then [] else OnWire(fs[0]) + AllOnWire(fs[1..])
  }

  /** One of the six inbound or five outbound kinds, with a payload that decodes. */
  predicate Good<M>(f: Frame, decode: Frame -> Option<M>) {
    f.kind in {1, 2, 3, 4, 5, 6, 101, 102, 103, 104, 105} && decode(f).Some?
  }

  /** The frames before the first bad one. */
  function GoodPrefix<M>(fs: seq<Frame>, decode: Frame -> Option<M>): (k: nat)
    ensures k <= |fs| && (forall i :: 0 <= i < k ==> Good(fs[i], decode)) && (k < |fs| ==> !Good(fs[k], decode))
  {
    if fs == [] || !Good(fs[0], decode) then 0 else 1 + GoodPrefix(fs[1..], decode)
  }

  lemma WireFront<M>(f: Frame, tail: seq<Byte>, decode: Frame -> Option<M>)
    requires 1 + |f.payload| <= U32_MAX
    ensures var d := Drain(OnWire(f) + tail, decode);
      if Good(f, decode) then d == Drain(tail, decode).(msgs := [decode(f).value] + Drain(tail, decode).msgs)
      else d == Drained([], [], true)
  {
    var bytes := OnWire(f);
    var buf := bytes + tail;
    Widths();
    LeLength(1 + |f.payload|, 4);
    LeRoundTrip(1 + |f.payload|, LEN_BYTES);
    assert buf[..LEN_BYTES] == Le(1 + |f.payload|, LEN_BYTES);
    assert buf[LEN_BYTES] == f.kind;
    assert buf[LEN_BYTES + KIND_BYTES..|bytes|] == f.payload;
    assert buf[|bytes|..] == tail;
  }

  /** A stream of whole frames and a tail that is not one: the messages of the frames before
      the first bad one are delivered in order; the connection is closed exactly when there
      is a bad one, of another kind or with a payload that does not decode; otherwise the
      tail stays buffered. */
  lemma {:induction false} FramesDecide<M>(fs: seq<Frame>, tail: seq<Byte>, decode: Frame -> Option<M>)
    requires forall f :: f in fs ==> 1 + |f.payload| <= U32_MAX
    requires TryDecode(tail, decode).NeedMore?
    ensures var d, k := Drain(AllOnWire(fs) + tail, decode), GoodPrefix(fs, decode);
      && (d.closed <==> exists f :: f in fs && !Good(f, decode))
      && |d.msgs| == k && (forall i :: 0 <= i < k ==> decode(fs[i]) == Some(d.msgs[i]))
      && d.rest == if d.closed then [] else tail
  {
    hide TryDecode, OnWire, Good, Drain;
    if fs == [] {
      assert AllOnWire(fs) + tail == tail;
      TailWaits(tail, decode);
    } else {
      assert fs[0] in fs;
      var rest := AllOnWire(fs[1..]) + tail;
      assert AllOnWire(fs) + tail == OnWire(fs[0]) + rest;
      WireFront(fs[0], rest, decode);
      if Good(fs[0], decode) {
        FramesDecide(fs[1..], tail, decode);
        assert forall f :: f in fs <==> f == fs[0] || f in fs[1..];
        GoodDecodes(fs[0], decode);
      }
    }
  }

  /** What is taken off the front of a buffer is one frame. */
  lemma FrontIsFrame<M>(buf: seq<Byte>, decode: Frame -> Option<M>) returns (f: Frame)
    requires !TryDecode(buf, decode).NeedMore?
    ensures OnWire(f) == buf[..TryDecode(buf, decode).total] && 1 + |f.payload| <= U32_MAX
  {
    var total := TryDecode(buf, decode).total;
    f := Frame(buf[LEN_BYTES], buf[LEN_BYTES + KIND_BYTES..total]);
    FromLeRoundTrip(buf[..LEN_BYTES]);
    Widths();
    assert buf[..total] == buf[..LEN_BYTES] + [buf[LEN_BYTES]] + buf[LEN_BYTES + KIND_BYTES..total];
  }

  /** Every buffer is whole frames followed by a tail that is not one. */
  lemma {:induction false} BufferIsFrames<M>(buf: seq<Byte>, decode: Frame -> Option<M>)
    returns (fs: seq<Frame>, tail: seq<Byte>)
    ensures buf == AllOnWire(fs) + tail && TryDecode(tail, decode).NeedMore?
    ensures forall f :: f in fs ==> 1 + |f.payload| <= U32_MAX
    decreases |buf|
  {
    hide TryDecode, OnWire;
    var step := TryDecode(buf, decode);
    if step.NeedMore? {
      fs, tail := [], buf;
      assert [] + buf == buf;
    } else {
      var f := FrontIsFrame(buf, decode);
      var later;
      later, tail := BufferIsFrames(buf[step.total..], decode);
      fs := [f] + later;
      assert fs[1..] == later;
      assert buf == buf[..step.total] + buf[step.total..];
      assert OnWire(f) + (AllOnWire(later) + tail) == (OnWire(f) + AllOnWire(later)) + tail;
    }
  }

  lemma TailWaits<M>(tail: seq<Byte>, decode: Frame -> Option<M>)
    requires TryDecode(tail, decode).NeedMore?
    ensures Drain(tail, decode) == Drained([], tail, false)
  {
  }

  lemma GoodDecodes<M>(f: Frame, decode: Frame -> Option<M>)
    ensures Good(f, decode) ==> decode(f).Some?
  {
  }

  lemma EmptyWaits<M>(decode: Frame -> Option<M>)
    ensures Drain([], decode) == Drained([], [], false)
  {
  }

  // -------------------------------------------------------------------------
  // The connection
  // -------------------------------------------------------------------------

  /** The messages `before` the result `d`. */
  function Delivered<M>(before: seq<M>, d: Drained<M>): Drained<M> { d.(msgs := before + d.msgs) }

  lemma DeliveredNext<M>(before: seq<M>, msg: M, d: Drained<M>)
    ensures Delivered(before, d.(msgs := [msg] + d.msgs)) == Delivered(before + [msg], d)
  {
    assert before + ([msg] + d.msgs) == (before + [msg]) + d.msgs;
  }

  lemma TotalPositive<M>(buf: seq<Byte>, decode: Frame -> Option<M>)
    ensures var d := TryDecode(buf, decode);
      !d.NeedMore? ==> 0 < d.total <= |buf|
  {
  }

  class Connection<M> {
    const decode: Frame -> Option<M>
    var buf: seq<Byte>
    var delivered: seq<M>
    var closed: bool

    constructor (decode: Frame -> Option<M>)
      ensures this.decode == decode && View() == Drained([], [], false)
    {
      this.decode, buf, delivered, closed := decode, [], [], false;
    }

    function View(): Drained<M>
      reads this
    {
      Drained(delivered, buf, closed)
    }

    /** One socket read followed by the drain loop. */
    method OnRead(chunk: seq<Byte>)
      modifies this
      ensures View() == Feed(old(View()), chunk, decode)
    {
      if closed { return; }
      hide TryDecode;
      buf := buf + chunk;
      while true
        invariant !closed
        invariant Feed(old(View()), chunk, decode) == Delivered(delivered, Drain(buf, decode))
        decreases |buf|
      {
        match TryDecode(buf, decode) {
          case Decoded(msg, total) =>
            TotalPositive(buf, decode);
            DeliveredNext(delivered, msg, Drain(buf[total..], decode));
            buf := buf[total..];
            delivered := delivered + [msg];
          case Malformed(_) =>
            assert delivered + [] == delivered;
            buf, closed := [], true;
            break;
          case Skipped(_, _) =>
            assert delivered + [] == delivered;
            buf, closed := [], true;
            break;
          case NeedMore =>
            assert delivered + [] == delivered;
            break;
        }
      }
    }
  }
}
