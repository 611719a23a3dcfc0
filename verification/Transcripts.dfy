/** Every message of every command in closed form, read off the book the command meets:
    who is told what, at which price, for how much, and under whose name. */
module Transcripts {
  import opened Domain
  import opened PriceTime
  import opened QueueLaws
  import opened WalkLaws
  import opened BookLaws
  import opened Messages
  import opened Risk
  import opened EngineSpec
  import opened EngineInvariants
  import opened EngineSafety
  import opened MarketData
  import opened Reports
  import opened Compliance

  // -------------------------------------------------------------------------
  // The messages of a walk
  // -------------------------------------------------------------------------

  /** What is said about maker `i`: nothing once the makers ahead of it cover the quantity;
      otherwise a print at its price with the taker's side as aggressor, a report to its
      owner and a report to the taker, each with what that order has left. */
  function FillSpeech(q: seq<Resting>, t: Taker, left: nat, trade: nat, i: nat): seq<Body>
    requires i < |q|
  {
    var open := SatSub(left, Lots(q[..i]));
    if open == 0 then []
    else
      var o := q[i];
      var x: Qty := Min(o.qty, open);
      [ Trade(trade + i, o.price, x, t.side),
        Report(ExecReport(o.id, o.account, if x == o.qty then Filled else PartiallyFilled,
                          Some(o.price), Some(x), QtyOf(o.qty - x), None, None)),
        Report(ExecReport(t.id, t.account, if x == open then Filled else PartiallyFilled,
                          Some(o.price), Some(x), QtyOf(open - x), None, None)) ]
  }

  /** The speeches about makers `i` to `n`, in queue order. */
  function FillSpeeches(q: seq<Resting>, t: Taker, left: nat, trade: nat, i: nat, n: nat): seq<Body>
    requires i <= n <= |q|
    decreases n - i
  {
    if i == n then [] else FillSpeech(q, t, left, trade, i) + FillSpeeches(q, t, left, trade, i + 1, n)
  }

  /** A leftover that meets an order of its own account within its limit. */
  predicate Stopped(q: seq<Resting>, t: Taker, left: nat) {
    var n := Reach(q, t);
    && Lots(q[..n]) < left && n < |q|
    && (t.price.None? || if t.side.Bid? then q[n].price <= t.price.value else q[n].price >= t.price.value)
  }

  /** What is said about the own order that stops a leftover. */
  function StopSpeech(q: seq<Resting>, t: Taker, left: nat): seq<Body> {
    if Stopped(q, t, left) then
      var o := q[Reach(q, t)];
      [Report(ExecReport(o.id, o.account, Cancelled, None, None, None, None, Some(SelfTrade)))]
    else []
  }

  function WalkSpeech(q: seq<Resting>, t: Taker, left: nat, trade: nat): seq<Body> {
    FillSpeeches(q, t, left, trade, 0, Reach(q, t)) + StopSpeech(q, t, left)
  }

  lemma SpeechShift(q: seq<Resting>, t: Taker, left: nat, trade: nat, i: nat)
    requires 0 < i < |q| && q[0].qty <= left
    ensures FillSpeech(q, t, left, trade, i) == FillSpeech(q[1..], t, left - q[0].qty, trade + 1, i - 1)
  {
    hide Lots;
    LotsCons(q, i);
  }

  lemma {:induction false} SpeechesShift(q: seq<Resting>, t: Taker, left: nat, trade: nat, i: nat, n: nat)
    requires 0 < i <= n <= |q| && q[0].qty <= left
    ensures FillSpeeches(q, t, left, trade, i, n)
         == FillSpeeches(q[1..], t, left - q[0].qty, trade + 1, i - 1, n - 1)
    decreases n - i
  {
    hide FillSpeech;
    if i < n {
      SpeechShift(q, t, left, trade, i);
      SpeechesShift(q, t, left, trade, i + 1, n);
    }
  }

  lemma {:induction false} SpeechesOver(q: seq<Resting>, t: Taker, left: nat, trade: nat, i: nat, n: nat)
    requires i <= n <= |q| && left <= Lots(q[..i])
    ensures FillSpeeches(q, t, left, trade, i, n) == []
    decreases n - i
  {
    hide Lots;
    if i < n {
      LotsMonotone(q, i, i + 1);
      SpeechesOver(q, t, left, trade, i + 1, n);
    }
  }

  /** The walk's speech, unrolled by the head of the queue. */
  lemma {:induction false} WalkSpeechUnrolls(q: seq<Resting>, t: Taker, left: nat, trade: nat)
    ensures WalkSpeech(q, t, left, trade) ==
      if left == 0 || q == [] || !Crosses(t.side, t.price, q[0].price) then []
      else if q[0].account == t.account then [CancelledReport(q[0].id, q[0].account, SelfTrade)]
      else if left < q[0].qty then FillSpeech(q, t, left, trade, 0)
      else FillSpeech(q, t, left, trade, 0) + WalkSpeech(q[1..], t, left - q[0].qty, trade + 1)
  {
    hide FillSpeech, Lots;
    var n := Reach(q, t);
    NoLots(q);
    if left == 0 {
      SpeechesOver(q, t, left, trade, 0, n);
    } else if q != [] && Tradable(t, q[0]) {
      NoLots(q[1..]);
      LotsCons(q, 1);
      LotsCons(q, n);
      assert FillSpeeches(q, t, left, trade, 0, n)
          == FillSpeech(q, t, left, trade, 0) + FillSpeeches(q, t, left, trade, 1, n);
      if left < q[0].qty {
        SpeechesOver(q, t, left, trade, 1, n);
      } else {
        SpeechesShift(q, t, left, trade, 1, n);
        assert FillSpeech(q, t, left, trade, 0)
             + (FillSpeeches(q[1..], t, left - q[0].qty, trade + 1, 0, n - 1) + StopSpeech(q, t, left))
          == (FillSpeech(q, t, left, trade, 0) + FillSpeeches(q[1..], t, left - q[0].qty, trade + 1, 0, n - 1))
             + StopSpeech(q, t, left);
      }
    }
  }

  /** The first fill says what its speech says. */
  lemma HeadSpeech(l: Ledger, b: FlatBook, t: Taker, left: nat, trade: nat)
    requires Valid(b) && Agrees(l, b) && 0 < left <= U64_MAX
    requires var q := b.Of(t.side.Opposite()); q != []
    ensures var q := b.Of(t.side.Opposite());
      var f := FillOf(q[0], t, Min(q[0].qty, left), trade);
      FillEvents(l, f, t.account, SatSub(left, f.qty)) == FillSpeech(q, t, left, trade, 0)
  {
    hide Valid, Agrees, Lookup;
    var side := t.side.Opposite();
    var q := b.Of(side);
    NoLots(q);
    HeadResting(b, side);
    AgreedEntry(l, b, q[0].id);
    hide Lots;
  }

  /** Settling a walk says exactly what the queue determines. */
  lemma {:induction false} SettleSpeaks(l: Ledger, b: FlatBook, t: Taker, left: nat, trade: nat)
    requires Valid(b) && Agrees(l, b) && left <= U64_MAX
    ensures var q := b.Of(t.side.Opposite());
      var w := Walk(q, t, left, trade);
      Settle(l, w.fills, w.stp, t.account, left).ev == WalkSpeech(q, t, left, trade)
    decreases |b.Of(t.side.Opposite())|
  {
    hide Valid, Agrees, Lookup, Settle, SettleFill, FillEvents, Walk, WalkSpeech, FillSpeech;
    var side := t.side.Opposite();
    var q := b.Of(side);
    var w := Walk(q, t, left, trade);
    WalkUnrolls(q, t, left, trade);
    WalkSpeechUnrolls(q, t, left, trade);
    if left == 0 || q == [] || !Crosses(t.side, t.price, q[0].price) {
      SettleNothing(l, t.account, left);
    } else if q[0].account == t.account {
      SettleDrop(l, CancellationOf(q[0]), t.account, left);
    } else {
      var f := w.fills[0];
      assert w.fills == [f] + w.fills[1..];
      SettleCons(l, f, w.fills[1..], w.stp, t.account, left);
      HeadSpeech(l, b, t, left, trade);
      if left >= q[0].qty {
        SettleHeadKeeps(l, b, side, f, t.account);
        assert [] + q[1..] == q[1..];
        FindAfterPop(b, side, t.id);
        SettleSpeaks(SettleFill(l, f), b.With(side, q[1..]), t, left - q[0].qty, trade + 1);
      } else {
        SettleNothing(SettleFill(l, f), t.account, 0);
        assert w.fills[1..] == [];
      }
    }
  }

  // -------------------------------------------------------------------------
  // New orders
  // -------------------------------------------------------------------------

  /** What closes an admitted new order with `left` lots over: nothing, if none is. */
  function NewClosing(m: NewOrder, left: nat, stopped: bool, blocked: bool): seq<Body> {
    if left == 0 then []
    else if stopped then
      [Report(ExecReport(m.id, m.account, Cancelled, None, None, None, None, Some(SelfTrade)))]
    else if m.tif.Ioc? || m.price.None? then
      [Report(ExecReport(m.id, m.account, Cancelled, None, None, None, None, Some(IocRemaining)))]
    else if blocked then
      [Report(ExecReport(m.id, m.account, Rejected, None, None, None, Some(DuplicateOrderId), None))]
    else
      [Report(ExecReport(m.id, m.account, Accepted, None, None, QtyOf(left), None, None))]
  }

  /** Everything an admitted new order causes to be said, from the book it meets. */
  ghost function NewSpeech(b: FlatBook, m: NewOrder, trade: nat): seq<Body> {
    var q, t := b.Of(m.side.Opposite()), NewTaker(m);
    WalkSpeech(q, t, m.qty, trade)
    + NewClosing(m, SatSub(m.qty, Lots(q[..Reach(q, t)])), Stopped(q, t, m.qty),
                 b.arrivals == U64_MAX || (m.id in Lookup(b) && !TakesOff(q, t, m.qty, m.id)))
  }

  lemma DisposeSpeaks(s: EngineState, m: NewOrder, stp: bool, left: nat)
    requires left <= U64_MAX && (stp ==> left > 0)
    requires !stp && m.price.Some? && QtyOf(left).Some? ==>
      CheckCaps(s.ledger.risk.StateOf(m.account), NotionalOf(m.price.value, QtyOf(left).value)).None?
    ensures Dispose(s, m, stp, left).ev == NewClosing(m, left, stp, RestError(s.book, m.id).Some?)
  {
    hide Rest, OnOrderResting, OnOrderRemoved, CheckCaps, NotionalOf, RestError;
  }

  /** Everything said about an admitted new order, in terms of its walk. */
  lemma NewSpeaks(s: EngineState, m: NewOrder)
    requires Inv(s) && Decodable(m) && Admitted(s, m)
    ensures var w := Match(s.book, NewTaker(m), s.nextTrade);
      HandleNew(s, m).ev ==
        WalkSpeech(s.book.Of(m.side.Opposite()), NewTaker(m), m.qty, s.nextTrade)
        + NewClosing(m, w.left, w.stp != [], RestError(w.book, m.id).Some?)
  {
    hide Valid, Uncrossed, Agrees, Settle, Walk, CheckNewOrder, NotionalOf, Dispose, CheckCaps, RestError, WalkSpeech,
         NewClosing;
    var t := NewTaker(m);
    var w := Match(s.book, t, s.nextTrade);
    var settled := Settle(s.ledger, w.fills, w.stp, m.account, m.qty);
    WalkConserves(s.book.Of(m.side.Opposite()), t, m.qty, s.nextTrade);
    SettleSpeaks(s.ledger, s.book, t, m.qty, s.nextTrade);
    AdmittedFits(s, m);
    DisposeSpeaks(EngineState(w.book, settled.ledger, s.nextTrade + |w.fills|), m, w.stp != [], w.left);
  }

  lemma NewTranscript(s: EngineState, m: NewOrder)
    requires Inv(s) && Decodable(m) && Admitted(s, m)
    ensures HandleNew(s, m).ev == NewSpeech(s.book, m, s.nextTrade)
  {
    assert s.book.arrivals <= U64_MAX;
    hide Inv, Valid, Lookup, Walk, HandleNew, Reach, Lots, TakesOff, CheckNewOrder, WalkSpeech;
    var t, q := NewTaker(m), s.book.Of(m.side.Opposite());
    InvValid(s);
    NewSpeaks(s, m);
    WalkLeftover(q, t, m.qty, s.nextTrade);
    WalkFinds(s.book, t, m.qty, s.nextTrade, m.id);
    MatchResidual(s.book, t, s.nextTrade);
  }

  // -------------------------------------------------------------------------
  // Replaces
  // -------------------------------------------------------------------------

  function ReplaceAck(id: OrderId, account: AccountId, qty: Qty): Body {
    Report(ExecReport(id, account, Replaced, None, None, Some(qty), None, Some(Superseded)))
  }

  /** What closes a replacement with `left` lots over: silence, if they rest. */
  function ReplaceClosing(id: OrderId, account: AccountId, left: nat, stopped: bool, capped: bool): seq<Body> {
    if left == 0 then []
    else if stopped then
      [Report(ExecReport(id, account, Cancelled, None, None, None, None, Some(SelfTrade)))]
    else if capped then
      [Report(ExecReport(id, account, Rejected, None, None, None, Some(MaxNotional), None))]
    else []
  }

  /** The leftover, at the new price, takes the account's exposure over the cap once the
      old order's is off. */
  predicate OverCap(b: FlatBook, o: Resting, price: Price, left: nat) {
    Exposure(b, o.account) - o.price * o.qty + price * left > 10_000_000_000
  }

  /** Everything a replace that loses priority causes to be said. */
  function ReplaceSpeech(b: FlatBook, o: Resting, price: Price, qty: Qty, trade: nat): seq<Body> {
    var q, t := b.Of(o.side.Opposite()), TakerOf(o, price, qty);
    var left := SatSub(qty, Lots(q[..Reach(q, t)]));
    [ReplaceAck(o.id, o.account, qty)] + WalkSpeech(q, t, qty, trade)
    + ReplaceClosing(o.id, o.account, left, Stopped(q, t, qty), OverCap(b, o, price, left))
  }

  lemma RestReplacedSpeaks(
    s: EngineState, id: OrderId, account: AccountId, side: Side, price: Price, stp: bool, left: nat)
    requires left <= U64_MAX && (stp ==> left > 0)
    ensures RestReplaced(s, id, account, side, price, stp, left).ev ==
      if stp then [CancelledReport(id, account, SelfTrade)]
      else if left == 0 then []
      else
        match CheckCaps(s.ledger.risk.StateOf(account), NotionalOf(price, QtyOf(left).value))
        case Some(reason) => [RejectedReport(id, account, reason)]
        case None => []
  {
    hide CheckCaps, NotionalOf, OnOrderResting, Cancel;
  }

  lemma ReplaceTranscript(s: EngineState, id: OrderId, account: AccountId, price: Price, qty: Qty)
    requires Inv(s) && s.book.arrivals < U64_MAX && Rewalks(s, id, account, price, qty)
    ensures HandleReplace(s, id, account, price, qty).ev
         == ReplaceSpeech(s.book, Lookup(s.book)[id], price, qty, s.nextTrade)
  {
    hide Valid, Uncrossed, Agrees, Lookup, Settle, Retire, Rest, Walk, WouldCross, Cancel, Replace, RestReplaced,
         CheckCancelReplace, KeepsPriority, CheckCaps, WalkSpeech, Reach, Lots, Exposure;
    var o, c := Lookup(s.book)[id], Cancel(s.book, {id});
    var t := TakerOf(o, price, qty);
    var m := Match(c, t, s.nextTrade);
    var q := s.book.Of(o.side.Opposite());
    MirrorEntry(s, id);
    RestingAt(s.book, id);
    CancelOtherSide(s.book, id);
    CancelValid(s.book, {id});
    RetireKeeps(s.ledger, s.book, id);
    ReplaceCommits(s.book, id, price, qty, s.nextTrade);
    WalkLeftover(q, t, qty, s.nextTrade);
    SettleSpeaks(Retire(s.ledger, id), c, t, qty, s.nextTrade);
    ReplaceCapExact(s, id, price, qty);
    var settled := Settle(Retire(s.ledger, id), m.fills, m.stp, account, qty);
    var r := Replace(s.book, id, price, qty, s.nextTrade);
    var s' := EngineState(r.book, settled.ledger, s.nextTrade + |m.fills|);
    RestReplacedSpeaks(s', id, account, o.side, price, m.stp != [], m.left);
  }

  /** A replace that keeps its place is acknowledged and nothing else is said. */
  lemma InPlaceTranscript(s: EngineState, id: OrderId, account: AccountId, price: Price, qty: Qty)
    requires Inv(s) && CheckCancelReplace(s.ledger.risk, price, qty).None? && !Foreign(s.ledger, id, account)
    requires id in Lookup(s.book) && KeepsPriority(Lookup(s.book)[id], price, qty)
    ensures HandleReplace(s, id, account, price, qty).ev == [ReplaceAck(id, account, qty)]
  {
    hide Valid, Uncrossed, Agrees, Settle, Retire, OnOrderResting, CheckCaps, Lookup, SetQty, CheckCancelReplace;
    var e := ReplacedReport(id, account, qty);
    MirrorEntry(s, id);
    InPlaceFits(s.ledger, s.book, id, qty);
    SettleNothing(Retire(s.ledger, id), account, qty);
    assert [e] + [] + [] == [e];
  }

  // -------------------------------------------------------------------------
  // Cancels and snapshots
  // -------------------------------------------------------------------------

  /** The order and account a command speaks for; a mass cancel answers under id 1. */
  function Sender(cmd: Inbound): (OrderId, AccountId) {
    match cmd
    case New(m) => (m.id, m.account)
    case CancelOne(id, account) => (id, account)
    case CancelReplace(id, account, _, _) => (id, account)
    case MassCancelAll(account) => (1, account)
    case _ => (1, 1)
  }

  /** The account rests the order. */
  predicate Owns(b: FlatBook, id: OrderId, account: AccountId) {
    id in Lookup(b) && Lookup(b)[id].account == account
  }

  /** The answer to a cancel depends on the id only through whether the account rests it:
      somebody else's order and no order at all are refused with the same words. */
  lemma CancelAnswers(s: EngineState, id: OrderId, account: AccountId)
    requires Inv(s) && !s.ledger.risk.killSwitch
    ensures var h := HandleCancel(s, id, account);
      if Owns(s.book, id, account) then
        && h.ev == [Report(ExecReport(id, account, Cancelled, None, None, None, None, Some(UserRequested)))]
        && h.s.book == FlatBook(Without(s.book.bids, {id}), Without(s.book.asks, {id}), s.book.arrivals)
      else
        h == Out(s, [Report(ExecReport(id, account, Rejected, None, None, None, Some(UnknownOrderId), None))])
  {
    hide Inv, Lookup, Without, Retire;
    MirrorEntry(s, id);
  }

  /** A mass cancel reports each resting order of the account, and no other, in ascending
      id, and leaves the other accounts' queues as they were. */
  lemma MassCancelAnswers(s: EngineState, account: AccountId)
    requires Inv(s) && !s.ledger.risk.killSwitch
    ensures var h := HandleMassCancel(s, account);
      && (forall i :: 0 <= i < |h.ev| ==>
            && h.ev[i].Report?
            && h.ev[i] == Report(ExecReport(h.ev[i].report.id, account, Cancelled, None, None, None, None,
                Some(MassCancelled)))
            && Owns(s.book, h.ev[i].report.id, account))
      && (forall i, j :: 0 <= i < j < |h.ev| ==> h.ev[i].report.id < h.ev[j].report.id)
      && (forall id :: Owns(s.book, id, account) ==> CancelledReport(id, account, MassCancelled) in h.ev)
      && h.s.book == FlatBook(Others(s.book.bids, account), Others(s.book.asks, account), s.book.arrivals)
  {
    InvValid(s);
    hide Inv, Valid, Lookup, MassRecords, RetireAll, Others;
    var cs := MassRecords(s.book, account);
    var h := HandleMassCancel(s, account);
    LookupFacts(s.book);
    MassRecordsAscend(s.book, account);
    MassCancelFilters(s.book, account);
    RetireAllAt(s.ledger, cs, MassCancelled);
    forall i | 0 <= i < |cs| ensures Owns(s.book, cs[i].id, account) && cs[i].account == account {
      assert cs[i] in cs;
      MassRecordsExact(s.book, account, cs[i]);
    }
    forall id | Owns(s.book, id, account) ensures CancelledReport(id, account, MassCancelled) in h.ev {
      var c := CancellationOf(Lookup(s.book)[id]);
      RestingAt(s.book, id);
      MassRecordsExact(s.book, account, c);
      var i :| 0 <= i < |cs| && cs[i] == c;
      assert h.ev[i] == CancelledReport(id, account, MassCancelled);
    }
  }

  lemma {:induction false} RetireAllAt(l: Ledger, cs: seq<Cancellation>, reason: CancelReason)
    ensures var ev := RetireAll(l, cs, reason).ev;
      && |ev| == |cs|
      && forall i :: 0 <= i < |cs| ==> ev[i] == CancelledReport(cs[i].id, cs[i].account, reason)
    decreases cs
  {
    if cs != [] { RetireAllAt(Retire(l, cs[0].id), cs[1..], reason); }
  }

  /** A snapshot request is answered with one message under its own id: both sides best
      price first, every price once, with the total resting there. */
  lemma SnapshotAnswers(s: EngineState, requestId: nat, p: Price)
    requires Valid(s.book)
    ensures var d := Step(s, SnapshotRequest(requestId));
      && d.s == s && |d.ev| == 1 && d.ev[0].Snapshot? && d.ev[0].requestId == requestId
      && (forall i, j :: 0 <= i < j < |d.ev[0].bids| ==> d.ev[0].bids[i].price > d.ev[0].bids[j].price)
      && (forall i, j :: 0 <= i < j < |d.ev[0].asks| ==> d.ev[0].asks[i].price < d.ev[0].asks[j].price)
      && (forall r :: r in d.ev[0].bids || r in d.ev[0].asks ==> r.qty > 0)
      && RungQty(d.ev[0].bids, p) == Total(s.book.bids, AtPrice(p))
      && RungQty(d.ev[0].asks, p) == Total(s.book.asks, AtPrice(p))
  {
    DepthLaddered(Bid, s.book.bids);
    DepthLaddered(Ask, s.book.asks);
    DepthTotals(Bid, s.book.bids, p);
    DepthTotals(Ask, s.book.asks, p);
    hide Valid, Depth, Total, RungQty;
  }
}
