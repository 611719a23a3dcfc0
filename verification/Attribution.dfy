/** Whose name is on what: every report goes to the owner of its order or to the sender of
    the command, and every trade names its maker, its taker and its aggressor. */
module Attribution {
  import opened Domain
  import opened PriceTime
  import opened QueueLaws
  import opened WalkLaws
  import opened BookLaws
  import opened Messages
  import opened Risk
  import opened EngineSpec
  import opened EngineInvariants
  import opened EngineSafety
  import opened MarketData
  import opened Reports
  import opened Transcripts

  // -------------------------------------------------------------------------
  // One walk
  // -------------------------------------------------------------------------

  /** The report answers `id` of `account`, or tells the owner of a resting order. */
  predicate Addressed(e: Body, b: FlatBook, id: OrderId, account: AccountId) {
    e.Report? ==>
      || (e.report.id == id && e.report.account == account)
      || (e.report.state != Rejected && Owns(b, e.report.id, e.report.account))
  }

  ghost predicate AllAddressed(ev: seq<Body>, b: FlatBook, id: OrderId, account: AccountId) {
    forall e :: e in ev ==> Addressed(e, b, id, account)
  }

  /** A print is at the price of a maker that rested on the other side before the command;
      the report behind it goes to that maker's owner, the next to the taker. */
  predicate AttributedAt(ev: seq<Body>, i: nat, b: FlatBook, t: Taker)
    requires i < |ev|
  {
    ev[i].Trade? ==>
      && i + 2 < |ev| && ev[i + 1].Report? && ev[i + 2].Report?
      && ev[i].aggressor == t.side
      && (var maker := ev[i + 1].report;
          && maker.id in Lookup(b)
          && var o := Lookup(b)[maker.id];
             o.account == maker.account && o.account != t.account && o.side != t.side && o.price == ev[i].price)
      && ev[i + 2].report.id == t.id && ev[i + 2].report.account == t.account
  }

  ghost predicate Attributed(ev: seq<Body>, b: FlatBook, t: Taker) {
    forall i :: 0 <= i < |ev| ==> AttributedAt(ev, i, b, t)
  }

  lemma AttributedAppend(x: seq<Body>, y: seq<Body>, b: FlatBook, t: Taker)
    requires Attributed(x, b, t) && Attributed(y, b, t)
    ensures Attributed(x + y, b, t)
  {
    hide Lookup;
    forall i | 0 <= i < |x + y| ensures AttributedAt(x + y, i, b, t) {
      if i < |x| { assert AttributedAt(x, i, b, t); } else { assert AttributedAt(y, i - |x|, b, t); }
    }
  }

  lemma AttributedQuiet(ev: seq<Body>, b: FlatBook, t: Taker)
    requires forall e :: e in ev ==> !e.Trade?
    ensures Attributed(ev, b, t)
  {
    forall i | 0 <= i < |ev| ensures AttributedAt(ev, i, b, t) { assert ev[i] in ev; }
  }

  lemma OnOtherSide(b: FlatBook, t: Taker, i: nat)
    requires Valid(b) && i < |b.Of(t.side.Opposite())|
    ensures var o := b.Of(t.side.Opposite())[i];
      Owns(b, o.id, o.account) && Lookup(b)[o.id] == o && o.side == t.side.Opposite()
  {
    LookupFacts(b);
    assert b.Of(t.side.Opposite())[i] in b.Of(t.side.Opposite());
  }

  lemma {:induction false} SpeechesName(b: FlatBook, t: Taker, left: nat, trade: nat, i: nat)
    requires Valid(b) && i <= Reach(b.Of(t.side.Opposite()), t)
    ensures var q := b.Of(t.side.Opposite());
      var ev := FillSpeeches(q, t, left, trade, i, Reach(q, t));
      AllAddressed(ev, b, t.id, t.account) && Attributed(ev, b, t)
    decreases Reach(b.Of(t.side.Opposite()), t) - i
  {
    hide Valid, Lookup, Lots;
    var q := b.Of(t.side.Opposite());
    var n := Reach(q, t);
    if i < n {
      SpeechesName(b, t, left, trade, i + 1);
      OnOtherSide(b, t, i);
      var ev := FillSpeech(q, t, left, trade, i);
      assert Attributed(ev, b, t);
      AttributedAppend(ev, FillSpeeches(q, t, left, trade, i + 1, n), b, t);
    }
  }

  lemma WalkNames(b: FlatBook, t: Taker, left: nat, trade: nat)
    requires Valid(b)
    ensures var ev := WalkSpeech(b.Of(t.side.Opposite()), t, left, trade);
      AllAddressed(ev, b, t.id, t.account) && Attributed(ev, b, t)
  {
    hide Valid, FillSpeeches, Attributed;
    var q := b.Of(t.side.Opposite());
    SpeechesName(b, t, left, trade, 0);
    if Reach(q, t) < |q| { OnOtherSide(b, t, Reach(q, t)); }
    AttributedQuiet(StopSpeech(q, t, left), b, t);
    AttributedAppend(FillSpeeches(q, t, left, trade, 0, Reach(q, t)), StopSpeech(q, t, left), b, t);
  }

  // -------------------------------------------------------------------------
  // Handlers
  // -------------------------------------------------------------------------

  lemma NewNames(s: EngineState, m: NewOrder)
    requires Inv(s)
    ensures var ev := HandleNew(s, m).ev;
      AllAddressed(ev, s.book, m.id, m.account) && Attributed(ev, s.book, NewTaker(m))
  {
    hide Valid, Uncrossed, Agrees, Settle, Walk, CheckNewOrder, Rest, RestError, CheckCaps, OnOrderResting,
         OnOrderRemoved, NotionalOf, WalkSpeech, Attributed, Lookup;
    var t := NewTaker(m);
    var w := Match(s.book, t, s.nextTrade);
    if CheckNewOrder(s.ledger.risk, m, BestPrice(s.book.Of(m.side.Opposite()))).None? && !w.postOnlyRejected {
      var settled := Settle(s.ledger, w.fills, w.stp, m.account, m.qty);
      var d := Dispose(EngineState(w.book, settled.ledger, s.nextTrade + |w.fills|), m, w.stp != [], w.left);
      SettleSpeaks(s.ledger, s.book, t, m.qty, s.nextTrade);
      WalkNames(s.book, t, m.qty, s.nextTrade);
      AttributedQuiet(d.ev, s.book, t);
      AttributedAppend(settled.ev, d.ev, s.book, t);
    } else {
      AttributedQuiet(HandleNew(s, m).ev, s.book, t);
    }
  }

  lemma RewalkNames(s: EngineState, id: OrderId, account: AccountId, price: Price, qty: Qty)
    requires Inv(s) && s.book.arrivals < U64_MAX && Rewalks(s, id, account, price, qty)
    ensures var ev, o := HandleReplace(s, id, account, price, qty).ev, Lookup(s.book)[id];
      AllAddressed(ev, s.book, id, account) && Attributed(ev, s.book, TakerOf(o, price, qty))
  {
    hide Valid, Uncrossed, Agrees, Lookup, HandleReplace, CheckCancelReplace, WouldCross, WalkSpeech, Attributed,
         Reach, Lots, Exposure, KeepsPriority, OverCap;
    var o := Lookup(s.book)[id];
    var t, q := TakerOf(o, price, qty), s.book.Of(o.side.Opposite());
    MirrorEntry(s, id);
    RestingAt(s.book, id);
    ReplaceTranscript(s, id, account, price, qty);
    WalkNames(s.book, t, qty, s.nextTrade);
    var left := SatSub(qty, Lots(q[..Reach(q, t)]));
    var ack, mid := [ReplaceAck(id, account, qty)], WalkSpeech(q, t, qty, s.nextTrade);
    var last := ReplaceClosing(id, account, left, Stopped(q, t, qty), OverCap(s.book, o, price, left));
    AttributedQuiet(ack, s.book, t);
    AttributedQuiet(last, s.book, t);
    AttributedAppend(ack, mid, s.book, t);
    AttributedAppend(ack + mid, last, s.book, t);
  }

  lemma ReplaceNames(s: EngineState, id: OrderId, account: AccountId, price: Price, qty: Qty)
    requires Inv(s) && s.book.arrivals < U64_MAX
    ensures var ev := HandleReplace(s, id, account, price, qty).ev;
      && AllAddressed(ev, s.book, id, account)
      && (Rewalks(s, id, account, price, qty) ==> Attributed(ev, s.book, TakerOf(Lookup(s.book)[id], price, qty)))
      && (!Rewalks(s, id, account, price, qty) ==> |ev| == 1 && ev[0].Report? && ev[0].report.account == account)
  {
    hide Inv, Lookup, WouldCross, Match, CheckCancelReplace, CommitReplace, Attributed;
    MirrorEntry(s, id);
    if Rewalks(s, id, account, price, qty) {
      RewalkNames(s, id, account, price, qty);
    } else if CheckCancelReplace(s.ledger.risk, price, qty).None? && !Foreign(s.ledger, id, account)
      && id in Lookup(s.book) && KeepsPriority(Lookup(s.book)[id], price, qty)
    {
      InPlaceTranscript(s, id, account, price, qty);
    }
  }

  // -------------------------------------------------------------------------
  // Steps
  // -------------------------------------------------------------------------

  lemma StepAddressed(s: EngineState, cmd: Inbound)
    requires Inv(s) && s.book.arrivals < U64_MAX
    ensures AllAddressed(Step(s, cmd).ev, s.book, Sender(cmd).0, Sender(cmd).1)
  {
    hide Inv, HandleNew, HandleReplace, Tail, RetireAll, MassRecords, Lookup, Cancel, Retire;
    var h := Handle(s, cmd);
    TailKinds(s.book, h.s.book, cmd);
    match cmd
    case New(m) => NewNames(s, m);
    case CancelReplace(id, account, price, qty) => ReplaceNames(s, id, account, price, qty);
    case MassCancelAll(account) =>
      if !s.ledger.risk.killSwitch {
        MassCancelAnswers(s, account);
        forall e | e in h.ev ensures Addressed(e, s.book, 1, account) {
          var i :| 0 <= i < |h.ev| && h.ev[i] == e;
        }
      }
    case _ =>
  }

  /** Every report of a step about an order that rested before it goes to that order's
      owner, unless it refuses the command or answers a new order that reuses the id;
      and a report about any other order answers the command, under its id and account. */
  lemma ReportsReachOwners(s: EngineState, cmd: Inbound, e: Body)
    requires Inv(s) && s.book.arrivals < U64_MAX && e in Step(s, cmd).ev && e.Report?
    ensures var r := e.report;
      if r.id in Lookup(s.book) && r.state != Rejected && !Reuses(s, cmd, r.id)
      then r.account == Lookup(s.book)[r.id].account
      else (r.id, r.account) == Sender(cmd) || (Reuses(s, cmd, r.id) && Owns(s.book, r.id, r.account))
  {
    hide Inv, Lookup, Tail, HandleNew, HandleReplace, HandleMassCancel;
    StepAddressed(s, cmd);
    assert Addressed(e, s.book, Sender(cmd).0, Sender(cmd).1);
    MirrorEntry(s, e.report.id);
    TailKinds(s.book, Handle(s, cmd).s.book, cmd);
    match cmd
    case CancelReplace(id, account, price, qty) => ReplaceOwned(s, id, account, price, qty, e);
    case MassCancelAll(account) =>
      if !s.ledger.risk.killSwitch { MassOwned(s, account, e); } else { MassHalted(s, account, e); }
    case _ =>
  }

  lemma MassOwned(s: EngineState, account: AccountId, e: Body)
    requires Inv(s) && !s.ledger.risk.killSwitch && e in HandleMassCancel(s, account).ev
    ensures e.Report? && e.report.state == Cancelled && Owns(s.book, e.report.id, e.report.account)
  {
    hide Inv, Lookup, HandleMassCancel;
    MassCancelAnswers(s, account);
    var ev := HandleMassCancel(s, account).ev;
    var i :| 0 <= i < |ev| && ev[i] == e;
  }

  lemma MassHalted(s: EngineState, account: AccountId, e: Body)
    requires s.ledger.risk.killSwitch && e in HandleMassCancel(s, account).ev
    ensures e.Report? && e.report.state == Rejected && e.report.id == 1 && e.report.account == account
  {
  }

  /** A replace that is not refused belongs to the order's owner. */
  lemma ReplaceOwned(s: EngineState, id: OrderId, account: AccountId, price: Price, qty: Qty, e: Body)
    requires Inv(s) && s.book.arrivals < U64_MAX && e in HandleReplace(s, id, account, price, qty).ev && e.Report?
    ensures e.report.state != Rejected && id in Lookup(s.book) ==> Lookup(s.book)[id].account == account
  {
    hide Inv, Lookup, Replace, CommitReplace, CheckCancelReplace;
    MirrorEntry(s, id);
  }

  /** The taker a command sends into the book. */
  ghost function TakerIn(s: EngineState, cmd: Inbound): Taker
    requires cmd.New? || (cmd.CancelReplace? && cmd.id in Lookup(s.book))
  {
    if cmd.New? then NewTaker(cmd.order) else TakerOf(Lookup(s.book)[cmd.id], cmd.price, cmd.qty)
  }

  /** Only new orders and replaces of resting orders trade.  Each print names the side of
      the order that came in, and is at the price of a maker of another account that rested
      on the other side; the report behind it goes to that maker's owner under its id, the
      next to the command's account under the command's id. */
  lemma TradesAttributed(s: EngineState, cmd: Inbound, i: nat)
    requires Inv(s) && s.book.arrivals < U64_MAX
    requires i < |Step(s, cmd).ev| && Step(s, cmd).ev[i].Trade?
    ensures cmd.New? || (cmd.CancelReplace? && Rewalks(s, cmd.id, cmd.account, cmd.price, cmd.qty))
    ensures AttributedAt(Step(s, cmd).ev, i, s.book, TakerIn(s, cmd))
  {
    hide Inv, Lookup, HandleNew, HandleReplace, Tail, RetireAll, MassRecords, Rewalks, Attributed, AttributedAt, Cancel;
    var h := Handle(s, cmd);
    var tail := Tail(s.book, h.s.book, cmd);
    TailKinds(s.book, h.s.book, cmd);
    assert forall k :: 0 <= k < |tail| ==> tail[k] in tail;
    assert i < |h.ev|;
    assert h.ev[i] in h.ev && h.ev[i].Trade?;
    match cmd
    case New(m) =>
      NewNames(s, m);
      StillAttributed(h.ev, tail, i, s.book, NewTaker(m));
    case CancelReplace(id, account, price, qty) =>
      ReplaceNames(s, id, account, price, qty);
      InTheBook(s, id, account, price, qty);
      StillAttributed(h.ev, tail, i, s.book, TakerOf(Lookup(s.book)[id], price, qty));
    case MassCancelAll(account) =>
      if !s.ledger.risk.killSwitch { RetireAllSays(s.ledger, MassRecords(s.book, account), MassCancelled); }
    case _ =>
  }

  lemma InTheBook(s: EngineState, id: OrderId, account: AccountId, price: Price, qty: Qty)
    requires Rewalks(s, id, account, price, qty)
    ensures id in Lookup(s.book)
  {
  }

  lemma StillAttributed(ev: seq<Body>, tail: seq<Body>, i: nat, b: FlatBook, t: Taker)
    requires Attributed(ev, b, t) && i < |ev| && forall e :: e in tail ==> !e.Trade?
    ensures AttributedAt(ev + tail, i, b, t)
  {
    hide Lookup;
    AttributedQuiet(tail, b, t);
    AttributedAppend(ev, tail, b, t);
  }
}
