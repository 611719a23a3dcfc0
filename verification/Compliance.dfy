/** Promises of the message stream and of the risk layer that hold at every step of
    every run. */
module Compliance {
  import opened Domain
  import opened PriceTime
  import opened QueueLaws
  import opened WalkLaws
  import opened BookLaws
  import opened Messages
  import opened Risk
  import opened EngineSpec
  import opened EngineInvariants
  import opened EngineSafety
  import opened ExecCodec
  import opened MarketData
  import opened Reports

  // -------------------------------------------------------------------------
  // Trades are paired with reports of two different accounts, and every report encodes
  // -------------------------------------------------------------------------

  predicate IsFillOf(e: Body, t: Body) {
    && t.Trade? && e.Report? && e.report.state in {PartiallyFilled, Filled}
    && e.report.fillPrice == Some(t.price) && e.report.fillQty == Some(t.qty)
  }

  /** A trade print is followed by the two fill reports of its sides, whose accounts differ. */
  predicate PairedAt(ev: seq<Body>, i: nat)
    requires i < |ev|
  {
    ev[i].Trade? ==>
      && i + 2 < |ev|
      && IsFillOf(ev[i + 1], ev[i]) && IsFillOf(ev[i + 2], ev[i])
      && ev[i + 1].report.account != ev[i + 2].report.account
  }

  ghost predicate Paired(ev: seq<Body>) { forall i :: 0 <= i < |ev| ==> PairedAt(ev, i) }

  /** The report encodes, and decodes to itself but for a replace ack's leaves. */
  predicate Survives(r: ExecReport) {
    Encodable(r) && Canonical(r) == if r.state.Replaced? then r.(leaves := None) else r
  }

  ghost predicate Reportable(ev: seq<Body>) { forall e :: e in ev && e.Report? ==> Survives(e.report) }

  /** Lots on the trade prints of a stream. */
  function TradedLots(ev: seq<Body>): nat {
    if ev == [] then 0 else (if ev[0].Trade? then ev[0].qty else 0) + TradedLots(ev[1..])
  }

  function FillOn(e: Body): nat { if e.Report? && e.report.fillQty.Some? then e.report.fillQty.value else 0 }

  /** Lots on the fill reports of a stream. */
  function ReportedLots(ev: seq<Body>): nat {
    if ev == [] then 0 else FillOn(ev[0]) + ReportedLots(ev[1..])
  }

  /** Trades are reported to two accounts, nothing else is reported as a fill, and every
      report survives the wire. */
  ghost predicate Sound(ev: seq<Body>) {
    Paired(ev) && Reportable(ev) && ReportedLots(ev) == 2 * TradedLots(ev)
  }

  lemma {:induction false} LotsAppend(a: seq<Body>, b: seq<Body>)
    ensures TradedLots(a + b) == TradedLots(a) + TradedLots(b)
    ensures ReportedLots(a + b) == ReportedLots(a) + ReportedLots(b)
  {
    if a == [] {
      assert a + b == b;
    } else {
      assert (a + b)[1..] == a[1..] + b;
      LotsAppend(a[1..], b);
    }
  }

  lemma {:induction false} NoLotsIn(ev: seq<Body>)
    requires forall e :: e in ev ==> !e.Trade? && FillOn(e) == 0
    ensures TradedLots(ev) == 0 && ReportedLots(ev) == 0
  {
    if ev != [] {
      assert ev[0] in ev;
      NoLotsIn(ev[1..]);
    }
  }

  lemma SoundAppend(a: seq<Body>, b: seq<Body>)
    requires Sound(a) && Sound(b)
    ensures Sound(a + b)
  {
    LotsAppend(a, b);
    forall i | 0 <= i < |a + b| ensures PairedAt(a + b, i) {
      if i < |a| { assert PairedAt(a, i); } else { assert PairedAt(b, i - |a|); }
    }
  }

  /** Messages without a trade or a fill are sound as soon as their reports survive. */
  lemma SoundQuiet(ev: seq<Body>)
    requires forall e :: e in ev ==> !e.Trade? && FillOn(e) == 0 && (e.Report? ==> Survives(e.report))
    ensures Sound(ev)
  {
    NoLotsIn(ev);
    forall i | 0 <= i < |ev| ensures PairedAt(ev, i) { assert ev[i] in ev; }
  }

  lemma FillEventsSound(l: Ledger, b: FlatBook, side: Side, f: Fill, taker: AccountId, left: nat)
    requires Valid(b) && Agrees(l, b) && b.Of(side) != [] && left <= U64_MAX
    requires var h := b.Of(side)[0];
      f.maker == h.id && f.price == h.price && f.qty <= h.qty && f.makerFilled == (f.qty == h.qty) && h.account != taker
    ensures Sound(FillEvents(l, f, taker, left))
  {
    hide Valid, Agrees, Lookup;
    var h := b.Of(side)[0];
    HeadResting(b, side);
    AgreedEntry(l, b, h.id);
    var ev := FillEvents(l, f, taker, left);
    assert Survives(ev[1].report) && Survives(ev[2].report);
    assert PairedAt(ev, 0);
    ThreeLots(ev[0], ev[1], ev[2]);
    assert ev == [ev[0]] + [ev[1]] + [ev[2]];
  }

  lemma ThreeLots(a: Body, b: Body, c: Body)
    ensures ReportedLots([a] + [b] + [c]) == FillOn(a) + FillOn(b) + FillOn(c)
    ensures a.Trade? && !b.Trade? && !c.Trade? ==> TradedLots([a] + [b] + [c]) == a.qty
  {
    LotsAppend([a], [b]);
    LotsAppend([a] + [b], [c]);
    assert [a][1..] == [] && [b][1..] == [] && [c][1..] == [];
    assert TradedLots([b]) == (if b.Trade? then b.qty else 0) && TradedLots([c]) == (if c.Trade? then c.qty else 0);
  }

  lemma {:induction false} SettleSound(l: Ledger, b: FlatBook, t: Taker, left: nat, trade: nat)
    requires Valid(b) && Agrees(l, b) && left <= U64_MAX
    ensures var w := Walk(b.Of(t.side.Opposite()), t, left, trade);
      Sound(Settle(l, w.fills, w.stp, t.account, left).ev)
    decreases |b.Of(t.side.Opposite())|
  {
    hide Valid, Agrees, Lookup, Settle, SettleFill, FillEvents, Sound;
    var side := t.side.Opposite();
    var q := b.Of(side);
    var w := Walk(q, t, left, trade);
    if left == 0 || q == [] || !Crosses(t.side, t.price, q[0].price) {
      SettleNothing(l, t.account, left);
      SoundQuiet([]);
    } else if q[0].account == t.account {
      SettleDrop(l, CancellationOf(q[0]), t.account, left);
      SoundQuiet([CancelledReport(q[0].id, q[0].account, SelfTrade)]);
    } else {
      var f := w.fills[0];
      assert w.fills == [f] + w.fills[1..];
      SettleCons(l, f, w.fills[1..], w.stp, t.account, left);
      FillEventsSound(l, b, side, f, t.account, SatSub(left, f.qty));
      if left >= q[0].qty {
        SettleHeadKeeps(l, b, side, f, t.account);
        assert [] + q[1..] == q[1..];
        FindAfterPop(b, side, t.id);
        SettleSound(SettleFill(l, f), b.With(side, q[1..]), t, left - q[0].qty, trade + 1);
      } else {
        SettleNothing(SettleFill(l, f), t.account, 0);
        SoundQuiet([]);
      }
      SoundAppend(
        FillEvents(l, f, t.account, SatSub(left, f.qty)),
        Settle(SettleFill(l, f), w.fills[1..], w.stp, t.account, SatSub(left, f.qty)).ev);
    }
  }

  lemma MatchSound(l: Ledger, b: FlatBook, t: Taker, trade: nat)
    requires Valid(b) && Agrees(l, b)
    ensures var m := Match(b, t, trade);
      Sound(Settle(l, m.fills, m.stp, t.account, t.qty).ev)
  {
    hide Valid, Agrees, Settle, Walk, WouldCross, Sound;
    SettleSound(l, b, t, t.qty, trade);
    SettleNothing(l, t.account, t.qty);
    SoundQuiet([]);
  }

  lemma {:induction false} RetireAllSound(l: Ledger, cs: seq<Cancellation>, reason: CancelReason)
    ensures Sound(RetireAll(l, cs, reason).ev)
    decreases cs
  {
    hide Sound, Retire;
    if cs == [] {
      SoundQuiet([]);
    } else {
      RetireAllSound(Retire(l, cs[0].id), cs[1..], reason);
      var e := CancelledReport(cs[0].id, cs[0].account, reason);
      SoundQuiet([e]);
      SoundAppend([e], RetireAll(Retire(l, cs[0].id), cs[1..], reason).ev);
    }
  }

  lemma HandleNewSound(s: EngineState, m: NewOrder)
    requires Inv(s)
    ensures Sound(HandleNew(s, m).ev)
  {
    hide Valid, Uncrossed, Agrees, Settle, Match, CheckNewOrder, Sound, Rest;
    var t, w := NewTaker(m), Match(s.book, NewTaker(m), s.nextTrade);
    MatchSound(s.ledger, s.book, t, s.nextTrade);
    if CheckNewOrder(s.ledger.risk, m, BestPrice(s.book.Of(m.side.Opposite()))).None? && !w.postOnlyRejected {
      var settled := Settle(s.ledger, w.fills, w.stp, m.account, m.qty);
      var d := Dispose(EngineState(w.book, settled.ledger, s.nextTrade + |w.fills|), m, w.stp != [], w.left);
      SoundQuiet(d.ev);
      SoundAppend(settled.ev, d.ev);
    } else {
      SoundQuiet(HandleNew(s, m).ev);
    }
  }

  lemma CommitSound(
    s: EngineState, id: OrderId, account: AccountId, price: Price, qty: Qty,
    fills: seq<Fill>, stp: seq<Cancellation>, dropped: bool, left: nat)
    requires Sound(Settle(Retire(s.ledger, id), fills, stp, account, qty).ev)
    ensures Sound(CommitReplace(s, id, account, price, qty, fills, stp, dropped, left).ev)
  {
    hide Settle, Retire, Sound, Cancel;
    var side := if id in s.ledger.registry then s.ledger.registry[id].side else Bid;
    var settled := Settle(Retire(s.ledger, id), fills, stp, account, qty);
    var d := RestReplaced(s.(ledger := settled.ledger), id, account, side, price, dropped, left);
    var e := ReplacedReport(id, account, qty);
    SoundQuiet([e]);
    SoundQuiet(d.ev);
    SoundAppend([e], settled.ev);
    SoundAppend([e] + settled.ev, d.ev);
  }

  lemma HandleReplaceSound(s: EngineState, id: OrderId, account: AccountId, price: Price, qty: Qty)
    requires Inv(s) && s.book.arrivals < U64_MAX
    ensures Sound(HandleReplace(s, id, account, price, qty).ev)
  {
    hide Inv, Valid, Agrees, CommitReplace, Lookup, WouldCross, Match, CheckCancelReplace, Sound, Settle, Retire,
         Cancel;
    MirrorEntry(s, id);
    InvValid(s);
    var committed :=
      CheckCancelReplace(s.ledger.risk, price, qty).None? && !Foreign(s.ledger, id, account) && id in Lookup(s.book);
    if committed && KeepsPriority(Lookup(s.book)[id], price, qty) {
      CommitInPlaceInv(s, id, price, qty);
      SettleNothing(Retire(s.ledger, id), account, qty);
      SoundQuiet([]);
      var r := Replace(s.book, id, price, qty, s.nextTrade);
      CommitSound(s.(book := r.book, nextTrade := s.nextTrade + |r.fills|), id, account, price, qty, [], [],
          false, qty);
    } else if Rewalks(s, id, account, price, qty) {
      var o, c := Lookup(s.book)[id], Cancel(s.book, {id});
      var m := Match(c, TakerOf(o, price, qty), s.nextTrade);
      ReplaceCommits(s.book, id, price, qty, s.nextTrade);
      CancelValid(s.book, {id});
      RetireKeeps(s.ledger, s.book, id);
      MatchSound(Retire(s.ledger, id), c, TakerOf(o, price, qty), s.nextTrade);
      var r := Replace(s.book, id, price, qty, s.nextTrade);
      CommitSound(s.(book := r.book, nextTrade := s.nextTrade + |r.fills|), id, account, price, qty,
                  m.fills, m.stp, m.stp != [], m.left);
    } else {
      var h := HandleReplace(s, id, account, price, qty);
      assert |h.ev| == 1 && h.ev[0].Report? && FillOn(h.ev[0]) == 0 && Survives(h.ev[0].report);
      SoundQuiet(h.ev);
    }
  }

  /** Each trade of a step is reported to two different accounts, nothing else is reported
      as a fill, and every report of the step survives encoding. */
  lemma StepSound(s: EngineState, cmd: Inbound)
    requires Inv(s) && s.book.arrivals < U64_MAX
    ensures Sound(Step(s, cmd).ev)
  {
    hide Inv, HandleNew, HandleReplace, Tail, Sound, RetireAll, MassRecords;
    var h := Handle(s, cmd);
    match cmd {
      case New(m) => HandleNewSound(s, m);
      case CancelOne(id, account) => SoundQuiet(h.ev);
      case CancelReplace(id, account, price, qty) => HandleReplaceSound(s, id, account, price, qty);
      case MassCancelAll(account) =>
        RetireAllSound(s.ledger, MassRecords(s.book, account), MassCancelled);
        if s.ledger.risk.killSwitch { SoundQuiet(h.ev); }
      case _ => SoundQuiet([]);
    }
    TailKinds(s.book, h.s.book, cmd);
    SoundQuiet(Tail(s.book, h.s.book, cmd));
    SoundAppend(h.ev, Tail(s.book, h.s.book, cmd));
  }

  // -------------------------------------------------------------------------
  // Post-only orders never take
  // -------------------------------------------------------------------------

  /** Everything said is about `id`, and nothing traded. */
  ghost predicate OnlyAbout(ev: seq<Body>, id: OrderId) {
    forall e :: e in ev ==> !e.Trade? && (e.Report? ==> e.report.id == id)
  }

  lemma PostOnlyNewStep(s: EngineState, m: NewOrder)
    requires m.tif.PostOnly?
    ensures NewFills(s, m) == [] && OnlyAbout(HandleNew(s, m).ev, m.id)
  {
    hide CheckNewOrder, Match, Rest;
    PostOnlyNeverTakes(s.book, NewTaker(m), s.nextTrade);
    SettleNothing(s.ledger, m.account, m.qty);
  }

  lemma CommitIdleAbout(
    s: EngineState, id: OrderId, account: AccountId, price: Price, qty: Qty, dropped: bool, left: nat)
    ensures OnlyAbout(CommitReplace(s, id, account, price, qty, [], [], dropped, left).ev, id)
  {
    hide Retire, Settle, Cancel;
    SettleNothing(Retire(s.ledger, id), account, qty);
  }

  lemma PostOnlyReplaceStep(s: EngineState, id: OrderId, account: AccountId, price: Price, qty: Qty)
    requires id in Lookup(s.book) && Lookup(s.book)[id].tif.PostOnly?
    ensures ReplaceFills(s, id, account, price, qty) == []
    ensures OnlyAbout(HandleReplace(s, id, account, price, qty).ev, id)
  {
    hide CheckCancelReplace, Match, Rest, CommitReplace, Lookup, OnlyAbout;
    var o, r := Lookup(s.book)[id], Replace(s.book, id, price, qty, s.nextTrade);
    PostOnlyNeverTakes(Cancel(s.book, {id}), TakerOf(o, price, qty), s.nextTrade);
    var s' := s.(book := r.book, nextTrade := s.nextTrade + |r.fills|);
    if r.outcome.Ok? && r.outcome.value.Walked? {
      CommitIdleAbout(s', id, account, price, qty, false, r.outcome.value.m.left);
    }
    CommitIdleAbout(s', id, account, price, qty, false, qty);
    OneAbout(HandleReplace(s, id, account, price, qty).ev, id);
  }

  lemma OneAbout(ev: seq<Body>, id: OrderId)
    ensures |ev| == 1 && ev[0].Report? && ev[0].report.id == id ==> OnlyAbout(ev, id)
  {
  }

  // -------------------------------------------------------------------------
  // Caps
  // -------------------------------------------------------------------------

  predicate CapReject(e: Body) {
    e.Report? && e.report.reject in {Some(MaxOpenOrders), Some(MaxNotional)}
  }

  /** A decodable new order that passed the pre-trade check is never refused by the caps
      when its leftover comes to rest. */
  lemma AdmittedNeverCapped(s: EngineState, m: NewOrder)
    requires Inv(s) && Decodable(m)
    requires CheckNewOrder(s.ledger.risk, m, BestPrice(s.book.Of(m.side.Opposite()))).None?
    ensures forall e :: e in HandleNew(s, m).ev ==> !CapReject(e)
  {
    hide Valid, Uncrossed, Agrees, Settle, Match, Rest, OnOrderResting, OnOrderRemoved, NotionalOf, RestError,
         CheckNewOrder;
    var w := Match(s.book, NewTaker(m), s.nextTrade);
    SettleSays(s.ledger, w.fills, w.stp, m.account, m.qty);
    AdmittedFits(s, m);
  }

  /** What the caps say to a replace's leftover: never `MaxOpenOrders`, and `MaxNotional`
      exactly when the account's exposure, with the old order's notional swapped for the
      leftover's, exceeds the cap. */
  lemma ReplaceCapExact(s: EngineState, id: OrderId, price: Price, qty: Qty)
    requires Inv(s) && id in Lookup(s.book)
    ensures var o, c := Lookup(s.book)[id], Cancel(s.book, {id});
      var m := Match(c, TakerOf(o, price, qty), s.nextTrade);
      var l := Settle(Retire(s.ledger, id), m.fills, m.stp, o.account, qty).ledger;
      m.stp == [] && QtyOf(m.left).Some? ==>
        CheckCaps(l.risk.StateOf(o.account), NotionalOf(price, QtyOf(m.left).value)) ==
          if Exposure(s.book, o.account) - Notional(o) + NotionalOf(price, QtyOf(m.left).value) > MAX_NOTIONAL_PER_ACCT
          then Some(MaxNotional) else None
  {
    hide Valid, Uncrossed, Agrees, Settle, Retire, Match, Lookup, Cancel, Exposure, NotionalOf, Notional;
    var o, c := Lookup(s.book)[id], Cancel(s.book, {id});
    CancelValid(s.book, {id});
    RetireKeeps(s.ledger, s.book, id);
    RetireMakesRoom(s.ledger, s.book, id);
    SettleMatchKeeps(Retire(s.ledger, id), c, TakerOf(o, price, qty), s.nextTrade);
  }

  // -------------------------------------------------------------------------
  // Open-order counts
  // -------------------------------------------------------------------------

  /** A partial fill drops the maker's count although the order still rests. */
  lemma ReduceBreaksExact(l: Ledger, b: FlatBook, o: Resting, f: Fill)
    requires Valid(b) && Agrees(l, b, EXACT) && o in b.Of(o.side)
    requires f.maker == o.id && f.price == o.price && f.qty < o.qty
    ensures !Agrees(Reduce(l, f), b.With(o.side, SetQty(b.Of(o.side), o.id, o.qty - f.qty)), EXACT)
  {
    hide Valid, Lookup, SetQty, Entries, Exposure, NotionalOf, Notional;
    var a, n: Qty := o.account, o.qty - f.qty;
    var c := b.With(o.side, SetQty(b.Of(o.side), o.id, n));
    ResizeLookup(b, o, n);
    AgreedEntry(l, b, o.id, EXACT);
    assert Accounted(l.risk.StateOf(a), b, a, EXACT);
    TotalMember(b.Of(o.side), o, CountOf(a));
    ResizeTotals(b, o, n, CountOf(a));
    assert !Accounted(Reduce(l, f).risk.StateOf(a), c, a, EXACT);
  }

  lemma {:induction false} SettleBreaksExact(l: Ledger, b: FlatBook, t: Taker, left: nat, trade: nat)
    requires Valid(b) && Agrees(l, b, EXACT)
    requires Partials(Walk(b.Of(t.side.Opposite()), t, left, trade).fills) > 0
    ensures var w := Walk(b.Of(t.side.Opposite()), t, left, trade);
      && !Agrees(Settle(l, w.fills, w.stp, t.account, left).ledger, b.With(t.side.Opposite(), w.queue), EXACT)
      && w.left == 0 && w.stp == []
    decreases |b.Of(t.side.Opposite())|
  {
    hide Valid, Agrees, Lookup, Settle, SettleFill, Reduce, Walk;
    var side := t.side.Opposite();
    var q := b.Of(side);
    var w := Walk(q, t, left, trade);
    WalkUnrolls(q, t, left, trade);
    var f := w.fills[0];
    assert w.fills == [f] + w.fills[1..];
    SettleCons(l, f, w.fills[1..], w.stp, t.account, left);
    HeadResting(b, side);
    if left < q[0].qty {
      SettleNothing(SettleFill(l, f), t.account, 0);
      HeadBreaksExact(l, b, side, f);
    } else {
      SettleHeadKeeps(l, b, side, f, t.account, EXACT);
      assert [] + q[1..] == q[1..];
      FindAfterPop(b, side, t.id);
      SettleBreaksExact(SettleFill(l, f), b.With(side, q[1..]), t, left - q[0].qty, trade + 1);
    }
  }

  lemma HeadBreaksExact(l: Ledger, b: FlatBook, side: Side, f: Fill)
    requires Valid(b) && Agrees(l, b, EXACT) && b.Of(side) != []
    requires var h := b.Of(side)[0]; f.maker == h.id && f.price == h.price && f.qty < h.qty && !f.makerFilled
    ensures var q := b.Of(side);
      !Agrees(SettleFill(l, f), b.With(side, [q[0].(qty := q[0].qty - f.qty)] + q[1..]), EXACT)
  {
    hide Valid, Agrees, Reduce, Lookup;
    var h := b.Of(side)[0];
    HeadResting(b, side);
    DistinctSide(b, side);
    FillPriceKeeps(l, b, f.price, EXACT);
    ReduceBreaksExact(l.(risk := OnFill(l.risk, f.price)), b, h, f);
    SetQtyHead(b.Of(side), h.qty - f.qty);
  }

  lemma NewBreaksExact(s: EngineState, m: NewOrder)
    requires Inv(s, EXACT) && Partials(NewFills(s, m)) > 0
    ensures !Inv(HandleNew(s, m).s, EXACT)
  {
    hide Valid, Uncrossed, Agrees, Settle, CheckNewOrder, WouldCross;
    SettleBreaksExact(s.ledger, s.book, NewTaker(m), m.qty, s.nextTrade);
  }

  lemma ReplaceBreaksExact(s: EngineState, id: OrderId, account: AccountId, price: Price, qty: Qty)
    requires Inv(s, EXACT) && s.book.arrivals < U64_MAX
    requires Partials(ReplaceFills(s, id, account, price, qty)) > 0
    ensures !Inv(HandleReplace(s, id, account, price, qty).s, EXACT)
  {
    hide Valid, Uncrossed, Agrees, Settle, Retire, Lookup, CheckCancelReplace, WouldCross, Walk, Cancel, Rest;
    InvWeaken(s, EXACT);
    MirrorEntry(s, id);
    var o, c := Lookup(s.book)[id], Cancel(s.book, {id});
    ReplaceCommits(s.book, id, price, qty, s.nextTrade);
    CancelValid(s.book, {id});
    RetireKeeps(s.ledger, s.book, id, EXACT);
    SettleBreaksExact(Retire(s.ledger, id), c, TakerOf(o, price, qty), qty, s.nextTrade);
  }

  /** Exact open-order counts survive a step if and only if the command's quantity does
      not run out inside a maker in reach. */
  lemma ExactIffNoPartialFill(s: EngineState, cmd: Inbound)
    requires Inv(s, EXACT) && s.book.arrivals < U64_MAX
    ensures Inv(Step(s, cmd).s, EXACT) <==> !FillsPartly(s, cmd)
  {
    hide Inv, HandleNew, HandleReplace, NewFills, ReplaceFills, HandleCancel, HandleMassCancel, FillsPartly;
    InvWeaken(s, EXACT);
    HandleInv(s, cmd, EXACT);
    StepPartials(s, cmd);
    if FillsPartly(s, cmd) {
      match cmd
      case New(m) => NewBreaksExact(s, m);
      case CancelReplace(id, account, price, qty) => ReplaceBreaksExact(s, id, account, price, qty);
      case _ =>
    }
  }

  // -------------------------------------------------------------------------
  // Side totals
  // -------------------------------------------------------------------------

  lemma {:induction false} ProductCovers(a: nat, b: nat)
    requires a >= 1
    ensures b <= a * b
  {
    if a > 1 {
      ProductCovers(a - 1, b);
      assert a * b == (a - 1) * b + b;
    }
  }

  lemma QtyWithinNotional(o: Resting)
    ensures o.qty <= Notional(o)
  {
    ProductCovers(o.price, o.qty);
  }

  lemma TotalCons(o: Resting, q: seq<Resting>, w: Resting -> nat)
    ensures Total([o] + q, w) == w(o) + Total(q, w)
  {
    assert ([o] + q)[1..] == q;
  }

  /** An account's lots are at most its exposure: every price is at least one tick. */
  lemma {:induction false} LotsSplit(q: seq<Resting>, a: AccountId)
    ensures Lots(q) <= Lots(Others(q, a)) + Total(q, ExposureOf(a))
  {
    hide Notional;
    if q != [] {
      LotsSplit(q[1..], a);
      QtyWithinNotional(q[0]);
      if q[0].account != a {
        TotalCons(q[0], Others(q[1..], a), LotsOf());
        assert Others(q, a) == [q[0]] + Others(q[1..], a);
      }
    }
  }

  lemma {:induction false} OthersExposure(q: seq<Resting>, a: AccountId, c: AccountId)
    requires c != a
    ensures Total(Others(q, a), ExposureOf(c)) == Total(q, ExposureOf(c))
  {
    hide Notional;
    if q != [] {
      OthersExposure(q[1..], a, c);
      if q[0].account != a { TotalCons(q[0], Others(q[1..], a), ExposureOf(c)); }
    }
  }

  lemma {:induction false} OthersMembers(q: seq<Resting>, a: AccountId)
    ensures forall o :: o in Others(q, a) ==> o in q && o.account != a
  {
    if q != [] {
      OthersMembers(q[1..], a);
      assert q == [q[0]] + q[1..];
    }
  }

  /** With orders of at most `|accts|` accounts, each within the notional cap, a side
      holds at most `|accts|` times the cap in lots. */
  lemma {:induction false} SideBounded(q: seq<Resting>, accts: set<AccountId>)
    requires forall o :: o in q ==> o.account in accts
    requires forall a :: a in accts ==> Total(q, ExposureOf(a)) <= MAX_NOTIONAL_PER_ACCT
    ensures Lots(q) <= |accts| * MAX_NOTIONAL_PER_ACCT
    decreases |accts|
  {
    if accts == {} {
      if q != [] { assert q[0] in q; }
    } else {
      var a :| a in accts;
      LotsSplit(q, a);
      OthersMembers(q, a);
      forall c | c in accts - {a} ensures Total(Others(q, a), ExposureOf(c)) <= MAX_NOTIONAL_PER_ACCT {
        OthersExposure(q, a, c);
      }
      SideBounded(Others(q, a), accts - {a});
    }
  }
}
