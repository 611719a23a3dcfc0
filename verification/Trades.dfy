/** Trade prints over whole runs: numbered consecutively, in order, aggressor side and
    band reference taken from the trade itself. */
module Trades {
  import opened Domain
  import opened PriceTime
  import opened QueueLaws
  import opened WalkLaws
  import opened BookLaws
  import opened Messages
  import opened Risk
  import opened EngineSpec
  import opened EngineInvariants
  import opened EngineSafety
  import opened MarketData

  /** The trade prints of a stream. */
  function Prints(ev: seq<Body>): seq<Body> {
    if ev == [] then [] else (if ev[0].Trade? then [ev[0]] else []) + Prints(ev[1..])
  }

  function PrintOf(f: Fill): Body { Trade(f.tradeId, f.price, f.qty, f.makerSide.Opposite()) }

  function PrintsOf(fs: seq<Fill>): seq<Body> {
    if fs == [] then [] else [PrintOf(fs[0])] + PrintsOf(fs[1..])
  }

  lemma {:induction false} PrintsAppend(a: seq<Body>, b: seq<Body>)
    ensures Prints(a + b) == Prints(a) + Prints(b)
  {
    if a == [] {
      assert a + b == b;
    } else {
      assert (a + b)[1..] == a[1..] + b;
      PrintsAppend(a[1..], b);
    }
  }

  lemma {:induction false} PrintsNone(ev: seq<Body>)
    requires forall e :: e in ev ==> !e.Trade?
    ensures Prints(ev) == []
  {
    if ev != [] {
      assert ev[0] in ev;
      PrintsNone(ev[1..]);
    }
  }

  lemma FillPrints(l: Ledger, f: Fill, taker: AccountId, left: nat)
    ensures Prints(FillEvents(l, f, taker, left)) == [PrintOf(f)]
  {
    var ev := FillEvents(l, f, taker, left);
    assert ev[1..] == [ev[1], ev[2]];
    PrintsNone(ev[1..]);
  }

  lemma {:induction false} SettlePrints(l: Ledger, fills: seq<Fill>, taker: AccountId, left: nat)
    ensures Prints(SettleFills(l, fills, taker, left).ev) == PrintsOf(fills)
    decreases fills
  {
    hide FillEvents, SettleFill;
    if fills != [] {
      var left' := SatSub(left, fills[0].qty);
      SettlePrints(SettleFill(l, fills[0]), fills[1..], taker, left');
      FillPrints(l, fills[0], taker, left');
      PrintsAppend(FillEvents(l, fills[0], taker, left'),
          SettleFills(SettleFill(l, fills[0]), fills[1..], taker, left').ev);
    }
  }

  lemma SettledPrints(l: Ledger, fills: seq<Fill>, stp: seq<Cancellation>, taker: AccountId, left: nat)
    ensures Prints(Settle(l, fills, stp, taker, left).ev) == PrintsOf(fills)
  {
    hide SettleFills, RetireAll;
    var a := SettleFills(l, fills, taker, left);
    SettlePrints(l, fills, taker, left);
    RetireAllSays(a.ledger, stp, SelfTrade);
    PrintsNone(RetireAll(a.ledger, stp, SelfTrade).ev);
    PrintsAppend(a.ev, RetireAll(a.ledger, stp, SelfTrade).ev);
  }

  // -------------------------------------------------------------------------
  // The prints of a step are the fills of its walk
  // -------------------------------------------------------------------------

  lemma NewPrints(s: EngineState, m: NewOrder)
    ensures Prints(HandleNew(s, m).ev) == PrintsOf(NewFills(s, m))
    ensures HandleNew(s, m).s.nextTrade == s.nextTrade + |NewFills(s, m)|
  {
    hide Match, Settle, CheckNewOrder, Rest, Prints, RestError, CheckCaps, OnOrderResting, OnOrderRemoved;
    var w := Match(s.book, NewTaker(m), s.nextTrade);
    PostOnlyRejectsWhole(s.book, NewTaker(m), s.nextTrade);
    if CheckNewOrder(s.ledger.risk, m, BestPrice(s.book.Of(m.side.Opposite()))).None? && !w.postOnlyRejected {
      var settled := Settle(s.ledger, w.fills, w.stp, m.account, m.qty);
      var d := Dispose(EngineState(w.book, settled.ledger, s.nextTrade + |w.fills|), m, w.stp != [], w.left);
      SettledPrints(s.ledger, w.fills, w.stp, m.account, m.qty);
      PrintsAppend(settled.ev, d.ev);
      PrintsNone(d.ev);
    } else {
      PrintsNone(HandleNew(s, m).ev);
    }
  }

  lemma CommitPrints(
    s: EngineState, id: OrderId, account: AccountId, price: Price, qty: Qty,
    fills: seq<Fill>, stp: seq<Cancellation>, dropped: bool, left: nat)
    ensures var h := CommitReplace(s, id, account, price, qty, fills, stp, dropped, left);
      Prints(h.ev) == PrintsOf(fills) && h.s.nextTrade == s.nextTrade
  {
    hide Settle, Retire, Cancel, Prints, CheckCaps, OnOrderResting;
    var side := if id in s.ledger.registry then s.ledger.registry[id].side else Bid;
    var settled := Settle(Retire(s.ledger, id), fills, stp, account, qty);
    var d := RestReplaced(s.(ledger := settled.ledger), id, account, side, price, dropped, left);
    var e := ReplacedReport(id, account, qty);
    SettledPrints(Retire(s.ledger, id), fills, stp, account, qty);
    PrintsNone([e]);
    PrintsNone(d.ev);
    PrintsAppend([e], settled.ev);
    PrintsAppend([e] + settled.ev, d.ev);
  }

  lemma ReplacePrints(s: EngineState, id: OrderId, account: AccountId, price: Price, qty: Qty)
    requires Inv(s) && s.book.arrivals < U64_MAX
    ensures Prints(HandleReplace(s, id, account, price, qty).ev) == PrintsOf(ReplaceFills(s, id, account, price, qty))
    ensures HandleReplace(s, id, account, price, qty).s.nextTrade
         == s.nextTrade + |ReplaceFills(s, id, account, price, qty)|
  {
    hide Inv, Replace, CommitReplace, Prints, CheckCancelReplace;
    var r := Replace(s.book, id, price, qty, s.nextTrade);
    var s' := s.(book := r.book, nextTrade := s.nextTrade + |r.fills|);
    ReplaceTrades(s.book, id, price, qty, s.nextTrade);
    ReplaceErrIdle(s, id, price, qty);
    CommitPrints(s', id, account, price, qty, [], [], false, qty);
    if r.outcome.Ok? && r.outcome.value.Walked? {
      var m := r.outcome.value.m;
      CommitPrints(s', id, account, price, qty, m.fills, m.stp, m.stp != [], m.left);
    }
    QuietPrints(HandleReplace(s, id, account, price, qty).ev);
  }

  lemma QuietPrints(ev: seq<Body>)
    ensures |ev| == 1 && ev[0].Report? ==> Prints(ev) == []
  {
    if |ev| == 1 && ev[0].Report? { PrintsNone(ev); }
  }

  /** With room on the arrival counter, a replace that fails or is refused has not traded. */
  lemma ReplaceErrIdle(s: EngineState, id: OrderId, price: Price, qty: Qty)
    requires Inv(s) && s.book.arrivals < U64_MAX
    ensures var r := Replace(s.book, id, price, qty, s.nextTrade);
      r.outcome.Err? || (r.outcome.value.Walked? && r.outcome.value.m.postOnlyRejected) ==> r.fills == []
  {
    hide Inv, Valid, Lookup, Match, WouldCross, SetQty;
    InvValid(s);
    if id in Lookup(s.book) {
      var o := Lookup(s.book)[id];
      if !KeepsPriority(o, price, qty) && !(o.tif.PostOnly? && WouldCross(s.book, o.side, Some(price))) {
        ReplaceCommits(s.book, id, price, qty, s.nextTrade);
      }
    }
  }

  lemma StepPrints(s: EngineState, cmd: Inbound)
    requires Inv(s) && s.book.arrivals < U64_MAX
    ensures Prints(Step(s, cmd).ev) == PrintsOf(StepFills(s, cmd))
    ensures Step(s, cmd).s.nextTrade == s.nextTrade + |StepFills(s, cmd)|
  {
    hide Inv, HandleNew, HandleReplace, NewFills, ReplaceFills, Tail, Prints, RetireAll, MassRecords;
    var h := Handle(s, cmd);
    TailKinds(s.book, h.s.book, cmd);
    PrintsNone(Tail(s.book, h.s.book, cmd));
    PrintsAppend(h.ev, Tail(s.book, h.s.book, cmd));
    match cmd
    case New(m) => NewPrints(s, m);
    case CancelReplace(id, account, price, qty) => ReplacePrints(s, id, account, price, qty);
    case CancelOne(id, account) => PrintsNone(h.ev);
    case MassCancelAll(account) =>
      RetireAllSays(s.ledger, MassRecords(s.book, account), MassCancelled);
      PrintsNone(h.ev);
    case _ => PrintsNone(h.ev);
  }

  // -------------------------------------------------------------------------
  // Numbering
  // -------------------------------------------------------------------------

  /** Print `i` has trade id `n + i`. */
  ghost predicate Numbered(ps: seq<Body>, n: nat) {
    forall i :: 0 <= i < |ps| ==> ps[i].Trade? && ps[i].tradeId == n + i
  }

  lemma {:induction false} WalkNumbered(q: seq<Resting>, t: Taker, left: nat, trade: nat)
    ensures var fs := Walk(q, t, left, trade).fills;
      |PrintsOf(fs)| == |fs| && Numbered(PrintsOf(fs), trade)
  {
    if !(left == 0 || q == [] || !Tradable(t, q[0]) || left < q[0].qty) {
      WalkNumbered(q[1..], t, left - q[0].qty, trade + 1);
      var fs := Walk(q, t, left, trade).fills;
      assert fs[1..] == Walk(q[1..], t, left - q[0].qty, trade + 1).fills;
    } else {
      var fs := Walk(q, t, left, trade).fills;
      if fs != [] { assert fs[1..] == []; }
    }
  }

  lemma NumberedAppend(a: seq<Body>, b: seq<Body>, n: nat)
    requires Numbered(a, n) && Numbered(b, n + |a|)
    ensures Numbered(a + b, n)
  {
    forall i | 0 <= i < |a + b| ensures (a + b)[i].Trade? && (a + b)[i].tradeId == n + i {
      if i >= |a| { assert (a + b)[i] == b[i - |a|]; }
    }
  }

  lemma StepNumbered(s: EngineState, cmd: Inbound)
    ensures var ps := PrintsOf(StepFills(s, cmd));
      |ps| == |StepFills(s, cmd)| && Numbered(ps, s.nextTrade)
  {
    hide Walk, Lookup, CheckNewOrder, CheckCancelReplace, WouldCross, Rest, SetQty, RestError;
    match cmd
    case New(m) =>
      WalkNumbered(s.book.Of(m.side.Opposite()), NewTaker(m), m.qty, s.nextTrade);
    case CancelReplace(id, account, price, qty) =>
      if id in Lookup(s.book) {
        var o, c := Lookup(s.book)[id], Cancel(s.book, {id});
        WalkNumbered(c.Of(o.side.Opposite()), TakerOf(o, price, qty), qty, s.nextTrade);
      }
    case _ =>
  }

  /** Along a run the trade ids are consecutive: no gap, no repeat. */
  lemma {:induction false} RunNumbered(s: EngineState, cmds: seq<Inbound>)
    requires Inv(s) && s.book.arrivals + |cmds| <= U64_MAX
    ensures Numbered(Prints(Run(s, cmds).ev), s.nextTrade)
    ensures Run(s, cmds).s.nextTrade == s.nextTrade + |Prints(Run(s, cmds).ev)|
    decreases cmds
  {
    hide Inv, Handle, Tail, StepFills, PrintsOf;
    if cmds != [] {
      HandleInv(s, cmds[0]);
      HandleArrivals(s, cmds[0]);
      StepPrints(s, cmds[0]);
      StepNumbered(s, cmds[0]);
      var s' := Step(s, cmds[0]).s;
      RunNumbered(s', cmds[1..]);
      var a, b := Prints(Step(s, cmds[0]).ev), Prints(Run(s', cmds[1..]).ev);
      PrintsAppend(Step(s, cmds[0]).ev, Run(s', cmds[1..]).ev);
      NumberedAppend(a, b, s.nextTrade);
    }
  }

  // -------------------------------------------------------------------------
  // The price band's reference is the last print
  // -------------------------------------------------------------------------

  /** The price of the last trade print, or `before` if there is none. */
  function LastPrice(ps: seq<Body>, before: Option<Price>): Option<Price> {
    if ps == [] then before
    else LastPrice(ps[1..], if ps[0].Trade? then Some(ps[0].price) else before)
  }

  lemma {:induction false} LastPriceAppend(a: seq<Body>, b: seq<Body>, before: Option<Price>)
    ensures LastPrice(a + b, before) == LastPrice(b, LastPrice(a, before))
  {
    if a == [] {
      assert a + b == b;
    } else {
      assert (a + b)[1..] == a[1..] + b;
      LastPriceAppend(a[1..], b, if a[0].Trade? then Some(a[0].price) else before);
    }
  }

  lemma {:induction false} LastPriceQuiet(ev: seq<Body>, before: Option<Price>)
    requires forall e :: e in ev ==> !e.Trade?
    ensures LastPrice(ev, before) == before
  {
    if ev != [] {
      assert ev[0] in ev;
      LastPriceQuiet(ev[1..], before);
    }
  }

  lemma {:induction false} RetireAllBand(l: Ledger, cs: seq<Cancellation>, reason: CancelReason)
    ensures RetireAll(l, cs, reason).ledger.risk.lastTrade == l.risk.lastTrade
    decreases cs
  {
    if cs != [] { RetireAllBand(Retire(l, cs[0].id), cs[1..], reason); }
  }

  lemma {:induction false} SettleFillsBand(l: Ledger, fills: seq<Fill>, taker: AccountId, left: nat)
    ensures var d := SettleFills(l, fills, taker, left);
      d.ledger.risk.lastTrade == LastPrice(d.ev, l.risk.lastTrade)
    decreases fills
  {
    hide Retire, Reduce, OnOrderRemoved, SatSub, NotionalOf;
    if fills != [] {
      var f, left' := fills[0], SatSub(left, fills[0].qty);
      var ev := FillEvents(l, f, taker, left');
      SettleFillsBand(SettleFill(l, f), fills[1..], taker, left');
      LastPriceAppend(ev, SettleFills(SettleFill(l, f), fills[1..], taker, left').ev, l.risk.lastTrade);
      assert ev[1..] == [ev[1], ev[2]];
      LastPriceQuiet(ev[1..], Some(f.price));
      FillBand(l, f);
    }
  }

  lemma FillBand(l: Ledger, f: Fill)
    ensures SettleFill(l, f).risk.lastTrade == Some(f.price)
  {
  }

  lemma SettleBand(l: Ledger, fills: seq<Fill>, stp: seq<Cancellation>, taker: AccountId, left: nat)
    ensures var d := Settle(l, fills, stp, taker, left);
      d.ledger.risk.lastTrade == LastPrice(d.ev, l.risk.lastTrade)
  {
    hide SettleFills, RetireAll, LastPrice;
    var a := SettleFills(l, fills, taker, left);
    var b := RetireAll(a.ledger, stp, SelfTrade);
    SettleFillsBand(l, fills, taker, left);
    RetireAllBand(a.ledger, stp, SelfTrade);
    RetireAllSays(a.ledger, stp, SelfTrade);
    LastPriceAppend(a.ev, b.ev, l.risk.lastTrade);
    LastPriceQuiet(b.ev, a.ledger.risk.lastTrade);
  }

  lemma NewBand(s: EngineState, m: NewOrder)
    ensures var h := HandleNew(s, m);
      h.s.ledger.risk.lastTrade == LastPrice(h.ev, s.ledger.risk.lastTrade)
  {
    hide Match, Settle, CheckNewOrder, Rest, LastPrice, RestError, CheckCaps, NotionalOf;
    var w := Match(s.book, NewTaker(m), s.nextTrade);
    var before := s.ledger.risk.lastTrade;
    if CheckNewOrder(s.ledger.risk, m, BestPrice(s.book.Of(m.side.Opposite()))).None? && !w.postOnlyRejected {
      var settled := Settle(s.ledger, w.fills, w.stp, m.account, m.qty);
      var d := Dispose(EngineState(w.book, settled.ledger, s.nextTrade + |w.fills|), m, w.stp != [], w.left);
      SettleBand(s.ledger, w.fills, w.stp, m.account, m.qty);
      LastPriceAppend(settled.ev, d.ev, before);
      LastPriceQuiet(d.ev, settled.ledger.risk.lastTrade);
    } else {
      LastPriceQuiet(HandleNew(s, m).ev, before);
    }
  }

  lemma CommitBand(
    s: EngineState, id: OrderId, account: AccountId, price: Price, qty: Qty,
    fills: seq<Fill>, stp: seq<Cancellation>, dropped: bool, left: nat)
    ensures var h := CommitReplace(s, id, account, price, qty, fills, stp, dropped, left);
      h.s.ledger.risk.lastTrade == LastPrice(h.ev, s.ledger.risk.lastTrade)
  {
    hide Settle, Cancel, LastPrice, CheckCaps, NotionalOf;
    var side := if id in s.ledger.registry then s.ledger.registry[id].side else Bid;
    var before := s.ledger.risk.lastTrade;
    var settled := Settle(Retire(s.ledger, id), fills, stp, account, qty);
    var d := RestReplaced(s.(ledger := settled.ledger), id, account, side, price, dropped, left);
    var e := ReplacedReport(id, account, qty);
    SettleBand(Retire(s.ledger, id), fills, stp, account, qty);
    LastPriceQuiet([e], before);
    LastPriceAppend([e], settled.ev, before);
    LastPriceAppend([e] + settled.ev, d.ev, before);
    LastPriceQuiet(d.ev, settled.ledger.risk.lastTrade);
  }

  lemma ReplaceBand(s: EngineState, id: OrderId, account: AccountId, price: Price, qty: Qty)
    ensures var h := HandleReplace(s, id, account, price, qty);
      h.s.ledger.risk.lastTrade == LastPrice(h.ev, s.ledger.risk.lastTrade)
  {
    hide Replace, CommitReplace, LastPrice, CheckCancelReplace;
    var r := Replace(s.book, id, price, qty, s.nextTrade);
    var s' := s.(book := r.book, nextTrade := s.nextTrade + |r.fills|);
    var h := HandleReplace(s, id, account, price, qty);
    CommitBand(s', id, account, price, qty, [], [], false, qty);
    if r.outcome.Ok? && r.outcome.value.Walked? {
      var m := r.outcome.value.m;
      CommitBand(s', id, account, price, qty, m.fills, m.stp, m.stp != [], m.left);
    }
    if |h.ev| == 1 && h.ev[0].Report? { LastPriceQuiet(h.ev, s.ledger.risk.lastTrade); }
  }

  /** A step leaves the band's reference at the price it last printed. */
  lemma StepBand(s: EngineState, cmd: Inbound)
    ensures var d := Step(s, cmd);
      d.s.ledger.risk.lastTrade == LastPrice(d.ev, s.ledger.risk.lastTrade)
  {
    hide HandleNew, HandleReplace, Tail, LastPrice, RetireAll, MassRecords;
    var h, before := Handle(s, cmd), s.ledger.risk.lastTrade;
    TailKinds(s.book, h.s.book, cmd);
    LastPriceAppend(h.ev, Tail(s.book, h.s.book, cmd), before);
    LastPriceQuiet(Tail(s.book, h.s.book, cmd), h.s.ledger.risk.lastTrade);
    match cmd
    case New(m) => NewBand(s, m);
    case CancelReplace(id, account, price, qty) => ReplaceBand(s, id, account, price, qty);
    case CancelOne(id, account) => LastPriceQuiet(h.ev, before);
    case MassCancelAll(account) =>
      RetireAllSays(s.ledger, MassRecords(s.book, account), MassCancelled);
      RetireAllBand(s.ledger, MassRecords(s.book, account), MassCancelled);
      LastPriceQuiet(h.ev, before);
    case _ => LastPriceQuiet(h.ev, before);
  }

  lemma {:induction false} RunBand(s: EngineState, cmds: seq<Inbound>)
    ensures Run(s, cmds).s.ledger.risk.lastTrade == LastPrice(Run(s, cmds).ev, s.ledger.risk.lastTrade)
    decreases cmds
  {
    hide Step;
    if cmds != [] {
      var first := Step(s, cmds[0]);
      StepBand(s, cmds[0]);
      RunBand(first.s, cmds[1..]);
      LastPriceAppend(first.ev, Run(first.s, cmds[1..]).ev, s.ledger.risk.lastTrade);
    }
  }

  // -------------------------------------------------------------------------
  // How many trade ids a run needs
  // -------------------------------------------------------------------------

  function Size(b: FlatBook): nat { |b.bids| + |b.asks| }

  lemma {:induction false} WithoutSize(q: seq<Resting>, ids: set<OrderId>)
    ensures |Without(q, ids)| <= |q|
  {
    if q != [] { WithoutSize(q[1..], ids); }
  }

  lemma CancelSize(b: FlatBook, ids: set<OrderId>)
    ensures Size(Cancel(b, ids)) <= Size(b)
  {
    WithoutSize(b.bids, ids);
    WithoutSize(b.asks, ids);
  }

  lemma RestSize(b: FlatBook, o: RestingOrder)
    ensures Size(Rest(b, o)) == Size(b) + 1
  {
    InsertMembers(o.side, b.Of(o.side), Arrive(o, b.arrivals + 1));
  }

  /** Every fill but one takes a maker off the book. */
  lemma MatchSize(b: FlatBook, t: Taker, trade: nat)
    ensures var m := Match(b, t, trade);
      Size(m.book) + |m.fills| <= Size(b) + 1
  {
    hide Walk, Lots;
    WalkSurvivors(b.Of(t.side.Opposite()), t, t.qty, trade);
  }

  lemma ReplaceSize(b: FlatBook, id: OrderId, price: Price, qty: Qty, trade: nat)
    ensures var r := Replace(b, id, price, qty, trade);
      Size(r.book) + |r.fills| <= Size(b) + 2
  {
    hide Match, Lookup, Cancel, Rest, SetQty, WouldCross, RestError;
    if id in Lookup(b) {
      var o := Lookup(b)[id];
      var t := TakerOf(o, price, qty);
      var m := Match(Cancel(b, {id}), t, trade);
      CancelSize(b, {id});
      MatchSize(Cancel(b, {id}), t, trade);
      SetQtyAt(b.Of(o.side), id, qty);
      if QtyOf(m.left).Some? { RestSize(m.book, ResidualOf(t, price, QtyOf(m.left).value)); }
    }
  }

  lemma StepSize(s: EngineState, cmd: Inbound)
    ensures Size(Step(s, cmd).s.book) + |StepFills(s, cmd)| <= Size(s.book) + 2
  {
    hide Match, Settle, CheckNewOrder, CheckCancelReplace, CheckCaps, Rest, RestError, OnOrderResting, OnOrderRemoved,
         Replace, Cancel, Retire, RetireAll, MassRecords, Lookup, Tail, NotionalOf, Size;
    match cmd
    case New(m) =>
      var w := Match(s.book, NewTaker(m), s.nextTrade);
      MatchSize(s.book, NewTaker(m), s.nextTrade);
      PostOnlyRejectsWhole(s.book, NewTaker(m), s.nextTrade);
      if m.price.Some? && QtyOf(w.left).Some? {
        RestSize(w.book, RestingOrder(m.id, m.account, m.side, m.price.value, QtyOf(w.left).value, m.tif));
      }
    case CancelReplace(id, account, price, qty) =>
      ReplaceSize(s.book, id, price, qty, s.nextTrade);
      CancelSize(Replace(s.book, id, price, qty, s.nextTrade).book, {id});
    case CancelOne(id, account) => CancelSize(s.book, {id});
    case MassCancelAll(account) => CancelSize(s.book, Owned(Lookup(s.book), account));
    case _ =>
  }

  /** A run of `n` commands trades at most `2 n` times. */
  lemma {:induction false} RunTrades(s: EngineState, cmds: seq<Inbound>)
    requires Inv(s) && s.book.arrivals + |cmds| <= U64_MAX
    ensures Run(s, cmds).s.nextTrade + Size(Run(s, cmds).s.book) <= s.nextTrade + Size(s.book) + 2 * |cmds|
    decreases cmds
  {
    hide Inv, Handle, Tail, StepFills, Size;
    if cmds != [] {
      HandleInv(s, cmds[0]);
      HandleArrivals(s, cmds[0]);
      StepPrints(s, cmds[0]);
      StepSize(s, cmds[0]);
      RunTrades(Step(s, cmds[0]).s, cmds[1..]);
    }
  }
}
