/** The exact ledger of lots, for any set of orders: what they enter is what their fill
    reports say they traded, what they still rest, and what was removed from them, one
    removal for every report that cancels, rejects or supersedes one of them. */
module Conservation {
  import opened Domain
  import opened PriceTime
  import opened QueueLaws
  import opened WalkLaws
  import opened BookLaws
  import opened Messages
  import opened Risk
  import opened EngineSpec
  import opened EngineInvariants
  import opened EngineSafety
  import opened MarketData
  import opened Reports
  import opened Compliance

  // -------------------------------------------------------------------------
  // The four columns of the ledger
  // -------------------------------------------------------------------------

  ghost function LotsIn(ids: iset<OrderId>): Resting -> nat {
    (o: Resting) => if o.id in ids then o.qty else 0
  }

  /** Lots resting. */
  ghost function Held(b: FlatBook, ids: iset<OrderId>): nat {
    Total(b.bids, LotsIn(ids)) + Total(b.asks, LotsIn(ids))
  }

  ghost function Share(id: OrderId, lots: nat, ids: iset<OrderId>): nat { if id in ids then lots else 0 }

  /** Lots entered by a command. */
  ghost function EnteredBy(cmd: Inbound, ids: iset<OrderId>): nat {
    match cmd
    case New(m) => Share(m.id, m.qty, ids)
    case CancelReplace(id, _, _, qty) => Share(id, qty, ids)
    case _ => 0
  }

  ghost function FilledBy(e: Body, ids: iset<OrderId>): nat {
    if e.Report? then Share(e.report.id, FillOn(e), ids) else 0
  }

  /** Lots on fill reports. */
  ghost function FilledLots(ev: seq<Body>, ids: iset<OrderId>): nat {
    if ev == [] then 0 else FilledBy(ev[0], ids) + FilledLots(ev[1..], ids)
  }

  /** Lots that left an order other than by trading. */
  datatype Removal = Removal(id: OrderId, lots: nat)

  ghost function RemovedLots(rs: seq<Removal>, ids: iset<OrderId>): nat {
    if rs == [] then 0 else Share(rs[0].id, rs[0].lots, ids) + RemovedLots(rs[1..], ids)
  }

  function RemovalIds(rs: seq<Removal>): seq<OrderId> {
    if rs == [] then [] else [rs[0].id] + RemovalIds(rs[1..])
  }

  function ClosedBy(e: Body): seq<OrderId> {
    if e.Report? && e.report.state in {Cancelled, Rejected, Replaced} then [e.report.id] else []
  }

  /** The orders a stream of messages cancels, rejects or supersedes, in order. */
  function Closings(ev: seq<Body>): seq<OrderId> {
    if ev == [] then [] else ClosedBy(ev[0]) + Closings(ev[1..])
  }

  // -------------------------------------------------------------------------
  // What each command removes
  // -------------------------------------------------------------------------

  /** Dropped makers, each with what it still rested. */
  function Dropped(cs: seq<Cancellation>): seq<Removal> {
    if cs == [] then [] else [Removal(cs[0].id, cs[0].qty)] + Dropped(cs[1..])
  }

  /** The leftover of an admitted new order comes to rest. */
  predicate LeftoverRests(s: EngineState, m: NewOrder, left: nat) {
    && !m.tif.Ioc? && m.price.Some? && QtyOf(left).Some?
    && CheckCaps(s.ledger.risk.StateOf(m.account), NotionalOf(m.price.value, QtyOf(left).value)).None?
    && RestError(s.book, m.id).None?
  }

  /** A refused order loses all it entered; an admitted one what the walk left over,
      unless that rests, after any own maker it met lost what it rested. */
  function NewRemovals(s: EngineState, m: NewOrder): seq<Removal> {
    if !Admitted(s, m) then [Removal(m.id, m.qty)]
    else
      var w := Match(s.book, NewTaker(m), s.nextTrade);
      var l := Settle(s.ledger, w.fills, w.stp, m.account, m.qty).ledger;
      var rests := LeftoverRests(EngineState(w.book, l, s.nextTrade + |w.fills|), m, w.left);
      Dropped(w.stp) + if w.stp == [] && (w.left == 0 || rests) then [] else [Removal(m.id, w.left)]
  }

  /** A refused replacement loses all it entered; a committed one supersedes what its
      order still rested, and loses its leftover if it is dropped or capped. */
  function ReplaceRemovals(s: EngineState, id: OrderId, account: AccountId, price: Price, qty: Qty): seq<Removal> {
    if InPlace(s, id, account, price, qty) then [Removal(id, Lookup(s.book)[id].qty)]
    else if !Rewalks(s, id, account, price, qty) then [Removal(id, qty)]
    else
      var m := ReplaceWalk(s.book, id, price, qty, s.nextTrade);
      var l := Settle(Retire(s.ledger, id), m.fills, m.stp, account, qty).ledger;
      [Removal(id, Lookup(s.book)[id].qty)] + Dropped(m.stp)
      + if m.stp == [] && (m.left == 0 || Uncapped(l, account, price, m.left)) then [] else [Removal(id, m.left)]
  }

  predicate Uncapped(l: Ledger, account: AccountId, price: Price, left: nat) {
    QtyOf(left).Some? && CheckCaps(l.risk.StateOf(account), NotionalOf(price, QtyOf(left).value)).None?
  }

  /** The replace is let through and keeps its place. */
  predicate InPlace(s: EngineState, id: OrderId, account: AccountId, price: Price, qty: Qty) {
    && CheckCancelReplace(s.ledger.risk, price, qty).None?
    && !Foreign(s.ledger, id, account)
    && id in Lookup(s.book)
    && KeepsPriority(Lookup(s.book)[id], price, qty)
  }

  function Removals(s: EngineState, cmd: Inbound): seq<Removal> {
    match cmd
    case New(m) => NewRemovals(s, m)
    case CancelOne(id, account) =>
      if s.ledger.risk.killSwitch || Foreign(s.ledger, id, account) || id !in Lookup(s.book)
      then [Removal(id, 0)] else [Removal(id, Lookup(s.book)[id].qty)]
    case CancelReplace(id, account, price, qty) => ReplaceRemovals(s, id, account, price, qty)
    case MassCancelAll(account) =>
      if s.ledger.risk.killSwitch then [Removal(1, 0)] else Dropped(MassRecords(s.book, account))
    case _ => []
  }

  // -------------------------------------------------------------------------
  // Sums over streams
  // -------------------------------------------------------------------------

  lemma {:induction false} MessagesAppend(a: seq<Body>, b: seq<Body>, ids: iset<OrderId>)
    ensures FilledLots(a + b, ids) == FilledLots(a, ids) + FilledLots(b, ids)
    ensures Closings(a + b) == Closings(a) + Closings(b)
  {
    if a == [] {
      assert a + b == b;
    } else {
      assert (a + b)[1..] == a[1..] + b;
      MessagesAppend(a[1..], b, ids);
    }
  }

  lemma {:induction false} RemovalsAppend(a: seq<Removal>, b: seq<Removal>, ids: iset<OrderId>)
    ensures RemovedLots(a + b, ids) == RemovedLots(a, ids) + RemovedLots(b, ids)
    ensures RemovalIds(a + b) == RemovalIds(a) + RemovalIds(b)
  {
    if a == [] {
      assert a + b == b;
    } else {
      assert (a + b)[1..] == a[1..] + b;
      RemovalsAppend(a[1..], b, ids);
    }
  }

  lemma OneMessage(e: Body, ids: iset<OrderId>)
    ensures FilledLots([e], ids) == FilledBy(e, ids)
    ensures Closings([e]) == ClosedBy(e)
  {
    assert [e][1..] == [];
  }

  lemma OneRemoval(id: OrderId, lots: nat, ids: iset<OrderId>)
    ensures RemovedLots([Removal(id, lots)], ids) == Share(id, lots, ids)
    ensures RemovalIds([Removal(id, lots)]) == [id]
  {
    assert [Removal(id, lots)][1..] == [];
  }

  lemma {:induction false} QuietMessages(ev: seq<Body>, ids: iset<OrderId>)
    requires forall e :: e in ev ==> !e.Report?
    ensures FilledLots(ev, ids) == 0 && Closings(ev) == []
  {
    if ev != [] {
      assert ev[0] in ev;
      QuietMessages(ev[1..], ids);
    }
  }

  // -------------------------------------------------------------------------
  // Settling a walk
  // -------------------------------------------------------------------------

  /** Lots the makers in `ids` traded. */
  ghost function MakerLots(fs: seq<Fill>, ids: iset<OrderId>): nat {
    if fs == [] then 0 else Share(fs[0].maker, fs[0].qty, ids) + MakerLots(fs[1..], ids)
  }

  lemma FillAccounts(l: Ledger, f: Fill, taker: AccountId, left: nat, ids: iset<OrderId>)
    ensures var ev := FillEvents(l, f, taker, left);
      FilledLots(ev, ids) == Share(f.maker, f.qty, ids) + Share(f.taker, f.qty, ids) && Closings(ev) == []
  {
    var ev := FillEvents(l, f, taker, left);
    assert ev == [ev[0]] + [ev[1]] + [ev[2]];
    MessagesAppend([ev[0]], [ev[1]], ids);
    MessagesAppend([ev[0]] + [ev[1]], [ev[2]], ids);
    OneMessage(ev[0], ids);
    OneMessage(ev[1], ids);
    OneMessage(ev[2], ids);
  }

  /** Fill reports of a settled walk go to its makers and, in total, to its taker. */
  lemma {:induction false} SettleFillsAccounts(
    l: Ledger, fills: seq<Fill>, taker: AccountId, left: nat, id: OrderId, ids: iset<OrderId>)
    requires forall f :: f in fills ==> f.taker == id
    ensures var ev := SettleFills(l, fills, taker, left).ev;
      FilledLots(ev, ids) == MakerLots(fills, ids) + Share(id, FillLots(fills), ids) && Closings(ev) == []
    decreases fills
  {
    hide FillEvents, SettleFill;
    if fills != [] {
      assert fills[0] in fills;
      var left' := SatSub(left, fills[0].qty);
      SettleFillsAccounts(SettleFill(l, fills[0]), fills[1..], taker, left', id, ids);
      FillAccounts(l, fills[0], taker, left', ids);
      MessagesAppend(FillEvents(l, fills[0], taker, left'),
          SettleFills(SettleFill(l, fills[0]), fills[1..], taker, left').ev, ids);
    }
  }

  lemma {:induction false} RetireAllAccounts(l: Ledger, cs: seq<Cancellation>, reason: CancelReason, ids: iset<OrderId>)
    ensures var ev := RetireAll(l, cs, reason).ev;
      FilledLots(ev, ids) == 0 && Closings(ev) == RemovalIds(Dropped(cs))
    decreases cs
  {
    hide Retire;
    if cs != [] {
      RetireAllAccounts(Retire(l, cs[0].id), cs[1..], reason, ids);
      var e := CancelledReport(cs[0].id, cs[0].account, reason);
      OneMessage(e, ids);
      MessagesAppend([e], RetireAll(Retire(l, cs[0].id), cs[1..], reason).ev, ids);
    }
  }

  lemma {:induction false} WalkTaker(q: seq<Resting>, t: Taker, left: nat, trade: nat)
    ensures forall f :: f in Walk(q, t, left, trade).fills ==> f.taker == t.id
  {
    if !(left == 0 || q == [] || !Tradable(t, q[0]) || left < q[0].qty) {
      WalkTaker(q[1..], t, left - q[0].qty, trade + 1);
    }
  }

  lemma SettleAccounts(l: Ledger, b: FlatBook, t: Taker, trade: nat, ids: iset<OrderId>)
    ensures var m := Match(b, t, trade);
      var ev := Settle(l, m.fills, m.stp, t.account, t.qty).ev;
      && FilledLots(ev, ids) == MakerLots(m.fills, ids) + Share(t.id, FillLots(m.fills), ids)
      && Closings(ev) == RemovalIds(Dropped(m.stp))
  {
    hide Walk, SettleFills, RetireAll, WouldCross;
    var m := Match(b, t, trade);
    WalkTaker(b.Of(t.side.Opposite()), t, t.qty, trade);
    var a := SettleFills(l, m.fills, t.account, t.qty);
    SettleFillsAccounts(l, m.fills, t.account, t.qty, t.id, ids);
    RetireAllAccounts(a.ledger, m.stp, SelfTrade, ids);
    MessagesAppend(a.ev, RetireAll(a.ledger, m.stp, SelfTrade).ev, ids);
  }

  /** The opposite queue loses what its makers traded and what was dropped. */
  lemma {:induction false} WalkHeld(q: seq<Resting>, t: Taker, left: nat, trade: nat, ids: iset<OrderId>)
    ensures var w := Walk(q, t, left, trade);
      Total(w.queue, LotsIn(ids)) + MakerLots(w.fills, ids) + RemovedLots(Dropped(w.stp), ids) == Total(q, LotsIn(ids))
  {
    hide Walk;
    var w := Walk(q, t, left, trade);
    WalkUnrolls(q, t, left, trade);
    if left == 0 || q == [] || !Crosses(t.side, t.price, q[0].price) {
    } else if q[0].account == t.account {
      assert Dropped(w.stp) == [Removal(q[0].id, q[0].qty)];
      OneRemoval(q[0].id, q[0].qty, ids);
    } else if left < q[0].qty {
      assert w.fills[1..] == [] && w.queue[1..] == q[1..];
    } else {
      WalkHeld(q[1..], t, left - q[0].qty, trade + 1, ids);
    }
  }

  lemma MatchHeld(b: FlatBook, t: Taker, trade: nat, ids: iset<OrderId>)
    ensures var m := Match(b, t, trade);
      && Held(m.book, ids) + MakerLots(m.fills, ids) + RemovedLots(Dropped(m.stp), ids) == Held(b, ids)
      && FillLots(m.fills) + m.left == t.qty
  {
    hide Walk, Total, WouldCross;
    WalkHeld(b.Of(t.side.Opposite()), t, t.qty, trade, ids);
    WalkConserves(b.Of(t.side.Opposite()), t, t.qty, trade);
  }

  /** A walk and its settlement: the taker's leftover is still to be disposed of. */
  lemma WalkBalances(l: Ledger, b: FlatBook, t: Taker, trade: nat, ids: iset<OrderId>)
    ensures var m := Match(b, t, trade);
      var ev := Settle(l, m.fills, m.stp, t.account, t.qty).ev;
      && Held(b, ids) + Share(t.id, t.qty, ids)
         == Held(m.book, ids) + Share(t.id, m.left, ids) + FilledLots(ev, ids) + RemovedLots(Dropped(m.stp), ids)
      && Closings(ev) == RemovalIds(Dropped(m.stp))
      && m.left <= t.qty && (m.stp != [] ==> m.left > 0)
  {
    hide Held, Settle, Walk, WouldCross, Dropped, FilledLots, Closings, RemovedLots, RemovalIds, MakerLots, FillLots;
    MatchHeld(b, t, trade, ids);
    WalkConserves(b.Of(t.side.Opposite()), t, t.qty, trade);
    SettleAccounts(l, b, t, trade, ids);
  }

  // -------------------------------------------------------------------------
  // Handlers
  // -------------------------------------------------------------------------

  /** The ledger of one command: every column, and a report for every removal. */
  ghost predicate Balanced(
    s: EngineState, ev: seq<Body>, rs: seq<Removal>, s': EngineState, entered: nat, ids: iset<OrderId>)
  {
    && Held(s.book, ids) + entered == Held(s'.book, ids) + FilledLots(ev, ids) + RemovedLots(rs, ids)
    && Closings(ev) == RemovalIds(rs)
  }

  lemma RefusedBalances(s: EngineState, e: Body, id: OrderId, lots: nat, ids: iset<OrderId>)
    requires e.Report? && e.report.state == Rejected && e.report.fillQty.None? && e.report.id == id
    ensures Balanced(s, [e], [Removal(id, lots)], s, Share(id, lots, ids), ids)
  {
    hide Held;
    OneMessage(e, ids);
    OneRemoval(id, lots, ids);
  }

  lemma RestHeld(b: FlatBook, o: RestingOrder, ids: iset<OrderId>)
    ensures Held(Rest(b, o), ids) == Held(b, ids) + Share(o.id, o.qty, ids)
  {
    RestTotals(b, o, LotsIn(ids));
  }

  lemma CancelHeld(b: FlatBook, id: OrderId, ids: iset<OrderId>)
    requires Valid(b) && id in Lookup(b)
    ensures Held(b, ids) == Held(Cancel(b, {id}), ids) + Share(id, Lookup(b)[id].qty, ids)
  {
    RestingAt(b, id);
    CancelTotals(b, id, LotsIn(ids));
  }

  lemma DisposeBalances(s: EngineState, m: NewOrder, stp: bool, left: nat, ids: iset<OrderId>)
    requires left <= m.qty && (stp ==> left > 0)
    ensures var d := Dispose(s, m, stp, left);
      Balanced(s, d.ev, if !stp && (left == 0 || LeftoverRests(s, m, left)) then [] else [Removal(m.id, left)],
               d.s, Share(m.id, left, ids), ids)
  {
    hide Held, Rest, OnOrderResting, OnOrderRemoved, CheckCaps, NotionalOf, RestError;
    var d := Dispose(s, m, stp, left);
    OneRemoval(m.id, left, ids);
    if d.ev != [] {
      assert |d.ev| == 1 && d.ev == [d.ev[0]];
      OneMessage(d.ev[0], ids);
    }
    if !stp && LeftoverRests(s, m, left) {
      RestHeld(s.book, RestingOrder(m.id, m.account, m.side, m.price.value, left, m.tif), ids);
    }
  }

  lemma NewBalances(s: EngineState, m: NewOrder, ids: iset<OrderId>)
    ensures var h := HandleNew(s, m);
      Balanced(s, h.ev, NewRemovals(s, m), h.s, Share(m.id, m.qty, ids), ids)
  {
    hide Balanced, Walk, Settle, Dispose, CheckNewOrder, WouldCross, LeftoverRests;
    var check := CheckNewOrder(s.ledger.risk, m, BestPrice(s.book.Of(m.side.Opposite())));
    if Admitted(s, m) {
      AdmittedBalances(s, m, ids);
    } else {
      var reason := if check.Some? then check.value else PostOnlyWouldCross;
      RefusedBalances(s, RejectedReport(m.id, m.account, reason), m.id, m.qty, ids);
    }
  }

  lemma AdmittedBalances(s: EngineState, m: NewOrder, ids: iset<OrderId>)
    requires Admitted(s, m)
    ensures var h := HandleNew(s, m);
      Balanced(s, h.ev, NewRemovals(s, m), h.s, Share(m.id, m.qty, ids), ids)
  {
    hide Held, Settle, Dispose, CheckNewOrder, LeftoverRests, Dropped, FilledLots, Closings, RemovedLots,
         RemovalIds, Walk;
    var w := Match(s.book, NewTaker(m), s.nextTrade);
    var settled := Settle(s.ledger, w.fills, w.stp, m.account, m.qty);
    var s' := EngineState(w.book, settled.ledger, s.nextTrade + |w.fills|);
    var rs := if w.stp == [] && (w.left == 0 || LeftoverRests(s', m, w.left)) then [] else [Removal(m.id, w.left)];
    WalkBalances(s.ledger, s.book, NewTaker(m), s.nextTrade, ids);
    DisposeBalances(s', m, w.stp != [], w.left, ids);
    MessagesAppend(settled.ev, Dispose(s', m, w.stp != [], w.left).ev, ids);
    RemovalsAppend(Dropped(w.stp), rs, ids);
  }

  lemma InPlaceBalances(s: EngineState, id: OrderId, account: AccountId, price: Price, qty: Qty, ids: iset<OrderId>)
    requires Inv(s) && InPlace(s, id, account, price, qty)
    ensures var h := HandleReplace(s, id, account, price, qty);
      Balanced(s, h.ev, ReplaceRemovals(s, id, account, price, qty), h.s, Share(id, qty, ids), ids)
  {
    hide Valid, Uncrossed, Agrees, Settle, Retire, OnOrderResting, CheckCaps, Lookup, SetQty, CheckCancelReplace;
    var o, e := Lookup(s.book)[id], ReplacedReport(id, account, qty);
    MirrorEntry(s, id);
    RestingAt(s.book, id);
    InPlaceFits(s.ledger, s.book, id, qty);
    SettleNothing(Retire(s.ledger, id), account, qty);
    ResizeTotals(s.book, o, qty, LotsIn(ids));
    assert [e] + [] + [] == [e];
    OneMessage(e, ids);
    OneRemoval(id, o.qty, ids);
  }

  /** The leftover of a committed replace, once the book rests it. */
  lemma RestReplacedBalances(l: Ledger, m: Matched, t: Taker, price: Price, trade: nat, ids: iset<OrderId>)
    requires Valid(m.book) && (m.stp == [] && QtyOf(m.left).Some? ==> RestError(m.book, t.id).None?)
    requires m.left <= U64_MAX && (m.stp != [] ==> m.left > 0)
    ensures var book :=
        if m.stp == [] && QtyOf(m.left).Some? then Rest(m.book, ResidualOf(t, price, QtyOf(m.left).value)) else m.book;
      var d := RestReplaced(EngineState(book, l, trade), t.id, t.account, t.side, price, m.stp != [], m.left);
      Balanced(EngineState(m.book, l, trade), d.ev,
               if m.stp == [] && (m.left == 0 || Uncapped(l, t.account, price, m.left)) then []
               else [Removal(t.id, m.left)],
               d.s, Share(t.id, m.left, ids), ids)
  {
    hide Valid, Held, Rest, OnOrderResting, CheckCaps, NotionalOf, RestError, Cancel;
    OneRemoval(t.id, m.left, ids);
    OneMessage(CancelledReport(t.id, t.account, SelfTrade), ids);
    if m.stp == [] && QtyOf(m.left).Some? {
      var o := ResidualOf(t, price, QtyOf(m.left).value);
      RestHeld(m.book, o, ids);
      CancelRested(m.book, o);
      ArrivalsHoldNothing(m.book, m.book.arrivals + 1, ids);
      var check := CheckCaps(l.risk.StateOf(t.account), NotionalOf(price, QtyOf(m.left).value));
      if check.Some? { OneMessage(RejectedReport(t.id, t.account, check.value), ids); }
    }
  }

  lemma ArrivalsHoldNothing(b: FlatBook, n: nat, ids: iset<OrderId>)
    ensures Held(b.(arrivals := n), ids) == Held(b, ids)
  {
  }

  /** Cancel, walk and settle: everything a rewalk does before its leftover is disposed of. */
  lemma RewalkHeld(s: EngineState, id: OrderId, account: AccountId, price: Price, qty: Qty, ids: iset<OrderId>)
    requires Inv(s) && Rewalks(s, id, account, price, qty)
    ensures var o, m := Lookup(s.book)[id], ReplaceWalk(s.book, id, price, qty, s.nextTrade);
      var ev := Settle(Retire(s.ledger, id), m.fills, m.stp, account, qty).ev;
      && Held(s.book, ids) + Share(id, qty, ids)
         == Held(m.book, ids) + Share(id, m.left, ids) + FilledLots(ev, ids)
            + Share(id, o.qty, ids) + RemovedLots(Dropped(m.stp), ids)
      && Closings(ev) == RemovalIds(Dropped(m.stp))
      && m.left <= qty && (m.stp != [] ==> m.left > 0)
  {
    hide Valid, Uncrossed, Agrees, Held, Settle, Retire, Match, WouldCross, Cancel, CheckCancelReplace, Lookup, Dropped;
    MirrorEntry(s, id);
    RestingAt(s.book, id);
    CancelHeld(s.book, id, ids);
    WalkBalances(Retire(s.ledger, id), Cancel(s.book, {id}), TakerOf(Lookup(s.book)[id], price, qty), s.nextTrade, ids);
  }

  lemma RewalkRests(
    s: EngineState, id: OrderId, account: AccountId, price: Price, qty: Qty, l: Ledger, ids: iset<OrderId>)
    requires Inv(s) && s.book.arrivals < U64_MAX && Rewalks(s, id, account, price, qty)
    ensures var o, m := Lookup(s.book)[id], ReplaceWalk(s.book, id, price, qty, s.nextTrade);
      var trade := s.nextTrade + |m.fills|;
      var book := if m.stp == [] && QtyOf(m.left).Some?
        then Rest(m.book, ResidualOf(TakerOf(o, price, qty), price, QtyOf(m.left).value)) else m.book;
      var d := RestReplaced(EngineState(book, l, trade), id, account, o.side, price, m.stp != [], m.left);
      Balanced(EngineState(m.book, l, trade), d.ev,
               if m.stp == [] && (m.left == 0 || Uncapped(l, account, price, m.left)) then []
               else [Removal(id, m.left)],
               d.s, Share(id, m.left, ids), ids)
  {
    hide Valid, Uncrossed, Agrees, Balanced, Lookup, Rest, Walk, WouldCross, Cancel, Replace, RestReplaced,
         CheckCancelReplace, Uncapped, KeepsPriority;
    var o, c := Lookup(s.book)[id], Cancel(s.book, {id});
    var t := TakerOf(o, price, qty);
    var m := Match(c, t, s.nextTrade);
    MirrorEntry(s, id);
    CancelValid(s.book, {id});
    ReplaceCommits(s.book, id, price, qty, s.nextTrade);
    MatchValid(c, t, s.nextTrade);
    MatchResidual(c, t, s.nextTrade);
    WalkConserves(c.Of(t.side.Opposite()), t, qty, s.nextTrade);
    RestReplacedBalances(l, m, t, price, s.nextTrade + |m.fills|, ids);
  }

  lemma RewalkBalances(s: EngineState, id: OrderId, account: AccountId, price: Price, qty: Qty, ids: iset<OrderId>)
    requires Inv(s) && s.book.arrivals < U64_MAX && Rewalks(s, id, account, price, qty)
    ensures var h := HandleReplace(s, id, account, price, qty);
      Balanced(s, h.ev, ReplaceRemovals(s, id, account, price, qty), h.s, Share(id, qty, ids), ids)
  {
    hide Inv, Held, Lookup, Settle, Retire, Rest, Match, HandleReplace, ReplaceRemovals, RestReplaced, Uncapped,
         FilledLots, Closings, RemovedLots, RemovalIds, Dropped, CheckCancelReplace, Cancel;
    var m := ReplaceWalk(s.book, id, price, qty, s.nextTrade);
    RewalkHeld(s, id, account, price, qty, ids);
    RewalkRests(s, id, account, price, qty, Settle(Retire(s.ledger, id), m.fills, m.stp, account, qty).ledger, ids);
    RewalkAppends(s, id, account, price, qty, ids);
  }

  /** The messages and removals of a rewalk, part by part. */
  lemma RewalkAppends(s: EngineState, id: OrderId, account: AccountId, price: Price, qty: Qty, ids: iset<OrderId>)
    requires Inv(s) && s.book.arrivals < U64_MAX && Rewalks(s, id, account, price, qty)
    ensures var o, m := Lookup(s.book)[id], ReplaceWalk(s.book, id, price, qty, s.nextTrade);
      var l := Settle(Retire(s.ledger, id), m.fills, m.stp, account, qty);
      var book := if m.stp == [] && QtyOf(m.left).Some?
        then Rest(m.book, ResidualOf(TakerOf(o, price, qty), price, QtyOf(m.left).value)) else m.book;
      var d := RestReplaced(EngineState(book, l.ledger, s.nextTrade + |m.fills|), id, account, o.side, price,
          m.stp != [], m.left);
      var rs := if m.stp == [] && (m.left == 0 || Uncapped(l.ledger, account, price, m.left)) then []
      else [Removal(id, m.left)];
      var h, removals := HandleReplace(s, id, account, price, qty), ReplaceRemovals(s, id, account, price, qty);
      && h.s == d.s
      && FilledLots(h.ev, ids) == FilledLots(l.ev, ids) + FilledLots(d.ev, ids)
      && Closings(h.ev) == [id] + Closings(l.ev) + Closings(d.ev)
      && RemovedLots(removals, ids) == Share(id, o.qty, ids) + RemovedLots(Dropped(m.stp), ids) + RemovedLots(rs, ids)
      && RemovalIds(removals) == [id] + RemovalIds(Dropped(m.stp)) + RemovalIds(rs)
  {
    hide Valid, Uncrossed, Agrees, Lookup, Settle, Retire, Rest, Match, WouldCross, Cancel, Replace, RestReplaced,
         CheckCancelReplace, Uncapped, KeepsPriority;
    var o, m := Lookup(s.book)[id], ReplaceWalk(s.book, id, price, qty, s.nextTrade);
    MirrorEntry(s, id);
    ReplaceCommits(s.book, id, price, qty, s.nextTrade);
    var l := Settle(Retire(s.ledger, id), m.fills, m.stp, account, qty);
    var book := if m.stp == [] && QtyOf(m.left).Some?
      then Rest(m.book, ResidualOf(TakerOf(o, price, qty), price, QtyOf(m.left).value)) else m.book;
    var d := RestReplaced(EngineState(book, l.ledger, s.nextTrade + |m.fills|), id, account, o.side, price,
        m.stp != [], m.left);
    var rs := if m.stp == [] && (m.left == 0 || Uncapped(l.ledger, account, price, m.left)) then []
      else [Removal(id, m.left)];
    var e := ReplacedReport(id, account, qty);
    OneMessage(e, ids);
    MessagesAppend([e], l.ev, ids);
    MessagesAppend([e] + l.ev, d.ev, ids);
    OneRemoval(id, o.qty, ids);
    RemovalsAppend([Removal(id, o.qty)], Dropped(m.stp), ids);
    RemovalsAppend([Removal(id, o.qty)] + Dropped(m.stp), rs, ids);
  }

  lemma ReplaceBalances(s: EngineState, id: OrderId, account: AccountId, price: Price, qty: Qty, ids: iset<OrderId>)
    requires Inv(s) && s.book.arrivals < U64_MAX
    ensures var h := HandleReplace(s, id, account, price, qty);
      Balanced(s, h.ev, ReplaceRemovals(s, id, account, price, qty), h.s, Share(id, qty, ids), ids)
  {
    hide Inv, Balanced, CommitReplace, Lookup, WouldCross, Match, CheckCancelReplace;
    if InPlace(s, id, account, price, qty) {
      InPlaceBalances(s, id, account, price, qty, ids);
    } else if Rewalks(s, id, account, price, qty) {
      RewalkBalances(s, id, account, price, qty, ids);
    } else {
      var h := HandleReplace(s, id, account, price, qty);
      assert h.s == s && |h.ev| == 1 && h.ev == [h.ev[0]] && h.ev[0].Report? && h.ev[0].report.state == Rejected
          && h.ev[0].report.fillQty.None? && h.ev[0].report.id == id;
      RefusedBalances(s, h.ev[0], id, qty, ids);
    }
  }

  lemma CancelBalances(s: EngineState, id: OrderId, account: AccountId, ids: iset<OrderId>)
    requires Inv(s)
    ensures var h := HandleCancel(s, id, account);
      Balanced(s, h.ev, Removals(s, CancelOne(id, account)), h.s, 0, ids)
  {
    hide Valid, Uncrossed, Agrees, Held, Lookup, Cancel, Retire;
    var h := HandleCancel(s, id, account);
    assert |h.ev| == 1 && h.ev == [h.ev[0]];
    OneMessage(h.ev[0], ids);
    OneRemoval(id, 0, ids);
    if id in Lookup(s.book) {
      OneRemoval(id, Lookup(s.book)[id].qty, ids);
      CancelHeld(s.book, id, ids);
    }
  }

  /** Cancelling distinct resting orders takes off what each of them rested. */
  lemma {:induction false} DroppedHeld(b: FlatBook, cs: seq<Cancellation>, ids: iset<OrderId>)
    requires Valid(b)
    requires forall c :: c in cs ==> c.id in Lookup(b) && c == CancellationOf(Lookup(b)[c.id])
    requires forall i, j :: 0 <= i < j < |cs| ==> cs[i].id != cs[j].id
    ensures Held(b, ids) == Held(Cancel(b, IdsOf(cs)), ids) + RemovedLots(Dropped(cs), ids)
    decreases cs
  {
    hide Valid, Held, Lookup, Cancel;
    if cs == [] {
      CancelNone(b);
      assert IdsOf(cs) == {};
    } else {
      var id := cs[0].id;
      assert cs[0] in cs;
      forall c | c in cs[1..] ensures c in cs && c.id != id {
        var i :| 0 <= i < |cs[1..]| && cs[1..][i] == c;
        assert cs[i + 1] == c;
      }
      CancelValid(b, {id});
      CancelLookup(b, {id});
      CancelHeld(b, id, ids);
      DroppedHeld(Cancel(b, {id}), cs[1..], ids);
      CancelTwice(b, {id}, IdsOf(cs[1..]));
      assert cs == [cs[0]] + cs[1..];
      assert IdsOf(cs) == {id} + IdsOf(cs[1..]);
    }
  }

  lemma MassCancelBalances(s: EngineState, account: AccountId, ids: iset<OrderId>)
    requires Inv(s)
    ensures var h := HandleMassCancel(s, account);
      Balanced(s, h.ev, Removals(s, MassCancelAll(account)), h.s, 0, ids)
  {
    hide Valid, Uncrossed, Agrees, Held, Lookup, MassRecords, Cancel, RetireAll, IdsOf, Owned;
    var cs := MassRecords(s.book, account);
    if s.ledger.risk.killSwitch {
      OneMessage(RejectedReport(1, account, KillSwitched), ids);
      OneRemoval(1, 0, ids);
    } else {
      MassRecordIds(s.book, account);
      MassRecordsAscend(s.book, account);
      MassRecordsRest(s.book, account);
      DroppedHeld(s.book, cs, ids);
      RetireAllAccounts(s.ledger, cs, MassCancelled, ids);
    }
  }

  lemma MassRecordsRest(b: FlatBook, a: AccountId)
    requires Valid(b)
    ensures forall c :: c in MassRecords(b, a) ==> c.id in Lookup(b) && c == CancellationOf(Lookup(b)[c.id])
  {
    LookupFacts(b);
    hide Valid, Lookup, MassRecords;
    forall c | c in MassRecords(b, a) ensures c.id in Lookup(b) && c == CancellationOf(Lookup(b)[c.id]) {
      MassRecordsExact(b, a, c);
    }
  }

  // -------------------------------------------------------------------------
  // Steps and runs
  // -------------------------------------------------------------------------

  /** For every command and every set of orders: lots before plus lots entered are lots
      after plus lots filled plus lots removed, with a report for every removal. */
  lemma StepBalances(s: EngineState, cmd: Inbound, ids: iset<OrderId>)
    requires Inv(s) && s.book.arrivals < U64_MAX
    ensures Balanced(s, Step(s, cmd).ev, Removals(s, cmd), Step(s, cmd).s, EnteredBy(cmd, ids), ids)
  {
    hide Inv, Held, HandleNew, HandleCancel, HandleReplace, HandleMassCancel, NewRemovals, ReplaceRemovals, Tail,
         FilledLots, Closings, RemovedLots, RemovalIds;
    var h := Handle(s, cmd);
    TailKinds(s.book, h.s.book, cmd);
    QuietMessages(Tail(s.book, h.s.book, cmd), ids);
    MessagesAppend(h.ev, Tail(s.book, h.s.book, cmd), ids);
    match cmd
    case New(m) => NewBalances(s, m, ids);
    case CancelOne(id, account) => CancelBalances(s, id, account, ids);
    case CancelReplace(id, account, price, qty) => ReplaceBalances(s, id, account, price, qty, ids);
    case MassCancelAll(account) => MassCancelBalances(s, account, ids);
    case _ => NothingBalances(s, h.s, ids);
  }

  lemma NothingBalances(s: EngineState, s': EngineState, ids: iset<OrderId>)
    requires s'.book == s.book
    ensures Balanced(s, [], [], s', 0, ids)
  {
  }

  ghost function EnteredLots(cmds: seq<Inbound>, ids: iset<OrderId>): nat {
    if cmds == [] then 0 else EnteredBy(cmds[0], ids) + EnteredLots(cmds[1..], ids)
  }

  function RunRemovals(s: EngineState, cmds: seq<Inbound>): seq<Removal>
    decreases cmds
  {
    if cmds == [] then [] else Removals(s, cmds[0]) + RunRemovals(Step(s, cmds[0]).s, cmds[1..])
  }

  lemma {:induction false} RunBalances(s: EngineState, cmds: seq<Inbound>, ids: iset<OrderId>)
    requires Inv(s) && s.book.arrivals + |cmds| <= U64_MAX
    ensures Balanced(s, Run(s, cmds).ev, RunRemovals(s, cmds), Run(s, cmds).s, EnteredLots(cmds, ids), ids)
    decreases cmds
  {
    hide Inv, Handle, Tail, Held, Removals, EnteredBy;
    if cmds != [] {
      var first := Step(s, cmds[0]);
      HandleInv(s, cmds[0]);
      HandleArrivals(s, cmds[0]);
      StepBalances(s, cmds[0], ids);
      RunBalances(first.s, cmds[1..], ids);
      MessagesAppend(first.ev, Run(first.s, cmds[1..]).ev, ids);
      RemovalsAppend(Removals(s, cmds[0]), RunRemovals(first.s, cmds[1..]), ids);
    }
  }

  lemma {:induction false} EveryHeld(q: seq<Resting>, ids: iset<OrderId>)
    requires forall id: OrderId :: id in ids
    ensures Total(q, LotsIn(ids)) == Lots(q)
  {
    if q != [] { EveryHeld(q[1..], ids); }
  }

  /** The fill reports to everyone are all fill reports. */
  lemma {:induction false} EveryFill(ev: seq<Body>, ids: iset<OrderId>)
    requires forall id: OrderId :: id in ids
    ensures FilledLots(ev, ids) == ReportedLots(ev)
  {
    if ev != [] { EveryFill(ev[1..], ids); }
  }

  // -------------------------------------------------------------------------
  // One order
  // -------------------------------------------------------------------------

  function RestingLots(b: FlatBook, id: OrderId): nat {
    if id in Lookup(b) then Lookup(b)[id].qty else 0
  }

  lemma {:induction false} AbsentHeld(q: seq<Resting>, id: OrderId)
    requires forall o :: o in q ==> o.id != id
    ensures Total(q, LotsIn(iset{id})) == 0
  {
    if q != [] {
      assert q[0] in q;
      AbsentHeld(q[1..], id);
    }
  }

  lemma HeldOne(b: FlatBook, id: OrderId)
    requires Valid(b)
    ensures Held(b, iset{id}) == RestingLots(b, id)
  {
    var c := if id in Lookup(b) then Cancel(b, {id}) else b;
    if id in Lookup(b) {
      CancelHeld(b, id, iset{id});
      CancelValid(b, {id});
      CancelLookup(b, {id});
    }
    FreshOnBothSides(c, id);
    assert forall o :: o in c.bids ==> o in c.Of(Bid);
    assert forall o :: o in c.asks ==> o in c.Of(Ask);
    AbsentHeld(c.bids, id);
    AbsentHeld(c.asks, id);
  }

  lemma {:induction false} ClosingsIn(ev: seq<Body>, id: OrderId)
    ensures id in Closings(ev) ==>
        exists e :: e in ev && About(e, id) && e.report.state in {Cancelled, Rejected, Replaced}
  {
    if ev != [] && id in Closings(ev) {
      ClosingsIn(ev[1..], id);
      if id in ClosedBy(ev[0]) { assert ev[0] in ev && About(ev[0], id); }
    }
  }

  lemma {:induction false} NotRemoved(rs: seq<Removal>, id: OrderId)
    requires id !in RemovalIds(rs)
    ensures RemovedLots(rs, iset{id}) == 0
  {
    if rs != [] { NotRemoved(rs[1..], id); }
  }

  /** A step that does not end an order removes nothing from it but what it supersedes. */
  lemma UnendedRemovals(s: EngineState, cmd: Inbound, id: OrderId)
    requires Inv(s) && s.book.arrivals < U64_MAX && !EndedIn(Step(s, cmd).ev, id)
    ensures RemovedLots(Removals(s, cmd), iset{id}) ==
      if ReplacedIn(Step(s, cmd).ev, id) then RestingLots(s.book, id) else 0
  {
    hide Inv, Handle, Tail, Held, Removals, Closings, RemovalIds, FilledLots;
    var ev, rs := Step(s, cmd).ev, Removals(s, cmd);
    StepBalances(s, cmd, iset{id});
    StepEnds(s, cmd, id);
    if ReplacedIn(ev, id) {
      var h := Handle(s, cmd).ev;
      TailKinds(s.book, Handle(s, cmd).s.book, cmd);
      SupersededFirst(s, cmd);
      assert ev[1..] == h[1..] + Tail(s.book, Handle(s, cmd).s.book, cmd);
      ClosingsIn(ev[1..], id);
      ClosingsTail(ev, rs);
      NotRemoved(rs[1..], id);
    } else {
      ClosingsIn(ev, id);
      NotRemoved(rs, id);
    }
  }

  lemma ClosingsTail(ev: seq<Body>, rs: seq<Removal>)
    requires Closings(ev) == RemovalIds(rs)
    ensures ev != [] && ev[0].Report? && ev[0].report.state == Replaced ==>
        rs != [] && Closings(ev[1..]) == RemovalIds(rs[1..])
  {
    if ev != [] && ev[0].Report? && ev[0].report.state == Replaced {
      assert Closings(ev)[1..] == Closings(ev[1..]);
      assert RemovalIds(rs)[1..] == RemovalIds(rs[1..]);
    }
  }

  /** A committed replace supersedes first of all what its order rested. */
  lemma SupersededFirst(s: EngineState, cmd: Inbound)
    requires cmd.CancelReplace?
    ensures var ev, rs := Handle(s, cmd).ev, Removals(s, cmd);
      ev != [] && ev[0] == ReplacedReport(cmd.id, cmd.account, cmd.qty) ==>
        rs != [] && rs[0] == Removal(cmd.id, RestingLots(s.book, cmd.id))
  {
    hide CommitReplace, Lookup, WouldCross, Match, CheckCancelReplace, Settle, Uncapped, Dropped;
  }

  /** For an order whose last report in a step neither cancels nor rejects it, its fill
      reports and what it still rests make up its replaced quantity, or else what it
      rested before and entered now. */
  lemma OrderBalances(s: EngineState, cmd: Inbound, id: OrderId)
    requires Inv(s) && s.book.arrivals < U64_MAX
    ensures var ev, last := Step(s, cmd).ev, LastReport(Step(s, cmd).ev, id);
      last.None? || !Terminal(last.value) ==>
        FilledLots(ev, iset{id}) + RestingLots(Step(s, cmd).s.book, id) ==
          if ReplacedIn(ev, id) then EnteredBy(cmd, iset{id}) else RestingLots(s.book, id) + EnteredBy(cmd, iset{id})
  {
    hide Inv, Valid, Handle, Tail, Held, Removals, Closings, RemovalIds, FilledLots, RestingLots, ReplacedIn,
         LastReport;
    var last := LastReport(Step(s, cmd).ev, id);
    StepBalances(s, cmd, iset{id});
    StepEnds(s, cmd, id);
    HandleInv(s, cmd);
    InvValid(s);
    InvValid(Step(s, cmd).s);
    HeldOne(s.book, id);
    HeldOne(Step(s, cmd).s.book, id);
    if last.None? || !Terminal(last.value) { UnendedRemovals(s, cmd, id); }
  }
}
