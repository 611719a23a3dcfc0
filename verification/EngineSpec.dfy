/** The engine as a state machine on values: flat book, order registry, risk totals
    and the trade-id counter; each command yields the next state and the messages. */
module EngineSpec {
  import opened Domain
  import opened PriceTime
  import opened Messages
  import opened Risk

  /** What the engine remembers about a resting order. */
  datatype Entry = Entry(account: AccountId, side: Side, qty: Qty, notional: nat)

  datatype Ledger = Ledger(registry: map<OrderId, Entry>, risk: RiskView)

  datatype EngineState = EngineState(book: FlatBook, ledger: Ledger, nextTrade: nat)

  datatype Out = Out(s: EngineState, ev: seq<Body>)

  const INITIAL := EngineState(EMPTY, Ledger(map[], RiskView(false, map[], None)), 1)

  // -------------------------------------------------------------------------
  // Settling the walk
  // -------------------------------------------------------------------------

  datatype Settled = Settled(ledger: Ledger, ev: seq<Body>)

  /** Drop a registry entry and refund its notional. */
  function Retire(l: Ledger, id: OrderId): Ledger {
    if id in l.registry
    then Ledger(l.registry - {id}, OnOrderRemoved(l.risk, l.registry[id].account, l.registry[id].notional))
    else l
  }

  /** Reduce a partly filled maker's entry and refund the consumed notional. */
  function Reduce(l: Ledger, f: Fill): Ledger {
    if f.maker in l.registry then
      var e := l.registry[f.maker];
      var consumed := NotionalOf(f.price, f.qty);
      var qty := match QtyOf(SatSub(e.qty, f.qty)) case Some(n) => n case None => e.qty;
      Ledger(
        l.registry[f.maker := e.(qty := qty, notional := SatSub(e.notional, consumed))],
        OnOrderRemoved(l.risk, e.account, consumed))
    else l
  }

  function SettleFill(l: Ledger, f: Fill): Ledger {
    var l' := l.(risk := OnFill(l.risk, f.price));
    if f.makerFilled then Retire(l', f.maker) else Reduce(l', f)
  }

  function FillState(full: bool): ExecState { if full then Filled else PartiallyFilled }

  /** Trade print, maker report, taker report; `left` is the taker's leftover after the fill. */
  function FillEvents(l: Ledger, f: Fill, taker: AccountId, left: nat): seq<Body> {
    var known := f.maker in l.registry;
    var makerAccount := if known then l.registry[f.maker].account else taker;
    var makerLeaves :=
      if f.makerFilled || !known then None else QtyOf(SatSub(l.registry[f.maker].qty, f.qty));
    [ Trade(f.tradeId, f.price, f.qty, f.makerSide.Opposite()),
      FillReport(f.maker, makerAccount, FillState(f.makerFilled), f.price, f.qty, makerLeaves),
      FillReport(f.taker, taker, FillState(left == 0), f.price, f.qty, QtyOf(left)) ]
  }

  function SettleFills(l: Ledger, fills: seq<Fill>, taker: AccountId, left: nat): Settled
    decreases fills
  {
    if fills == [] then Settled(l, [])
    else
      var left' := SatSub(left, fills[0].qty);
      var rest := SettleFills(SettleFill(l, fills[0]), fills[1..], taker, left');
      Settled(rest.ledger, FillEvents(l, fills[0], taker, left') + rest.ev)
  }

  /** Report and retire a list of dropped makers. */
  function RetireAll(l: Ledger, cs: seq<Cancellation>, reason: CancelReason): Settled
    decreases cs
  {
    if cs == [] then Settled(l, [])
    else
      var rest := RetireAll(Retire(l, cs[0].id), cs[1..], reason);
      Settled(rest.ledger, [CancelledReport(cs[0].id, cs[0].account, reason)] + rest.ev)
  }

  function Settle(l: Ledger, fills: seq<Fill>, stp: seq<Cancellation>, taker: AccountId, left: nat): Settled {
    var a := SettleFills(l, fills, taker, left);
    var b := RetireAll(a.ledger, stp, SelfTrade);
    Settled(b.ledger, a.ev + b.ev)
  }

  // -------------------------------------------------------------------------
  // Handlers
  // -------------------------------------------------------------------------

  function NewTaker(m: NewOrder): Taker {
    Taker(m.id, m.account, m.side, m.price, m.qty, m.tif)
  }

  function HandleNew(s: EngineState, m: NewOrder): Out {
    match CheckNewOrder(s.ledger.risk, m, BestPrice(s.book.Of(m.side.Opposite())))
    case Some(reason) => Out(s, [RejectedReport(m.id, m.account, reason)])
    case None =>
      var w := Match(s.book, NewTaker(m), s.nextTrade);
      if w.postOnlyRejected then
        Out(s, [RejectedReport(m.id, m.account, PostOnlyWouldCross)])
      else
        var settled := Settle(s.ledger, w.fills, w.stp, m.account, m.qty);
        var d := Dispose(EngineState(w.book, settled.ledger, s.nextTrade + |w.fills|), m, w.stp != [], w.left);
        Out(d.s, settled.ev + d.ev)
  }

  /** Where a new order's leftover goes. */
  function Dispose(s: EngineState, m: NewOrder, stp: bool, left: nat): Out {
    if stp then Out(s, [CancelledReport(m.id, m.account, SelfTrade)])
    else if QtyOf(left).None? then Out(s, [])
    else if m.tif.Ioc? || m.price.None? then Out(s, [CancelledReport(m.id, m.account, IocRemaining)])
    else RestNew(s, m, m.price.value, QtyOf(left).value)
  }

  function RestNew(s: EngineState, m: NewOrder, price: Price, qty: Qty): Out {
    var notional := NotionalOf(price, qty);
    var risk := OnOrderResting(s.ledger.risk, m.account, notional);
    match CheckCaps(s.ledger.risk.StateOf(m.account), notional)
    case Some(reason) =>
      Out(s.(ledger := s.ledger.(risk := risk)), [RejectedReport(m.id, m.account, reason)])
    case None =>
      if RestError(s.book, m.id).Some? then
        Out(s.(ledger := s.ledger.(risk := OnOrderRemoved(risk, m.account, notional))),
            [RejectedReport(m.id, m.account, DuplicateOrderId)])
      else
        Out(s.(book := Rest(s.book, RestingOrder(m.id, m.account, m.side, price, qty, m.tif)),
               ledger := Ledger(s.ledger.registry[m.id := Entry(m.account, m.side, qty, notional)], risk)),
            [AcceptedReport(m.id, m.account, qty)])
  }

  /** The order is registered to another account. */
  predicate Foreign(l: Ledger, id: OrderId, account: AccountId) {
    id in l.registry && l.registry[id].account != account
  }

  function HandleCancel(s: EngineState, id: OrderId, account: AccountId): Out {
    if s.ledger.risk.killSwitch then Out(s, [RejectedReport(id, account, KillSwitched)])
    else if Foreign(s.ledger, id, account) || id !in Lookup(s.book) then
      Out(s, [RejectedReport(id, account, UnknownOrderId)])
    else
      Out(s.(book := Cancel(s.book, {id}), ledger := Retire(s.ledger, id)),
          [CancelledReport(id, account, UserRequested)])
  }

  function HandleReplace(s: EngineState, id: OrderId, account: AccountId, price: Price, qty: Qty): Out {
    match CheckCancelReplace(s.ledger.risk, price, qty)
    case Some(reason) => Out(s, [RejectedReport(id, account, reason)])
    case None =>
      if Foreign(s.ledger, id, account) then Out(s, [RejectedReport(id, account, UnknownOrderId)])
      else
        var r := Replace(s.book, id, price, qty, s.nextTrade);
        var s' := s.(book := r.book, nextTrade := s.nextTrade + |r.fills|);
        match r.outcome
        case Err(_) => Out(s', [RejectedReport(id, account, UnknownOrderId)])
        case Ok(Kept) => CommitReplace(s', id, account, price, qty, [], [], false, qty)
        case Ok(Walked(m)) =>
          if m.postOnlyRejected then Out(s', [RejectedReport(id, account, PostOnlyWouldCross)])
          else CommitReplace(s', id, account, price, qty, m.fills, m.stp, m.stp != [], m.left)
  }

  /** Book-keeping and reports of a committed replace; the book already changed. */
  function CommitReplace(
    s: EngineState, id: OrderId, account: AccountId, price: Price, qty: Qty,
    fills: seq<Fill>, stp: seq<Cancellation>, dropped: bool, left: nat): Out
  {
    var side := if id in s.ledger.registry then s.ledger.registry[id].side else Bid;
    var settled := Settle(Retire(s.ledger, id), fills, stp, account, qty);
    var d := RestReplaced(s.(ledger := settled.ledger), id, account, side, price, dropped, left);
    Out(d.s, [ReplacedReport(id, account, qty)] + settled.ev + d.ev)
  }

  function RestReplaced(
    s: EngineState, id: OrderId, account: AccountId, side: Side, price: Price, dropped: bool, left: nat): Out
  {
    if dropped then Out(s, [CancelledReport(id, account, SelfTrade)])
    else if QtyOf(left).None? then Out(s, [])
    else
      var qty := QtyOf(left).value;
      var notional := NotionalOf(price, qty);
      var risk := OnOrderResting(s.ledger.risk, account, notional);
      match CheckCaps(s.ledger.risk.StateOf(account), notional)
      case Some(reason) =>
        Out(s.(book := Cancel(s.book, {id}), ledger := s.ledger.(risk := risk)),
            [RejectedReport(id, account, reason)])
      case None =>
        Out(s.(ledger := Ledger(s.ledger.registry[id := Entry(account, side, qty, notional)], risk)), [])
  }

  function HandleMassCancel(s: EngineState, account: AccountId): Out {
    if s.ledger.risk.killSwitch then Out(s, [RejectedReport(1, account, KillSwitched)])
    else
      var settled := RetireAll(s.ledger, MassRecords(s.book, account), MassCancelled);
      Out(s.(book := MassCancel(s.book, account), ledger := settled.ledger), settled.ev)
  }

  function Handle(s: EngineState, cmd: Inbound): Out {
    match cmd
    case New(m) => HandleNew(s, m)
    case CancelOne(id, account) => HandleCancel(s, id, account)
    case CancelReplace(id, account, price, qty) => HandleReplace(s, id, account, price, qty)
    case MassCancelAll(account) => HandleMassCancel(s, account)
    case KillSwitchSet(halt) =>
      Out(s.(ledger := s.ledger.(risk := s.ledger.risk.(killSwitch := halt))), [])
    case SnapshotRequest(_) => Out(s, [])
  }

  // -------------------------------------------------------------------------
  // Market data
  // -------------------------------------------------------------------------

  datatype Row = Row(side: Side, price: Price, qty: nat)

  predicate RowBefore(a: Row, b: Row) {
    if a.side == b.side then a.price < b.price else a.side.Bid?
  }

  predicate SameLevel(a: Row, b: Row) { a.side == b.side && a.price == b.price }

  function RowsOf(side: Side, ds: seq<Rung>): seq<Row> {
    if ds == [] then [] else [Row(side, ds[0].price, ds[0].qty)] + RowsOf(side, ds[1..])
  }

  function Reversed<T>(xs: seq<T>): seq<T> {
    if xs == [] then [] else Reversed(xs[1..]) + [xs[0]]
  }

  /** Every level of the book, bids before asks, prices ascending. */
  function Rows(b: FlatBook): seq<Row> {
    Reversed(RowsOf(Bid, Depth(b.bids))) + RowsOf(Ask, Depth(b.asks))
  }

  function DeltaOf(r: Row, qty: nat): Body { Delta(r.side, r.price, qty) }

  /** The changes from one sorted row list to another. */
  function Diff(pre: seq<Row>, post: seq<Row>): seq<Body>
    decreases |pre| + |post|
  {
    if pre == [] && post == [] then []
    else if post == [] || (pre != [] && RowBefore(pre[0], post[0])) then
      [DeltaOf(pre[0], 0)] + Diff(pre[1..], post)
    else if pre == [] || !SameLevel(pre[0], post[0]) then
      [DeltaOf(post[0], post[0].qty)] + Diff(pre, post[1..])
    else
      (if pre[0].qty == post[0].qty then [] else [DeltaOf(post[0], post[0].qty)]) + Diff(pre[1..], post[1..])
  }

  /** The best price of a side, with the lots resting on the whole side. */
  function Quote(q: seq<Resting>): Option<Rung> {
    if q == [] then None else Some(Rung(q[0].price, Lots(q)))
  }

  function TopOf(b: FlatBook): Body { Top(Quote(b.bids), Quote(b.asks)) }

  /** The messages that follow the handler's own. */
  function Tail(pre: FlatBook, post: FlatBook, cmd: Inbound): seq<Body> {
    match cmd
    case KillSwitchSet(_) => []
    case SnapshotRequest(requestId) => [Snapshot(requestId, Depth(post.bids), Depth(post.asks))]
    case _ => Diff(Rows(pre), Rows(post)) + [TopOf(post)]
  }

  function Step(s: EngineState, cmd: Inbound): Out {
    var h := Handle(s, cmd);
    Out(h.s, h.ev + Tail(s.book, h.s.book, cmd))
  }

  function Run(s: EngineState, cmds: seq<Inbound>): Out
    decreases cmds
  {
    if cmds == [] then Out(s, [])
    else
      var first := Step(s, cmds[0]);
      var rest := Run(first.s, cmds[1..]);
      Out(rest.s, first.ev + rest.ev)
  }
}
