/** The flat specification of a price-time-priority book.

    A side is one sequence of resting orders, best price first and, within a
    price, earliest arrival first.  Levels, sidecars and per-account sets do not
    exist here; `Matching.Book` has them and is proved to refine this module. */
module PriceTime {
  import opened Domain

  datatype Resting = Resting(
    id: OrderId, account: AccountId, side: Side, price: Price, qty: Qty, tif: Tif, arrival: nat)

  /** A request to rest an order; the book assigns the arrival number. */
  datatype RestingOrder = RestingOrder(
    id: OrderId, account: AccountId, side: Side, price: Price, qty: Qty, tif: Tif)

  /** An aggressive order; `price.None?` is a market order. */
  datatype Taker = Taker(
    id: OrderId, account: AccountId, side: Side, price: Option<Price>, qty: Qty, tif: Tif)

  datatype Fill = Fill(
    tradeId: nat, maker: OrderId, taker: OrderId, makerSide: Side,
    price: Price, qty: Qty, makerFilled: bool)

  /** The record of a maker dropped by self-trade prevention or a mass cancel. */
  datatype Cancellation = Cancellation(
    id: OrderId, account: AccountId, side: Side, price: Price, qty: Qty)

  datatype BookError = DuplicateId | UnknownId | SeqOverflow

  datatype FlatBook = FlatBook(bids: seq<Resting>, asks: seq<Resting>, arrivals: nat)
  {
    function Of(side: Side): seq<Resting> {
      if side.Bid? then bids else asks
    }

    function With(side: Side, q: seq<Resting>): FlatBook {
      if side.Bid? then this.(bids := q) else this.(asks := q)
    }
  }

  const EMPTY := FlatBook([], [], 0)

  // -------------------------------------------------------------------------
  // Priority
  // -------------------------------------------------------------------------

  predicate Better(side: Side, p: Price, q: Price) {
    if side.Bid? then p > q else p < q
  }

  /** `a` trades before `b` on `side`. */
  predicate Ahead(side: Side, a: Resting, b: Resting) {
    Better(side, a.price, b.price) || (a.price == b.price && a.arrival < b.arrival)
  }

  ghost predicate Sorted(side: Side, q: seq<Resting>) {
    forall i, j :: 0 <= i < j < |q| ==> Ahead(side, q[i], q[j])
  }

  ghost predicate Distinct(q: seq<Resting>) {
    forall i, j :: 0 <= i < j < |q| ==> q[i].id != q[j].id
  }

  ghost predicate Disjoint(q: seq<Resting>, r: seq<Resting>) {
    forall x, y :: x in q && y in r ==> x.id != y.id
  }

  /** Every order of `q` is on `side`, arrived by `arrivals` and is not an IOC. */
  ghost predicate Placed(side: Side, q: seq<Resting>, arrivals: nat) {
    forall o :: o in q ==> o.side == side && 0 < o.arrival <= arrivals && !o.tif.Ioc?
  }

  ghost predicate ValidSide(side: Side, q: seq<Resting>, arrivals: nat) {
    Sorted(side, q) && Distinct(q) && Placed(side, q, arrivals)
  }

  ghost predicate Valid(b: FlatBook) {
    && ValidSide(Bid, b.bids, b.arrivals)
    && ValidSide(Ask, b.asks, b.arrivals)
    && Disjoint(b.bids, b.asks)
    && b.arrivals <= U64_MAX
  }

  ghost predicate Uncrossed(b: FlatBook) {
    forall x, y :: x in b.bids && y in b.asks ==> x.price < y.price
  }

  function BestPrice(q: seq<Resting>): Option<Price> {
    if q == [] then None else Some(q[0].price)
  }

  // -------------------------------------------------------------------------
  // Views: by id, and weighted totals
  // -------------------------------------------------------------------------

  function MapOf(q: seq<Resting>): map<OrderId, Resting> {
    if q == [] then map[] else MapOf(q[1..])[q[0].id := q[0]]
  }

  /** The book as a finite map from resting id to order. */
  function Lookup(b: FlatBook): map<OrderId, Resting> {
    MapOf(b.bids) + MapOf(b.asks)
  }

  function Total(q: seq<Resting>, w: Resting -> nat): nat {
    if q == [] then 0 else w(q[0]) + Total(q[1..], w)
  }

  function Notional(o: Resting): nat {
    o.price * o.qty
  }

  function LotsOf(): Resting -> nat {
    (o: Resting) => o.qty
  }

  function ExposureOf(a: AccountId): Resting -> nat {
    (o: Resting) => if o.account == a then Notional(o) else 0
  }

  function CountOf(a: AccountId): Resting -> nat {
    (o: Resting) => if o.account == a then 1 else 0
  }

  function AtPrice(p: Price): Resting -> nat {
    (o: Resting) => if o.price == p then o.qty else 0
  }

  function Lots(q: seq<Resting>): nat { Total(q, LotsOf()) }

  /** Sum of price times residual quantity over the account's resting orders. */
  function Exposure(b: FlatBook, a: AccountId): nat {
    Total(b.bids, ExposureOf(a)) + Total(b.asks, ExposureOf(a))
  }

  function OrderCount(b: FlatBook, a: AccountId): nat {
    Total(b.bids, CountOf(a)) + Total(b.asks, CountOf(a))
  }

  /** The queue grouped by price, best first. */
  function Depth(q: seq<Resting>): seq<Rung> {
    if q == [] then []
    else
      var rest := Depth(q[1..]);
      if rest != [] && rest[0].price == q[0].price
      then [Rung(q[0].price, q[0].qty + rest[0].qty)] + rest[1..]
      else [Rung(q[0].price, q[0].qty)] + rest
  }

  // -------------------------------------------------------------------------
  // Queue edits
  // -------------------------------------------------------------------------

  /** Insert at the tail of the order's price. */
  function Insert(side: Side, q: seq<Resting>, o: Resting): seq<Resting> {
    if q == [] then [o]
    else if Ahead(side, q[0], o) then [q[0]] + Insert(side, q[1..], o)
    else [o] + q
  }

  function Without(q: seq<Resting>, ids: set<OrderId>): seq<Resting> {
    if q == [] then []
    else if q[0].id in ids then Without(q[1..], ids)
    else [q[0]] + Without(q[1..], ids)
  }

  function SetQty(q: seq<Resting>, id: OrderId, n: Qty): seq<Resting> {
    if q == [] then []
    else if q[0].id == id then [q[0].(qty := n)] + SetQty(q[1..], id, n)
    else [q[0]] + SetQty(q[1..], id, n)
  }

  // -------------------------------------------------------------------------
  // Matching
  // -------------------------------------------------------------------------

  predicate Crosses(taker: Side, limit: Option<Price>, p: Price) {
    limit.Some? ==> if taker.Bid? then limit.value >= p else limit.value <= p
  }

  function CancellationOf(o: Resting): Cancellation {
    Cancellation(o.id, o.account, o.side, o.price, o.qty)
  }

  function FillOf(o: Resting, t: Taker, qty: Qty, trade: nat): Fill {
    Fill(trade, o.id, t.id, t.side.Opposite(), o.price, qty, qty == o.qty)
  }

  datatype WalkResult = WalkResult(
    fills: seq<Fill>, stp: seq<Cancellation>, left: nat, queue: seq<Resting>)

  /** Consume the opposite queue head by head: stop when filled, when the head
      does not cross, or, dropping the head, when it belongs to the taker's account. */
  function Walk(q: seq<Resting>, t: Taker, left: nat, trade: nat): WalkResult {
    if left == 0 || q == [] || !Crosses(t.side, t.price, q[0].price) then
      WalkResult([], [], left, q)
    else if q[0].account == t.account then
      WalkResult([], [CancellationOf(q[0])], left, q[1..])
    else if left < q[0].qty then
      WalkResult([FillOf(q[0], t, left, trade)], [], 0, [q[0].(qty := q[0].qty - left)] + q[1..])
    else
      var w := Walk(q[1..], t, left - q[0].qty, trade + 1);
      w.(fills := [FillOf(q[0], t, q[0].qty, trade)] + w.fills)
  }

  predicate WouldCross(b: FlatBook, side: Side, price: Option<Price>) {
    var opp := b.Of(side.Opposite());
    opp != [] && Crosses(side, price, opp[0].price)
  }

  datatype Matched = Matched(
    book: FlatBook, fills: seq<Fill>, stp: seq<Cancellation>, left: nat, postOnlyRejected: bool)

  function Match(b: FlatBook, t: Taker, trade: nat): Matched {
    if t.tif.PostOnly? && WouldCross(b, t.side, t.price) then
      Matched(b, [], [], t.qty, true)
    else
      var w := Walk(b.Of(t.side.Opposite()), t, t.qty, trade);
      Matched(b.With(t.side.Opposite(), w.queue), w.fills, w.stp, w.left, false)
  }

  function RestError(b: FlatBook, id: OrderId): Option<BookError> {
    if id in Lookup(b) then Some(DuplicateId)
    else if b.arrivals >= U64_MAX then Some(SeqOverflow)
    else None
  }

  function Arrive(o: RestingOrder, arrival: nat): Resting {
    Resting(o.id, o.account, o.side, o.price, o.qty, o.tif, arrival)
  }

  function Rest(b: FlatBook, o: RestingOrder): FlatBook {
    b.With(o.side, Insert(o.side, b.Of(o.side), Arrive(o, b.arrivals + 1))).(arrivals := b.arrivals + 1)
  }

  function Cancel(b: FlatBook, ids: set<OrderId>): FlatBook {
    FlatBook(Without(b.bids, ids), Without(b.asks, ids), b.arrivals)
  }

  /** What a replace does once it has found its order. */
  datatype ReplaceOutcome = Kept | Walked(m: Matched)

  /** The trades stand even when resting the leftover then fails. */
  datatype ReplaceResult = ReplaceResult(
    book: FlatBook, fills: seq<Fill>, stp: seq<Cancellation>, outcome: Result<ReplaceOutcome, BookError>)

  function TakerOf(o: Resting, price: Price, qty: Qty): Taker {
    Taker(o.id, o.account, o.side, Some(price), qty, o.tif)
  }

  function Replace(b: FlatBook, id: OrderId, price: Price, qty: Qty, trade: nat): ReplaceResult {
    if id !in Lookup(b) then
      ReplaceResult(b, [], [], Err(UnknownId))
    else
      var o := Lookup(b)[id];
      if price == o.price && qty <= o.qty then
        ReplaceResult(b.With(o.side, SetQty(b.Of(o.side), id, qty)), [], [], Ok(Kept))
      else if o.tif.PostOnly? && WouldCross(b, o.side, Some(price)) then
        ReplaceResult(b, [], [], Ok(Walked(Matched(b, [], [], qty, true))))
      else
        var t := TakerOf(o, price, qty);
        RestResidual(Match(Cancel(b, {id}), t, trade), t)
  }

  /** Rest what the walk left over, unless self-trade prevention dropped it. */
  function RestResidual(m: Matched, t: Taker): ReplaceResult {
    if m.stp != [] || QtyOf(m.left).None? || t.price.None? then
      ReplaceResult(m.book, m.fills, m.stp, Ok(Walked(m)))
    else
      var o := ResidualOf(t, t.price.value, QtyOf(m.left).value);
      match RestError(m.book, t.id)
      case Some(e) => ReplaceResult(m.book, m.fills, m.stp, Err(e))
      case None => ReplaceResult(Rest(m.book, o), m.fills, m.stp, Ok(Walked(m)))
  }

  function ResidualOf(t: Taker, price: Price, qty: Qty): RestingOrder {
    RestingOrder(t.id, t.account, t.side, price, qty, t.tif)
  }

  /** Ids resting for `a`. */
  function Owned(m: map<OrderId, Resting>, a: AccountId): set<OrderId> {
    set id | id in m && m[id].account == a
  }

  lemma {:induction false} LeastOf(ids: set<OrderId>) returns (m: OrderId)
    requires ids != {}
    ensures m in ids && forall x :: x in ids ==> m <= x
  {
    m :| m in ids;
    var rest := ids - {m};
    assert ids == rest + {m};
    if rest != {} {
      var n := LeastOf(rest);
      if n < m { m := n; }
    }
  }

  lemma LeastExists(ids: set<OrderId>)
    requires ids != {}
    ensures exists m :: m in ids && forall x :: x in ids ==> m <= x
  {
    var m := LeastOf(ids);
  }

  function Least(ids: set<OrderId>): (m: OrderId)
    requires ids != {}
    ensures m in ids && forall x :: x in ids ==> m <= x
  {
    LeastExists(ids);
    var m :| m in ids && forall x :: x in ids ==> m <= x;
    m
  }

  /** The iteration order of an ordered set of ids. */
  function Ascending(ids: set<OrderId>): seq<OrderId> {
    if ids == {} then [] else [Least(ids)] + Ascending(ids - {Least(ids)})
  }

  lemma {:induction false} AscendingFacts(ids: set<OrderId>)
    ensures forall x :: x in Ascending(ids) <==> x in ids
    ensures forall i, j :: 0 <= i < j < |Ascending(ids)| ==> Ascending(ids)[i] < Ascending(ids)[j]
  {
    if ids != {} {
      var m := Least(ids);
      AscendingFacts(ids - {m});
      var tail := Ascending(ids - {m});
      forall j | 0 <= j < |tail| ensures m < tail[j] {
        assert tail[j] in ids - {m};
      }
    }
  }

  function Records(m: map<OrderId, Resting>, ids: seq<OrderId>): seq<Cancellation> {
    if ids == [] then []
    else (if ids[0] in m then [CancellationOf(m[ids[0]])] else []) + Records(m, ids[1..])
  }

  /** The cancellations a mass cancel of `a` reports. */
  function MassRecords(b: FlatBook, a: AccountId): seq<Cancellation> {
    Records(Lookup(b), Ascending(Owned(Lookup(b), a)))
  }

  function MassCancel(b: FlatBook, a: AccountId): FlatBook {
    Cancel(b, Owned(Lookup(b), a))
  }
}
