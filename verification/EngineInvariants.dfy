/** What every command keeps: the registry mirrors the book, the risk totals are the
    book's totals, and the book stays valid and uncrossed. */
module EngineInvariants {
  import opened Domain
  import opened PriceTime
  import opened QueueLaws
  import opened WalkLaws
  import opened BookLaws
  import opened Messages
  import opened Risk
  import opened EngineSpec

  function EntryOf(o: Resting): Entry { Entry(o.account, o.side, o.qty, Notional(o)) }

  function Entries(m: map<OrderId, Resting>): map<OrderId, Entry> {
    map id | id in m :: EntryOf(m[id])
  }

  /** How far open-order counts may fall short of the resting orders: by at most `n`, for
      the account `who` or, if none is named, for every account. */
  datatype Lag = Unbounded | AtMost(who: Option<AccountId>, n: nat)
  {
    function Who(): Option<AccountId> { if Unbounded? then None else who }

    function Grow(grows: bool): Lag { if grows && AtMost? then AtMost(who, n + 1) else this }
  }

  const EXACT := AtMost(None, 0)

  function Partials(fs: seq<Fill>): nat {
    if fs == [] then 0 else (if fs[0].makerFilled then 0 else 1) + Partials(fs[1..])
  }

  /** One account's totals against the book.  The open-order count is a lower bound of
      the resting orders, and falls short of them by at most `lag`. */
  ghost predicate Accounted(s: AccountState, b: FlatBook, a: AccountId, lag: Lag := Unbounded) {
    && s.notional == Exposure(b, a) <= MAX_NOTIONAL_PER_ACCT
    && s.openOrders <= OrderCount(b, a)
    && s.openOrders <= MAX_OPEN_ORDERS_PER_ACCT
    && (lag.AtMost? && OneOf(lag.who, a) ==> OrderCount(b, a) <= s.openOrders + lag.n)
  }

  ghost predicate Totalled(risk: RiskView, b: FlatBook, lag: Lag := Unbounded) {
    forall a: AccountId :: Accounted(risk.StateOf(a), b, a, lag)
  }

  /** The registry and the risk totals agree with the book. */
  ghost predicate Agrees(l: Ledger, b: FlatBook, lag: Lag := Unbounded) {
    l.registry == Entries(Lookup(b)) && Totalled(l.risk, b, lag)
  }

  ghost predicate Inv(s: EngineState, lag: Lag := Unbounded) {
    Valid(s.book) && Uncrossed(s.book) && Agrees(s.ledger, s.book, lag)
  }

  lemma AgreesWeaken(l: Ledger, b: FlatBook, lag: Lag)
    requires Agrees(l, b, lag)
    ensures Agrees(l, b)
  {
    forall a: AccountId ensures Accounted(l.risk.StateOf(a), b, a) {
      assert Accounted(l.risk.StateOf(a), b, a, lag);
    }
  }

  /** A walk fills a maker partly exactly when the taker's quantity runs out inside a
      maker in reach, and then one maker only. */
  lemma {:induction false} WalkPartials(q: seq<Resting>, t: Taker, left: nat, trade: nat)
    ensures Partials(Walk(q, t, left, trade).fills) == if EndsInside(q, t, left) then 1 else 0
  {
    hide Walk;
    WalkUnrolls(q, t, left, trade);
    var w, n := Walk(q, t, left, trade), Reach(q, t);
    EndsInsideUnrolls(q, t, left);
    if left == 0 || q == [] || !Tradable(t, q[0]) {
    } else if left < q[0].qty {
      assert w.fills[1..] == [];
    } else {
      WalkPartials(q[1..], t, left - q[0].qty, trade + 1);
    }
  }

  // -------------------------------------------------------------------------
  // One order leaves, shrinks or joins
  // -------------------------------------------------------------------------

  lemma CancelTotals(b: FlatBook, id: OrderId, w: Resting -> nat)
    requires Valid(b) && id in Lookup(b)
    ensures var c := Cancel(b, {id});
      Total(b.bids, w) + Total(b.asks, w) == Total(c.bids, w) + Total(c.asks, w) + w(Lookup(b)[id])
  {
    var o := Lookup(b)[id];
    LookupFacts(b);
    CancelOtherSide(b, id);
    WithoutTotal(b.Of(o.side), o, w);
  }

  lemma ResizeTotals(b: FlatBook, o: Resting, n: Qty, w: Resting -> nat)
    requires Valid(b) && o in b.Of(o.side)
    ensures var c := b.With(o.side, SetQty(b.Of(o.side), o.id, n));
      Total(c.bids, w) + Total(c.asks, w) + w(o) == Total(b.bids, w) + Total(b.asks, w) + w(o.(qty := n))
  {
    SetQtyTotal(b.Of(o.side), o, n, w);
  }

  lemma RestTotals(b: FlatBook, o: RestingOrder, w: Resting -> nat)
    ensures var c := Rest(b, o);
      Total(c.bids, w) + Total(c.asks, w) == Total(b.bids, w) + Total(b.asks, w) + w(Arrive(o, b.arrivals + 1))
  {
    InsertTotal(o.side, b.Of(o.side), Arrive(o, b.arrivals + 1), w);
  }

  lemma EntriesEdit(m: map<OrderId, Resting>, id: OrderId, o: Resting)
    ensures Entries(m - {id}) == Entries(m) - {id}
    ensures Entries(m[id := o]) == Entries(m)[id := EntryOf(o)]
  {
  }

  /** Removing notional the account really holds never saturates. */
  lemma RemovedAccounted(
    r: RiskView, who: AccountId, n: nat, gone: nat, b: FlatBook, c: FlatBook, a: AccountId, lag: Lag := Unbounded)
    requires Accounted(r.StateOf(a), b, a, lag)
    requires Exposure(b, a) == Exposure(c, a) + (if a == who then n else 0)
    requires gone <= 1 && OrderCount(b, a) == OrderCount(c, a) + (if a == who then gone else 0)
    ensures Accounted(OnOrderRemoved(r, who, n).StateOf(a), c, a, lag.Grow(gone == 0 && OneOf(lag.Who(), who)))
  {
  }

  lemma RestedAccounted(
    r: RiskView, who: AccountId, n: nat, b: FlatBook, c: FlatBook, a: AccountId, lag: Lag := Unbounded)
    requires Accounted(r.StateOf(a), b, a, lag)
    requires CheckCaps(r.StateOf(who), n).None?
    requires Exposure(c, a) == Exposure(b, a) + (if a == who then n else 0)
    requires OrderCount(c, a) == OrderCount(b, a) + (if a == who then 1 else 0)
    ensures Accounted(OnOrderResting(r, who, n).StateOf(a), c, a, lag)
  {
  }

  lemma RetireKeeps(l: Ledger, b: FlatBook, id: OrderId, lag: Lag := Unbounded)
    requires Valid(b) && Agrees(l, b, lag) && id in Lookup(b)
    ensures Agrees(Retire(l, id), Cancel(b, {id}), lag)
  {
    var o := Lookup(b)[id];
    CancelLookup(b, {id});
    EntriesEdit(Lookup(b), id, o);
    hide Valid, Lookup, Cancel, OnOrderRemoved, Accounted;
    forall a: AccountId ensures Accounted(Retire(l, id).risk.StateOf(a), Cancel(b, {id}), a, lag) {
      CancelTotals(b, id, ExposureOf(a));
      CancelTotals(b, id, CountOf(a));
      RemovedAccounted(l.risk, o.account, Notional(o), 1, b, Cancel(b, {id}), a, lag);
    }
  }

  /** A partial fill takes exactly the traded notional off the maker and its account:
      no subtraction saturates. */
  lemma ReduceKeeps(l: Ledger, b: FlatBook, o: Resting, f: Fill, lag: Lag := Unbounded)
    requires Valid(b) && Agrees(l, b, lag) && o in b.Of(o.side)
    requires f.maker == o.id && f.price == o.price && f.qty < o.qty
    ensures Agrees(Reduce(l, f), b.With(o.side, SetQty(b.Of(o.side), o.id, o.qty - f.qty)),
                   lag.Grow(OneOf(lag.Who(), o.account)))
  {
    hide Valid, Lookup, SetQty, OnOrderRemoved, Accounted, Notional, NotionalOf, Entries;
    var n: Qty := o.qty - f.qty;
    var c := b.With(o.side, SetQty(b.Of(o.side), o.id, n));
    ResizeLookup(b, o, n);
    AgreedEntry(l, b, o.id, lag);
    NotionalSplits(o, n, f.qty);
    EntriesEdit(Lookup(b), o.id, o.(qty := n));
    forall a: AccountId ensures Accounted(Reduce(l, f).risk.StateOf(a), c, a, lag.Grow(OneOf(lag.Who(), o.account))) {
      ResizeTotals(b, o, n, ExposureOf(a));
      ResizeTotals(b, o, n, CountOf(a));
      RemovedAccounted(l.risk, o.account, NotionalOf(f.price, f.qty), 0, b, c, a, lag);
    }
  }

  lemma NotionalSplits(o: Resting, left: Qty, gone: Qty)
    requires left + gone == o.qty
    ensures Notional(o) == Notional(o.(qty := left)) + NotionalOf(o.price, gone)
  {
  }

  lemma RestKeeps(l: Ledger, b: FlatBook, o: RestingOrder, lag: Lag := Unbounded)
    requires Valid(b) && Agrees(l, b, lag) && RestError(b, o.id).None?
    requires CheckCaps(l.risk.StateOf(o.account), NotionalOf(o.price, o.qty)).None?
    ensures var n := NotionalOf(o.price, o.qty);
      Agrees(Ledger(l.registry[o.id := Entry(o.account, o.side, o.qty, n)],
          OnOrderResting(l.risk, o.account, n)), Rest(b, o), lag)
  {
    var n, x := NotionalOf(o.price, o.qty), Arrive(o, b.arrivals + 1);
    RestLookup(b, o);
    EntriesEdit(Lookup(b), o.id, x);
    hide Valid, Lookup, Rest, OnOrderResting, Accounted, CheckCaps;
    forall a: AccountId ensures Accounted(OnOrderResting(l.risk, o.account, n).StateOf(a), Rest(b, o), a, lag) {
      RestTotals(b, o, ExposureOf(a));
      RestTotals(b, o, CountOf(a));
      RestedAccounted(l.risk, o.account, n, b, Rest(b, o), a, lag);
    }
  }

  // -------------------------------------------------------------------------
  // Settling a walk
  // -------------------------------------------------------------------------

  lemma FillPriceKeeps(l: Ledger, b: FlatBook, price: Price, lag: Lag := Unbounded)
    requires Agrees(l, b, lag)
    ensures Agrees(l.(risk := OnFill(l.risk, price)), b, lag)
    ensures forall a: AccountId :: OnFill(l.risk, price).StateOf(a) == l.risk.StateOf(a)
  {
    forall a: AccountId ensures OnFill(l.risk, price).StateOf(a) == l.risk.StateOf(a) { }
  }

  lemma RemovedElsewhere(r: RiskView, who: AccountId, n: nat, a: AccountId)
    requires a != who
    ensures OnOrderRemoved(r, who, n).StateOf(a) == r.StateOf(a)
  {
  }

  /** Settling the first fill of a walk keeps the ledger and spares the taker's account. */
  lemma SettleHeadKeeps(l: Ledger, b: FlatBook, side: Side, f: Fill, taker: AccountId, lag: Lag := Unbounded)
    requires Valid(b) && Agrees(l, b, lag) && b.Of(side) != []
    requires var h := b.Of(side)[0];
      f.maker == h.id && f.price == h.price && f.qty <= h.qty && f.makerFilled == (f.qty == h.qty) && h.account != taker
    ensures var q := b.Of(side);
      && Agrees(SettleFill(l, f),
              b.With(side, (if f.makerFilled then [] else [q[0].(qty := q[0].qty - f.qty)]) + q[1..]),
                lag.Grow(!f.makerFilled && OneOf(lag.Who(), q[0].account)))
      && SettleFill(l, f).risk.StateOf(taker) == l.risk.StateOf(taker)
  {
    hide Valid, Agrees, Lookup, Cancel, OnOrderRemoved, Notional, NotionalOf;
    var h := b.Of(side)[0];
    HeadResting(b, side);
    DistinctSide(b, side);
    AgreedEntry(l, b, h.id, lag);
    FillPriceKeeps(l, b, f.price, lag);
    var l' := l.(risk := OnFill(l.risk, f.price));
    if f.makerFilled {
      RetireKeeps(l', b, h.id, lag);
      PopHead(b, side);
      assert [] + b.Of(side)[1..] == b.Of(side)[1..];
      RemovedElsewhere(l'.risk, h.account, Notional(h), taker);
    } else {
      ReduceKeeps(l', b, h, f, lag);
      SetQtyHead(b.Of(side), h.qty - f.qty);
      RemovedElsewhere(l'.risk, h.account, NotionalOf(f.price, f.qty), taker);
    }
  }

  /** Settling a walk, unrolled by its first fill. */
  lemma SettleCons(l: Ledger, f: Fill, fs: seq<Fill>, stp: seq<Cancellation>, taker: AccountId, left: nat)
    ensures var left' := SatSub(left, f.qty);
      var rest := Settle(SettleFill(l, f), fs, stp, taker, left');
      Settle(l, [f] + fs, stp, taker, left) == Settled(rest.ledger, FillEvents(l, f, taker, left') + rest.ev)
  {
    hide FillEvents, SettleFill;
    var left' := SatSub(left, f.qty);
    var a := SettleFills(SettleFill(l, f), fs, taker, left');
    var b := RetireAll(a.ledger, stp, SelfTrade);
    assert ([f] + fs)[1..] == fs;
    assert (FillEvents(l, f, taker, left') + a.ev) + b.ev == FillEvents(l, f, taker, left') + (a.ev + b.ev);
  }

  lemma SettleDrop(l: Ledger, c: Cancellation, taker: AccountId, left: nat)
    ensures Settle(l, [], [c], taker, left)
         == Settled(Retire(l, c.id), [CancelledReport(c.id, c.account, SelfTrade)])
  {
    assert [c][1..] == [];
    assert RetireAll(Retire(l, c.id), [], SelfTrade) == Settled(Retire(l, c.id), []);
  }

  lemma SettleNothing(l: Ledger, taker: AccountId, left: nat)
    ensures Settle(l, [], [], taker, left) == Settled(l, [])
  {
  }

  lemma {:induction false} SettleKeeps(l: Ledger, b: FlatBook, t: Taker, left: nat, trade: nat, lag: Lag := Unbounded)
    requires Valid(b) && Agrees(l, b, lag)
    ensures var w := Walk(b.Of(t.side.Opposite()), t, left, trade);
      var l' := Settle(l, w.fills, w.stp, t.account, left).ledger;
      && Agrees(l', b.With(t.side.Opposite(), w.queue),
          lag.Grow(EndsInside(b.Of(t.side.Opposite()), t, left, lag.Who())))
      && (w.stp == [] ==> l'.risk.StateOf(t.account) == l.risk.StateOf(t.account))
    decreases |b.Of(t.side.Opposite())|
  {
    hide Valid, Agrees, Settle, SettleFill, Lookup, Cancel, Retire, Walk, EndsInside, OneOf;
    var side := t.side.Opposite();
    var q := b.Of(side);
    var w := Walk(q, t, left, trade);
    WalkUnrolls(q, t, left, trade);
    EndsInsideUnrolls(q, t, left, lag.Who());
    if left == 0 || q == [] || !Crosses(t.side, t.price, q[0].price) {
      assert b.With(side, q) == b;
      SettleNothing(l, t.account, left);
    } else if q[0].account == t.account {
      HeadResting(b, side);
      PopHead(b, side);
      RetireKeeps(l, b, q[0].id, lag);
      SettleDrop(l, CancellationOf(q[0]), t.account, left);
    } else {
      var f := w.fills[0];
      SettleHeadKeeps(l, b, side, f, t.account, lag);
      SettleCons(l, f, w.fills[1..], w.stp, t.account, left);
      assert w.fills == [f] + w.fills[1..];
      if left >= q[0].qty {
        PopHead(b, side);
        CancelValid(b, {q[0].id});
        assert [] + q[1..] == q[1..];
        SettleKeeps(SettleFill(l, f), b.With(side, q[1..]), t, left - q[0].qty, trade + 1, lag);
      } else {
        SettleNothing(SettleFill(l, f), t.account, 0);
        assert w.fills[1..] == [];
      }
    }
  }

  lemma AgreedEntry(l: Ledger, b: FlatBook, id: OrderId, lag: Lag := Unbounded)
    requires Agrees(l, b, lag) && id in Lookup(b)
    ensures id in l.registry && l.registry[id] == EntryOf(Lookup(b)[id])
  {
  }

  lemma HeadResting(b: FlatBook, side: Side)
    requires Valid(b) && b.Of(side) != []
    ensures b.Of(side)[0].id in Lookup(b) && Lookup(b)[b.Of(side)[0].id] == b.Of(side)[0]
    ensures b.Of(side)[0].side == side
  {
    assert b.Of(side)[0] in b.Of(side);
    LookupFacts(b);
  }

  // -------------------------------------------------------------------------
  // What settling says
  // -------------------------------------------------------------------------

  /** A trade print, or a report of a fill or a cancellation. */
  predicate Settling(e: Body) {
    e.Trade? || (e.Report? && e.report.reject.None? && e.report.state in {PartiallyFilled, Filled, Cancelled})
  }

  lemma {:induction false} RetireAllSays(l: Ledger, cs: seq<Cancellation>, reason: CancelReason)
    ensures forall e :: e in RetireAll(l, cs, reason).ev ==> Settling(e) && !e.Trade?
    decreases cs
  {
    if cs != [] { RetireAllSays(Retire(l, cs[0].id), cs[1..], reason); }
  }

  lemma {:induction false} SettleFillsSays(l: Ledger, fills: seq<Fill>, taker: AccountId, left: nat)
    ensures forall e :: e in SettleFills(l, fills, taker, left).ev ==> Settling(e)
    decreases fills
  {
    if fills != [] { SettleFillsSays(SettleFill(l, fills[0]), fills[1..], taker, SatSub(left, fills[0].qty)); }
  }

  lemma SettleSays(l: Ledger, fills: seq<Fill>, stp: seq<Cancellation>, taker: AccountId, left: nat)
    ensures forall e :: e in Settle(l, fills, stp, taker, left).ev ==> Settling(e)
  {
    SettleFillsSays(l, fills, taker, left);
    RetireAllSays(SettleFills(l, fills, taker, left).ledger, stp, SelfTrade);
  }
}
