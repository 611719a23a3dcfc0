/** Concrete runs for the properties that fail: each one is reached from the empty engine. */
module Witnesses {
  import opened Domain
  import opened PriceTime
  import opened QueueLaws
  import opened WalkLaws
  import opened BookLaws
  import opened Messages
  import opened Risk
  import opened EngineSpec
  import opened EngineInvariants
  import opened EngineSafety
  import opened MarketData
  import opened Reports
  import opened Runs

  /** An admitted limit order that crosses nothing simply rests. */
  lemma QuietNew(s: EngineState, m: NewOrder)
    requires m.orderType.Limit? && m.price.Some? && m.tif.Gtc?
    requires CheckNewOrder(s.ledger.risk, m, BestPrice(s.book.Of(m.side.Opposite()))).None?
    requires !WouldCross(s.book, m.side, m.price) && RestError(s.book, m.id).None?
    ensures var n := NotionalOf(m.price.value, m.qty);
      HandleNew(s, m) == Out(
        EngineState(
          Rest(s.book, RestingOrder(m.id, m.account, m.side, m.price.value, m.qty, m.tif)),
          Ledger(s.ledger.registry[m.id := Entry(m.account, m.side, m.qty, n)],
              OnOrderResting(s.ledger.risk, m.account, n)),
          s.nextTrade),
        [AcceptedReport(m.id, m.account, m.qty)])
  {
    hide Lookup, Rest, OnOrderResting, RestError;
    WalkIdle(s.book.Of(m.side.Opposite()), NewTaker(m), m.qty, s.nextTrade);
    WithSame(s.book, m.side.Opposite());
    SettleNothing(s.ledger, m.account, m.qty);
    assert [] + [AcceptedReport(m.id, m.account, m.qty)] == [AcceptedReport(m.id, m.account, m.qty)];
  }

  /** An admitted immediate-or-cancel order that crosses nothing is cancelled whole. */
  lemma QuietIoc(s: EngineState, m: NewOrder)
    requires CheckNewOrder(s.ledger.risk, m, BestPrice(s.book.Of(m.side.Opposite()))).None?
    requires m.tif.Ioc? && !WouldCross(s.book, m.side, m.price)
    ensures HandleNew(s, m) == Out(s, [CancelledReport(m.id, m.account, IocRemaining)])
  {
    hide CheckNewOrder;
    WalkIdle(s.book.Of(m.side.Opposite()), NewTaker(m), m.qty, s.nextTrade);
    WithSame(s.book, m.side.Opposite());
    SettleNothing(s.ledger, m.account, m.qty);
    assert [] + [CancelledReport(m.id, m.account, IocRemaining)] == [CancelledReport(m.id, m.account, IocRemaining)];
  }

  /** An admitted order that ends inside the first maker fills that maker partly. */
  lemma EndsInFirst(s: EngineState, m: NewOrder)
    requires CheckNewOrder(s.ledger.risk, m, BestPrice(s.book.Of(m.side.Opposite()))).None? && m.tif.Gtc?
    requires var q := s.book.Of(m.side.Opposite()); q != [] && Tradable(NewTaker(m), q[0]) && m.qty < q[0].qty
    ensures var q := s.book.Of(m.side.Opposite());
      HandleNew(s, m).s == EngineState(
        s.book.With(m.side.Opposite(), [q[0].(qty := q[0].qty - m.qty)] + q[1..]),
        SettleFill(s.ledger, FillOf(q[0], NewTaker(m), m.qty, s.nextTrade)), s.nextTrade + 1)
  {
    hide Walk, CheckNewOrder, SettleFill, Settle;
    var q, t := s.book.Of(m.side.Opposite()), NewTaker(m);
    var f := FillOf(q[0], t, m.qty, s.nextTrade);
    WalkUnrolls(q, t, m.qty, s.nextTrade);
    SettleCons(s.ledger, f, [], [], m.account, m.qty);
    SettleNothing(SettleFill(s.ledger, f), m.account, 0);
    assert [f] + [] == [f];
  }

  lemma RunOne(s: EngineState, cmd: Inbound)
    ensures Run(s, [cmd]).s == Step(s, cmd).s == Handle(s, cmd).s
  {
    hide Handle;
    assert [cmd][1..] == [];
  }

  lemma RunTwo(s: EngineState, a: Inbound, b: Inbound)
    ensures Run(s, [a, b]).s == Handle(Handle(s, a).s, b).s
  {
    hide Handle;
    assert [a, b] == [a] + [b];
    RunAppend(s, [a], [b]);
    RunOne(s, a);
    RunOne(Handle(s, a).s, b);
  }

  // -------------------------------------------------------------------------
  // A partial fill goes uncounted
  // -------------------------------------------------------------------------

  const OFFER := NewOrder(1, 1, Ask, Limit, Gtc, Some(100), 10)
  const TAKE := NewOrder(2, 2, Bid, Limit, Gtc, Some(100), 4)
  const OFFERED := Resting(1, 1, Ask, 100, 10, Gtc, 1)

  lemma AfterOffer()
    ensures Handle(INITIAL, New(OFFER)).s == EngineState(
      FlatBook([], [OFFERED], 1),
      Ledger(map[1 := Entry(1, Ask, 10, 1000)], RiskView(false, map[1 := AccountState(1, 1000)], None)), 1)
    ensures After([New(OFFER)]) == Handle(INITIAL, New(OFFER)).s
  {
    QuietNew(INITIAL, OFFER);
    RunOne(INITIAL, New(OFFER));
  }

  /** Account 1 offers ten lots and sells four of them: six still rest, and the risk
      layer counts no open order. */
  lemma OpenOrdersUndercount()
    ensures var s := After([New(OFFER), New(TAKE)]);
      s.ledger.risk.StateOf(1).openOrders == 0 && OrderCount(s.book, 1) == 1
  {
    hide Run, Handle;
    AfterOffer();
    AfterTake();
    RunTwo(INITIAL, New(OFFER), New(TAKE));
  }

  lemma AfterTake()
    ensures var s := Handle(Handle(INITIAL, New(OFFER)).s, New(TAKE)).s;
      s.ledger.risk.StateOf(1).openOrders == 0 && OrderCount(s.book, 1) == 1
  {
    hide HandleNew;
    AfterOffer();
    EndsInFirst(Handle(INITIAL, New(OFFER)).s, TAKE);
    assert [OFFERED.(qty := 6)] + [OFFERED][1..] == [OFFERED.(qty := 6)];
  }

  // -------------------------------------------------------------------------
  // A reused id is misreported
  // -------------------------------------------------------------------------

  const REUSE := NewOrder(1, 2, Bid, Limit, Ioc, Some(90), 4)

  /** While order 1 of account 1 is offered at 100, account 2 enters an immediate-or-cancel
      order 1 that reaches nothing: order 1 is reported cancelled, and still rests. */
  lemma ReusedIdMisreported()
    ensures var s := After([New(OFFER)]);
      var d := Step(s, New(REUSE));
      && d.s.book == s.book && Find(s.book, 1) == Some(OFFERED)
      && LastReport(d.ev, 1) == Some(CancelledReport(1, 2, IocRemaining).report)
      && !Fixes(d.ev, 1, Find(s.book, 1), Find(d.s.book, 1))
  {
    hide Run, HandleNew, Tail, ReplacedIn;
    var s, e := After([New(OFFER)]), CancelledReport(1, 2, IocRemaining);
    AfterOffer();
    OfferFound();
    ReuseCancelled();
    var tail := Tail(s.book, s.book, New(REUSE));
    LastOfOne(e, 1);
    LastReportAppend([e], tail, 1);
    TailKinds(s.book, s.book, New(REUSE));
    NoReport(tail, 1);
  }

  lemma OfferFound()
    ensures Find(FlatBook([], [OFFERED], 1), 1) == Some(OFFERED)
  {
    assert [OFFERED][1..] == [];
  }

  lemma ReuseCancelled()
    ensures var s := Handle(INITIAL, New(OFFER)).s;
      HandleNew(s, REUSE) == Out(s, [CancelledReport(1, 2, IocRemaining)])
  {
    hide HandleNew;
    AfterOffer();
    QuietIoc(Handle(INITIAL, New(OFFER)).s, REUSE);
  }

  // -------------------------------------------------------------------------
  // The same rejection keeps one order and loses another
  // -------------------------------------------------------------------------

  const FIRST := NewOrder(1, 1, Bid, Limit, Gtc, Some(100), 50_000_000)
  const SECOND := NewOrder(2, 1, Bid, Limit, Gtc, Some(100), 40_000_000)
  const BID_1 := Resting(1, 1, Bid, 100, 50_000_000, Gtc, 1)
  const BID_2 := Resting(2, 1, Bid, 100, 40_000_000, Gtc, 2)
  const TWO_BIDS := EngineState(
    FlatBook([BID_1, BID_2], [], 2),
    Ledger(map[1 := Entry(1, Bid, 50_000_000, 5_000_000_000), 2 := Entry(1, Bid, 40_000_000, 4_000_000_000)],
           RiskView(false, map[1 := AccountState(2, 9_000_000_000)], None)), 1)

  lemma AfterTwoBids()
    ensures After([New(FIRST), New(SECOND)]) == TWO_BIDS
  {
    hide Run;
    AfterFirst();
    AfterSecond();
    RunTwo(INITIAL, New(FIRST), New(SECOND));
  }

  const ONE_BID := EngineState(
    FlatBook([BID_1], [], 1),
    Ledger(map[1 := Entry(1, Bid, 50_000_000, 5_000_000_000)],
        RiskView(false, map[1 := AccountState(1, 5_000_000_000)], None)), 1)

  lemma AfterFirst()
    ensures Handle(INITIAL, New(FIRST)).s == ONE_BID
  {
    QuietNew(INITIAL, FIRST);
  }

  lemma AfterSecond()
    ensures Handle(ONE_BID, New(SECOND)).s == TWO_BIDS
  {
    assert [BID_1][1..] == [];
    QuietNew(ONE_BID, SECOND);
    assert Insert(Bid, [BID_1], BID_2) == [BID_1, BID_2];
  }

  /** Raising the quantity beyond the cap by itself is refused up front, and the order stays. */
  lemma RejectionKeeps()
    ensures var h := Handle(After([New(FIRST), New(SECOND)]), CancelReplace(1, 1, 100, 200_000_000));
      && LastReport(h.ev, 1) == Some(RejectedReport(1, 1, MaxNotional).report)
      && Find(h.s.book, 1) == Some(BID_1)
  {
    AfterTwoBids();
    LastOfOne(RejectedReport(1, 1, MaxNotional), 1);
    FirstFound();
  }

  /** Raising it beyond what the account's other order leaves is refused with the same
      report after the commit, and the order is gone. */
  lemma RejectionLoses()
    ensures var h := Handle(After([New(FIRST), New(SECOND)]), CancelReplace(1, 1, 100, 70_000_000));
      && LastReport(h.ev, 1) == Some(RejectedReport(1, 1, MaxNotional).report)
      && Find(h.s.book, 1) == None
  {
    hide Run, CommitReplace, Replace, Find;
    AfterTwoBids();
    RaisedBook();
    RaisedIsCapped();
    FirstFound();
    GoneFound();
    var e, last := ReplacedReport(1, 1, 70_000_000), RejectedReport(1, 1, MaxNotional);
    LastReportAppend([e], [last], 1);
    LastOfOne(last, 1);
  }

  lemma GoneFound()
    ensures Find(FlatBook([BID_2], [], 3), 1) == None
  {
    FirstFound();
  }

  lemma RaisedIsCapped()
    ensures var h := CommitReplace(TWO_BIDS.(book := FlatBook([BID_2, RAISED], [], 3)), 1, 1, 100, 70_000_000,
        [], [], false, 70_000_000);
      && h.ev == [ReplacedReport(1, 1, 70_000_000)] + [RejectedReport(1, 1, MaxNotional)]
      && h.s.book == FlatBook([BID_2], [], 3)
  {
    var l, e := Retire(TWO_BIDS.ledger, 1), ReplacedReport(1, 1, 70_000_000);
    DropFirst(RAISED);
    SettleNothing(l, 1, 70_000_000);
    assert l.risk.StateOf(1) == AccountState(1, 4_000_000_000);
    assert [e] + [] == [e];
  }

  const RAISED := Resting(1, 1, Bid, 100, 70_000_000, Gtc, 3)

  lemma RaisedBook()
    ensures var c := FlatBook([BID_2], [], 2);
      Replace(TWO_BIDS.book, 1, 100, 70_000_000, 1)
        == ReplaceResult(FlatBook([BID_2, RAISED], [], 3), [], [], Ok(Walked(Matched(c, [], [], 70_000_000, false))))
  {
    var b := TWO_BIDS.book;
    FirstFound();
    DropFirst(BID_1);
    WalkIdle([], TakerOf(BID_1, 100, 70_000_000), 70_000_000, 1);
    assert Insert(Bid, [BID_2], RAISED) == [BID_2, RAISED];
  }

  lemma FirstFound()
    ensures 1 in Lookup(TWO_BIDS.book) && Lookup(TWO_BIDS.book)[1] == BID_1
    ensures 1 !in Lookup(FlatBook([BID_2], [], 2)) && 1 !in Lookup(FlatBook([BID_2], [], 3))
  {
    assert [BID_1, BID_2][1..] == [BID_2] && [BID_2][1..] == [];
  }

  lemma DropFirst(o: Resting)
    requires o.id == 1
    ensures Without([o, BID_2], {1}) == [BID_2] == Without([BID_2, o], {1})
  {
    assert [o, BID_2][1..] == [BID_2] && [BID_2, o][1..] == [o];
    WithoutOne(BID_2);
    WithoutOne(o);
  }

  lemma WithoutOne(o: Resting)
    ensures Without([o], {1}) == if o.id == 1 then [] else [o]
  {
    assert [o][1..] == [];
  }

  // -------------------------------------------------------------------------
  // The top of book overstates its level
  // -------------------------------------------------------------------------

  const BEST := NewOrder(1, 1, Bid, Limit, Gtc, Some(100), 10)
  const WORSE := NewOrder(2, 1, Bid, Limit, Gtc, Some(99), 5)
  const BEST_BID := Resting(1, 1, Bid, 100, 10, Gtc, 1)
  const WORSE_BID := Resting(2, 1, Bid, 99, 5, Gtc, 2)

  lemma AfterBest()
    ensures Handle(INITIAL, New(BEST)).s == EngineState(
      FlatBook([BEST_BID], [], 1),
      Ledger(map[1 := Entry(1, Bid, 10, 1000)], RiskView(false, map[1 := AccountState(1, 1000)], None)), 1)
  {
    QuietNew(INITIAL, BEST);
  }

  lemma AfterWorse()
    ensures Handle(Handle(INITIAL, New(BEST)).s, New(WORSE)).s.book == FlatBook([BEST_BID, WORSE_BID], [], 2)
  {
    AfterBest();
    assert [BEST_BID][1..] == [];
    QuietNew(Handle(INITIAL, New(BEST)).s, WORSE);
    assert Insert(Bid, [BEST_BID], WORSE_BID) == [BEST_BID, WORSE_BID];
  }

  lemma BidTotals()
    ensures Lots([BEST_BID, WORSE_BID]) == 15 && Total([BEST_BID, WORSE_BID], AtPrice(100)) == 10
  {
    TotalOfTwo(BEST_BID, WORSE_BID, LotsOf());
    TotalOfTwo(BEST_BID, WORSE_BID, AtPrice(100));
  }

  lemma TotalOfTwo(a: Resting, b: Resting, w: Resting -> nat)
    ensures Total([a, b], w) == w(a) + w(b)
  {
    assert [a, b][1..] == [b] && [b][1..] == [];
    assert Total([b], w) == w(b) + Total([], w);
  }

  /** With ten lots bid at 100 and five at 99, the quote is fifteen lots at 100. */
  lemma TopOverstates()
    ensures var d := Step(After([New(BEST)]), New(WORSE));
      && d.ev != [] && d.ev[|d.ev| - 1] == Top(Some(Rung(100, 15)), None)
      && LevelQty(d.s.book, (Bid, 100)) == 10
  {
    hide Run, Handle, Rows, Diff, Lots, Total;
    RunOne(INITIAL, New(BEST));
    AfterWorse();
    BidTotals();
  }

  // -------------------------------------------------------------------------
  // A replace strands its order
  // -------------------------------------------------------------------------

  const BID := NewOrder(1, 1, Bid, Limit, Gtc, Some(100), 10)
  const CHURN: seq<Inbound> := [New(BID), CancelOne(1, 1)]

  /** An empty engine whose book has numbered `k` arrivals. */
  function Idle(k: nat): EngineState { EngineState(FlatBook([], [], k), INITIAL.ledger, 1) }

  function Bidding(k: nat): EngineState {
    EngineState(FlatBook([Resting(1, 1, Bid, 100, 10, Gtc, k)], [], k),
                Ledger(map[1 := Entry(1, Bid, 10, 1000)], RiskView(false, map[1 := AccountState(1, 1000)], None)), 1)
  }

  lemma BidsOnce(k: nat)
    requires k < U64_MAX
    ensures Handle(Idle(k), New(BID)).s == Bidding(k + 1)
  {
    QuietNew(Idle(k), BID);
  }

  lemma ChurnsOnce(k: nat)
    requires k < U64_MAX
    ensures Run(Idle(k), CHURN).s == Idle(k + 1)
  {
    BidsOnce(k);
    RunTwo(Idle(k), New(BID), CancelOne(1, 1));
    var o := Resting(1, 1, Bid, 100, 10, Gtc, k + 1);
    assert Without([o], {1}) == Without([], {1});
    assert map[1 := Entry(1, Bid, 10, 1000)] - {1} == map[];
    assert map[1 := AccountState(1, 1000)] - {1} == map[];
  }

  /** `n` orders entered and cancelled, one after the other. */
  function Churns(n: nat): seq<Inbound> { if n == 0 then [] else CHURN + Churns(n - 1) }

  lemma {:induction false} Churned(k: nat, n: nat)
    requires k + n <= U64_MAX
    ensures Run(Idle(k), Churns(n)).s == Idle(k + n)
    decreases n
  {
    hide Run, Idle;
    if n > 0 {
      ChurnsOnce(k);
      RunAppend(Idle(k), CHURN, Churns(n - 1));
      Churned(k + 1, n - 1);
    } else {
      RunNone(Idle(k));
    }
  }

  function LastArrival(): seq<Inbound> { Churns(U64_MAX - 1) + [New(BID)] }

  /** After all but one arrival number went to orders entered and cancelled, one bid takes
      the last.  Replacing it at a worse price strands it: the engine rejects the replace
      and keeps registered an order that the book has lost. */
  lemma StrandingReached()
    ensures var s := After(LastArrival());
      var s' := Step(s, CancelReplace(1, 1, 99, 10)).s;
      && Inv(s) && Stranding(s, CancelReplace(1, 1, 99, 10))
      && 1 in s'.ledger.registry && 1 !in Lookup(s'.book) && !Inv(s')
  {
    hide Run, LastArrival, Inv, Bidding, HandleReplace, Strands;
    LastBid();
    BiddingStrands();
    StrandingBreaksMirror(Bidding(U64_MAX), 1, 1, 99, 10);
  }

  lemma LastBid()
    ensures After(LastArrival()) == Bidding(U64_MAX) && Inv(Bidding(U64_MAX))
  {
    hide Run, Churns, Inv, Handle, Bidding;
    assert Idle(0) == INITIAL;
    Churned(0, U64_MAX - 1);
    RunAppend(INITIAL, Churns(U64_MAX - 1), [New(BID)]);
    RunOne(Idle(U64_MAX - 1), New(BID));
    BidsOnce(U64_MAX - 1);
    IdleInv(U64_MAX - 1);
    HandleInv(Idle(U64_MAX - 1), New(BID));
  }

  lemma IdleInv(k: nat)
    requires k <= U64_MAX
    ensures Inv(Idle(k))
  {
    forall a: AccountId ensures Accounted(Idle(k).ledger.risk.StateOf(a), Idle(k).book, a) { }
  }

  lemma BiddingStrands()
    ensures Strands(Bidding(U64_MAX), 1, 1, 99, 10)
  {
    var o := Resting(1, 1, Bid, 100, 10, Gtc, U64_MAX);
    assert Lookup(Bidding(U64_MAX).book)[1] == o;
    assert Reach([], TakerOf(o, 99, 10)) == 0;
  }

  // -------------------------------------------------------------------------
  // An account rests more orders than the cap
  // -------------------------------------------------------------------------

  const LIMIT := MAX_OPEN_ORDERS_PER_ACCT

  function NthOffer(n: nat): NewOrder
    requires 0 < n <= LIMIT
  {
    NewOrder(n, 1, Ask, Limit, Gtc, Some(100), 10)
  }

  function Offers(n: nat): seq<Inbound>
    requires n <= LIMIT
  {
    if n == 0 then [] else Offers(n - 1) + [New(NthOffer(n))]
  }

  /** Every order is one of the first `n` offers, whole. */
  ghost predicate OnlyOffers(q: seq<Resting>, n: nat) {
    forall o :: o in q ==> o.id <= n && o.account == 1 && o.price == 100 && o.qty == 10
  }

  /** Account 1 has `n` offers resting, and nobody else anything. */
  ghost predicate Stacked(s: EngineState, n: nat) {
    && Inv(s, EXACT)
    && s.book.bids == [] && s.book.arrivals == n && OnlyOffers(s.book.asks, n)
    && s.ledger.risk.StateOf(1) == AccountState(n, 1000 * n)
    && !s.ledger.risk.killSwitch && s.ledger.risk.lastTrade == None
  }

  lemma FreshOffer(b: FlatBook, n: nat, id: OrderId)
    requires Valid(b) && b.bids == [] && (forall o :: o in b.asks ==> o.id <= n) && n < id
    ensures id !in Lookup(b)
  {
    LookupFacts(b);
  }

  lemma OfferAdmitted(s: EngineState, n: nat)
    requires Stacked(s, n) && n < LIMIT
    ensures var m := NthOffer(n + 1);
      && CheckNewOrder(s.ledger.risk, m, BestPrice(s.book.bids)).None?
      && !WouldCross(s.book, Ask, Some(100)) && RestError(s.book, n + 1).None?
  {
    hide Inv, Lookup, Valid;
    InvWeaken(s, EXACT);
    InvValid(s);
    FreshOffer(s.book, n, n + 1);
  }

  lemma OfferTradesNothing(s: EngineState, m: NewOrder)
    requires s.book.Of(m.side.Opposite()) == []
    ensures !FillsPartly(s, New(m))
  {
    hide CheckNewOrder;
  }

  lemma StackOne(s: EngineState, n: nat)
    requires Stacked(s, n) && n < LIMIT
    ensures Stacked(Handle(s, New(NthOffer(n + 1))).s, n + 1)
  {
    hide Inv, Rest, HandleNew, CheckNewOrder, RestError, WouldCross, FillsPartly, OnlyOffers;
    var m := NthOffer(n + 1);
    OfferAdmitted(s, n);
    QuietNew(s, m);
    OfferTradesNothing(s, m);
    HandleInv(s, New(m), EXACT);
    RestOffer(s.book, n);
  }

  lemma RestOffer(b: FlatBook, n: nat)
    requires OnlyOffers(b.asks, n) && n < LIMIT
    ensures var c := Rest(b, RestingOrder(n + 1, 1, Ask, 100, 10, Gtc));
      c.bids == b.bids && c.arrivals == b.arrivals + 1 && OnlyOffers(c.asks, n + 1)
  {
    InsertMembers(Ask, b.asks, Resting(n + 1, 1, Ask, 100, 10, Gtc, b.arrivals + 1));
  }

  lemma {:induction false} Stacks(n: nat)
    requires n <= LIMIT
    ensures Stacked(After(Offers(n)), n)
  {
    hide Run, Stacked, Handle;
    if n == 0 {
      NothingStacked();
      RunNone(INITIAL);
    } else {
      Stacks(n - 1);
      StackOne(After(Offers(n - 1)), n - 1);
      RunAppend(INITIAL, Offers(n - 1), [New(NthOffer(n))]);
      RunOne(After(Offers(n - 1)), New(NthOffer(n)));
    }
  }

  lemma NothingStacked()
    ensures Stacked(INITIAL, 0)
  {
    InitialInv();
  }

  const NIBBLE := NewOrder(5000, 2, Bid, Limit, Gtc, Some(100), 4)
  const ONE_MORE := NewOrder(6000, 1, Ask, Limit, Gtc, Some(100), 10)

  lemma {:induction false} OwnedByOne(q: seq<Resting>)
    requires forall o :: o in q ==> o.account == 1
    ensures Total(q, CountOf(1)) == |q|
    ensures Total(q, CountOf(2)) == 0 && Total(q, ExposureOf(2)) == 0
  {
    if q != [] {
      assert q[0] in q;
      OwnedByOne(q[1..]);
    }
  }

  /** Someone buys four lots of the first of a full stack. */
  lemma Nibbled(s: EngineState)
    requires Stacked(s, LIMIT)
    ensures var s' := Handle(s, New(NIBBLE)).s;
      && s'.book.bids == [] && s'.book.arrivals == LIMIT && |s'.book.asks| == LIMIT
      && (forall o :: o in s'.book.asks ==> o.id <= LIMIT && o.account == 1)
      && s'.ledger.risk.StateOf(1) == AccountState(LIMIT - 1, 1000 * LIMIT - 400)
      && !s'.ledger.risk.killSwitch && s'.ledger.risk.lastTrade == Some(100)
  {
    hide Inv, HandleNew, Lookup, SettleFill, FillOf, CheckNewOrder;
    var q := s.book.asks;
    FullStack(s);
    EndsInFirst(s, NIBBLE);
    NibbleSettled(s.ledger, FillOf(q[0], NewTaker(NIBBLE), 4, s.nextTrade));
  }

  /** A full stack has a thousand offers and admits a small bid of another account. */
  lemma FullStack(s: EngineState)
    requires Stacked(s, LIMIT)
    ensures var q := s.book.asks;
      && |q| == LIMIT && q[0] in q
      && q[0].id in s.ledger.registry && s.ledger.registry[q[0].id] == Entry(1, Ask, 10, 1000)
      && CheckNewOrder(s.ledger.risk, NIBBLE, BestPrice(q)).None?
      && FillOf(q[0], NewTaker(NIBBLE), 4, s.nextTrade) == Fill(s.nextTrade, q[0].id, 5000, Ask, 100, 4, false)
  {
    hide Valid, Uncrossed, Lookup;
    var q := s.book.asks;
    OwnedByOne(q);
    assert Accounted(s.ledger.risk.StateOf(1), s.book, 1, EXACT);
    assert Accounted(s.ledger.risk.StateOf(2), s.book, 2, EXACT);
    assert q[0] in q;
    HeadResting(s.book, Ask);
    AgreedEntry(s.ledger, s.book, q[0].id, EXACT);
  }

  lemma NibbleSettled(l: Ledger, f: Fill)
    requires l.risk.StateOf(1) == AccountState(LIMIT, 1000 * LIMIT)
    requires f.maker in l.registry && l.registry[f.maker] == Entry(1, Ask, 10, 1000)
    requires f.price == 100 && f.qty == 4 && !f.makerFilled
    ensures var risk := SettleFill(l, f).risk;
      && risk.StateOf(1) == AccountState(LIMIT - 1, 1000 * LIMIT - 400)
      && risk.killSwitch == l.risk.killSwitch && risk.lastTrade == Some(100)
  {
  }

  function Overflow(): seq<Inbound> { Offers(LIMIT) + [New(NIBBLE), New(ONE_MORE)] }

  /** An account with a thousand resting orders, one of them partly filled, may rest one more. */
  lemma RestingOrdersOverflow()
    ensures OrderCount(After(Overflow()).book, 1) == LIMIT + 1
  {
    hide Run, Offers, Stacked, Handle, OrderCount;
    var s := After(Offers(LIMIT));
    Stacks(LIMIT);
    OneTooMany(s);
    RunAppend(INITIAL, Offers(LIMIT), [New(NIBBLE), New(ONE_MORE)]);
    RunTwo(s, New(NIBBLE), New(ONE_MORE));
  }

  lemma OneTooMany(s: EngineState)
    requires Stacked(s, LIMIT)
    ensures OrderCount(Handle(Handle(s, New(NIBBLE)).s, New(ONE_MORE)).s.book, 1) == LIMIT + 1
  {
    hide Inv, Valid, Lookup, Rest, HandleNew, Stacked;
    var s' := Handle(s, New(NIBBLE)).s;
    Nibbled(s);
    NibbledInv(s);
    InvValid(s');
    FreshOffer(s'.book, LIMIT, 6000);
    QuietNew(s', ONE_MORE);
    RestTotals(s'.book, RestingOrder(6000, 1, Ask, 100, 10, Gtc), CountOf(1));
    OwnedByOne(s'.book.asks);
  }

  lemma NibbledInv(s: EngineState)
    requires Stacked(s, LIMIT)
    ensures Inv(Handle(s, New(NIBBLE)).s)
  {
    hide Inv, Handle;
    InvWeaken(s, EXACT);
    HandleInv(s, New(NIBBLE));
  }
}
