/** Laws of the compound book operations: cancel-replace and mass cancel. */
module BookLaws {
  import opened Domain
  import opened PriceTime
  import opened QueueLaws
  import opened WalkLaws

  /** The book entry of a brand-new limit order: walk, then rest the leftover. */
  function Enter(b: FlatBook, t: Taker, trade: nat): ReplaceResult {
    var m := Match(b, t, trade);
    if m.postOnlyRejected then ReplaceResult(b, [], [], Ok(Walked(m))) else RestResidual(m, t)
  }

  predicate KeepsPriority(o: Resting, price: Price, qty: Qty) {
    price == o.price && qty <= o.qty
  }

  /** Same price, no more quantity: every order of the book, the replaced one
      included, keeps its place and arrival number, and only its quantity changes. */
  lemma ReplaceInPlace(b: FlatBook, id: OrderId, price: Price, qty: Qty, trade: nat, side: Side, i: nat)
    requires Valid(b) && id in Lookup(b) && KeepsPriority(Lookup(b)[id], price, qty)
    requires i < |b.Of(side)|
    ensures var r := Replace(b, id, price, qty, trade);
      && r.outcome == Ok(Kept) && r.fills == [] && r.stp == []
      && r.book.arrivals == b.arrivals
      && |r.book.Of(side)| == |b.Of(side)|
      && r.book.Of(side)[i] == if b.Of(side)[i].id == id then b.Of(side)[i].(qty := qty) else b.Of(side)[i]
  {
    var o := Lookup(b)[id];
    LookupFacts(b);
    hide Lookup, Valid;
    SetQtyAt(b.Of(o.side), id, qty);
    assert b.Of(side)[i] in b.Of(side);
  }

  /** A replace that loses priority is a cancel followed by a fresh entry of the same
      id under the order's own time in force; when that entry is refused as post-only,
      the original order is left untouched instead. */
  lemma ReplaceIsReentry(b: FlatBook, id: OrderId, price: Price, qty: Qty, trade: nat)
    requires Valid(b) && id in Lookup(b) && !KeepsPriority(Lookup(b)[id], price, qty)
    ensures var t := TakerOf(Lookup(b)[id], price, qty);
      var e := Enter(Cancel(b, {id}), t, trade);
      if e.outcome.Ok? && e.outcome.value.m.postOnlyRejected
      then Replace(b, id, price, qty, trade) == ReplaceResult(b, [], [], Ok(Walked(Matched(b, [], [], qty, true))))
      else Replace(b, id, price, qty, trade) == e
  {
    CancelOtherSide(b, id);
  }

  lemma CancelOtherSide(b: FlatBook, id: OrderId)
    requires Valid(b) && id in Lookup(b)
    ensures var o := Lookup(b)[id];
      && Cancel(b, {id}).Of(o.side.Opposite()) == b.Of(o.side.Opposite())
      && Cancel(b, {id}).Of(o.side) == Without(b.Of(o.side), {id})
  {
    var o := Lookup(b)[id];
    LookupFacts(b);
    forall x | x in b.Of(o.side.Opposite()) ensures x.id != id { assert x.side != o.side; }
    WithoutNone(b.Of(o.side.Opposite()), {id});
  }

  /** Same price, more quantity, book uncrossed: nothing trades, no self-trade
      prevention fires, and the order moves to the tail of its level with the new
      quantity; every other order keeps its relative place. */
  lemma ReplaceUpMovesToTail(b: FlatBook, id: OrderId, qty: Qty, trade: nat)
    requires Valid(b) && Uncrossed(b) && b.arrivals < U64_MAX
    requires id in Lookup(b) && Lookup(b)[id].qty < qty
    ensures var o := Lookup(b)[id];
      var r := Replace(b, id, o.price, qty, trade);
      && r.outcome.Ok? && r.outcome.value.Walked? && !r.outcome.value.m.postOnlyRejected
      && r.fills == [] && r.stp == []
      && r.book.Of(o.side.Opposite()) == b.Of(o.side.Opposite())
      && Without(r.book.Of(o.side), {id}) == Without(b.Of(o.side), {id})
      && id in Lookup(r.book)
      && Lookup(r.book)[id] == o.(qty := qty, arrival := b.arrivals + 1)
      && (forall x :: x in r.book.Of(o.side) && x.id != id && x.price == o.price ==>
          Ahead(o.side, x, Lookup(r.book)[id]))
  {
    var o := Lookup(b)[id];
    var c, x := Cancel(b, {id}), ResidualOf(TakerOf(o, o.price, qty), o.price, qty);
    LookupFacts(b);
    ReplaceUpRests(b, id, qty, trade);
    CancelOtherSide(b, id);
    CancelValid(b, {id});
    CancelLookup(b, {id});
    FreshOnBothSides(c, id);
    InsertWithout(o.side, c.Of(o.side), Arrive(x, b.arrivals + 1));
    InsertMembers(o.side, c.Of(o.side), Arrive(x, b.arrivals + 1));
    RestLookup(c, x);
  }

  lemma ReplaceUpRests(b: FlatBook, id: OrderId, qty: Qty, trade: nat)
    requires Valid(b) && Uncrossed(b) && b.arrivals < U64_MAX
    requires id in Lookup(b) && Lookup(b)[id].qty < qty
    ensures var o := Lookup(b)[id];
      var c, t := Cancel(b, {id}), TakerOf(o, o.price, qty);
      Replace(b, id, o.price, qty, trade)
        == ReplaceResult(Rest(c, ResidualOf(t, o.price, qty)), [], [], Ok(Walked(Matched(c, [], [], qty, false))))
  {
    hide Valid, Uncrossed, Cancel, Rest, Lookup;
    var o, c := Lookup(b)[id], Cancel(b, {id});
    RestingAt(b, id);
    CancelOtherSide(b, id);
    CancelLookup(b, {id});
    WouldNotCrossItsOwnPrice(b, o);
    assert c.arrivals == b.arrivals by { CancelArrivals(b, {id}); }
    WalkIdle(b.Of(o.side.Opposite()), TakerOf(o, o.price, qty), qty, trade);
    WithSame(c, o.side.Opposite());
  }

  lemma CancelArrivals(b: FlatBook, ids: set<OrderId>)
    ensures Cancel(b, ids).arrivals == b.arrivals
  {
  }

  lemma WithSame(b: FlatBook, side: Side)
    ensures b.With(side, b.Of(side)) == b
  {
  }

  lemma WouldNotCrossItsOwnPrice(b: FlatBook, o: Resting)
    requires Valid(b) && Uncrossed(b) && o in b.Of(o.side)
    ensures !WouldCross(b, o.side, Some(o.price))
  {
    var opp := b.Of(o.side.Opposite());
    if opp != [] { assert opp[0] in opp; }
  }

  /** Every replace keeps the book valid and uncrossed, whatever its outcome. */
  lemma ReplaceValid(b: FlatBook, id: OrderId, price: Price, qty: Qty, trade: nat)
    requires Valid(b)
    ensures Valid(Replace(b, id, price, qty, trade).book)
    ensures Uncrossed(b) ==> Uncrossed(Replace(b, id, price, qty, trade).book)
  {
    if id in Lookup(b) {
      var o := Lookup(b)[id];
      LookupFacts(b);
      if KeepsPriority(o, price, qty) {
        SetQtyKeepsBook(b, o, qty);
      } else {
        ReplaceIsReentry(b, id, price, qty, trade);
        CancelValid(b, {id});
        EnterValid(Cancel(b, {id}), TakerOf(o, price, qty), trade);
      }
    }
  }

  lemma SetQtyKeepsBook(b: FlatBook, o: Resting, qty: Qty)
    requires Valid(b) && o in b.Of(o.side)
    ensures var r := b.With(o.side, SetQty(b.Of(o.side), o.id, qty));
      Valid(r) && (Uncrossed(b) ==> Uncrossed(r))
  {
    var q := b.Of(o.side);
    SetQtyValid(o.side, q, o.id, qty, b.arrivals);
    SetQtyAt(q, o.id, qty);
    var r := SetQty(q, o.id, qty);
    forall x | x in r ensures exists y :: y in q && y.id == x.id && y.price == x.price {
      var i :| 0 <= i < |r| && r[i] == x;
      assert q[i] in q && q[i].id == x.id && q[i].price == x.price;
    }
  }

  lemma ResizeLookup(b: FlatBook, o: Resting, n: Qty)
    requires Valid(b) && o in b.Of(o.side)
    ensures Lookup(b.With(o.side, SetQty(b.Of(o.side), o.id, n))) == Lookup(b)[o.id := o.(qty := n)]
    ensures o.id in Lookup(b) && Lookup(b)[o.id] == o
  {
    LookupFacts(b);
    SetQtyMap(b.Of(o.side), o, n);
    forall x | x in b.Of(o.side.Opposite()) ensures x.id != o.id { assert x.side != o.side; }
    MapOfFacts(b.Of(o.side.Opposite()));
    SumUpdate(MapOf(b.bids), MapOf(b.asks), o.id, o.(qty := n));
  }

  /** Dropping the head of one side is cancelling it by id. */
  lemma PopHead(b: FlatBook, side: Side)
    requires Valid(b) && b.Of(side) != []
    ensures Cancel(b, {b.Of(side)[0].id}) == b.With(side, b.Of(side)[1..])
  {
    var h := b.Of(side)[0];
    assert h in b.Of(side);
    WithoutHead(b.Of(side));
    forall x | x in b.Of(side.Opposite()) ensures x.id != h.id { assert x.side != h.side; }
    WithoutNone(b.Of(side.Opposite()), {h.id});
  }

  lemma CancelNone(b: FlatBook)
    requires Valid(b)
    ensures Cancel(b, {}) == b && Lookup(b) - {} == Lookup(b)
  {
    WithoutNone(b.bids, {});
    WithoutNone(b.asks, {});
  }

  lemma CancelTwice(b: FlatBook, ids: set<OrderId>, more: set<OrderId>)
    ensures Cancel(Cancel(b, ids), more) == Cancel(b, ids + more)
  {
    WithoutTwice(b.bids, ids, more);
    WithoutTwice(b.asks, ids, more);
  }

  lemma RestingTif(b: FlatBook, id: OrderId)
    requires Valid(b) && id in Lookup(b)
    ensures !Lookup(b)[id].tif.Ioc?
  {
    LookupFacts(b);
  }

  lemma DistinctSide(b: FlatBook, side: Side)
    requires Valid(b)
    ensures Distinct(b.Of(side))
  {
  }

  lemma RestingAt(b: FlatBook, id: OrderId)
    requires Valid(b) && id in Lookup(b)
    ensures Lookup(b)[id].id == id && Lookup(b)[id] in b.Of(Lookup(b)[id].side)
  {
    LookupFacts(b);
  }

  lemma CancelAbsent(b: FlatBook, id: OrderId)
    requires Valid(b) && id !in Lookup(b)
    ensures Cancel(b, {id}) == b
  {
    LookupFacts(b);
    WithoutNone(b.bids, {id});
    WithoutNone(b.asks, {id});
  }

  /** Lots across a match: the taker's quantity is traded or left over, the opposite side
      loses exactly the traded and the dropped lots, the taker's side nothing. */
  lemma MatchConserves(b: FlatBook, t: Taker, trade: nat)
    ensures var m := Match(b, t, trade);
      && FillLots(m.fills) + m.left == t.qty
      && Lots(m.book.Of(t.side.Opposite())) + FillLots(m.fills) + DroppedLots(m.stp) == Lots(b.Of(t.side.Opposite()))
      && m.book.Of(t.side) == b.Of(t.side)
  {
    hide Lots, Walk, WouldCross;
    WalkConserves(b.Of(t.side.Opposite()), t, t.qty, trade);
  }

  /** Lots across a fresh entry: what the book gains on the taker's side is what the taker
      did not trade, unless it was dropped or refused. */
  lemma EnterConserves(b: FlatBook, t: Taker, trade: nat)
    requires Valid(b) && t.price.Some?
    ensures var r, m := Enter(b, t, trade), Match(b, t, trade);
      var rests := !m.postOnlyRejected && m.stp == [] && r.outcome.Ok?;
      && Lots(r.book.Of(t.side.Opposite())) + FillLots(r.fills) + DroppedLots(r.stp) == Lots(b.Of(t.side.Opposite()))
      && Lots(r.book.Of(t.side)) == Lots(b.Of(t.side)) + (if rests then t.qty - FillLots(r.fills) else 0)
  {
    hide Valid, Lots, Match, Lookup;
    MatchConserves(b, t, trade);
    MatchResidual(b, t, trade);
    var m := Match(b, t, trade);
    PostOnlyRejectsWhole(b, t, trade);
    if QtyOf(m.left).Some? {
      RestLots(m.book, ResidualOf(t, t.price.value, QtyOf(m.left).value));
    }
  }

  lemma PostOnlyRejectsWhole(b: FlatBook, t: Taker, trade: nat)
    ensures Match(b, t, trade).postOnlyRejected ==> Match(b, t, trade) == Matched(b, [], [], t.qty, true)
  {
  }

  /** A replace reports the trades of its walk. */
  lemma ReplaceTrades(b: FlatBook, id: OrderId, price: Price, qty: Qty, trade: nat)
    ensures var r := Replace(b, id, price, qty, trade);
      r.outcome.Ok? ==>
        if r.outcome.value.Kept? then r.fills == [] && r.stp == []
        else r.fills == r.outcome.value.m.fills && r.stp == r.outcome.value.m.stp
  {
    hide Match, Lookup, WouldCross, Rest, SetQty;
  }

  lemma RestLots(b: FlatBook, o: RestingOrder)
    ensures Lots(Rest(b, o).Of(o.side)) == Lots(b.Of(o.side)) + o.qty
    ensures Rest(b, o).Of(o.side.Opposite()) == b.Of(o.side.Opposite())
  {
    InsertTotal(o.side, b.Of(o.side), Arrive(o, b.arrivals + 1), LotsOf());
  }

  lemma EnterValid(b: FlatBook, t: Taker, trade: nat)
    requires Valid(b) && !t.tif.Ioc?
    ensures Valid(Enter(b, t, trade).book)
    ensures Uncrossed(b) ==> Uncrossed(Enter(b, t, trade).book)
  {
    MatchValid(b, t, trade);
    MatchResidual(b, t, trade);
    var m := Match(b, t, trade);
    if !m.postOnlyRejected && m.stp == [] && QtyOf(m.left).Some? && t.price.Some? && RestError(m.book, t.id) == None {
      RestValid(m.book, ResidualOf(t, t.price.value, QtyOf(m.left).value));
    }
  }

  // -------------------------------------------------------------------------
  // Mass cancel
  // -------------------------------------------------------------------------

  function Others(q: seq<Resting>, a: AccountId): seq<Resting> {
    if q == [] then []
    else if q[0].account == a then Others(q[1..], a)
    else [q[0]] + Others(q[1..], a)
  }

  lemma {:induction false} WithoutOwned(q: seq<Resting>, ids: set<OrderId>, a: AccountId)
    requires forall o :: o in q ==> (o.id in ids <==> o.account == a)
    ensures Without(q, ids) == Others(q, a)
  {
    if q != [] { WithoutOwned(q[1..], ids, a); }
  }

  /** A mass cancel is the filter by account on both queues, so foreign orders keep
      their queue order. */
  lemma MassCancelFilters(b: FlatBook, a: AccountId)
    requires Valid(b)
    ensures MassCancel(b, a) == FlatBook(Others(b.bids, a), Others(b.asks, a), b.arrivals)
  {
    LookupFacts(b);
    WithoutOwned(b.bids, Owned(Lookup(b), a), a);
    WithoutOwned(b.asks, Owned(Lookup(b), a), a);
  }

  lemma {:induction false} RecordsAt(m: map<OrderId, Resting>, ids: seq<OrderId>)
    requires forall id :: id in ids ==> id in m
    ensures |Records(m, ids)| == |ids|
    ensures forall i :: 0 <= i < |ids| ==> Records(m, ids)[i] == CancellationOf(m[ids[i]])
  {
    if ids != [] {
      assert ids[0] in ids;
      RecordsAt(m, ids[1..]);
    }
  }

  /** Mass-cancel records ascend strictly by id. */
  lemma MassRecordsAscend(b: FlatBook, a: AccountId)
    requires Valid(b)
    ensures forall i, j :: 0 <= i < j < |MassRecords(b, a)| ==> MassRecords(b, a)[i].id < MassRecords(b, a)[j].id
  {
    LookupFacts(b);
    AscendingFacts(Owned(Lookup(b), a));
    var ids := Ascending(Owned(Lookup(b), a));
    forall id | id in ids ensures id in Lookup(b) { }
    RecordsAt(Lookup(b), ids);
    forall i | 0 <= i < |ids| ensures MassRecords(b, a)[i].id == ids[i] {
      assert ids[i] in ids;
    }
  }

  /** There is one record per resting order of the account, with its resting quantity,
      and no other. */
  lemma MassRecordsExact(b: FlatBook, a: AccountId, c: Cancellation)
    requires Valid(b)
    ensures c in MassRecords(b, a) <==>
      exists o :: (o in b.bids || o in b.asks) && o.account == a && c == CancellationOf(o)
  {
    hide Valid, Ascending, Records, Lookup;
    var m := Lookup(b);
    var ids := Ascending(Owned(m, a));
    LookupFacts(b);
    AscendingFacts(Owned(m, a));
    RecordsAt(m, ids);
    if c in MassRecords(b, a) {
      var i :| 0 <= i < |ids| && MassRecords(b, a)[i] == c;
      assert ids[i] in ids;
      assert m[ids[i]] in b.Of(m[ids[i]].side);
    }
    if o :| (o in b.bids || o in b.asks) && o.account == a && c == CancellationOf(o) {
      assert o.id in ids;
    }
  }

  function IdsOf(cs: seq<Cancellation>): set<OrderId> { set c | c in cs :: c.id }

  /** The ids on mass-cancel records are the account's resting ids. */
  lemma MassRecordIds(b: FlatBook, a: AccountId)
    requires Valid(b)
    ensures IdsOf(MassRecords(b, a)) == Owned(Lookup(b), a)
  {
    hide Valid, Lookup, Ascending, Records;
    var ids, cs := Ascending(Owned(Lookup(b), a)), MassRecords(b, a);
    LookupFacts(b);
    AscendingFacts(Owned(Lookup(b), a));
    RecordsAt(Lookup(b), ids);
    forall i | 0 <= i < |ids| ensures cs[i].id == ids[i] && ids[i] in IdsOf(cs) {
      assert ids[i] in ids;
      assert cs[i] in cs;
    }
    forall c | c in cs ensures c.id in ids {
      var i :| 0 <= i < |cs| && cs[i] == c;
    }
  }
}
