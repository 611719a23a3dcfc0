/** Every command preserves the engine invariant, and so does every run. */
module EngineSafety {
  import opened Domain
  import opened PriceTime
  import opened QueueLaws
  import opened WalkLaws
  import opened BookLaws
  import opened Messages
  import opened Risk
  import opened EngineSpec
  import opened EngineInvariants

  // -------------------------------------------------------------------------
  // New orders
  // -------------------------------------------------------------------------

  /** The ledger sees only the totals and the by-id view of the book. */
  lemma KeptBySameView(l: Ledger, risk: RiskView, b: FlatBook, c: FlatBook, lag: Lag := Unbounded)
    requires Agrees(l, b, lag)
    requires forall a: AccountId :: risk.StateOf(a) == l.risk.StateOf(a)
    requires c.bids == b.bids && c.asks == b.asks
    ensures Agrees(l.(risk := risk), c, lag)
  {
    forall a: AccountId ensures Accounted(risk.StateOf(a), c, a, lag) {
      assert Accounted(l.risk.StateOf(a), b, a, lag);
    }
  }

  lemma RefusedUnchanged(r: RiskView, who: AccountId, n: nat, a: AccountId)
    requires CheckCaps(r.StateOf(who), n).Some?
    ensures OnOrderResting(r, who, n).StateOf(a) == r.StateOf(a)
  {
  }

  lemma RestNewInv(s: EngineState, m: NewOrder, price: Price, qty: Qty, lag: Lag := Unbounded)
    requires Inv(s, lag) && !m.tif.Ioc? && !WouldCross(s.book, m.side, Some(price))
    ensures Inv(RestNew(s, m, price, qty).s, lag)
  {
    var n := NotionalOf(price, qty);
    var o := RestingOrder(m.id, m.account, m.side, price, qty, m.tif);
    hide Valid, Uncrossed, Lookup, Agrees, OnOrderResting, OnOrderRemoved, Rest, NotionalOf;
    if CheckCaps(s.ledger.risk.StateOf(m.account), n).Some? {
      forall a: AccountId { RefusedUnchanged(s.ledger.risk, m.account, n, a); }
      KeptBySameView(s.ledger, OnOrderResting(s.ledger.risk, m.account, n), s.book, s.book, lag);
    } else if RestError(s.book, m.id).Some? {
      forall a: AccountId { RestThenRemove(s.ledger.risk, m.account, n, a); }
      var risk := OnOrderRemoved(OnOrderResting(s.ledger.risk, m.account, n), m.account, n);
      KeptBySameView(s.ledger, risk, s.book, s.book, lag);
    } else {
      RestValid(s.book, o);
      RestKeeps(s.ledger, s.book, o, lag);
    }
  }

  lemma SettleMatchKeeps(l: Ledger, b: FlatBook, t: Taker, trade: nat, lag: Lag := Unbounded)
    requires Valid(b) && Agrees(l, b, lag)
    ensures var w := Match(b, t, trade);
      var l' := Settle(l, w.fills, w.stp, t.account, t.qty).ledger;
      && Agrees(l', w.book, lag.Grow(!w.postOnlyRejected && EndsInside(b.Of(t.side.Opposite()), t, t.qty, lag.Who())))
      && (w.stp == [] ==> l'.risk.StateOf(t.account) == l.risk.StateOf(t.account))
  {
    hide Valid, Agrees, Settle, Walk, WouldCross, EndsInside;
    SettleKeeps(l, b, t, t.qty, trade, lag);
    SettleNothing(l, t.account, t.qty);
  }

  /** The trades of a new order. */
  function NewFills(s: EngineState, m: NewOrder): seq<Fill> {
    if CheckNewOrder(s.ledger.risk, m, BestPrice(s.book.Of(m.side.Opposite()))).Some? then []
    else Match(s.book, NewTaker(m), s.nextTrade).fills
  }

  lemma HandleNewInv(s: EngineState, m: NewOrder, lag: Lag := Unbounded)
    requires Inv(s, lag)
    ensures Inv(HandleNew(s, m).s, lag.Grow(FillsPartly(s, New(m), lag.Who())))
  {
    hide Valid, Uncrossed, Agrees, Settle, RestNew, Walk, CheckNewOrder, EndsInside;
    var t := NewTaker(m);
    var w := Match(s.book, t, s.nextTrade);
    MatchValid(s.book, t, s.nextTrade);
    MatchResidual(s.book, t, s.nextTrade);
    SettleMatchKeeps(s.ledger, s.book, t, s.nextTrade, lag);
    PostOnlyRejectsWhole(s.book, t, s.nextTrade);
    if CheckNewOrder(s.ledger.risk, m, BestPrice(s.book.Of(m.side.Opposite()))).None? && !w.postOnlyRejected {
      var settled := Settle(s.ledger, w.fills, w.stp, m.account, m.qty);
      var s' := EngineState(w.book, settled.ledger, s.nextTrade + |w.fills|);
      if w.stp == [] && QtyOf(w.left).Some? && !m.tif.Ioc? && m.price.Some? {
        RestNewInv(s', m, m.price.value, QtyOf(w.left).value, lag.Grow(FillsPartly(s, New(m), lag.Who())));
      }
    }
  }

  // -------------------------------------------------------------------------
  // Cancels
  // -------------------------------------------------------------------------

  lemma HandleCancelInv(s: EngineState, id: OrderId, account: AccountId, lag: Lag := Unbounded)
    requires Inv(s, lag)
    ensures Inv(HandleCancel(s, id, account).s, lag)
  {
    if id in Lookup(s.book) {
      CancelValid(s.book, {id});
      RetireKeeps(s.ledger, s.book, id, lag);
    }
  }

  lemma {:induction false} RetireAllKeeps(
    l: Ledger, b: FlatBook, cs: seq<Cancellation>, reason: CancelReason, lag: Lag := Unbounded)
    requires Valid(b) && Agrees(l, b, lag)
    requires forall i :: 0 <= i < |cs| ==> cs[i].id in Lookup(b)
    requires forall i, j :: 0 <= i < j < |cs| ==> cs[i].id != cs[j].id
    ensures Agrees(RetireAll(l, cs, reason).ledger, Cancel(b, IdsOf(cs)), lag)
    decreases cs
  {
    hide Valid, Agrees, Retire, Lookup, Cancel;
    if cs == [] {
      CancelNone(b);
      assert IdsOf(cs) == {};
    } else {
      var id := cs[0].id;
      CancelValid(b, {id});
      CancelLookup(b, {id});
      RetireKeeps(l, b, id, lag);
      RetireAllKeeps(Retire(l, id), Cancel(b, {id}), cs[1..], reason, lag);
      CancelTwice(b, {id}, IdsOf(cs[1..]));
      assert cs == [cs[0]] + cs[1..];
      assert IdsOf(cs) == {id} + IdsOf(cs[1..]);
    }
  }

  lemma HandleMassCancelInv(s: EngineState, account: AccountId, lag: Lag := Unbounded)
    requires Inv(s, lag)
    ensures Inv(HandleMassCancel(s, account).s, lag)
  {
    var cs := MassRecords(s.book, account);
    MassRecordIds(s.book, account);
    MassRecordsAscend(s.book, account);
    CancelValid(s.book, IdsOf(cs));
    hide Valid, Uncrossed, Agrees, Lookup, MassRecords;
    forall i | 0 <= i < |cs| ensures cs[i].id in Lookup(s.book) {
      assert cs[i] in cs;
      assert cs[i].id in IdsOf(cs);
    }
    RetireAllKeeps(s.ledger, s.book, cs, MassCancelled, lag);
  }

  // -------------------------------------------------------------------------
  // Cancel-replace
  // -------------------------------------------------------------------------

  lemma MirrorEntry(s: EngineState, id: OrderId)
    requires Inv(s)
    ensures id in s.ledger.registry <==> id in Lookup(s.book)
    ensures id in Lookup(s.book) ==> s.ledger.registry[id] == EntryOf(Lookup(s.book)[id])
  {
  }

  lemma NotionalMonotone(price: Price, less: Qty, more: Qty)
    requires less <= more
    ensures NotionalOf(price, less) <= NotionalOf(price, more)
  {
  }

  /** After the refund of an order of `a`, its account has room for one more order, and
      its notional is down by exactly that order's. */
  lemma RetireMakesRoom(l: Ledger, b: FlatBook, id: OrderId)
    requires Valid(b) && Agrees(l, b) && id in Lookup(b)
    ensures var o := Lookup(b)[id];
      var s := Retire(l, id).risk.StateOf(o.account);
      && s.openOrders < MAX_OPEN_ORDERS_PER_ACCT
      && s.notional + Notional(o) == Exposure(b, o.account) <= MAX_NOTIONAL_PER_ACCT
  {
    var o := Lookup(b)[id];
    assert Accounted(l.risk.StateOf(o.account), b, o.account);
    CancelTotals(b, id, ExposureOf(o.account));
  }

  /** An in-place replace can never be refused by the caps. */
  lemma InPlaceFits(l: Ledger, b: FlatBook, id: OrderId, qty: Qty)
    requires Valid(b) && Agrees(l, b) && id in Lookup(b) && qty <= Lookup(b)[id].qty
    ensures var o := Lookup(b)[id];
      CheckCaps(Retire(l, id).risk.StateOf(o.account), NotionalOf(o.price, qty)).None?
  {
    var o := Lookup(b)[id];
    hide Valid, Agrees, Retire, Lookup, Exposure;
    RetireMakesRoom(l, b, id);
    NotionalMonotone(o.price, qty, o.qty);
  }

  lemma ResizeTotalled(l: Ledger, b: FlatBook, id: OrderId, qty: Qty, a: AccountId, lag: Lag)
    requires Valid(b) && Agrees(l, b, lag) && id in Lookup(b) && qty <= Lookup(b)[id].qty
    ensures var o := Lookup(b)[id];
      Accounted(OnOrderResting(Retire(l, id).risk, o.account, NotionalOf(o.price, qty)).StateOf(a),
                b.With(o.side, SetQty(b.Of(o.side), id, qty)), a, lag)
  {
    var o, c := Lookup(b)[id], Cancel(b, {id});
    var b' := b.With(o.side, SetQty(b.Of(o.side), id, qty));
    LookupFacts(b);
    AgreesWeaken(l, b, lag);
    RetireKeeps(l, b, id, lag);
    InPlaceFits(l, b, id, qty);
    assert Accounted(Retire(l, id).risk.StateOf(a), c, a, lag);
    hide Valid, Agrees, Retire, Lookup, Cancel, SetQty, OnOrderResting, Accounted, CheckCaps;
    CancelTotals(b, id, ExposureOf(a));
    CancelTotals(b, id, CountOf(a));
    ResizeTotals(b, o, qty, ExposureOf(a));
    ResizeTotals(b, o, qty, CountOf(a));
    RestedAccounted(Retire(l, id).risk, o.account, NotionalOf(o.price, qty), c, b', a, lag);
  }

  /** Retiring and re-registering with a smaller quantity is resizing in place. */
  lemma ResizeKeeps(l: Ledger, b: FlatBook, id: OrderId, qty: Qty, lag: Lag := Unbounded)
    requires Valid(b) && Agrees(l, b, lag) && id in Lookup(b) && qty <= Lookup(b)[id].qty
    ensures var o := Lookup(b)[id];
      var n := NotionalOf(o.price, qty);
      var l' := Retire(l, id);
      Agrees(Ledger(l'.registry[id := Entry(o.account, o.side, qty, n)], OnOrderResting(l'.risk, o.account, n)),
             b.With(o.side, SetQty(b.Of(o.side), id, qty)), lag)
  {
    hide Valid, Lookup, SetQty, OnOrderResting, Accounted, Entries;
    var o := Lookup(b)[id];
    RestingAt(b, id);
    ResizeLookup(b, o, qty);
    EntriesEdit(Lookup(b), id, o.(qty := qty));
    var e := Entry(o.account, o.side, qty, NotionalOf(o.price, qty));
    assert Retire(l, id).registry[id := e] == l.registry[id := e];
    forall a: AccountId { ResizeTotalled(l, b, id, qty, a, lag); }
  }

  lemma RestReplacedInv(
    s: EngineState, b: FlatBook, o: RestingOrder, side: Side, lag: Lag := Unbounded)
    requires Valid(b) && Uncrossed(b) && Agrees(s.ledger, b, lag)
    requires RestError(b, o.id).None? && side == o.side && !o.tif.Ioc?
    requires s.book == Rest(b, o) && Valid(s.book) && Uncrossed(s.book)
    ensures Inv(RestReplaced(s, o.id, o.account, side, o.price, false, o.qty).s, lag)
  {
    var n := NotionalOf(o.price, o.qty);
    hide Valid, Uncrossed, Lookup, Agrees, OnOrderResting, Rest, NotionalOf, Insert;
    if CheckCaps(s.ledger.risk.StateOf(o.account), n).Some? {
      forall a: AccountId { RefusedUnchanged(s.ledger.risk, o.account, n, a); }
      CancelRested(b, o);
      CancelValid(s.book, {o.id});
      KeptBySameView(s.ledger, OnOrderResting(s.ledger.risk, o.account, n), b, Cancel(s.book, {o.id}), lag);
    } else {
      RestKeeps(s.ledger, b, o, lag);
    }
  }

  /** Cancelling an order just rested restores both queues. */
  lemma CancelRested(b: FlatBook, o: RestingOrder)
    requires Valid(b) && RestError(b, o.id).None?
    ensures Cancel(Rest(b, o), {o.id}) == b.(arrivals := b.arrivals + 1)
  {
    FreshOnBothSides(b, o.id);
    InsertWithout(o.side, b.Of(o.side), Arrive(o, b.arrivals + 1));
    WithoutNone(b.Of(o.side.Opposite()), {o.id});
  }

  /** The walk never adds an id. */
  lemma WalkAddsNoId(b: FlatBook, t: Taker, trade: nat, id: OrderId)
    requires Valid(b) && id !in Lookup(b)
    ensures id !in Lookup(Match(b, t, trade).book)
  {
    var m := Match(b, t, trade);
    var side := t.side.Opposite();
    if !m.postOnlyRejected {
      FreshOnBothSides(b, id);
      MatchValid(b, t, trade);
      WalkShape(b.Of(side), t, t.qty, trade);
      SuffixMembers(m.book.Of(side), b.Of(side));
      MapOfFacts(m.book.Of(side));
      hide Valid, Walk, SuffixOf;
    }
  }

  /** The walk of a replace that loses priority. */
  function ReplaceWalk(b: FlatBook, id: OrderId, price: Price, qty: Qty, trade: nat): Matched
    requires id in Lookup(b)
  {
    Match(Cancel(b, {id}), TakerOf(Lookup(b)[id], price, qty), trade)
  }

  /** The arrival counter can number the leftover, if there is one to rest. */
  predicate HasRoom(b: FlatBook, m: Matched) {
    b.arrivals < U64_MAX || m.stp != [] || QtyOf(m.left).None?
  }

  /** A replace that loses priority commits: its leftover can only fail to rest on an
      exhausted arrival counter. */
  lemma ReplaceCommits(b: FlatBook, id: OrderId, price: Price, qty: Qty, trade: nat)
    requires Valid(b) && id in Lookup(b)
    requires var o := Lookup(b)[id];
      !KeepsPriority(o, price, qty) && !(o.tif.PostOnly? && WouldCross(b, o.side, Some(price)))
    ensures var t, m := TakerOf(Lookup(b)[id], price, qty), ReplaceWalk(b, id, price, qty, trade);
      && !m.postOnlyRejected
      && t.id == id
      && m.book.arrivals == b.arrivals
      && id !in Lookup(m.book)
      && var rests := m.stp == [] && QtyOf(m.left).Some?;
         if HasRoom(b, m) then
           && (rests ==> RestError(m.book, id).None?)
           && Replace(b, id, price, qty, trade) == ReplaceResult(
                if rests then Rest(m.book, ResidualOf(t, price, QtyOf(m.left).value)) else m.book,
                m.fills, m.stp, Ok(Walked(m)))
         else Replace(b, id, price, qty, trade) == ReplaceResult(m.book, m.fills, m.stp, Err(SeqOverflow))
  {
    var o, c := Lookup(b)[id], Cancel(b, {id});
    var t := TakerOf(o, price, qty);
    LookupFacts(b);
    CancelOtherSide(b, id);
    CancelValid(b, {id});
    CancelLookup(b, {id});
    hide Valid, Lookup, Walk, Rest, Cancel;
    WalkAddsNoId(c, t, trade, id);
    MatchResidual(c, t, trade);
    CancelArrivals(b, {id});
  }

  lemma DisposeReplacedInv(l: Ledger, m: Matched, t: Taker, price: Price, trade: nat, lag: Lag := Unbounded)
    requires Valid(m.book) && Uncrossed(m.book) && Agrees(l, m.book, lag)
    requires (m.stp == [] && QtyOf(m.left).Some? ==> RestError(m.book, t.id).None?) && !t.tif.Ioc?
    requires m.stp == [] && m.left > 0 ==> !WouldCross(m.book, t.side, Some(price))
    ensures var book :=
        if m.stp == [] && QtyOf(m.left).Some? then Rest(m.book, ResidualOf(t, price, QtyOf(m.left).value)) else m.book;
      Inv(RestReplaced(EngineState(book, l, trade), t.id, t.account, t.side, price, m.stp != [], m.left).s, lag)
  {
    hide Valid, Uncrossed, Agrees, Lookup, Rest, WouldCross, Cancel;
    if m.stp == [] && QtyOf(m.left).Some? {
      var x := ResidualOf(t, price, QtyOf(m.left).value);
      RestValid(m.book, x);
      RestReplacedInv(EngineState(Rest(m.book, x), l, trade), m.book, x, t.side, lag);
    }
  }

  /** A committed walk: ledger and book agree once the leftover is disposed of. */
  lemma CommitWalkInv(s: EngineState, id: OrderId, price: Price, qty: Qty, lag: Lag := Unbounded)
    requires Inv(s, lag) && id in Lookup(s.book) && HasRoom(s.book, ReplaceWalk(s.book, id, price, qty, s.nextTrade))
    requires var o := Lookup(s.book)[id];
      !KeepsPriority(o, price, qty) && !(o.tif.PostOnly? && WouldCross(s.book, o.side, Some(price)))
    ensures var o := Lookup(s.book)[id];
      var m := Match(Cancel(s.book, {id}), TakerOf(o, price, qty), s.nextTrade);
      var r := Replace(s.book, id, price, qty, s.nextTrade);
      Inv(CommitReplace(s.(book := r.book, nextTrade := s.nextTrade + |r.fills|), id, o.account, price, qty,
                        m.fills, m.stp, m.stp != [], m.left).s,
          lag.Grow(EndsInside(s.book.Of(o.side.Opposite()), TakerOf(o, price, qty), qty, lag.Who())))
  {
    hide Valid, Uncrossed, Agrees, Lookup, Settle, Retire, Rest, Match, WouldCross, Cancel, Replace, RestReplaced,
         HasRoom, EndsInside;
    var o, c := Lookup(s.book)[id], Cancel(s.book, {id});
    var t := TakerOf(o, price, qty);
    var m := Match(c, t, s.nextTrade);
    InvWeaken(s, lag);
    MirrorEntry(s, id);
    RestingTif(s.book, id);
    CancelValid(s.book, {id});
    RetireKeeps(s.ledger, s.book, id, lag);
    ReplaceCommits(s.book, id, price, qty, s.nextTrade);
    MatchValid(c, t, s.nextTrade);
    MatchResidual(c, t, s.nextTrade);
    CancelOtherSide(s.book, id);
    SettleMatchKeeps(Retire(s.ledger, id), c, t, s.nextTrade, lag);
    var l := Settle(Retire(s.ledger, id), m.fills, m.stp, o.account, qty).ledger;
    DisposeReplacedInv(l, m, t, price, s.nextTrade + |m.fills|,
                       lag.Grow(EndsInside(s.book.Of(o.side.Opposite()), t, qty, lag.Who())));
  }

  lemma InvWeaken(s: EngineState, lag: Lag)
    requires Inv(s, lag)
    ensures Inv(s)
  {
    AgreesWeaken(s.ledger, s.book, lag);
  }

  lemma CommitInPlaceInv(s: EngineState, id: OrderId, price: Price, qty: Qty, lag: Lag := Unbounded)
    requires Inv(s, lag) && id in Lookup(s.book) && KeepsPriority(Lookup(s.book)[id], price, qty)
    ensures var r := Replace(s.book, id, price, qty, s.nextTrade);
      && r.outcome == Ok(Kept) && r.fills == []
      && Inv(CommitReplace(s.(book := r.book, nextTrade := s.nextTrade), id, Lookup(s.book)[id].account, price, qty,
                           [], [], false, qty).s, lag)
  {
    hide Valid, Uncrossed, Agrees, Settle, Retire, OnOrderResting, CheckCaps, Lookup, SetQty;
    var o := Lookup(s.book)[id];
    InvWeaken(s, lag);
    RestingAt(s.book, id);
    MirrorEntry(s, id);
    InPlaceFits(s.ledger, s.book, id, qty);
    ResizeKeeps(s.ledger, s.book, id, qty, lag);
    SetQtyKeepsBook(s.book, o, qty);
    SettleNothing(Retire(s.ledger, id), o.account, qty);
  }

  /** The trades of a cancel-replace. */
  function ReplaceFills(s: EngineState, id: OrderId, account: AccountId, price: Price, qty: Qty): seq<Fill> {
    if CheckCancelReplace(s.ledger.risk, price, qty).Some? || Foreign(s.ledger, id, account) then []
    else Replace(s.book, id, price, qty, s.nextTrade).fills
  }

  /** The cancel-replace is let through to the walk. */
  predicate Rewalks(s: EngineState, id: OrderId, account: AccountId, price: Price, qty: Qty) {
    && CheckCancelReplace(s.ledger.risk, price, qty).None?
    && !Foreign(s.ledger, id, account)
    && id in Lookup(s.book)
    && !KeepsPriority(Lookup(s.book)[id], price, qty)
    && !(Lookup(s.book)[id].tif.PostOnly? && WouldCross(s.book, Lookup(s.book)[id].side, Some(price)))
  }

  /** It is let through, outlasts the makers in reach, and finds the arrival counter
      exhausted: the book has already dropped the order, the engine only rejects. */
  predicate Strands(s: EngineState, id: OrderId, account: AccountId, price: Price, qty: Qty) {
    && Rewalks(s, id, account, price, qty)
    && s.book.arrivals == U64_MAX
    && var o := Lookup(s.book)[id];
       Outlasts(s.book.Of(o.side.Opposite()), TakerOf(o, price, qty), qty)
  }

  /** The walk of a replace meets the opposite queue as it stands. */
  lemma ReplaceWalkIs(b: FlatBook, id: OrderId, price: Price, qty: Qty, trade: nat)
    requires Valid(b) && id in Lookup(b)
    ensures var o := Lookup(b)[id];
      var t, q := TakerOf(o, price, qty), b.Of(o.side.Opposite());
      var w, m := Walk(q, t, qty, trade), ReplaceWalk(b, id, price, qty, trade);
      && Cancel(b, {id}).Of(o.side.Opposite()) == q
      && (!m.postOnlyRejected ==> m.fills == w.fills && m.stp == w.stp && m.left == w.left)
      && (m.postOnlyRejected <==> o.tif.PostOnly? && WouldCross(b, o.side, Some(price)))
      && (!m.postOnlyRejected ==> (HasRoom(b, m) <==> b.arrivals < U64_MAX || !Outlasts(q, t, qty)))
  {
    hide Walk, Lookup, Reach, Lots, Cancel;
    var o := Lookup(b)[id];
    CancelOtherSide(b, id);
    WalkLeftover(b.Of(o.side.Opposite()), TakerOf(o, price, qty), qty, trade);
  }

  /** A cancel-replace keeps the invariant unless it strands its order. */
  lemma HandleReplaceInv(
    s: EngineState, id: OrderId, account: AccountId, price: Price, qty: Qty, lag: Lag := Unbounded)
    requires Inv(s, lag) && !Strands(s, id, account, price, qty)
    ensures Inv(HandleReplace(s, id, account, price, qty).s,
                lag.Grow(FillsPartly(s, CancelReplace(id, account, price, qty), lag.Who())))
  {
    hide Inv, CommitReplace, Lookup, WouldCross, Match, CheckCancelReplace, HasRoom, Outlasts, EndsInside;
    InvWeaken(s, lag);
    MirrorEntry(s, id);
    if CheckCancelReplace(s.ledger.risk, price, qty).None? && !Foreign(s.ledger, id, account) && id in Lookup(s.book) {
      var o := Lookup(s.book)[id];
      if KeepsPriority(o, price, qty) {
        CommitInPlaceInv(s, id, price, qty, lag);
      } else if !(o.tif.PostOnly? && WouldCross(s.book, o.side, Some(price))) {
        InvValid(s);
        ReplaceWalkIs(s.book, id, price, qty, s.nextTrade);
        ReplaceCommits(s.book, id, price, qty, s.nextTrade);
        CommitWalkInv(s, id, price, qty, lag);
      }
    }
  }

  /** A stranding replace breaks the mirror: the registry keeps an order the book lost. */
  lemma StrandingBreaksMirror(s: EngineState, id: OrderId, account: AccountId, price: Price, qty: Qty)
    requires Inv(s) && Strands(s, id, account, price, qty)
    ensures var s' := HandleReplace(s, id, account, price, qty).s;
      id in s'.ledger.registry && id !in Lookup(s'.book) && !Inv(s')
  {
    hide Valid, Uncrossed, Lookup, Match, WouldCross, CheckCancelReplace, HasRoom, Totalled, Outlasts;
    MirrorEntry(s, id);
    ReplaceWalkIs(s.book, id, price, qty, s.nextTrade);
    ReplaceCommits(s.book, id, price, qty, s.nextTrade);
  }

  lemma InvValid(s: EngineState)
    requires Inv(s)
    ensures Valid(s.book) && Uncrossed(s.book) && Agrees(s.ledger, s.book)
  {
  }

  // -------------------------------------------------------------------------
  // Steps and runs
  // -------------------------------------------------------------------------

  /** The trades of a command. */
  function StepFills(s: EngineState, cmd: Inbound): seq<Fill> {
    match cmd
    case New(m) => NewFills(s, m)
    case CancelReplace(id, account, price, qty) => ReplaceFills(s, id, account, price, qty)
    case _ => []
  }

  /** The command's quantity runs out inside a maker in reach of it, of account `who` if
      one is named. */
  ghost predicate FillsPartly(s: EngineState, cmd: Inbound, who: Option<AccountId> := None) {
    match cmd
    case New(m) =>
      && CheckNewOrder(s.ledger.risk, m, BestPrice(s.book.Of(m.side.Opposite()))).None?
      && !(m.tif.PostOnly? && WouldCross(s.book, m.side, m.price))
      && EndsInside(s.book.Of(m.side.Opposite()), NewTaker(m), m.qty, who)
    case CancelReplace(id, account, price, qty) =>
      && Rewalks(s, id, account, price, qty)
      && var o := Lookup(s.book)[id];
         EndsInside(s.book.Of(o.side.Opposite()), TakerOf(o, price, qty), qty, who)
    case _ => false
  }

  /** A command fills at most one maker partly, and exactly when its quantity runs out there. */
  lemma StepPartials(s: EngineState, cmd: Inbound)
    requires Inv(s)
    ensures Partials(StepFills(s, cmd)) == if FillsPartly(s, cmd) then 1 else 0
  {
    hide Valid, Uncrossed, Agrees, Lookup, Walk, WouldCross, CheckNewOrder, CheckCancelReplace, EndsInside, Partials;
    NoPartials();
    match cmd
    case New(m) => WalkPartials(s.book.Of(m.side.Opposite()), NewTaker(m), m.qty, s.nextTrade);
    case CancelReplace(id, account, price, qty) =>
      if Rewalks(s, id, account, price, qty) {
        var o := Lookup(s.book)[id];
        ReplaceWalkIs(s.book, id, price, qty, s.nextTrade);
        ReplaceTrades(s.book, id, price, qty, s.nextTrade);
        ReplaceCommits(s.book, id, price, qty, s.nextTrade);
        WalkPartials(s.book.Of(o.side.Opposite()), TakerOf(o, price, qty), qty, s.nextTrade);
      }
    case _ =>
  }

  lemma NoPartials()
    ensures Partials([]) == 0
  {
  }

  predicate Stranding(s: EngineState, cmd: Inbound) {
    cmd.CancelReplace? && Strands(s, cmd.id, cmd.account, cmd.price, cmd.qty)
  }

  /** Only an exhausted counter strands an order. */
  lemma RoomNeverStrands(s: EngineState, cmd: Inbound)
    requires s.book.arrivals < U64_MAX
    ensures !Stranding(s, cmd)
  {
  }

  /** Every command keeps the invariant, but for exactly one family: a replace that loses
      priority, leaves something to rest and finds the arrival counter at its ceiling. */
  lemma InvUnlessStranding(s: EngineState, cmd: Inbound)
    requires Inv(s)
    ensures Inv(Step(s, cmd).s) <==> !Stranding(s, cmd)
  {
    hide Inv, HandleNew, HandleCancel, HandleReplace, HandleMassCancel, Strands;
    if Stranding(s, cmd) {
      StrandingBreaksMirror(s, cmd.id, cmd.account, cmd.price, cmd.qty);
    } else {
      HandleInvUnless(s, cmd);
    }
  }

  /** Every command keeps the invariant; an account's open-order count falls behind by one
      when the command fills one of its makers partly, and not otherwise. */
  lemma HandleInv(s: EngineState, cmd: Inbound, lag: Lag := Unbounded)
    requires Inv(s, lag) && s.book.arrivals < U64_MAX
    ensures Inv(Handle(s, cmd).s, lag.Grow(FillsPartly(s, cmd, lag.Who())))
  {
    hide Inv, Handle, FillsPartly, Stranding;
    RoomNeverStrands(s, cmd);
    HandleInvUnless(s, cmd, lag);
  }

  lemma HandleInvUnless(s: EngineState, cmd: Inbound, lag: Lag := Unbounded)
    requires Inv(s, lag) && !Stranding(s, cmd)
    ensures Inv(Handle(s, cmd).s, lag.Grow(FillsPartly(s, cmd, lag.Who())))
  {
    hide Inv, HandleNew, HandleCancel, HandleReplace, HandleMassCancel, EndsInside, Rewalks, CheckNewOrder, WouldCross;
    match cmd
    case New(m) => HandleNewInv(s, m, lag);
    case CancelOne(id, account) => HandleCancelInv(s, id, account, lag);
    case CancelReplace(id, account, price, qty) => HandleReplaceInv(s, id, account, price, qty, lag);
    case MassCancelAll(account) => HandleMassCancelInv(s, account, lag);
    case KillSwitchSet(halt) => KillInv(s, halt, lag);
    case SnapshotRequest(_) =>
  }

  lemma KillInv(s: EngineState, halt: bool, lag: Lag)
    requires Inv(s, lag)
    ensures Inv(s.(ledger := s.ledger.(risk := s.ledger.risk.(killSwitch := halt))), lag)
  {
    var risk := s.ledger.risk.(killSwitch := halt);
    forall a: AccountId ensures risk.StateOf(a) == s.ledger.risk.StateOf(a) { }
    KeptBySameView(s.ledger, risk, s.book, s.book, lag);
  }

  /** One command bumps the arrival counter at most once. */
  lemma HandleArrivals(s: EngineState, cmd: Inbound)
    ensures s.book.arrivals <= Handle(s, cmd).s.book.arrivals <= s.book.arrivals + 1
  {
    hide HandleNew, HandleReplace, RetireAll, Lookup, MassRecords, Without, Owned;
    match cmd
    case New(m) => NewArrivals(s, m);
    case CancelReplace(id, account, price, qty) => ReplaceArrivals(s, id, account, price, qty);
    case _ =>
  }

  lemma NewArrivals(s: EngineState, m: NewOrder)
    ensures s.book.arrivals <= HandleNew(s, m).s.book.arrivals <= s.book.arrivals + 1
  {
    hide Walk, Settle, Lookup, WouldCross, Insert, CheckNewOrder, CheckCaps, OnOrderResting, OnOrderRemoved;
  }

  lemma ReplaceArrivals(s: EngineState, id: OrderId, account: AccountId, price: Price, qty: Qty)
    ensures var arrivals := HandleReplace(s, id, account, price, qty).s.book.arrivals;
      s.book.arrivals <= arrivals <= s.book.arrivals + 1
  {
    BookReplaceArrivals(s.book, id, price, qty, s.nextTrade);
    hide Replace, Settle, Retire, Without, CheckCancelReplace, CheckCaps, OnOrderResting;
  }

  lemma BookReplaceArrivals(b: FlatBook, id: OrderId, price: Price, qty: Qty, trade: nat)
    ensures b.arrivals <= Replace(b, id, price, qty, trade).book.arrivals <= b.arrivals + 1
  {
    hide Walk, Lookup, WouldCross, Insert, Without, SetQty;
  }

  /** No command of the run strands its order. */
  ghost predicate Strandless(s: EngineState, cmds: seq<Inbound>)
    decreases cmds
  {
    cmds == [] || (!Stranding(s, cmds[0]) && Strandless(Step(s, cmds[0]).s, cmds[1..]))
  }

  /** Every state of the run satisfies the invariant. */
  ghost predicate AlwaysInv(s: EngineState, cmds: seq<Inbound>)
    decreases cmds
  {
    Inv(s) && (cmds == [] || AlwaysInv(Step(s, cmds[0]).s, cmds[1..]))
  }

  /** A run of any length satisfies the invariant throughout if and only if it strands no
      order. */
  lemma {:induction false} RunInv(s: EngineState, cmds: seq<Inbound>)
    requires Inv(s)
    ensures AlwaysInv(s, cmds) <==> Strandless(s, cmds)
    ensures Strandless(s, cmds) ==> Inv(Run(s, cmds).s)
    decreases cmds
  {
    hide Inv, Step, Stranding;
    if cmds != [] {
      InvUnlessStranding(s, cmds[0]);
      if !Stranding(s, cmds[0]) { RunInv(Step(s, cmds[0]).s, cmds[1..]); }
    }
  }

  /** A run that the 64-bit arrival counter can number strands no order. */
  lemma {:induction false} ShortRuns(s: EngineState, cmds: seq<Inbound>)
    requires s.book.arrivals + |cmds| <= U64_MAX
    ensures Strandless(s, cmds)
    ensures Run(s, cmds).s.book.arrivals <= s.book.arrivals + |cmds|
    decreases cmds
  {
    hide Handle, Stranding;
    if cmds != [] {
      RoomNeverStrands(s, cmds[0]);
      HandleArrivals(s, cmds[0]);
      ShortRuns(Step(s, cmds[0]).s, cmds[1..]);
    }
  }

  lemma InitialInv()
    ensures Inv(INITIAL, EXACT)
  {
    forall a: AccountId ensures Accounted(INITIAL.ledger.risk.StateOf(a), INITIAL.book, a, EXACT) { }
  }
}
