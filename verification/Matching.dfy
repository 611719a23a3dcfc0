/** The matching book: two price ladders, an id sidecar, a per-account id set and an
    arrival counter, changed together in place.  Every method is proved against the
    flat specification of `PriceTime`. */
module Matching {
  import opened Domain
  import opened PriceTime
  import opened QueueLaws
  import opened WalkLaws
  import opened BookLaws
  import opened Ladder
  import opened LadderDepth

  /** Sidecar entry per resting order. */
  datatype OrderMeta = OrderMeta(side: Side, price: Price, account: AccountId, tif: Tif)

  datatype MatchResult = MatchResult(
    fillsCount: nat, stpCancellations: nat, takerRemaining: Option<Qty>,
    takerStpCancelled: bool, takerPostOnlyRejected: bool)

  /** The outcome of a committed or gated replace: `result.None?` is the in-place path. */
  datatype Replacement = Replacement(keptPriority: bool, result: Option<MatchResult>)

  function MetaOf(o: Resting): OrderMeta { OrderMeta(o.side, o.price, o.account, o.tif) }

  function Metas(m: map<OrderId, Resting>): map<OrderId, OrderMeta> {
    map id | id in m :: MetaOf(m[id])
  }

  /** `groups` groups the resting ids by account and holds no empty group. */
  ghost predicate Grouped(groups: map<AccountId, set<OrderId>>, m: map<OrderId, Resting>) {
    && (forall a :: a in groups ==> groups[a] != {} && groups[a] == Owned(m, a))
    && (forall id :: id in m ==> m[id].account in groups)
  }

  /** The summary `match_aggressive` returns for a specified match. */
  function Summary(m: Matched): MatchResult {
    MatchResult(|m.fills|, |m.stp|, QtyOf(m.left), m.stp != [], m.postOnlyRejected)
  }

  function OutcomeOf(r: ReplaceResult): Result<Replacement, BookError> {
    match r.outcome
    case Err(e) => Err(e)
    case Ok(Kept) => Ok(Replacement(true, None))
    case Ok(Walked(m)) => Ok(Replacement(false, Some(Summary(m))))
  }

  // -------------------------------------------------------------------------
  // Index laws
  // -------------------------------------------------------------------------

  lemma GroupedRemove(groups: map<AccountId, set<OrderId>>, m: map<OrderId, Resting>, id: OrderId)
    requires Grouped(groups, m) && id in m
    ensures m[id].account in groups
    ensures var a := m[id].account;
      var rest := groups[a] - {id};
      Grouped(if rest == {} then groups - {a} else groups[a := rest], m - {id})
  {
    var a := m[id].account;
    assert Owned(m - {id}, a) == groups[a] - {id};
    forall c | c in groups && c != a ensures groups[c] == Owned(m - {id}, c) { }
    forall x | x in m - {id} && m[x].account == a ensures groups[a] - {id} != {} {
      assert x in groups[a] - {id};
    }
  }

  lemma GroupedAdd(groups: map<AccountId, set<OrderId>>, m: map<OrderId, Resting>, o: Resting)
    requires Grouped(groups, m) && o.id !in m
    ensures Grouped(groups[o.account := (if o.account in groups then groups[o.account] else {}) + {o.id}], m[o.id := o])
  {
    var m' := m[o.id := o];
    var ids := (if o.account in groups then groups[o.account] else {}) + {o.id};
    assert o.id in ids;
    assert Owned(m', o.account) == ids;
    forall c | c in groups && c != o.account ensures groups[c] == Owned(m', c) { }
  }

  lemma IndicesIgnoreQty(groups: map<AccountId, set<OrderId>>, m: map<OrderId, Resting>, id: OrderId, n: Qty)
    requires Grouped(groups, m) && id in m
    ensures Grouped(groups, m[id := m[id].(qty := n)])
    ensures Metas(m[id := m[id].(qty := n)]) == Metas(m)
  {
    var m' := m[id := m[id].(qty := n)];
    forall a | a in groups ensures groups[a] == Owned(m', a) { }
  }

  // -------------------------------------------------------------------------
  // The representation, as a relation between field values and the flat book
  // -------------------------------------------------------------------------

  ghost predicate Indexed(
    index: map<OrderId, OrderMeta>, groups: map<AccountId, set<OrderId>>, m: map<OrderId, Resting>)
  {
    index == Metas(m) && Grouped(groups, m)
  }

  function Pick<T>(side: Side, bids: T, asks: T): T { if side.Bid? then bids else asks }

  ghost predicate Stored(bids: seq<Level>, asks: seq<Level>, b: FlatBook) {
    Represents(Bid, bids, b.bids) && Represents(Ask, asks, b.asks)
  }

  lemma IndexedKeys(
    index: map<OrderId, OrderMeta>, groups: map<AccountId, set<OrderId>>, m: map<OrderId, Resting>)
    requires Indexed(index, groups, m)
    ensures index.Keys == m.Keys
    ensures forall id :: id in m ==> index[id] == MetaOf(m[id])
  {
  }

  lemma IndexedAdd(
    index: map<OrderId, OrderMeta>, groups: map<AccountId, set<OrderId>>, m: map<OrderId, Resting>, o: Resting)
    requires Indexed(index, groups, m) && o.id !in m
    ensures Indexed(
      index[o.id := MetaOf(o)],
      groups[o.account := (if o.account in groups then groups[o.account] else {}) + {o.id}],
      m[o.id := o])
  {
    GroupedAdd(groups, m, o);
  }

  lemma StoredRest(bids: seq<Level>, asks: seq<Level>, b: FlatBook, o: RestingOrder)
    requires Valid(b) && Stored(bids, asks, b)
    ensures var x := Arrive(o, b.arrivals + 1);
      var lad := Enqueue(o.side, Pick(o.side, bids, asks), o.price, LevelOrder(o.id, o.qty, x.arrival));
      if o.side.Bid? then Stored(lad, asks, Rest(b, o)) else Stored(bids, lad, Rest(b, o))
  {
    EnqueueRefines(o.side, Pick(o.side, bids, asks), b.Of(o.side), Arrive(o, b.arrivals + 1));
  }

  lemma StoredCancel(bids: seq<Level>, asks: seq<Level>, b: FlatBook, o: Resting)
    requires Valid(b) && Stored(bids, asks, b) && o in b.Of(o.side)
    ensures var lad := CancelAt(Pick(o.side, bids, asks), o.price, o.id);
      if o.side.Bid? then Stored(lad, asks, Cancel(b, {o.id})) else Stored(bids, lad, Cancel(b, {o.id}))
  {
    LookupFacts(b);
    CancelOtherSide(b, o.id);
    CancelRefines(o.side, Pick(o.side, bids, asks), b.Of(o.side), o);
  }

  lemma StoredResize(bids: seq<Level>, asks: seq<Level>, b: FlatBook, o: Resting, n: Qty)
    requires Valid(b) && Stored(bids, asks, b) && o in b.Of(o.side)
    ensures var l := Pick(o.side, bids, asks);
      var lad := Store(l, o.price, Resize(OrdersAt(l, o.price), o.id, n));
      var b' := b.With(o.side, SetQty(b.Of(o.side), o.id, n));
      && QtyIn(OrdersAt(l, o.price), o.id) == Some(o.qty)
      && if o.side.Bid? then Stored(lad, asks, b') else Stored(bids, lad, b')
  {
    ResizeRefines(o.side, Pick(o.side, bids, asks), b.Of(o.side), o, n);
  }

  // -------------------------------------------------------------------------
  // The book
  // -------------------------------------------------------------------------

  class Book {
    /** Levels best price first: bids descending, asks ascending. */
    var bids: seq<Level>
    var asks: seq<Level>
    var index: map<OrderId, OrderMeta>
    var byAccount: map<AccountId, set<OrderId>>
    var arrivals: nat

    /** The flat book the five fields stand for. */
    ghost var flat: FlatBook

    function LadderOf(side: Side): seq<Level>
      reads this
    {
      Pick(side, bids, asks)
    }

    ghost predicate Valid()
      reads this
    {
      && PriceTime.Valid(flat)
      && arrivals == flat.arrivals
      && Indexed(index, byAccount, Lookup(flat))
      && Stored(bids, asks, flat)
    }

    constructor ()
      ensures Valid() && flat == EMPTY
    {
      bids, asks, index, byAccount, arrivals := [], [], map[], map[], 0;
      flat := EMPTY;
    }

    method SetLadder(side: Side, lad: seq<Level>)
      modifies this`bids, this`asks
      ensures if side.Bid? then bids == lad && asks == old(asks) else asks == lad && bids == old(bids)
    {
      if side.Bid? { bids := lad; } else { asks := lad; }
    }

    method AddResting(o: RestingOrder) returns (error: Option<BookError>)
      requires Valid() && !o.tif.Ioc?
      modifies this
      ensures Valid()
      ensures error == RestError(old(flat), o.id)
      ensures flat == if error.None? then Rest(old(flat), o) else old(flat)
    {
      hide PriceTime.Valid, Indexed, Stored, Lookup, Enqueue, Insert;
      IndexedKeys(index, byAccount, Lookup(flat));
      if o.id in index { return Some(DuplicateId); }
      if arrivals >= U64_MAX { return Some(SeqOverflow); }
      assert RestError(flat, o.id).None?;
      RestValid(flat, o);
      RestLookup(flat, o);
      IndexedAdd(index, byAccount, Lookup(flat), Arrive(o, arrivals + 1));
      StoredRest(bids, asks, flat, o);
      arrivals := arrivals + 1;
      SetLadder(o.side, Enqueue(o.side, LadderOf(o.side), o.price, LevelOrder(o.id, o.qty, arrivals)));
      index := index[o.id := OrderMeta(o.side, o.price, o.account, o.tif)];
      byAccount := byAccount[o.account := (if o.account in byAccount then byAccount[o.account] else {}) + {o.id}];
      flat := Rest(flat, o);
      return None;
    }

    /** Forget `id` in the sidecar and in its account's set; nothing, if it is not there. */
    method DropFromIndices(id: OrderId, ghost m: map<OrderId, Resting>)
      requires Indexed(index, byAccount, m)
      modifies this`index, this`byAccount
      ensures Indexed(index, byAccount, m - {id})
    {
      IndexedKeys(index, byAccount, m);
      if id !in index {
        assert m - {id} == m;
        return;
      }
      var meta := index[id];
      GroupedRemove(byAccount, m, id);
      index := index - {id};
      var ids := byAccount[meta.account] - {id};
      if ids == {} {
        byAccount := byAccount - {meta.account};
      } else {
        byAccount := byAccount[meta.account := ids];
      }
    }

    method CancelOrder(id: OrderId) returns (r: Result<(Side, Price), BookError>)
      requires Valid()
      modifies this
      ensures Valid()
      ensures flat == Cancel(old(flat), {id})
      ensures r == if id in Lookup(old(flat))
        then Ok((Lookup(old(flat))[id].side, Lookup(old(flat))[id].price)) else Err(UnknownId)
    {
      hide PriceTime.Valid, Indexed, Stored, Lookup;
      IndexedKeys(index, byAccount, Lookup(flat));
      if id !in index {
        CancelAbsent(flat, id);
        return Err(UnknownId);
      }
      var meta := index[id];
      RemoveResting(id, meta.side, meta.price);
      return Ok((meta.side, meta.price));
    }

    /** Take a resting order out of its level, its ladder and the indices. */
    method RemoveResting(id: OrderId, side: Side, price: Price)
      requires Valid() && id in Lookup(flat)
      requires side == Lookup(flat)[id].side && price == Lookup(flat)[id].price
      modifies this
      ensures Valid()
      ensures flat == Cancel(old(flat), {id})
    {
      hide PriceTime.Valid, Indexed, Stored, Lookup, Store, Drop, OrdersAt, RemoveLevel;
      RestingAt(flat, id);
      CancelValid(flat, {id});
      CancelLookup(flat, {id});
      StoredCancel(bids, asks, flat, Lookup(flat)[id]);
      var lad := Store(LadderOf(side), price, Drop(OrdersAt(LadderOf(side), price), id));
      if OrdersAt(lad, price) == [] {
        lad := RemoveLevel(lad, price);
      }
      SetLadder(side, lad);
      DropFromIndices(id, Lookup(flat));
      flat := Cancel(flat, {id});
    }

    // -----------------------------------------------------------------------
    // The matching walk
    // -----------------------------------------------------------------------

    /** The book in the middle of sweeping the best level of `side`: that level holds
        `os` and may have run empty, everything else is in order. */
    ghost predicate Sweeping(side: Side, price: Price, os: seq<LevelOrder>, rest: seq<Level>)
      reads this
    {
      && PriceTime.Valid(flat)
      && arrivals == flat.arrivals
      && Indexed(index, byAccount, Lookup(flat))
      && LadderOf(side) == [Level(price, os)] + rest
      && SweptLadder(side, price, os, rest, flat.Of(side))
      && Represents(side.Opposite(), LadderOf(side.Opposite()), flat.Of(side.Opposite()))
    }

    /** Take the head order of the best level out of the level and the indices. */
    method DropHead(side: Side, price: Price, id: OrderId, ghost os: seq<LevelOrder>, ghost rest: seq<Level>)
      requires Sweeping(side, price, os, rest) && os != [] && id == os[0].id
      modifies this
      ensures Sweeping(side, price, os[1..], rest)
      ensures old(flat).Of(side) != [] && flat == old(flat).With(side, old(flat).Of(side)[1..])
    {
      hide PriceTime.Valid, Indexed, Lookup, Represents, SweptLadder, Store, Drop, OrdersAt, Cancel, Distinct;
      SweptHead(side, price, os, rest, flat);
      DistinctSide(flat, side);
      SweptPop(side, price, os, rest, flat.Of(side));
      CancelValid(flat, {id});
      CancelLookup(flat, {id});
      SetLadder(side, Store(LadderOf(side), price, Drop(OrdersAt(LadderOf(side), price), id)));
      DropFromIndices(id, Lookup(flat));
      flat := Cancel(flat, {id});
    }

    /** Reduce the head order of the best level, keeping its place. */
    method ShrinkHead(side: Side, price: Price, id: OrderId, n: Qty, ghost os: seq<LevelOrder>, ghost rest: seq<Level>)
      requires Sweeping(side, price, os, rest) && os != [] && id == os[0].id
      modifies this
      ensures Sweeping(side, price, [os[0].(qty := n)] + os[1..], rest)
      ensures old(flat).Of(side) != []
      ensures var q := old(flat).Of(side); flat == old(flat).With(side, [q[0].(qty := n)] + q[1..])
    {
      hide PriceTime.Valid, Indexed, Lookup, Represents, SweptLadder, Store, Resize, OrdersAt, SetQty, Distinct;
      SweptHead(side, price, os, rest, flat);
      DistinctSide(flat, side);
      SweptShrink(side, price, os, rest, flat.Of(side), n);
      SetQtyHead(flat.Of(side), n);
      ghost var o := flat.Of(side)[0];
      ResizeLookup(flat, o, n);
      SetQtyKeepsBook(flat, o, n);
      IndexedResize(index, byAccount, Lookup(flat), id, n);
      SetLadder(side, Store(LadderOf(side), price, Resize(OrdersAt(LadderOf(side), price), id, n)));
      flat := flat.With(side, SetQty(flat.Of(side), id, n));
    }

    /** Drop the swept level if it ran empty. */
    method PruneLevel(side: Side, price: Price, ghost os: seq<LevelOrder>, ghost rest: seq<Level>)
      requires Sweeping(side, price, os, rest)
      modifies this
      ensures Valid() && flat == old(flat)
    {
      hide PriceTime.Valid, Indexed, Lookup, Represents, SweptLadder;
      SweptPrune(side, price, os, rest, flat.Of(side));
      if OrdersAt(LadderOf(side), price) == [] {
        SetLadder(side, RemoveLevel(LadderOf(side), price));
      }
    }

    /** A sweep starts at the best level of a valid book. */
    lemma SweepStarts(side: Side)
      requires Valid() && LadderOf(side) != []
      ensures var l := LadderOf(side)[0];
        && OrdersAt(LadderOf(side), l.price) == l.orders && l.orders != []
        && Sweeping(side, l.price, l.orders, LadderOf(side)[1..])
    {
      hide PriceTime.Valid, Indexed, Lookup, Represents, SweptLadder, OrdersAt;
      SweepBegins(side, LadderOf(side), flat.Of(side));
    }

    /** The head of the swept level is indexed and heads the flat queue. */
    lemma SweepHead(side: Side, price: Price, os: seq<LevelOrder>, rest: seq<Level>)
      requires Sweeping(side, price, os, rest) && os != []
      ensures os[0].id in index && flat.Of(side) != []
      ensures var meta, h := index[os[0].id], flat.Of(side)[0];
        && h.id == os[0].id && h.price == price && h.qty == os[0].qty && h.side == side
        && meta == MetaOf(h)
    {
      hide PriceTime.Valid, Indexed, Lookup, Represents, SweptLadder;
      SweptHead(side, price, os, rest, flat);
      IndexedKeys(index, byAccount, Lookup(flat));
    }

    /** Walk one level head first over a snapshot of its queue.  Unless self-trade
        prevention halts it, the flat walk simply continues from the new state. */
    method SweepLevel(t: Taker, price: Price, remaining: nat, trade: nat)
      returns (fills: seq<Fill>, stp: seq<Cancellation>, left: nat, halted: bool)
      requires Valid() && remaining > 0
      requires BestLevel(LadderOf(t.side.Opposite())) == Some(price) && Crosses(t.side, t.price, price)
      modifies this
      ensures Valid()
      ensures flat == old(flat).With(t.side.Opposite(), flat.Of(t.side.Opposite()))
      ensures WalkedTo(
        Walk(old(flat).Of(t.side.Opposite()), t, remaining, trade), t, trade,
        fills, stp, left, halted, flat.Of(t.side.Opposite()))
      ensures halted || left < remaining
    {
      hide Valid, Sweeping, OrdersAt, Walk, WalkedTo;
      var side := t.side.Opposite();
      ghost var w0 := Walk(flat.Of(side), t, remaining, trade);
      WalkedNowhere(flat.Of(side), t, remaining, trade);
      SweepStarts(side);
      var snapshot := OrdersAt(LadderOf(side), price);
      ghost var os, rest := snapshot, LadderOf(side)[1..];
      fills, stp, left, halted := [], [], remaining, false;
      var snapIdx := 0;
      while left > 0 && snapIdx < |snapshot| && !halted
        invariant 0 <= snapIdx <= |snapshot|
        invariant Sweeping(side, price, os, rest)
        invariant left > 0 && !halted ==> os == snapshot[snapIdx..]
        invariant flat == old(flat).With(side, flat.Of(side))
        invariant !halted ==> stp == []
        invariant WalkedTo(w0, t, trade, fills, stp, left, halted, flat.Of(side))
        invariant halted || left < remaining || (left == remaining && snapIdx == 0)
        decreases left, !halted
      {
        var head := snapshot[snapIdx];
        SweepHead(side, price, os, rest);
        ghost var q := flat.Of(side);
        var meta := index[head.id];
        WalkedStep(w0, t, trade, fills, left, q);
        if meta.account == t.account {
          DropHead(side, price, head.id, os, rest);
          os := os[1..];
          stp := stp + [Cancellation(head.id, meta.account, meta.side, price, head.qty)];
          assert stp == [CancellationOf(q[0])];
          halted := true;
        } else {
          var fillQty := if left < head.qty then left else head.qty;
          if head.qty == fillQty {
            DropHead(side, price, head.id, os, rest);
            os := os[1..];
            snapIdx := snapIdx + 1;
          } else {
            ShrinkHead(side, price, head.id, head.qty - fillQty, os, rest);
            os := [os[0].(qty := head.qty - fillQty)] + os[1..];
          }
          fills := fills + [Fill(trade + |fills|, head.id, t.id, side, price, fillQty, head.qty == fillQty)];
          left := left - fillQty;
        }
      }
      PruneLevel(side, price, os, rest);
    }

    method MatchAggressive(t: Taker, trade: nat)
      returns (fills: seq<Fill>, stp: seq<Cancellation>, r: MatchResult)
      requires Valid()
      modifies this
      ensures Valid()
      ensures var m := Match(old(flat), t, trade);
        flat == m.book && fills == m.fills && stp == m.stp && r == Summary(m)
    {
      hide PriceTime.Valid, Indexed, Lookup, Stored, Walk, WalkedTo;
      var side := t.side.Opposite();
      fills, stp := [], [];
      StoredBest(bids, asks, flat);
      if t.tif.PostOnly? && WouldCrossNow(t.side, t.price) {
        r := MatchResult(0, 0, Some(t.qty), false, true);
        return;
      }
      ghost var w0 := Walk(flat.Of(side), t, t.qty, trade);
      WalkedNowhere(flat.Of(side), t, t.qty, trade);
      var remaining: nat, halted := t.qty, false;
      while remaining > 0 && !halted
        invariant Valid()
        invariant flat == old(flat).With(side, flat.Of(side))
        invariant WalkedTo(w0, t, trade, fills, stp, remaining, halted, flat.Of(side))
        decreases !halted, remaining
      {
        StoredBest(bids, asks, flat);
        var best := BestLevel(LadderOf(side));
        if best.None? { break; }
        if !Crosses(t.side, t.price, best.value) { break; }
        ghost var q, before := flat.Of(side), remaining;
        var fs, cs;
        fs, cs, remaining, halted := SweepLevel(t, best.value, remaining, trade + |fills|);
        WalkedJoin(w0, t, trade, fills, stp, before, q, fs, cs, remaining, halted, flat.Of(side));
        fills, stp := fills + fs, stp + cs;
      }
      StoredBest(bids, asks, flat);
      WalkedDone(w0, t, trade, fills, stp, remaining, halted, flat.Of(side));
      r := MatchResult(|fills|, |stp|, QtyOf(remaining), halted, false);
    }

    /** Residual quantity of a resting order, read from its level's queue. */
    function RestingQty(id: OrderId): Option<Qty>
      reads this
    {
      if id in index then QtyIn(OrdersAt(LadderOf(index[id].side), index[id].price), id) else None
    }

    /** Shrink a resting order in place: same level, same position. */
    method ResizeInPlace(id: OrderId, qty: Qty)
      requires Valid() && id in Lookup(flat) && qty <= Lookup(flat)[id].qty
      modifies this
      ensures Valid()
      ensures var o := old(Lookup(flat)[id]);
        flat == old(flat).With(o.side, SetQty(old(flat).Of(o.side), id, qty))
    {
      hide PriceTime.Valid, Indexed, Stored, Lookup, OrdersAt, QtyIn, Store, Resize;
      IndexedKeys(index, byAccount, Lookup(flat));
      var side, price := index[id].side, index[id].price;
      ghost var o := Lookup(flat)[id];
      RestingAt(flat, id);
      StoredResize(bids, asks, flat, o, qty);
      ResizeLookup(flat, o, qty);
      SetQtyKeepsBook(flat, o, qty);
      IndexedResize(index, byAccount, Lookup(flat), id, qty);
      SetLadder(side, Store(LadderOf(side), price, Resize(OrdersAt(LadderOf(side), price), id, qty)));
      flat := flat.With(o.side, SetQty(flat.Of(o.side), id, qty));
    }

    method ReplaceOrder(id: OrderId, price: Price, qty: Qty, trade: nat)
      returns (r: Result<Replacement, BookError>, fills: seq<Fill>, stp: seq<Cancellation>)
      requires Valid()
      modifies this
      ensures Valid()
      ensures var s := Replace(old(flat), id, price, qty, trade);
        flat == s.book && r == OutcomeOf(s) && fills == s.fills && stp == s.stp
    {
      hide PriceTime.Valid, Indexed, Stored, Lookup, OrdersAt, QtyIn, Match, Cancel, Rest;
      fills, stp := [], [];
      IndexedKeys(index, byAccount, Lookup(flat));
      if id !in index { return Err(UnknownId), fills, stp; }
      var meta := index[id];
      ghost var o := Lookup(flat)[id];
      RestingAt(flat, id);
      StoredResize(bids, asks, flat, o, qty);
      var current := RestingQty(id).value;
      if price == meta.price && qty <= current {
        ResizeInPlace(id, qty);
        return Ok(Replacement(true, None)), fills, stp;
      }
      StoredBest(bids, asks, flat);
      if meta.tif.PostOnly? && WouldCrossNow(meta.side, Some(price)) {
        return Ok(Replacement(false, Some(MatchResult(0, 0, Some(qty), false, true)))), fills, stp;
      }
      RestingTif(flat, id);
      var gone := CancelOrder(id);
      var result;
      fills, stp, result := MatchAggressive(Taker(id, meta.account, meta.side, Some(price), qty, meta.tif), trade);
      if !result.takerStpCancelled && result.takerRemaining.Some? {
        var error := AddResting(
          RestingOrder(id, meta.account, meta.side, price, result.takerRemaining.value, meta.tif));
        if error.Some? { return Err(error.value), fills, stp; }
      }
      return Ok(Replacement(false, Some(result))), fills, stp;
    }

    /** Cancel every resting order of `account`, in ascending id. */
    method MassCancelAccount(account: AccountId) returns (out: seq<Cancellation>)
      requires Valid()
      modifies this
      ensures Valid()
      ensures flat == MassCancel(old(flat), account) && out == MassRecords(old(flat), account)
    {
      hide PriceTime.Valid, Indexed, Stored, Lookup, Ascending, Owned, Cancel, Records;
      ghost var m := Lookup(flat);
      GroupIs(index, byAccount, m, account);
      var ids := if account in byAccount then Ascending(byAccount[account]) else [];
      AscendingFacts(Owned(m, account));
      out := [];
      ghost var gone: set<OrderId> := {};
      CancelNone(flat);
      RecordsNone(m);
      for i := 0 to |ids|
        invariant Valid()
        invariant gone == (set id | id in ids[..i])
        invariant flat == Cancel(old(flat), gone)
        invariant Lookup(flat) == m - gone
        invariant out == Records(m, ids[..i])
      {
        var id := ids[i];
        OwnedIn(m, account, ids, i);
        CancelLookup(flat, {id});
        var record := CancelOwned(id);
        CancelTwice(old(flat), gone, {id});
        RecordsSnoc(m, ids[..i], id);
        assert ids[..i + 1] == ids[..i] + [id];
        gone := gone + {id};
        out := out + [record];
      }
      assert ids[..|ids|] == ids;
      assert gone == Owned(m, account);
    }

    /** Cancel one resting order, recording what it still rested. */
    method CancelOwned(id: OrderId) returns (record: Cancellation)
      requires Valid() && id in Lookup(flat)
      modifies this
      ensures Valid()
      ensures flat == Cancel(old(flat), {id})
      ensures record == CancellationOf(Lookup(old(flat))[id])
    {
      hide PriceTime.Valid, Indexed, Stored, Lookup, OrdersAt, QtyIn, Store, Resize;
      IndexedKeys(index, byAccount, Lookup(flat));
      RestingAt(flat, id);
      StoredResize(bids, asks, flat, Lookup(flat)[id], 1);
      var meta := index[id];
      var qty := RestingQty(id).value;
      RemoveResting(id, meta.side, meta.price);
      record := Cancellation(id, meta.account, meta.side, meta.price, qty);
    }

    /** The best stored levels are the best prices of the flat book. */
    lemma BestPrices()
      requires Valid()
      ensures BestLevel(bids) == BestPrice(flat.bids) && BestLevel(asks) == BestPrice(flat.asks)
    {
      StoredBest(bids, asks, flat);
    }

    /** The level views show the depth of the flat book, and add up to its lots. */
    lemma Views()
      requires Valid()
      ensures LevelView(bids) == Depth(flat.bids) && LevelView(asks) == Depth(flat.asks)
      ensures SideQty(bids) == Lots(flat.bids) && SideQty(asks) == Lots(flat.asks)
    {
      SideQtyRefines(Bid, bids, flat.bids);
      SideQtyRefines(Ask, asks, flat.asks);
      ViewRefines(Bid, bids, flat.bids);
      ViewRefines(Ask, asks, flat.asks);
    }

    lemma CancelUnknown(id: OrderId)
      requires Valid()
      ensures id !in Lookup(flat) ==> Cancel(flat, {id}) == flat
    {
      if id !in Lookup(flat) { CancelAbsent(flat, id); }
    }

    predicate WouldCrossNow(side: Side, price: Option<Price>)
      reads this
    {
      var best := BestLevel(LadderOf(side.Opposite()));
      best.Some? && Crosses(side, price, best.value)
    }
  }

  /** `fills`, `stp`, `left` and `q` are where the walk `w` stands: finished if
      halted, otherwise with exactly the walk of `q` still to go. */
  ghost predicate WalkedTo(
    w: WalkResult, t: Taker, trade: nat,
    fills: seq<Fill>, stp: seq<Cancellation>, left: nat, halted: bool, q: seq<Resting>)
  {
    if halted then
      w == WalkResult(fills, stp, left, q) && stp != []
    else
      var v := Walk(q, t, left, trade + |fills|);
      stp == [] && w == v.(fills := fills + v.fills)
  }

  lemma WalkedNowhere(q: seq<Resting>, t: Taker, left: nat, trade: nat)
    ensures WalkedTo(Walk(q, t, left, trade), t, trade, [], [], left, false, q)
  {
  }

  /** One step of the flat walk at a crossing head, in each of its three ways. */
  lemma WalkedStep(w: WalkResult, t: Taker, trade: nat, fills: seq<Fill>, left: nat, q: seq<Resting>)
    requires WalkedTo(w, t, trade, fills, [], left, false, q)
    requires left > 0 && q != [] && Crosses(t.side, t.price, q[0].price)
    ensures var h := q[0];
      if h.account == t.account then
        WalkedTo(w, t, trade, fills, [CancellationOf(h)], left, true, q[1..])
      else if left < h.qty then
        WalkedTo(w, t, trade, fills + [FillOf(h, t, left, trade + |fills|)], [], 0, false,
                 [h.(qty := h.qty - left)] + q[1..])
      else
        WalkedTo(w, t, trade, fills + [FillOf(h, t, h.qty, trade + |fills|)], [], left - h.qty, false, q[1..])
  {
    var h := q[0];
    if h.account != t.account {
      var f := FillOf(h, t, if left < h.qty then left else h.qty, trade + |fills|);
      var v := Walk(q, t, left, trade + |fills|);
      assert fills + v.fills == (fills + [f]) + v.fills[1..];
    }
  }

  lemma {:induction false} WalkedJoin(
    w: WalkResult, t: Taker, trade: nat, fills: seq<Fill>, stp: seq<Cancellation>, before: nat, q: seq<Resting>,
    fs: seq<Fill>, cs: seq<Cancellation>, left: nat, halted: bool, q': seq<Resting>)
    requires WalkedTo(w, t, trade, fills, stp, before, false, q)
    requires WalkedTo(Walk(q, t, before, trade + |fills|), t, trade + |fills|, fs, cs, left, halted, q')
    ensures WalkedTo(w, t, trade, fills + fs, stp + cs, left, halted, q')
  {
    var v := Walk(q', t, left, trade + |fills| + |fs|);
    assert fills + (fs + v.fills) == (fills + fs) + v.fills;
  }

  /** Nothing is left to walk once the walk halted, ran out or stopped crossing. */
  lemma WalkedDone(
    w: WalkResult, t: Taker, trade: nat,
    fills: seq<Fill>, stp: seq<Cancellation>, left: nat, halted: bool, q: seq<Resting>)
    requires WalkedTo(w, t, trade, fills, stp, left, halted, q)
    requires halted || left == 0 || q == [] || !Crosses(t.side, t.price, q[0].price)
    ensures w == WalkResult(fills, stp, left, q)
    ensures halted <==> stp != []
  {
    if !halted { assert fills + [] == fills; }
  }

  lemma StoredBest(bids: seq<Level>, asks: seq<Level>, b: FlatBook)
    requires Stored(bids, asks, b)
    ensures BestLevel(bids) == BestPrice(b.bids) && BestLevel(asks) == BestPrice(b.asks)
  {
    BestAgrees(Bid, bids, b.bids);
    BestAgrees(Ask, asks, b.asks);
  }

  lemma GroupIs(
    index: map<OrderId, OrderMeta>, groups: map<AccountId, set<OrderId>>, m: map<OrderId, Resting>, a: AccountId)
    requires Indexed(index, groups, m)
    ensures (if a in groups then groups[a] else {}) == Owned(m, a)
    ensures Ascending({}) == []
  {
  }

  lemma RecordsNone(m: map<OrderId, Resting>)
    ensures Records(m, []) == []
  {
  }

  /** The `i`-th of the account's ids rests, and is none of the ids before it. */
  lemma OwnedIn(m: map<OrderId, Resting>, a: AccountId, ids: seq<OrderId>, i: nat)
    requires i < |ids| && (forall id :: id in ids <==> id in Owned(m, a))
    requires forall j, k :: 0 <= j < k < |ids| ==> ids[j] < ids[k]
    ensures ids[i] in m && ids[i] !in ids[..i]
  {
    assert ids[i] in ids;
  }

  lemma {:induction false} RecordsSnoc(m: map<OrderId, Resting>, ids: seq<OrderId>, id: OrderId)
    requires id in m
    ensures Records(m, ids + [id]) == Records(m, ids) + [CancellationOf(m[id])]
  {
    if ids != [] {
      assert (ids + [id])[1..] == ids[1..] + [id];
      RecordsSnoc(m, ids[1..], id);
    }
  }

  lemma BestAgrees(side: Side, lad: seq<Level>, q: seq<Resting>)
    requires Represents(side, lad, q)
    ensures BestLevel(lad) == BestPrice(q)
  {
    if lad != [] {
      assert lad[0] in lad;
      assert Flatten(lad)[0] == Slots(lad[0].price, lad[0].orders)[0];
    }
  }

  lemma SweepBegins(side: Side, lad: seq<Level>, q: seq<Resting>)
    requires Represents(side, lad, q) && lad != []
    ensures OrdersAt(lad, lad[0].price) == lad[0].orders && lad[0].orders != []
    ensures lad == [Level(lad[0].price, lad[0].orders)] + lad[1..]
    ensures SweptLadder(side, lad[0].price, lad[0].orders, lad[1..], q)
  {
    assert lad[0] in lad;
    assert lad == [lad[0]] + lad[1..];
  }

  // -------------------------------------------------------------------------
  // The level being swept
  // -------------------------------------------------------------------------

  ghost predicate SweptLadder(
    side: Side, price: Price, os: seq<LevelOrder>, rest: seq<Level>, q: seq<Resting>)
  {
    var lad := [Level(price, os)] + rest;
    Priced(side, lad) && NoneEmpty(rest) && Flatten(lad) == Strip(q)
  }

  lemma SweptSlots(side: Side, price: Price, os: seq<LevelOrder>, rest: seq<Level>, q: seq<Resting>)
    requires SweptLadder(side, price, os, rest, q)
    ensures Strip(q) == Slots(price, os) + Flatten(rest)
    ensures OrdersAt([Level(price, os)] + rest, price) == os
    ensures forall os' :: Store([Level(price, os)] + rest, price, os') == [Level(price, os')] + rest
  {
    assert ([Level(price, os)] + rest)[1..] == rest;
  }

  /** The head of the swept level is the head of the flat queue. */
  lemma SweptHead(side: Side, price: Price, os: seq<LevelOrder>, rest: seq<Level>, b: FlatBook)
    requires Valid(b) && SweptLadder(side, price, os, rest, b.Of(side)) && os != []
    ensures var q := b.Of(side);
      && q != []
      && q[0].id == os[0].id && q[0].price == price && q[0].qty == os[0].qty && q[0].side == side
      && q[0].id in Lookup(b) && Lookup(b)[q[0].id] == q[0]
      && Cancel(b, {q[0].id}) == b.With(side, q[1..])
      && q[0] in b.Of(side)
  {
    var q := b.Of(side);
    SweptSlots(side, price, os, rest, q);
    assert Strip(q)[0] == Slot(os[0].id, price, os[0].qty, os[0].arrival);
    assert q[0] in q;
    LookupFacts(b);
    PopHead(b, side);
  }

  lemma SweptPriced(side: Side, price: Price, os: seq<LevelOrder>, os': seq<LevelOrder>, rest: seq<Level>)
    requires Priced(side, [Level(price, os)] + rest)
    ensures Priced(side, [Level(price, os')] + rest)
  {
    var l, l' := [Level(price, os)] + rest, [Level(price, os')] + rest;
    assert forall i :: 0 <= i < |l| ==> l[i].price == l'[i].price;
  }

  /** No other order of the swept level shares the head's id. */
  lemma {:induction false} SweptDistinct(price: Price, os: seq<LevelOrder>, tail: seq<Slot>, q: seq<Resting>)
    requires Strip(q) == Slots(price, os) + tail && Distinct(q) && os != []
    ensures q != [] && SlotOf(q[0]) == Slot(os[0].id, price, os[0].qty, os[0].arrival)
    ensures Drop(os, os[0].id) == os[1..]
    ensures forall n: Qty :: Resize(os, os[0].id, n) == [os[0].(qty := n)] + os[1..]
    ensures Strip(q[1..]) == Slots(price, os[1..]) + tail
  {
    hide Drop, Resize, Strip, Slots;
    StripAt(q);
    SlotsAt(price, os);
    assert Strip(q)[0] == Slots(price, os)[0];
    TailSlots(price, os, tail, q);
    forall k | 0 <= k < |os[1..]| ensures os[1..][k].id != os[0].id {
      assert Strip(q)[k + 1].id == os[k + 1].id;
    }
    DropAbsent(os[1..], os[0].id);
    HeadEdits(os);
  }

  lemma TailSlots(price: Price, os: seq<LevelOrder>, tail: seq<Slot>, q: seq<Resting>)
    requires Strip(q) == Slots(price, os) + tail && os != [] && q != []
    ensures Strip(q[1..]) == Slots(price, os[1..]) + tail
  {
    assert Strip(q)[1..] == Strip(q[1..]);
    assert (Slots(price, os) + tail)[1..] == Slots(price, os[1..]) + tail;
  }

  lemma HeadEdits(os: seq<LevelOrder>)
    requires os != []
    ensures Drop(os, os[0].id) == Drop(os[1..], os[0].id)
    ensures forall n: Qty :: Resize(os, os[0].id, n) == [os[0].(qty := n)] + Resize(os[1..], os[0].id, n)
  {
  }

  lemma {:induction false} DropAbsent(os: seq<LevelOrder>, id: OrderId)
    requires forall k :: 0 <= k < |os| ==> os[k].id != id
    ensures Drop(os, id) == os
    ensures forall n: Qty :: Resize(os, id, n) == os
  {
    if os != [] { DropAbsent(os[1..], id); }
  }

  lemma SweptPop(side: Side, price: Price, os: seq<LevelOrder>, rest: seq<Level>, q: seq<Resting>)
    requires Distinct(q) && SweptLadder(side, price, os, rest, q) && os != []
    ensures q != [] && SweptLadder(side, price, os[1..], rest, q[1..])
    ensures var lad := [Level(price, os)] + rest;
      Store(lad, price, Drop(OrdersAt(lad, price), os[0].id)) == [Level(price, os[1..])] + rest
  {
    SweptSlots(side, price, os, rest, q);
    SweptDistinct(price, os, Flatten(rest), q);
    SweptPriced(side, price, os, os[1..], rest);
    assert ([Level(price, os[1..])] + rest)[1..] == rest;
  }

  lemma {:induction false} SweptShrink(
    side: Side, price: Price, os: seq<LevelOrder>, rest: seq<Level>, q: seq<Resting>, n: Qty)
    requires Distinct(q) && SweptLadder(side, price, os, rest, q) && os != []
    ensures q != [] && q[0].id == os[0].id
    ensures SweptLadder(side, price, [os[0].(qty := n)] + os[1..], rest, [q[0].(qty := n)] + q[1..])
    ensures var lad := [Level(price, os)] + rest;
      Store(lad, price, Resize(OrdersAt(lad, price), os[0].id, n))
          == [Level(price, [os[0].(qty := n)] + os[1..])] + rest
  {
    hide Store, Resize, OrdersAt, Flatten, Slots, Strip, Priced, Distinct;
    SweptSlots(side, price, os, rest, q);
    SweptDistinct(price, os, Flatten(rest), q);
    var os', q' := [os[0].(qty := n)] + os[1..], [q[0].(qty := n)] + q[1..];
    SweptPriced(side, price, os, os', rest);
    ConsSlots(price, os[0].(qty := n), os[1..]);
    ConsStrip(q[0].(qty := n), q[1..]);
    SweptBuild(side, price, os', rest, q');
  }

  lemma ConsSlots(price: Price, o: LevelOrder, os: seq<LevelOrder>)
    ensures Slots(price, [o] + os) == [Slot(o.id, price, o.qty, o.arrival)] + Slots(price, os)
  {
    assert ([o] + os)[1..] == os;
  }

  lemma ConsStrip(o: Resting, q: seq<Resting>)
    ensures Strip([o] + q) == [SlotOf(o)] + Strip(q)
  {
    assert ([o] + q)[1..] == q;
  }

  lemma SweptBuild(side: Side, price: Price, os: seq<LevelOrder>, rest: seq<Level>, q: seq<Resting>)
    requires Priced(side, [Level(price, os)] + rest) && NoneEmpty(rest)
    requires Strip(q) == Slots(price, os) + Flatten(rest)
    ensures SweptLadder(side, price, os, rest, q)
  {
    assert ([Level(price, os)] + rest)[1..] == rest;
  }

  lemma SweptPrune(side: Side, price: Price, os: seq<LevelOrder>, rest: seq<Level>, q: seq<Resting>)
    requires SweptLadder(side, price, os, rest, q)
    ensures var lad := [Level(price, os)] + rest;
      && OrdersAt(lad, price) == os
      && Represents(side, if os == [] then RemoveLevel(lad, price) else lad, q)
  {
    SweptSlots(side, price, os, rest, q);
    var lad := [Level(price, os)] + rest;
    assert lad[1..] == rest;
    if os == [] {
      assert RemoveLevel(lad, price) == rest;
      forall i, j | 0 <= i < j < |rest| ensures Better(side, rest[i].price, rest[j].price) {
        assert Better(side, lad[i + 1].price, lad[j + 1].price);
      }
    }
  }

  lemma IndexedResize(
    index: map<OrderId, OrderMeta>, groups: map<AccountId, set<OrderId>>, m: map<OrderId, Resting>, id: OrderId, n: Qty)
    requires Indexed(index, groups, m) && id in m
    ensures Indexed(index, groups, m[id := m[id].(qty := n)])
  {
    IndicesIgnoreQty(groups, m, id, n);
  }
}
