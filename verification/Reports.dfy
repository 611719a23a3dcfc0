/** What the report stream says about the book: the last report a step emits about an
    order fixes whether, and with how much, that order rests afterwards. */
module Reports {
  import opened Domain
  import opened PriceTime
  import opened QueueLaws
  import opened WalkLaws
  import opened BookLaws
  import opened Messages
  import opened Risk
  import opened EngineSpec
  import opened EngineInvariants
  import opened EngineSafety
  import opened MarketData

  function Find(b: FlatBook, id: OrderId): Option<Resting> {
    if id in Lookup(b) then Some(Lookup(b)[id]) else None
  }

  predicate About(e: Body, id: OrderId) { e.Report? && e.report.id == id }

  /** The last report about `id`. */
  function LastReport(ev: seq<Body>, id: OrderId): Option<ExecReport> {
    if ev == [] then None
    else
      var later := LastReport(ev[1..], id);
      if later.Some? then later else if About(ev[0], id) then Some(ev[0].report) else None
  }

  /** Some report says that `id` was replaced. */
  ghost predicate ReplacedIn(ev: seq<Body>, id: OrderId) {
    exists e :: e in ev && About(e, id) && e.report.state == Replaced
  }

  /** An order's state after a step, from the last report about it and from whether the
      step replaced it: a rejection leaves the order as it was, but a replacement that is
      rejected is gone, and its original with it. */
  ghost predicate FixedBy(last: Option<ExecReport>, replaced: bool, pre: Option<Resting>, post: Option<Resting>) {
    match last
    case None => post == pre
    case Some(r) =>
      match r.state
      case Accepted => post.Some? && r.leaves == Some(post.value.qty)
      case PartiallyFilled => post.Some? && r.leaves == Some(post.value.qty)
      case Replaced => post.Some? && r.leaves == Some(post.value.qty)
      case Filled => post.None?
      case Cancelled => post.None?
      case Rejected => post == if replaced then None else pre
  }

  /** The messages about `id` fix its state. */
  ghost predicate Fixes(ev: seq<Body>, id: OrderId, pre: Option<Resting>, post: Option<Resting>) {
    FixedBy(LastReport(ev, id), ReplacedIn(ev, id), pre, post)
  }

  lemma {:induction false} LastReportAppend(a: seq<Body>, b: seq<Body>, id: OrderId)
    ensures LastReport(a + b, id) == if LastReport(b, id).Some? then LastReport(b, id) else LastReport(a, id)
  {
    if a == [] {
      assert a + b == b;
    } else {
      assert (a + b)[1..] == a[1..] + b;
      LastReportAppend(a[1..], b, id);
    }
  }

  lemma {:induction false} NoReport(ev: seq<Body>, id: OrderId)
    requires forall e :: e in ev ==> !About(e, id)
    ensures LastReport(ev, id) == None
  {
    if ev != [] {
      assert ev[0] in ev;
      NoReport(ev[1..], id);
    }
  }

  lemma LastOfOne(e: Body, id: OrderId)
    ensures LastReport([e], id) == if About(e, id) then Some(e.report) else None
  {
    assert [e][1..] == [];
  }

  /** The three messages of one fill. */
  lemma LastOfFill(l: Ledger, f: Fill, taker: AccountId, left: nat, id: OrderId)
    ensures var ev := FillEvents(l, f, taker, left);
      LastReport(ev, id) ==
        if id == f.taker then Some(ev[2].report) else if id == f.maker then Some(ev[1].report) else None
  {
    var ev := FillEvents(l, f, taker, left);
    assert ev[1..] == [ev[1], ev[2]];
    assert ev[1..][1..] == [ev[2]];
    LastOfOne(ev[2], id);
  }

  // -------------------------------------------------------------------------
  // Settling a walk
  // -------------------------------------------------------------------------

  lemma FindAfterPop(b: FlatBook, side: Side, id: OrderId)
    requires Valid(b) && b.Of(side) != []
    ensures var c := b.With(side, b.Of(side)[1..]);
      && Valid(c)
      && Find(c, id) == if id == b.Of(side)[0].id then None else Find(b, id)
  {
    hide Valid, Lookup, Cancel;
    PopHead(b, side);
    CancelValid(b, {b.Of(side)[0].id});
    CancelLookup(b, {b.Of(side)[0].id});
  }

  lemma FindAfterShrink(b: FlatBook, side: Side, n: Qty, id: OrderId)
    requires Valid(b) && b.Of(side) != []
    ensures var q := b.Of(side);
      Find(b.With(side, [q[0].(qty := n)] + q[1..]), id)
        == if id == q[0].id then Some(q[0].(qty := n)) else Find(b, id)
  {
    hide Valid, Lookup, SetQty;
    var q := b.Of(side);
    HeadResting(b, side);
    DistinctSide(b, side);
    SetQtyHead(q, n);
    ResizeLookup(b, q[0], n);
  }

  lemma SettleEvents(
    l: Ledger, f: Fill, fs: seq<Fill>, stp: seq<Cancellation>, taker: AccountId, left: nat, id: OrderId)
    ensures var rest := Settle(SettleFill(l, f), fs, stp, taker, SatSub(left, f.qty)).ev;
      var ev := FillEvents(l, f, taker, SatSub(left, f.qty));
      LastReport(Settle(l, [f] + fs, stp, taker, left).ev, id) ==
        if LastReport(rest, id).Some? then LastReport(rest, id)
        else if id == f.taker then Some(ev[2].report)
        else if id == f.maker then Some(ev[1].report)
        else None
  {
    hide FillEvents, SettleFill, Settle;
    var left' := SatSub(left, f.qty);
    SettleCons(l, f, fs, stp, taker, left);
    LastReportAppend(FillEvents(l, f, taker, left'), Settle(SettleFill(l, f), fs, stp, taker, left').ev, id);
    LastOfFill(l, f, taker, left', id);
  }

  lemma {:induction false} LastReportIn(ev: seq<Body>, id: OrderId)
    ensures LastReport(ev, id).Some? ==> Report(LastReport(ev, id).value) in ev
  {
    if ev != [] { LastReportIn(ev[1..], id); }
  }

  /** Settling rejects nothing. */
  lemma SettleLast(l: Ledger, fills: seq<Fill>, stp: seq<Cancellation>, taker: AccountId, left: nat, id: OrderId)
    ensures var last := LastReport(Settle(l, fills, stp, taker, left).ev, id);
      last.Some? ==> !last.value.state.Rejected?
  {
    hide Settle;
    SettleSays(l, fills, stp, taker, left);
    LastReportIn(Settle(l, fills, stp, taker, left).ev, id);
  }

  /** Each maker's last report in a settled walk fixes its state in the walked book. */
  lemma {:induction false} SettleFixes(l: Ledger, b: FlatBook, t: Taker, left: nat, trade: nat, id: OrderId)
    requires Valid(b) && Agrees(l, b) && id != t.id
    ensures var w := Walk(b.Of(t.side.Opposite()), t, left, trade);
      FixedBy(LastReport(Settle(l, w.fills, w.stp, t.account, left).ev, id), false,
              Find(b, id), Find(b.With(t.side.Opposite(), w.queue), id))
    decreases |b.Of(t.side.Opposite())|
  {
    hide Valid, Agrees, Lookup, Settle, SettleFill, Find, FixedBy;
    var side := t.side.Opposite();
    var q := b.Of(side);
    var w := Walk(q, t, left, trade);
    if left == 0 || q == [] || !Crosses(t.side, t.price, q[0].price) {
      WithSame(b, side);
      SettleNothing(l, t.account, left);
      FixesUntouched(Find(b, id));
    } else if q[0].account == t.account {
      FindAfterPop(b, side, id);
      SettleDropEvents(l, CancellationOf(q[0]), t.account, left, id);
      FixesDropped(Find(b, id), q[0].id, q[0].account, SelfTrade);
    } else {
      SettleHeadFixes(l, b, t, left, trade, id);
      if left >= q[0].qty {
        SettleHeadKeeps(l, b, side, w.fills[0], t.account);
        assert [] + q[1..] == q[1..];
        FindAfterPop(b, side, id);
        SettleFixes(SettleFill(l, w.fills[0]), b.With(side, q[1..]), t, left - q[0].qty, trade + 1, id);
        FixesThroughFill(l, b, t, left, trade, id);
      }
    }
  }

  lemma FixesUntouched(o: Option<Resting>)
    ensures FixedBy(None, false, o, o)
  {
  }

  lemma FixesDropped(pre: Option<Resting>, id: OrderId, account: AccountId, reason: CancelReason)
    ensures FixedBy(Some(CancelledReport(id, account, reason).report), false, pre, None)
    ensures FixedBy(None, false, pre, pre)
  {
  }

  lemma SettleDropEvents(l: Ledger, c: Cancellation, taker: AccountId, left: nat, id: OrderId)
    ensures LastReport(Settle(l, [], [c], taker, left).ev, id) ==
      if id == c.id then Some(CancelledReport(c.id, c.account, SelfTrade).report) else None
  {
    SettleDrop(l, c, taker, left);
    LastOfOne(CancelledReport(c.id, c.account, SelfTrade), id);
  }

  /** The walk's first fill, when it is its last. */
  lemma SettleHeadFixes(l: Ledger, b: FlatBook, t: Taker, left: nat, trade: nat, id: OrderId)
    requires Valid(b) && Agrees(l, b) && id != t.id
    requires var q := b.Of(t.side.Opposite()); left > 0 && q != [] && Tradable(t, q[0])
    ensures var q := b.Of(t.side.Opposite());
      var w := Walk(q, t, left, trade);
      left < q[0].qty ==>
        FixedBy(LastReport(Settle(l, w.fills, w.stp, t.account, left).ev, id), false,
                Find(b, id), Find(b.With(t.side.Opposite(), w.queue), id))
  {
    hide Valid, Lookup, Settle, SettleFill, Find;
    var side := t.side.Opposite();
    var q := b.Of(side);
    if left < q[0].qty {
      var f := FillOf(q[0], t, left, trade);
      HeadResting(b, side);
      FindAfterShrink(b, side, q[0].qty - left, id);
      assert [f] + [] == [f];
      SettleEvents(l, f, [], [], t.account, left, id);
      SettleNothing(SettleFill(l, f), t.account, 0);
      assert l.registry[q[0].id] == EntryOf(q[0]);
    }
  }

  /** The walk's first fill, when the walk goes on behind it. */
  lemma FixesThroughFill(l: Ledger, b: FlatBook, t: Taker, left: nat, trade: nat, id: OrderId)
    requires Valid(b) && id != t.id
    requires var q := b.Of(t.side.Opposite()); left > 0 && q != [] && Tradable(t, q[0]) && q[0].qty <= left
    requires var q := b.Of(t.side.Opposite());
      var v := Walk(q[1..], t, left - q[0].qty, trade + 1);
      var c := b.With(t.side.Opposite(), q[1..]);
      var l' := SettleFill(l, FillOf(q[0], t, q[0].qty, trade));
      FixedBy(LastReport(Settle(l', v.fills, v.stp, t.account, left - q[0].qty).ev, id), false,
              Find(c, id), Find(c.With(t.side.Opposite(), v.queue), id))
    ensures var q := b.Of(t.side.Opposite());
      var w := Walk(q, t, left, trade);
      FixedBy(LastReport(Settle(l, w.fills, w.stp, t.account, left).ev, id), false,
              Find(b, id), Find(b.With(t.side.Opposite(), w.queue), id))
  {
    hide Valid, Lookup, Settle, SettleFill, Find;
    var side := t.side.Opposite();
    var q := b.Of(side);
    var f, v := FillOf(q[0], t, q[0].qty, trade), Walk(q[1..], t, left - q[0].qty, trade + 1);
    FindAfterPop(b, side, id);
    SettleEvents(l, f, v.fills, v.stp, t.account, left, id);
    SettleLast(SettleFill(l, f), v.fills, v.stp, t.account, left - q[0].qty, id);
  }

  /** What the taker was last told by its own walk. */
  ghost predicate TakerTold(last: Option<ExecReport>, t: Taker, filled: bool, left: nat) {
    if filled then
      && last.Some?
      && last.value.id == t.id && last.value.account == t.account
      && last.value.state == FillState(left == 0) && last.value.leaves == QtyOf(left)
    else
      last.None?
  }

  /** Unless self-trade prevention stops it, the taker's last fill report carries exactly
      its leftover, even when a maker has the same id. */
  lemma {:induction false} SettleTellsTaker(l: Ledger, q: seq<Resting>, t: Taker, left: nat, trade: nat)
    ensures var w := Walk(q, t, left, trade);
      w.stp == [] ==>
        TakerTold(LastReport(Settle(l, w.fills, w.stp, t.account, left).ev, t.id), t, w.fills != [], w.left)
    decreases |q|
  {
    hide Settle, SettleFill, Walk;
    var w := Walk(q, t, left, trade);
    WalkUnrolls(q, t, left, trade);
    if left == 0 || q == [] || !Crosses(t.side, t.price, q[0].price) {
      SettleNothing(l, t.account, left);
    } else if q[0].account != t.account {
      var f := w.fills[0];
      assert w.fills == [f] + w.fills[1..];
      SettleEvents(l, f, w.fills[1..], w.stp, t.account, left, t.id);
      if left >= q[0].qty {
        SettleTellsTaker(SettleFill(l, f), q[1..], t, left - q[0].qty, trade + 1);
        WalkConserves(q[1..], t, left - q[0].qty, trade + 1);
      } else {
        SettleNothing(SettleFill(l, f), t.account, 0);
      }
    }
  }

  /** Both facts for a whole match. */
  lemma MatchFixes(l: Ledger, b: FlatBook, t: Taker, trade: nat, id: OrderId)
    requires Valid(b) && Agrees(l, b) && !Match(b, t, trade).postOnlyRejected
    ensures var m := Match(b, t, trade);
      var last := LastReport(Settle(l, m.fills, m.stp, t.account, t.qty).ev, id);
      && (id != t.id ==> FixedBy(last, false, Find(b, id), Find(m.book, id)))
      && (id == t.id && m.stp == [] ==> TakerTold(last, t, m.fills != [], m.left))
      && (m.fills == [] ==> m.left == t.qty)
  {
    hide Valid, Lookup, Settle, Walk, WouldCross, FixedBy, TakerTold;
    if id != t.id {
      SettleFixes(l, b, t, t.qty, trade, id);
    } else {
      SettleTellsTaker(l, b.Of(t.side.Opposite()), t, t.qty, trade);
    }
    WalkConserves(b.Of(t.side.Opposite()), t, t.qty, trade);
  }

  // -------------------------------------------------------------------------
  // Handlers
  // -------------------------------------------------------------------------

  lemma FindAfterRest(b: FlatBook, o: RestingOrder, id: OrderId)
    requires Valid(b) && RestError(b, o.id).None?
    ensures Find(Rest(b, o), id) == if id == o.id then Some(Arrive(o, b.arrivals + 1)) else Find(b, id)
  {
    RestLookup(b, o);
  }

  lemma FindAfterCancel(b: FlatBook, ids: set<OrderId>, id: OrderId)
    requires Valid(b)
    ensures Find(Cancel(b, ids), id) == if id in ids then None else Find(b, id)
  {
    CancelLookup(b, ids);
  }

  /** A new order's disposition: one closing report, unless it was wholly filled. */
  lemma DisposeFixes(s: EngineState, m: NewOrder, stp: bool, left: nat, id: OrderId)
    requires Valid(s.book) && (id == m.id ==> m.id !in Lookup(s.book))
    ensures var d := Dispose(s, m, stp, left);
      && (id != m.id ==> LastReport(d.ev, id) == None && Find(d.s.book, id) == Find(s.book, id))
      && (id == m.id && (stp || QtyOf(left).Some?) ==>
          LastReport(d.ev, id).Some? && FixedBy(LastReport(d.ev, id), false, None, Find(d.s.book, id)))
      && (id == m.id && !stp && QtyOf(left).None? ==> d == Out(s, []))
  {
    hide Valid, Rest, OnOrderResting, OnOrderRemoved, CheckCaps;
    var d := Dispose(s, m, stp, left);
    if d.ev != [] {
      assert |d.ev| == 1 && d.ev == [d.ev[0]];
      LastOfOne(d.ev[0], id);
    }
    if !stp && QtyOf(left).Some? && !m.tif.Ioc? && m.price.Some? && RestError(s.book, m.id).None? {
      FindAfterRest(s.book, RestingOrder(m.id, m.account, m.side, m.price.value, QtyOf(left).value, m.tif), id);
    }
  }

  /** New orders replace nothing. */
  lemma NewNeverReplaces(s: EngineState, m: NewOrder, id: OrderId)
    ensures !ReplacedIn(HandleNew(s, m).ev, id)
  {
    hide Settle, Match, CheckNewOrder, Rest, RestError, CheckCaps, OnOrderResting, OnOrderRemoved;
    var w := Match(s.book, NewTaker(m), s.nextTrade);
    SettleSays(s.ledger, w.fills, w.stp, m.account, m.qty);
  }

  lemma HandleNewFixes(s: EngineState, m: NewOrder, id: OrderId)
    requires Inv(s) && (id == m.id ==> m.id !in Lookup(s.book))
    ensures Fixes(HandleNew(s, m).ev, id, Find(s.book, id), Find(HandleNew(s, m).s.book, id))
  {
    hide Valid, Uncrossed, Agrees, Lookup, Settle, Match, Dispose, CheckNewOrder, ReplacedIn;
    var t, w := NewTaker(m), Match(s.book, NewTaker(m), s.nextTrade);
    var check := CheckNewOrder(s.ledger.risk, m, BestPrice(s.book.Of(m.side.Opposite())));
    NewNeverReplaces(s, m, id);
    if check.Some? {
      LastOfOne(RejectedReport(m.id, m.account, check.value), id);
    } else if w.postOnlyRejected {
      LastOfOne(RejectedReport(m.id, m.account, PostOnlyWouldCross), id);
    } else {
      var settled := Settle(s.ledger, w.fills, w.stp, m.account, m.qty);
      var s' := EngineState(w.book, settled.ledger, s.nextTrade + |w.fills|);
      MatchValid(s.book, t, s.nextTrade);
      MatchResidual(s.book, t, s.nextTrade);
      MatchFixes(s.ledger, s.book, t, s.nextTrade, id);
      if id == m.id { WalkAddsNoId(s.book, t, s.nextTrade, m.id); }
      DisposeFixes(s', m, w.stp != [], w.left, id);
      LastReportAppend(settled.ev, Dispose(s', m, w.stp != [], w.left).ev, id);
    }
  }

  lemma HandleCancelFixes(s: EngineState, id: OrderId, account: AccountId, x: OrderId)
    requires Inv(s)
    ensures Fixes(HandleCancel(s, id, account).ev, x, Find(s.book, x), Find(HandleCancel(s, id, account).s.book, x))
  {
    hide Valid, Uncrossed, Agrees, Cancel, Retire;
    var h := HandleCancel(s, id, account);
    assert |h.ev| == 1 && h.ev == [h.ev[0]];
    LastOfOne(h.ev[0], x);
    FindAfterCancel(s.book, {id}, x);
  }

  lemma {:induction false} RetireAllReports(l: Ledger, cs: seq<Cancellation>, reason: CancelReason, id: OrderId)
    ensures var last := LastReport(RetireAll(l, cs, reason).ev, id);
      if id in IdsOf(cs) then last.Some? && last.value.state == Cancelled else last.None?
    decreases cs
  {
    if cs != [] {
      RetireAllReports(Retire(l, cs[0].id), cs[1..], reason, id);
      var e, rest := CancelledReport(cs[0].id, cs[0].account, reason),
          RetireAll(Retire(l, cs[0].id), cs[1..], reason).ev;
      LastReportAppend([e], rest, id);
      LastOfOne(e, id);
      assert cs == [cs[0]] + cs[1..];
      assert IdsOf(cs) == {cs[0].id} + IdsOf(cs[1..]);
    } else {
      assert IdsOf(cs) == {};
    }
  }

  lemma HandleMassCancelFixes(s: EngineState, account: AccountId, id: OrderId)
    requires Inv(s)
    ensures Fixes(HandleMassCancel(s, account).ev, id, Find(s.book, id), Find(HandleMassCancel(s, account).s.book, id))
  {
    hide Valid, Uncrossed, Agrees, Cancel, Lookup, MassRecords, RetireAll, IdsOf, Owned;
    if s.ledger.risk.killSwitch {
      LastOfOne(RejectedReport(1, account, KillSwitched), id);
    } else {
      RetireAllReports(s.ledger, MassRecords(s.book, account), MassCancelled, id);
      MassRecordIds(s.book, account);
      FindAfterCancel(s.book, Owned(Lookup(s.book), account), id);
    }
  }

  lemma InPlaceFixes(s: EngineState, id: OrderId, price: Price, qty: Qty, x: OrderId)
    requires Inv(s) && id in Lookup(s.book) && KeepsPriority(Lookup(s.book)[id], price, qty)
    ensures var o, r := Lookup(s.book)[id], Replace(s.book, id, price, qty, s.nextTrade);
      var h := CommitReplace(s.(book := r.book, nextTrade := s.nextTrade), id, o.account, price, qty, [], [],
          false, qty);
      Fixes(h.ev, x, Find(s.book, x), Find(h.s.book, x))
  {
    hide Valid, Uncrossed, Agrees, Settle, Retire, OnOrderResting, CheckCaps, Lookup, SetQty;
    var o, e := Lookup(s.book)[id], ReplacedReport(id, Lookup(s.book)[id].account, qty);
    RestingAt(s.book, id);
    InPlaceFits(s.ledger, s.book, id, qty);
    SettleNothing(Retire(s.ledger, id), o.account, qty);
    ResizeLookup(s.book, o, qty);
    assert [e] + [] + [] == [e];
    LastOfOne(e, x);
  }

  /** The leftover of a committed replace: a closing report when it does not rest,
      silence when it rests or nothing was left. */
  lemma RestReplacedFixes(l: Ledger, m: Matched, t: Taker, price: Price, trade: nat, x: OrderId)
    requires Valid(m.book) && RestError(m.book, t.id).None? && m.left <= U64_MAX && !t.tif.Ioc?
    ensures var o :=
        if m.stp == [] && QtyOf(m.left).Some? then Some(ResidualOf(t, price, QtyOf(m.left).value)) else None;
      var book := if o.Some? then Rest(m.book, o.value) else m.book;
      var d := RestReplaced(EngineState(book, l, trade), t.id, t.account, t.side, price, m.stp != [], m.left);
      && (x != t.id ==> LastReport(d.ev, x) == None && Find(d.s.book, x) == Find(m.book, x))
      && (x == t.id && d.ev != [] ==>
          LastReport(d.ev, x).Some? && FixedBy(LastReport(d.ev, x), true, None, Find(d.s.book, x)))
      && (d.ev == [] ==> m.stp == [])
      && (x == t.id && d.ev == [] && m.left > 0 ==> Find(d.s.book, x).Some? && Find(d.s.book, x).value.qty == m.left)
      && (x == t.id && d.ev == [] && m.left == 0 ==> Find(d.s.book, x).None?)
  {
    hide Valid, Lookup, Rest, OnOrderResting, CheckCaps, Cancel;
    var o := if m.stp == [] && QtyOf(m.left).Some? then Some(ResidualOf(t, price, QtyOf(m.left).value)) else None;
    var book := if o.Some? then Rest(m.book, o.value) else m.book;
    var d := RestReplaced(EngineState(book, l, trade), t.id, t.account, t.side, price, m.stp != [], m.left);
    if d.ev != [] {
      assert |d.ev| == 1 && d.ev == [d.ev[0]];
      LastOfOne(d.ev[0], x);
    }
    if o.Some? {
      RestValid(m.book, o.value);
      FindAfterRest(m.book, o.value, x);
      FindAfterCancel(book, {t.id}, x);
    }
  }

  /** The last report of a committed replace, part by part. */
  lemma CommitLast(
    s: EngineState, id: OrderId, account: AccountId, price: Price, qty: Qty,
    fills: seq<Fill>, stp: seq<Cancellation>, dropped: bool, left: nat, x: OrderId)
    ensures var side := if id in s.ledger.registry then s.ledger.registry[id].side else Bid;
      var settled := Settle(Retire(s.ledger, id), fills, stp, account, qty);
      var d := RestReplaced(s.(ledger := settled.ledger), id, account, side, price, dropped, left);
      var h := CommitReplace(s, id, account, price, qty, fills, stp, dropped, left);
      && h.s == d.s && ReplacedIn(h.ev, id)
      && LastReport(h.ev, x) ==
           if LastReport(d.ev, x).Some? then LastReport(d.ev, x)
           else if LastReport(settled.ev, x).Some? then LastReport(settled.ev, x)
           else if x == id then Some(ReplacedReport(id, account, qty).report)
           else None
  {
    hide Settle, Retire, RestReplaced, LastReport;
    var side := if id in s.ledger.registry then s.ledger.registry[id].side else Bid;
    var settled := Settle(Retire(s.ledger, id), fills, stp, account, qty);
    var d := RestReplaced(s.(ledger := settled.ledger), id, account, side, price, dropped, left);
    var e := ReplacedReport(id, account, qty);
    LastOfOne(e, x);
    LastReportAppend([e], settled.ev, x);
    LastReportAppend([e] + settled.ev, d.ev, x);
    assert e in [e] + settled.ev + d.ev && About(e, id);
  }

  lemma FixedAnyway(last: Option<ExecReport>, pre: Option<Resting>, post: Option<Resting>, replaced: bool)
    requires FixedBy(last, false, pre, post) && (last.Some? ==> !last.value.state.Rejected?)
    ensures FixedBy(last, replaced, pre, post)
  {
  }

  lemma CommitFixes(s: EngineState, id: OrderId, price: Price, qty: Qty, x: OrderId)
    requires Inv(s) && id in Lookup(s.book) && s.book.arrivals < U64_MAX
    requires var o := Lookup(s.book)[id];
      !KeepsPriority(o, price, qty) && !(o.tif.PostOnly? && WouldCross(s.book, o.side, Some(price)))
    ensures var o := Lookup(s.book)[id];
      var m := Match(Cancel(s.book, {id}), TakerOf(o, price, qty), s.nextTrade);
      var r := Replace(s.book, id, price, qty, s.nextTrade);
      var h := CommitReplace(s.(book := r.book, nextTrade := s.nextTrade + |r.fills|), id, o.account, price, qty,
                             m.fills, m.stp, m.stp != [], m.left);
      Fixes(h.ev, x, Find(s.book, x), Find(h.s.book, x))
  {
    hide Valid, Uncrossed, Agrees, Lookup, Settle, Retire, Rest, Match, WouldCross, Cancel, Replace, RestReplaced,
         CommitReplace, ReplacedIn, LastReport;
    var o, c := Lookup(s.book)[id], Cancel(s.book, {id});
    var t := TakerOf(o, price, qty);
    var m, r := Match(c, t, s.nextTrade), Replace(s.book, id, price, qty, s.nextTrade);
    var s' := s.(book := r.book, nextTrade := s.nextTrade + |r.fills|);
    MirrorEntry(s, id);
    RestingTif(s.book, id);
    CancelValid(s.book, {id});
    FindAfterCancel(s.book, {id}, x);
    RetireKeeps(s.ledger, s.book, id);
    ReplaceCommits(s.book, id, price, qty, s.nextTrade);
    MatchValid(c, t, s.nextTrade);
    MatchResidual(c, t, s.nextTrade);
    MatchFixes(Retire(s.ledger, id), c, t, s.nextTrade, x);
    var settled := Settle(Retire(s.ledger, id), m.fills, m.stp, o.account, qty);
    RestReplacedFixes(settled.ledger, m, t, price, s.nextTrade + |m.fills|, x);
    CommitLast(s', id, o.account, price, qty, m.fills, m.stp, m.stp != [], m.left, x);
    var h := CommitReplace(s', id, o.account, price, qty, m.fills, m.stp, m.stp != [], m.left);
    NoReport([], x);
    if x != id {
      SettleLast(Retire(s.ledger, id), m.fills, m.stp, o.account, qty, x);
      FixedAnyway(LastReport(settled.ev, x), Find(s.book, x), Find(h.s.book, x), ReplacedIn(h.ev, x));
    }
  }

  lemma HandleReplaceFixes(s: EngineState, id: OrderId, account: AccountId, price: Price, qty: Qty, x: OrderId)
    requires Inv(s) && s.book.arrivals < U64_MAX
    ensures var h := HandleReplace(s, id, account, price, qty);
      Fixes(h.ev, x, Find(s.book, x), Find(h.s.book, x))
  {
    hide Inv, Valid, CommitReplace, Lookup, WouldCross, Match, Find, Fixes, CheckCancelReplace;
    MirrorEntry(s, id);
    var h := HandleReplace(s, id, account, price, qty);
    var committed :=
      CheckCancelReplace(s.ledger.risk, price, qty).None? && !Foreign(s.ledger, id, account) && id in Lookup(s.book);
    if committed && KeepsPriority(Lookup(s.book)[id], price, qty) {
      CommitInPlaceInv(s, id, price, qty);
      InPlaceFixes(s, id, price, qty, x);
    } else if Rewalks(s, id, account, price, qty) {
      InvValid(s);
      ReplaceCommits(s.book, id, price, qty, s.nextTrade);
      CommitFixes(s, id, price, qty, x);
    } else {
      assert h.s.book == s.book && |h.ev| == 1 && h.ev == [h.ev[0]];
      assert h.ev[0].Report? && h.ev[0].report.state == Rejected;
      RejectFixes(h.ev[0], x, Find(s.book, x));
    }
  }

  lemma RejectFixes(e: Body, id: OrderId, o: Option<Resting>)
    requires e.Report? && e.report.state == Rejected
    ensures Fixes([e], id, o, o)
  {
    LastOfOne(e, id);
  }

  // -------------------------------------------------------------------------
  // Steps
  // -------------------------------------------------------------------------

  /** The command enters a new order under an id that already rests. */
  predicate Reuses(s: EngineState, cmd: Inbound, id: OrderId) {
    cmd.New? && cmd.order.id == id && id in Lookup(s.book)
  }

  /** The last report a step emits about an order fixes its state: accepted, part-filled
      and replaced orders rest with exactly the reported leaves; filled and cancelled
      orders do not rest; a rejected order is as it was, unless the step replaced it,
      when it is gone; an order without a report is untouched.  This holds for every
      command and every order, but for a new order's own id when that id already rests:
      then it holds exactly as `ReuseTold` says. */
  lemma StepFixes(s: EngineState, cmd: Inbound, id: OrderId)
    requires Inv(s) && s.book.arrivals < U64_MAX
    requires Reuses(s, cmd, id) ==> Decodable(cmd.order)
    ensures (Reuses(s, cmd, id) ==> ReuseTold(s, cmd.order)) <==>
            Fixes(Step(s, cmd).ev, id, Find(s.book, id), Find(Step(s, cmd).s.book, id))
  {
    hide Inv, HandleNew, HandleCancel, HandleReplace, HandleMassCancel, Tail, Find, LastReport, Lookup, ReuseTold,
         FixedBy;
    var h := Handle(s, cmd);
    LastReportAppend(h.ev, Tail(s.book, h.s.book, cmd), id);
    TailKinds(s.book, h.s.book, cmd);
    NoReport(Tail(s.book, h.s.book, cmd), id);
    assert ReplacedIn(Step(s, cmd).ev, id) == ReplacedIn(h.ev, id);
    match cmd
    case New(m) =>
      if Reuses(s, cmd, id) { ReusedIdFixes(s, m); } else { HandleNewFixes(s, m, id); }
    case CancelOne(x, account) => HandleCancelFixes(s, x, account, id);
    case CancelReplace(x, account, price, qty) => HandleReplaceFixes(s, x, account, price, qty, id);
    case MassCancelAll(account) => HandleMassCancelFixes(s, account, id);
    case _ =>
      NoReport([], id);
      FixesUntouched(Find(s.book, id));
  }

  // -------------------------------------------------------------------------
  // What an admitted new order is told, read off the book beforehand
  // -------------------------------------------------------------------------

  /** The last report to an admitted new order that is `left` over, `stopped` by
      self-trade prevention, `blocked` from resting. */
  ghost predicate Closed(last: Option<ExecReport>, m: NewOrder, left: nat, stopped: bool, blocked: bool) {
    && last.Some?
    && last.value.id == m.id && last.value.account == m.account
    && if left == 0 then
         last.value.state == Filled && last.value.leaves == None
       else if stopped then
         last.value.state == Cancelled && last.value.cancel == Some(SelfTrade)
       else if m.tif.Ioc? || m.price.None? then
         last.value.state == Cancelled && last.value.cancel == Some(IocRemaining)
       else if blocked then
         last.value.state == Rejected && last.value.reject == Some(DuplicateOrderId)
       else
         last.value.state == Accepted && last.value.leaves == Some(left)
  }

  /** The last report to an admitted new order, computed from the book alone: what the
      makers in reach offer decides between filled and left over, the order standing
      behind them decides self-trade prevention, the time in force whether the leftover
      may rest, and an order of the same id that still rests, or an exhausted arrival
      counter, whether it can. */
  ghost predicate Verdict(last: Option<ExecReport>, b: FlatBook, m: NewOrder) {
    var t, q := NewTaker(m), b.Of(m.side.Opposite());
    var n := Reach(q, t);
    var stopped := n < |q| &&
      (m.price.None? || if m.side.Bid? then q[n].price <= m.price.value else q[n].price >= m.price.value);
    Closed(last, m, SatSub(m.qty, Lots(q[..n])), stopped,
           b.arrivals == U64_MAX || (m.id in Lookup(b) && !TakesOff(q, t, m.qty, m.id)))
  }

  /** `b` is `a`, at most reduced in size. */
  predicate Trimmed(a: Resting, b: Resting) { b.qty <= a.qty && b == a.(qty := b.qty) }

  /** What becomes of an order in the walked book. */
  lemma {:induction false} WalkFinds(b: FlatBook, t: Taker, left: nat, trade: nat, id: OrderId)
    requires Valid(b)
    ensures var q := b.Of(t.side.Opposite());
      var w := Walk(q, t, left, trade);
      var post := Find(b.With(t.side.Opposite(), w.queue), id);
      && (post.None? <==> Find(b, id).None? || TakesOff(q, t, left, id))
      && (w.left > 0 && post.Some? ==> post == Find(b, id))
      && (post.Some? ==> Find(b, id).Some? && Trimmed(Find(b, id).value, post.value))
    decreases |b.Of(t.side.Opposite())|
  {
    hide Valid, Find, Walk, TakesOff;
    var side := t.side.Opposite();
    var q := b.Of(side);
    WalkUnrolls(q, t, left, trade);
    TakesOffUnrolls(q, t, left, id);
    if left == 0 || q == [] || !Crosses(t.side, t.price, q[0].price) {
      WithSame(b, side);
    } else if q[0].account == t.account {
      HeadFound(b, side);
      FindAfterPop(b, side, id);
    } else if left < q[0].qty {
      HeadFound(b, side);
      FindAfterShrink(b, side, q[0].qty - left, id);
    } else {
      HeadFound(b, side);
      FindAfterPop(b, side, id);
      WalkFinds(b.With(side, q[1..]), t, left - q[0].qty, trade + 1, id);
    }
  }

  lemma HeadFound(b: FlatBook, side: Side)
    requires Valid(b) && b.Of(side) != []
    ensures Find(b, b.Of(side)[0].id) == Some(b.Of(side)[0])
  {
    HeadResting(b, side);
  }

  /** Admitted past the risk check and the post-only gate. */
  predicate Admitted(s: EngineState, m: NewOrder) {
    && CheckNewOrder(s.ledger.risk, m, BestPrice(s.book.Of(m.side.Opposite()))).None?
    && !(m.tif.PostOnly? && WouldCross(s.book, m.side, m.price))
  }

  /** The closing report of a new order's leftover that the caps accept. */
  lemma DisposeTells(s: EngineState, m: NewOrder, stp: bool, left: nat)
    requires !stp && m.price.Some? && QtyOf(left).Some? ==>
      CheckCaps(s.ledger.risk.StateOf(m.account), NotionalOf(m.price.value, QtyOf(left).value)).None?
    ensures LastReport(Dispose(s, m, stp, left).ev, m.id) ==
      if stp then Some(CancelledReport(m.id, m.account, SelfTrade).report)
      else if QtyOf(left).None? then None
      else if m.tif.Ioc? || m.price.None? then Some(CancelledReport(m.id, m.account, IocRemaining).report)
      else if RestError(s.book, m.id).Some? then Some(RejectedReport(m.id, m.account, DuplicateOrderId).report)
      else Some(AcceptedReport(m.id, m.account, QtyOf(left).value).report)
  {
    hide Rest, OnOrderResting, OnOrderRemoved, CheckCaps, NotionalOf, RestError;
    var d := Dispose(s, m, stp, left);
    if d.ev != [] {
      assert |d.ev| == 1 && d.ev == [d.ev[0]];
      LastOfOne(d.ev[0], m.id);
    } else {
      NoReport([], m.id);
    }
  }

  /** The closing report, in terms of the walk. */
  lemma NewCloses(s: EngineState, m: NewOrder)
    requires Inv(s) && Decodable(m) && Admitted(s, m)
    ensures var w := Match(s.book, NewTaker(m), s.nextTrade);
      Closed(LastReport(HandleNew(s, m).ev, m.id), m, w.left, w.stp != [], RestError(w.book, m.id).Some?)
  {
    hide Valid, Uncrossed, Agrees, Settle, Walk, CheckNewOrder, NotionalOf, Dispose, LastReport, CheckCaps, RestError;
    var t := NewTaker(m);
    var w := Match(s.book, t, s.nextTrade);
    var settled := Settle(s.ledger, w.fills, w.stp, m.account, m.qty);
    var s' := EngineState(w.book, settled.ledger, s.nextTrade + |w.fills|);
    WalkConserves(s.book.Of(m.side.Opposite()), t, m.qty, s.nextTrade);
    MatchResidual(s.book, t, s.nextTrade);
    MatchFixes(s.ledger, s.book, t, s.nextTrade, m.id);
    AdmittedFits(s, m);
    DisposeTells(s', m, w.stp != [], w.left);
    LastReportAppend(settled.ev, Dispose(s', m, w.stp != [], w.left).ev, m.id);
  }

  lemma NewOrderVerdict(s: EngineState, m: NewOrder)
    requires Inv(s) && Decodable(m) && Admitted(s, m)
    ensures Verdict(LastReport(HandleNew(s, m).ev, m.id), s.book, m)
  {
    assert s.book.arrivals <= U64_MAX;
    hide Inv, Valid, Lookup, Walk, HandleNew, Reach, Lots, TakesOff, LastReport, CheckNewOrder;
    var t, q := NewTaker(m), s.book.Of(m.side.Opposite());
    InvValid(s);
    NewCloses(s, m);
    WalkLeftover(q, t, m.qty, s.nextTrade);
    WalkFinds(s.book, t, m.qty, s.nextTrade, m.id);
    MatchResidual(s.book, t, s.nextTrade);
  }

  /** The caps have room for whatever an admitted new order leaves over. */
  lemma AdmittedFits(s: EngineState, m: NewOrder)
    requires Inv(s) && Decodable(m)
    requires CheckNewOrder(s.ledger.risk, m, BestPrice(s.book.Of(m.side.Opposite()))).None?
    ensures var w := Match(s.book, NewTaker(m), s.nextTrade);
      var l := Settle(s.ledger, w.fills, w.stp, m.account, m.qty).ledger;
      w.stp == [] && m.price.Some? && QtyOf(w.left).Some? ==>
        CheckCaps(l.risk.StateOf(m.account), NotionalOf(m.price.value, QtyOf(w.left).value)).None?
  {
    hide Valid, Uncrossed, Agrees, Settle, Match, NotionalOf;
    var t, w := NewTaker(m), Match(s.book, NewTaker(m), s.nextTrade);
    SettleMatchKeeps(s.ledger, s.book, t, s.nextTrade);
    MatchResidual(s.book, t, s.nextTrade);
    if m.price.Some? && QtyOf(w.left).Some? {
      NotionalMonotone(m.price.value, QtyOf(w.left).value, m.qty);
    }
  }

  // -------------------------------------------------------------------------
  // New orders under an id that already rests
  // -------------------------------------------------------------------------

  /** When the last report about a reused id tells the truth: the order is refused up
      front, or the walk takes the resting order of that id off the book, or the order
      outlasts the makers in reach and may rest. */
  ghost predicate ReuseTold(s: EngineState, m: NewOrder) {
    var t, q := NewTaker(m), s.book.Of(m.side.Opposite());
    || !Admitted(s, m)
    || TakesOff(q, t, m.qty, m.id)
    || (Outlasts(q, t, m.qty) && !m.tif.Ioc? && m.price.Some?)
  }

  /** The order of a new order's id after an admitted new order. */
  lemma NewFinds(s: EngineState, m: NewOrder)
    requires Inv(s) && s.book.arrivals < U64_MAX && Decodable(m) && Admitted(s, m)
    ensures var q := s.book.Of(m.side.Opposite());
      var post := Find(HandleNew(s, m).s.book, m.id);
      var gone := Find(s.book, m.id).None? || TakesOff(q, NewTaker(m), m.qty, m.id);
      if Outlasts(q, NewTaker(m), m.qty) && !m.tif.Ioc? && m.price.Some? then
        var left := m.qty - Lots(q[..Reach(q, NewTaker(m))]);
        if gone then
          post == Some(Resting(m.id, m.account, m.side, m.price.value, left, m.tif, s.book.arrivals + 1))
        else
          post == Find(s.book, m.id)
      else
        post.None? <==> gone
  {
    hide Valid, Uncrossed, Agrees, Lookup, Settle, Walk, CheckNewOrder, Reach, Lots, Rest, NotionalOf,
         OnOrderResting, OnOrderRemoved, TakesOff;
    var t, q := NewTaker(m), s.book.Of(m.side.Opposite());
    var w := Match(s.book, t, s.nextTrade);
    WalkLeftover(q, t, m.qty, s.nextTrade);
    WalkFinds(s.book, t, m.qty, s.nextTrade, m.id);
    MatchValid(s.book, t, s.nextTrade);
    MatchResidual(s.book, t, s.nextTrade);
    AdmittedFits(s, m);
    if w.stp == [] && QtyOf(w.left).Some? && m.price.Some? && RestError(w.book, m.id).None? {
      FindAfterRest(w.book, RestingOrder(m.id, m.account, m.side, m.price.value, QtyOf(w.left).value, m.tif), m.id);
    }
  }

  /** Reports about a reused id tell the truth exactly when `ReuseTold` says so. */
  lemma ReusedIdFixes(s: EngineState, m: NewOrder)
    requires Inv(s) && s.book.arrivals < U64_MAX && Decodable(m) && m.id in Lookup(s.book)
    ensures Fixes(HandleNew(s, m).ev, m.id, Find(s.book, m.id), Find(HandleNew(s, m).s.book, m.id)) <==> ReuseTold(s, m)
  {
    hide Inv, Lookup, CheckNewOrder, WouldCross, TakesOff, Lots, Reach, Walk, ReplacedIn, LastReport;
    NewNeverReplaces(s, m, m.id);
    if Admitted(s, m) {
      NewOrderVerdict(s, m);
      NewFinds(s, m);
      hide HandleNew;
    } else {
      var check := CheckNewOrder(s.ledger.risk, m, BestPrice(s.book.Of(m.side.Opposite())));
      PostOnlyRejectsWhole(s.book, NewTaker(m), s.nextTrade);
      LastOfOne(RejectedReport(m.id, m.account, if check.Some? then check.value else PostOnlyWouldCross), m.id);
    }
  }

  // -------------------------------------------------------------------------
  // Nothing follows a cancellation or a rejection
  // -------------------------------------------------------------------------

  predicate Terminal(r: ExecReport) { r.state in {Cancelled, Rejected} }

  ghost predicate EndedIn(ev: seq<Body>, id: OrderId) {
    exists e :: e in ev && About(e, id) && Terminal(e.report)
  }

  /** If some report ends `id`, the last one does. */
  ghost predicate EndsLast(ev: seq<Body>, id: OrderId) {
    EndedIn(ev, id) ==> LastReport(ev, id).Some? && Terminal(LastReport(ev, id).value)
  }

  lemma {:induction false} ReportedLast(ev: seq<Body>, e: Body, id: OrderId)
    requires e in ev && About(e, id)
    ensures LastReport(ev, id).Some?
  {
    if ev[0] != e { ReportedLast(ev[1..], e, id); }
  }

  lemma EndsAppend(a: seq<Body>, b: seq<Body>, id: OrderId)
    requires EndsLast(b, id)
    requires !EndedIn(a, id) || (EndsLast(a, id) && LastReport(b, id).None?)
      || (LastReport(b, id).Some? && Terminal(LastReport(b, id).value))
    ensures EndsLast(a + b, id)
  {
    LastReportAppend(a, b, id);
    if EndedIn(a + b, id) {
      var e :| e in a + b && About(e, id) && Terminal(e.report);
      assert e in a || e in b;
      assert EndedIn(a, id) || EndedIn(b, id);
    }
  }

  lemma EndsOne(ev: seq<Body>, id: OrderId)
    requires |ev| <= 1
    ensures EndsLast(ev, id)
    ensures ev != [] && !About(ev[0], id) ==> LastReport(ev, id).None?
    ensures ev != [] && About(ev[0], id) ==> LastReport(ev, id) == Some(ev[0].report)
  {
    if ev != [] {
      assert ev == [ev[0]];
      LastOfOne(ev[0], id);
    }
  }

  lemma RetireAllEnds(l: Ledger, cs: seq<Cancellation>, reason: CancelReason, id: OrderId)
    ensures EndsLast(RetireAll(l, cs, reason).ev, id)
  {
    var ev := RetireAll(l, cs, reason).ev;
    RetireAllCancels(l, cs, reason);
    LastReportIn(ev, id);
    if EndedIn(ev, id) {
      var e :| e in ev && About(e, id) && Terminal(e.report);
      ReportedLast(ev, e, id);
    }
  }

  lemma {:induction false} RetireAllCancels(l: Ledger, cs: seq<Cancellation>, reason: CancelReason)
    ensures forall e :: e in RetireAll(l, cs, reason).ev ==> e.Report? && Terminal(e.report)
    decreases cs
  {
    if cs != [] { RetireAllCancels(Retire(l, cs[0].id), cs[1..], reason); }
  }

  lemma {:induction false} FillsEndNothing(l: Ledger, fills: seq<Fill>, taker: AccountId, left: nat)
    ensures forall e :: e in SettleFills(l, fills, taker, left).ev && e.Report? ==> !Terminal(e.report)
    decreases fills
  {
    if fills != [] { FillsEndNothing(SettleFill(l, fills[0]), fills[1..], taker, SatSub(left, fills[0].qty)); }
  }

  lemma SettleEnds(l: Ledger, fills: seq<Fill>, stp: seq<Cancellation>, taker: AccountId, left: nat, id: OrderId)
    ensures var ev := Settle(l, fills, stp, taker, left).ev;
      EndsLast(ev, id) && (stp == [] ==> !EndedIn(ev, id))
  {
    hide SettleFills, RetireAll, EndsLast;
    var a := SettleFills(l, fills, taker, left);
    FillsEndNothing(l, fills, taker, left);
    RetireAllEnds(a.ledger, stp, SelfTrade, id);
    EndsAppend(a.ev, RetireAll(a.ledger, stp, SelfTrade).ev, id);
    if stp == [] {
      assert RetireAll(a.ledger, [], SelfTrade).ev == [] by { RetiresNobody(a.ledger); }
      assert a.ev + [] == a.ev;
    }
  }

  lemma RetiresNobody(l: Ledger)
    ensures RetireAll(l, [], SelfTrade).ev == []
  {
  }

  lemma NewEnds(s: EngineState, m: NewOrder, id: OrderId)
    ensures EndsLast(HandleNew(s, m).ev, id)
  {
    hide Settle, Match, CheckNewOrder, Rest, RestError, CheckCaps, OnOrderResting, OnOrderRemoved, EndsLast,
         EndedIn, NotionalOf;
    var w := Match(s.book, NewTaker(m), s.nextTrade);
    if CheckNewOrder(s.ledger.risk, m, BestPrice(s.book.Of(m.side.Opposite()))).None? && !w.postOnlyRejected {
      var settled := Settle(s.ledger, w.fills, w.stp, m.account, m.qty);
      var d := Dispose(EngineState(w.book, settled.ledger, s.nextTrade + |w.fills|), m, w.stp != [], w.left);
      SettleEnds(s.ledger, w.fills, w.stp, m.account, m.qty, id);
      EndsOne(d.ev, id);
      EndsAppend(settled.ev, d.ev, id);
    } else {
      EndsOne(HandleNew(s, m).ev, id);
    }
  }

  lemma CommitEnds(
    s: EngineState, x: OrderId, account: AccountId, price: Price, qty: Qty,
    fills: seq<Fill>, stp: seq<Cancellation>, left: nat, id: OrderId)
    ensures var ev := CommitReplace(s, x, account, price, qty, fills, stp, stp != [], left).ev;
      && EndsLast(ev, id)
      && ev != [] && ev[0] == ReplacedReport(x, account, qty)
      && forall e :: e in ev[1..] && e.Report? ==> e.report.state != Replaced
  {
    hide Settle, Retire, Cancel, CheckCaps, OnOrderResting, EndsLast, EndedIn, NotionalOf;
    var side := if x in s.ledger.registry then s.ledger.registry[x].side else Bid;
    var settled := Settle(Retire(s.ledger, x), fills, stp, account, qty);
    var d := RestReplaced(s.(ledger := settled.ledger), x, account, side, price, stp != [], left);
    var e := ReplacedReport(x, account, qty);
    SettleSays(Retire(s.ledger, x), fills, stp, account, qty);
    SettleEnds(Retire(s.ledger, x), fills, stp, account, qty, id);
    EndsOne(d.ev, id);
    EndsAppend(settled.ev, d.ev, id);
    AcksEndNothing(e, id);
    EndsAppend([e], settled.ev + d.ev, id);
    assert [e] + settled.ev + d.ev == [e] + (settled.ev + d.ev);
    assert ([e] + (settled.ev + d.ev))[1..] == settled.ev + d.ev;
  }

  lemma AcksEndNothing(e: Body, id: OrderId)
    requires e.Report? && !Terminal(e.report)
    ensures !EndedIn([e], id)
  {
  }

  /** Within a step, no report about an order follows one that cancels or rejects it,
      except another that does; and only a replacement acknowledges one, first of all. */
  lemma StepEnds(s: EngineState, cmd: Inbound, id: OrderId)
    ensures EndsLast(Step(s, cmd).ev, id)
    ensures ReplacedIn(Step(s, cmd).ev, id) ==>
      && cmd.CancelReplace? && cmd.id == id
      && Handle(s, cmd).ev != [] && Handle(s, cmd).ev[0] == ReplacedReport(id, cmd.account, cmd.qty)
      && (forall e :: e in Handle(s, cmd).ev[1..] && e.Report? ==> e.report.state != Replaced)
  {
    hide HandleNew, HandleReplace, Tail, RetireAll, MassRecords, EndsLast, LastReport;
    var h := Handle(s, cmd);
    TailKinds(s.book, h.s.book, cmd);
    NoReport(Tail(s.book, h.s.book, cmd), id);
    assert ReplacedIn(Step(s, cmd).ev, id) == ReplacedIn(h.ev, id);
    match cmd {
      case New(m) =>
        NewEnds(s, m, id);
        NewNeverReplaces(s, m, id);
      case CancelOne(x, account) => EndsOne(h.ev, id);
      case CancelReplace(x, account, price, qty) => ReplaceEnds(s, x, account, price, qty, id);
      case MassCancelAll(account) =>
        if s.ledger.risk.killSwitch {
          EndsOne(h.ev, id);
        } else {
          RetireAllEnds(s.ledger, MassRecords(s.book, account), MassCancelled, id);
          RetireAllCancels(s.ledger, MassRecords(s.book, account), MassCancelled);
        }
      case _ => EndsOne(h.ev, id);
    }
    TailEnds(h.ev, Tail(s.book, h.s.book, cmd), id);
  }

  lemma TailEnds(ev: seq<Body>, tail: seq<Body>, id: OrderId)
    requires EndsLast(ev, id) && forall e :: e in tail ==> !e.Report?
    ensures EndsLast(ev + tail, id)
  {
    NoReport(tail, id);
    EndsAppend(ev, tail, id);
  }

  lemma ReplaceEnds(s: EngineState, x: OrderId, account: AccountId, price: Price, qty: Qty, id: OrderId)
    ensures var ev := HandleReplace(s, x, account, price, qty).ev;
      && EndsLast(ev, id)
      && (ReplacedIn(ev, id) ==>
            && x == id && ev != [] && ev[0] == ReplacedReport(x, account, qty)
            && forall e :: e in ev[1..] && e.Report? ==> e.report.state != Replaced)
  {
    hide Replace, CommitReplace, CheckCancelReplace, EndsLast;
    var r := Replace(s.book, x, price, qty, s.nextTrade);
    var s' := s.(book := r.book, nextTrade := s.nextTrade + |r.fills|);
    var ev := HandleReplace(s, x, account, price, qty).ev;
    CommitEnds(s', x, account, price, qty, [], [], qty, id);
    if r.outcome.Ok? && r.outcome.value.Walked? {
      var m := r.outcome.value.m;
      CommitEnds(s', x, account, price, qty, m.fills, m.stp, m.left, id);
    }
    if |ev| == 1 { EndsOne(ev, id); }
    if ReplacedIn(ev, id) {
      var e :| e in ev && About(e, id) && e.report.state == Replaced;
      assert e == ev[0] || e in ev[1..];
    }
  }
}
