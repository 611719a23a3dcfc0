/** What an order stands for while it rests: the account, side and time in force it was
    entered with, and the price last acknowledged for it. */
module Terms {
  import opened Domain
  import opened PriceTime
  import opened WalkLaws
  import opened BookLaws
  import opened Messages
  import opened Risk
  import opened EngineSpec
  import opened EngineInvariants
  import opened EngineSafety
  import opened MarketData
  import opened Reports

  // -------------------------------------------------------------------------
  // One command
  // -------------------------------------------------------------------------

  /** An order that is still there is the one that was, at most reduced in size. */
  ghost predicate OnlyTrimmed(pre: Option<Resting>, post: Option<Resting>) {
    post.Some? ==> pre.Some? && Trimmed(pre.value, post.value)
  }

  predicate IsAccepted(last: Option<ExecReport>) { last.Some? && last.value.state == Accepted }

  lemma MatchTrims(b: FlatBook, t: Taker, trade: nat, id: OrderId)
    requires Valid(b)
    ensures OnlyTrimmed(Find(b, id), Find(Match(b, t, trade).book, id))
  {
    hide Valid, Find, Walk, WouldCross, TakesOff;
    WalkFinds(b, t, t.qty, trade, id);
  }

  lemma {:induction false} AcceptsNothing(ev: seq<Body>, id: OrderId)
    requires forall e :: e in ev ==> Settling(e)
    ensures !IsAccepted(LastReport(ev, id))
  {
    LastReportIn(ev, id);
  }

  /** A new order either is accepted and rests, under its own terms and the next arrival
      number, or leaves nothing of its own in the book. */
  lemma NewRests(s: EngineState, m: NewOrder)
    requires Inv(s)
    ensures var h := HandleNew(s, m);
      var post := Find(h.s.book, m.id);
      if IsAccepted(LastReport(h.ev, m.id)) then
        && m.price.Some? && post.Some?
        && post.value == Resting(m.id, m.account, m.side, m.price.value, post.value.qty, m.tif, s.book.arrivals + 1)
        && LastReport(h.ev, m.id).value.leaves == Some(post.value.qty)
      else
        OnlyTrimmed(Find(s.book, m.id), post)
  {
    hide Valid, Uncrossed, Agrees, Lookup, Settle, Walk, CheckNewOrder, Rest, NotionalOf, CheckCaps,
         OnOrderResting, OnOrderRemoved, LastReport, Find;
    var t := NewTaker(m);
    var w := Match(s.book, t, s.nextTrade);
    var check := CheckNewOrder(s.ledger.risk, m, BestPrice(s.book.Of(m.side.Opposite())));
    MatchTrims(s.book, t, s.nextTrade, m.id);
    if check.None? && !w.postOnlyRejected {
      var settled := Settle(s.ledger, w.fills, w.stp, m.account, m.qty);
      var d := Dispose(EngineState(w.book, settled.ledger, s.nextTrade + |w.fills|), m, w.stp != [], w.left);
      MatchValid(s.book, t, s.nextTrade);
      MatchResidual(s.book, t, s.nextTrade);
      SettleSays(s.ledger, w.fills, w.stp, m.account, m.qty);
      AcceptsNothing(settled.ev, m.id);
      LastReportAppend(settled.ev, d.ev, m.id);
      LastOfAtMostOne(d.ev, m.id);
      if QtyOf(w.left).Some? && m.price.Some? && RestError(w.book, m.id).None? {
        FindAfterRest(w.book, RestingOrder(m.id, m.account, m.side, m.price.value, QtyOf(w.left).value, m.tif), m.id);
      }
    } else {
      LastOfAtMostOne(HandleNew(s, m).ev, m.id);
    }
  }

  lemma LastOfAtMostOne(ev: seq<Body>, id: OrderId)
    requires |ev| <= 1
    ensures LastReport(ev, id) == if ev != [] && About(ev[0], id) then Some(ev[0].report) else None
  {
    if ev == [] { NoReport([], id); } else { assert ev == [ev[0]]; LastOfOne(ev[0], id); }
  }

  /** A new order leaves every other order at most reduced in size. */
  lemma NewTrimsOthers(s: EngineState, m: NewOrder, id: OrderId)
    requires Inv(s) && id != m.id
    ensures OnlyTrimmed(Find(s.book, id), Find(HandleNew(s, m).s.book, id))
  {
    hide Valid, Uncrossed, Agrees, Lookup, Settle, Walk, CheckNewOrder, Rest, NotionalOf, CheckCaps,
         OnOrderResting, OnOrderRemoved, Find;
    var t := NewTaker(m);
    var w := Match(s.book, t, s.nextTrade);
    MatchTrims(s.book, t, s.nextTrade, id);
    MatchValid(s.book, t, s.nextTrade);
    if QtyOf(w.left).Some? && m.price.Some? && RestError(w.book, m.id).None? {
      FindAfterRest(w.book, RestingOrder(m.id, m.account, m.side, m.price.value, QtyOf(w.left).value, m.tif), id);
    }
    SameFind(s.book, id);
  }

  lemma SameFind(b: FlatBook, id: OrderId)
    ensures OnlyTrimmed(Find(b, id), Find(b, id))
  {
  }

  /** What an acknowledged replace makes of its order, if it rests afterwards: the same
      account, side and time in force at the new price, keeping its arrival number exactly
      when it keeps its place. */
  predicate Renewed(pre: Resting, post: Resting, price: Price, qty: Qty, arrivals: nat) {
    post.qty <= qty &&
    post == if KeepsPriority(pre, price, qty) then pre.(qty := qty)
            else pre.(price := price, qty := post.qty, arrival := arrivals + 1)
  }

  lemma BookReplaceRests(b: FlatBook, id: OrderId, price: Price, qty: Qty, trade: nat, x: OrderId)
    requires Valid(b) && b.arrivals < U64_MAX
    ensures var r := Replace(b, id, price, qty, trade);
      var post := Find(r.book, x);
      && (x != id ==> OnlyTrimmed(Find(b, x), post))
      && (id !in Lookup(b) ==> r.book == b && r.outcome.Err?)
      && (id in Lookup(b) && x == id && post.Some? ==>
            if r.outcome.Ok? && r.outcome.value.Walked? && r.outcome.value.m.postOnlyRejected
            then post == Find(b, id) && r.book == b
            else Renewed(Lookup(b)[id], post.value, price, qty, b.arrivals))
      && (id in Lookup(b) ==> r.outcome.Ok?)
  {
    hide Valid, Lookup, Match, Cancel, Rest, SetQty, WouldCross, RestError;
    SameFind(b, x);
    if id in Lookup(b) {
      var o := Lookup(b)[id];
      var t := TakerOf(o, price, qty);
      RestingAt(b, id);
      if KeepsPriority(o, price, qty) {
        ResizeLookup(b, o, qty);
      } else if !(o.tif.PostOnly? && WouldCross(b, o.side, Some(price))) {
        var c := Cancel(b, {id});
        var m := Match(c, t, trade);
        ReplaceCommits(b, id, price, qty, trade);
        CancelValid(b, {id});
        MatchValid(c, t, trade);
        MatchResidual(c, t, trade);
        FindAfterCancel(b, {id}, x);
        MatchTrims(c, t, trade, x);
        if m.stp == [] && QtyOf(m.left).Some? { FindAfterRest(m.book, ResidualOf(t, price, QtyOf(m.left).value), x); }
      }
    }
  }

  lemma CommitRests(
    s: EngineState, id: OrderId, account: AccountId, price: Price, qty: Qty,
    fills: seq<Fill>, stp: seq<Cancellation>, dropped: bool, left: nat, x: OrderId)
    requires Valid(s.book)
    ensures var h := CommitReplace(s, id, account, price, qty, fills, stp, dropped, left);
      && (Find(h.s.book, x) == Find(s.book, x) || Find(h.s.book, x) == None)
      && ReplacedIn(h.ev, id)
  {
    hide Valid, Settle, Retire, Cancel, CheckCaps, OnOrderResting, NotionalOf, Find;
    FindAfterCancel(s.book, {id}, x);
    var h := CommitReplace(s, id, account, price, qty, fills, stp, dropped, left);
    assert ReplacedReport(id, account, qty) in h.ev && About(ReplacedReport(id, account, qty), id);
  }

  lemma ReplaceRests(s: EngineState, id: OrderId, account: AccountId, price: Price, qty: Qty, x: OrderId)
    requires Inv(s) && s.book.arrivals < U64_MAX
    ensures var h := HandleReplace(s, id, account, price, qty);
      var post := Find(h.s.book, x);
      if x == id && ReplacedIn(h.ev, id) then
        post.Some? ==> id in Lookup(s.book) && Renewed(Lookup(s.book)[id], post.value, price, qty, s.book.arrivals)
      else
        OnlyTrimmed(Find(s.book, x), post)
  {
    hide Inv, Valid, Replace, CommitReplace, CheckCancelReplace, Lookup, Find, ReplacedIn, OnlyTrimmed, Renewed;
    var r := Replace(s.book, id, price, qty, s.nextTrade);
    var s' := s.(book := r.book, nextTrade := s.nextTrade + |r.fills|);
    InvValid(s);
    SameFind(s.book, x);
    GoneIsTrimmed(Find(s.book, x));
    BookReplaceRests(s.book, id, price, qty, s.nextTrade, x);
    ReplaceValid(s.book, id, price, qty, s.nextTrade);
    CommitRests(s', id, account, price, qty, [], [], false, qty, x);
    if r.outcome.Ok? && r.outcome.value.Walked? {
      var m := r.outcome.value.m;
      CommitRests(s', id, account, price, qty, m.fills, m.stp, m.stp != [], m.left, x);
    }
    RefusalsReplaceNothing(HandleReplace(s, id, account, price, qty).ev, id);
    UntouchedIfRefused(s, id, price, qty);
  }

  lemma GoneIsTrimmed(o: Option<Resting>)
    ensures OnlyTrimmed(o, None)
  {
  }

  lemma RefusalsReplaceNothing(ev: seq<Body>, id: OrderId)
    ensures |ev| == 1 && ev[0].Report? && ev[0].report.state == Rejected ==> !ReplacedIn(ev, id)
  {
  }

  /** A replace that fails, or is refused as post-only, leaves the book alone. */
  lemma UntouchedIfRefused(s: EngineState, id: OrderId, price: Price, qty: Qty)
    requires Inv(s) && s.book.arrivals < U64_MAX
    ensures var r := Replace(s.book, id, price, qty, s.nextTrade);
      r.outcome.Err? || (r.outcome.value.Walked? && r.outcome.value.m.postOnlyRejected) ==> r.book == s.book
  {
    hide Inv, Valid, Lookup, Match, WouldCross, SetQty, Cancel;
    InvValid(s);
    if id in Lookup(s.book) {
      var o := Lookup(s.book)[id];
      if !KeepsPriority(o, price, qty) && !(o.tif.PostOnly? && WouldCross(s.book, o.side, Some(price))) {
        ReplaceCommits(s.book, id, price, qty, s.nextTrade);
      }
    }
  }

  // -------------------------------------------------------------------------
  // Steps and runs
  // -------------------------------------------------------------------------

  datatype OrderTerms = OrderTerms(account: AccountId, side: Side, price: Price, tif: Tif)

  /** The terms an observer holds for an id after a step: those of a new order when it is
      accepted, with a new price when a replace is acknowledged. */
  ghost function Noted(held: Option<OrderTerms>, cmd: Inbound, ev: seq<Body>, id: OrderId): Option<OrderTerms> {
    if cmd.New? && cmd.order.id == id && cmd.order.price.Some? && IsAccepted(LastReport(ev, id)) then
      Some(OrderTerms(cmd.order.account, cmd.order.side, cmd.order.price.value, cmd.order.tif))
    else if cmd.CancelReplace? && cmd.id == id && held.Some? && ReplacedIn(ev, id) then
      Some(held.value.(price := cmd.price))
    else
      held
  }

  ghost function NotedOver(held: Option<OrderTerms>, s: EngineState, cmds: seq<Inbound>,
      id: OrderId): Option<OrderTerms>
    decreases cmds
  {
    if cmds == [] then held
    else NotedOver(Noted(held, cmds[0], Step(s, cmds[0]).ev, id), Step(s, cmds[0]).s, cmds[1..], id)
  }

  /** If the order rests, these are its terms. */
  ghost predicate Holds(held: Option<OrderTerms>, o: Option<Resting>) {
    o.Some? ==> held == Some(OrderTerms(o.value.account, o.value.side, o.value.price, o.value.tif))
  }

  lemma TrimmedHolds(held: Option<OrderTerms>, pre: Option<Resting>, post: Option<Resting>)
    requires Holds(held, pre) && OnlyTrimmed(pre, post)
    ensures Holds(held, post)
  {
  }

  lemma StepNotes(s: EngineState, cmd: Inbound, held: Option<OrderTerms>, id: OrderId)
    requires Inv(s) && s.book.arrivals < U64_MAX && Holds(held, Find(s.book, id))
    ensures Holds(Noted(held, cmd, Step(s, cmd).ev, id), Find(Step(s, cmd).s.book, id))
  {
    hide Inv, HandleNew, HandleReplace, Tail, LastReport, Lookup, Cancel, Retire, RetireAll, MassRecords,
         OnlyTrimmed, Owned;
    var h := Handle(s, cmd);
    LastReportAppend(h.ev, Tail(s.book, h.s.book, cmd), id);
    TailKinds(s.book, h.s.book, cmd);
    NoReport(Tail(s.book, h.s.book, cmd), id);
    assert ReplacedIn(Step(s, cmd).ev, id) == ReplacedIn(h.ev, id);
    InvValid(s);
    GoneIsTrimmed(Find(s.book, id));
    SameFind(s.book, id);
    var post := Find(h.s.book, id);
    match cmd
    case New(m) =>
      if id == m.id { NewRests(s, m); } else { NewTrimsOthers(s, m, id); }
      if OnlyTrimmed(Find(s.book, id), post) { TrimmedHolds(held, Find(s.book, id), post); }
    case CancelReplace(x, account, price, qty) =>
      ReplaceRests(s, x, account, price, qty, id);
      if OnlyTrimmed(Find(s.book, id), post) { TrimmedHolds(held, Find(s.book, id), post); }
    case CancelOne(x, account) => FindAfterCancel(s.book, {x}, id);
    case MassCancelAll(account) => FindAfterCancel(s.book, Owned(Lookup(s.book), account), id);
    case _ =>
  }

  lemma {:induction false} RunNotes(s: EngineState, cmds: seq<Inbound>, held: Option<OrderTerms>, id: OrderId)
    requires Inv(s) && s.book.arrivals + |cmds| <= U64_MAX && Holds(held, Find(s.book, id))
    ensures Holds(NotedOver(held, s, cmds, id), Find(Run(s, cmds).s.book, id))
    decreases cmds
  {
    hide Inv, Handle, Tail, Find, Noted, Holds;
    if cmds != [] {
      HandleInv(s, cmds[0]);
      HandleArrivals(s, cmds[0]);
      StepNotes(s, cmds[0], held, id);
      RunNotes(Step(s, cmds[0]).s, cmds[1..], Noted(held, cmds[0], Step(s, cmds[0]).ev, id), id);
    }
  }
}
