/** The single-writer engine: one object that changes the book, the risk totals, the
    registry, the id counters and the outbound sink in place.  Every method is proved
    against the state machine of `EngineSpec`. */
module EngineCore {
  import opened Domain
  import opened PriceTime
  import opened BookLaws
  import opened Messages
  import opened Risk
  import opened EngineSpec
  import opened Ladder
  import opened Matching
  import opened LadderDepth

  /** Number a list of messages consecutively from `n`. */
  function StampAll(n: nat, ev: seq<Body>): seq<Outbound>
    decreases ev
  {
    if ev == [] then [] else [Outbound(n, ev[0])] + StampAll(n + 1, ev[1..])
  }

  lemma {:induction false} StampAppend(n: nat, a: seq<Body>, b: seq<Body>)
    ensures StampAll(n, a + b) == StampAll(n, a) + StampAll(n + |a|, b)
    decreases a
  {
    if a == [] {
      assert a + b == b;
    } else {
      assert (a + b)[1..] == a[1..] + b;
      StampAppend(n + 1, a[1..], b);
    }
  }

  /** The sequence numbers of a stamped list are consecutive: strictly increasing, no gap. */
  lemma {:induction false} StampGapFree(n: nat, ev: seq<Body>)
    ensures |StampAll(n, ev)| == |ev|
    ensures forall i :: 0 <= i < |ev| ==> StampAll(n, ev)[i] == Outbound(n + i, ev[i])
    decreases ev
  {
    if ev != [] { StampGapFree(n + 1, ev[1..]); }
  }

  /** `sink` is `before` plus the messages `ev` numbered from `seqBefore`. */
  ghost predicate Sent(before: seq<Outbound>, seqBefore: nat, sink: seq<Outbound>, seqNow: nat, ev: seq<Body>) {
    sink == before + StampAll(seqBefore, ev) && seqNow == seqBefore + |ev|
  }

  lemma SentNothing(sink: seq<Outbound>, n: nat)
    ensures Sent(sink, n, sink, n, [])
  {
  }

  lemma SentMore(
    s0: seq<Outbound>, n0: nat, s1: seq<Outbound>, n1: nat, s2: seq<Outbound>, n2: nat, a: seq<Body>, b: seq<Body>)
    requires Sent(s0, n0, s1, n1, a) && Sent(s1, n1, s2, n2, b)
    ensures Sent(s0, n0, s2, n2, a + b)
  {
    StampAppend(n0, a, b);
  }

  class Engine {
    const book: Book
    const risk: RiskState
    var registry: map<OrderId, Entry>
    var nextTrade: nat
    var nextSeq: nat
    var sink: seq<Outbound>

    ghost predicate Valid()
      reads this, book
    {
      book.Valid()
    }

    ghost function LedgerNow(): Ledger
      reads this, risk
    {
      Ledger(registry, risk.View())
    }

    ghost function State(): EngineState
      reads this, book, risk
    {
      EngineState(book.flat, LedgerNow(), nextTrade)
    }

    constructor ()
      ensures Valid() && State() == INITIAL && sink == [] && nextSeq == 1
      ensures fresh(book) && fresh(risk)
    {
      book := new Book();
      risk := new RiskState();
      registry, nextTrade, nextSeq, sink := map[], 1, 1, [];
    }

    method Emit(b: Body)
      modifies this`sink, this`nextSeq
      ensures Sent(old(sink), old(nextSeq), sink, nextSeq, [b])
    {
      assert [b][1..] == [];
      assert StampAll(nextSeq, [b]) == [Outbound(nextSeq, b)];
      sink := sink + [Outbound(nextSeq, b)];
      nextSeq := nextSeq + 1;
    }

    /** Drop a registry entry and refund its notional. */
    method RetireOrder(id: OrderId)
      modifies this`registry, risk
      ensures LedgerNow() == Retire(old(LedgerNow()), id)
    {
      if id in registry {
        var entry := registry[id];
        registry := registry - {id};
        risk.OrderRemoved(entry.account, entry.notional);
      }
    }

    /** Trade print and the two reports of one fill, then the maker's book-keeping. */
    method EmitFill(fill: Fill, taker: AccountId, left: nat)
      modifies this`sink, this`nextSeq, this`registry, risk
      ensures Sent(old(sink), old(nextSeq), sink, nextSeq, FillEvents(old(LedgerNow()), fill, taker, left))
      ensures LedgerNow() == SettleFill(old(LedgerNow()), fill)
    {
      ghost var s0, n0 := sink, nextSeq;
      var trade := Trade(fill.tradeId, fill.price, fill.qty, fill.makerSide.Opposite());
      Emit(trade);
      var makerAccount := if fill.maker in registry then registry[fill.maker].account else taker;
      var makerLeaves :=
        if fill.makerFilled || fill.maker !in registry then None
        else QtyOf(SatSub(registry[fill.maker].qty, fill.qty));
      var makerReport := FillReport(fill.maker, makerAccount, FillState(fill.makerFilled), fill.price, fill.qty,
          makerLeaves);
      ghost var s1, n1 := sink, nextSeq;
      Emit(makerReport);
      SentMore(s0, n0, s1, n1, sink, nextSeq, [trade], [makerReport]);
      var takerReport := FillReport(fill.taker, taker, FillState(left == 0), fill.price, fill.qty, QtyOf(left));
      ghost var s2, n2 := sink, nextSeq;
      Emit(takerReport);
      SentMore(s0, n0, s2, n2, sink, nextSeq, [trade] + [makerReport], [takerReport]);
      assert [trade] + [makerReport] + [takerReport] == FillEvents(old(LedgerNow()), fill, taker, left);
      risk.RecordFill(fill.price);
      if fill.makerFilled {
        RetireOrder(fill.maker);
      } else if fill.maker in registry {
        var entry := registry[fill.maker];
        var consumed := NotionalOf(fill.price, fill.qty);
        risk.OrderRemoved(entry.account, consumed);
        var qty := match QtyOf(SatSub(entry.qty, fill.qty)) case Some(n) => n case None => entry.qty;
        registry := registry[fill.maker := entry.(notional := SatSub(entry.notional, consumed), qty := qty)];
      }
    }

    method EmitFillsForTaker(fills: seq<Fill>, taker: AccountId, qty: nat)
      modifies this`sink, this`nextSeq, this`registry, risk
      ensures var d := SettleFills(old(LedgerNow()), fills, taker, qty);
        LedgerNow() == d.ledger && Sent(old(sink), old(nextSeq), sink, nextSeq, d.ev)
    {
      hide SettleFill, FillEvents;
      var left := qty;
      ghost var ev: seq<Body> := [];
      SentNothing(sink, nextSeq);
      for i := 0 to |fills|
        invariant Sent(old(sink), old(nextSeq), sink, nextSeq, ev)
        invariant SettleFills(old(LedgerNow()), fills, taker, qty)
          == (var rest := SettleFills(LedgerNow(), fills[i..], taker, left); Settled(rest.ledger, ev + rest.ev))
      {
        ghost var l, s1, n1, before := LedgerNow(), sink, nextSeq, left;
        left := SatSub(left, fills[i].qty);
        EmitFill(fills[i], taker, left);
        ghost var triple := FillEvents(l, fills[i], taker, left);
        SentMore(old(sink), old(nextSeq), s1, n1, sink, nextSeq, ev, triple);
        assert fills[i..][1..] == fills[i + 1..];
        ghost var rest := SettleFills(LedgerNow(), fills[i + 1..], taker, left);
        assert SettleFills(l, fills[i..], taker, before) == Settled(rest.ledger, triple + rest.ev);
        assert ev + (triple + rest.ev) == (ev + triple) + rest.ev;
        ev := ev + triple;
      }
      assert ev + [] == ev;
    }

    /** Report and retire dropped makers (self-trade prevention and mass cancel). */
    method EmitCancels(cs: seq<Cancellation>, reason: CancelReason)
      modifies this`sink, this`nextSeq, this`registry, risk
      ensures var d := RetireAll(old(LedgerNow()), cs, reason);
        LedgerNow() == d.ledger && Sent(old(sink), old(nextSeq), sink, nextSeq, d.ev)
    {
      hide Retire, Sent, RetireAll;
      ghost var ev: seq<Body> := [];
      SentNothing(sink, nextSeq);
      for i := 0 to |cs|
        invariant Sent(old(sink), old(nextSeq), sink, nextSeq, ev)
        invariant RetireAll(old(LedgerNow()), cs, reason)
          == (var rest := RetireAll(LedgerNow(), cs[i..], reason); Settled(rest.ledger, ev + rest.ev))
      {
        ghost var l, s1, n1 := LedgerNow(), sink, nextSeq;
        var report := CancelledReport(cs[i].id, cs[i].account, reason);
        Emit(report);
        SentMore(old(sink), old(nextSeq), s1, n1, sink, nextSeq, ev, [report]);
        RetireOrder(cs[i].id);
        RetireAllNext(l, cs[i..], reason, ev);
        assert cs[i..][1..] == cs[i + 1..];
        ev := ev + [report];
      }
      RetireAllNone(LedgerNow(), reason);
      assert ev + [] == ev;
    }

    method SettleWalk(fills: seq<Fill>, stp: seq<Cancellation>, taker: AccountId, qty: nat)
      modifies this`sink, this`nextSeq, this`registry, risk
      ensures var d := Settle(old(LedgerNow()), fills, stp, taker, qty);
        LedgerNow() == d.ledger && Sent(old(sink), old(nextSeq), sink, nextSeq, d.ev)
    {
      hide SettleFills, RetireAll, Sent;
      ghost var l := LedgerNow();
      EmitFillsForTaker(fills, taker, qty);
      ghost var a, s1, n1 := SettleFills(l, fills, taker, qty), sink, nextSeq;
      EmitCancels(stp, SelfTrade);
      SentMore(old(sink), old(nextSeq), s1, n1, sink, nextSeq, a.ev, RetireAll(a.ledger, stp, SelfTrade).ev);
    }

    // -----------------------------------------------------------------------
    // Handlers
    // -----------------------------------------------------------------------

    method HandleNewOrder(m: NewOrder)
      requires Valid()
      modifies this, book, risk
      ensures Valid()
      ensures var d := HandleNew(old(State()), m);
        State() == d.s && Sent(old(sink), old(nextSeq), sink, nextSeq, d.ev)
    {
      hide Match, Settle, Sent, CheckNewOrder, Book.Valid;
      book.BestPrices();
      var bestOpposite := BestLevel(book.LadderOf(m.side.Opposite()));
      var check := CheckNewOrder(risk.View(), m, bestOpposite);
      if check.Some? {
        Emit(RejectedReport(m.id, m.account, check.value));
        return;
      }
      ghost var l := LedgerNow();
      var fills, stp, result := book.MatchAggressive(Taker(m.id, m.account, m.side, m.price, m.qty, m.tif), nextTrade);
      if result.takerPostOnlyRejected {
        PostOnlyRejectsWhole(old(book.flat), NewTaker(m), nextTrade);
        Emit(RejectedReport(m.id, m.account, PostOnlyWouldCross));
        return;
      }
      nextTrade := nextTrade + |fills|;
      SettleWalk(fills, stp, m.account, m.qty);
      ghost var settled, s1, n1, mid := Settle(l, fills, stp, m.account, m.qty), sink, nextSeq, State();
      ghost var left := Match(old(book.flat), NewTaker(m), old(nextTrade)).left;
      DisposeTaker(m, result.takerStpCancelled, result.takerRemaining, left);
      SentMore(old(sink), old(nextSeq), s1, n1, sink, nextSeq, settled.ev, Dispose(mid, m, stp != [], left).ev);
    }

    /** Cancel, rest or reject what the walk left of a new order. */
    method DisposeTaker(m: NewOrder, stp: bool, remaining: Option<Qty>, ghost left: nat)
      requires Valid() && remaining == QtyOf(left)
      modifies this, book, risk
      ensures Valid()
      ensures var d := Dispose(old(State()), m, stp, left);
        State() == d.s && Sent(old(sink), old(nextSeq), sink, nextSeq, d.ev)
    {
      hide Sent, Rest, Book.Valid, OnOrderResting, OnOrderRemoved, Lookup;
      if stp {
        Emit(CancelledReport(m.id, m.account, SelfTrade));
      } else if remaining.Some? {
        if m.tif.Ioc? || m.price.None? {
          Emit(CancelledReport(m.id, m.account, IocRemaining));
        } else {
          var price, qty := m.price.value, remaining.value;
          var notional := NotionalOf(price, qty);
          var error := risk.OrderResting(m.account, notional);
          if error.Some? {
            Emit(RejectedReport(m.id, m.account, error.value));
          } else {
            var bookError := book.AddResting(RestingOrder(m.id, m.account, m.side, price, qty, m.tif));
            if bookError.None? {
              registry := registry[m.id := Entry(m.account, m.side, qty, notional)];
              Emit(AcceptedReport(m.id, m.account, qty));
            } else {
              risk.OrderRemoved(m.account, notional);
              Emit(RejectedReport(m.id, m.account, DuplicateOrderId));
            }
          }
        }
      } else {
        SentNothing(sink, nextSeq);
      }
    }

    method HandleCancelOrder(id: OrderId, account: AccountId)
      requires Valid()
      modifies this, book, risk
      ensures Valid()
      ensures var d := HandleCancel(old(State()), id, account);
        State() == d.s && Sent(old(sink), old(nextSeq), sink, nextSeq, d.ev)
    {
      hide Sent, Cancel, Retire, Book.Valid, Lookup;
      if risk.killSwitch {
        Emit(RejectedReport(id, account, KillSwitched));
        return;
      }
      if id in registry && registry[id].account != account {
        Emit(RejectedReport(id, account, UnknownOrderId));
        return;
      }
      book.CancelUnknown(id);
      var r := book.CancelOrder(id);
      if r.Ok? {
        RetireOrder(id);
        Emit(CancelledReport(id, account, UserRequested));
      } else {
        Emit(RejectedReport(id, account, UnknownOrderId));
      }
    }

    method HandleCancelReplace(id: OrderId, account: AccountId, price: Price, qty: Qty)
      requires Valid()
      modifies this, book, risk
      ensures Valid()
      ensures var d := HandleReplace(old(State()), id, account, price, qty);
        State() == d.s && Sent(old(sink), old(nextSeq), sink, nextSeq, d.ev)
    {
      hide Sent, Replace, CommitReplace, CheckCancelReplace, Book.Valid, Lookup;
      var check := CheckCancelReplace(risk.View(), price, qty);
      if check.Some? {
        Emit(RejectedReport(id, account, check.value));
        return;
      }
      if id in registry && registry[id].account != account {
        Emit(RejectedReport(id, account, UnknownOrderId));
        return;
      }
      var outcome, fills, stp := book.ReplaceOrder(id, price, qty, nextTrade);
      nextTrade := nextTrade + |fills|;
      ghost var r := Replace(old(book.flat), id, price, qty, old(nextTrade));
      ReplaceTrades(old(book.flat), id, price, qty, old(nextTrade));
      if outcome.Err? {
        Emit(RejectedReport(id, account, UnknownOrderId));
        return;
      }
      var result := outcome.value.result;
      if result.Some? && result.value.takerPostOnlyRejected {
        Emit(RejectedReport(id, account, PostOnlyWouldCross));
        return;
      }
      var dropped := result.Some? && result.value.takerStpCancelled;
      var remaining := if result.Some? then result.value.takerRemaining else Some(qty);
      CommitReplaced(id, account, price, qty, fills, stp, dropped, remaining,
                     if r.outcome.value.Walked? then r.outcome.value.m.left else qty);
    }

    method CommitReplaced(
      id: OrderId, account: AccountId, price: Price, qty: Qty, fills: seq<Fill>, stp: seq<Cancellation>,
      dropped: bool, remaining: Option<Qty>, ghost left: nat)
      requires Valid() && remaining == QtyOf(left)
      modifies this, book, risk
      ensures Valid()
      ensures var d := CommitReplace(old(State()), id, account, price, qty, fills, stp, dropped, left);
        State() == d.s && Sent(old(sink), old(nextSeq), sink, nextSeq, d.ev)
    {
      hide Sent, Settle, Retire, RestReplaced, Book.Valid;
      ghost var l := LedgerNow();
      var side := if id in registry then registry[id].side else Bid;
      RetireOrder(id);
      var ack := ReplacedReport(id, account, qty);
      Emit(ack);
      ghost var s1, n1 := sink, nextSeq;
      SettleWalk(fills, stp, account, qty);
      ghost var settled := Settle(Retire(l, id), fills, stp, account, qty);
      SentMore(old(sink), old(nextSeq), s1, n1, sink, nextSeq, [ack], settled.ev);
      ghost var s2, n2, mid := sink, nextSeq, State();
      RestReplacement(id, account, side, price, dropped, remaining, left);
      SentMore(old(sink), old(nextSeq), s2, n2, sink, nextSeq, [ack] + settled.ev,
               RestReplaced(mid, id, account, side, price, dropped, left).ev);
    }

    /** Register the leftover of a replace, or cancel it when a cap refuses it. */
    method RestReplacement(
      id: OrderId, account: AccountId, side: Side, price: Price, dropped: bool, remaining: Option<Qty>, ghost left: nat)
      requires Valid() && remaining == QtyOf(left)
      modifies this, book, risk
      ensures Valid()
      ensures var d := RestReplaced(old(State()), id, account, side, price, dropped, left);
        State() == d.s && Sent(old(sink), old(nextSeq), sink, nextSeq, d.ev)
    {
      hide Sent, Cancel, Book.Valid, OnOrderResting, Lookup;
      if dropped {
        Emit(CancelledReport(id, account, SelfTrade));
      } else if remaining.Some? {
        var notional := NotionalOf(price, remaining.value);
        var error := risk.OrderResting(account, notional);
        if error.Some? {
          var gone := book.CancelOrder(id);
          Emit(RejectedReport(id, account, error.value));
        } else {
          registry := registry[id := Entry(account, side, remaining.value, notional)];
          SentNothing(sink, nextSeq);
        }
      } else {
        SentNothing(sink, nextSeq);
      }
    }

    method HandleMassCancelAll(account: AccountId)
      requires Valid()
      modifies this, book, risk
      ensures Valid()
      ensures var d := HandleMassCancel(old(State()), account);
        State() == d.s && Sent(old(sink), old(nextSeq), sink, nextSeq, d.ev)
    {
      hide Sent, MassCancel, MassRecords, RetireAll, Book.Valid;
      if risk.killSwitch {
        Emit(RejectedReport(1, account, KillSwitched));
        return;
      }
      var cs := book.MassCancelAccount(account);
      EmitCancels(cs, MassCancelled);
    }

    // -----------------------------------------------------------------------
    // Market data tail
    // -----------------------------------------------------------------------

    /** Every level of the book, bids before asks, prices ascending: push the bids best
        first, reverse them in place, push the asks. */
    method CaptureLevels() returns (rows: seq<Row>)
      requires Valid()
      ensures rows == Rows(book.flat)
    {
      hide Depth, LevelView, RowsOf, Reversed, Book.Valid;
      book.Views();
      RowsOfNone(Bid);
      RowsOfNone(Ask);
      rows := [];
      var bids, asks := LevelView(book.bids), LevelView(book.asks);
      for i := 0 to |bids|
        invariant rows == RowsOf(Bid, bids[..i])
      {
        RowsOfSnoc(Bid, bids[..i], bids[i]);
        assert bids[..i + 1] == bids[..i] + [bids[i]];
        rows := rows + [Row(Bid, bids[i].price, bids[i].qty)];
      }
      assert bids[..|bids|] == bids;
      rows := Reversed(rows);
      ghost var prefix := rows;
      for i := 0 to |asks|
        invariant rows == prefix + RowsOf(Ask, asks[..i])
      {
        RowsOfSnoc(Ask, asks[..i], asks[i]);
        assert asks[..i + 1] == asks[..i] + [asks[i]];
        rows := rows + [Row(Ask, asks[i].price, asks[i].qty)];
      }
      assert asks[..|asks|] == asks;
    }

    /** Two-pointer merge over the levels before and after the command. */
    method EmitL2Deltas(pre: seq<Row>, post: seq<Row>)
      modifies this`sink, this`nextSeq
      ensures Sent(old(sink), old(nextSeq), sink, nextSeq, Diff(pre, post))
    {
      hide Sent, Diff, RowBefore, SameLevel;
      var i, j := 0, 0;
      ghost var ev: seq<Body> := [];
      SentNothing(sink, nextSeq);
      assert pre[0..] == pre && post[0..] == post && [] + Diff(pre, post) == Diff(pre, post);
      while i < |pre| || j < |post|
        invariant 0 <= i <= |pre| && 0 <= j <= |post|
        invariant Sent(old(sink), old(nextSeq), sink, nextSeq, ev)
        invariant Diff(pre, post) == ev + Diff(pre[i..], post[j..])
        decreases |pre| - i + |post| - j
      {
        ghost var s1, n1 := sink, nextSeq;
        DiffStep(pre, post, i, j, ev);
        var change: Option<Body>;
        if j == |post| || (i < |pre| && RowBefore(pre[i], post[j])) {
          change := Some(DeltaOf(pre[i], 0));
          i := i + 1;
        } else if i == |pre| || !SameLevel(pre[i], post[j]) {
          change := Some(DeltaOf(post[j], post[j].qty));
          j := j + 1;
        } else {
          change := if pre[i].qty == post[j].qty then None else Some(DeltaOf(post[j], post[j].qty));
          i, j := i + 1, j + 1;
        }
        if change.Some? {
          Emit(change.value);
        } else {
          SentNothing(sink, nextSeq);
        }
        SentMore(old(sink), old(nextSeq), s1, n1, sink, nextSeq, ev, OneOrNone(change));
        ev := ev + OneOrNone(change);
      }
      assert pre[i..] == [] && post[j..] == [];
      DiffNothing();
      assert ev + [] == ev;
    }

    method HandleSnapshotRequest(requestId: nat)
      requires Valid()
      modifies this`sink, this`nextSeq
      ensures Sent(old(sink), old(nextSeq), sink, nextSeq,
                   [Snapshot(requestId, Depth(book.flat.bids), Depth(book.flat.asks))])
    {
      book.Views();
      Emit(Snapshot(requestId, LevelView(book.bids), LevelView(book.asks)));
    }

    /** Quote each side's best price with the side's total. */
    method EmitTop()
      requires Valid()
      modifies this`sink, this`nextSeq
      ensures Valid() && State() == old(State())
      ensures Sent(old(sink), old(nextSeq), sink, nextSeq, [TopOf(book.flat)])
    {
      book.BestPrices();
      book.Views();
      var bid := match BestLevel(book.bids) case None => None case Some(p) => Some(Rung(p, SideQty(book.bids)));
      var ask := match BestLevel(book.asks) case None => None case Some(p) => Some(Rung(p, SideQty(book.asks)));
      Emit(Top(bid, ask));
    }

    /** Drive one command through the pipeline. */
    method Step(cmd: Inbound)
      requires Valid()
      modifies this, book, risk
      ensures Valid()
      ensures var d := EngineSpec.Step(old(State()), cmd);
        State() == d.s && Sent(old(sink), old(nextSeq), sink, nextSeq, d.ev)
    {
      hide Sent, HandleNew, HandleCancel, HandleReplace, HandleMassCancel, Rows, Depth, Diff, Book.Valid;
      var emitChanges := !cmd.KillSwitchSet? && !cmd.SnapshotRequest?;
      var pre: seq<Row> := [];
      if emitChanges { pre := CaptureLevels(); }
      ghost var before := book.flat;
      match cmd {
        case New(m) => HandleNewOrder(m);
        case CancelOne(id, account) => HandleCancelOrder(id, account);
        case CancelReplace(id, account, price, qty) => HandleCancelReplace(id, account, price, qty);
        case MassCancelAll(account) => HandleMassCancelAll(account);
        case KillSwitchSet(halt) =>
          risk.SetKillSwitch(halt);
          SentNothing(sink, nextSeq);
        case SnapshotRequest(requestId) =>
          HandleSnapshotRequest(requestId);
      }
      ghost var ev := EngineSpec.Handle(old(State()), cmd).ev;
      if emitChanges {
        ghost var s1, n1 := sink, nextSeq;
        var post := CaptureLevels();
        EmitL2Deltas(pre, post);
        SentMore(old(sink), old(nextSeq), s1, n1, sink, nextSeq, ev, Diff(pre, post));
        ghost var s2, n2 := sink, nextSeq;
        EmitTop();
        SentMore(old(sink), old(nextSeq), s2, n2, sink, nextSeq, ev + Diff(pre, post), [TopOf(book.flat)]);
        assert ev + Diff(pre, post) + [TopOf(book.flat)] == ev + (Diff(pre, post) + [TopOf(book.flat)]);
      } else {
        assert [] + Tail(before, book.flat, cmd) == Tail(before, book.flat, cmd);
      }
    }

    /** Drive a whole list of commands. */
    method Drive(cmds: seq<Inbound>)
      requires Valid()
      modifies this, book, risk
      ensures Valid()
      ensures var d := Run(old(State()), cmds);
        State() == d.s && Sent(old(sink), old(nextSeq), sink, nextSeq, d.ev)
    {
      hide Sent, EngineSpec.Step, Book.Valid;
      ghost var ev: seq<Body> := [];
      SentNothing(sink, nextSeq);
      for i := 0 to |cmds|
        invariant Valid()
        invariant Sent(old(sink), old(nextSeq), sink, nextSeq, ev)
        invariant Run(old(State()), cmds) == (var rest := Run(State(), cmds[i..]); Out(rest.s, ev + rest.ev))
      {
        ghost var s, s1, n1 := State(), sink, nextSeq;
        Step(cmds[i]);
        ghost var now, rest := EngineSpec.Step(s, cmds[i]).ev, Run(State(), cmds[i + 1..]);
        SentMore(old(sink), old(nextSeq), s1, n1, sink, nextSeq, ev, now);
        assert cmds[i..][1..] == cmds[i + 1..];
        assert ev + (now + rest.ev) == (ev + now) + rest.ev;
        ev := ev + now;
      }
      assert ev + [] == ev;
    }
  }

  function OneOrNone(change: Option<Body>): seq<Body> { if change.Some? then [change.value] else [] }

  lemma DiffNothing()
    ensures Diff([], []) == []
  {
  }

  /** One step of the merge, in each of its three ways. */
  lemma DiffStep(pre: seq<Row>, post: seq<Row>, i: nat, j: nat, ev: seq<Body>)
    requires i <= |pre| && j <= |post| && (i < |pre| || j < |post|)
    ensures ev + Diff(pre[i..], post[j..]) ==
      if j == |post| || (i < |pre| && RowBefore(pre[i], post[j])) then
        ev + OneOrNone(Some(DeltaOf(pre[i], 0))) + Diff(pre[i + 1..], post[j..])
      else if i == |pre| || !SameLevel(pre[i], post[j]) then
        ev + OneOrNone(Some(DeltaOf(post[j], post[j].qty))) + Diff(pre[i..], post[j + 1..])
      else
        ev + OneOrNone(if pre[i].qty == post[j].qty then None else Some(DeltaOf(post[j], post[j].qty)))
           + Diff(pre[i + 1..], post[j + 1..])
  {
    hide Diff, RowBefore, SameLevel;
    var p, q := pre[i..], post[j..];
    DiffUnrolls(p, q);
    if j == |post| || (i < |pre| && RowBefore(pre[i], post[j])) {
      assert p[1..] == pre[i + 1..];
      Assoc(ev, [DeltaOf(pre[i], 0)], Diff(p[1..], q));
    } else if i == |pre| || !SameLevel(pre[i], post[j]) {
      assert q[1..] == post[j + 1..];
      Assoc(ev, [DeltaOf(post[j], post[j].qty)], Diff(p, q[1..]));
    } else {
      assert p[1..] == pre[i + 1..] && q[1..] == post[j + 1..];
      Assoc(ev, if pre[i].qty == post[j].qty then [] else [DeltaOf(post[j], post[j].qty)], Diff(p[1..], q[1..]));
    }
  }

  lemma {:induction false} DiffUnrolls(p: seq<Row>, q: seq<Row>)
    requires p != [] || q != []
    ensures Diff(p, q) ==
      if q == [] || (p != [] && RowBefore(p[0], q[0])) then
        [DeltaOf(p[0], 0)] + Diff(p[1..], q)
      else if p == [] || !SameLevel(p[0], q[0]) then
        [DeltaOf(q[0], q[0].qty)] + Diff(p, q[1..])
      else
        (if p[0].qty == q[0].qty then [] else [DeltaOf(q[0], q[0].qty)]) + Diff(p[1..], q[1..])
  {
  }

  lemma Assoc<T>(a: seq<T>, b: seq<T>, c: seq<T>)
    ensures a + (b + c) == a + b + c
  {
  }

  lemma RetireAllNone(l: Ledger, reason: CancelReason)
    ensures RetireAll(l, [], reason) == Settled(l, [])
  {
  }

  /** One more dropped maker, with `ev` said before it. */
  lemma RetireAllNext(l: Ledger, cs: seq<Cancellation>, reason: CancelReason, ev: seq<Body>)
    requires cs != []
    ensures var a, b := RetireAll(l, cs, reason), RetireAll(Retire(l, cs[0].id), cs[1..], reason);
      && a.ledger == b.ledger
      && ev + a.ev == (ev + [CancelledReport(cs[0].id, cs[0].account, reason)]) + b.ev
  {
  }

  lemma RowsOfNone(side: Side)
    ensures RowsOf(side, []) == []
  {
  }

  lemma {:induction false} RowsOfSnoc(side: Side, ds: seq<Rung>, d: Rung)
    ensures RowsOf(side, ds + [d]) == RowsOf(side, ds) + [Row(side, d.price, d.qty)]
  {
    if ds == [] {
      assert [d][1..] == [];
    } else {
      assert (ds + [d])[1..] == ds[1..] + [d];
      RowsOfSnoc(side, ds[1..], d);
    }
  }
}
