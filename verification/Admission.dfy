/** When a command is refused up front, and with which reason, told from the commands, the
    prints and the book so far; and what the kill switch does. */
module Admission {
  import opened Domain
  import opened PriceTime
  import opened WalkLaws
  import opened BookLaws
  import opened Messages
  import opened Risk
  import opened EngineSpec
  import opened EngineInvariants
  import opened EngineSafety
  import opened MarketData
  import opened Reports
  import opened Transcripts

  // -------------------------------------------------------------------------
  // The kill switch
  // -------------------------------------------------------------------------

  /** The last kill-switch command says halt. */
  function Halted(cmds: seq<Inbound>): bool {
    if cmds == [] then false
    else
      var last := cmds[|cmds| - 1];
      if last.KillSwitchSet? then last.halt else Halted(cmds[..|cmds| - 1])
  }

  lemma {:induction false} RetireAllSwitch(l: Ledger, cs: seq<Cancellation>, reason: CancelReason)
    ensures RetireAll(l, cs, reason).ledger.risk.killSwitch == l.risk.killSwitch
    decreases cs
  {
    if cs != [] { RetireAllSwitch(Retire(l, cs[0].id), cs[1..], reason); }
  }

  lemma FillSwitch(l: Ledger, f: Fill)
    ensures SettleFill(l, f).risk.killSwitch == l.risk.killSwitch
  {
    hide SatSub, NotionalOf;
  }

  lemma {:induction false} SettleFillsSwitch(l: Ledger, fills: seq<Fill>, taker: AccountId, left: nat)
    ensures SettleFills(l, fills, taker, left).ledger.risk.killSwitch == l.risk.killSwitch
    decreases fills
  {
    hide SettleFill, FillEvents;
    if fills != [] {
      FillSwitch(l, fills[0]);
      SettleFillsSwitch(SettleFill(l, fills[0]), fills[1..], taker, SatSub(left, fills[0].qty));
    }
  }

  lemma SettleSwitch(l: Ledger, fills: seq<Fill>, stp: seq<Cancellation>, taker: AccountId, left: nat)
    ensures Settle(l, fills, stp, taker, left).ledger.risk.killSwitch == l.risk.killSwitch
  {
    hide SettleFills, RetireAll;
    SettleFillsSwitch(l, fills, taker, left);
    RetireAllSwitch(SettleFills(l, fills, taker, left).ledger, stp, SelfTrade);
  }

  /** Only its own command moves the switch, and to where the command says. */
  lemma StepSwitch(s: EngineState, cmd: Inbound)
    ensures Step(s, cmd).s.ledger.risk.killSwitch == if cmd.KillSwitchSet? then cmd.halt else s.ledger.risk.killSwitch
  {
    hide Match, Replace, Settle, CheckNewOrder, CheckCancelReplace, CheckCaps, Rest, RestError, RetireAll, MassRecords,
         Lookup, Tail, NotionalOf, Cancel;
    match cmd
    case New(m) =>
      var w := Match(s.book, NewTaker(m), s.nextTrade);
      SettleSwitch(s.ledger, w.fills, w.stp, m.account, m.qty);
    case CancelReplace(id, account, price, qty) =>
      var r := Replace(s.book, id, price, qty, s.nextTrade);
      SettleSwitch(Retire(s.ledger, id), [], [], account, qty);
      if r.outcome.Ok? && r.outcome.value.Walked? {
        SettleSwitch(Retire(s.ledger, id), r.outcome.value.m.fills, r.outcome.value.m.stp, account, qty);
      }
    case MassCancelAll(account) => RetireAllSwitch(s.ledger, MassRecords(s.book, account), MassCancelled);
    case _ =>
  }

  /** While the engine runs, nobody is told that it is halted. */
  lemma RunningNeverHalts(s: EngineState, cmd: Inbound, e: Body)
    requires !s.ledger.risk.killSwitch && e in Step(s, cmd).ev && e.Report?
    ensures e.report.reject != Some(KillSwitched)
  {
    hide Match, Replace, Settle, Rest, RestError, RetireAll, MassRecords, Lookup, Tail, NotionalOf, Cancel,
         OnOrderResting, OnOrderRemoved, Retire, CheckPriceBand;
    var h := Handle(s, cmd);
    TailKinds(s.book, h.s.book, cmd);
    assert e in h.ev;
    BandReason(s.ledger.risk);
    match cmd
    case New(m) =>
      var w := Match(s.book, NewTaker(m), s.nextTrade);
      SettleSays(s.ledger, w.fills, w.stp, m.account, m.qty);
    case CancelReplace(id, account, price, qty) =>
      var r := Replace(s.book, id, price, qty, s.nextTrade);
      SettleSays(Retire(s.ledger, id), [], [], account, qty);
      if r.outcome.Ok? && r.outcome.value.Walked? {
        SettleSays(Retire(s.ledger, id), r.outcome.value.m.fills, r.outcome.value.m.stp, account, qty);
      }
    case MassCancelAll(account) => RetireAllSays(s.ledger, MassRecords(s.book, account), MassCancelled);
    case _ =>
  }

  lemma BandReason(r: RiskView)
    ensures forall p: Price :: CheckPriceBand(p, r.lastTrade) in {None, Some(PriceBand)}
  {
  }

  /** While the engine is halted, each of the four trading commands is answered with one
      rejection under its id and account, and every command but the switch's own leaves
      the whole state alone. */
  lemma HaltedAnswers(s: EngineState, cmd: Inbound)
    requires s.ledger.risk.killSwitch && !cmd.KillSwitchSet?
    ensures Step(s, cmd).s == s
    ensures Handle(s, cmd).ev ==
      if cmd.SnapshotRequest? then []
      else
        var (id, account) := Sender(cmd);
        [Report(ExecReport(id, account, Rejected, None, None, None, Some(KillSwitched), None))]
  {
    hide Tail;
  }

  // -------------------------------------------------------------------------
  // New orders
  // -------------------------------------------------------------------------

  /** More than five per cent away from the last printed price. */
  ghost predicate OffBand(p: Price, last: Option<Price>) {
    last.Some? && (p as real < 0.95 * last.value as real || p as real > 1.05 * last.value as real)
  }

  /** Some order of the queue is within a limit. */
  ghost predicate Meets(q: seq<Resting>, side: Side, limit: Option<Price>) {
    exists o :: o in q && (limit.None? || if side.Bid? then o.price <= limit.value else o.price >= limit.value)
  }

  /** The reason to refuse a new order up front, if there is one. */
  ghost function NewRefusal(halted: bool, last: Option<Price>, open: nat, b: FlatBook,
      m: NewOrder): Option<RejectReason> {
    var q := b.Of(m.side.Opposite());
    if halted then Some(KillSwitched)
    else if m.orderType.Limit? && m.price.None? then Some(MalformedMessage)
    else if m.orderType.Market? && q == [] then Some(MarketOrderInEmptyBook)
    else
      var price := if m.orderType.Limit? then m.price.value else q[0].price;
      if OffBand(price, last) then Some(PriceBand)
      else if open >= 1_000 then Some(MaxOpenOrders)
      else if Exposure(b, m.account) + price * m.qty > 10_000_000_000 then Some(MaxNotional)
      else if m.tif.PostOnly? && Meets(q, m.side, m.price) then Some(PostOnlyWouldCross)
      else None
  }

  lemma BandIs(p: Price, last: Option<Price>)
    ensures CheckPriceBand(p, last) == if OffBand(p, last) then Some(PriceBand) else None
  {
    if last.Some? { BandIsRational(p, last.value); }
  }

  lemma MeetsIs(b: FlatBook, side: Side, limit: Option<Price>)
    requires Valid(b)
    ensures WouldCross(b, side, limit) == Meets(b.Of(side.Opposite()), side, limit)
  {
    var q := b.Of(side.Opposite());
    if q == [] || !Crosses(side, limit, q[0].price) {
      NoCrossBehindHead(q, side, limit);
    } else {
      assert q[0] in q;
    }
  }

  lemma CheckedBy(s: EngineState, m: NewOrder)
    requires Inv(s)
    ensures var r := s.ledger.risk;
      var check := CheckNewOrder(r, m, BestPrice(s.book.Of(m.side.Opposite())));
      NewRefusal(r.killSwitch, r.lastTrade, r.StateOf(m.account).openOrders, s.book, m) ==
        if check.Some? then check
        else if m.tif.PostOnly? && WouldCross(s.book, m.side, m.price) then Some(PostOnlyWouldCross)
        else None
  {
    InvValid(s);
    MeetsIs(s.book, m.side, m.price);
    assert Accounted(s.ledger.risk.StateOf(m.account), s.book, m.account);
    hide Inv, Valid, Uncrossed, Agrees, WouldCross, Meets, OffBand, CheckPriceBand, Exposure, Accounted;
    var q := s.book.Of(m.side.Opposite());
    if m.price.Some? { BandIs(m.price.value, s.ledger.risk.lastTrade); }
    if q != [] { BandIs(q[0].price, s.ledger.risk.lastTrade); }
  }

  /** A new order is refused up front, with one rejection and no effect, exactly for the
      reason that `NewRefusal` reads off; otherwise no message refuses it, except for a
      reused id or an exhausted arrival counter. */
  lemma NewRefused(s: EngineState, m: NewOrder)
    requires Inv(s)
    ensures var r := s.ledger.risk;
      var h := HandleNew(s, m);
      match NewRefusal(r.killSwitch, r.lastTrade, r.StateOf(m.account).openOrders, s.book, m)
      case Some(reason) => h
          == Out(s, [Report(ExecReport(m.id, m.account, Rejected, None, None, None, Some(reason), None))])
      case None => Decodable(m) ==>
        forall e :: e in h.ev && e.Report? && e.report.reject.Some? ==>
          && e.report.reject == Some(DuplicateOrderId)
          && (m.id in Lookup(s.book) || s.book.arrivals == U64_MAX)
  {
    hide Inv, Valid, Lookup, CheckNewOrder, WouldCross, NewRefusal, Walk, NewSpeech, Settle, Dispose;
    CheckedBy(s, m);
    PostOnlyRejectsWhole(s.book, NewTaker(m), s.nextTrade);
    if Admitted(s, m) && Decodable(m) {
      NewTranscript(s, m);
      SpeechRefuses(s.book, m, s.nextTrade);
    }
  }

  lemma {:induction false} SpeechesRefuseNothing(q: seq<Resting>, t: Taker, left: nat, trade: nat, i: nat, n: nat)
    requires i <= n <= |q|
    ensures forall e :: e in FillSpeeches(q, t, left, trade, i, n) && e.Report? ==> e.report.reject.None?
    decreases n - i
  {
    if i < n { SpeechesRefuseNothing(q, t, left, trade, i + 1, n); }
  }

  lemma SpeechRefuses(b: FlatBook, m: NewOrder, trade: nat)
    ensures forall e :: e in NewSpeech(b, m, trade) && e.Report? && e.report.reject.Some? ==>
      e.report.reject == Some(DuplicateOrderId) && (m.id in Lookup(b) || b.arrivals == U64_MAX)
  {
    hide Lookup, Lots, FillSpeeches, TakesOff, Reach;
    var q, t := b.Of(m.side.Opposite()), NewTaker(m);
    SpeechesRefuseNothing(q, t, m.qty, trade, 0, Reach(q, t));
  }

  // -------------------------------------------------------------------------
  // Replaces
  // -------------------------------------------------------------------------

  /** The reason to refuse a replace up front, if there is one. */
  ghost function ReplaceRefusal(
    halted: bool, last: Option<Price>, b: FlatBook, id: OrderId, account: AccountId, price: Price, qty: Qty)
    : Option<RejectReason>
  {
    if halted then Some(KillSwitched)
    else if OffBand(price, last) then Some(PriceBand)
    else if price * qty > 10_000_000_000 then Some(MaxNotional)
    else if !Owns(b, id, account) then Some(UnknownOrderId)
    else
      var o := Lookup(b)[id];
      if o.tif.PostOnly? && (price != o.price || qty > o.qty) && Meets(b.Of(o.side.Opposite()), o.side, Some(price))
      then Some(PostOnlyWouldCross)
      else None
  }

  /** What is said to a replace that is not refused. */
  lemma ReplaceAnswers(s: EngineState, id: OrderId, account: AccountId, price: Price, qty: Qty)
    requires Inv(s) && s.book.arrivals < U64_MAX
    requires ReplaceRefusal(s.ledger.risk.killSwitch, s.ledger.risk.lastTrade, s.book, id, account, price, qty).None?
    ensures id in Lookup(s.book) &&
      var o := Lookup(s.book)[id];
      HandleReplace(s, id, account, price, qty).ev ==
        if price == o.price && qty <= o.qty then [ReplaceAck(id, account, qty)]
        else ReplaceSpeech(s.book, o, price, qty, s.nextTrade)
  {
    hide Inv, Valid, Lookup, WouldCross, Meets, OffBand, CheckPriceBand, HandleReplace, ReplaceSpeech;
    InvValid(s);
    MirrorEntry(s, id);
    BandIs(price, s.ledger.risk.lastTrade);
    MeetsIs(s.book, Lookup(s.book)[id].side, Some(price));
    if KeepsPriority(Lookup(s.book)[id], price, qty) {
      InPlaceTranscript(s, id, account, price, qty);
    } else {
      ReplaceTranscript(s, id, account, price, qty);
    }
  }

  /** A replace is refused up front, with one rejection and no effect, exactly for the
      reason that `ReplaceRefusal` reads off; otherwise the first message acknowledges it. */
  lemma ReplaceRefused(s: EngineState, id: OrderId, account: AccountId, price: Price, qty: Qty)
    requires Inv(s) && s.book.arrivals < U64_MAX
    ensures var r := s.ledger.risk;
      var h := HandleReplace(s, id, account, price, qty);
      match ReplaceRefusal(r.killSwitch, r.lastTrade, s.book, id, account, price, qty)
      case Some(reason) => h
          == Out(s, [Report(ExecReport(id, account, Rejected, None, None, None, Some(reason), None))])
      case None => h.ev != [] && h.ev[0] == ReplaceAck(id, account, qty)
  {
    hide Inv, Valid, Lookup, WouldCross, Meets, OffBand, CheckPriceBand, Match, CommitReplace, Cancel;
    InvValid(s);
    MirrorEntry(s, id);
    BandIs(price, s.ledger.risk.lastTrade);
    if id in Lookup(s.book) { MeetsIs(s.book, Lookup(s.book)[id].side, Some(price)); }
    if ReplaceRefusal(s.ledger.risk.killSwitch, s.ledger.risk.lastTrade, s.book, id, account, price, qty).None? {
      RestingAt(s.book, id);
      ReplaceAnswers(s, id, account, price, qty);
    }
  }
}
