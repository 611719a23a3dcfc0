/** The guarantees, over every run of the engine from its empty initial state.

    What rests on the invariant alone holds after every run, of any length, that strands
    no order.  A run of fewer than 2^64 commands never does: it cannot exhaust the arrival
    counter.  The state after any prefix of a run is itself the end of a run, so each
    statement holds after every step. */
module Runs {
  import opened Domain
  import opened PriceTime
  import opened QueueLaws
  import opened WalkLaws
  import opened BookLaws
  import opened Messages
  import opened Risk
  import opened EngineSpec
  import opened EngineInvariants
  import opened EngineSafety
  import opened ExecCodec
  import opened MarketData
  import opened Reports
  import opened Compliance
  import opened Conservation
  import opened Trades
  import opened Transcripts
  import opened Attribution
  import opened Terms
  import opened Admission

  function After(cmds: seq<Inbound>): EngineState { Run(INITIAL, cmds).s }

  /** The run strands no order. */
  ghost predicate Unstranded(cmds: seq<Inbound>) { Strandless(INITIAL, cmds) }

  lemma Reached(cmds: seq<Inbound>)
    requires Unstranded(cmds)
    ensures Inv(After(cmds))
  {
    hide Inv, Run, Strandless;
    InitialInv();
    InvWeaken(INITIAL, EXACT);
    RunInv(INITIAL, cmds);
  }

  lemma ReachedShortly(cmds: seq<Inbound>)
    requires |cmds| <= U64_MAX
    ensures Unstranded(cmds) && Inv(After(cmds)) && After(cmds).book.arrivals <= |cmds|
  {
    hide Inv, Run, Strandless;
    ShortRuns(INITIAL, cmds);
    Reached(cmds);
  }

  lemma {:induction false} RunAppend(s: EngineState, a: seq<Inbound>, b: seq<Inbound>)
    ensures Run(s, a + b) == Out(Run(Run(s, a).s, b).s, Run(s, a).ev + Run(Run(s, a).s, b).ev)
    decreases a
  {
    hide Step;
    if a == [] {
      assert a + b == b;
      assert [] + Run(s, b).ev == Run(s, b).ev;
    } else {
      assert (a + b)[1..] == a[1..] + b;
      RunAppend(Step(s, a[0]).s, a[1..], b);
    }
  }

  predicate InBook(b: FlatBook, o: Resting) { o in b.bids || o in b.asks }

  /** The registry has exactly the resting orders, each with its account, side and
      residual quantity, and the notional of that residual. */
  lemma RegistryMirrorsBook(cmds: seq<Inbound>, id: OrderId)
    requires Unstranded(cmds)
    ensures var s := After(cmds);
      && (id in s.ledger.registry <==> exists o :: InBook(s.book, o) && o.id == id)
      && forall o :: InBook(s.book, o) && o.id == id ==>
           id in s.ledger.registry && s.ledger.registry[id] == Entry(o.account, o.side, o.qty, o.price * o.qty)
  {
    var s := After(cmds);
    Reached(cmds);
    LookupFacts(s.book);
    if id in Lookup(s.book) { assert Lookup(s.book)[id] in s.book.Of(Lookup(s.book)[id].side); }
  }

  /** Each account's tracked notional is the sum of price times residual over its resting
      orders and within the cap; its open-order count is at most the number it rests. */
  lemma RiskMatchesBook(cmds: seq<Inbound>, a: AccountId)
    requires Unstranded(cmds)
    ensures var s := After(cmds);
      && s.ledger.risk.StateOf(a).notional == Exposure(s.book, a) <= MAX_NOTIONAL_PER_ACCT
      && s.ledger.risk.StateOf(a).openOrders <= OrderCount(s.book, a)
      && s.ledger.risk.StateOf(a).openOrders <= MAX_OPEN_ORDERS_PER_ACCT
  {
    var s := After(cmds);
    Reached(cmds);
    assert Accounted(s.ledger.risk.StateOf(a), s.book, a);
  }

  /** The book is never locked or crossed. */
  lemma NeverCrossed(cmds: seq<Inbound>)
    requires Unstranded(cmds)
    ensures var b := After(cmds).book;
      var bid, ask := BestPrice(b.bids), BestPrice(b.asks);
      && (bid.Some? && ask.Some? ==> bid.value < ask.value)
      && (forall o :: o in b.bids ==> o.price <= bid.value)
      && (forall o :: o in b.asks ==> ask.value <= o.price)
  {
    var b := After(cmds).book;
    Reached(cmds);
    hide Run;
    forall i | 0 < i < |b.bids| ensures b.bids[i].price <= b.bids[0].price { assert Ahead(Bid, b.bids[0], b.bids[i]); }
    forall i | 0 < i < |b.asks| ensures b.asks[0].price <= b.asks[i].price { assert Ahead(Ask, b.asks[0], b.asks[i]); }
  }

  /** Folding every level change of a run into an empty map gives the level map. */
  lemma DepthFollows(cmds: seq<Inbound>)
    requires Unstranded(cmds)
    ensures ConsumeAll(map[], Run(INITIAL, cmds).ev) == L2(After(cmds).book)
  {
    hide Inv, Run;
    InitialInv();
    InvWeaken(INITIAL, EXACT);
    RunFolds(INITIAL, cmds);
    assert L2(EMPTY) == map[];
  }

  /** A consumer that joins a run at a snapshot, whatever it held before, and folds every
      message from there on, ends with the level map too. */
  lemma SnapshotThenFollow(before: seq<Inbound>, requestId: nat, later: seq<Inbound>, junk: map<LevelKey, nat>)
    requires Unstranded(before + ([SnapshotRequest(requestId)] + later))
    ensures var missed := |Run(INITIAL, before).ev|;
      var all := Run(INITIAL, before + ([SnapshotRequest(requestId)] + later));
      missed <= |all.ev| && ConsumeAll(junk, all.ev[missed..]) == L2(all.s.book)
  {
    hide Inv, Run, L2, Step, Strandless;
    var s, joined := After(before), [SnapshotRequest(requestId)] + later;
    StrandlessAppend(INITIAL, before, joined);
    StrandlessCons(s, SnapshotRequest(requestId), later);
    Reached(before);
    RunAppend(INITIAL, before, joined);
    RunCons(s, SnapshotRequest(requestId), later);
    var all, missed := Run(INITIAL, before + joined), Run(INITIAL, before).ev;
    assert all.ev[|missed|..] == Run(s, joined).ev;
    SnapshotResyncs(s, junk, requestId);
    SnapshotKeeps(s, requestId);
    ConsumeAppend(junk, Step(s, SnapshotRequest(requestId)).ev, Run(s, later).ev);
    RunFolds(s, later);
  }

  lemma RunCons(s: EngineState, cmd: Inbound, later: seq<Inbound>)
    ensures var first := Step(s, cmd);
      Run(s, [cmd] + later) == Out(Run(first.s, later).s, first.ev + Run(first.s, later).ev)
  {
    assert ([cmd] + later)[1..] == later;
  }

  lemma {:induction false} StrandlessAppend(s: EngineState, a: seq<Inbound>, b: seq<Inbound>)
    ensures Strandless(s, a + b) <==> Strandless(s, a) && Strandless(Run(s, a).s, b)
    decreases a
  {
    hide Step, Stranding;
    if a == [] {
      assert a + b == b;
    } else {
      assert (a + b)[1..] == a[1..] + b;
      StrandlessAppend(Step(s, a[0]).s, a[1..], b);
    }
  }

  lemma StrandlessCons(s: EngineState, cmd: Inbound, later: seq<Inbound>)
    ensures Strandless(s, [cmd] + later) <==> !Stranding(s, cmd) && Strandless(Step(s, cmd).s, later)
  {
    hide Step, Stranding;
    assert ([cmd] + later)[1..] == later;
  }

  lemma SnapshotKeeps(s: EngineState, requestId: nat)
    ensures Step(s, SnapshotRequest(requestId)).s == s
  {
  }

  /** The level changes a step emits are strictly ascending and name exactly the levels
      whose total changed, each with its new total. */
  lemma DeltasExact(cmds: seq<Inbound>, cmd: Inbound, k: LevelKey)
    requires |cmds| < U64_MAX
    ensures var s := After(cmds);
      var s' := Step(s, cmd).s;
      var d := DeltasOf(Step(s, cmd).ev);
      && DeltasAscend(d)
      && LastChange(d, k) == if LevelQty(s.book, k) == LevelQty(s'.book, k) then None else Some(LevelQty(s'.book, k))
  {
    hide Inv, Valid, Run, Handle, Rows, Diff, LevelQty, DeltasOf;
    var s := After(cmds);
    ReachedShortly(cmds);
    HandleInv(s, cmd);
    var s' := Step(s, cmd).s;
    InvValid(s);
    InvValid(s');
    StepDeltas(s, cmd);
    RowsAscend(s.book);
    RowsAscend(s'.book);
    DiffAscends(Rows(s.book), Rows(s'.book));
    DiffExact(Rows(s.book), Rows(s'.book), k);
    RowsAreLevels(s.book, k);
    RowsAreLevels(s'.book, k);
  }

  /** Every command that can change the book ends with a quote of both sides: the best
      price and a quantity that covers that level, and is the level's own total exactly
      when the side has no other price. */
  lemma TopOfBook(cmds: seq<Inbound>, cmd: Inbound, side: Side)
    requires !cmd.KillSwitchSet? && !cmd.SnapshotRequest?
    ensures var d := Step(After(cmds), cmd);
      var q := d.s.book.Of(side);
      && d.ev != [] && d.ev[|d.ev| - 1].Top?
      && var quote := if side.Bid? then d.ev[|d.ev| - 1].bid else d.ev[|d.ev| - 1].ask;
      && (quote.None? <==> q == [])
      && (quote.Some? ==>
            && BestPrice(q) == Some(quote.value.price)
            && LevelQty(d.s.book, (side, quote.value.price)) <= quote.value.qty
            && (LevelQty(d.s.book, (side, quote.value.price)) == quote.value.qty
                <==> forall o :: o in q ==> o.price == quote.value.price))
  {
    hide Run, Handle, Diff, Rows, Lots, Total;
    var q := Step(After(cmds), cmd).s.book.Of(side);
    if q != [] { ShareOfSide(q, q[0].price); }
  }

  /** After any run, the last report a step emits about an order fixes its state, if and
      only if the step is not a new order whose own id already rests, or is one of those
      that `ReuseTold` names. */
  lemma LastReportFixes(cmds: seq<Inbound>, cmd: Inbound, id: OrderId)
    requires |cmds| < U64_MAX
    requires Reuses(After(cmds), cmd, id) ==> Decodable(cmd.order)
    ensures var s := After(cmds);
      (Reuses(s, cmd, id) ==> ReuseTold(s, cmd.order)) <==>
      Fixes(Step(s, cmd).ev, id, Find(s.book, id), Find(Step(s, cmd).s.book, id))
  {
    hide Inv, Run, Step, Find, Lookup, ReuseTold, Fixes;
    ReachedShortly(cmds);
    StepFixes(After(cmds), cmd, id);
  }

  /** What a client that held `held` lots of an order holds after a step's reports. */
  ghost function Heard(held: nat, ev: seq<Body>, id: OrderId): nat {
    match LastReport(ev, id)
    case None => held
    case Some(r) =>
      match r.state
      case Filled => 0
      case Cancelled => 0
      case Rejected => if ReplacedIn(ev, id) then 0 else held
      case _ => if r.leaves.Some? then r.leaves.value else 0
  }

  /** A client that listens step by step to the reports about one order. */
  ghost function Listens(held: nat, s: EngineState, cmds: seq<Inbound>, id: OrderId): nat
    decreases cmds
  {
    if cmds == [] then held
    else Listens(Heard(held, Step(s, cmds[0]).ev, id), Step(s, cmds[0]).s, cmds[1..], id)
  }

  /** Whenever the run enters a new order under an id that already rests, the reports
      about it tell the truth. */
  ghost predicate TruthfulReuse(s: EngineState, cmds: seq<Inbound>, id: OrderId)
    decreases cmds
  {
    cmds == [] ||
    (&& (Reuses(s, cmds[0], id) ==> Decodable(cmds[0].order) && ReuseTold(s, cmds[0].order))
     && TruthfulReuse(Step(s, cmds[0]).s, cmds[1..], id))
  }

  lemma HeardRight(s: EngineState, cmd: Inbound, id: OrderId)
    requires Fixes(Step(s, cmd).ev, id, Find(s.book, id), Find(Step(s, cmd).s.book, id))
    ensures Heard(RestingLots(s.book, id), Step(s, cmd).ev, id) == RestingLots(Step(s, cmd).s.book, id)
  {
    hide Step, LastReport, ReplacedIn, Lookup;
  }

  lemma {:induction false} ListensRight(s: EngineState, cmds: seq<Inbound>, id: OrderId)
    requires Inv(s) && s.book.arrivals + |cmds| <= U64_MAX && TruthfulReuse(s, cmds, id)
    ensures Listens(RestingLots(s.book, id), s, cmds, id) == RestingLots(Run(s, cmds).s.book, id)
    decreases cmds
  {
    hide Inv, Handle, Tail, RestingLots, Find, Fixes, Heard, ReuseTold, Reuses;
    if cmds != [] {
      HandleInv(s, cmds[0]);
      HandleArrivals(s, cmds[0]);
      StepFixes(s, cmds[0], id);
      HeardRight(s, cmds[0], id);
      ListensRight(Step(s, cmds[0]).s, cmds[1..], id);
    }
  }

  /** A client that listens from the start to the reports about an order holds, after every
      run, exactly the lots the book rests for it. */
  lemma ClientsFollow(cmds: seq<Inbound>, id: OrderId)
    requires |cmds| <= U64_MAX && TruthfulReuse(INITIAL, cmds, id)
    ensures Listens(0, INITIAL, cmds, id) == RestingLots(After(cmds).book, id)
  {
    hide Inv, Run, Listens, TruthfulReuse;
    InitialInv();
    InvWeaken(INITIAL, EXACT);
    ListensRight(INITIAL, cmds, id);
  }

  lemma {:induction false} RunSound(s: EngineState, cmds: seq<Inbound>)
    requires Inv(s) && s.book.arrivals + |cmds| <= U64_MAX
    ensures Sound(Run(s, cmds).ev)
    decreases cmds
  {
    hide Inv, Handle, Tail, Sound;
    if cmds == [] {
      SoundQuiet([]);
    } else {
      HandleInv(s, cmds[0]);
      HandleArrivals(s, cmds[0]);
      StepSound(s, cmds[0]);
      RunSound(Step(s, cmds[0]).s, cmds[1..]);
      SoundAppend(Step(s, cmds[0]).ev, Run(Step(s, cmds[0]).s, cmds[1..]).ev);
    }
  }

  /** No trade of any run pairs an account with itself: each trade print is followed by
      fill reports, at its price and quantity, to two different accounts. */
  lemma NoSelfTrade(cmds: seq<Inbound>, i: nat)
    requires |cmds| <= U64_MAX
    ensures var ev := Run(INITIAL, cmds).ev;
      i < |ev| && ev[i].Trade? ==>
        && i + 2 < |ev|
        && IsFillOf(ev[i + 1], ev[i]) && IsFillOf(ev[i + 2], ev[i])
        && ev[i + 1].report.account != ev[i + 2].report.account
  {
    hide Inv, Run;
    InitialInv();
    InvWeaken(INITIAL, EXACT);
    RunSound(INITIAL, cmds);
    var ev := Run(INITIAL, cmds).ev;
    if i < |ev| { assert PairedAt(ev, i); }
  }

  /** Every report of any run, under any sequence number and timestamps, encodes to a
      payload that decodes to it, but for the leaves of a replace ack, which are dropped. */
  lemma ReportsSurviveTheWire(cmds: seq<Inbound>, e: Body, engineSeq: nat, recvTs: int, emitTs: int)
    requires |cmds| <= U64_MAX && e in Run(INITIAL, cmds).ev && e.Report?
    requires engineSeq <= U64_MAX
    requires -0x8000_0000_0000_0000 <= recvTs <= I64_MAX && -0x8000_0000_0000_0000 <= emitTs <= I64_MAX
    ensures var r := e.report;
      Parse(Encode(Stamped(engineSeq, r, recvTs, emitTs)))
        == Ok(Stamped(engineSeq, if r.state.Replaced? then r.(leaves := None) else r, recvTs, emitTs))
  {
    hide Inv, Run, Parse, Encode;
    InitialInv();
    InvWeaken(INITIAL, EXACT);
    RunSound(INITIAL, cmds);
    assert Survives(e.report);
    ParseEncode(Stamped(engineSeq, e.report, recvTs, emitTs));
  }

  /** Whether entered new or replaced, a post-only order never trades, never triggers
      self-trade prevention and never touches another order. */
  lemma PostOnlyOrdersNeverTake(cmds: seq<Inbound>, cmd: Inbound)
    requires (cmd.New? && cmd.order.tif.PostOnly?)
      || (cmd.CancelReplace? && cmd.id in Lookup(After(cmds).book) && Lookup(After(cmds).book)[cmd.id].tif.PostOnly?)
    ensures var s := After(cmds);
      && StepFills(s, cmd) == []
      && OnlyAbout(Handle(s, cmd).ev, if cmd.New? then cmd.order.id else cmd.id)
  {
    hide HandleNew, HandleReplace, NewFills, ReplaceFills, OnlyAbout, Lookup, Run;
    if cmd.New? {
      PostOnlyNewStep(After(cmds), cmd.order);
    } else {
      PostOnlyReplaceStep(After(cmds), cmd.id, cmd.account, cmd.price, cmd.qty);
    }
  }

  /** With at most 1,844,674,407 accounts holding orders on a side, its total fits `u64`. */
  lemma SideTotalFits(cmds: seq<Inbound>, side: Side, accts: set<AccountId>)
    requires Unstranded(cmds) && |accts| <= 1_844_674_407
    requires forall o :: o in After(cmds).book.Of(side) ==> o.account in accts
    ensures Lots(After(cmds).book.Of(side)) <= |accts| * MAX_NOTIONAL_PER_ACCT <= U64_MAX
  {
    var s := After(cmds);
    hide Run, Lots;
    forall a | a in accts ensures Total(s.book.Of(side), ExposureOf(a)) <= MAX_NOTIONAL_PER_ACCT {
      RiskMatchesBook(cmds, a);
    }
    SideBounded(s.book.Of(side), accts);
  }

  /** For every run and every set of orders, the lots they entered are the lots on their
      fill reports, the lots they still rest and the lots removed from them; and there is
      exactly one removal per report that cancels, rejects or supersedes an order, in the
      same order and about the same id. */
  lemma LotsAccounted(cmds: seq<Inbound>, ids: iset<OrderId>)
    requires |cmds| <= U64_MAX
    ensures var out, removals := Run(INITIAL, cmds), RunRemovals(INITIAL, cmds);
      && EnteredLots(cmds, ids) == FilledLots(out.ev, ids) + Held(out.s.book, ids) + RemovedLots(removals, ids)
      && Closings(out.ev) == RemovalIds(removals)
  {
    hide Inv, Run, RunRemovals, FilledLots, Closings, RemovedLots, RemovalIds, EnteredLots;
    InitialInv();
    InvWeaken(INITIAL, EXACT);
    RunBalances(INITIAL, cmds, ids);
    assert Held(EMPTY, ids) == 0;
  }

  /** Over everyone: what was entered rests, was removed, or traded, and every traded lot
      used up two entered ones. */
  lemma EveryLotAccounted(cmds: seq<Inbound>, everyone: iset<OrderId>)
    requires |cmds| <= U64_MAX && forall id: OrderId :: id in everyone
    ensures var out := Run(INITIAL, cmds);
      EnteredLots(cmds, everyone)
        == Lots(out.s.book.bids) + Lots(out.s.book.asks) + 2 * TradedLots(out.ev)
           + RemovedLots(RunRemovals(INITIAL, cmds), everyone)
  {
    hide Inv, Run, RunRemovals, FilledLots, RemovedLots, EnteredLots, TradedLots, Lots, Total;
    var out := Run(INITIAL, cmds);
    InitialInv();
    InvWeaken(INITIAL, EXACT);
    RunSound(INITIAL, cmds);
    LotsAccounted(cmds, everyone);
    EveryFill(out.ev, everyone);
    EveryHeld(out.s.book.bids, everyone);
    EveryHeld(out.s.book.asks, everyone);
  }

  /** An order that a run never cancels, rejects or supersedes has traded, by its fill
      reports, exactly what it entered less what it still rests. */
  lemma OpenOrderBalances(cmds: seq<Inbound>, id: OrderId)
    requires |cmds| <= U64_MAX
    requires forall e :: e in Run(INITIAL, cmds).ev && About(e, id) ==>
        e.report.state !in {Cancelled, Rejected, Replaced}
    ensures FilledLots(Run(INITIAL, cmds).ev, iset{id}) + RestingLots(After(cmds).book, id)
        == EnteredLots(cmds, iset{id})
  {
    hide Inv, Valid, Run, RunRemovals, FilledLots, Closings, RemovalIds, EnteredLots, Held, RestingLots;
    ReachedShortly(cmds);
    InvValid(After(cmds));
    LotsAccounted(cmds, iset{id});
    HeldOne(After(cmds).book, id);
    ClosingsIn(Run(INITIAL, cmds).ev, id);
    NotRemoved(RunRemovals(INITIAL, cmds), id);
  }

  /** After any run, an order whose last report in a step neither cancels nor rejects it
      has its fill reports of the step and its residual add up to the replaced quantity,
      or else to what it rested before and entered now. */
  lemma StepOrderBalances(cmds: seq<Inbound>, cmd: Inbound, id: OrderId)
    requires |cmds| < U64_MAX
    requires var last := LastReport(Step(After(cmds), cmd).ev, id); last.None? || !Terminal(last.value)
    ensures var s := After(cmds);
      var ev := Step(s, cmd).ev;
      FilledLots(ev, iset{id}) + RestingLots(Step(s, cmd).s.book, id) ==
        EnteredBy(cmd, iset{id}) + if ReplacedIn(ev, id) then 0 else RestingLots(s.book, id)
  {
    hide Inv, Run, Step, FilledLots, RestingLots, ReplacedIn, LastReport, EnteredBy;
    ReachedShortly(cmds);
    OrderBalances(After(cmds), cmd, id);
  }

  /** The `i`-th trade print of any run carries trade id `i + 1`. */
  lemma TradeIdsGapFree(cmds: seq<Inbound>)
    requires |cmds| <= U64_MAX
    ensures Numbered(Prints(Run(INITIAL, cmds).ev), 1)
  {
    hide Inv, Run;
    InitialInv();
    InvWeaken(INITIAL, EXACT);
    RunNumbered(INITIAL, cmds);
  }

  /** A run of fewer than 2^63 commands cannot exhaust the 64-bit trade ids. */
  lemma TradeIdsFit(cmds: seq<Inbound>)
    requires |cmds| <= I64_MAX
    ensures After(cmds).nextTrade - 1 <= 2 * |cmds| < U64_MAX
  {
    hide Inv, Run;
    InitialInv();
    InvWeaken(INITIAL, EXACT);
    RunTrades(INITIAL, cmds);
  }

  /** The price band is always centred on the last price printed. */
  lemma BandFollowsPrints(cmds: seq<Inbound>)
    ensures After(cmds).ledger.risk.lastTrade == LastPrice(Run(INITIAL, cmds).ev, None)
  {
    hide Run;
    RunBand(INITIAL, cmds);
  }

  /** Within a step, the trade prints are the walk's fills in order: same id, price and
      quantity, and the side opposite the maker's as aggressor. */
  lemma PrintsFollowWalk(cmds: seq<Inbound>, cmd: Inbound)
    requires |cmds| < U64_MAX
    ensures Prints(Step(After(cmds), cmd).ev) == PrintsOf(StepFills(After(cmds), cmd))
  {
    hide Inv, Run, Step, StepFills;
    ReachedShortly(cmds);
    StepPrints(After(cmds), cmd);
  }

  /** What an admitted new order hears last is decided by the book it meets. */
  lemma NewOrdersHearTheirFate(cmds: seq<Inbound>, m: NewOrder)
    requires Unstranded(cmds) && Decodable(m) && Admitted(After(cmds), m)
    ensures Verdict(LastReport(Handle(After(cmds), New(m)).ev, m.id), After(cmds).book, m)
  {
    hide Inv, Run, HandleNew, Lookup, Admitted, Verdict, LastReport;
    Reached(cmds);
    NewOrderVerdict(After(cmds), m);
  }

  /** The commands of a run whose quantity runs out inside a maker, of account `who` if one
      is named. */
  ghost function PartialSteps(s: EngineState, cmds: seq<Inbound>, who: Option<AccountId> := None): nat
    decreases cmds
  {
    if cmds == [] then 0
    else (if FillsPartly(s, cmds[0], who) then 1 else 0) + PartialSteps(Step(s, cmds[0]).s, cmds[1..], who)
  }

  lemma {:induction false} RunLags(s: EngineState, cmds: seq<Inbound>, who: Option<AccountId>, n: nat)
    requires Inv(s, AtMost(who, n)) && s.book.arrivals + |cmds| <= U64_MAX
    ensures Inv(Run(s, cmds).s, AtMost(who, n + PartialSteps(s, cmds, who)))
    decreases cmds
  {
    hide Inv, Handle, Tail, FillsPartly;
    if cmds != [] {
      HandleInv(s, cmds[0], AtMost(who, n));
      HandleArrivals(s, cmds[0]);
      RunLags(Step(s, cmds[0]).s, cmds[1..], who, n + if FillsPartly(s, cmds[0], who) then 1 else 0);
    }
  }

  /** An account rests at most one order more than the cap for every command of the run
      that fills one of its own makers partly. */
  lemma RestingOrdersBounded(cmds: seq<Inbound>, a: AccountId)
    requires |cmds| <= U64_MAX
    ensures var s, partials := After(cmds), PartialSteps(INITIAL, cmds, Some(a));
      OrderCount(s.book, a) <= s.ledger.risk.StateOf(a).openOrders + partials <= MAX_OPEN_ORDERS_PER_ACCT + partials
  {
    hide Valid, Uncrossed, Lookup, Entries, Run, PartialSteps, OrderCount, Exposure;
    InitialInv();
    InvNarrow(INITIAL, a);
    RunLags(INITIAL, cmds, Some(a), 0);
    assert Accounted(After(cmds).ledger.risk.StateOf(a), After(cmds).book, a,
        AtMost(Some(a), PartialSteps(INITIAL, cmds, Some(a))));
  }

  lemma InvNarrow(s: EngineState, a: AccountId)
    requires Inv(s, EXACT)
    ensures Inv(s, AtMost(Some(a), 0))
  {
    forall x: AccountId ensures Accounted(s.ledger.risk.StateOf(x), s.book, x, AtMost(Some(a), 0)) {
      assert Accounted(s.ledger.risk.StateOf(x), s.book, x, EXACT);
    }
  }

  /** An account none of whose makers a run fills partly has an exact open-order count, and
      its resting orders are within the cap. */
  lemma OpenOrdersExact(cmds: seq<Inbound>, a: AccountId)
    requires |cmds| <= U64_MAX && PartialSteps(INITIAL, cmds, Some(a)) == 0
    ensures var s := After(cmds);
      s.ledger.risk.StateOf(a).openOrders == OrderCount(s.book, a) <= MAX_OPEN_ORDERS_PER_ACCT
  {
    hide Run, PartialSteps;
    ReachedShortly(cmds);
    RestingOrdersBounded(cmds, a);
    RiskMatchesBook(cmds, a);
  }

  // -------------------------------------------------------------------------
  // Priority
  // -------------------------------------------------------------------------

  /** Bids stand in falling and asks in rising price, and at one price in the order in
      which they came to rest. */
  lemma QueuesInPriceTime(cmds: seq<Inbound>, i: nat, j: nat)
    requires Unstranded(cmds) && i < j
    ensures var b := After(cmds).book;
      && (j < |b.bids| ==>
            b.bids[i].price > b.bids[j].price ||
            (b.bids[i].price == b.bids[j].price && b.bids[i].arrival < b.bids[j].arrival))
      && (j < |b.asks| ==>
            b.asks[i].price < b.asks[j].price ||
            (b.asks[i].price == b.asks[j].price && b.asks[i].arrival < b.asks[j].arrival))
      && (j < |b.bids| ==> b.bids[j].arrival <= b.arrivals) && (j < |b.asks| ==> b.asks[j].arrival <= b.arrivals)
  {
    hide Run;
    var b := After(cmds).book;
    Reached(cmds);
    InvValid(After(cmds));
    if j < |b.bids| { assert Ahead(Bid, b.bids[i], b.bids[j]) && b.bids[j] in b.bids; }
    if j < |b.asks| { assert Ahead(Ask, b.asks[i], b.asks[j]) && b.asks[j] in b.asks; }
  }

  /** A market order that is let in trades, unless the best order it meets is its own. */
  lemma MarketOrdersTrade(cmds: seq<Inbound>, m: NewOrder)
    requires m.price.None? && m.orderType.Market? && Admitted(After(cmds), m)
    ensures var q := After(cmds).book.Of(m.side.Opposite());
      q != [] && (StepFills(After(cmds), New(m)) != [] <==> q[0].account != m.account)
  {
    hide Run, Walk;
    MarketReach(After(cmds).book.Of(m.side.Opposite()), NewTaker(m), 0, After(cmds).nextTrade);
  }

  // -------------------------------------------------------------------------
  // The kill switch
  // -------------------------------------------------------------------------

  lemma {:induction false} SwitchFollows(cmds: seq<Inbound>)
    ensures After(cmds).ledger.risk.killSwitch == Halted(cmds)
  {
    hide Run, Step;
    if cmds == [] {
      RunNone(INITIAL);
    } else {
      var before, last := cmds[..|cmds| - 1], cmds[|cmds| - 1];
      assert cmds == before + [last] && [last] + [] == [last];
      SwitchFollows(before);
      RunAppend(INITIAL, before, [last]);
      RunCons(After(before), last, []);
      RunNone(Step(After(before), last).s);
      StepSwitch(After(before), last);
    }
  }

  lemma RunNone(s: EngineState)
    ensures Run(s, []) == Out(s, [])
  {
  }

  lemma {:induction false} StaysHalted(s: EngineState, later: seq<Inbound>)
    requires s.ledger.risk.killSwitch && forall c :: c in later ==> !c.KillSwitchSet?
    ensures Run(s, later).s == s
    ensures forall e :: e in Run(s, later).ev && e.Report? ==> e.report.reject == Some(KillSwitched)
    decreases later
  {
    hide Handle, Tail;
    if later != [] {
      assert later[0] in later;
      HaltedAnswers(s, later[0]);
      TailKinds(s.book, s.book, later[0]);
      StaysHalted(s, later[1..]);
    }
  }

  /** After a run whose last kill-switch command halts, nothing but another one changes the
      state, and every report says that the engine is halted. */
  lemma HaltFreezes(cmds: seq<Inbound>, later: seq<Inbound>)
    requires Halted(cmds) && forall c :: c in later ==> !c.KillSwitchSet?
    ensures Run(After(cmds), later).s == After(cmds)
    ensures forall e :: e in Run(After(cmds), later).ev && e.Report? ==> e.report.reject == Some(KillSwitched)
  {
    hide Run;
    SwitchFollows(cmds);
    StaysHalted(After(cmds), later);
  }

  /** After a run whose last kill-switch command resumes, or that has none, no report says
      that the engine is halted. */
  lemma ResumeResumes(cmds: seq<Inbound>, cmd: Inbound, e: Body)
    requires !Halted(cmds) && e in Step(After(cmds), cmd).ev && e.Report?
    ensures e.report.reject != Some(KillSwitched)
  {
    hide Run, Step;
    SwitchFollows(cmds);
    RunningNeverHalts(After(cmds), cmd, e);
  }

  // -------------------------------------------------------------------------
  // Admission
  // -------------------------------------------------------------------------

  /** After any run a new order is refused up front exactly when the last kill-switch
      command halts; or it is a limit order without a limit, or a market order against an
      empty side; or its limit, or else the best opposite price, is more than five per cent
      off the price last printed; or its account has a thousand open orders, or would exceed
      the notional cap; or it is post-only and meets an order.  The first of these names the
      reason.  Past them, only a reused id or an exhausted counter is refused. */
  lemma NewOrdersRefused(cmds: seq<Inbound>, m: NewOrder)
    requires Unstranded(cmds)
    ensures var s, out := After(cmds), Run(INITIAL, cmds);
      var h := Handle(s, New(m));
      var open := s.ledger.risk.StateOf(m.account).openOrders;
      match NewRefusal(Halted(cmds), LastPrice(out.ev, None), open, s.book, m)
      case Some(reason) =>
        h == Out(s, [Report(ExecReport(m.id, m.account, Rejected, None, None, None, Some(reason), None))])
      case None => Decodable(m) ==>
        forall e :: e in h.ev && e.Report? && e.report.reject.Some? ==>
          && e.report.reject == Some(DuplicateOrderId)
          && (m.id in Lookup(s.book) || s.book.arrivals == U64_MAX)
  {
    hide Inv, Run, HandleNew, NewRefusal, Lookup, LastPrice;
    Reached(cmds);
    SwitchFollows(cmds);
    BandFollowsPrints(cmds);
    NewRefused(After(cmds), m);
  }

  /** The same for replaces: halted; off the band; over the cap by itself; not an order that
      the account rests; post-only and moved to where it meets an order.  Otherwise the
      first message acknowledges it. */
  lemma ReplacesRefused(cmds: seq<Inbound>, id: OrderId, account: AccountId, price: Price, qty: Qty)
    requires |cmds| < U64_MAX
    ensures var s, out := After(cmds), Run(INITIAL, cmds);
      var h := Handle(s, CancelReplace(id, account, price, qty));
      match ReplaceRefusal(Halted(cmds), LastPrice(out.ev, None), s.book, id, account, price, qty)
      case Some(reason) =>
        h == Out(s, [Report(ExecReport(id, account, Rejected, None, None, None, Some(reason), None))])
      case None => h.ev != [] && h.ev[0] == ReplaceAck(id, account, qty)
  {
    hide Inv, Run, HandleReplace, ReplaceRefusal, LastPrice;
    ReachedShortly(cmds);
    SwitchFollows(cmds);
    BandFollowsPrints(cmds);
    ReplaceRefused(After(cmds), id, account, price, qty);
  }

  /** Cancels: refused alike for somebody else's order and for none. */
  lemma CancelsAnswered(cmds: seq<Inbound>, id: OrderId, account: AccountId)
    requires Unstranded(cmds) && !Halted(cmds)
    ensures var s := After(cmds);
      var h := Handle(s, CancelOne(id, account));
      if Owns(s.book, id, account) then
        && h.ev == [Report(ExecReport(id, account, Cancelled, None, None, None, None, Some(UserRequested)))]
        && h.s.book == FlatBook(Without(s.book.bids, {id}), Without(s.book.asks, {id}), s.book.arrivals)
      else
        h == Out(s, [Report(ExecReport(id, account, Rejected, None, None, None, Some(UnknownOrderId), None))])
  {
    hide Inv, Run, HandleCancel, Owns, Without;
    Reached(cmds);
    SwitchFollows(cmds);
    CancelAnswers(After(cmds), id, account);
  }

  // -------------------------------------------------------------------------
  // Names
  // -------------------------------------------------------------------------

  /** Every report about a resting order goes to its owner, unless it refuses the command
      or answers a new order that reuses the id; any other report answers the command. */
  lemma ReportsGoToOwners(cmds: seq<Inbound>, cmd: Inbound, e: Body)
    requires |cmds| < U64_MAX && e in Step(After(cmds), cmd).ev && e.Report?
    ensures var s, r := After(cmds), e.report;
      if r.id in Lookup(s.book) && r.state != Rejected && !Reuses(s, cmd, r.id)
      then r.account == Lookup(s.book)[r.id].account
      else (r.id, r.account) == Sender(cmd) || (Reuses(s, cmd, r.id) && Owns(s.book, r.id, r.account))
  {
    hide Inv, Run, Step, Lookup;
    ReachedShortly(cmds);
    ReportsReachOwners(After(cmds), cmd, e);
  }

  /** Each print of each step names as aggressor the side of the order that came in, and is
      at the price of a maker of another account that rested on the other side; the report
      behind it goes to that maker's owner, the next to the command's account. */
  lemma TradesNamed(cmds: seq<Inbound>, cmd: Inbound, i: nat)
    requires |cmds| < U64_MAX
    requires i < |Step(After(cmds), cmd).ev| && Step(After(cmds), cmd).ev[i].Trade?
    ensures cmd.New? || (cmd.CancelReplace? && Owns(After(cmds).book, cmd.id, cmd.account))
    ensures var s := After(cmds);
      var ev := Step(s, cmd).ev;
      && i + 2 < |ev| && ev[i + 1].Report? && ev[i + 2].Report?
      && ev[i + 1].report.id in Lookup(s.book)
      && var maker := Lookup(s.book)[ev[i + 1].report.id];
      && maker.account == ev[i + 1].report.account != ev[i + 2].report.account
      && maker.price == ev[i].price
      && maker.side != ev[i].aggressor == (if cmd.New? then cmd.order.side else Lookup(s.book)[cmd.id].side)
      && (ev[i + 2].report.id, ev[i + 2].report.account) == Sender(cmd)
  {
    hide Inv, Run, Step, Lookup;
    ReachedShortly(cmds);
    var s := After(cmds);
    TradesAttributed(s, cmd, i);
    if cmd.CancelReplace? {
      MirrorEntry(s, cmd.id);
      InvValid(s);
      RestsUnderItsId(s.book, cmd.id);
    }
  }

  lemma RestsUnderItsId(b: FlatBook, id: OrderId)
    requires Valid(b) && id in Lookup(b)
    ensures Lookup(b)[id].id == id
  {
    LookupFacts(b);
  }

  // -------------------------------------------------------------------------
  // Terms
  // -------------------------------------------------------------------------

  /** The terms last noted for an id from the commands and their reports. */
  ghost function TermsOf(cmds: seq<Inbound>, id: OrderId): Option<OrderTerms> {
    NotedOver(None, INITIAL, cmds, id)
  }

  /** After every run each resting order has the account, side and time in force of the new
      order that was accepted for it, and the price entered or last acknowledged. */
  lemma RestsAsEntered(cmds: seq<Inbound>, id: OrderId)
    requires |cmds| <= U64_MAX && id in Lookup(After(cmds).book)
    ensures var o := Lookup(After(cmds).book)[id];
      TermsOf(cmds, id) == Some(OrderTerms(o.account, o.side, o.price, o.tif))
  {
    hide Inv, Run, NotedOver, Lookup;
    InitialInv();
    InvWeaken(INITIAL, EXACT);
    NothingRests(id);
    RunNotes(INITIAL, cmds, None, id);
  }

  lemma NothingRests(id: OrderId)
    ensures Find(EMPTY, id) == None
  {
  }

  /** An order entered post-only never takes, whatever replaces follow: none of them trades,
      triggers self-trade prevention or touches another order. */
  lemma PostOnlyForLife(cmds: seq<Inbound>, cmd: Inbound)
    requires |cmds| < U64_MAX && cmd.CancelReplace?
    requires TermsOf(cmds, cmd.id).Some? && TermsOf(cmds, cmd.id).value.tif == PostOnly
    ensures StepFills(After(cmds), cmd) == [] && OnlyAbout(Handle(After(cmds), cmd).ev, cmd.id)
  {
    hide Inv, Run, NotedOver, Lookup, HandleReplace, ReplaceFills, OnlyAbout;
    var s := After(cmds);
    ReachedShortly(cmds);
    if cmd.id in Lookup(s.book) {
      RestsAsEntered(cmds, cmd.id);
      PostOnlyReplaceStep(s, cmd.id, cmd.account, cmd.price, cmd.qty);
    } else {
      UnknownReplace(s, cmd.id, cmd.account, cmd.price, cmd.qty);
    }
  }

  lemma UnknownReplace(s: EngineState, id: OrderId, account: AccountId, price: Price, qty: Qty)
    requires id !in Lookup(s.book)
    ensures ReplaceFills(s, id, account, price, qty) == []
    ensures OnlyAbout(HandleReplace(s, id, account, price, qty).ev, id)
  {
    hide Lookup, CheckCancelReplace;
  }

  // -------------------------------------------------------------------------
  // Whole answers
  // -------------------------------------------------------------------------

  /** Everything an admitted new order causes to be said follows from the book it meets. */
  lemma NewOrdersSpeak(cmds: seq<Inbound>, m: NewOrder)
    requires Unstranded(cmds) && Decodable(m) && Admitted(After(cmds), m)
    ensures Handle(After(cmds), New(m)).ev == NewSpeech(After(cmds).book, m, After(cmds).nextTrade)
  {
    hide Inv, Run, HandleNew, Admitted, NewSpeech;
    Reached(cmds);
    NewTranscript(After(cmds), m);
  }

  /** So does everything an acknowledged replace causes to be said. */
  lemma ReplacesSpeak(cmds: seq<Inbound>, id: OrderId, account: AccountId, price: Price, qty: Qty)
    requires |cmds| < U64_MAX
    requires var last := LastPrice(Run(INITIAL, cmds).ev, None);
      ReplaceRefusal(Halted(cmds), last, After(cmds).book, id, account, price, qty).None?
    ensures var s := After(cmds);
      id in Lookup(s.book) &&
      var o := Lookup(s.book)[id];
      Handle(s, CancelReplace(id, account, price, qty)).ev ==
        if price == o.price && qty <= o.qty then [ReplaceAck(id, account, qty)]
        else ReplaceSpeech(s.book, o, price, qty, s.nextTrade)
  {
    hide Inv, Run, HandleReplace, ReplaceRefusal, Lookup, ReplaceSpeech, LastPrice;
    ReachedShortly(cmds);
    SwitchFollows(cmds);
    BandFollowsPrints(cmds);
    ReplaceAnswers(After(cmds), id, account, price, qty);
  }

  /** A step says its answer first, then its level changes, then one quote; a snapshot is
      the whole answer to its request; and the kill switch moves without a word. */
  lemma MessagesInOrder(cmds: seq<Inbound>, cmd: Inbound)
    requires Unstranded(cmds)
    ensures var s := After(cmds);
      var d, answer := Step(s, cmd), Handle(s, cmd).ev;
      && Answers(answer)
      && match cmd
         case KillSwitchSet(halt) =>
           d == Out(s.(ledger := s.ledger.(risk := s.ledger.risk.(killSwitch := halt))), [])
         case SnapshotRequest(_) => answer == [] && |d.ev| == 1 && d.ev[0].Snapshot?
         case _ => d.ev == answer + DeltasOf(d.ev) + [TopOf(d.s.book)]
  {
    hide Inv, Run, HandleNew, HandleCancel, HandleReplace, HandleMassCancel, Rows, Diff, Depth, DeltasOf;
    var s := After(cmds);
    Reached(cmds);
    InvValid(s);
    HandleNoDepth(s, cmd);
    StepDeltas(s, cmd);
    var d, h := Step(s, cmd), Handle(s, cmd);
    var changes := Diff(Rows(s.book), Rows(h.s.book));
    assert h.ev + (changes + [TopOf(h.s.book)]) == h.ev + changes + [TopOf(h.s.book)];
  }

  /** A mass cancel reports each resting order of the account, and no other, in ascending
      id, and leaves everybody else's queues as they were. */
  lemma MassCancelsAnswered(cmds: seq<Inbound>, account: AccountId, id: OrderId)
    requires Unstranded(cmds) && !Halted(cmds)
    ensures var s := After(cmds);
      var h := Handle(s, MassCancelAll(account));
      var e := Report(ExecReport(id, account, Cancelled, None, None, None, None, Some(MassCancelled)));
      && (e in h.ev <==> Owns(s.book, id, account))
      && (forall x :: x in h.ev ==> About(x, if x.Report? then x.report.id else id) && x.report.account == account)
      && (forall i, j :: 0 <= i < j < |h.ev| && h.ev[i].Report? && h.ev[j].Report? ==>
          h.ev[i].report.id < h.ev[j].report.id)
      && h.s.book == FlatBook(Others(s.book.bids, account), Others(s.book.asks, account), s.book.arrivals)
  {
    hide Inv, Run, HandleMassCancel, Owns, Others;
    var s := After(cmds);
    Reached(cmds);
    SwitchFollows(cmds);
    MassCancelAnswers(s, account);
    var ev := HandleMassCancel(s, account).ev;
    forall x | x in ev ensures x.Report? && x.report.account == account && Owns(s.book, x.report.id, account) {
      var i :| 0 <= i < |ev| && ev[i] == x;
    }
  }

  /** A snapshot request is answered under its own id, best prices first, every price once,
      with the total resting there. */
  lemma SnapshotsAnswered(cmds: seq<Inbound>, requestId: nat, p: Price)
    requires Unstranded(cmds)
    ensures var s := After(cmds);
      var d := Step(s, SnapshotRequest(requestId));
      && d.s == s && |d.ev| == 1 && d.ev[0].Snapshot? && d.ev[0].requestId == requestId
      && (forall i, j :: 0 <= i < j < |d.ev[0].bids| ==> d.ev[0].bids[i].price > d.ev[0].bids[j].price)
      && (forall i, j :: 0 <= i < j < |d.ev[0].asks| ==> d.ev[0].asks[i].price < d.ev[0].asks[j].price)
      && RungQty(d.ev[0].bids, p) == Total(s.book.bids, AtPrice(p))
      && RungQty(d.ev[0].asks, p) == Total(s.book.asks, AtPrice(p))
  {
    hide Inv, Valid, Run, Step, RungQty, Total;
    Reached(cmds);
    InvValid(After(cmds));
    SnapshotAnswers(After(cmds), requestId, p);
  }
}
