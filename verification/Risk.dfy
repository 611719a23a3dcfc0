/** Pre-trade risk: kill switch, price band, and per-account open-order and notional caps. */
module Risk {
  import opened Domain
  import opened Messages

  datatype AccountState = AccountState(openOrders: nat, notional: nat)

  const NO_ORDERS := AccountState(0, 0)

  /** The risk state as a value. */
  datatype RiskView = RiskView(
    killSwitch: bool, accounts: map<AccountId, AccountState>, lastTrade: Option<Price>)
  {
    function StateOf(a: AccountId): AccountState {
      if a in accounts then accounts[a] else NO_ORDERS
    }
  }

  function NotionalOf(price: Price, qty: Qty): nat { price * qty }

  /** Reject reason of the band check, in the division-free form the engine computes. */
  function CheckPriceBand(price: Price, last: Option<Price>): Option<RejectReason> {
    if last.None? then None
    else
      var diff := if price < last.value then last.value - price else price - last.value;
      if diff * 10_000 > last.value * PRICE_BAND_BPS then Some(PriceBand) else None
  }

  /** Both caps, for one more order of the given notional. */
  function CheckCaps(s: AccountState, notional: nat): Option<RejectReason> {
    if s.openOrders + 1 > MAX_OPEN_ORDERS_PER_ACCT then Some(MaxOpenOrders)
    else if s.notional + notional > MAX_NOTIONAL_PER_ACCT then Some(MaxNotional)
    else None
  }

  function CheckNewOrder(r: RiskView, m: NewOrder, bestOpposite: Option<Price>): Option<RejectReason> {
    if r.killSwitch then Some(KillSwitched)
    else if m.orderType.Limit? && m.price.None? then Some(MalformedMessage)
    else if m.orderType.Market? && bestOpposite.None? then Some(MarketOrderInEmptyBook)
    else
      var price := if m.orderType.Limit? then m.price.value else bestOpposite.value;
      match CheckPriceBand(price, r.lastTrade)
      case Some(reason) => Some(reason)
      case None => CheckCaps(r.StateOf(m.account), NotionalOf(price, m.qty))
  }

  function CheckCancelReplace(r: RiskView, price: Price, qty: Qty): Option<RejectReason> {
    if r.killSwitch then Some(KillSwitched)
    else
      match CheckPriceBand(price, r.lastTrade)
      case Some(reason) => Some(reason)
      case None => if NotionalOf(price, qty) > MAX_NOTIONAL_PER_ACCT then Some(MaxNotional) else None
  }

  /** A refusal still leaves a default entry behind for a new account. */
  function OnOrderResting(r: RiskView, a: AccountId, notional: nat): RiskView {
    var s := r.StateOf(a);
    if CheckCaps(s, notional).Some? then r.(accounts := r.accounts[a := s])
    else r.(accounts := r.accounts[a := AccountState(s.openOrders + 1, s.notional + notional)])
  }

  function OnOrderRemoved(r: RiskView, a: AccountId, notional: nat): RiskView {
    if a !in r.accounts then r
    else
      var s := AccountState(SatSub(r.accounts[a].openOrders, 1), SatSub(r.accounts[a].notional, notional));
      if s == NO_ORDERS then r.(accounts := r.accounts - {a}) else r.(accounts := r.accounts[a := s])
  }

  function OnFill(r: RiskView, price: Price): RiskView { r.(lastTrade := Some(price)) }

  // -------------------------------------------------------------------------
  // Laws
  // -------------------------------------------------------------------------

  /** The division-free test is the rational one: accepted exactly when the price is
      within five per cent of the last trade. */
  lemma BandIsRational(price: Price, last: Price)
    ensures CheckPriceBand(price, Some(last)).None? <==>
      0.95 * last as real <= price as real <= 1.05 * last as real
  {
    var p, r := price as real, last as real;
    assert CheckPriceBand(price, Some(last)).None? <==> 0 <= 20 * (price - last) + last && 20 * (price - last) <= last;
    assert (20 * (price - last)) as real == 20.0 * (p - r);
  }

  /** The `u128` products of the band check cannot overflow. */
  lemma BandFits(price: Price, last: Price)
    ensures price * 10_000 < 0x1_0000_0000_0000_0000_0000_0000_0000_0000
    ensures (last - price) * 10_000 < 0x1_0000_0000_0000_0000_0000_0000_0000_0000
    ensures last * PRICE_BAND_BPS < 0x1_0000_0000_0000_0000_0000_0000_0000_0000
  {
  }

  /** Resting and removing the same notional cancel out on every account's notional. */
  lemma RestThenRemove(r: RiskView, a: AccountId, notional: nat, c: AccountId)
    requires CheckCaps(r.StateOf(a), notional).None?
    ensures OnOrderRemoved(OnOrderResting(r, a, notional), a, notional).StateOf(c) == r.StateOf(c)
  {
  }

  /** The imperative risk state. */
  class RiskState {
    var killSwitch: bool
    var perAccount: map<AccountId, AccountState>
    var lastTradePrice: Option<Price>

    function View(): RiskView
      reads this
    {
      RiskView(killSwitch, perAccount, lastTradePrice)
    }

    constructor ()
      ensures View() == RiskView(false, map[], None)
    {
      killSwitch, perAccount, lastTradePrice := false, map[], None;
    }

    method SetKillSwitch(engaged: bool)
      modifies this
      ensures View() == old(View()).(killSwitch := engaged)
    {
      killSwitch := engaged;
    }

    method RecordFill(price: Price)
      modifies this
      ensures View() == OnFill(old(View()), price)
    {
      lastTradePrice := Some(price);
    }

    method OrderResting(a: AccountId, notional: nat) returns (error: Option<RejectReason>)
      modifies this
      ensures error == CheckCaps(old(View()).StateOf(a), notional)
      ensures View() == OnOrderResting(old(View()), a, notional)
    {
      if a !in perAccount { perAccount := perAccount[a := NO_ORDERS]; }
      var entry := perAccount[a];
      var newOpen := entry.openOrders + 1;
      if newOpen > MAX_OPEN_ORDERS_PER_ACCT { return Some(MaxOpenOrders); }
      var newNotional := entry.notional + notional;
      if newNotional > MAX_NOTIONAL_PER_ACCT { return Some(MaxNotional); }
      perAccount := perAccount[a := AccountState(newOpen, newNotional)];
      return None;
    }

    method OrderRemoved(a: AccountId, notional: nat)
      modifies this
      ensures View() == OnOrderRemoved(old(View()), a, notional)
    {
      if a in perAccount {
        var entry := perAccount[a];
        entry := entry.(openOrders := SatSub(entry.openOrders, 1));
        entry := entry.(notional := SatSub(entry.notional, notional));
        perAccount := perAccount[a := entry];
        if entry.openOrders == 0 && entry.notional == 0 {
          perAccount := perAccount - {a};
        }
      }
    }
  }
}
