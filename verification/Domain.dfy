/** Domain vocabulary: the validated integers, the closed enumerations and the
    policy constants every other module speaks in. */
module Domain {

  datatype Option<+T> = None | Some(value: T)

  datatype Result<+T, +E> = Ok(value: T) | Err(error: E)

  const U32_MAX := 0xFFFF_FFFF
  const U64_MAX := 0xFFFF_FFFF_FFFF_FFFF
  const I64_MAX := 0x7FFF_FFFF_FFFF_FFFF

  const PRICE_BAND_BPS := 500
  const MAX_OPEN_ORDERS_PER_ACCT := 1_000
  const MAX_NOTIONAL_PER_ACCT := 10_000_000_000

  /** A strictly positive `i64` tick count (`TICK_SIZE` is one tick). */
  type Price = p: int | 0 < p <= I64_MAX witness 1

  /** A strictly positive `u64` lot count (`LOT_SIZE` is one lot). */
  type Qty = q: int | 0 < q <= U64_MAX witness 1

  type OrderId = i: int | 0 < i <= U64_MAX witness 1

  type AccountId = a: int | 0 < a <= U32_MAX witness 1

  datatype Side = Bid | Ask
  {
    function Opposite(): Side {
      match this
      case Bid => Ask
      case Ask => Bid
    }
  }

  datatype Tif = Gtc | Ioc | PostOnly

  datatype OrderType = Limit | Market

  datatype RejectReason =
    | KillSwitched | InvalidPrice | InvalidQty | TickViolation | LotViolation
    | PriceBand | MaxOpenOrders | MaxNotional | UnknownOrderId | DuplicateOrderId
    | PostOnlyWouldCross | SelfTradePrevented | MarketOrderInEmptyBook
    | UnknownAccount | MalformedMessage

  datatype CancelReason =
    | UserRequested | MassCancelled | IocRemaining | SelfTrade | Superseded

  datatype ExecState = Accepted | Rejected | PartiallyFilled | Filled | Cancelled | Replaced

  /** Aggregate quantity at one price. */
  datatype Rung = Rung(price: Price, qty: nat)

  /** `Qty::new(n).ok()`. */
  function QtyOf(n: nat): Option<Qty> {
    if 0 < n <= U64_MAX then Some(n) else None
  }

  /** Unsigned `saturating_sub`. */
  function SatSub(a: nat, b: nat): nat {
    if a <= b then 0 else a - b
  }
}
