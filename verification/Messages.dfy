/** Inbound commands and outbound messages, after wire decode and before encode. */
module Messages {
  import opened Domain

  datatype NewOrder = NewOrder(
    id: OrderId, account: AccountId, side: Side, orderType: OrderType, tif: Tif,
    price: Option<Price>, qty: Qty)

  datatype Inbound =
    | New(order: NewOrder)
    | CancelOne(id: OrderId, account: AccountId)
    | CancelReplace(id: OrderId, account: AccountId, price: Price, qty: Qty)
    | MassCancelAll(account: AccountId)
    | KillSwitchSet(halt: bool)
    | SnapshotRequest(requestId: nat)

  /** What the wire decoder can produce: exactly the limit orders carry a price. */
  predicate Decodable(m: NewOrder) { m.orderType.Limit? <==> m.price.Some? }

  /** An execution report without its sequence number and timestamps. */
  datatype ExecReport = ExecReport(
    id: OrderId, account: AccountId, state: ExecState,
    fillPrice: Option<Price>, fillQty: Option<Qty>, leaves: Option<Qty>,
    reject: Option<RejectReason>, cancel: Option<CancelReason>)

  datatype Body =
    | Report(report: ExecReport)
    | Trade(tradeId: nat, price: Price, qty: Qty, aggressor: Side)
    | Delta(side: Side, price: Price, newQty: nat)
    | Top(bid: Option<Rung>, ask: Option<Rung>)
    | Snapshot(requestId: nat, bids: seq<Rung>, asks: seq<Rung>)

  /** A message as it leaves the engine. */
  datatype Outbound = Outbound(engineSeq: nat, body: Body)

  function RejectedReport(id: OrderId, account: AccountId, reason: RejectReason): Body {
    Report(ExecReport(id, account, Rejected, None, None, None, Some(reason), None))
  }

  function AcceptedReport(id: OrderId, account: AccountId, leaves: Qty): Body {
    Report(ExecReport(id, account, Accepted, None, None, Some(leaves), None, None))
  }

  function CancelledReport(id: OrderId, account: AccountId, reason: CancelReason): Body {
    Report(ExecReport(id, account, Cancelled, None, None, None, None, Some(reason)))
  }

  function ReplacedReport(id: OrderId, account: AccountId, qty: Qty): Body {
    Report(ExecReport(id, account, Replaced, None, None, Some(qty), None, Some(Superseded)))
  }

  function FillReport(
    id: OrderId, account: AccountId, state: ExecState, price: Price, qty: Qty, leaves: Option<Qty>): Body
  {
    Report(ExecReport(id, account, state, Some(price), Some(qty), leaves, None, None))
  }
}
