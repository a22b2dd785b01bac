/**
 * The contract record shared by the contract card and the contract-details screen, and the
 * shared helpers the two read it through (`isEnded`, `isValidToSell`, ... from the shared
 * package). The helpers' own code is not part of this model: they are function values,
 * so every property proved holds for every implementation of them.
 */
module Contracts {
  import opened Wrappers

  datatype LimitOrderEntry = LimitOrderEntry(order_amount: Option<real>)

  datatype LimitOrder = LimitOrder(take_profit: Option<LimitOrderEntry>, stop_loss: Option<LimitOrderEntry>)

  /** The fields of a contract that the card and the details screen decide on. */
  datatype ContractInfo = ContractInfo(
    contract_id: Option<int>,
    contract_type: Option<string>,
    sell_time: Option<int>,
    underlying: Option<string>,
    limit_order: Option<LimitOrder>)

  /** The shared predicates over a contract, as parameters. */
  datatype SharedHelpers = SharedHelpers(
    isEnded: ContractInfo -> bool,
    isOpen: ContractInfo -> bool,
    hasContractEntered: ContractInfo -> bool,
    isValidToCancel: ContractInfo -> bool,
    isValidToSell: ContractInfo -> bool,
    isMultiplierContract: Option<string> -> bool,
    isAccumulatorContract: Option<string> -> bool,
    isCryptoContract: Option<string> -> bool)

  /** JavaScript truthiness of an optional number: present and not zero. */
  predicate TruthyNumber(n: Option<int>)
  {
    n.Some? && n.value != 0
  }

  /** JavaScript truthiness of an optional amount: present and not zero. */
  predicate TruthyAmount(amount: Option<real>)
  {
    amount.Some? && amount.value != 0.0
  }

  /** JavaScript truthiness of an optional string: present and not empty. */
  predicate TruthyString(s: Option<string>)
  {
    s.Some? && s.value != ""
  }

  /** `take_profit?.order_amount` is truthy, reading a missing limit order as `{ take_profit: {} }`. */
  predicate HasTakeProfit(info: ContractInfo)
  {
    info.limit_order.Some? && info.limit_order.value.take_profit.Some? &&
    TruthyAmount(info.limit_order.value.take_profit.value.order_amount)
  }

  /** `stop_loss?.order_amount` is truthy, reading a missing limit order as `{ stop_loss: {} }`. */
  predicate HasStopLoss(info: ContractInfo)
  {
    info.limit_order.Some? && info.limit_order.value.stop_loss.Some? &&
    TruthyAmount(info.limit_order.value.stop_loss.value.order_amount)
  }
}
