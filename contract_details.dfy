/**
 * The contract-details screen (src/trader/src/AppV2/Containers/ContractDetails/contract-details.tsx):
 * the take-profit update history, sorted newest first, and the visibility rules of the
 * screen's sections and buttons.
 */
module ContractDetails {
  import opened Wrappers
  import opened Contracts

  /** One entry of `contract_update_history`; `order_date` is an epoch time. */
  datatype UpdateRecord = UpdateRecord(order_date: int, order_type: string, display_name: string, order_amount: Option<real>)

  /** `order_date` never increases along the sequence. */
  predicate NewestFirst(s: seq<UpdateRecord>)
  {
    forall i, j :: 0 <= i < j < |s| ==> s[i].order_date >= s[j].order_date
  }

  method Swap(a: array<UpdateRecord>, i: nat, j: nat)
    requires i < a.Length && j < a.Length
    modifies a
    ensures a[i] == old(a[j]) && a[j] == old(a[i])
    ensures forall k :: 0 <= k < a.Length && k != i && k != j ==> a[k] == old(a[k])
    ensures multiset(a[..]) == multiset(old(a[..]))
  {
    a[i], a[j] := a[j], a[i];
  }

  /**
   * `getSortedUpdateHistory`: sorts the history in place by the comparator
   * `b.order_date - a.order_date`, i.e. newest first (an insertion sort, which like
   * `Array.prototype.sort` keeps equal dates in their order).
   */
  method GetSortedUpdateHistory(history: array<UpdateRecord>)
    modifies history
    ensures NewestFirst(history[..])
    ensures multiset(history[..]) == multiset(old(history[..]))
  {
    var i := 0;
    while i < history.Length
      invariant 0 <= i <= history.Length
      invariant forall p, q :: 0 <= p < q < i ==> history[p].order_date >= history[q].order_date
      invariant multiset(history[..]) == multiset(old(history[..]))
    {
      var j := i;
      while j > 0 && history[j - 1].order_date < history[j].order_date
        invariant 0 <= j <= i < history.Length
        invariant forall p, q :: 0 <= p < q <= i && p != j && q != j ==> history[p].order_date >= history[q].order_date
        invariant forall q :: j < q <= i ==> history[j].order_date > history[q].order_date
        invariant 0 < j < i ==> history[j - 1].order_date >= history[j + 1].order_date
        invariant multiset(history[..]) == multiset(old(history[..]))
      {
        Swap(history, j - 1, j);
        j := j - 1;
      }
      i := i + 1;
    }
  }

  /** The per-contract-type screen settings (`getContractDetailsConfig`). */
  datatype DetailsConfig = DetailsConfig(
    isTakeProfitVisible: bool,
    isStopLossVisible: bool,
    isTpHistoryVisible: bool,
    isDealCancellationVisible: bool)

  /** `contract_type ?? ''`. */
  function ContractTypeOrEmpty(info: ContractInfo): string
  {
    if info.contract_type.Some? then info.contract_type.value else ""
  }

  /** `showCancelButton`: a multiplier that can still be cancelled. */
  function ShowCancelButton(info: ContractInfo, helpers: SharedHelpers): (r: bool)
    ensures !helpers.isMultiplierContract(info.contract_type) ==> !r
    ensures helpers.isMultiplierContract(info.contract_type) ==> (r <==> helpers.isValidToCancel(info))
  {
    helpers.isMultiplierContract(info.contract_type) && helpers.isValidToCancel(info)
  }

  /** `shouldShowSell`: the contract has entered and is open. */
  function ShouldShowSell(info: ContractInfo, helpers: SharedHelpers): (r: bool)
    ensures !helpers.isOpen(info) ==> !r
    ensures helpers.isOpen(info) ==> (r <==> helpers.hasContractEntered(info))
  {
    helpers.hasContractEntered(info) && helpers.isOpen(info)
  }

  /**
   * `showRiskManagement`: the general rule, replaced for accumulators by "open with a limit
   * order".
   */
  function ShowRiskManagement(info: ContractInfo, helpers: SharedHelpers, detailsConfig: string -> DetailsConfig): (r: bool)
    ensures !helpers.isOpen(info) ==> !r
    ensures helpers.isAccumulatorContract(info.contract_type) ==>
      (r <==> helpers.isOpen(info) && info.limit_order.Some?)
    ensures !helpers.isAccumulatorContract(info.contract_type) ==>
      (r <==> helpers.isOpen(info) &&
              (detailsConfig(ContractTypeOrEmpty(info)).isTakeProfitVisible || detailsConfig(ContractTypeOrEmpty(info)).isStopLossVisible) &&
              (helpers.isValidToSell(info) || detailsConfig(ContractTypeOrEmpty(info)).isDealCancellationVisible))
  {
    var config := detailsConfig(ContractTypeOrEmpty(info));
    var canSell := helpers.isValidToSell(info);
    var general := helpers.isOpen(info) && (config.isTakeProfitVisible || config.isStopLossVisible) &&
                   (canSell || config.isDealCancellationVisible);
    if helpers.isAccumulatorContract(info.contract_type) then helpers.isOpen(info) && info.limit_order.Some?
    else general
  }

  /** For an accumulator, the screen settings and sellability play no part. */
  lemma AccumulatorIgnoresConfig(info: ContractInfo, helpers: SharedHelpers, c1: string -> DetailsConfig, c2: string -> DetailsConfig)
    requires helpers.isAccumulatorContract(info.contract_type)
    ensures ShowRiskManagement(info, helpers, c1) == ShowRiskManagement(info, helpers, c2)
  {
  }

  /** The class-name flags of the screen's container and whether the footer is shown. */
  datatype Layout = Layout(twoButtons: bool, oneButton: bool, showFooter: bool)

  function LayoutOf(info: ContractInfo, helpers: SharedHelpers): (layout: Layout)
    ensures !(layout.twoButtons && layout.oneButton)
    ensures layout.twoButtons || layout.oneButton <==> helpers.hasContractEntered(info) && helpers.isOpen(info)
    ensures layout.twoButtons <==>
      helpers.hasContractEntered(info) && helpers.isOpen(info) &&
      helpers.isMultiplierContract(info.contract_type) && helpers.isValidToCancel(info)
    ensures layout.showFooter <==> layout.twoButtons || layout.oneButton
  {
    var shouldShowSell := ShouldShowSell(info, helpers);
    var showCancelButton := ShowCancelButton(info, helpers);
    Layout(shouldShowSell && showCancelButton, shouldShowSell && !showCancelButton, shouldShowSell)
  }

  /** The take-profit history section needs the setting and at least one update. */
  function ShowTakeProfitHistory(info: ContractInfo, detailsConfig: string -> DetailsConfig, historyLength: nat): (r: bool)
    ensures historyLength == 0 ==> !r
    ensures historyLength > 0 ==> (r <==> detailsConfig(ContractTypeOrEmpty(info)).isTpHistoryVisible)
  {
    detailsConfig(ContractTypeOrEmpty(info)).isTpHistoryVisible && historyLength > 0
  }

  /** `requestUpdatedHistory` asks for the history only with a truthy contract id. */
  function ShouldRequestHistory(id: Option<int>): (r: bool)
    ensures id.None? ==> !r
    ensures id.Some? ==> (r <==> id.value != 0)
  {
    TruthyNumber(id)
  }
}
