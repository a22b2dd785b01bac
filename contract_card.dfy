/**
 * The contract card (src/trader/src/AppV2/Components/ContractCard/contract-card.tsx): the
 * values it derives from a contract, and the component state its buttons change.
 */
module ContractCard {
  import opened Wrappers
  import opened Contracts

  /** The risk-management tags: take profit, stop loss, deal cancellation. */
  datatype RiskLabel = TP | SL | DC

  /** The position of each tag in the order the card pushes them. */
  function Rank(tag: RiskLabel): (r: nat)
    ensures r < 3
  {
    match tag
    case TP => 0
    case SL => 1
    case DC => 2
  }

  /** `getRiskManagementLabels`: push TP, SL and DC, each when it applies. */
  method GetRiskManagementLabels(info: ContractInfo, validToCancel: bool) returns (labels: seq<RiskLabel>)
    ensures TP in labels <==> HasTakeProfit(info)
    ensures SL in labels <==> HasStopLoss(info)
    ensures DC in labels <==> validToCancel
    ensures forall i, j :: 0 <= i < j < |labels| ==> Rank(labels[i]) < Rank(labels[j])
    ensures |labels| <= 3
  {
    labels := [];
    if HasTakeProfit(info) {
      labels := labels + [TP];
    }
    if HasStopLoss(info) {
      labels := labels + [SL];
    }
    if validToCancel {
      labels := labels + [DC];
    }
  }

  /**
   * `isSold`: the contract has a sell time or has ended. A `sell_time` of 0 is falsy, so it
   * counts as no sell time.
   */
  function IsSold(info: ContractInfo, helpers: SharedHelpers): (r: bool)
    ensures helpers.isEnded(info) ==> r
    ensures !helpers.isEnded(info) ==> (r <==> TruthyNumber(info.sell_time))
  {
    TruthyNumber(info.sell_time) || helpers.isEnded(info)
  }

  /** `validToSell`: never while a sell is already requested. */
  function ValidToSell(info: ContractInfo, isSellRequested: bool, helpers: SharedHelpers): (r: bool)
    ensures isSellRequested ==> !r
    ensures !isSellRequested ==> (r <==> helpers.isValidToSell(info))
  {
    helpers.isValidToSell(info) && !isSellRequested
  }

  /**
   * `show_status_timer_tag`: hidden exactly for a multiplier on a non-crypto underlying
   * (a contract without automatic expiry) that is still not sold.
   */
  function ShowStatusTimerTag(info: ContractInfo, helpers: SharedHelpers): (r: bool)
    ensures !r <==> helpers.isMultiplierContract(info.contract_type) &&
                    !helpers.isCryptoContract(info.underlying) && !IsSold(info, helpers)
  {
    var hasNoAutoExpiry := helpers.isMultiplierContract(info.contract_type) && !helpers.isCryptoContract(info.underlying);
    !hasNoAutoExpiry || (hasNoAutoExpiry && IsSold(info, helpers))
  }

  /** `show_risk_management_labels`: some tag to show, on a contract that is not sold. */
  function ShowRiskManagementLabels(labels: seq<RiskLabel>, isSold: bool): (r: bool)
    ensures isSold ==> !r
    ensures !isSold ==> (r <==> exists tag :: tag in labels)
  {
    if |labels| == 0 then false
    else
      assert labels[0] in labels;
      !isSold
  }

  /** Once the contract is sold, the card drops its risk tags and shows the status tag. */
  lemma SoldCardShowsStatusOnly(info: ContractInfo, helpers: SharedHelpers, labels: seq<RiskLabel>)
    requires IsSold(info, helpers)
    ensures !ShowRiskManagementLabels(labels, IsSold(info, helpers))
    ensures ShowStatusTimerTag(info, helpers)
  {
  }

  /** What the card shows; absent when the card renders nothing. */
  datatype CardView = CardView(
    labels: seq<RiskLabel>,
    showRiskManagementLabels: bool,
    isSold: bool,
    validToCancel: bool,
    validToSell: bool,
    showStatusTimerTag: bool)

  /** The card's derivations in source order, ending in the early `return null`. */
  method RenderContractCard(info: ContractInfo, isSellRequested: bool, helpers: SharedHelpers) returns (view: Option<CardView>)
    ensures view.None? <==> !TruthyString(info.contract_type)
    ensures view.Some? ==>
      && (view.value.isSold <==> TruthyNumber(info.sell_time) || helpers.isEnded(info))
      && (TP in view.value.labels <==> HasTakeProfit(info))
      && (SL in view.value.labels <==> HasStopLoss(info))
      && (DC in view.value.labels <==> helpers.isValidToCancel(info))
      && (forall i, j :: 0 <= i < j < |view.value.labels| ==> Rank(view.value.labels[i]) < Rank(view.value.labels[j]))
      && (view.value.showRiskManagementLabels <==> view.value.labels != [] && !view.value.isSold)
      && view.value.validToCancel == helpers.isValidToCancel(info)
      && (view.value.validToSell <==> helpers.isValidToSell(info) && !isSellRequested)
      && (!view.value.showStatusTimerTag <==>
            helpers.isMultiplierContract(info.contract_type) && !helpers.isCryptoContract(info.underlying) && !view.value.isSold)
  {
    var isSold := IsSold(info, helpers);
    var validToCancel := helpers.isValidToCancel(info);
    var validToSell := ValidToSell(info, isSellRequested, helpers);
    var showStatusTimerTag := ShowStatusTimerTag(info, helpers);
    var labels := GetRiskManagementLabels(info, validToCancel);
    var showLabels := ShowRiskManagementLabels(labels, isSold);
    if !TruthyString(info.contract_type) {
      return None;
    }
    view := Some(CardView(labels, showLabels, isSold, validToCancel, validToSell, showStatusTimerTag));
  }

  /** Which optional callback `handleClose` calls. */
  datatype CardCallback = OnCancel | OnClose

  /** The card's component state (`useState` values). */
  class ContractCardState {
    var isDeleted: bool
    var isClosing: bool
    var isCanceling: bool
    var shouldShowButtons: bool

    constructor ()
      ensures !isDeleted && !isClosing && !isCanceling && !shouldShowButtons
    {
      isDeleted, isClosing, isCanceling, shouldShowButtons := false, false, false, false;
    }

    /** `isCancelButtonPressed`: a cancel is under way for a requested sell. */
    predicate IsCancelButtonPressed(isSellRequested: bool)
      reads this
      ensures IsCancelButtonPressed(isSellRequested) ==> isSellRequested && isCanceling
    {
      isSellRequested && isCanceling
    }

    /** `isCloseButtonPressed`: a close is under way for a requested sell. */
    predicate IsCloseButtonPressed(isSellRequested: bool)
      reads this
      ensures IsCloseButtonPressed(isSellRequested) ==> isSellRequested && isClosing
    {
      isSellRequested && isClosing
    }

    /**
     * `handleClose`: with `shouldCancel` call `onCancel` if given and mark canceling,
     * otherwise call `onClose` if given and mark closing.
     */
    method HandleClose(shouldCancel: bool, hasOnCancel: bool, hasOnClose: bool) returns (called: Option<CardCallback>)
      modifies this
      ensures shouldCancel ==> isCanceling && isClosing == old(isClosing)
      ensures !shouldCancel ==> isClosing && isCanceling == old(isCanceling)
      ensures isDeleted == old(isDeleted) && shouldShowButtons == old(shouldShowButtons)
      ensures called.Some? <==> (if shouldCancel then hasOnCancel else hasOnClose)
      ensures called.Some? ==> called.value == (if shouldCancel then OnCancel else OnClose)
    {
      called := None;
      if shouldCancel {
        if hasOnCancel {
          called := Some(OnCancel);
        }
        isCanceling := true;
      } else {
        if hasOnClose {
          called := Some(OnClose);
        }
        isClosing := true;
      }
    }

    /** The effect that marks a card with action buttons deleted once its contract is sold. */
    method MarkDeletedWhenSold(isSold: bool, hasActionButtons: bool)
      modifies this
      ensures isDeleted == (old(isDeleted) || (isSold && hasActionButtons))
      ensures isClosing == old(isClosing) && isCanceling == old(isCanceling)
      ensures shouldShowButtons == old(shouldShowButtons)
    {
      if isSold && hasActionButtons {
        isDeleted := true;
      }
    }
  }
}
