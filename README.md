# Trading UI decision rules, in Dafny

This project models the decision logic of four parts of the DTrader web client and proves
properties of it.

- **Platform detection** (`Platform`). Three routines over the routing history:
  - `isNavigationFromPlatform` walks the routing history. It decides whether the user came
    from a platform: a route whose first path segment matches the platform route's.
  - `isNavigationFromExternalPlatform` compares the first visits of an external platform's
    route and of the home route.
  - `getActivePlatform` names the active platform.

  The parent-path helper yields `false`, `undefined` or a segment string. It is the
  datatype `ParentPath`, so the source's `===` comparisons are datatype equality.
- **Contracts-for selection** (`ContractsFor`). These are the rules of the `useContractsFor`
  hook:
  - which symbol the request names, and when it may be sent;
  - how a `contracts_for` response is folded into the available contract types and the
    trade-type categories;
  - how the current contract type falls back to the first offered trade type;
  - which change notifications are made.

  The response effect is a method. It is proved against a fold written as functions
  (`ExpectedTypes`, `FillSlots`, `StakesFor`), whose meaning is proved in lemmas. The meaning:
  - a type becomes available exactly when some contract is filed under it;
  - each available type keeps the stake of the last such contract.
- **Contract card** (`ContractCard`). The risk-management tags (TP, SL, DC) and the card's
  display flags. The card's component state is the class `ContractCardState`, whose
  methods are the close/cancel handler and the "deleted when sold" effect.
- **Contract details** (`ContractDetails`). Two things:
  - the in-place sort of the take-profit update history, newest first, as an array method
    with a sortedness and permutation contract;
  - the visibility rules for the risk-management section, the cancel button and the
    footer, including the accumulator override.

The shared helpers the screens call (`isEnded`, `isOpen`, `isValidToSell`,
`isMultiplierContract`, ...) are function values in `Contracts.SharedHelpers`. So the
properties hold for every implementation of them. The same holds for
`checkContractTypePrefix`, `getTradeTypesList` and `getContractDetailsConfig`, which are
function parameters. `routes.index` is the parameter `home`, and `platform_name.DTrader` is
the parameter `dtraderName`.

## Routing-history order

The walk and the first-visit comparison follow the code, in index order.
`isNavigationFromExternalPlatform` answers `true` when the external route's first index is
below the home route's first index. `Platform.ExternalExamples` shows three cases:

- `[/smarttrader, /]` gives `true`;
- `[/smarttrader]` gives `true`;
- `[/, /smarttrader]` gives `false`.

The function's own comment says the user "has not visited Dtrader after it". That reading
needs the newest visit at index 0. If the log is read oldest-first, the first example
contradicts it. The model keeps the code's comparison and says nothing about the order in
which the router stores the log.

## Model

| member | source | states |
|---|---|---|
| Platform.ParentPathOf | src/shared/src/utils/platform/platform.ts:54 | the parent path is `false` exactly for a path starting with "http", `undefined` exactly for a non-URL path without '/', and a segment otherwise |
| Platform.SegmentFollowsFirstSlash | src/shared/src/utils/platform/platform.ts:54 | the segment is the whole text between the first '/' and the next '/' (or the end): `split('/')[1]` |
| Platform.ParentPathOfRelative | src/shared/src/utils/platform/platform.ts:54 | for "/seg" followed by nothing or by "/...", the parent path is `seg`: splitting inverts building the path |
| Platform.IsNavigationFromPlatform | src/shared/src/utils/platform/platform.ts:48-86 | the loop answers `true` exactly when some entry matches the platform (same parent path, or the same pathname when parent paths are ignored) and no earlier entry ends the walk (a home-segment entry whose parent path differs from the next entry's) |
| Platform.GetActivePlatform | src/shared/src/utils/platform/platform.ts:35-42 | the name is empty exactly when the history comes from the root route '/', and the DTrader name otherwise |
| Platform.FindIndex | src/shared/src/utils/platform/platform.ts:94-95 | `findIndex` by pathname: -1 exactly when no entry has the pathname, otherwise the first entry that has it |
| Platform.IsNavigationFromExternalPlatform | src/shared/src/utils/platform/platform.ts:88-104 | `true` exactly when some entry is the platform route and no entry up to and including it is the home route |
| Platform.EmptyHistoryNotFromPlatform | src/shared/src/utils/platform/platform.ts:53-85 | an empty history never comes from a platform |
| Platform.FirstEntryInPlatform | src/shared/src/utils/platform/platform.ts:56-65 | a first entry in the platform's parent path decides `true`, whatever follows |
| Platform.FromPlatformIsSound | src/shared/src/utils/platform/platform.ts:61-65 | a `true` answer is backed by an entry with the platform's parent path, or with the exact platform pathname when parent paths are ignored |
| Platform.SingleEntryHistory | src/shared/src/utils/platform/platform.ts:61-67 | a one-entry history comes from the platform exactly when its entry matches |
| Platform.WalkStopsAtHomeBoundary | src/shared/src/utils/platform/platform.ts:71-79 | once the walk reaches, before any match, a home-segment entry that differs from its successor, the answer is `false` |
| Platform.WalkSkipsFirstEntry | src/shared/src/utils/platform/platform.ts:66-82 | a non-matching first entry that shares its parent path with the next entry, or is not in the home segment, is skipped: the answer is that of the rest of the history |
| Platform.ExternalNeedsVisit | src/shared/src/utils/platform/platform.ts:94-103 | without a visit to the platform route the answer is `false` |
| Platform.ExternalComparesFirstVisits | src/shared/src/utils/platform/platform.ts:94-100 | with the platform route visited: `true` if the home route never occurs, else `true` exactly when the platform's first index is below the home route's |
| Platform.ExternalNeverFromHome | src/shared/src/utils/platform/platform.ts:94-100 | the home route is never its own external platform |
| Platform.ParentPathExamples | src/shared/src/utils/platform/platform.ts:54 | "/" has parent path "" and "/reports" has "reports" |
| Platform.AbsoluteUrlExample | src/shared/src/utils/platform/platform.ts:54 | an "https://..." path has the parent path `false` |
| Platform.PlatformExamples | src/shared/src/utils/platform/platform.ts:48-86 | from '/': a lone "/reports" gives `false`, a lone "/" gives `true`, a lone absolute URL gives `false` |
| Platform.ExternalExamples | src/shared/src/utils/platform/platform.ts:88-104 | `[/smarttrader, /]` and `[/smarttrader]` give `true`, `[/, /smarttrader]` gives `false` |
| ContractsFor.FindSymbol | src/trader/src/AppV2/Hooks/useContractsFor.ts:51-55 | the first active symbol whose `underlying_symbol` or `symbol` is the current symbol, or none when no entry names it |
| ContractsFor.GetUnderlyingSymbol | src/trader/src/AppV2/Hooks/useContractsFor.ts:46-61 | returns the input for an empty symbol or list; otherwise returns the non-empty `underlying_symbol` of the first entry naming the symbol, falling back to the input; never empty for a non-empty input |
| ContractsFor.IsQueryEnabled | src/trader/src/AppV2/Hooks/useContractsFor.ts:63-68 | the query is enabled exactly when the symbol is non-empty |
| ContractsFor.EnabledQueryNamesSymbol | src/trader/src/AppV2/Hooks/useContractsFor.ts:63-83 | an enabled query never asks for an empty underlying symbol |
| ContractsFor.IsContractTypeAvailable | src/trader/src/AppV2/Hooks/useContractsFor.ts:96-103 | an exact match among the trade types makes the type available, and an available type needs a non-empty list |
| ContractsFor.GetNewContractType | src/trader/src/AppV2/Hooks/useContractsFor.ts:111-119 | the result is the current type or the first trade type: the current type while it is available or the list is empty, and otherwise a type that is itself available |
| ContractsFor.NewContractTypeIsStable | src/trader/src/AppV2/Hooks/useContractsFor.ts:111-119 | choosing again from the chosen type keeps it |
| ContractsFor.ProcessNewContractType | src/trader/src/AppV2/Hooks/useContractsFor.ts:121-135 | the calls are exactly `[onChange("contract_type", new), setTradeURLParams(new)]` when the new type is non-empty and differs from the current one, and `[setTradeURLParams(new)]` otherwise: at most one `onChange`, one URL write, last |
| ContractsFor.GetTradeTypes | src/trader/src/AppV2/Hooks/useContractsFor.ts:105-109 | the empty initial list yields no trade types; a categories object is passed to `getTradeTypesList` |
| ContractsFor.MapContractType | src/trader/src/AppV2/Hooks/useContractsFor.ts:151-155 | the key of the first configuration entry that lists the contract type, with "PUT" only under `barrier_count === 1`; none exactly when no entry supports it |
| ContractsFor.PutNeedsOneBarrier | src/trader/src/AppV2/Hooks/useContractsFor.ts:154 | a "PUT" contract is only filed under an entry with exactly one barrier |
| ContractsFor.ConfigFor | src/trader/src/AppV2/Hooks/useContractsFor.ts:175 | `contract_types[key]`: present exactly when an entry has the key, and then that entry's value |
| ContractsFor.IndexOf | src/trader/src/AppV2/Hooks/useContractsFor.ts:163 | `indexOf`: -1 exactly when absent, otherwise the first position holding the element |
| ContractsFor.CategoryIndex | src/trader/src/AppV2/Hooks/useContractsFor.ts:161-164 | the first category whose list still holds the type key; none when no list holds it |
| ContractsFor.CategoryKeyOf | src/trader/src/AppV2/Hooks/useContractsFor.ts:161-164 | the key of that category, or '' when there is none |
| ContractsFor.EntryIndex | src/trader/src/AppV2/Hooks/useContractsFor.ts:166 | `available_categories[key]`: the first entry with the key, or none |
| ContractsFor.Accepted | src/trader/src/AppV2/Hooks/useContractsFor.ts:151-168 | a contract is filed only under a non-empty, configured key that supports it and whose category list exists; an unsupported contract is never filed |
| ContractsFor.WithStake | src/trader/src/AppV2/Hooks/useContractsFor.ts:177-180 | setting `config.default_stake` (on `config`, or on `{}` when there is none) gives the stake and keeps the title, trade types, barrier count and, when a config existed, its other fields |
| ContractsFor.ExpectedTypes | src/trader/src/AppV2/Hooks/useContractsFor.ts:150-181 | every available type has a configuration entry |
| ContractsFor.Slot | src/trader/src/AppV2/Hooks/useContractsFor.ts:166-170 | where the rewrite for a type lands: an element of a category list that holds the type key |
| ContractsFor.FillSlots | src/trader/src/AppV2/Hooks/useContractsFor.ts:170-173 | the category lists keep their keys and lengths; each element is its listed form exactly when it is an available type's own slot |
| ContractsFor.ProcessContractsForResponse | src/trader/src/AppV2/Hooks/useContractsFor.ts:143-201 | ignored exactly on an error, a missing response or an empty `available`; otherwise the available types, category lists and `setDefaultStake` calls are the fold's, the trade types come from the filled lists, and the new contract type and notifications follow from them |
| ContractsFor.FileContract | src/trader/src/AppV2/Hooks/useContractsFor.ts:150-181 | one `forEach` turn takes the fold one contract further: available types, category lists and stake calls |
| ContractsFor.FoldStep | src/trader/src/AppV2/Hooks/useContractsFor.ts:159-180 | an unfiled contract leaves the available types alone; a filed one sets its key to the configuration with its stake |
| ContractsFor.FiledTypesAreConfigured | src/trader/src/AppV2/Hooks/useContractsFor.ts:151-168 | every key a contract is filed under is non-empty, resolves to a category list and has a configuration |
| ContractsFor.LookupsUnchanged | src/trader/src/AppV2/Hooks/useContractsFor.ts:159-168 | while a type is not yet available, the category lookups for it on the rewritten lists give what they give on the original lists |
| ContractsFor.FillSlotsAdd | src/trader/src/AppV2/Hooks/useContractsFor.ts:170-175 | making a type available rewrites exactly its own slot, if it has one, and nothing else |
| ContractsFor.AcceptedTypesAreFiled | src/trader/src/AppV2/Hooks/useContractsFor.ts:150-176 | a key is filed exactly when some contract of the response is filed under it |
| ContractsFor.LastStakeWins | src/trader/src/AppV2/Hooks/useContractsFor.ts:177-180 | the last stake recorded for a key is that of a contract filed under it with no later contract filed under the same key |
| ContractsFor.ExpectedTypesMeaning | src/trader/src/AppV2/Hooks/useContractsFor.ts:150-181 | the available types are exactly the configured keys some contract is filed under, each with its configuration and the last stake filed under it |
| ContractsFor.AvailableTypeHasLastStake | src/trader/src/AppV2/Hooks/useContractsFor.ts:177-180 | each available type keeps its configured title and carries `default_stake` of the last contract filed under it, with the other config fields unchanged |
| ContractsFor.UnsupportedContractIgnored | src/trader/src/AppV2/Hooks/useContractsFor.ts:157 | a contract no configuration entry supports changes neither the available types nor the stake calls |
| ContractCard.GetRiskManagementLabels | src/trader/src/AppV2/Components/ContractCard/contract-card.tsx:124-130 | TP exactly with a truthy take-profit amount, SL exactly with a truthy stop-loss amount, DC exactly when valid to cancel; in the order TP, SL, DC, without repeats, at most three |
| ContractCard.IsSold | src/trader/src/AppV2/Components/ContractCard/contract-card.tsx:91 | an ended contract is sold; otherwise it is sold exactly when it has a non-zero `sell_time` (a zero time is falsy) |
| ContractCard.ShowRiskManagementLabels | src/trader/src/AppV2/Components/ContractCard/contract-card.tsx:132 | the tags are never shown for a sold contract; for an unsold one they are shown exactly when there is some tag |
| ContractCard.SoldCardShowsStatusOnly | src/trader/src/AppV2/Components/ContractCard/contract-card.tsx:91-132 | a sold card hides its risk tags and shows its status tag |
| ContractCard.ValidToSell | src/trader/src/AppV2/Components/ContractCard/contract-card.tsx:94 | never sellable while a sell is requested; otherwise as `isValidToSell` says |
| ContractCard.ShowStatusTimerTag | src/trader/src/AppV2/Components/ContractCard/contract-card.tsx:97-98 | the tag is hidden exactly for an unsold multiplier on a non-crypto underlying |
| ContractCard.RenderContractCard | src/trader/src/AppV2/Components/ContractCard/contract-card.tsx:89-140 | nothing is rendered exactly when `contract_type` is falsy; otherwise: sold exactly with a truthy `sell_time` or an ended contract, the tags as above, tags shown exactly when some exist and the contract is not sold, sellable exactly when valid and no sell is requested, and the timer tag hidden exactly for an unsold non-crypto multiplier |
| ContractCard.ContractCardState.constructor | src/trader/src/AppV2/Components/ContractCard/contract-card.tsx:67-70 | every state flag starts `false` |
| ContractCard.ContractCardState.IsCancelButtonPressed | src/trader/src/AppV2/Components/ContractCard/contract-card.tsx:95 | a pressed cancel button needs a requested sell and a cancel under way |
| ContractCard.ContractCardState.IsCloseButtonPressed | src/trader/src/AppV2/Components/ContractCard/contract-card.tsx:96 | a pressed close button needs a requested sell and a close under way |
| ContractCard.ContractCardState.HandleClose | src/trader/src/AppV2/Components/ContractCard/contract-card.tsx:112-122 | with `shouldCancel` only `isCanceling` is set and `onCancel` is called if given; otherwise only `isClosing` is set and `onClose` is called if given |
| ContractCard.ContractCardState.MarkDeletedWhenSold | src/trader/src/AppV2/Components/ContractCard/contract-card.tsx:134-138 | a sold card with action buttons becomes deleted; nothing else changes |
| ContractDetails.GetSortedUpdateHistory | src/trader/src/AppV2/Containers/ContractDetails/contract-details.tsx:47-48 | after the in-place sort `order_date` never increases along the array, and the array holds the same records |
| ContractDetails.ShowRiskManagement | src/trader/src/AppV2/Containers/ContractDetails/contract-details.tsx:72-77 | never for a closed contract; for an accumulator exactly when open with a limit order; otherwise exactly when open, with take profit or stop loss visible, and sellable or with deal cancellation visible |
| ContractDetails.AccumulatorIgnoresConfig | src/trader/src/AppV2/Containers/ContractDetails/contract-details.tsx:75-77 | for an accumulator the screen settings play no part |
| ContractDetails.ShouldShowSell | src/trader/src/AppV2/Containers/ContractDetails/contract-details.tsx:67 | never for a closed contract; for an open one exactly when it has entered |
| ContractDetails.ShowCancelButton | src/trader/src/AppV2/Containers/ContractDetails/contract-details.tsx:71 | never for a non-multiplier; for a multiplier exactly when it is valid to cancel |
| ContractDetails.LayoutOf | src/trader/src/AppV2/Containers/ContractDetails/contract-details.tsx:67-103 | the two-button and one-button layouts exclude each other; one of them applies exactly when the contract has entered and is open, two buttons exactly when it is also a multiplier valid to cancel; the footer shows exactly then |
| ContractDetails.ShowTakeProfitHistory | src/trader/src/AppV2/Containers/ContractDetails/contract-details.tsx:99 | never without an update; with at least one update, exactly when the setting allows it |
| ContractDetails.ShouldRequestHistory | src/trader/src/AppV2/Containers/ContractDetails/contract-details.tsx:49-50 | the history is requested exactly for a truthy contract id, never for id 0 |

## Left out

- Rendering, class names other than the layout flags, React hook wiring and MobX observers are UI plumbing.
- Swipe handling (`handleSwipe`, `useSwipeable`) is UI plumbing.
- The `preventDefault`/`stopPropagation` calls in `handleClose` are DOM effects. Only the callback called and the state set are modelled.
- The profit and money comparisons (`Number(totalProfit) < 0`, the `profit >= 0` disabled check) are floating point.
- `getPathname`, `getPlatformInformation` and `getPlatformRedirect` read `window.location` or return constants.
- The `useDtraderQuery` fetch and `WS.contractUpdateHistory` are network I/O. The response and its error flag are inputs. For the history request only the id guard is modelled.
- The effect that resets the lists when `loginid` changes is a state reset with no decision in it.
- The `is_fetching_ref` flag is left out.
- The call to `processContractsForV2` carries no data, so it is left out.
- `setContractTypesListV2` and `setContractTypesList` both receive the filled category lists. They are the one `categories` field of the outcome.
- The `try`/`catch` around the response effect is left out, since nothing in the modelled data can throw.
- An undefined `active_symbols` is modelled as the empty sequence.
- The configuration inputs (`contract_types`, `available_categories`) are ordered lists of (key, value) entries, in `Object.keys` order. Keys are assumed distinct as in an object, and a lookup takes the first entry with the key.
- ContractsFor.ProcessContractsForResponse: `available_contract_types` is returned as an unordered map. The key order the hook produces (the order in which each type was first filed) is not kept. The same holds for the other fields of a type's `config`, which are the unordered `settings` map.
- `sub_cats[-1] = ...` sets a property named "-1" when the type is missing from its list. The model keeps the list's elements unchanged and does not model that extra property.
- A contract type's `config` record is its `default_stake` plus a `settings` map standing for its other fields.
- `default_stake` and `order_date` are integers. The comparator `Number(b.order_date) - Number(a.order_date)` turns a missing date into NaN, which is not modelled.
- `ContractDetails.GetSortedUpdateHistory`: the contract does not state that records with equal dates keep their order. `Array.prototype.sort` guarantees that, and the insertion sort here keeps it, but neither side is proved.
- The shared helpers, `getContractDetailsConfig`, `checkContractTypePrefix`, `getTradeTypesList` and `cloneObject` are not part of this model. The first four are function parameters, and cloning is implicit in value semantics.
