/**
 * The trade-type selection rules of the `useContractsFor` hook
 * (src/trader/src/AppV2/Hooks/useContractsFor.ts): which symbol the `contracts_for` request
 * names, when it may be sent, how a response is folded into the available contract types
 * and the category list, and how the current contract type falls back when it is no longer
 * offered.
 *
 * The configuration tables (`getContractTypesConfig`, `getContractCategoriesConfig`) are
 * inputs; `checkContractTypePrefix` and `getTradeTypesList` are function parameters.
 * The configuration inputs (`contract_types`, `available_categories`) are ordered lists of
 * (key, value) entries, read in `Object.keys` order; the resulting available contract types
 * are a map, which keeps no key order.
 */
module ContractsFor {
  import opened Wrappers
  import opened Contracts

  /** A `default_stake` amount from the response. */
  type Stake = int

  // Symbol resolution and the query guard.

  /** An `active_symbols` entry: a legacy `symbol` and/or the newer `underlying_symbol`. */
  datatype ActiveSymbol = ActiveSymbol(symbol: Option<string>, underlying_symbol: Option<string>)

  predicate SymbolMatches(info: ActiveSymbol, current: string)
  {
    info.underlying_symbol == Some(current) || info.symbol == Some(current)
  }

  /** `active_symbols.find(...)`: the first entry naming `current` either way. */
  function FindSymbol(activeSymbols: seq<ActiveSymbol>, current: string): (r: Option<nat>)
    ensures r.Some? ==> r.value < |activeSymbols| && SymbolMatches(activeSymbols[r.value], current) &&
                        forall k :: 0 <= k < r.value ==> !SymbolMatches(activeSymbols[k], current)
    ensures r.None? ==> forall k :: 0 <= k < |activeSymbols| ==> !SymbolMatches(activeSymbols[k], current)
  {
    if |activeSymbols| == 0 then None
    else if SymbolMatches(activeSymbols[0], current) then Some(0)
    else
      match FindSymbol(activeSymbols[1..], current)
      case None => None
      case Some(i) => Some(i + 1)
  }

  /**
   * `getUnderlyingSymbol`: the non-empty `underlying_symbol` of the first active symbol that
   * names the current symbol, or the current symbol itself.
   */
  function GetUnderlyingSymbol(current: string, activeSymbols: seq<ActiveSymbol>): (r: string)
    ensures current == "" || activeSymbols == [] ==> r == current
    ensures current != "" ==> r != ""
    ensures current != "" ==> forall i :: (0 <= i < |activeSymbols| && SymbolMatches(activeSymbols[i], current) &&
      (forall k :: 0 <= k < i ==> !SymbolMatches(activeSymbols[k], current))) ==>
        r == (if TruthyString(activeSymbols[i].underlying_symbol) then activeSymbols[i].underlying_symbol.value else current)
    ensures (forall i :: 0 <= i < |activeSymbols| ==> !SymbolMatches(activeSymbols[i], current)) ==> r == current
  {
    if current == "" || |activeSymbols| == 0 then current
    else
      match FindSymbol(activeSymbols, current)
      case None => current
      case Some(i) =>
        if TruthyString(activeSymbols[i].underlying_symbol) then activeSymbols[i].underlying_symbol.value else current
  }

  /** `isQueryEnabled`: only with a symbol. */
  function IsQueryEnabled(symbol: string): (r: bool)
    ensures r <==> symbol != ""
  {
    if symbol == "" then false else true
  }

  /** An enabled query never asks for the contracts of an empty symbol. */
  lemma EnabledQueryNamesSymbol(symbol: string, activeSymbols: seq<ActiveSymbol>)
    requires IsQueryEnabled(symbol)
    ensures GetUnderlyingSymbol(symbol, activeSymbols) != ""
  {
  }

  // The current contract type against the offered trade types.

  /** A trade type as listed for the user (`TContractType`). */
  datatype TradeType = TradeType(value: string, text: string)

  /** `isContractTypeAvailable`: some trade type equals the current type or shares its prefix. */
  predicate IsContractTypeAvailable(tradeTypes: seq<TradeType>, contractType: string, checkContractTypePrefix: (string, string) -> bool)
    ensures (exists i :: 0 <= i < |tradeTypes| && tradeTypes[i].value == contractType) ==>
            IsContractTypeAvailable(tradeTypes, contractType, checkContractTypePrefix)
    ensures IsContractTypeAvailable(tradeTypes, contractType, checkContractTypePrefix) ==> tradeTypes != []
  {
    exists i :: 0 <= i < |tradeTypes| &&
      (checkContractTypePrefix(contractType, tradeTypes[i].value) || contractType == tradeTypes[i].value)
  }

  /**
   * `getNewContractType`: keep the current type while it is available, else fall back to the
   * first trade type; whatever it returns is available once the list is non-empty.
   */
  function GetNewContractType(tradeTypes: seq<TradeType>, contractType: string, checkContractTypePrefix: (string, string) -> bool): (r: string)
    ensures r == contractType || (tradeTypes != [] && r == tradeTypes[0].value)
    ensures IsContractTypeAvailable(tradeTypes, contractType, checkContractTypePrefix) ==> r == contractType
    ensures tradeTypes == [] ==> r == contractType
    ensures tradeTypes != [] ==> IsContractTypeAvailable(tradeTypes, r, checkContractTypePrefix)
  {
    if !IsContractTypeAvailable(tradeTypes, contractType, checkContractTypePrefix) && |tradeTypes| > 0 then
      tradeTypes[0].value
    else contractType
  }

  /** Choosing again after a fallback changes nothing. */
  lemma NewContractTypeIsStable(tradeTypes: seq<TradeType>, contractType: string, checkContractTypePrefix: (string, string) -> bool)
    ensures var chosen := GetNewContractType(tradeTypes, contractType, checkContractTypePrefix);
            GetNewContractType(tradeTypes, chosen, checkContractTypePrefix) == chosen
  {
  }

  /** The calls `processNewContractType` makes, in order. */
  datatype Notification = OnChange(name: string, value: string) | SetTradeURLParams(contractType: string)

  /**
   * `processNewContractType`: report a change of contract type only for a non-empty new type
   * that differs from the current one; always write the URL parameter, last.
   */
  function ProcessNewContractType(contractType: string, newContractType: string): (calls: seq<Notification>)
    ensures |calls| == (if newContractType != "" && newContractType != contractType then 2 else 1)
    ensures calls[|calls| - 1] == SetTradeURLParams(newContractType)
    ensures OnChange("contract_type", newContractType) in calls <==> newContractType != "" && newContractType != contractType
    ensures forall n :: n in calls && n.OnChange? ==> n == OnChange("contract_type", newContractType)
    ensures forall n :: n in calls && n.SetTradeURLParams? ==> n == SetTradeURLParams(newContractType)
  {
    var hasContractTypeChanged := contractType != newContractType && newContractType != "";
    (if hasContractTypeChanged then [OnChange("contract_type", newContractType)] else []) +
    [SetTradeURLParams(newContractType)]
  }

  // The configuration tables.

  /** A contract type's `config` record; `settings` stands for its fields other than the stake. */
  datatype Config = Config(default_stake: Option<Stake>, settings: map<string, string>)

  /** One value of `getContractTypesConfig()`. */
  datatype TypeConfig = TypeConfig(title: string, trade_types: seq<string>, barrier_count: Option<int>, config: Option<Config>)

  datatype TypeEntry = TypeEntry(key: string, value: TypeConfig)

  /** An element of a category's `categories` list: a contract-type key, or the listed form. */
  datatype SubCategory = TypeName(name: string) | Listed(value: string, text: string)

  datatype CategoryEntry = CategoryEntry(key: string, categories: seq<SubCategory>)

  /** The `contract_types_list` state: the initial empty array, or the categories object. */
  datatype ContractTypesList = EmptyList | CategoryObject(entries: seq<CategoryEntry>)

  /** `getTradeTypes`: an empty array yields no trade types, an object is handed over. */
  function GetTradeTypes(categories: ContractTypesList, getTradeTypesList: seq<CategoryEntry> -> seq<TradeType>): (r: seq<TradeType>)
    ensures categories.EmptyList? ==> r == []
    ensures categories.CategoryObject? ==> r == getTradeTypesList(categories.entries)
  {
    match categories
    case EmptyList => []
    case CategoryObject(entries) => getTradeTypesList(entries)
  }

  /**
   * A contract type belongs to a configuration entry when the entry lists it; "PUT" only to an
   * entry with exactly one barrier (Higher/Lower, not Rise/Fall).
   */
  predicate Supports(entry: TypeEntry, contractType: string)
  {
    contractType in entry.value.trade_types && (contractType != "PUT" || entry.value.barrier_count == Some(1))
  }

  /** The `Object.keys(contract_types).find(...)` lookup: the first supporting key. */
  function MapContractType(types: seq<TypeEntry>, contractType: string): (r: Option<string>)
    ensures r.Some? ==> exists i :: 0 <= i < |types| && types[i].key == r.value && Supports(types[i], contractType) &&
                          forall k :: 0 <= k < i ==> !Supports(types[k], contractType)
    ensures r.None? <==> forall i :: 0 <= i < |types| ==> !Supports(types[i], contractType)
  {
    if |types| == 0 then None
    else if Supports(types[0], contractType) then Some(types[0].key)
    else
      var r := MapContractType(types[1..], contractType);
      if r.Some? then
        ghost var i :| 0 <= i < |types[1..]| && types[1..][i].key == r.value && Supports(types[1..][i], contractType) &&
                       forall k :: 0 <= k < i ==> !Supports(types[1..][k], contractType);
        assert types[i + 1] == types[1..][i];
        r
      else r
  }

  /** "PUT" is only ever filed under a single-barrier entry. */
  lemma PutNeedsOneBarrier(types: seq<TypeEntry>)
    requires MapContractType(types, "PUT").Some?
    ensures exists i :: 0 <= i < |types| && types[i].key == MapContractType(types, "PUT").value &&
                        types[i].value.barrier_count == Some(1)
  {
  }

  /** `contract_types[key]`: the entry with that key. */
  function ConfigFor(types: seq<TypeEntry>, key: string): (r: Option<TypeConfig>)
    ensures r.Some? <==> exists i :: 0 <= i < |types| && types[i].key == key
    ensures r.Some? ==> exists i :: 0 <= i < |types| && types[i].key == key && types[i].value == r.value
  {
    if |types| == 0 then None
    else if types[0].key == key then Some(types[0].value)
    else
      var r := ConfigFor(types[1..], key);
      if r.Some? then
        ghost var i :| 0 <= i < |types[1..]| && types[1..][i].key == key && types[1..][i].value == r.value;
        assert types[i + 1] == types[1..][i];
        r
      else r
  }

  /** `Array.prototype.indexOf`. */
  function IndexOf(s: seq<SubCategory>, x: SubCategory): (r: int)
    ensures -1 <= r < |s|
    ensures r == -1 <==> x !in s
    ensures r >= 0 ==> s[r] == x && x !in s[..r]
  {
    if |s| == 0 then -1
    else if s[0] == x then 0
    else
      var r := IndexOf(s[1..], x);
      if r == -1 then -1
      else
        assert s[..r + 1] == [s[0]] + s[1..][..r];
        r + 1
  }

  /** The first category whose list still holds the contract-type key. */
  function CategoryIndex(cats: seq<CategoryEntry>, t: string): (r: Option<nat>)
    ensures r.Some? ==> r.value < |cats| && TypeName(t) in cats[r.value].categories &&
                        forall e :: 0 <= e < r.value ==> TypeName(t) !in cats[e].categories
    ensures r.None? ==> forall e :: 0 <= e < |cats| ==> TypeName(t) !in cats[e].categories
  {
    if |cats| == 0 then None
    else if IndexOf(cats[0].categories, TypeName(t)) != -1 then Some(0)
    else
      match CategoryIndex(cats[1..], t)
      case None => None
      case Some(e) => Some(e + 1)
  }

  /** `Object.keys(available_categories).find(...) ?? ''`. */
  function CategoryKeyOf(cats: seq<CategoryEntry>, t: string): (key: string)
    ensures CategoryIndex(cats, t).Some? ==> key == cats[CategoryIndex(cats, t).value].key
    ensures CategoryIndex(cats, t).None? ==> key == ""
  {
    match CategoryIndex(cats, t)
    case None => ""
    case Some(e) => cats[e].key
  }

  /** `available_categories[key]`: the position of the entry with that key. */
  function EntryIndex(cats: seq<CategoryEntry>, key: string): (r: Option<nat>)
    ensures r.Some? ==> r.value < |cats| && cats[r.value].key == key &&
                        forall e :: 0 <= e < r.value ==> cats[e].key != key
    ensures r.None? ==> forall e :: 0 <= e < |cats| ==> cats[e].key != key
  {
    if |cats| == 0 then None
    else if cats[0].key == key then Some(0)
    else
      match EntryIndex(cats[1..], key)
      case None => None
      case Some(e) => Some(e + 1)
  }

  // The specification of the response fold.

  /** The category lookup for a contract-type key finds a list (`sub_cats` is defined). */
  predicate Resolves(cats: seq<CategoryEntry>, t: string)
  {
    EntryIndex(cats, CategoryKeyOf(cats, t)).Some?
  }

  /**
   * The key a contract of the response is filed under, when the loop keeps it: a supporting
   * configuration key that is not empty and whose category lookup succeeds.
   */
  function Accepted(types: seq<TypeEntry>, cats: seq<CategoryEntry>, contract: AvailableContract): (r: Option<string>)
    ensures r.Some? ==> r.value != "" && Resolves(cats, r.value) && ConfigFor(types, r.value).Some? &&
                        MapContractType(types, contract.contract_type) == r
    ensures MapContractType(types, contract.contract_type).None? ==> r.None?
  {
    match MapContractType(types, contract.contract_type)
    case None => None
    case Some(t) => if t != "" && Resolves(cats, t) then Some(t) else None
  }

  /** A contract of the `contracts_for` response. */
  datatype AvailableContract = AvailableContract(contract_category: string, contract_type: string, default_stake: Stake, sentiment: string)

  datatype ContractsForResponse = ContractsForResponse(available: seq<AvailableContract>, hit_count: nat)

  /** The key the loop files each contract of the response under, as a function value. */
  function Filing(types: seq<TypeEntry>, cats: seq<CategoryEntry>): AvailableContract -> Option<string>
  {
    c => Accepted(types, cats, c)
  }

  /** The stakes of the contracts filed under `t`, in response order. */
  function StakesFor(available: seq<AvailableContract>, filed: AvailableContract -> Option<string>, t: string): (r: seq<Stake>)
    ensures |r| <= |available|
  {
    if |available| == 0 then []
    else
      var last := available[|available| - 1];
      StakesFor(available[..|available| - 1], filed, t) +
      (if filed(last) == Some(t) then [last.default_stake] else [])
  }

  /** The keys some contract of the response is filed under. */
  function AcceptedTypes(available: seq<AvailableContract>, filed: AvailableContract -> Option<string>): (r: set<string>)
    ensures forall t :: t in r ==> StakesFor(available, filed, t) != []
  {
    if |available| == 0 then {}
    else
      var last := available[|available| - 1];
      var prev := AcceptedTypes(available[..|available| - 1], filed);
      match filed(last)
      case None => prev
      case Some(t) => prev + {t}
  }

  /** A type's configuration with its `config.default_stake` set (`config || {}` when absent). */
  function WithStake(cfg: TypeConfig, stake: Stake): (r: TypeConfig)
    ensures r.title == cfg.title && r.trade_types == cfg.trade_types && r.barrier_count == cfg.barrier_count
    ensures r.config.Some? && r.config.value.default_stake == Some(stake)
    ensures cfg.config.Some? ==> r.config.value.settings == cfg.config.value.settings
  {
    var config := if cfg.config.Some? then cfg.config.value else Config(None, map[]);
    cfg.(config := Some(config.(default_stake := Some(stake))))
  }

  function Last(s: seq<Stake>): Stake
    requires s != []
  {
    s[|s| - 1]
  }

  /**
   * The available contract types after folding the response in order: each filed contract
   * sets its key to the key's configuration carrying that contract's stake. (The loop only
   * files keys that have a configuration, see `FiledTypesAreConfigured`; a key without one is
   * passed over.)
   */
  function ExpectedTypes(available: seq<AvailableContract>, filed: AvailableContract -> Option<string>, types: seq<TypeEntry>): (m: map<string, TypeConfig>)
    ensures forall t :: t in m ==> ConfigFor(types, t).Some?
  {
    if |available| == 0 then map[]
    else
      var last := available[|available| - 1];
      var prev := ExpectedTypes(available[..|available| - 1], filed, types);
      match filed(last)
      case None => prev
      case Some(t) =>
        match ConfigFor(types, t)
        case None => prev
        case Some(cfg) => prev[t := WithStake(cfg, last.default_stake)]
  }

  /** Where the category rewrite for `t` lands: the entry found by key, at `indexOf(t)`. */
  function Slot(cats: seq<CategoryEntry>, t: string): (r: Option<(nat, nat)>)
    ensures r.Some? ==> r.value.0 < |cats| && r.value.1 < |cats[r.value.0].categories| &&
                        cats[r.value.0].categories[r.value.1] == TypeName(t)
  {
    match EntryIndex(cats, CategoryKeyOf(cats, t))
    case None => None
    case Some(e) =>
      var k := IndexOf(cats[e].categories, TypeName(t));
      if k < 0 then None else Some((e, k))
  }

  function FillAt(cats: seq<CategoryEntry>, available: map<string, TypeConfig>, e: nat, k: nat): (r: SubCategory)
    requires e < |cats| && k < |cats[e].categories|
  {
    match cats[e].categories[k]
    case TypeName(t) =>
      if t in available && Slot(cats, t) == Some((e, k)) then Listed(t, available[t].title) else TypeName(t)
    case Listed(v, text) => Listed(v, text)
  }

  /**
   * The category list after the fold: each available type's own slot holds its listed form,
   * every other element is as it was.
   */
  function FillSlots(cats: seq<CategoryEntry>, available: map<string, TypeConfig>): (r: seq<CategoryEntry>)
    ensures |r| == |cats|
    ensures forall e :: 0 <= e < |cats| ==> r[e].key == cats[e].key && |r[e].categories| == |cats[e].categories|
    ensures forall e, k :: 0 <= e < |cats| && 0 <= k < |cats[e].categories| ==> r[e].categories[k] == FillAt(cats, available, e, k)
  {
    seq(|cats|, e requires 0 <= e < |cats| =>
      CategoryEntry(cats[e].key, seq(|cats[e].categories|, k requires 0 <= k < |cats[e].categories| => FillAt(cats, available, e, k))))
  }

  /** What the response effect did. */
  datatype ResponseOutcome =
    | Ignored
    | Processed(
        categories: seq<CategoryEntry>,
        availableTypes: map<string, TypeConfig>,
        defaultStakeCalls: seq<Stake>,
        tradeTypes: seq<TradeType>,
        newContractType: string,
        notifications: seq<Notification>)

  /**
   * The response effect: skip on an error or an empty `available` list; otherwise fold every
   * contract into the available types and the category list, call `setDefaultStake` for the
   * current type, then choose and report the contract type.
   */
  method ProcessContractsForResponse(
    response: Option<ContractsForResponse>,
    error: bool,
    contractTypes: seq<TypeEntry>,
    categories: seq<CategoryEntry>,
    contractType: string,
    getTradeTypesList: seq<CategoryEntry> -> seq<TradeType>,
    checkContractTypePrefix: (string, string) -> bool)
    returns (outcome: ResponseOutcome)
    ensures outcome.Ignored? <==> error || response.None? || response.value.available == []
    ensures outcome.Processed? ==>
      && outcome.availableTypes == ExpectedTypes(response.value.available, Filing(contractTypes, categories), contractTypes)
      && outcome.categories == FillSlots(categories, outcome.availableTypes)
      && outcome.defaultStakeCalls == StakesFor(response.value.available, Filing(contractTypes, categories), contractType)
      && outcome.tradeTypes == getTradeTypesList(outcome.categories)
      && outcome.newContractType == GetNewContractType(outcome.tradeTypes, contractType, checkContractTypePrefix)
      && outcome.notifications == ProcessNewContractType(contractType, outcome.newContractType)
  {
    if error || response.None? || |response.value.available| == 0 {
      return Ignored;
    }
    var available := response.value.available;
    var cats := categories;
    var availableTypes: map<string, TypeConfig> := map[];
    var stakeCalls: seq<Stake> := [];
    var i := 0;
    FillSlotsNone(categories);
    while i < |available|
      invariant 0 <= i <= |available|
      invariant availableTypes == ExpectedTypes(available[..i], Filing(contractTypes, categories), contractTypes)
      invariant cats == FillSlots(categories, availableTypes)
      invariant stakeCalls == StakesFor(available[..i], Filing(contractTypes, categories), contractType)
    {
      cats, availableTypes, stakeCalls := FileContract(available, i, contractTypes, categories, contractType, cats, availableTypes, stakeCalls);
      i := i + 1;
    }
    assert available[..i] == available;
    var tradeTypes := GetTradeTypes(CategoryObject(cats), getTradeTypesList);
    var newContractType := GetNewContractType(tradeTypes, contractType, checkContractTypePrefix);
    var notifications := ProcessNewContractType(contractType, newContractType);
    outcome := Processed(cats, availableTypes, stakeCalls, tradeTypes, newContractType, notifications);
  }

  /**
   * One turn of the response loop: file `available[i]` into the available types, rewrite
   * its category slot the first time its type is seen, and record the stake when the type is
   * the current one.
   */
  method FileContract(
    available: seq<AvailableContract>,
    i: nat,
    contractTypes: seq<TypeEntry>,
    categories: seq<CategoryEntry>,
    contractType: string,
    cats0: seq<CategoryEntry>,
    availableTypes0: map<string, TypeConfig>,
    stakeCalls0: seq<Stake>)
    returns (cats': seq<CategoryEntry>, availableTypes': map<string, TypeConfig>, stakeCalls': seq<Stake>)
    requires i < |available|
    requires availableTypes0 == ExpectedTypes(available[..i], Filing(contractTypes, categories), contractTypes)
    requires cats0 == FillSlots(categories, availableTypes0)
    requires stakeCalls0 == StakesFor(available[..i], Filing(contractTypes, categories), contractType)
    ensures availableTypes' == ExpectedTypes(available[..i + 1], Filing(contractTypes, categories), contractTypes)
    ensures cats' == FillSlots(categories, availableTypes')
    ensures stakeCalls' == StakesFor(available[..i + 1], Filing(contractTypes, categories), contractType)
  {
    var cats, availableTypes, stakeCalls := cats0, availableTypes0, stakeCalls0;
    var contract := available[i];
    ghost var filedAs := Accepted(contractTypes, categories, contract);
    ghost var before := availableTypes;
    assert Filing(contractTypes, categories)(contract) == filedAs;
    FoldStep(available, i, Filing(contractTypes, categories), contractTypes);
    StakesStep(available, i, Filing(contractTypes, categories), contractType);
    var typeKey := MapContractType(contractTypes, contract.contract_type);
    if typeKey.None? || typeKey.value == "" {
      // an unsupported contract type is ignored
      assert filedAs.None?;
      return cats, availableTypes, stakeCalls;
    }
    var t := typeKey.value;
    if t !in availableTypes {
      LookupsUnchanged(categories, availableTypes, t);
      var category := CategoryKeyOf(cats, t);
      var entry := EntryIndex(cats, category);
      if entry.None? {
        // no category list holds the type
        assert !Resolves(categories, t);
        assert filedAs.None?;
        return cats, availableTypes, stakeCalls;
      }
      var e := entry.value;
      IndexUnchangedAt(categories, availableTypes, t, e);
      var subCats := cats[e].categories;
      var clone := ConfigFor(contractTypes, t).value;
      var k := IndexOf(subCats, TypeName(t));
      FillSlotsAdd(categories, availableTypes, t, clone);
      if k >= 0 {
        cats := cats[e := CategoryEntry(cats[e].key, subCats[k := Listed(t, clone.title)])];
      }
      availableTypes := availableTypes[t := clone];
    } else {
      ExpectedTypesMeaning(available[..i], Filing(contractTypes, categories), contractTypes, t);
      FiledTypesAreConfigured(available[..i], contractTypes, categories, t);
    }
    assert filedAs == Some(t);
    var entryConfig := availableTypes[t];
    var config := if entryConfig.config.Some? then entryConfig.config.value else Config(None, map[]);
    config := config.(default_stake := Some(contract.default_stake));
    if t == contractType {
      stakeCalls := stakeCalls + [contract.default_stake];
    }
    var updated := entryConfig.(config := Some(config));
    assert updated == WithStake(entryConfig, contract.default_stake);
    RestakeKeepsConfig(ConfigFor(contractTypes, t).value, entryConfig, contract.default_stake);
    FillSlotsRetitle(categories, availableTypes, t, updated);
    assert updated == WithStake(ConfigFor(contractTypes, t).value, contract.default_stake);
    UpdateTwice(before, t, availableTypes, availableTypes[t], updated);
    availableTypes := availableTypes[t := updated];
    cats', availableTypes', stakeCalls' := cats, availableTypes, stakeCalls;
  }

  // Lemmas for the loop.

  /** The stakes filed under `t`, one contract further. */
  lemma StakesStep(available: seq<AvailableContract>, i: nat, filed: AvailableContract -> Option<string>, t: string)
    requires i < |available|
    ensures StakesFor(available[..i + 1], filed, t) ==
      StakesFor(available[..i], filed, t) + (if filed(available[i]) == Some(t) then [available[i].default_stake] else [])
  {
    var next := available[..i + 1];
    assert next[..|next| - 1] == available[..i];
  }

  /** The filed keys, one contract further. */
  lemma AcceptedStep(available: seq<AvailableContract>, i: nat, filed: AvailableContract -> Option<string>)
    requires i < |available|
    ensures filed(available[i]).None? ==> AcceptedTypes(available[..i + 1], filed) == AcceptedTypes(available[..i], filed)
    ensures filed(available[i]).Some? ==>
      AcceptedTypes(available[..i + 1], filed) == AcceptedTypes(available[..i], filed) + {filed(available[i]).value}
  {
    var next := available[..i + 1];
    assert next[..|next| - 1] == available[..i];
  }

  /** Every key a contract is filed under is non-empty, resolves to a category list and has a configuration. */
  lemma FiledTypesAreConfigured(available: seq<AvailableContract>, types: seq<TypeEntry>, cats: seq<CategoryEntry>, t: string)
    requires t in AcceptedTypes(available, Filing(types, cats))
    ensures t != "" && Resolves(cats, t) && ConfigFor(types, t).Some?
  {
    var filed := Filing(types, cats);
    AcceptedTypesAreFiled(available, filed, t);
    var j :| 0 <= j < |available| && filed(available[j]) == Some(t);
    assert Accepted(types, cats, available[j]) == Some(t);
  }

  /** Appending one contract to the processed prefix extends the expected types by one step. */
  lemma FoldStep(available: seq<AvailableContract>, i: nat, filed: AvailableContract -> Option<string>, types: seq<TypeEntry>)
    requires i < |available|
    ensures filed(available[i]).None? ==>
      ExpectedTypes(available[..i + 1], filed, types) == ExpectedTypes(available[..i], filed, types)
    ensures filed(available[i]).Some? && ConfigFor(types, filed(available[i]).value).Some? ==>
      ExpectedTypes(available[..i + 1], filed, types) ==
        ExpectedTypes(available[..i], filed, types)[filed(available[i]).value :=
          WithStake(ConfigFor(types, filed(available[i]).value).value, available[i].default_stake)]
  {
    var next := available[..i + 1];
    assert next[..|next| - 1] == available[..i];
  }

  /** Before any type is available, the category lists are the configuration's. */
  lemma FillSlotsNone(cats: seq<CategoryEntry>)
    ensures FillSlots(cats, map[]) == cats
  {
    var f := FillSlots(cats, map[]);
    forall e | 0 <= e < |cats| ensures f[e] == cats[e] {
      forall k | 0 <= k < |cats[e].categories| ensures f[e].categories[k] == cats[e].categories[k] {
        assert f[e].categories[k] == FillAt(cats, map[], e, k);
      }
      assert f[e].categories == cats[e].categories;
    }
  }

  lemma {:induction false} IndexOfAgree(a: seq<SubCategory>, b: seq<SubCategory>, x: SubCategory)
    requires |a| == |b|
    requires forall k :: 0 <= k < |a| ==> (a[k] == x <==> b[k] == x)
    ensures IndexOf(a, x) == IndexOf(b, x)
  {
    if |a| > 0 {
      IndexOfAgree(a[1..], b[1..], x);
    }
  }

  lemma {:induction false} CategoryIndexAgree(a: seq<CategoryEntry>, b: seq<CategoryEntry>, t: string)
    requires |a| == |b|
    requires forall e :: 0 <= e < |a| ==> IndexOf(a[e].categories, TypeName(t)) == IndexOf(b[e].categories, TypeName(t))
    ensures CategoryIndex(a, t) == CategoryIndex(b, t)
  {
    if |a| > 0 {
      CategoryIndexAgree(a[1..], b[1..], t);
    }
  }

  lemma {:induction false} EntryIndexAgree(a: seq<CategoryEntry>, b: seq<CategoryEntry>, key: string)
    requires |a| == |b|
    requires forall e :: 0 <= e < |a| ==> a[e].key == b[e].key
    ensures EntryIndex(a, key) == EntryIndex(b, key)
  {
    if |a| > 0 {
      EntryIndexAgree(a[1..], b[1..], key);
    }
  }

  /** While `t` is not yet available, its position in one category list is unchanged. */
  lemma IndexUnchangedAt(cats: seq<CategoryEntry>, available: map<string, TypeConfig>, t: string, e: nat)
    requires t !in available && e < |cats|
    ensures IndexOf(FillSlots(cats, available)[e].categories, TypeName(t)) == IndexOf(cats[e].categories, TypeName(t))
  {
    var f := FillSlots(cats, available);
    forall k | 0 <= k < |cats[e].categories|
      ensures f[e].categories[k] == TypeName(t) <==> cats[e].categories[k] == TypeName(t)
    {
      assert f[e].categories[k] == FillAt(cats, available, e, k);
    }
    IndexOfAgree(f[e].categories, cats[e].categories, TypeName(t));
  }

  /** While `t` is not yet available, every lookup the loop makes for it sees the original lists. */
  lemma LookupsUnchanged(cats: seq<CategoryEntry>, available: map<string, TypeConfig>, t: string)
    requires t !in available
    ensures CategoryKeyOf(FillSlots(cats, available), t) == CategoryKeyOf(cats, t)
    ensures forall key :: EntryIndex(FillSlots(cats, available), key) == EntryIndex(cats, key)
  {
    var f := FillSlots(cats, available);
    forall e | 0 <= e < |cats|
      ensures IndexOf(f[e].categories, TypeName(t)) == IndexOf(cats[e].categories, TypeName(t))
    {
      IndexUnchangedAt(cats, available, t, e);
    }
    CategoryIndexAgree(f, cats, t);
    forall key
      ensures EntryIndex(f, key) == EntryIndex(cats, key)
    {
      EntryIndexAgree(f, cats, key);
    }
  }

  lemma FillAtAdd(cats: seq<CategoryEntry>, available: map<string, TypeConfig>, t: string, cfg: TypeConfig, e: nat, k: nat)
    requires t !in available
    requires e < |cats| && k < |cats[e].categories|
    ensures FillAt(cats, available[t := cfg], e, k) ==
      (if Slot(cats, t) == Some((e, k)) then Listed(t, cfg.title) else FillAt(cats, available, e, k))
  {
  }

  /** Making `t` available changes one category list at most, at `t`'s slot. */
  lemma FillSlotsAddAt(cats: seq<CategoryEntry>, available: map<string, TypeConfig>, t: string, cfg: TypeConfig, e: nat)
    requires t !in available && e < |cats|
    ensures var f, g := FillSlots(cats, available), FillSlots(cats, available[t := cfg]);
      g[e].key == f[e].key &&
      g[e].categories == (if Slot(cats, t).Some? && Slot(cats, t).value.0 == e
                          then f[e].categories[Slot(cats, t).value.1 := Listed(t, cfg.title)]
                          else f[e].categories)
  {
    var f := FillSlots(cats, available);
    var g := FillSlots(cats, available[t := cfg]);
    forall k | 0 <= k < |cats[e].categories|
      ensures g[e].categories[k] == (if Slot(cats, t) == Some((e, k)) then Listed(t, cfg.title) else f[e].categories[k])
    {
      FillAtAdd(cats, available, t, cfg, e, k);
    }
  }

  /** Making `t` available fills exactly its own slot, if it has one. */
  lemma FillSlotsAdd(cats: seq<CategoryEntry>, available: map<string, TypeConfig>, t: string, cfg: TypeConfig)
    requires t !in available
    ensures Slot(cats, t).None? ==> FillSlots(cats, available[t := cfg]) == FillSlots(cats, available)
    ensures Slot(cats, t).Some? ==>
      var e, k := Slot(cats, t).value.0, Slot(cats, t).value.1;
      var f := FillSlots(cats, available);
      FillSlots(cats, available[t := cfg]) == f[e := CategoryEntry(f[e].key, f[e].categories[k := Listed(t, cfg.title)])]
  {
    var f := FillSlots(cats, available);
    var g := FillSlots(cats, available[t := cfg]);
    if Slot(cats, t).None? {
      forall e | 0 <= e < |cats| ensures g[e] == f[e] {
        FillSlotsAddAt(cats, available, t, cfg, e);
      }
    } else {
      var e, k := Slot(cats, t).value.0, Slot(cats, t).value.1;
      var h := f[e := CategoryEntry(f[e].key, f[e].categories[k := Listed(t, cfg.title)])];
      forall e' | 0 <= e' < |cats| ensures g[e'] == h[e'] {
        FillSlotsAddAt(cats, available, t, cfg, e');
      }
    }
  }

  /** Writing a key twice keeps the second value. */
  lemma UpdateTwice(m: map<string, TypeConfig>, t: string, m': map<string, TypeConfig>, u: TypeConfig, v: TypeConfig)
    requires m' == m || m' == m[t := u]
    ensures m'[t := v] == m[t := v]
  {
  }

  /** The configuration record of a staked type: the stake, and the other fields as they were. */
  lemma StakedConfig(cfg: TypeConfig, stake: Stake)
    ensures WithStake(cfg, stake).config ==
      Some(Config(Some(stake), if cfg.config.Some? then cfg.config.value.settings else map[]))
  {
  }

  /** Setting the stake again replaces the one set before. */
  lemma RestakeKeepsConfig(cfg: TypeConfig, current: TypeConfig, stake: Stake)
    requires current == cfg || exists s :: current == WithStake(cfg, s)
    ensures WithStake(current, stake) == WithStake(cfg, stake)
  {
  }

  /** Replacing an available type's configuration by one with the same title leaves the lists alone. */
  lemma FillSlotsRetitle(cats: seq<CategoryEntry>, available: map<string, TypeConfig>, t: string, cfg: TypeConfig)
    requires t in available && cfg.title == available[t].title
    ensures FillSlots(cats, available[t := cfg]) == FillSlots(cats, available)
  {
    FillSlotsSameTitles(cats, available[t := cfg], available);
  }

  /** The category lists depend only on which types are available and on their titles. */
  lemma FillSlotsSameTitles(cats: seq<CategoryEntry>, m1: map<string, TypeConfig>, m2: map<string, TypeConfig>)
    requires m1.Keys == m2.Keys
    requires forall t :: t in m1 ==> m1[t].title == m2[t].title
    ensures FillSlots(cats, m1) == FillSlots(cats, m2)
  {
    var f := FillSlots(cats, m1);
    var g := FillSlots(cats, m2);
    forall e | 0 <= e < |cats| ensures f[e] == g[e] {
      forall k | 0 <= k < |cats[e].categories| ensures f[e].categories[k] == g[e].categories[k] {
        assert f[e].categories[k] == FillAt(cats, m1, e, k);
        assert g[e].categories[k] == FillAt(cats, m2, e, k);
      }
      assert f[e].categories == g[e].categories;
    }
  }

  // What the fold yields, stated over the whole response.

  /** Exactly the keys some contract of the response is filed under become available. */
  lemma {:induction false} AcceptedTypesAreFiled(available: seq<AvailableContract>, filed: AvailableContract -> Option<string>, t: string)
    ensures t in AcceptedTypes(available, filed) <==> exists j :: 0 <= j < |available| && filed(available[j]) == Some(t)
  {
    if |available| > 0 {
      var init := available[..|available| - 1];
      AcceptedTypesAreFiled(init, filed, t);
      if exists j :: 0 <= j < |available| && filed(available[j]) == Some(t) {
        var j :| 0 <= j < |available| && filed(available[j]) == Some(t);
        if j < |available| - 1 {
          assert init[j] == available[j];
        }
      }
      if exists j :: 0 <= j < |init| && filed(init[j]) == Some(t) {
        var j :| 0 <= j < |init| && filed(init[j]) == Some(t);
        assert available[j] == init[j];
      }
    }
  }

  /** The last stake recorded for a key is that of the last contract filed under it. */
  lemma {:induction false} LastStakeWins(available: seq<AvailableContract>, filed: AvailableContract -> Option<string>, t: string)
    requires StakesFor(available, filed, t) != []
    ensures exists j :: (0 <= j < |available| && filed(available[j]) == Some(t) &&
      Last(StakesFor(available, filed, t)) == available[j].default_stake &&
      forall k :: j < k < |available| ==> filed(available[k]) != Some(t))
  {
    var n := |available|;
    var init := available[..n - 1];
    StakesStep(available, n - 1, filed, t);
    assert available[..n] == available;
    if filed(available[n - 1]) == Some(t) {
      assert Last(StakesFor(available, filed, t)) == available[n - 1].default_stake;
    } else {
      assert StakesFor(available, filed, t) == StakesFor(init, filed, t);
      LastStakeWins(init, filed, t);
      var j :| 0 <= j < |init| && filed(init[j]) == Some(t) &&
        Last(StakesFor(init, filed, t)) == init[j].default_stake &&
        forall k :: j < k < |init| ==> filed(init[k]) != Some(t);
      assert available[j] == init[j];
      forall k | j < k < n ensures filed(available[k]) != Some(t) {
        if k < n - 1 {
          assert available[k] == init[k];
        }
      }
    }
  }

  /**
   * The fold, stated over the whole response: the available types are exactly the configured
   * keys some contract is filed under, each with the last stake filed under it.
   */
  lemma {:induction false} ExpectedTypesMeaning(available: seq<AvailableContract>, filed: AvailableContract -> Option<string>, types: seq<TypeEntry>, t: string)
    ensures t in ExpectedTypes(available, filed, types) <==> t in AcceptedTypes(available, filed) && ConfigFor(types, t).Some?
    ensures t in ExpectedTypes(available, filed, types) ==>
      ExpectedTypes(available, filed, types)[t] == WithStake(ConfigFor(types, t).value, Last(StakesFor(available, filed, t)))
  {
    if |available| > 0 {
      var n := |available|;
      var init := available[..n - 1];
      assert available[..n] == available;
      ExpectedTypesMeaning(init, filed, types, t);
      AcceptedStep(available, n - 1, filed);
      StakesStep(available, n - 1, filed, t);
      FoldStep(available, n - 1, filed, types);
      var prev := ExpectedTypes(init, filed, types);
      var m := ExpectedTypes(available, filed, types);
      match filed(available[n - 1])
      case None =>
        assert m == prev;
      case Some(u) =>
        if ConfigFor(types, u).Some? {
          assert m == prev[u := WithStake(ConfigFor(types, u).value, available[n - 1].default_stake)];
        } else {
          assert u != t || ConfigFor(types, t).None?;
          assert m == prev;
        }
    }
  }

  /**
   * Each available type carries its configuration with `default_stake` set to the stake of
   * the last contract filed under it.
   */
  lemma AvailableTypeHasLastStake(available: seq<AvailableContract>, types: seq<TypeEntry>, cats: seq<CategoryEntry>, t: string)
    requires t in ExpectedTypes(available, Filing(types, cats), types)
    ensures ConfigFor(types, t).Some?
    ensures ExpectedTypes(available, Filing(types, cats), types)[t].title == ConfigFor(types, t).value.title
    ensures exists j :: (0 <= j < |available| && Accepted(types, cats, available[j]) == Some(t) &&
      ExpectedTypes(available, Filing(types, cats), types)[t].config == Some(Config(Some(available[j].default_stake),
        if ConfigFor(types, t).value.config.Some? then ConfigFor(types, t).value.config.value.settings else map[])) &&
      forall k :: j < k < |available| ==> Accepted(types, cats, available[k]) != Some(t))
  {
    var filed := Filing(types, cats);
    ExpectedTypesMeaning(available, filed, types, t);
    LastStakeWins(available, filed, t);
    var j :| 0 <= j < |available| && filed(available[j]) == Some(t) &&
      Last(StakesFor(available, filed, t)) == available[j].default_stake &&
      forall k :: j < k < |available| ==> filed(available[k]) != Some(t);
    StakedConfig(ConfigFor(types, t).value, available[j].default_stake);
    assert Accepted(types, cats, available[j]) == Some(t);
    forall k | j < k < |available| ensures Accepted(types, cats, available[k]) != Some(t) {
      assert filed(available[k]) != Some(t);
    }
  }

  /** A contract whose type no configuration entry supports changes nothing. */
  lemma UnsupportedContractIgnored(available: seq<AvailableContract>, types: seq<TypeEntry>, cats: seq<CategoryEntry>, contract: AvailableContract)
    requires MapContractType(types, contract.contract_type).None?
    ensures ExpectedTypes(available + [contract], Filing(types, cats), types) == ExpectedTypes(available, Filing(types, cats), types)
    ensures forall t :: StakesFor(available + [contract], Filing(types, cats), t) == StakesFor(available, Filing(types, cats), t)
  {
    var next := available + [contract];
    assert next[..|available|] == available;
    assert next[..|available| + 1] == next;
    FoldStep(next, |available|, Filing(types, cats), types);
    forall t ensures StakesFor(next, Filing(types, cats), t) == StakesFor(available, Filing(types, cats), t) {
      StakesStep(next, |available|, Filing(types, cats), t);
    }
  }
}
