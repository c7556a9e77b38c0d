/** Choosing what `Safitty.get` returns once the walk is over. */
module Strategies {
  import opened Types

  /** The check made before any lookup: a strategy name is accepted exactly when it is one of the
      three, and a rejected name is reported with the name itself. */
  function ParseStrategy(name: string): (r: Result<Strategy>)
    ensures r.Ok? <==> name in AllStrategies
    ensures r.Ok? ==> Name(r.value) == name
    ensures r.Err? ==> r.error == ValueError(name)
  {
    if name == "missing_key" then Ok(StrategyMissingKey)
    else if name == "final" then Ok(StrategyFinal)
    else if name == "last_value" then Ok(StrategyLastValue)
    else Err(ValueError(name))
  }

  lemma ParseName(strategy: Strategy)
    ensures ParseStrategy(Name(strategy)) == Ok(strategy)
  {
  }

  /** `last_value` takes over whenever the walk did not end on a found value that is not None. */
  function NeedLastValueStrategy(status: Status, value: Value, strategy: Strategy): (r: bool)
    ensures r ==> strategy == StrategyLastValue
    ensures status == Okay && value != Null ==> !r
  {
    strategy == StrategyLastValue && (status != Okay || value == Null)
  }

  /** `missing_key` takes over only on a missing key, not on any other failure. */
  function NeedMissingKeyStrategy(status: Status, value: Value, strategy: Strategy): (r: bool)
    ensures r ==> strategy == StrategyMissingKey && status != Okay
  {
    strategy == StrategyMissingKey && status == MissingKey
  }

  /** `final` takes over whenever the final value is None, whatever the status. */
  function NeedDefaultStrategy(status: Status, value: Value, strategy: Strategy): (r: bool)
    ensures r ==> strategy == StrategyFinal
    ensures strategy == StrategyFinal && status != Okay ==> (r <==> value == Null)
  {
    strategy == StrategyFinal && value == Null
  }

  /** At most one of the three tests holds, so their order decides nothing between them. */
  lemma NeedsExclusive(status: Status, value: Value, strategy: Strategy)
    ensures !(NeedLastValueStrategy(status, value, strategy) && NeedMissingKeyStrategy(status, value, strategy))
    ensures !(NeedLastValueStrategy(status, value, strategy) && NeedDefaultStrategy(status, value, strategy))
    ensures !(NeedMissingKeyStrategy(status, value, strategy) && NeedDefaultStrategy(status, value, strategy))
  {
  }

  /** The three tests in their fixed order; the first that holds decides, else the final value. */
  function Resolve(w: WalkState, strategy: Strategy, default: Value): (r: Value)
    ensures r == w.previous || r == default || r == w.value
  {
    if NeedLastValueStrategy(w.status, w.value, strategy) then w.previous
    else if NeedMissingKeyStrategy(w.status, w.value, strategy) then default
    else if NeedDefaultStrategy(w.status, w.value, strategy) then default
    else w.value
  }

  /** `last_value` never consults the default: it gives the final value after a full successful
      walk to a value, and the last value found otherwise. */
  lemma LastValueIgnoresDefault(w: WalkState, d1: Value, d2: Value)
    ensures Resolve(w, StrategyLastValue, d1) == Resolve(w, StrategyLastValue, d2)
    ensures Resolve(w, StrategyLastValue, d1) ==
              if w.status == Okay && w.value != Null then w.value else w.previous
  {
  }

  /** `missing_key` gives the default exactly when a key was missing, and the final value otherwise. */
  lemma MissingKeyOnlyOnMissing(w: WalkState, default: Value)
    ensures Resolve(w, StrategyMissingKey, default) == if w.status == MissingKey then default else w.value
  {
  }

  /** `final` gives the default exactly when the final value is None, whatever the status. */
  lemma FinalOnNull(w: WalkState, default: Value)
    ensures Resolve(w, StrategyFinal, default) == if w.value == Null then default else w.value
  {
  }

  /** A walk that succeeded to a value that is not None gives that value under every strategy. */
  lemma FoundValueWins(w: WalkState, strategy: Strategy, default: Value)
    requires w.status == Okay && w.value != Null
    ensures Resolve(w, strategy, default) == w.value
  {
  }
}
