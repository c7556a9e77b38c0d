/** `Safitty.get`: a safe lookup of a value nested in mappings and lists. */
module Safitty {
  import opened Types
  import opened StepEvaluator
  import opened PathWalker
  import opened Strategies

  /** What a lookup returns: the strategy is checked first, then the keys are walked, then the
      strategy picks the previous value, the default or the final value. */
  function Lookup(storage: Value, keys: seq<Key>, strategy: string, default: Value): (r: Result<Value>)
    ensures strategy !in AllStrategies ==> r == Err(ValueError(strategy))
    ensures strategy in AllStrategies ==> (r.Err? <==> Walk(storage, keys).Err?)
    ensures r.Ok? ==> r.value == default || r.value == Walk(storage, keys).value.value
                      || r.value == Walk(storage, keys).value.previous
  {
    match ParseStrategy(strategy)
    case Err(e) => Err(e)
    case Ok(st) =>
      match Walk(storage, keys)
      case Err(e) => Err(e)
      case Ok(w) => Ok(Resolve(w, st, default))
  }

  /** A lookup with the default arguments of `get`: strategy "final" and default None. It gives
      the final value of the walk, which is None whenever the walk failed. */
  function LookupWithDefaults(storage: Value, keys: seq<Key>): (r: Result<Value>)
    ensures Walk(storage, keys).Ok? ==> r == Ok(Walk(storage, keys).value.value)
    ensures Walk(storage, keys).Err? ==> r == Err(TypeError)
  {
    Lookup(storage, keys, "final", Null)
  }

  /** The lookup as `Safitty.get` in core.py runs it: a loop over the keys that updates the status, the value
      and the previous value, and stops at the first step that does not succeed. */
  method Get(storage: Value, keys: seq<Key>, strategy: string, default: Value) returns (r: Result<Value>)
    ensures r == Lookup(storage, keys, strategy, default)
  {
    var parsed := ParseStrategy(strategy);
    if parsed.Err? {
      return Err(parsed.error);
    }
    var value := storage;
    var status := Okay;
    var previous := value;

    if |keys| == 0 {
      var step := InnerGet(storage, KeyNone);
      status, value := step.value.status, step.value.value;
    }

    var i := 0;
    while i < |keys|
      invariant 0 <= i <= |keys|
      invariant |keys| == 0 ==> Walk(storage, keys) == Ok(WalkState(status, value, previous))
      invariant |keys| > 0 ==> Walk(storage, keys) == WalkFrom(WalkState(status, value, previous), keys[i..])
    {
      if status == Okay {
        ghost var before := WalkState(status, value, previous);
        assert keys[i..][0] == keys[i] && keys[i..][1..] == keys[i + 1..];
        var step := InnerGet(value, keys[i]);
        if step.Err? {
          assert WalkFrom(before, keys[i..]) == Err(step.error);
          return Err(step.error);
        }
        status, value := step.value.status, step.value.value;
        if value != Null {
          previous := value;
        }
      } else {
        break;
      }
      i := i + 1;
    }

    ghost var w := WalkState(status, value, previous);
    assert Walk(storage, keys) == Ok(w);
    assert Lookup(storage, keys, strategy, default) == Ok(Resolve(w, parsed.value, default));
    if NeedLastValueStrategy(status, value, parsed.value) {
      return Ok(previous);
    }
    if NeedMissingKeyStrategy(status, value, parsed.value) {
      return Ok(default);
    }
    if NeedDefaultStrategy(status, value, parsed.value) {
      return Ok(default);
    }
    return Ok(value);
  }

  /** A strategy name outside the three is rejected with a ValueError before anything is looked
      up, whatever the storage and the keys; an accepted name never yields a ValueError. */
  lemma InvalidStrategyRejectedFirst(storage: Value, keys: seq<Key>, strategy: string, default: Value)
    ensures strategy !in AllStrategies ==> Lookup(storage, keys, strategy, default) == Err(ValueError(strategy))
    ensures strategy in AllStrategies ==> !(Lookup(storage, keys, strategy, default).Err? &&
                                            Lookup(storage, keys, strategy, default).error.ValueError?)
  {
  }

  /** With no keys: `final` gives the default, `last_value` the storage, `missing_key` None. */
  lemma ZeroKeysStrategies(storage: Value, default: Value)
    ensures Lookup(storage, [], "final", default) == Ok(default)
    ensures Lookup(storage, [], "last_value", default) == Ok(storage)
    ensures Lookup(storage, [], "missing_key", default) == Ok(Null)
  {
    ZeroKeys(storage);
  }

  /** When every key is found and the final value is not None, every strategy returns that value. */
  lemma FoundValueEveryStrategy(storage: Value, keys: seq<Key>, strategy: string, default: Value, w: WalkState)
    requires strategy in AllStrategies
    requires Walk(storage, keys) == Ok(w) && w.status == Okay && w.value != Null
    ensures Lookup(storage, keys, strategy, default) == Ok(w.value)
  {
    FoundValueWins(w, ParseStrategy(strategy).value, default);
  }

  /** A walk that ended on a missing key gives the default under `missing_key`, even when some value
      was found on the way, and the last value found under `last_value`, whatever the default. */
  lemma MissingKeyPrecedence(storage: Value, keys: seq<Key>, default: Value, w: WalkState)
    requires Walk(storage, keys) == Ok(w) && w.status == MissingKey
    ensures Lookup(storage, keys, "missing_key", default) == Ok(default)
    ensures Lookup(storage, keys, "last_value", default) == Ok(LastFound(storage, keys, |keys|))
  {
    PreviousValue(storage, keys);
  }

  /** `final` gives the default exactly when the walk ended with None, found or not. */
  lemma FinalDefaultOnNull(storage: Value, keys: seq<Key>, default: Value, w: WalkState)
    requires Walk(storage, keys) == Ok(w)
    ensures Lookup(storage, keys, "final", default) == Ok(if w.value == Null then default else w.value)
  {
  }

  /** A missing storage gives the default under `final`, whatever the keys. */
  lemma NoStorageGivesDefault(keys: seq<Key>, default: Value)
    ensures Lookup(Null, keys, "final", default) == Ok(default)
  {
    if |keys| > 0 {
      assert InnerGet(Null, keys[0]) == Ok(Step(StorageIsNone, Null));
      assert WalkFrom(WalkState(StorageIsNone, Null, Null), keys[1..]) == Ok(WalkState(StorageIsNone, Null, Null));
    }
  }

  /** The configuration used by the examples in the docstring of `Safitty.get`. */
  function Config(): Value
  {
    Map(map[KeyStr("top") := Top()])
  }

  function Top(): Value
  {
    Map(map[
      KeyStr("nested_1") := List([Map(map[KeyStr("hello") := Str("world")]), Map(map[KeyStr("hi") := Str("there")])]),
      KeyStr("nested_2") := Map(map[KeyStr("some_string") := Str("some_value")])
    ])
  }

  lemma ExampleNestedIndex()
    ensures Lookup(Top(), [KeyStr("nested_1"), KeyInt(1), KeyStr("hi")], "final", Null) == Ok(Str("there"))
  {
  }

  /** Index 0 gives the first element, `{"hello": "world"}`. */
  lemma ExampleFirstElement()
    ensures Lookup(Top(), [KeyStr("nested_1"), KeyInt(0)], "final", Null) ==
              Ok(Map(map[KeyStr("hello") := Str("world")]))
  {
  }

  lemma ExampleIndexOutOfRange()
    ensures Lookup(Top(), [KeyStr("nested_1"), KeyInt(2), KeyStr("hi")], "final", Null) == Ok(Null)
  {
  }

  lemma ExampleMissingKeyStopsWalk()
    ensures Lookup(Top(), [KeyStr("nested_2"), KeyStr("no"), KeyStr("key"), KeyStr("at"), KeyInt(1),
                           KeyStr("all"), KeyInt(4)], "final", Null) == Ok(Null)
  {
  }

  lemma ExampleAllFoundMissingKey()
    ensures Lookup(Top(), [KeyStr("nested_2"), KeyStr("some_string")], "missing_key", Str("fallback")) ==
              Ok(Str("some_value"))
  {
  }

  /** The documented call made on the whole configuration misses its first key. */
  lemma ExampleFromWholeConfig()
    ensures Lookup(Config(), [KeyStr("nested_1"), KeyInt(1), KeyStr("hi")], "final", Null) == Ok(Null)
    ensures Lookup(Config(), [KeyStr("nested_1"), KeyInt(1), KeyStr("hi")], "last_value", Null) == Ok(Config())
  {
  }

  /** An int key on a str reaches the TypeError that escapes the lookup. */
  lemma ExampleIntKeyOnStr(default: Value)
    ensures Lookup(Top(), [KeyStr("nested_2"), KeyStr("some_string"), KeyInt(0)], "final", default) ==
              Err(TypeError)
  {
  }
}
