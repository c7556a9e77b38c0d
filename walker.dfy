/** The walk of `Safitty.get` over its keys, as a specification: one step per key, stopping at the
    first step that does not succeed, and remembering the last value that was not None. */
module PathWalker {
  import opened Types
  import opened StepEvaluator

  /** The locals before the first key: status Okay, and both values the storage itself. */
  function Initial(storage: Value): (w: WalkState)
    ensures FailureCarriesNoValue(w) && w.previous == storage
  {
    WalkState(Okay, storage, storage)
  }

  /** A walk state in which a failed status carries no value. */
  predicate FailureCarriesNoValue(w: WalkState)
  {
    w.status != Okay ==> w.value == Null
  }

  /** The walk over `keys` from the locals `w`: a key is stepped into only while the status is Okay,
      and `previous` moves to each step's value that is not None. */
  function WalkFrom(w: WalkState, keys: seq<Key>): (r: Result<WalkState>)
    ensures FailureCarriesNoValue(w) && r.Ok? ==> FailureCarriesNoValue(r.value)
    ensures r.Err? ==> r.error == TypeError
    decreases |keys|
  {
    if |keys| == 0 || w.status != Okay then Ok(w)
    else
      match InnerGet(w.value, keys[0])
      case Err(e) => Err(e)
      case Ok(step) =>
        WalkFrom(WalkState(step.status, step.value, if step.value != Null then step.value else w.previous), keys[1..])
  }

  /** The whole walk: with no keys, one step with a None key; otherwise a walk from the storage. */
  function Walk(storage: Value, keys: seq<Key>): (r: Result<WalkState>)
    ensures r.Ok? ==> FailureCarriesNoValue(r.value)
    ensures r.Err? ==> r.error == TypeError
  {
    if |keys| == 0 then
      match InnerGet(storage, KeyNone)
      case Err(e) => Err(e)
      case Ok(step) => Ok(WalkState(step.status, step.value, storage))
    else WalkFrom(Initial(storage), keys)
  }

  /** With no keys the walk reports the missing key (or the missing storage) and holds no value. */
  lemma ZeroKeys(storage: Value)
    ensures Walk(storage, []) ==
              Ok(WalkState(if storage == Null then StorageIsNone else KeyIsNone, Null, storage))
  {
  }

  /** Walking `a + b` is walking `a` and then, from where it stopped, `b`. */
  lemma {:induction false} WalkFromAppend(w: WalkState, a: seq<Key>, b: seq<Key>)
    ensures WalkFrom(w, a + b) ==
              match WalkFrom(w, a)
              case Err(e) => Err(e)
              case Ok(w') => WalkFrom(w', b)
    decreases |a|
  {
    if |a| == 0 {
      assert a + b == b;
    } else if w.status != Okay {
    } else {
      assert (a + b)[0] == a[0];
      assert (a + b)[1..] == a[1..] + b;
      match InnerGet(w.value, a[0])
      case Err(e) =>
      case Ok(step) =>
        WalkFromAppend(WalkState(step.status, step.value, if step.value != Null then step.value else w.previous), a[1..], b);
    }
  }

  /** Once a step has failed no later key is looked at: keys appended after the failure, or after
      an exception, change nothing. */
  lemma ShortCircuit(storage: Value, keys: seq<Key>, rest: seq<Key>)
    requires |keys| > 0
    requires Walk(storage, keys).Err? || Walk(storage, keys).value.status != Okay
    ensures Walk(storage, keys + rest) == Walk(storage, keys)
  {
    WalkFromAppend(Initial(storage), keys, rest);
  }

  /** Every key is stepped into in turn while the steps succeed: one more key after a successful walk
      is exactly one more step from the value reached. */
  lemma {:induction false} OneMoreKey(storage: Value, keys: seq<Key>, k: Key, w: WalkState)
    requires |keys| > 0
    requires Walk(storage, keys) == Ok(w) && w.status == Okay
    ensures Walk(storage, keys + [k]) ==
              match InnerGet(w.value, k)
              case Err(e) => Err(e)
              case Ok(step) => Ok(WalkState(step.status, step.value, if step.value != Null then step.value else w.previous))
  {
    WalkFromAppend(Initial(storage), keys, [k]);
  }

  /** The value held after the first `j` keys (for `j == 0`, the storage itself). */
  function ValueAfter(storage: Value, keys: seq<Key>, j: nat): Value
    requires j <= |keys|
  {
    match WalkFrom(Initial(storage), keys[..j])
    case Err(_) => Null
    case Ok(w) => w.value
  }

  /** The most recent value that was not None among the first `j` steps, or the storage when there
      is none: an independent description of `previous_value`. */
  function LastFound(storage: Value, keys: seq<Key>, j: nat): Value
    requires j <= |keys|
    decreases j
  {
    if j == 0 then storage
    else if ValueAfter(storage, keys, j) != Null then ValueAfter(storage, keys, j)
    else LastFound(storage, keys, j - 1)
  }

  lemma {:induction false} LastFoundOfPrefix(storage: Value, keys: seq<Key>, k: Key, j: nat)
    requires j <= |keys|
    ensures LastFound(storage, keys + [k], j) == LastFound(storage, keys, j)
    decreases j
  {
    assert (keys + [k])[..j] == keys[..j];
    if j > 0 {
      LastFoundOfPrefix(storage, keys, k, j - 1);
    }
  }

  /** `previous_value` is always the storage or the value of the most recent step that was not None. */
  lemma {:induction false} PreviousIsLastFound(storage: Value, keys: seq<Key>)
    requires WalkFrom(Initial(storage), keys).Ok?
    ensures WalkFrom(Initial(storage), keys).value.previous == LastFound(storage, keys, |keys|)
    decreases |keys|
  {
    if |keys| > 0 {
      var n := |keys| - 1;
      var a, k := keys[..n], keys[n];
      assert keys == a + [k];
      assert keys[..|keys|] == keys;
      WalkFromAppend(Initial(storage), a, [k]);
      PreviousIsLastFound(storage, a);
      LastFoundOfPrefix(storage, a, k, n);
    }
  }

  /** The same for the whole walk. */
  lemma PreviousValue(storage: Value, keys: seq<Key>)
    requires Walk(storage, keys).Ok?
    ensures Walk(storage, keys).value.previous == LastFound(storage, keys, |keys|)
  {
    if |keys| > 0 {
      PreviousIsLastFound(storage, keys);
    }
  }
}
