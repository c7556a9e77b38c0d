# Safitty: a verified model of safe nested lookup

Safitty reads a value nested inside mappings and lists, usually a parsed configuration, without
raising on a malformed path. `Safitty.get(storage, *keys, strategy="final", default=None)` walks the
keys one at a time. Each step (`_inner_get`) turns a storage and a key into a status and a value.
The walk stops at the first step that does not succeed. It also remembers the last value that was
not None. Finally one of three strategies (`final`, `missing_key`, `last_value`) picks the result:
that remembered value, the caller's default, or the final value. A strategy name outside the three
raises `ValueError` before any lookup.

The model has five modules, one per component of `core.py`:

- `Types` (types.dfy): the values (`Null`, `Int`, `Str`, `Scalar`, `List`, `Map`, and `Opaque`, a
  user container whose read always raises), the keys (str, int, None, or any other type), the seven
  statuses with their integer codes, the three strategies with their names, the two exceptions that
  can leave `get`, and the walk's state (status, value, previous value).
- `StepEvaluator` (step.dfy): `_inner_get` as the function `InnerGet`. The Python type probing
  becomes a closed set of value kinds. The membership test and the guarded read are separate
  functions. A read that raises is `None`.
- `PathWalker` (walker.dfy): the loop of `get` as the recursive specification `WalkFrom`/`Walk`,
  with lemmas on appending keys, short-circuiting and the previous value.
- `Strategies` (strategies.dfy): the strategy check and the three `_need_*` predicates, with
  `Resolve` for the chain of early returns at the end of `get`.
- `Safitty` (safitty.dfy): `Lookup`, the specification of `get`; `Get`, the method with the loop of
  core.py, proved equal to `Lookup`; lemmas on the whole lookup; and the documented examples.

Where the model goes beyond the plain "mappings and lists" picture, it follows the code:

- A list with a str key takes the membership path. Membership is an element test, and the read
  `list[str]` that follows raises TypeError. That error is caught, so the step reports
  `ExceptionRaised` when the str is an element and `MissingKey` otherwise.
- A str storage with a str key is a substring test followed by a failing read. A str storage with
  an int key raises TypeError in the membership test. That test sits outside the `try`, so the
  TypeError leaves `get`; the model returns it as `Err(TypeError)`.
- The documentation examples of `get` (core.py:76-95) index from `config["top"]`, not from
  `config`. For index 0 the code returns `{"hello": "world"}`, not the `{"hi": "there"}` the
  docstring shows. The example lemmas state what the code does, on `config["top"]`. One more
  lemma states what the documented call does on the whole `config`.

## Model

| member | source | states |
|---|---|---|
| `Types.Code` | core.py:6-12 | each status has its integer constant between 0 and 6, and only `Okay` has 0 |
| `Types.CodeInjective` | core.py:6-12 | distinct statuses have distinct codes |
| `StepEvaluator.IsSubstringIffOccurs` | core.py:38 | the recursive substring test holds exactly when the key occurs at some position of the str |
| `StepEvaluator.Membership` | core.py:34-38 | the membership test raises exactly for an int key on a str storage (a TypeError); when it finds an int key in a list or any key in a mapping, the read that follows succeeds |
| `StepEvaluator.Read` | core.py:41-45 | a successful read of a list returns one of its elements, of a mapping the stored value of that key; the read of a user container always raises |
| `StepEvaluator.InnerGet` | core.py:21-49 | a step that does not succeed always comes with None; the only exception that escapes a step is the TypeError of an int key on a str storage |
| `StepEvaluator.CheckPrecedence` | core.py:25-47 | a None storage gives STORAGE_IS_NONE for any key; otherwise a None key gives KEY_IS_NONE; otherwise a key that is not str or int gives WRONG_KEY_TYPE whatever the storage holds; otherwise a storage without item access gives WRONG_STORAGE_TYPE |
| `StepEvaluator.OkayExactlyOnFound` | core.py:34-45 | a step succeeds with value v exactly when the storage is a list, the key an in-bounds int and v that element, or the storage is a mapping with that key and v its stored value |
| `StepEvaluator.ListIndex` | core.py:35-43 | a list with an int key is OKAY with the element exactly when 0 <= key < len, and MISSING_KEY with None otherwise |
| `StepEvaluator.NoNegativeIndexing` | core.py:35-36 | a negative index that a Python read would accept is still reported MISSING_KEY |
| `StepEvaluator.ListWithStrKey` | core.py:37-45 | a list with a str key is EXCEPTION_RAISED when the str is an element (the read raises) and MISSING_KEY otherwise, always with None |
| `StepEvaluator.MapLookup` | core.py:37-43 | a mapping with a str or int key is OKAY with the stored value (None included) exactly when the key is a member, MISSING_KEY with None otherwise |
| `StepEvaluator.StrStorage` | core.py:37-45 | a str storage with a str key is EXCEPTION_RAISED when the key is a substring and MISSING_KEY otherwise; with an int key it raises TypeError |
| `StepEvaluator.OpaqueRead` | core.py:38-45 | a user container whose read raises gives EXCEPTION_RAISED with None for a member key and MISSING_KEY otherwise |
| `PathWalker.WalkFrom` | core.py:122-128 | walking on from a state whose failed status carries no value ends in such a state; the only error is TypeError |
| `PathWalker.Walk` | core.py:115-128 | at the end of the walk a status other than OKAY comes with value None; the only error is TypeError |
| `PathWalker.ZeroKeys` | core.py:119-120 | with no keys the walk is KEY_IS_NONE (STORAGE_IS_NONE for a None storage), value None, previous value the storage |
| `PathWalker.WalkFromAppend` | core.py:122-128 | walking `a + b` is walking `a` and then walking `b` from where that stopped |
| `PathWalker.ShortCircuit` | core.py:122-128 | once a step has failed or raised, keys appended after it change nothing: no later key is looked at |
| `PathWalker.OneMoreKey` | core.py:123-126 | after a successful walk, one more key is exactly one more step from the value reached, and the previous value moves only to a value that is not None |
| `PathWalker.Initial` | core.py:115-117 | the walk starts from a state that satisfies "a failed status carries no value", with the storage as previous value |
| `PathWalker.PreviousIsLastFound` | core.py:117-126 | after the loop the previous value is the value of the most recent step that was not None, or the storage when there is none |
| `PathWalker.PreviousValue` | core.py:115-126 | the same for the whole walk, the zero-key case included |
| `Strategies.ParseStrategy` | core.py:112-113 | a strategy name is accepted exactly when it is one of the three, and names that strategy; a rejected name gives ValueError carrying that name |
| `Strategies.ParseName` | core.py:14-18 | every strategy is accepted under its own name |
| `Strategies.NeedLastValueStrategy` | core.py:52-54 | holds only under `last_value`, and never after a successful walk to a value that is not None |
| `Strategies.NeedMissingKeyStrategy` | core.py:57-59 | holds only under `missing_key`, and only after a failed walk |
| `Strategies.NeedDefaultStrategy` | core.py:62-64 | holds only under `final`; after a failed walk it holds exactly when the value is None |
| `Strategies.NeedsExclusive` | core.py:52-64 | at most one of the three `_need_*` tests holds for any status, value and strategy |
| `Strategies.Resolve` | core.py:130-139 | the result is always the previous value, the default or the final value |
| `Strategies.LastValueIgnoresDefault` | core.py:52-54 | `last_value` never depends on the default; it gives the final value after a successful walk to a value that is not None, and the previous value otherwise |
| `Strategies.MissingKeyOnlyOnMissing` | core.py:57-59 | `missing_key` gives the default exactly when the status is MISSING_KEY, and the final value otherwise |
| `Strategies.FinalOnNull` | core.py:62-64 | `final` gives the default exactly when the final value is None, whatever the status |
| `Strategies.FoundValueWins` | core.py:130-139 | a successful walk to a value that is not None gives that value under every strategy |
| `Safitty.Get` | core.py:112-139 | the loop that stops at the first failing status, followed by the three strategy checks, returns exactly `Lookup`: the checked strategy applied to the walk's outcome |
| `Safitty.Lookup` | core.py:112-139 | an unknown strategy name gives ValueError with that name; with a known name the lookup fails exactly when the walk raised; a result is always the default, the final value or the previous value of the walk |
| `Safitty.LookupWithDefaults` | core.py:70-71 | with the default arguments (`final`, None) the lookup returns the walk's final value, None after any failure, and TypeError when the walk raised |
| `Safitty.InvalidStrategyRejectedFirst` | core.py:112-113 | a name outside the three gives ValueError with that name whatever the storage and keys, even keys that would raise TypeError; an accepted name never gives ValueError |
| `Safitty.ZeroKeysStrategies` | core.py:119-139 | with no keys `final` returns the default, `last_value` the storage and `missing_key` None |
| `Safitty.FoundValueEveryStrategy` | core.py:130-139 | when every key is found and the final value is not None, every accepted strategy returns that value |
| `Safitty.MissingKeyPrecedence` | core.py:130-134 | a walk ending on a missing key gives the default under `missing_key`, and the last value found under `last_value` whatever the default |
| `Safitty.FinalDefaultOnNull` | core.py:136-139 | under `final` the lookup gives the default exactly when the walk ended with None |
| `Safitty.NoStorageGivesDefault` | core.py:25-26 | a None storage gives the default under `final` for any keys |
| `Safitty.ExampleNestedIndex` | core.py:85-86 | from `config["top"]`, keys "nested_1", 1, "hi" give "there" |
| `Safitty.ExampleFirstElement` | core.py:88-89 | from `config["top"]`, keys "nested_1", 0 give `{"hello": "world"}` |
| `Safitty.ExampleIndexOutOfRange` | core.py:91-92 | from `config["top"]`, index 2 of a two-element list gives None |
| `Safitty.ExampleMissingKeyStopsWalk` | core.py:94-95 | from `config["top"]`, a path that misses at "no" gives None |
| `Safitty.ExampleAllFoundMissingKey` | core.py:104-105 | under `missing_key`, a path whose keys are all found gives the found value, not the default |
| `Safitty.ExampleFromWholeConfig` | core.py:85-86 | the documented call on the whole `config` misses "nested_1": None under `final`, `config` itself under `last_value` |
| `Safitty.ExampleIntKeyOnStr` | core.py:35-38 | stepping into a str with an int key ends the lookup with TypeError |

## Left out

- Python's `bool` is a subclass of `int`, so `True` works as an index. The model has no booleans
  as keys; they fall under `KeyOther` or `Scalar`.
- Other sequence types (tuples, bytes, ranges) and user objects with arbitrary `__getitem__` /
  `__contains__` are left out. There is one user-container kind, `Opaque`, whose membership is a
  fixed key set and whose read always raises.
- Equality across numeric types as dictionary keys (`1`, `1.0`, `True`) is left out. Map keys
  compare as model keys.
- The text of the ValueError message is left out. The error carries the rejected name, and the
  accepted names are `AllStrategies`.
- The three `_need_*` predicates compare the strategy string. The model gives them the strategy
  already parsed. This is the same thing, because `get` rejects every other string first.
- The `.types` module imported at core.py:2 holds type aliases only and is not part of this model.
- Calling `get` twice on the same arguments gives the same result. The model is made of
  functions, so this holds by construction and is not stated as a lemma.
