/** The values, keys, statuses and strategies that a Safitty lookup works on. */
module Types {

  /** A key passed to one lookup step: a str, an int, None, or anything else (a float, a tuple, ...). */
  datatype Key = KeyStr(s: string) | KeyInt(n: int) | KeyNone | KeyOther

  /** A value found in (or handed to) a lookup.
      Only `Str`, `List`, `Map` and `Opaque` have item access; `Opaque` is a user container whose
      membership test answers for `members` and whose item read always raises. */
  datatype Value =
    | Null
    | Int(n: int)
    | Str(text: string)
    | Scalar
    | List(items: seq<Value>)
    | Map(entries: map<Key, Value>)
    | Opaque(members: set<Key>)

  /** The outcome of one lookup step. */
  datatype Status =
    | Okay
    | StorageIsNone
    | KeyIsNone
    | MissingKey
    | WrongKeyType
    | WrongStorageType
    | ExceptionRaised

  /** The integer constant core.py gives each status. The model compares `Status` constructors
      where core.py compares these integers; `CodeInjective` is what makes the two the same. */
  function Code(status: Status): (c: nat)
    ensures c <= 6
    ensures c == 0 <==> status == Okay
  {
    match status
    case Okay => 0
    case StorageIsNone => 1
    case KeyIsNone => 2
    case MissingKey => 3
    case WrongKeyType => 4
    case WrongStorageType => 5
    case ExceptionRaised => 6
  }

  lemma CodeInjective(a: Status, b: Status)
    ensures Code(a) == Code(b) ==> a == b
  {
  }

  /** The fallback strategies a caller can choose. */
  datatype Strategy = StrategyMissingKey | StrategyFinal | StrategyLastValue

  /** The string by which a caller names each strategy. */
  function Name(strategy: Strategy): string
  {
    match strategy
    case StrategyMissingKey => "missing_key"
    case StrategyFinal => "final"
    case StrategyLastValue => "last_value"
  }

  /** Every accepted strategy name, in the order of `Safitty._ALL_STRATEGIES`. */
  const AllStrategies: seq<string> := ["missing_key", "final", "last_value"]

  /** The exceptions that leave a lookup: a rejected strategy name, and the TypeError that the
      membership test of an int in a str raises outside the guarded read. */
  datatype Error = ValueError(strategy: string) | TypeError

  datatype Option<T> = None | Some(value: T)

  datatype Result<T> = Ok(value: T) | Err(error: Error)

  /** What one step returns: a status and a value (None unless the step succeeded). */
  datatype Step = Step(status: Status, value: Value)

  /** The locals a walk threads through the keys: `_status`, `value` and `previous_value`. */
  datatype WalkState = WalkState(status: Status, value: Value, previous: Value)
}
