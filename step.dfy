/** One lookup step: a storage and a key give a status and a value (`Safitty._inner_get`). */
module StepEvaluator {
  import opened Types

  /** Only str and int keys pass the key-type check. */
  predicate IsStrOrInt(key: Key)
  {
    key.KeyStr? || key.KeyInt?
  }

  /** Whether the storage has item access at all. */
  predicate HasItemAccess(storage: Value)
  {
    storage.Str? || storage.List? || storage.Map? || storage.Opaque?
  }

  /** `k` occurs in `text` starting at position `i`. */
  predicate OccursAt(k: string, text: string, i: int)
  {
    0 <= i && i + |k| <= |text| && text[i..i + |k|] == k
  }

  /** The test `k in text` on two strings: a substring test (the empty string is in every string). */
  function IsSubstring(k: string, text: string): bool
    decreases |text|
  {
    k <= text || (|text| > 0 && IsSubstring(k, text[1..]))
  }

  lemma {:induction false} IsSubstringIffOccurs(k: string, text: string)
    ensures IsSubstring(k, text) <==> exists i :: OccursAt(k, text, i)
    decreases |text|
  {
    if k <= text {
      assert OccursAt(k, text, 0);
    } else if |text| > 0 {
      IsSubstringIffOccurs(k, text[1..]);
      if IsSubstring(k, text[1..]) {
        var i :| OccursAt(k, text[1..], i);
        assert text[1..][i..i + |k|] == text[i + 1..i + 1 + |k|];
        assert OccursAt(k, text, i + 1);
      }
      if i :| OccursAt(k, text, i) {
        if i == 0 {
          assert false;
        } else {
          assert text[1..][i - 1..i - 1 + |k|] == text[i..i + |k|];
          assert OccursAt(k, text[1..], i - 1);
        }
      }
    } else {
      if i :| OccursAt(k, text, i) {
        assert false;
      }
    }
  }

  /** The membership test that guards the read: a bounds check for a list with an int key,
      the `in` operator otherwise. Testing an int for membership in a str raises TypeError. */
  function Membership(storage: Value, key: Key): (r: Result<bool>)
    requires HasItemAccess(storage) && IsStrOrInt(key)
    ensures r.Err? <==> storage.Str? && key.KeyInt?
    ensures r.Err? ==> r.error == TypeError
    ensures r == Ok(true) && ((storage.List? && key.KeyInt?) || storage.Map?) ==> Read(storage, key).Some?
  {
    match storage
    case List(items) =>
      if key.KeyInt? then Ok(0 <= key.n < |items|) else Ok(Str(key.s) in items)
    case Map(entries) => Ok(key in entries)
    case Str(text) => if key.KeyStr? then Ok(IsSubstring(key.s, text)) else Err(TypeError)
    case Opaque(members) => Ok(key in members)
  }

  /** The item read `storage[key]`; `None` when the read raises (IndexError, KeyError, TypeError,
      or any error of a user container). Lists and strs accept negative indices from the end.
      The read of a str by an int is Python's, but `InnerGet` never reaches it: the membership
      test before it raises TypeError first. */
  function Read(storage: Value, key: Key): (r: Option<Value>)
    requires HasItemAccess(storage) && IsStrOrInt(key)
    ensures r.Some? && storage.List? ==> r.value in storage.items
    ensures r.Some? && storage.Map? ==> key in storage.entries && r.value == storage.entries[key]
    ensures storage.Opaque? ==> r.None?
  {
    match storage
    case List(items) =>
      if key.KeyStr? then None
      else if 0 <= key.n < |items| then Some(items[key.n])
      else if -|items| <= key.n < 0 then Some(items[|items| + key.n])
      else None
    case Map(entries) => if key in entries then Some(entries[key]) else None
    case Str(text) =>
      if key.KeyStr? then None
      else if 0 <= key.n < |text| then Some(Str([text[key.n]]))
      else if -|text| <= key.n < 0 then Some(Str([text[|text| + key.n]]))
      else None
    case Opaque(_) => None
  }

  /** One step of a lookup. The checks run in a fixed order; every status but `Okay` comes with None,
      and the only exception that escapes is the TypeError of an int key on a str storage. */
  function InnerGet(storage: Value, key: Key): (r: Result<Step>)
    ensures r.Err? ==> r.error == TypeError && storage.Str? && key.KeyInt?
    ensures r.Ok? && r.value.status != Okay ==> r.value.value == Null
  {
    if storage == Null then Ok(Step(StorageIsNone, Null))
    else if key == KeyNone then Ok(Step(KeyIsNone, Null))
    else if !IsStrOrInt(key) then Ok(Step(WrongKeyType, Null))
    else if !HasItemAccess(storage) then Ok(Step(WrongStorageType, Null))
    else
      match Membership(storage, key)
      case Err(e) => Err(e)
      case Ok(found) =>
        if !found then Ok(Step(MissingKey, Null))
        else
          match Read(storage, key)
          case None => Ok(Step(ExceptionRaised, Null))
          case Some(v) => Ok(Step(Okay, v))
  }

  /** The first four checks, in their order of precedence. */
  lemma CheckPrecedence(storage: Value, key: Key)
    ensures storage == Null ==> InnerGet(storage, key) == Ok(Step(StorageIsNone, Null))
    ensures storage != Null && key == KeyNone ==> InnerGet(storage, key) == Ok(Step(KeyIsNone, Null))
    ensures storage != Null && key != KeyNone && !IsStrOrInt(key) ==>
              InnerGet(storage, key) == Ok(Step(WrongKeyType, Null))
    ensures storage != Null && IsStrOrInt(key) && !HasItemAccess(storage) ==>
              InnerGet(storage, key) == Ok(Step(WrongStorageType, Null))
  {
  }

  /** A step succeeds exactly on an in-bounds index of a list or a member key of a mapping,
      and then returns the stored element, None included. */
  lemma OkayExactlyOnFound(storage: Value, key: Key, v: Value)
    ensures InnerGet(storage, key) == Ok(Step(Okay, v)) <==>
              || (storage.List? && key.KeyInt? && 0 <= key.n < |storage.items| && v == storage.items[key.n])
              || (storage.Map? && IsStrOrInt(key) && key in storage.entries && v == storage.entries[key])
  {
  }

  /** A list with an int key: found exactly on `0 <= i < len`; no indexing from the end. */
  lemma ListIndex(items: seq<Value>, i: int)
    ensures InnerGet(List(items), KeyInt(i)) ==
              if 0 <= i < |items| then Ok(Step(Okay, items[i])) else Ok(Step(MissingKey, Null))
  {
  }

  /** A negative index in range would be readable, yet the bounds check reports it missing. */
  lemma NoNegativeIndexing(items: seq<Value>, i: int)
    requires -|items| <= i < 0
    ensures Read(List(items), KeyInt(i)) == Some(items[|items| + i])
    ensures InnerGet(List(items), KeyInt(i)) == Ok(Step(MissingKey, Null))
  {
  }

  /** A list with a str key: the membership test looks for the str among the elements, and the
      read that follows raises, so the step fails either way. */
  lemma ListWithStrKey(items: seq<Value>, s: string)
    ensures InnerGet(List(items), KeyStr(s)) ==
              Ok(Step(if Str(s) in items then ExceptionRaised else MissingKey, Null))
  {
  }

  /** A mapping with a str or int key: found exactly on a member key, and then the stored value. */
  lemma MapLookup(entries: map<Key, Value>, key: Key)
    requires IsStrOrInt(key)
    ensures InnerGet(Map(entries), key) ==
              if key in entries then Ok(Step(Okay, entries[key])) else Ok(Step(MissingKey, Null))
  {
  }

  /** A str storage never yields a value: a str key is a substring test followed by a failing read,
      an int key raises TypeError out of the step. */
  lemma StrStorage(text: string, key: Key)
    requires IsStrOrInt(key)
    ensures key.KeyStr? ==>
              InnerGet(Str(text), key) ==
              Ok(Step(if exists i :: OccursAt(key.s, text, i) then ExceptionRaised else MissingKey, Null))
    ensures key.KeyInt? ==> InnerGet(Str(text), key) == Err(TypeError)
  {
    if key.KeyStr? {
      IsSubstringIffOccurs(key.s, text);
    }
  }

  /** A user container whose read raises: a member key is reported as a raised exception. */
  lemma OpaqueRead(members: set<Key>, key: Key)
    requires IsStrOrInt(key)
    ensures InnerGet(Opaque(members), key) ==
              Ok(Step(if key in members then ExceptionRaised else MissingKey, Null))
  {
  }
}
