/** The Python runtime as far as the modelled code observes it: dynamically
    typed values (the dictionaries and lists the plugins build and return),
    the exceptions they raise, and the "first element that matches" search
    behind every early-returning loop and every `find_one` lookup. */
module Py {

  datatype Option<+T> = None | Some(value: T)

  /** A Python value of the kinds the modelled code builds or inspects. */
  datatype Value =
    | VNone
    | VBool(b: bool)
    | VInt(n: int)
    | VStr(s: string)
    | VList(items: seq<Value>)
    | VDict(entries: map<string, Value>)

  /** The exceptions the modelled code raises, each with its argument. */
  datatype Exception =
    | ValueError(message: string)
    | KeyError(key: string)
    | IndexError(message: string)
    | TypeError(message: string)
    | AttributeError(message: string)
    | RuntimeError(message: string)

  /** A computation that either returns a value or raises. */
  datatype Result<+T> = Ok(value: T) | Err(error: Exception)

  /** Python's truth value of an object (`if x:`). */
  predicate Truthy(v: Value) {
    match v
    case VNone => false
    case VBool(b) => b
    case VInt(n) => n != 0
    case VStr(s) => s != ""
    case VList(items) => items != []
    case VDict(entries) => entries != map[]
  }

  /** The index of the first element of `s` that satisfies `p`, if any. */
  function FirstIndex<T>(s: seq<T>, p: T -> bool): (r: Option<nat>)
    ensures r.Some? ==> r.value < |s| && p(s[r.value])
    ensures r.Some? ==> forall j :: 0 <= j < r.value ==> !p(s[j])
    ensures r.None? <==> forall j :: 0 <= j < |s| ==> !p(s[j])
  {
    if s == [] then None
    else if p(s[0]) then Some(0)
    else match FirstIndex(s[1..], p)
      case None => None
      case Some(k) => Some(k + 1)
  }

  /** The first index is determined by the elements before it and itself. */
  lemma FirstIndexAt<T>(s: seq<T>, p: T -> bool, i: nat)
    requires i < |s| && p(s[i])
    requires forall j :: 0 <= j < i ==> !p(s[j])
    ensures FirstIndex(s, p) == Some(i)
  {
  }
}
