/** Helpers shared by every part of the model: an optional value, and the
    first-match search that the service performs with `Array.prototype.find`
    on its station and user lists. */
module Common {

  /** A value that may be missing (`undefined` / `null` in the service). */
  datatype Option<+T> = None | Some(value: T)

  /** The index of the first element of `s` that satisfies `p`, or `None`
      when no element does. `find` returns the element itself; returning its
      index lets the callers also replace that element. */
  function FindIndex<T>(s: seq<T>, p: T -> bool): (r: Option<nat>)
    ensures r.Some? ==> r.value < |s| && p(s[r.value])
    ensures r.Some? ==> forall j :: 0 <= j < r.value ==> !p(s[j])
    ensures r.None? <==> forall j :: 0 <= j < |s| ==> !p(s[j])
  {
    if |s| == 0 then None
    else if p(s[0]) then Some(0)
    else match FindIndex(s[1..], p)
      case None => None
      case Some(k) => Some(k + 1)
  }

  /** A value of a JSON request body, as the handlers see it after
      `express.json()`. `Absent` is a missing key (`undefined`). A number
      carries the text `String(n)` gives for it, and an array or object the
      text its `String` conversion gives; both are inputs of the model, as
      number formatting is not modelled. */
  datatype Json =
    | Absent
    | JNull
    | JBool(b: bool)
    | JNum(n: real, shown: string)
    | JStr(s: string)
    | JComposite(shown: string)

  /** JavaScript truthiness: `undefined`, `null`, `false`, `0` and `""` are
      falsy, everything else is truthy. */
  predicate Truthy(v: Json) {
    match v
    case Absent => false
    case JNull => false
    case JBool(b) => b
    case JNum(n, _) => n != 0.0
    case JStr(s) => s != ""
    case JComposite(_) => true
  }

  /** `String(v)` for the values that can reach it. */
  function Shown(v: Json): string {
    match v
    case Absent => "undefined"
    case JNull => "null"
    case JBool(b) => if b then "true" else "false"
    case JNum(_, shown) => shown
    case JStr(s) => s
    case JComposite(shown) => shown
  }
}
