/**
 * The JavaScript values the colouring engine works with: `null`, the
 * truthiness of `string | null`, the bytes of a `Uint8ClampedArray` and
 * `Array.prototype.indexOf`.
 */
module JsValues {

  /** `T | null`. */
  datatype Option<+T> = None | Some(value: T)

  /** An element of a `Uint8ClampedArray`. */
  type byte = x: int | 0 <= x < 256

  /** JavaScript truthiness of a `string | null`: `null` and `""` are falsy. */
  predicate Truthy(o: Option<string>)
  {
    o.Some? && o.value != ""
  }

  /** `!fill || fill === "none"`: a colour that is still to be resolved. */
  predicate Unresolved(o: Option<string>)
  {
    !Truthy(o) || o.value == "none"
  }

  /** `s.indexOf(x)`: the first position holding `x`, or -1. */
  function IndexOf<T(==)>(s: seq<T>, x: T): (r: int)
    ensures -1 <= r < |s|
    ensures r == -1 <==> x !in s
    ensures 0 <= r ==> s[r] == x && forall j :: 0 <= j < r ==> s[j] != x
  {
    if |s| == 0 then -1
    else if s[0] == x then 0
    else
      var k := IndexOf(s[1..], x);
      if k == -1 then -1 else k + 1
  }
}
