/** Values and outcomes common to the PL/pgSQL and Lua semantics. */
module Execution {
  import opened Wrappers

  /** The last two occur in Lua only, as caught errors: a table with a field `sqlstate`, and an object of the host
      program that has no fields. An error of Lua itself is its message. */
  datatype Value = Null | Bool(b: bool) | Int(n: int) | Text(s: string) | ErrorTable(sqlstate: string) | HostError

  /** How a statement ends. A bare RETURN gives no value. `Failed` is a runtime error; `OutOfFuel` means the loop bound
      was used up. */
  datatype Outcome<+S> =
    | Normal(state: S)
    | Exited(state: S)
    | Returned(value: Option<Value>, state: S)
    | Failed
    | OutOfFuel

  /** In Lua a missing value is nil. */
  function OrNull(value: Option<Value>): Value {
    if value.Some? then value.value else Null
  }

  function Ascending(lo: int, hi: int): (values: seq<int>)
    ensures |values| == if lo <= hi then hi - lo + 1 else 0
    ensures forall i :: 0 <= i < |values| ==> values[i] == lo + i
    decreases hi - lo
  {
    if lo > hi then [] else [lo] + Ascending(lo + 1, hi)
  }

  function Descending(hi: int, lo: int): (values: seq<int>)
    ensures |values| == if lo <= hi then hi - lo + 1 else 0
    ensures forall i :: 0 <= i < |values| ==> values[i] == hi - i
    decreases hi - lo
  {
    if lo > hi then [] else [hi] + Descending(hi - 1, lo)
  }
}
