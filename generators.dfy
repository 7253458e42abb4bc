/** A Python generator as a `for` loop consumes it: the items it yields, in
    order, and optionally the exception it raises when asked for one more
    item. An exception raised before the first item (for instance while
    the generator sets up a network request) has `before == 0`. */
module Generators {
  import opened Wrappers

  /** The exception raised instead of producing item number `before`, and
      its text, as `f"{e}"` would render it. */
  datatype Raised = Raised(before: nat, message: string)

  datatype Gen<T> = Gen(items: seq<T>, raises: Option<Raised>)
  {
    /** How many items a consumer receives before the generator stops. */
    function Delivered(): nat
    {
      if raises.Some? && raises.value.before < |items| then raises.value.before else |items|
    }

    /** The text of the exception that ends the iteration, if any. */
    function RaisedMessage(): Option<string>
    {
      if raises.Some? then Some(raises.value.message) else None
    }
  }
}
