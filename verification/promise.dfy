/**
 * The promise bridge (`handle_promise`, src/main.rs:99-118). A promise is either
 * still pending or ready with its value; the environment turns a pending promise
 * into a ready one between frames. A slot holds at most one promise; polling a slot
 * runs the handler on a ready value exactly once and empties the slot.
 */
module Promises {
  import opened Wrappers

  datatype Promise<+T> = Pending | Ready(value: T)

  /** The slot holds a promise whose value is available. */
  predicate Fires<T>(slot: Option<Promise<T>>)
  {
    slot.Some? && slot.value.Ready?
  }

  /**
   * Poll `slot` once: if its promise is ready, apply `f` to the value and clear the
   * slot; otherwise return nothing and leave the slot as it was. The handler's
   * effects are its result, which the caller applies.
   */
  method HandlePromise<T, R>(slot: Option<Promise<T>>, f: T -> R) returns (slot': Option<Promise<T>>, r: Option<R>)
    ensures r.Some? <==> Fires(slot)
    ensures r.Some? ==> r.value == f(slot.value.value)
    ensures Fires(slot) ==> slot' == None
    ensures !Fires(slot) ==> slot' == slot
    ensures !Fires(slot')
  {
    var flag := false;
    r := None;
    if slot.Some? && slot.value.Ready? {
      flag := true;
      r := Some(f(slot.value.value));
    }
    slot' := slot;
    if flag {
      slot' := None;
    }
  }
}
