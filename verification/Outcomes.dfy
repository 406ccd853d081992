/** Parsers that may raise, and loops that collect what they parse. */
module Outcomes {

  datatype Outcome<+T> = Ok(value: T) | Err {
    predicate IsFailure() { Err? }
    function PropagateFailure<U>(): Outcome<U>
      requires Err?
    {
      Err
    }
    function Extract(): T
      requires Ok?
    {
      value
    }
  }

  /** A loop has collected `before`; the rest of it yields `r`. */
  function Then<T>(before: seq<T>, r: Outcome<seq<T>>): (s: Outcome<seq<T>>)
    ensures before == [] ==> s == r
    ensures r == Ok([]) ==> s == Ok(before)
  {
    if r.Ok? then
      assert before == [] ==> before + r.value == r.value;
      assert r.value == [] ==> before + r.value == before;
      Ok(before + r.value)
    else Err
  }

  lemma ThenAgain<T>(before: seq<T>, more: seq<T>, r: Outcome<seq<T>>)
    ensures Then(before, Then(more, r)) == Then(before + more, r)
  {
    if r.Ok? {
      assert before + (more + r.value) == before + more + r.value;
    }
  }
}
