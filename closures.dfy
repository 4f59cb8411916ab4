// Source/Utility/Closures+Insert.swift: composing two completion closures.
//
// A completion closure is modelled by the ordered list of effects it
// performs when it is invoked once; an absent (`nil`) closure is `None`.

module Closures {
  import opened Wrappers
  import opened Sequences

  /** `insert(newCompletion, before: oldCompletion)`: a closure that runs
      `newCompletion` and then, when present, `oldCompletion`. The result is
      always a closure (never `None`). */
  function Insert<E>(newCompletion: seq<E>, oldCompletion: Option<seq<E>>): (r: seq<E>)
    ensures |newCompletion| <= |r| && r[..|newCompletion|] == newCompletion
    ensures oldCompletion.None? ==> r == newCompletion
    ensures oldCompletion.Some? ==> r[|newCompletion|..] == oldCompletion.value
  {
    match oldCompletion
    case None => newCompletion
    case Some(rest) => newCompletion + rest
  }

  /** One invocation of the composed closure performs each effect of each
      part exactly as often as the part does: nothing is dropped or
      repeated. */
  lemma InsertRunsEachPartOnce<E>(newCompletion: seq<E>, oldCompletion: Option<seq<E>>, e: E)
    ensures Count(Insert(newCompletion, oldCompletion), e)
         == Count(newCompletion, e) + (if oldCompletion.Some? then Count(oldCompletion.value, e) else 0)
  {
    if oldCompletion.Some? {
      CountAppend(newCompletion, oldCompletion.value, e);
    }
  }

  /** Nesting composes in reading order: `insert(a, before: insert(b, before: c))`
      runs `a`, then `b`, then `c`, and equals inserting `a` before `b`
      first. */
  lemma InsertNests<E>(a: seq<E>, b: seq<E>, c: Option<seq<E>>)
    ensures Insert(a, Some(Insert(b, c))) == Insert(a + b, c)
    ensures Insert(a, Some(Insert(b, c))) == Insert(Insert(a, Some(b)), c)
    ensures c.Some? ==> Insert(a, Some(Insert(b, c))) == a + b + c.value
  {
    if c.Some? {
      assert a + (b + c.value) == a + b + c.value;
    }
  }
}
