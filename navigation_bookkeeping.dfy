// What the navigation engines' completion closures do to the engine's
// bookkeeping, and the record of the calls they make on the navigation
// controller. Shared by the three revisions of `StatefulNavigationController`.

module NavigationBookkeeping {
  import opened Wrappers
  import opened Sequences

  /** One effect of a navigation engine's completion closure. */
  datatype Action<S, A> =
    | TruncateStates        // statesInNavigationStack = prefix(viewControllers.count)
    | AppendState(s: S)     // statesInNavigationStack.append(s)
    | CommitState(s: S)     // self.state = s
    | Caller(a: A)          // one effect of the caller's own completion

  /** The caller's completion, as actions of the engine's closures. */
  function Callers<S, A>(completion: seq<A>): (r: seq<Action<S, A>>)
    ensures |r| == |completion|
  {
    seq(|completion|, i requires 0 <= i < |completion| => Caller(completion[i]))
  }

  /** The engine's own record of the stack: the state of each controller
      on it, bottom first, and the current state. */
  datatype Book<S> = Book(states: seq<S>, state: S)

  /** One action, run while the navigation stack is `depth` deep. */
  function Apply<S, A>(b: Book<S>, depth: nat, a: Action<S, A>): Book<S>
  {
    match a
    case TruncateStates => b.(states := Prefix(b.states, depth))
    case AppendState(s) => b.(states := b.states + [s])
    case CommitState(s) => b.(state := s)
    case Caller(_) => b
  }

  /** A closure's actions, run in order. */
  function ApplyAll<S, A>(b: Book<S>, depth: nat, actions: seq<Action<S, A>>): Book<S>
    decreases |actions|
  {
    if actions == [] then b else ApplyAll(Apply(b, depth, actions[0]), depth, actions[1..])
  }

  /** Running two closures one after the other is running their
      concatenation, which is what `insert(_:before:)` builds. */
  lemma {:induction false} ApplyAllAppend<S, A>(b: Book<S>, depth: nat, xs: seq<Action<S, A>>, ys: seq<Action<S, A>>)
    ensures ApplyAll(b, depth, xs + ys) == ApplyAll(ApplyAll(b, depth, xs), depth, ys)
    decreases |xs|
  {
    if xs == [] {
      assert xs + ys == ys;
    } else {
      assert (xs + ys)[0] == xs[0];
      assert (xs + ys)[1..] == xs[1..] + ys;
      ApplyAllAppend(Apply(b, depth, xs[0]), depth, xs[1..], ys);
    }
  }

  /** The caller's completion never touches the engine's bookkeeping. */
  lemma {:induction false} CallersKeepTheBook<S, A>(b: Book<S>, depth: nat, completion: seq<A>)
    ensures ApplyAll(b, depth, Callers<S, A>(completion)) == b
    decreases |completion|
  {
    if completion != [] {
      assert Callers<S, A>(completion)[1..] == Callers<S, A>(completion[1..]);
      CallersKeepTheBook(b, depth, completion[1..]);
    }
  }

  /** The closure a pop runs: after it, the states are cut to the stack's
      depth and the state is the new one, whatever the caller does. */
  lemma PopBookkeeping<S, A>(b: Book<S>, depth: nat, s: S, completion: seq<A>)
    ensures ApplyAll(b, depth, [TruncateStates, CommitState(s)] + Callers(completion))
            == Book(Prefix(b.states, depth), s)
  {
    var bk: seq<Action<S, A>> := [TruncateStates, CommitState(s)];
    ApplyAllAppend(b, depth, bk, Callers(completion));
    var last: seq<Action<S, A>> := [CommitState(s)];
    assert bk[0] == TruncateStates && bk[1..] == last && last[1..] == [];
    assert ApplyAll(b, depth, bk) == ApplyAll(Apply(b, depth, bk[0]), depth, last);
    CallersKeepTheBook(Book(Prefix(b.states, depth), s), depth, completion);
  }

  /** The closure a push runs: the new state is appended and becomes the
      state. */
  lemma PushBookkeeping<S, A>(b: Book<S>, depth: nat, s: S, completion: seq<A>)
    ensures ApplyAll(b, depth, [AppendState(s), CommitState(s)] + Callers(completion))
            == Book(b.states + [s], s)
  {
    var bk: seq<Action<S, A>> := [AppendState(s), CommitState(s)];
    ApplyAllAppend(b, depth, bk, Callers(completion));
    var last: seq<Action<S, A>> := [CommitState(s)];
    assert bk[0] == AppendState(s) && bk[1..] == last && last[1..] == [];
    assert ApplyAll(b, depth, bk) == ApplyAll(Apply(b, depth, bk[0]), depth, last);
    CallersKeepTheBook(Book(b.states + [s], s), depth, completion);
  }

  /** The closure of an engine that has only just configured itself: the
      state is committed and nothing else changes. */
  lemma CommitBookkeeping<S, A>(b: Book<S>, depth: nat, s: S, completion: seq<A>)
    ensures ApplyAll(b, depth, [CommitState(s)] + Callers(completion)) == b.(state := s)
  {
    var bk: seq<Action<S, A>> := [CommitState(s)];
    ApplyAllAppend(b, depth, bk, Callers(completion));
    assert bk[1..] == [];
    CallersKeepTheBook(b.(state := s), depth, completion);
  }

  /** One call an engine makes on its navigation controller, or one action
      of a closure it invokes. */
  datatype NavEvent<C, X> =
    | SetStack(controllers: seq<C>)     // setViewControllers(_:animated: false)
    | Embed                             // addChild(childNavigationController)
    | Pushed(c: C, animated: bool)      // pushViewController(_:animated:)
    | Popped(c: C, animated: bool)      // popToViewController(_:animated:)
    | Overwrote(index: nat, c: C)       // viewControllers[index] = c
    | Performed(action: X)

  /** The record of invoking a closure. */
  function Performs<C, X>(actions: seq<X>): (r: seq<NavEvent<C, X>>)
    ensures |r| == |actions|
  {
    seq(|actions|, i requires 0 <= i < |actions| => Performed(actions[i]))
  }

  /** Invoking two closures in turn is recorded as invoking their
      concatenation. */
  lemma PerformsAppend<C, X>(xs: seq<X>, ys: seq<X>)
    ensures Performs<C, X>(xs + ys) == Performs<C, X>(xs) + Performs<C, X>(ys)
  {
    assert forall i :: 0 <= i < |xs + ys| ==> Performs<C, X>(xs + ys)[i] == (Performs<C, X>(xs) + Performs<C, X>(ys))[i];
  }
}
