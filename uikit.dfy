// The two UIKit containers the navigation and tab-bar engines drive:
// `UINavigationController`'s stack of view controllers and
// `UITabBarController`'s list and selection. Only the parts the engines use
// are modelled.

module UIKitStacks {
  import opened Wrappers
  import opened Sequences

  /** `popToViewController(c)`: the stack up to and including `c` (its
      first occurrence). */
  function PoppedTo<C(==)>(stack: seq<C>, c: C): (r: seq<C>)
    requires c in stack
    ensures 0 < |r| <= |stack| && r <= stack
    ensures r[|r| - 1] == c && c !in r[..|r| - 1]
  {
    var i := FirstIndex(stack, c).value;
    assert stack[..i + 1][..i] == stack[..i];
    stack[..i + 1]
  }

  /** No controller appears twice. */
  predicate Distinct<C(==)>(s: seq<C>)
  {
    forall i, j :: 0 <= i < j < |s| ==> s[i] != s[j]
  }

  /** In a stack without repeats, popping to the controller at position
      `i` keeps exactly the first `i + 1` controllers. */
  lemma PoppedToPosition<C>(stack: seq<C>, i: nat)
    requires Distinct(stack) && i < |stack|
    ensures PoppedTo(stack, stack[i]) == stack[..i + 1]
  {
    var j := FirstIndex(stack, stack[i]).value;
    assert j == i;
  }

  /** The stack of a `UINavigationController`, bottom first. */
  class NavigationStack<C(==)> {
    var controllers: seq<C>

    constructor ()
      ensures controllers == []
    {
      controllers := [];
    }

    /** `topViewController`: the controller on screen. */
    function Top(): (r: Option<C>)
      reads this
      ensures r.None? <==> controllers == []
      ensures r.Some? ==> r.value == controllers[|controllers| - 1]
    {
      if controllers == [] then None else Some(controllers[|controllers| - 1])
    }

    /** `setViewControllers(_:animated:)`. */
    method SetViewControllers(cs: seq<C>)
      modifies this
      ensures controllers == cs
    {
      controllers := cs;
    }

    /** `pushViewController(_:animated:)`. UIKit raises when the controller
        is already on the stack. */
    method Push(c: C) returns (outcome: Outcome)
      modifies this
      ensures outcome.Fatal? <==> c in old(controllers)
      ensures outcome.Fatal? ==> controllers == old(controllers)
      ensures outcome.Finished? ==> controllers == old(controllers) + [c]
    {
      if c in controllers {
        return Fatal;
      }
      controllers := controllers + [c];
      return Finished;
    }

    /** `popToViewController(_:animated:)`, whose argument must be on the
        stack. */
    method PopTo(c: C)
      requires c in controllers
      modifies this
      ensures controllers == PoppedTo(old(controllers), c)
    {
      controllers := PoppedTo(controllers, c);
    }

    /** `viewControllers[i] = c`. */
    method Overwrite(i: nat, c: C)
      requires i < |controllers|
      modifies this
      ensures controllers == old(controllers)[i := c]
    {
      controllers := controllers[i := c];
    }
  }

  /** A `UITabBarController`: its controllers and the selected one. The
      model ignores a selection of a controller (or an index) the tab bar
      does not hold; UIKit raises an exception for such a controller. */
  class TabBar<C(==)> {
    var controllers: seq<C>
    var selected: Option<C>

    constructor ()
      ensures controllers == [] && selected == None
    {
      controllers := [];
      selected := None;
    }

    /** `setViewControllers(_:animated:)`: the first controller becomes the
        selection. */
    method SetViewControllers(cs: seq<C>)
      modifies this
      ensures controllers == cs
      ensures selected == (if cs == [] then None else Some(cs[0]))
    {
      controllers := cs;
      selected := if cs == [] then None else Some(cs[0]);
    }

    /** `selectedViewController = c`. */
    method Select(c: C)
      modifies this
      ensures controllers == old(controllers)
      ensures selected == (if c in controllers then Some(c) else old(selected))
    {
      if c in controllers {
        selected := Some(c);
      }
    }

    /** `selectedIndex = i`. */
    method SelectIndex(i: nat)
      modifies this
      ensures controllers == old(controllers)
      ensures selected == (if i < |controllers| then Some(controllers[i]) else old(selected))
    {
      if i < |controllers| {
        selected := Some(controllers[i]);
      }
    }
  }
}
