// Utility/UIView+ContainsInHierarchy.swift: whether a view is the given
// view or lies anywhere below it in its subview tree.

module Hierarchy {

  /** A view and its subviews, in order. `id` stands for the object's
      identity, so two distinct views may otherwise look alike. */
  datatype View = View(id: nat, subviews: seq<View>)

  /** `containsInHierarchy`: the view itself, or (scanning the subviews in
      order and stopping at the first hit) one of its subviews' hierarchies. */
  predicate ContainsInHierarchy(v: View, target: View)
    decreases v
  {
    target == v || exists i :: 0 <= i < |v.subviews| && ContainsInHierarchy(v.subviews[i], target)
  }

  /** Identities of every view in `v`'s hierarchy. */
  function Ids(v: View): (r: set<nat>)
    ensures v.id in r
    decreases v
  {
    {v.id} + (set i, x | 0 <= i < |v.subviews| && x in Ids(v.subviews[i]) :: x)
  }

  lemma ContainsItself(v: View)
    ensures ContainsInHierarchy(v, v)
  {
  }

  lemma ContainsDirectSubview(v: View, i: nat)
    requires i < |v.subviews|
    ensures ContainsInHierarchy(v, v.subviews[i])
  {
    ContainsItself(v.subviews[i]);
  }

  /** Containment is transitive. */
  lemma {:induction false} ContainsTransitive(a: View, b: View, c: View)
    requires ContainsInHierarchy(a, b) && ContainsInHierarchy(b, c)
    ensures ContainsInHierarchy(a, c)
    decreases a
  {
    if b != a {
      var i :| 0 <= i < |a.subviews| && ContainsInHierarchy(a.subviews[i], b);
      ContainsTransitive(a.subviews[i], b, c);
    }
  }

  /** A nested descendant (a subview of a subview) is contained. */
  lemma ContainsNestedSubview(v: View, i: nat, j: nat)
    requires i < |v.subviews| && j < |v.subviews[i].subviews|
    ensures ContainsInHierarchy(v, v.subviews[i].subviews[j])
  {
    ContainsDirectSubview(v, i);
    ContainsDirectSubview(v.subviews[i], j);
    ContainsTransitive(v, v.subviews[i], v.subviews[i].subviews[j]);
  }

  /** Only views of the hierarchy are contained: a view whose identity
      appears nowhere in `v`'s tree (an unrelated view) is not. */
  lemma {:induction false} ContainedViewsAreInTree(v: View, target: View)
    requires ContainsInHierarchy(v, target)
    ensures target.id in Ids(v)
    decreases v
  {
    if target != v {
      var i :| 0 <= i < |v.subviews| && ContainsInHierarchy(v.subviews[i], target);
      ContainedViewsAreInTree(v.subviews[i], target);
    }
  }

  lemma UnrelatedViewIsNotContained(v: View, target: View)
    requires target.id !in Ids(v)
    ensures !ContainsInHierarchy(v, target)
  {
    if ContainsInHierarchy(v, target) {
      ContainedViewsAreInTree(v, target);
    }
  }
}
