// The items a tab-bar engine is built from: a state and the controller
// shown for it (a tuple in the later revisions, a struct in the oldest),
// and the first-match lookup every revision's transition performs.

module TabItems {
  import opened Wrappers
  import opened Sequences

  datatype Item<S, C> = Item(state: S, controller: C)

  /** `allItems.map { $0.1 }`: the controllers, in item order. */
  function Controllers<S, C>(items: seq<Item<S, C>>): (r: seq<C>)
    ensures |r| == |items|
    ensures forall i :: 0 <= i < |items| ==> r[i] == items[i].controller
  {
    seq(|items|, i requires 0 <= i < |items| => items[i].controller)
  }

  /** `allItems.index(where: { $0.0 == newState })`: the first item for
      the state. */
  function ItemIndex<S(==), C>(items: seq<Item<S, C>>, s: S): (r: Option<nat>)
    ensures r.None? <==> forall i :: 0 <= i < |items| ==> items[i].state != s
    ensures r.Some? ==> r.value < |items| && items[r.value].state == s
    ensures r.Some? ==> forall j :: 0 <= j < r.value ==> items[j].state != s
  {
    FirstIndexWhere(items, (it: Item<S, C>) => it.state == s)
  }

  /** The states the items stand for, in order. */
  function States<S, C>(items: seq<Item<S, C>>): seq<S>
  {
    seq(|items|, i requires 0 <= i < |items| => items[i].state)
  }

  /** The lookup finds an item exactly when the state is one of the items'
      states, and then at the state's first position among them. */
  lemma ItemIndexIsFirstState<S, C>(items: seq<Item<S, C>>, s: S)
    ensures ItemIndex(items, s).Some? <==> s in States(items)
    ensures ItemIndex(items, s).Some? ==> FirstIndex(States(items), s) == ItemIndex(items, s)
  {
    var states := States(items);
    match ItemIndex(items, s)
    case None =>
      assert forall i :: 0 <= i < |states| ==> states[i] != s;
    case Some(k) =>
      assert states[k] == s;
      var j := FirstIndex(states, s).value;
      assert states[j] == s && items[j].state == s;
      assert s !in states[..j];
  }

  /** The selected controller, once the lookup succeeds, is one of the
      items' controllers: a transition never creates one. */
  lemma FoundControllerIsAnItem<S, C>(items: seq<Item<S, C>>, s: S)
    requires ItemIndex(items, s).Some?
    ensures items[ItemIndex(items, s).value].controller in Controllers(items)
  {
    var i := ItemIndex(items, s).value;
    assert Controllers(items)[i] == items[i].controller;
  }
}
