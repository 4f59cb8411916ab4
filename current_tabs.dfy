// Source/Public/Containers/StatefulTabBarController.swift: a view
// controller that embeds a tab bar controller over a fixed list of items
// and selects the item of its state.

module CurrentTabs {
  import opened Wrappers
  import opened UIKitStacks
  import opened TabItems

  class StatefulTabBarController<S(==), C(==)> {
    const tab: TabBar<C>
    const allItems: seq<Item<S, C>>
    var currentItem: Item<S, C>
    /** Whether `addChild(childTabBarController)` has run. */
    var embedded: bool

    /** `init(allItems:initialItem:)`. */
    constructor (allItems: seq<Item<S, C>>, initialItem: Item<S, C>)
      ensures this.allItems == allItems && currentItem == initialItem && !embedded
      ensures fresh(tab) && tab.controllers == [] && tab.selected == None
    {
      this.allItems := allItems;
      currentItem := initialItem;
      embedded := false;
      tab := new TabBar();
    }

    /** The tab bar holds the items' controllers, in order. */
    predicate Valid()
      reads this, tab
    {
      tab.controllers == Controllers(allItems)
    }

    /** `configureInitialState()`: every item's controller, in order, with
        the current item's selected. */
    method ConfigureInitialState()
      modifies this, tab
      ensures tab.controllers == Controllers(allItems) && embedded && currentItem == old(currentItem)
      ensures currentItem.controller in Controllers(allItems) ==> tab.selected == Some(currentItem.controller)
      ensures Valid()
    {
      tab.SetViewControllers(Controllers(allItems));
      tab.Select(currentItem.controller);
      embedded := true;
    }

    /** `transition(to:)`: select the first item for the state; a state
        with no item is fatal. */
    method Transition(newState: S) returns (outcome: Outcome)
      modifies this, tab
      ensures outcome == Fatal <==> forall i :: 0 <= i < |allItems| ==> allItems[i].state != newState
      ensures outcome == Fatal ==>
                currentItem == old(currentItem) && tab.selected == old(tab.selected)
      ensures outcome == Finished ==>
                var i := ItemIndex(allItems, newState).value;
                currentItem == allItems[i] && currentItem.state == newState
                && (old(Valid()) ==> tab.selected == Some(currentItem.controller))
      ensures tab.controllers == old(tab.controllers) && embedded == old(embedded)
    {
      var index := ItemIndex(allItems, newState);
      if index.None? {
        return Fatal;
      }
      var newItem := allItems[index.value];
      FoundControllerIsAnItem(allItems, newState);
      tab.Select(newItem.controller);
      currentItem := newItem;
      return Finished;
    }
  }

  /** Transitioning to the same state twice: the second transition has the
      first one's outcome and leaves the current item and the tab bar's
      selection exactly where the first one put them. */
  method TransitionIsIdempotent<S(==), C(==)>(engine: StatefulTabBarController<S, C>, newState: S)
      returns (first: Outcome, second: Outcome, itemAfterFirst: Item<S, C>, selectedAfterFirst: Option<C>)
    requires engine.Valid()
    modifies engine, engine.tab
    ensures first == second
    ensures engine.currentItem == itemAfterFirst && engine.tab.selected == selectedAfterFirst
    ensures second == Finished ==> engine.currentItem.state == newState
                                   && engine.tab.selected == Some(engine.currentItem.controller)
    ensures engine.Valid()
  {
    first := engine.Transition(newState);
    itemAfterFirst := engine.currentItem;
    selectedAfterFirst := engine.tab.selected;
    second := engine.Transition(newState);
  }
}
