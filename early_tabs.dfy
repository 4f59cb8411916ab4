// Source/Public/StatefulTabBarController.swift: the oldest tab-bar engine,
// a subclass of the oldest single-slot class (which is not part of this
// model). It keeps `state` beside `currentItem`, selects by index, and
// never invokes the completion it is handed.

module EarlyTabs {
  import opened Wrappers
  import opened UIKitStacks
  import opened TabItems

  class StatefulTabBarController<S(==), C(==), A> {
    const tab: TabBar<C>
    const allItems: seq<Item<S, C>>
    var currentItem: Item<S, C>
    var state: S
    /** Whether `addChild(childTabBarController)` has run. */
    var embedded: bool
    /** The effects of every completion closure that has run. */
    var ran: seq<A>

    /** `init(allItems:currentItem:)`: the initial state is the current
        item's. */
    constructor (allItems: seq<Item<S, C>>, currentItem: Item<S, C>)
      ensures this.allItems == allItems && this.currentItem == currentItem
      ensures state == currentItem.state && !embedded && ran == []
      ensures fresh(tab) && tab.controllers == [] && tab.selected == None
    {
      this.allItems := allItems;
      this.currentItem := currentItem;
      state := currentItem.state;
      embedded := false;
      ran := [];
      tab := new TabBar();
    }

    predicate Valid()
      reads this, tab
    {
      tab.controllers == Controllers(allItems)
    }

    /** `configureInitialState()`. */
    method ConfigureInitialState()
      modifies this, tab
      ensures tab.controllers == Controllers(allItems) && embedded
      ensures currentItem == old(currentItem) && state == old(state) && ran == old(ran)
      ensures currentItem.controller in Controllers(allItems) ==> tab.selected == Some(currentItem.controller)
      ensures Valid()
    {
      tab.SetViewControllers(Controllers(allItems));
      tab.Select(currentItem.controller);
      embedded := true;
    }

    /** `transition(to:completion:)`: select the index of the first item for
        the state and take the state; a state with no item is fatal. The
        completion is never run and `currentItem` is left alone. */
    method Transition(newState: S, completion: seq<A>) returns (outcome: Outcome)
      modifies this, tab
      ensures outcome == Fatal <==> forall i :: 0 <= i < |allItems| ==> allItems[i].state != newState
      ensures outcome == Fatal ==> state == old(state) && tab.selected == old(tab.selected)
      ensures outcome == Finished ==>
                state == newState
                && (old(Valid()) ==> tab.selected == Some(allItems[ItemIndex(allItems, newState).value].controller))
      ensures currentItem == old(currentItem) && ran == old(ran)
      ensures tab.controllers == old(tab.controllers) && embedded == old(embedded)
    {
      var index := ItemIndex(allItems, newState);
      if index.None? {
        return Fatal;
      }
      tab.SelectIndex(index.value);
      state := newState;
      return Finished;
    }
  }
}
