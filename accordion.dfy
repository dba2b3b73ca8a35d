/** The accordion: any number of items may be open at once; `openItems`
    holds the ids of the open ones. */
module Accordion {

  datatype Item = Item(id: string, title: string, content: string)

  /** The `onToggle` updater: a present id is deleted from a copy of the
      set, an absent one is added. */
  function Toggled(openItems: set<string>, id: string): (r: set<string>)
    ensures id in r <==> id !in openItems
    ensures forall other :: other != id ==> (other in r <==> other in openItems)
  {
    if id in openItems then openItems - {id} else openItems + {id}
  }

  /** Toggling the same item twice restores the open set. */
  lemma ToggleTwice(openItems: set<string>, id: string)
    ensures Toggled(Toggled(openItems, id), id) == openItems
  {
  }

  /** Toggles of different items commute: opening one never closes
      another. */
  lemma TogglesCommute(openItems: set<string>, a: string, b: string)
    ensures Toggled(Toggled(openItems, a), b) == Toggled(Toggled(openItems, b), a)
  {
  }

  /** The keys that toggle a focused header. */
  predicate IsToggleKey(key: string) {
    key == "Enter" || key == " "
  }

  class Accordion {
    const items: seq<Item>
    var openItems: set<string>

    constructor (items: seq<Item>)
      ensures this.items == items && openItems == {}
      ensures forall i :: 0 <= i < |items| ==> !IsOpen(items[i])
    {
      this.items := items;
      openItems := {};
    }

    /** `isOpen={openItems.has(item.id)}`. */
    predicate IsOpen(item: Item)
      reads this
    {
      item.id in openItems
    }

    method OnToggle(id: string)
      modifies this
      ensures openItems == Toggled(old(openItems), id)
    {
      if id in openItems {
        openItems := openItems - {id};
      } else {
        openItems := openItems + {id};
      }
    }

    /** A click on the header of item `i`. */
    method HeaderClick(i: nat)
      requires i < |items|
      modifies this
      ensures IsOpen(items[i]) <==> !old(IsOpen(items[i]))
      ensures openItems == Toggled(old(openItems), items[i].id)
    {
      OnToggle(items[i].id);
    }

    /** A key pressed on the focused header of item `i`. */
    method HeaderKeyDown(i: nat, key: string)
      requires i < |items|
      modifies this
      ensures IsToggleKey(key) ==> openItems == Toggled(old(openItems), items[i].id)
      ensures !IsToggleKey(key) ==> openItems == old(openItems)
    {
      if IsToggleKey(key) {
        OnToggle(items[i].id);
      }
    }
  }
}
