/**
  One recipe card of the search results: whether all of its ingredients are
  already on the shopping list, the "add all" button that is disabled
  exactly then, the event that button sends, and which ingredient chips are
  highlighted.
*/
module SearchResultItem {
  import opened Wrappers
  import opened SearchResultList

  /**
    The card's `item`. `ingredients` is `None` when the field holds no
    array; `inShoppingList[i]` says whether ingredient `i` is on the list.
  */
  datatype Item = Item(name: string, imageUrl: string, description: string,
                       ingredients: Option<seq<string>>, inShoppingList: seq<bool>)

  /** `inShoppingList.every(Boolean)`; true for an empty array, so a card without ingredients counts as fully added. */
  function AllInShoppingList(flags: seq<bool>): (r: bool)
    ensures r <==> forall i :: 0 <= i < |flags| ==> flags[i]
  {
    flags == [] || (flags[0] && AllInShoppingList(flags[1..]))
  }

  /**
    `addAllIngredientsToShoppingList` on the card: the event when
    `ingredients` is an array and some ingredient is not yet on the list,
    nothing otherwise.
  */
  function AddAll(item: Option<Item>): (r: Option<CustomEvent>)
    ensures r.Some? <==> item.Some? && item.value.ingredients.Some? &&
                          exists i :: 0 <= i < |item.value.inShoppingList| && !item.value.inShoppingList[i]
    ensures r.Some? ==> r.value == CustomEvent(AddAllEventName, item.value.ingredients.value, true, true)
  {
    if item.Some? && item.value.ingredients.Some? && !AllInShoppingList(item.value.inShoppingList) then
      Some(CustomEvent(AddAllEventName, item.value.ingredients.value, true, true))
    else None
  }

  /** The card's button: disabled, and showing a check mark instead of a plus, when all is added. */
  datatype Icon = Check | Plus
  datatype Button = Button(disabled: bool, icon: Icon)

  /** An ingredient chip: its text and whether it carries the `in-shopping-list` class. */
  datatype Chip = Chip(text: string, highlighted: bool)

  /** What `render` shows. */
  datatype View = Placeholder(message: string) | Card(name: string, imageUrl: string, description: string, button: Button, chips: seq<Chip>)

  const NoItemMessage: string := "No item data available"

  /**
    The decisions `render` makes. `ingredients.map` needs an array, so a
    card with an item needs one. A chip past the end of `inShoppingList`
    reads `undefined` and is not highlighted.
  */
  function Render(item: Option<Item>): (v: View)
    requires item.Some? ==> item.value.ingredients.Some?
    ensures item.None? <==> v == Placeholder(NoItemMessage)
    ensures item.Some? ==> v.Card? && v.button.disabled == AllInShoppingList(item.value.inShoppingList)
    ensures item.Some? ==> (v.button.icon == Check <==> v.button.disabled)
    ensures item.Some? ==> |v.chips| == |item.value.ingredients.value|
    ensures item.Some? ==> forall i :: 0 <= i < |v.chips| ==>
      && v.chips[i].text == item.value.ingredients.value[i]
      && (v.chips[i].highlighted <==> i < |item.value.inShoppingList| && item.value.inShoppingList[i])
  {
    if item.None? then Placeholder(NoItemMessage)
    else
      var it := item.value;
      var all := AllInShoppingList(it.inShoppingList);
      var ingredients := it.ingredients.value;
      var chips := seq(|ingredients|, i requires 0 <= i < |ingredients| =>
        Chip(ingredients[i], i < |it.inShoppingList| && it.inShoppingList[i]));
      Card(it.name, it.imageUrl, it.description, Button(all, if all then Check else Plus), chips)
  }

  /** The button is disabled exactly when pressing it would send nothing. */
  lemma DisabledIffSilent(item: Item)
    requires item.ingredients.Some?
    ensures Render(Some(item)).button.disabled <==> AddAll(Some(item)).None?
  {
  }

  /** When every chip is highlighted, all is added and the button is disabled. */
  lemma AllChipsHighlightedDisables(item: Item)
    requires item.ingredients.Some? && |item.inShoppingList| == |item.ingredients.value|
    requires forall i :: 0 <= i < |Render(Some(item)).chips| ==> Render(Some(item)).chips[i].highlighted
    ensures Render(Some(item)).button.disabled
  {
    var v := Render(Some(item));
    forall i | 0 <= i < |item.inShoppingList| ensures item.inShoppingList[i] {
      assert v.chips[i].highlighted;
    }
  }
}
