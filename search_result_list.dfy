/**
  The list of search results: how a cocktail record's fifteen numbered
  ingredient and measure slots become the ingredient lines shown under each
  drink, and the event its "add all" button sends.
*/
module SearchResultList {
  import opened Wrappers
  import opened Text

  /** The number of ingredient slots a record has; they are numbered from 1. */
  const Slots: nat := 15

  /**
    A cocktail record with the fields the list reads: slot `i` of
    `ingredients` is `strIngredient{i}`, slot `i` of `measures` is
    `strMeasure{i}`. A slot holding `None`, or absent from the map, is a
    `null` or missing field.
  */
  datatype Drink = Drink(ingredients: map<nat, Option<string>>, measures: map<nat, Option<string>>)

  /** The field in slot `i`, `None` when the record has no such field. */
  function Field(fields: map<nat, Option<string>>, i: nat): Option<string>
  {
    if i in fields then fields[i] else None
  }

  /** JavaScript truthiness of a `string | null` field: present and not the empty string. */
  predicate Truthy(field: Option<string>) {
    field.Some? && field.value != []
  }

  /** The text before the ingredient in the template: the measure when it is truthy, else nothing. */
  function MeasureText(measure: Option<string>): string
  {
    if Truthy(measure) then measure.value else []
  }

  /**
    The line for slot `i`: `${measure || ""} ${ingredient}`, trimmed. It has
    no whitespace at either end and keeps every other character of the
    measure and the ingredient, in order. When a truthy measure and the
    ingredient start and end with something other than whitespace, it is
    exactly the measure, one space and the ingredient.
  */
  function Entry(d: Drink, i: nat): (r: string)
    requires Field(d.ingredients, i).Some?
    ensures r == [] || (!IsSpace(r[0]) && !IsSpace(r[|r| - 1]))
    ensures NonSpace(r) == NonSpace(MeasureText(Field(d.measures, i))) + NonSpace(Field(d.ingredients, i).value)
    ensures var m, g := MeasureText(Field(d.measures, i)), Field(d.ingredients, i).value;
      m != [] && g != [] && !IsSpace(m[0]) && !IsSpace(m[|m| - 1]) && !IsSpace(g[0]) && !IsSpace(g[|g| - 1])
      ==> r == m + " " + g
  {
    var m, g := MeasureText(Field(d.measures, i)), Field(d.ingredients, i).value;
    TrimNonSpace(m + " " + g);
    NonSpaceAppend(m + " ", g);
    NonSpaceAppend(m, " ");
    NonSpaceAllSpace(" ");
    Trim(m + " " + g)
  }

  /** Without a measure the line is the trimmed ingredient: the template's leading space is trimmed away. */
  lemma EntryWithoutMeasure(d: Drink, i: nat)
    requires Field(d.ingredients, i).Some? && !Truthy(Field(d.measures, i))
    ensures Entry(d, i) == Trim(Field(d.ingredients, i).value)
  {
    TrimLeadingSpace(" ", Field(d.ingredients, i).value);
    assert [] + " " + Field(d.ingredients, i).value == " " + Field(d.ingredients, i).value;
  }

  /** The slots below `n` whose ingredient is truthy, in increasing order. */
  function KeptSlots(d: Drink, n: nat): (s: seq<nat>)
    requires 1 <= n <= Slots + 1
    ensures |s| <= n - 1
    ensures forall k :: 0 <= k < |s| ==> 1 <= s[k] < n && Truthy(Field(d.ingredients, s[k]))
    ensures forall k, l :: 0 <= k < l < |s| ==> s[k] < s[l]
    ensures forall i :: 1 <= i < n && Truthy(Field(d.ingredients, i)) ==> i in s
  {
    if n == 1 then []
    else if Truthy(Field(d.ingredients, n - 1)) then KeptSlots(d, n - 1) + [n - 1]
    else KeptSlots(d, n - 1)
  }

  /** The lines for the given slots, in the order given. */
  function EntriesOf(d: Drink, slots: seq<nat>): seq<string>
    requires forall k :: 0 <= k < |slots| ==> Field(d.ingredients, slots[k]).Some?
  {
    seq(|slots|, k requires 0 <= k < |slots| => Entry(d, slots[k]))
  }

  /**
    What `getIngredients` returns: one line per slot 1..15 with a truthy
    ingredient, in slot order; never more lines than slots, and none with
    whitespace at its ends.
  */
  function IngredientList(d: Drink): (r: seq<string>)
    ensures |r| <= Slots
    ensures forall k :: 0 <= k < |r| ==> r[k] == [] || (!IsSpace(r[k][0]) && !IsSpace(r[k][|r[k]| - 1]))
  {
    EntriesOf(d, KeptSlots(d, Slots + 1))
  }

  /** `getIngredients`: the loop over slots 1..15 that pushes the line of every slot with a truthy ingredient. */
  method GetIngredients(d: Drink) returns (ingredients: seq<string>)
    ensures ingredients == IngredientList(d)
  {
    ingredients := [];
    for i := 1 to Slots + 1
      invariant ingredients == EntriesOf(d, KeptSlots(d, i))
    {
      var ingredient := Field(d.ingredients, i);
      var measure := Field(d.measures, i);
      if Truthy(ingredient) {
        ingredients := ingredients + [Trim(MeasureText(measure) + " " + ingredient.value)];
      }
    }
  }

  /**
    Line `k` comes from the `k`-th slot with a truthy ingredient: the slots
    taken are increasing, each lies in 1..15, and every slot with a truthy
    ingredient is taken, whatever its measure.
  */
  lemma ListIsSlotOrder(d: Drink)
    ensures var s := KeptSlots(d, Slots + 1);
      && |IngredientList(d)| == |s|
      && (forall k :: 0 <= k < |s| ==> 1 <= s[k] <= 15 && IngredientList(d)[k] == Entry(d, s[k]))
      && (forall k, l :: 0 <= k < l < |s| ==> s[k] < s[l])
      && (forall i :: 1 <= i <= 15 ==> (i in s <==> Truthy(Field(d.ingredients, i))))
  {
  }

  /** The list reads slots 1..15 only: records that agree there give the same lines. */
  lemma {:induction false} OnlySlotsRead(d: Drink, e: Drink, n: nat)
    requires 1 <= n <= Slots + 1
    requires forall i :: 1 <= i < n ==> Field(d.ingredients, i) == Field(e.ingredients, i) && Field(d.measures, i) == Field(e.measures, i)
    ensures KeptSlots(d, n) == KeptSlots(e, n) && EntriesOf(d, KeptSlots(d, n)) == EntriesOf(e, KeptSlots(e, n))
  {
    if n > 1 {
      OnlySlotsRead(d, e, n - 1);
    }
  }

  /**
    The test is on the raw ingredient: one of only whitespace, with no
    measure, is kept and gives an empty line.
  */
  lemma BlankIngredientGivesEmptyLine(d: Drink, i: nat)
    requires 1 <= i <= 15 && Truthy(Field(d.ingredients, i)) && AllSpace(Field(d.ingredients, i).value)
    requires !Truthy(Field(d.measures, i))
    ensures i in KeptSlots(d, Slots + 1) && Entry(d, i) == []
  {
    EntryWithoutMeasure(d, i);
    TrimAllSpace(Field(d.ingredients, i).value);
  }

  /** An empty ingredient gives no line, whatever its measure. */
  lemma EmptyIngredientSkipped(d: Drink, i: nat)
    requires Field(d.ingredients, i) == Some([])
    ensures i !in KeptSlots(d, Slots + 1)
  {
  }

  /** `new CustomEvent(name, {detail, bubbles, composed})`. */
  datatype CustomEvent = CustomEvent(name: string, detail: seq<string>, bubbles: bool, composed: bool)

  const AddAllEventName: string := "add-all-to-shopping-list"

  /** `addAllIngredientsToShoppingList(drink)` on the list: always the drink's whole list, with no check of what is already added. */
  method AddAllIngredientsToShoppingList(d: Drink) returns (event: CustomEvent)
    ensures event == CustomEvent(AddAllEventName, IngredientList(d), true, true)
  {
    var ingredients := GetIngredients(d);
    event := CustomEvent(AddAllEventName, ingredients, true, true);
  }
}
