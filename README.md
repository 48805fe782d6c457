# Cocktailer: measures, ingredient lists, themes and card colours

Cocktailer is a small web app for looking up cocktails and building a
shopping list from them. This project models its computational core in Dafny
and proves properties of that model.

- **Measure conversion** (`Measurement`, with worked cases in
  `MeasurementExamples`). A measure is free text such as `"1 1/2 oz"`.
  `parseAmount` cleans it and matches it against a regular expression.
  `convertMeasurement` looks the lower-cased unit up in a table of four
  volume families (ounce, cup, tablespoon, teaspoon). It then shows the
  rounded amount either under the family's imperial label or in millilitres.
  From 10 ml on the result is shown in centilitres, and from 100 ml on in
  decilitres. `formatMeasuredItem` finds the first measure word in an
  ingredient line that whitespace and more text follow, and converts the
  text up to and including that unit word. Both regular expressions
  are written out as matchers that make the same choices, in the same
  order, as a backtracking JavaScript engine.
- **Ingredient lists** (`SearchResultList`). A cocktail record has fifteen
  numbered ingredient and measure slots. `getIngredients` loops over them,
  and the "add all" button sends the resulting list in an event.
- **Result cards** (`SearchResultItem`). A card decides whether every
  ingredient is already on the shopping list. Its "add all" button is
  disabled exactly then, and it sends nothing then. The render also decides
  which ingredient chips are highlighted.
- **Themes** (`Themes`). There are three tables of eleven colour settings.
  A camelCase key turns into the CSS custom property `--kebab-case`.
  `applyTheme` writes one property per entry into the document's style,
  which is modelled as a class with a map field.
- **Card colours** (`ImageUtils`). The picture's pixel bytes are summed
  channel by channel with a stride-4 loop, and each sum is floor-averaged.
  Without a drawing context the colour is white. The `rgba(…, 0.2)`
  background string is built from the average.

Numbers that JavaScript computes are modelled on exact reals. The three
outcomes that matter to the code are kept apart: `Finite`, `Infinity` (a
non-zero numerator over a zero denominator) and `NaN` (`0/0`). So a zero
denominator is a modelled case, not something callers are forbidden to
pass.

The model follows the code wherever the code does something other than its
comments and the app's documentation describe:

- One ounce converts to `3 cl`, because 29.57 ml rounds to 30, which is 10
  or more and so is shown in centilitres.
- Imperial amounts are rounded to whole numbers too, so `"1 1/2 oz"` stays
  in ounces as `"2 oz"`.
- `"2 oz Lime Juice"` becomes `"6 cl Lime Juice"`, because 59.15 ml rounds
  to 59 and is then shown in centilitres.
- The first alternative `\d+…` of the amount pattern always wins. So
  `"1/2 tsp"` and `"1.5 oz"` parse to the amount 1 with the units `"/2 tsp"`
  and `".5 oz"`. No family has those units, so both come back unchanged.
- Through backtracking, a bare `"12"` parses as the amount 1 with the unit
  `"2"`, and also comes back unchanged.

## Model

| member | source | states |
|---|---|---|
| Text.Lower | src/utils/measurementUtils.ts:67 | lower-casing keeps the length and changes exactly the letters A-Z, each to its lower-case letter |
| Text.Trim | src/utils/measurementUtils.ts:38 | `trim` leaves no whitespace at either end and never lengthens its input |
| Text.TrimShape | src/utils/measurementUtils.ts:38 | the trimmed text is the input with a whitespace prefix and a whitespace suffix removed |
| Text.TrimNonSpace | src/utils/measurementUtils.ts:38 | `trim` removes whitespace only: every other character is kept, in order |
| Text.DigitsValue | src/utils/measurementUtils.ts:53-62 | `Number` of a digit run is zero exactly when every digit is 0 |
| Text.NatToString | src/utils/measurementUtils.ts:93-99 | the text of a whole number is a non-empty digit run with no leading zero except for 0 itself |
| Text.NatToStringRoundTrip | src/utils/measurementUtils.ts:93-99 | reading the text of a whole number back gives the number |
| Text.SplitAtChar | src/utils/imageUtils.ts:61 | texts without a given character, each followed by text starting with it, are recovered from their concatenations |
| Measurement.AliasesDisjoint | src/utils/measurementUtils.ts:8-33 | no alias is listed under two unit families, so which family the lookup returns never depends on the table's order |
| Measurement.FindUnit | src/utils/measurementUtils.ts:80 | a family is found exactly when one lists the unit verbatim, and the family found is one that lists it |
| Measurement.FindUnitSelects | src/utils/measurementUtils.ts:80 | every alias of the table reaches the family it is listed under |
| Measurement.NotAlias | src/utils/measurementUtils.ts:8-33 | text that does not start with a lower-case letter is in no family |
| Measurement.CollapseSpaces | src/utils/measurementUtils.ts:38 | the result is single-spaced, no longer than its input, empty only for empty input, and starts and ends with a space exactly where the input has whitespace |
| Measurement.CollapseNonSpace | src/utils/measurementUtils.ts:38 | collapsing keeps every character that is not whitespace, in order: only whitespace is replaced |
| Measurement.CollapseJoin | src/utils/measurementUtils.ts:38 | a whole run of whitespace between two texts becomes exactly one space, and the texts on either side are collapsed on their own |
| Measurement.Clean | src/utils/measurementUtils.ts:38 | the cleaned text has no space at either end and no two spaces in a row, is no longer than the input, and keeps every character of the input that is not whitespace, in order |
| Measurement.CleanOfClean | src/utils/measurementUtils.ts:38 | cleaning is idempotent: clean text is its own cleaned form |
| Measurement.MatchCut | src/utils/measurementUtils.ts:41-43 | a cut the engine makes leaves a non-empty unit and cuts out a digit run or a mixed number `D N/M` |
| Measurement.MatchAmount | src/utils/measurementUtils.ts:41-46 | a match yields a well-formed amount and a non-empty unit |
| Measurement.MatchAmountSound | src/utils/measurementUtils.ts:41-46 | the clean text is the captured amount, then an optional space taken by `\s*`, then the unit |
| Measurement.MatchAmountFails | src/utils/measurementUtils.ts:41-44 | on clean text, the match fails exactly when the text is empty, a single character, or does not start with a digit |
| Measurement.MatchAmountComplete | src/utils/measurementUtils.ts:41-46 | the engine splits an amount, optional space and unit starting with neither a digit nor a space into exactly that amount and unit |
| Measurement.MatchCutWhole | src/utils/measurementUtils.ts:42 | after a digit run followed by neither a digit nor ` N/`, the engine cuts right after the run |
| Measurement.MatchCutMixed | src/utils/measurementUtils.ts:42 | after a mixed number followed by a non-digit, the engine cuts right after the denominator |
| Measurement.SpellHasSpaceIffMixed | src/utils/measurementUtils.ts:50 | the captured amount contains a space exactly when it is a mixed number, which is the test the parser branches on |
| Measurement.AmountValue | src/utils/measurementUtils.ts:50-63 | a digit run is its integer; a mixed number with a non-zero denominator is its whole part plus the fraction; a zero denominator gives Infinity or NaN exactly as in JavaScript; a finite value is never negative |
| Measurement.Fraction | src/utils/measurementUtils.ts:53 | the quotient of a numerator by a non-zero denominator is non-negative and gives the numerator back when multiplied by the denominator |
| Measurement.ParseAmount | src/utils/measurementUtils.ts:37-69 | parsing fails exactly when the cleaned text does not match, and a parsed unit is non-empty with no capital |
| Measurement.ParseRecognised | src/utils/measurementUtils.ts:37-69 | text that cleans to amount, optional space and unit parses to the amount's value and the lower-cased unit |
| Measurement.Round | src/utils/measurementUtils.ts:88 | `Math.round` on a non-negative value: the nearest integer, halves rounded up |
| Measurement.RoundNumber | src/utils/measurementUtils.ts:88 | rounding keeps Infinity and NaN and takes a finite value to the nearest integer |
| Measurement.Scale | src/utils/measurementUtils.ts:8-33 | multiplying by a positive factor keeps the kind of number and scales a finite value |
| Measurement.Rescale | src/utils/measurementUtils.ts:91-99 | millilitres stay below 10, centilitres from 10 to 99, decilitres from 100; each count is its value rounded to the unit |
| Measurement.Convert | src/utils/measurementUtils.ts:83-99 | imperial keeps the rounded amount and the family's label; metric rounds the millilitres and rescales them; Infinity is shown in dl and NaN in ml |
| Measurement.ShowCount | src/utils/measurementUtils.ts:93-99 | the text of a rounded number is never empty and holds no space |
| Measurement.ShowQuantity | src/utils/measurementUtils.ts:93-99 | the shown quantity is longer than its unit |
| Measurement.ShowCountInjective | src/utils/measurementUtils.ts:93-99 | different rounded numbers are shown as different texts |
| Measurement.ShowQuantityInjective | src/utils/measurementUtils.ts:93-99 | a shown quantity reads back: the text before the first space is the number and the rest is the unit, so different quantities give different texts |
| Measurement.ConvertMeasurement | src/utils/measurementUtils.ts:71-100 | the result is empty exactly when the measure is missing or empty |
| Measurement.ConvertMeasurementFailSoft | src/utils/measurementUtils.ts:77-81 | text that does not parse, or whose unit is in no family, comes back as given, not cleaned |
| Measurement.ConvertRecognised | src/utils/measurementUtils.ts:71-100 | text of the recognised form converts to the shown conversion of its amount in the family its lower-cased unit names |
| Measurement.ConvertOnlyRecognised | src/utils/measurementUtils.ts:71-100 | any measure that is changed matched the pattern, and its lower-cased unit is an alias in the table |
| Measurement.SpaceRun | src/utils/measurementUtils.ts:119 | the greedy `\s+`: the longest run of whitespace at the position |
| Measurement.GreedyName | src/utils/measurementUtils.ts:119 | `\s+(.+)$` with backtracking takes the most whitespace after which a non-empty rest of the line follows, or reports that none does |
| Measurement.TryWord | src/utils/measurementUtils.ts:106-121 | with a given word at a given place, the engine reports the greatest whitespace count that completes the match, or that none does |
| Measurement.MatchItem | src/utils/measurementUtils.ts:118-122 | the reported match is the leftmost, then the first word in list order, then the longest whitespace; there is no match exactly when no place, word and count complete the pattern |
| Measurement.FirstMeasureUnique | src/utils/measurementUtils.ts:118-122 | only one match can be the first |
| Measurement.MatchItemIs | src/utils/measurementUtils.ts:118-122 | the first match is the one reported |
| Measurement.FormatMeasuredItem | src/utils/measurementUtils.ts:118-129 | when no place, unit word and whitespace count complete the pattern, the item comes back unchanged |
| Measurement.FormatMeasuredItemConverts | src/utils/measurementUtils.ts:122-127 | with a first match, the result is the trimmed, converted text up to and including the unit word, a space, and the unchanged rest after the whitespace |
| MeasurementExamples.AliasLookups | src/utils/measurementUtils.ts:8-33 | "fl oz" and "ounces" are ounces; "spoon", "tblsp" and "tablespoons" are tablespoons |
| MeasurementExamples.Recognised | src/utils/measurementUtils.ts:71-100 | clean text of the recognised form converts to its family's shown quantity |
| MeasurementExamples.Unrecognised | src/utils/measurementUtils.ts:78-81 | clean text of the parsed form whose unit is in no family comes back unchanged |
| MeasurementExamples.OneOunce | src/utils/measurementUtils.ts:83-99 | "1 oz" converts to metric "3 cl" |
| MeasurementExamples.SpacedOunce | src/utils/measurementUtils.ts:38-99 | "1   oz" is cleaned to "1 oz" before matching, so it converts to metric "3 cl" as well |
| MeasurementExamples.OneCup | src/utils/measurementUtils.ts:83-99 | "1 cup" converts to metric "2 dl" |
| MeasurementExamples.OneTeaspoon | src/utils/measurementUtils.ts:83-99 | "1 tsp" converts to metric "5 ml" |
| MeasurementExamples.TwoTeaspoons | src/utils/measurementUtils.ts:83-99 | "2 tsp" converts to metric "1 cl" |
| MeasurementExamples.TwoOunces | src/utils/measurementUtils.ts:83-99 | "2 oz" converts to metric "6 cl" |
| MeasurementExamples.OneAndAHalfOunces | src/utils/measurementUtils.ts:50-99 | "1 1/2 oz" converts to imperial "2 oz" |
| MeasurementExamples.SimpleFractionUnchanged | src/utils/measurementUtils.ts:41-81 | "1/2 tsp" comes back unchanged: the fraction branch is never reached |
| MeasurementExamples.DecimalUnchanged | src/utils/measurementUtils.ts:41-81 | "1.5 oz" comes back unchanged |
| MeasurementExamples.BareNumberParse | src/utils/measurementUtils.ts:41-67 | a bare "12" parses as the amount 1 with the unit "2" |
| MeasurementExamples.BareNumberUnchanged | src/utils/measurementUtils.ts:41-81 | a bare "12" comes back unchanged |
| MeasurementExamples.WordsUnchanged | src/utils/measurementUtils.ts:41-78 | "a dash" comes back unchanged |
| MeasurementExamples.LimeJuiceMatch | src/utils/measurementUtils.ts:118-122 | in "2 oz Lime Juice" the first match is the word "oz" at position 2, followed by one space |
| MeasurementExamples.LimeJuice | src/utils/measurementUtils.ts:102-127 | "2 oz Lime Juice" is formatted in metric as "6 cl Lime Juice" |
| SearchResultList.EntryWithoutMeasure | src/components/SearchResultList.ts:120 | without a measure the line is the trimmed ingredient, with no leading space |
| SearchResultList.KeptSlots | src/components/SearchResultList.ts:116-119 | the slots taken are increasing, lie in range and are truthy, and every truthy slot is taken |
| SearchResultList.Entry | src/components/SearchResultList.ts:120 | a line has no whitespace at either end and holds exactly the measure's and then the ingredient's characters that are not whitespace; with a truthy measure and an ingredient that neither start nor end with whitespace, the line is exactly the measure, one space and the ingredient |
| SearchResultList.GetIngredients | src/components/SearchResultList.ts:114-124 | the loop returns the line of every slot 1..15 with a truthy ingredient, in slot order |
| SearchResultList.IngredientList | src/components/SearchResultList.ts:114-124 | there are never more lines than the fifteen slots, and no line has whitespace at either end |
| SearchResultList.ListIsSlotOrder | src/components/SearchResultList.ts:114-124 | line k comes from the k-th truthy slot; a slot is taken exactly when its ingredient is truthy |
| SearchResultList.OnlySlotsRead | src/components/SearchResultList.ts:116-118 | records that agree on slots 1..15 give the same lines |
| SearchResultList.BlankIngredientGivesEmptyLine | src/components/SearchResultList.ts:119-120 | an ingredient of only whitespace with no measure is kept and gives an empty line |
| SearchResultList.EmptyIngredientSkipped | src/components/SearchResultList.ts:119 | an empty ingredient gives no line, whatever its measure |
| SearchResultList.AddAllIngredientsToShoppingList | src/components/SearchResultList.ts:158-166 | the event is "add-all-to-shopping-list", bubbling and composed, carrying the drink's whole list |
| SearchResultItem.AllInShoppingList | src/components/SearchResultItem.ts:120-123 | true exactly when every flag is set, so also for no flags |
| SearchResultItem.AddAll | src/components/SearchResultItem.ts:125-136 | an event is sent exactly when the item has an ingredient array and some ingredient is not on the list, and it carries that array |
| SearchResultItem.Render | src/components/SearchResultItem.ts:138-193 | no item gives the placeholder; otherwise the button is disabled and shows the check mark exactly when all is added, and chip i shows ingredient i and is highlighted exactly when flag i is set |
| SearchResultItem.DisabledIffSilent | src/components/SearchResultItem.ts:125-158 | the button is disabled exactly when pressing it would send nothing |
| SearchResultItem.AllChipsHighlightedDisables | src/components/SearchResultItem.ts:156-183 | when every chip is highlighted, the button is disabled |
| Themes.Hyphenate | src/themes.ts:47 | the replace adds one hyphen per capital and keeps the first character of a key that does not start with a capital |
| Themes.CssVarName | src/themes.ts:47 | a variable starts with `--`, holds no capital, and is two characters longer than the key plus one per capital |
| Themes.UnkebabKebab | src/themes.ts:47 | a key without hyphens can be read back from its variable |
| Themes.CssVarNameInjective | src/themes.ts:47 | different keys without hyphens give different variables |
| Themes.HyphenateAppend | src/themes.ts:47 | the replace works character by character, so it distributes over concatenation |
| Themes.HyphenateNoUpper | src/themes.ts:47 | text without capitals is left alone |
| Themes.CapitalWordHyphenated | src/themes.ts:47 | a capitalised word gets a hyphen before it |
| Themes.FirstWord | src/themes.ts:47 | a key without capitals gives `--` and the key |
| Themes.AppendWord | src/themes.ts:47 | a capitalised word appended to a key adds a hyphen and the lower-cased word to its variable |
| Themes.TwoWords | src/themes.ts:47 | the variable of a two-word camelCase key is its words lower-cased and joined by hyphens after `--` |
| Themes.ThreeWords | src/themes.ts:47 | the same for a three-word key |
| Themes.BgColorVar | src/themes.ts:47 | `bgColor` is written to `--bg-color` |
| Themes.PrimaryColorDarkVar | src/themes.ts:47 | `primaryColorDark` is written to `--primary-color-dark` |
| Themes.ThemeOf | src/themes.ts:1-44 | each of the three themes has the same eleven keys, in the same order |
| Themes.ThemeKeysDistinct | src/themes.ts:2-14 | the eleven keys are different and none holds a hyphen |
| Themes.ThemeVarsDistinct | src/themes.ts:1-47 | the eleven keys give eleven different variables |
| Themes.Style.constructor | src/themes.ts:48 | a fresh style holds no custom property |
| Themes.Style.SetProperty | src/themes.ts:48 | `setProperty` sets the one named property and leaves the others |
| Themes.VarSet | src/themes.ts:45-47 | every entry's variable is among the variables written |
| Themes.VarSetOnly | src/themes.ts:45-47 | only entries' variables are written |
| Themes.Written | src/themes.ts:45-49 | writing the entries adds exactly their variables and leaves every other property as it was |
| Themes.WriteEntries | src/themes.ts:45-49 | the `forEach` loop: one `setProperty` per entry, in order, leaving the style as `Written` says |
| Themes.ApplyTheme | src/themes.ts:43-50 | applying a theme writes its entries into the style and changes nothing else |
| Themes.WrittenLastWins | src/themes.ts:45-49 | a variable holds the value of the last entry written to it |
| Themes.WrittenIgnoresBefore | src/themes.ts:45-49 | what a written variable ends up holding does not depend on the style before |
| Themes.WrittenOver | src/themes.ts:45-49 | writing one set of entries over another that writes no other variables equals writing the second alone |
| Themes.VarSetOfKeys | src/themes.ts:45-47 | entries with the same keys write the same variables |
| Themes.WrittenDistinct | src/themes.ts:45-49 | when the entries write different variables, each variable holds its entry's value |
| Themes.ThemeWrites | src/themes.ts:1-49 | after applying a theme, each of its eleven variables holds the value the theme gives its key |
| Themes.ThemeSwitch | src/themes.ts:1-49 | all themes write the same variables, so switching theme leaves exactly what applying the second theme alone leaves |
| ImageUtils.Mean | src/utils/imageUtils.ts:39-43 | `Math.floor(sum / count)`: NaN exactly when the count is 0, otherwise the floor of the quotient |
| ImageUtils.AverageOf | src/utils/imageUtils.ts:20-43 | a picture without pixels averages to NaN in every channel and only such a picture does; a picture with pixels averages to three bytes |
| ImageUtils.AverageColour | src/utils/imageUtils.ts:17-51 | the stride-4 loop sums each colour channel over the pixels and divides by the pixel count; there is white when no context is available |
| ImageUtils.ChannelSumBound | src/utils/imageUtils.ts:32-36 | a channel's sum is at most 255 per pixel |
| ImageUtils.MeanOfMultiple | src/utils/imageUtils.ts:39-43 | the floor average of n copies of v is v |
| ImageUtils.MeanIsByte | src/utils/imageUtils.ts:39-43 | the average of byte values over a non-empty count is a byte |
| ImageUtils.ChannelSumUniform | src/utils/imageUtils.ts:32-36 | a channel that is v in every pixel sums to v per pixel |
| ImageUtils.UniformAverage | src/utils/imageUtils.ts:32-43 | a picture of one colour averages to that colour |
| ImageUtils.ChannelSumAgree | src/utils/imageUtils.ts:32-36 | a channel's sum reads only that channel |
| ImageUtils.AlphaIgnored | src/utils/imageUtils.ts:33-35 | the alpha byte is never read: pictures that differ only in alpha average alike |
| ImageUtils.ShowChannel | src/utils/imageUtils.ts:61 | a channel's text holds no comma |
| ImageUtils.ShowChannelInjective | src/utils/imageUtils.ts:61 | different channels have different texts |
| ImageUtils.RgbaString | src/utils/imageUtils.ts:61 | the background starts with `rgba(` and ends with `, 0.2)`: the opacity is always 0.2 |
| ImageUtils.RgbaTexts | src/utils/imageUtils.ts:61 | the three comma-free numbers can be read back from the background string |
| ImageUtils.RgbaStringInjective | src/utils/imageUtils.ts:61 | different colours give different background strings |
| ImageUtils.EmptyPictureBackground | src/utils/imageUtils.ts:39-62 | a picture without pixels gives "rgba(NaN, NaN, NaN, 0.2)" |
| ImageUtils.WhiteBackground | src/utils/imageUtils.ts:48-62 | the fallback colour gives "rgba(255, 255, 255, 0.2)" |

## Left out

- The DOM, Lit templates and LitElement properties, event dispatch, the canvas, the image load handlers, the `Promise`, and `console.log`/`console.error` are left out. The model keeps only the values these carry: the event as a value, the rendered view as a value, the pixel bytes as an array, and the missing drawing context as `None`.
- ThemeSwitcher, the shopping list, search, printing and the other components are not part of this model.
- JavaScript numbers are exact reals, not binary floating point. The factors are the table's decimal literals, and rounding of a product that lands exactly on a half may differ from the browser's.
- ShowCount: the text of a rounded number covers decimal digits, `Infinity` and `NaN`, not the exponent notation `Number.prototype.toString` uses from 1e21 on.
- `toLowerCase` and the `i` flag are modelled on ASCII letters only. `\s` and `trim` use the full ECMAScript set of white space and line terminators.
- SearchResultItem.Render: requires an ingredient array when an item is present. The source then calls `ingredients.map` and would throw at runtime, and a thrown render is not modelled. An item always carries its `inShoppingList` array: with the array missing the source throws a TypeError at `.every` (src/components/SearchResultItem.ts:121), and that run is not represented.
- ImageUtils.AverageColour: requires the byte count to be a multiple of four, which a canvas's RGBA data always is. So the loop's pixel count `ceil(length / 4)` is stated only as `length / 4`, and the reads past the end of the array (`undefined`, giving NaN) are not modelled.
- The cocktail record's `strIngredient{i}`/`strMeasure{i}` fields are a map from slot number to an optional string. Its other fields are not read by the core and are left out.
- Themes.WriteEntries: the `forEach` callback over `Object.entries` is this loop over the theme's entries in table order. Property values are not validated, as the browser's style does not validate custom properties either.
- Themes.Style.SetProperty: in the browser `setProperty` with an empty value removes the property, while the model always stores the value. Every value in the three themes is non-empty, so `applyTheme` never reaches that case.
