# Menu catalogue model

A Dafny model of the menu logic of Chef Christoffel's menu app, a React
Native app. A restaurant's menu is an ordered list of menu items, each with
a course (STARTER, MAIN or DESSERT), a price, an intensity label and an
ingredient list. Users add items through a form and remove them by position.
The app shows the list filtered by course and counts the items per course.

The model takes the screens apart from their rendering:

- `menu_types.dfy` (module `MenuTypes`) models the `Course` enumeration and
  the `menuItem` record of type.tsx. At run time a category is a string.
  `WellTyped` states the declared type's promise that the string is one of
  the three course names.
- `text.dfy` (module `Text`) models splitting on commas, trimming (`IsWs`
  is space, tab, CR and LF), mapping trim over a list and dropping empty
  strings. It proves the round trips between `Split` and `Join`, and that
  `Split` (at a comma), `TrimAll` and `DropEmpty` distribute over
  concatenation.
- `add_item.dfy` (module `AddItem`) models the add screen. `onSave` becomes
  the function `OnSave`: required fields first, then the price, then the
  payload. It uses cut-offs 50 and 100, lower-case labels, and an
  ingredient parser that drops empty entries.
- `manage.dfy` (module `Manage`) models App.tsx. `handleSubmit` becomes
  `HandleSubmit`. It requires a different set of fields, uses cut-offs 100
  and 200 with capitalised labels, and keeps empty ingredient entries.
  The module also holds the index filter behind `removeItem` and the
  nine-item seed list. The seed list is the constant `PredefinedItems`, as
  in App.tsx:38, and the lemma `PredefinedItemsFacts` states its facts.
- `views.dfy` (module `Views`) models the filter screen and the home
  screen's statistics. The filter screen has an item-source fallback, a
  category filter, a heading count and STARTER as its first selection. The
  statistics are per-course counts over the fixed course list, plus the
  total.
- `catalog.dfy` (module `Catalog`) holds the class `Catalog`. Its `items`
  field is the list the home screen owns. Its methods are the
  submit/save and remove handlers, each one atomic step on the list.

A parsed price is `Option<real>`, supplied next to the raw string; `None`
stands for NaN. A new item's id is a parameter.

Facts about the code that shape the model:

- Removal is by position (App.tsx:307).
- There are two add forms with two intensity schemes. The add screen uses
  cut-offs 50 and 100 with lower-case labels (screens/AddItemScreen.tsx:67-68).
  The manage form in App.tsx uses cut-offs 100 and 200 with capitalised
  labels (App.tsx:176-181).
- Seed ids repeat: "3" appears at App.tsx:65 and at App.tsx:138.
- Seven of the nine seed intensities follow the manage form's formula. The
  other two do not: item 2 is "Bold" at 205, and item 5 is "Balanced" at 85.
  No seed uses the add screen's lower-case labels.

## Model

| member | source | states |
|---|---|---|
| MenuTypes.CourseNamesDistinct | type.tsx:1 | the three course names are pairwise distinct, and a string is a course name exactly when some course has it as its name |
| MenuTypes.NameIsCourseName | type.tsx:7 | every course value stored in a category satisfies the declared category type |
| Text.Trim | screens/AddItemScreen.tsx:81 | the trimmed string is never longer than its input and has no whitespace at either end |
| Text.TrimSpec | screens/AddItemScreen.tsx:81 | trim returns a contiguous middle part of its input, cuts only whitespace, and leaves neither end whitespace |
| Text.TrimIdempotent | screens/AddItemScreen.tsx:81 | trimming twice is trimming once |
| Text.TrimEmptyIff | screens/AddItemScreen.tsx:81-82 | a piece trims to the empty string exactly when it is all whitespace, so those are the pieces the filter drops |
| Text.TrimPadded | screens/AddItemScreen.tsx:81 | a non-empty string with no whitespace at either end, padded with whitespace on both sides, trims back to itself |
| Text.Split | screens/AddItemScreen.tsx:80 | splitting on "," yields exactly one more piece than the input has commas |
| Text.SplitShape | App.tsx:191 | split on "," yields comma count + 1 pieces, none holding a comma |
| Text.JoinSplit | screens/AddItemScreen.tsx:80 | joining the split pieces with "," gives back the input |
| Text.SplitJoin | screens/AddItemScreen.tsx:80 | splitting a join of comma-free pieces gives back the pieces |
| Text.SplitAppend | screens/AddItemScreen.tsx:80 | splitting `a + "," + b` is splitting `a` followed by splitting `b` |
| Text.TrimAll | screens/AddItemScreen.tsx:81 | one entry per piece, in order, each entry the trimmed piece |
| Text.TrimAllAppend | screens/AddItemScreen.tsx:81 | the trim map distributes over concatenation |
| Text.DropEmpty | screens/AddItemScreen.tsx:82 | no entry of the result is empty, every entry comes from the input, and every non-empty input entry is kept |
| Text.DropEmptyAppend | screens/AddItemScreen.tsx:82 | dropping empties distributes over concatenation, so survivors keep their order |
| AddItem.Intensity | screens/AddItemScreen.tsx:67-68 | the derived intensity is always one of "mild", "balanced", "strong" |
| AddItem.IntensityBands | screens/AddItemScreen.tsx:67-68 | "mild" iff p < 50, "balanced" iff 50 <= p < 100, "strong" iff p >= 100 |
| AddItem.IntensityMonotone | screens/AddItemScreen.tsx:67-68 | a higher price never gets a milder label |
| AddItem.IntensityBoundaries | screens/AddItemScreen.tsx:67-68 | exactly 50 is "balanced" and exactly 100 is "strong"; just below each is the band beneath |
| AddItem.ParseIngredients | screens/AddItemScreen.tsx:79-82 | every parsed ingredient is non-empty with no whitespace at either end; never more of them than comma count + 1 |
| AddItem.ParseIngredientsShape | screens/AddItemScreen.tsx:79-82 | every parsed ingredient is non-empty, trimmed and comma-free; at most comma count + 1 of them |
| AddItem.ParseIngredientsAppend | screens/AddItemScreen.tsx:79-82 | parsing is piecewise over commas: input order and duplicates are kept |
| AddItem.ParseIngredientsPiece | screens/AddItemScreen.tsx:79-82 | a comma-free piece parses to its trimmed self, or to nothing if blank |
| AddItem.ParseIngredientsPadded | screens/AddItemScreen.tsx:79-82 | a comma-free word padded with whitespace parses to that word alone |
| AddItem.ParseIngredientsBlank | screens/AddItemScreen.tsx:81-82 | a piece of whitespace alone parses to no ingredient |
| AddItem.ParseIngredientsExample | screens/AddItemScreen.tsx:79-82 | " Tomato, Basil ,  , Olive Oil" parses to ["Tomato", "Basil", "Olive Oil"] |
| AddItem.MissingRequired | screens/AddItemScreen.tsx:54 | missing exactly when one of name, description, price and image is the empty string; the untouched form is missing; whitespace-only fields count as filled in |
| AddItem.OnSave | screens/AddItemScreen.tsx:52-89 | "Missing fields" iff name, description, price or image is empty; otherwise "Invalid price" iff the parsed price is NaN or <= 0; otherwise the payload carries the form's fields unchanged, the parsed positive price, its intensity, the parsed ingredients and the supplied id |
| AddItem.OnSaveIgnoresCategory | screens/AddItemScreen.tsx:46-57 | the category is never validated: changing it changes no verdict, only the payload's category |
| AddItem.InitialFormIsMissing | screens/AddItemScreen.tsx:44-57 | saving the untouched form reports missing fields |
| Manage.PickerCourse | App.tsx:247-250 | the picker's placeholder is exactly the value that stores the empty string; every other label stands for the course whose name starts with the same letter ("Starter" for STARTER, "Main Meal" for MAIN, "Dessert" for DESSERT) |
| Manage.PickerCourseBijective | App.tsx:247-250 | the labels "Starter", "Main Meal" and "Dessert" stand for three distinct courses, and every course has a label that stands for it |
| Manage.Intensity | App.tsx:176-181 | the derived intensity is always one of "Mild", "Balanced", "Strong" |
| Manage.IntensityBands | App.tsx:176-181 | "Mild" iff p < 100, "Balanced" iff 100 <= p < 200, "Strong" iff p >= 200 |
| Manage.IntensityBoundaries | App.tsx:176-181 | exactly 100 is "Balanced" and exactly 200 is "Strong" |
| Manage.IntensityDoubledCutoffs | App.tsx:176-181 | this form's label for p is the add screen's label for p / 2, capitalised |
| Manage.SplitIngredients | App.tsx:191 | exactly comma count + 1 entries, empty ones kept, none with whitespace at either end |
| Manage.SplitIngredientsShape | App.tsx:191 | one trimmed, comma-free entry per piece, empties kept: exactly comma count + 1 entries |
| Manage.ParsersAgree | App.tsx:191 | the add screen's ingredient list is this one with the empty entries removed, so it is never longer |
| Manage.SplitIngredientsExamples | App.tsx:191 | "" gives [""] and "a,,b" gives ["a", "", "b"] |
| Manage.MissingRequired | App.tsx:171 | missing exactly when one of name, description, category and price is the empty string; the placeholder category is always missing; a form that passes has a category standing for a course |
| Manage.HandleSubmit | App.tsx:169-208 | "Missing Fields" iff name, description, category or price is empty (image not required); otherwise "Invalid Price" iff the parsed price is not > 0 (NaN included); otherwise the record carries the form's fields and the picker label as category; the record has no id, which the model writes as the empty string |
| Manage.PlaceholderIsMissing | App.tsx:162-171 | the untouched form, and any form still on the placeholder category, report missing fields |
| Manage.HandleSubmitCategoryNotACourse | App.tsx:184-192 | every record handleSubmit builds has a category that is not a course name |
| Manage.HandleSubmitOmitsId | App.tsx:184-192 | any two records handleSubmit builds have the same, absent, id |
| Manage.HandleSubmitCorrected | App.tsx:169-208 | same verdicts as handleSubmit; on success the record maps the picker label to its course and carries the supplied id |
| Manage.HandleSubmitCorrectedWellTyped | App.tsx:184-192 | the corrected record respects the declared category type and carries the supplied id |
| Manage.FormsAgreeOnPrice | App.tsx:172-191 | with all fields filled in, both add forms reject the same prices; when both accept, intensities follow doubled cut-offs and ingredient lists differ only by empty entries |
| Manage.RemoveIndex | App.tsx:307 | the filtered list is one shorter when the index is in range, and unchanged in length otherwise |
| Manage.RemoveIndexSpec | App.tsx:307 | the index filter drops exactly the element at the index and keeps the rest in order; an out-of-range index changes nothing |
| Manage.RemoveIndexPositions | App.tsx:307 | the length falls by one exactly when the index is in range; survivors before the index keep their place, those after move up by one |
| Manage.RemoveOutOfRangeTwice | App.tsx:307 | removing an out-of-range index twice equals removing it once, which leaves the list unchanged |
| Manage.PredefinedItemsFacts | App.tsx:38-149 | the seed list (`Manage.PredefinedItems`) has nine items, all of course categories; id "3" appears twice; item 2 ("Bold" at 205) and item 5 ("Balanced" at 85) break the manage form's price formula |
| Manage.PredefinedIntensitiesOtherwiseFollow | App.tsx:38-149 | the other seven seed intensities are exactly what the manage form's formula gives for their prices |
| Views.FilterByCategory | screens/FilterScreen.tsx:29-32 | the filtered list is no longer than the source and holds only items of the selected category |
| Views.FilterSelects | screens/FilterScreen.tsx:30 | the filtered list is an order-preserving selection from the source containing every source item of the category |
| Views.FilterAppend | screens/FilterScreen.tsx:30 | filtering a concatenation is concatenating the filtered parts (relative order kept) |
| Views.FilterIdempotent | screens/FilterScreen.tsx:30 | filtering the result again by the same category returns it unchanged |
| Views.FilterEmptyIff | screens/FilterScreen.tsx:30 | the filtered list is empty exactly when no source item has the category |
| Views.ItemSource | screens/FilterScreen.tsx:24 | the items prop wins when present, else the route's items, else the empty list |
| Views.InitialHeading | screens/FilterScreen.tsx:26 | the filter screen opens on STARTER: its heading is "STARTERs" and it shows the source's starters |
| Views.FilterScreen | screens/FilterScreen.tsx:22-57 | the shown items are exactly the item source filtered by the selected course; the heading's count is that course's count, equal to the number shown and at most the source length; the heading is the course name plus "s" |
| Views.CategoryCount | screens/HomeScreen.tsx:45 | a category's count never exceeds the total |
| Views.CategoryCountIsCardinality | screens/HomeScreen.tsx:45 | the count equals the number of positions holding an item of that category |
| Views.Stats | screens/HomeScreen.tsx:40-48 | exactly one card per course, in the order STARTER, MAIN, DESSERT, each with that course's count, at most the total |
| Views.Total | screens/HomeScreen.tsx:35-45 | the heading's total is the list's length; the three cards never exceed it and reach it exactly when every category is a course name |
| Views.CountsSumToTotal | screens/HomeScreen.tsx:35-45 | when every category is a course name, the three counts sum to the total in the heading |
| Views.CountsFallShort | screens/HomeScreen.tsx:35-45 | one item with a non-course category makes the three counts sum to less than the total |
| Catalog.Catalog.constructor | App.tsx:302 | the list starts as the seed list, which satisfies the category invariant |
| Catalog.Catalog.Submit | App.tsx:169-208 | returns the corrected handleSubmit verdict; on success the list is the old list plus the new item at the end, otherwise unchanged; the category invariant is kept |
| Catalog.Catalog.Save | screens/AddItemScreen.tsx:52-89 | returns the onSave verdict; on success the payload is appended exactly once, otherwise the list is unchanged; the category invariant is kept |
| Catalog.Catalog.RemoveAt | App.tsx:304-308 | the new list is the old one without the element at the index; out of range leaves it unchanged; the invariant is kept |
| Catalog.Catalog.Stats | screens/HomeScreen.tsx:35-48 | the cards for the held list are exactly the home screen's statistics row (one card per course, in order, each with its own count), and the three counts add up to the list's length |
| Catalog.AsWrittenSubmitBreaksCounts | App.tsx:184-195 | after appending a record built by handleSubmit as written, the three counts sum to less than the total |

## Findings

| source | as written | input that shows it | evidently intended | confidence | as-written member | corrected member |
|---|---|---|---|---|---|---|
| App.tsx:187 | the record's `category` is the picker's label "Starter", "Main Meal" or "Dessert" (App.tsx:248-250), not a course name | any accepted submit, e.g. category "Starter" and price "150" | store the course STARTER, MAIN or DESSERT that the label stands for | not executed; high | Manage.HandleSubmitCategoryNotACourse | Manage.HandleSubmitCorrected |
| App.tsx:184-192 | the record has no `id` field, although the record type requires one | two accepted submits: both records lack an id | give the record a fresh id, as screens/AddItemScreen.tsx:72 does | not executed; medium | Manage.HandleSubmitOmitsId | Manage.HandleSubmitCorrectedWellTyped |

`Catalog.Catalog.Submit` uses the corrected record. Because of the first
finding, an item added through handleSubmit as written matches no course.
In the model's catalogue, which feeds App.tsx's list to the views of
screens/, such an item never shows in the filter view and is counted on no
statistics card (`Catalog.AsWrittenSubmitBreaksCounts`). App.tsx itself
never renders those screens, so the program as shipped does not show this
effect.

## Left out

- Rendering, styles, pickers, images, keyboard handling and `Alert` dialogs are presentation. The confirmation prompts before removal are the caller choosing whether to call `Catalog.Catalog.RemoveAt`.
- Navigation is left out: the stack wiring, including the route name "Home" used twice (App.tsx:388-390), `goBack` and navigate calls, and all of screens/WelcomeScreen.tsx.
- App.tsx renders neither screens/FilterScreen.tsx nor screens/HomeScreen.tsx. It imports nothing from screens/ (App.tsx:7-35), and its navigator registers only its own `WelcomeScreen`, `HomeScreen` and `ManageScreen` (App.tsx:386-398). `Catalog` therefore combines App.tsx's list and handlers with views that the shipped code never connects to them.
- `uid()` (screens/AddItemScreen.tsx:37-39) depends on the clock and randomness. The id is a parameter.
- `parseFloat` and IEEE doubles are abstracted. The parsed price is an `Option<real>` supplied with the raw string (None = NaN). Prefix parsing, Infinity and rounding are not modelled.
- The average price per category is left out. The home screen only receives it as a prop (screens/HomeScreen.tsx:19, 43); its computation is not in the modelled files.
- The implementations behind the screens' `addItem` and `removeItem(id)` callbacks are not part of this model. `Catalog.Catalog.Save` appends the payload as App.tsx:195 does.
- React state mechanics are left out: `useState`, `useMemo`, and the stale capture of `items` in `removeItem`. Each handler is one atomic transition on the list.
- Text.Trim: trims only space, tab, CR and LF, not the full Unicode whitespace set of JavaScript's `trim`.
- The distribution of the seed list over the courses (three each) is not proved.
