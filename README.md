# Session order store of the meal-order widget

The widget takes an ingredient, asks TheMealDB for meals that use it, picks
one at random and records it as a numbered order. Each order is either
`incomplete` or `completed`. All state lives in the tab's `sessionStorage`
under two keys: `orders`, a list of `{orderNumber, description, status}`,
and `lastOrderNumber`, a high-water mark for numbering.

This project models that store and the three handlers that change it. It
proves what they promise about numbering, completion and clearing.

- `orders.dfy` (module `Orders`) has the order record and the pure list
  operations. These are the `reduce` maximum in `setOrders`, the
  `findIndex` of the completion handler, the status flip, and the two
  status filters of the renderers.
- `ingredient.dfy` (module `Ingredient`) has `normalizeIngredient` (trim,
  lowercase, each whitespace run replaced by `_`) over ASCII, and the
  order form's blank-input guard. It also proves that normalizing yields
  the input's words, lowercased and joined by `_`.
- `session.dfy` (module `Session`) has the class `SessionStore`, with one
  field per storage key. Its methods are `setOrders`,
  `getNextOrderNumber`, the order form's submit handler, the completion
  form's submit handler and the clear-all button. `getOrders` is a
  function of the fields. The ghost predicate `Valid()` is the numbering
  invariant: the mark bounds every stored number, and numbers strictly
  increase in insertion order. Every handler preserves it. The module ends
  with short sessions driven through the handlers.

Storage is modelled with typed values. The `orders` key is `Absent`,
`Malformed` (text that does not parse as an order list) or
`Stored(list)`. The `lastOrderNumber` key is an integer, and a missing key
reads as 0, as `Number(getItem(...) || 0)` does. The network lookup is a
parameter: `Meals(names)`, `NoMeals` (`data.meals` is null) or `Failed`
(the request failed or was not ok). The random draw of `pickRandomMeal` is
an index parameter. It is below the number of meals, or 0 when there are
none, as `Math.floor(Math.random() * n)` is. The completion input is an
already-parsed `Option<int>`, where `None` stands for NaN.

Every other failure path of the order form returns before it touches
storage (script.js:132-135 and 142-150). A response whose `meals` is an
empty array is different: it uses up an order number (script.js:152-154)
and is then reported as a connection failure. `CreateOrderAsWritten`
models that path as written. `CreateOrder` treats an empty array like no
meals, and the rest of the model uses it (see Findings). Re-completing an
order that is already completed sets `completed` again and reports success
(script.js:193-195), and the model does the same.

## Model

| member | source | states |
|---|---|---|
| `Orders.MaxOrderNumber` | script.js:17 | The fold is non-negative, is at least every order number, and is 0 or one of the numbers. |
| `Orders.MaxOrderNumberAppend` | script.js:17 | Folding one more order gives the larger of the old maximum and that order's number. |
| `Orders.MaxOrderNumberByNumbers` | script.js:17 | Lists with the same order numbers have the same maximum, whatever their statuses and descriptions. |
| `Orders.MaxOrderNumberBelowMark` | script.js:17-19 | If a non-negative mark already bounds every number, raising it to the maximum leaves it unchanged. |
| `Orders.IncreasingIsDistinct` | script.js:22-29 | Strictly increasing order numbers are unique. |
| `Orders.AppendAboveMark` | script.js:152-161 | Appending an order numbered above a bound on all earlier numbers keeps the list strictly increasing. Its number differs from every earlier one and is the new bound. |
| `Orders.SameNumbersKeepInvariants` | script.js:193-194 | Rewriting statuses keeps the list increasing and bounded, since both depend only on the numbers. |
| `Orders.MarkFirstCompleted` | script.js:187-193 | Completion keeps the length, every number and every description. When no entry is numbered `num`, it leaves the list unchanged. |
| `Orders.FindIndex` | script.js:187 | `findIndex` gives the first position holding the number, or -1 exactly when no entry holds it. |
| `Orders.FindIndexIncreasing` | script.js:187 | In a strictly increasing list, each order's number is found at its own position. |
| `Orders.MarkFirstCompletedEffect` | script.js:186-194 | Completion keeps the length, the order, every number and every description. It sets the first match to `completed`, and every entry that does not hold the number is unchanged. |
| `Orders.MarkFirstCompletedChangesAtMostOne` | script.js:186-194 | Completion changes at most one entry. |
| `Orders.MarkFirstCompletedNeverReopens` | script.js:193 | A completed order stays completed. |
| `Orders.MarkFirstCompletedIdempotent` | script.js:186-194 | Completing the same number twice has the effect of completing it once. |
| `Orders.MarkFirstCompletedAlreadyCompleted` | script.js:193 | Re-completing an already completed order leaves the list as it was. |
| `Orders.IncompleteOrders` | script.js:60 | The incomplete list is no longer than the stored list and holds only incomplete orders. |
| `Orders.CompletedOrders` | script.js:88 | The completed list is no longer than the stored list and holds only completed orders. |
| `Orders.WithStatus` | script.js:56-108 | The status filter used by both renderers keeps only orders with that status and is never longer than the list. |
| `Orders.WithStatusAppend` | script.js:60 | Filtering distributes over concatenation, so insertion order is kept in both lists. |
| `Orders.WithStatusMembership` | script.js:88 | An order appears in a filtered list exactly when it is stored and has that status. |
| `Orders.StatusSplit` | script.js:56-108 | The incomplete and completed lists together hold every order exactly once, as lengths and as multisets. |
| `Orders.AppendIncomplete` | script.js:153-161 | A new incomplete order goes to the end of the incomplete list, and the completed list is unchanged. |
| `Ingredient.ToLower` | script.js:35 | Lowercasing one character never yields a capital. A capital becomes a lower-case letter, and any other character is kept. |
| `Ingredient.Lower` | script.js:35 | `toLowerCase` keeps the length, leaves no capital, and keeps every character that is not a capital. |
| `Ingredient.IsBlank` | script.js:132 | The guard `!raw.trim()` holds exactly for whitespace-only input. |
| `Ingredient.TrimStart` | script.js:35 | Gives the longest suffix that does not start with whitespace. Everything dropped is whitespace. |
| `Ingredient.TrimEnd` | script.js:35 | Gives the longest prefix that does not end with whitespace. Everything dropped is whitespace. |
| `Ingredient.Trim` | script.js:35 | `trim` leaves no whitespace at either end. It leaves nothing exactly when the input is all whitespace. |
| `Ingredient.CollapseRuns` | script.js:35 | The run replacement emits no whitespace and is empty exactly when its input is. It keeps text free of capital letters. |
| `Ingredient.CollapseRunsRun` | script.js:35 | A whole whitespace run, followed by the end or a non-whitespace character, becomes one `_`. |
| `Ingredient.CollapseRunsWordPrefix` | script.js:35 | Text without whitespace before anything passes through unchanged. |
| `Ingredient.Normalize` | script.js:34-36 | `normalizeIngredient` returns text with no whitespace (so none at either end) and no capital letter. It is empty exactly for blank input. |
| `Ingredient.BlankIffWhitespace` | script.js:132 | The guard `!raw.trim()` rejects exactly the whitespace-only inputs, which are exactly those that normalize to the empty token. |
| `Ingredient.CollapseRunsNoSpace` | script.js:35 | Text without whitespace passes through the run replacement unchanged. |
| `Ingredient.NormalizeFixedPoint` | script.js:34-36 | Text without whitespace or capitals normalizes to itself. |
| `Ingredient.NormalizeIdempotent` | script.js:34-36 | Normalizing twice gives the same token as normalizing once. |
| `Ingredient.NormalizeLayout` | script.js:34-36 | Split a string into words and whitespace runs. Its normalization is the lowercased words joined by `_`: each internal run becomes exactly one `_`, and leading and trailing runs vanish. |
| `Ingredient.LayoutExists` | script.js:34-36 | Every string that is not all whitespace splits into such words and runs, so the previous row covers every non-blank input. |
| `Ingredient.NormalizeChickenBreast` | script.js:34-36 | `"Chicken Breast "` normalizes to `"chicken_breast"`. |
| `Session.ValidPick` | script.js:44 | When the array is not empty, the drawn index is below its length. |
| `Session.PickMeal` | script.js:43-46 | The pick yields a meal from the list, and yields nothing (`undefined`) exactly when the list is empty. |
| `Session.SessionStore.constructor` | script.js:4-5 | A new tab has neither key, and the numbering invariant holds. |
| `Session.SessionStore.Restore` | script.js:4-5 | A tab can start from any stored content, including malformed data or a stale mark. |
| `Session.SessionStore.GetOrders` | script.js:10-13 | `getOrders` returns the stored list. A missing or malformed key reads as the empty list. |
| `Session.SessionStore.Valid` | script.js:15-29 | The numbering invariant: the mark is non-negative and bounds every stored number, and numbers increase in insertion order. It implies that no number is stored twice. |
| `Session.SessionStore.SetOrders` | script.js:15-20 | `setOrders` stores the list, so reading it back gives the same list. The mark becomes the larger of the old mark and the largest stored number. It never decreases and bounds every stored number. |
| `Session.SessionStore.GetNextOrderNumber` | script.js:22-29 | The result is `max(count + 1, mark + 1)` and becomes the new mark. It is above the old mark, above the count, and at least 1. The list is untouched; under the invariant, the result exceeds every stored number. |
| `Session.SessionStore.PlaceOrder` | script.js:152-161 | Draws the next number and appends an incomplete order with it at the end of the list. Earlier entries are unchanged. Under the invariant, the new number exceeds all earlier ones and becomes the mark. |
| `Session.SessionStore.CreateOrder` | script.js:129-170 | This is the corrected handler: an empty `meals` array is treated like no meals, which the cited lines do not do (see Findings). Blank input gives the warning. A failed lookup gives the connection error. No meals gives "no meals found" with the normalized token. All three leave storage unchanged. Otherwise exactly one incomplete order with a fresh number is appended, and the invariant is preserved. |
| `Session.SessionStore.CreateOrderAsWritten` | script.js:129-170 | The same handler with the source's handling of an empty `meals` array: the mark is raised, no order is stored, and a connection error is reported. |
| `Session.SessionStore.CompleteOrder` | script.js:172-198 | NaN, 0 and an unknown number each give their own message and change nothing. Otherwise the first match becomes `completed`, even if it already was, and the handler reports success. The list is otherwise unchanged, and the mark is unchanged under the invariant. |
| `Session.SessionStore.ClearAll` | script.js:200-206 | Removes both keys: the list reads as empty, the mark as 0, and the invariant holds. |
| `Session.FirstOrderOfSession` | script.js:129-165 | In a new tab, a successful lookup creates order #1, `incomplete`, with the picked meal. |
| `Session.BlankInputLeavesStoreEmpty` | script.js:131-135 | Blank input is refused whatever the lookup would return, and nothing is stored. |
| `Session.NoMealsLeavesStoreEmpty` | script.js:142-150 | A lookup with no meals reports the non-empty normalized token and stores nothing. |
| `Session.CompleteSecondOfTwo` | script.js:186-194 | With orders #1 and #2 stored, completing 2 flips only #2, and the mark stays 2. |
| `Session.CompleteTwice` | script.js:186-194 | Completing the same order twice succeeds both times with the same result. |
| `Session.ClearRestartsNumbering` | script.js:200-206 | Whatever the tab held, after clear-all the list is empty and the next order is #1. |
| `Session.EmptyMealsAsWritten` | script.js:142-168 | As written, an empty `meals` array uses up number 1, stores nothing and reports a connection error. |
| `Session.EmptyMealsCorrected` | script.js:142-150 | With the correction, an empty `meals` array reports "no meals found" and uses up nothing. |

## Left out

- The HTTP call to TheMealDB, `encodeURIComponent` and `res.json()` (script.js:37-42): network I/O. The outcome is the `Lookup` parameter.
- `Math.random` in `pickRandomMeal`: a floating-point random source. It is replaced by an index parameter with the same range.
- All DOM work: `showFeedback` and its message texts, the `innerHTML` row templates, the empty-state placeholders, `focus`, clearing the input fields, and `renderAllOrders` after each change. This is presentation. The outcome datatypes stand for the messages, and the status filters for the two lists.
- `confirm()` before clear-all: a UI dialog. `ClearAll` is the confirmed path; a cancelled dialog changes nothing.
- `JSON.parse` and `JSON.stringify`: library serialisation. Storage is typed. Text that parses to something other than an order list (a number, an object, entries without the three fields) is treated as `Malformed`, whereas the source would return that value and misbehave later.
- `Number(...)` parsing of the mark key: a key holding non-numeric text reads as NaN in the source, which makes the next order number NaN. The mark is an integer here.
- `Number(...)` parsing of the completion field: the input is an already-parsed integer or NaN. Fractional or infinite input, and the empty field (which `Number` reads as 0, so it shows "No order was completed."), are left to that parsing.
- JavaScript numbers are doubles. Order numbers are unbounded integers here, so precision loss past 2^53 is not modelled.
- Full Unicode `\s`, `trim` and `toLowerCase`: only ASCII whitespace (tab, line feed, vertical tab, form feed, carriage return, space) and the letters A-Z are handled.
- Storage writes are assumed to succeed. In the source, `sessionStorage.setItem` can throw (quota exceeded, storage disabled). In the order form, the `catch` would then report a connection failure, possibly after `getNextOrderNumber` has already stored the new mark (script.js:27) and before the list is written (script.js:161). In the completion form, the throw is not caught (script.js:194). `SetOrders`, `GetNextOrderNumber` and `ClearAll` always complete their writes.
- `async`/`await` and overlapping submissions of the order form: concurrency. Each handler runs to completion before the next starts.

## Findings

| source | as written | input that shows it | evidently intended | confidence | as-written member | corrected member |
|---|---|---|---|---|---|---|
| script.js:142-157 | `if (!data.meals)` treats only a missing or null `meals` as "no meals". An empty array is truthy, so `pickRandomMeal([])` returns `undefined`. The order literal first calls `getNextOrderNumber()`, which stores a new mark, and then `meal.strMeal` throws. The catch reports "Could not reach TheMealDB". | a lookup response `{"meals": []}` for any non-blank ingredient, in a new tab | treat an empty array like no meals: report "No meals found" and use up no order number | low; not executed (the service normally sends `null` when nothing matches) | `Session.SessionStore.CreateOrderAsWritten`, shown by `Session.EmptyMealsAsWritten` | `Session.SessionStore.CreateOrder`, shown by `Session.EmptyMealsCorrected` |
