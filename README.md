# FoodPrep core in Dafny

FoodPrep is a meal-planning application. Users keep recipes, place them on a
calendar as breakfast, lunch, dinner or snack, follow their calories against
a daily goal, and keep a shopping list. An Express server and React
components share one Supabase database. Every row in it belongs to one user.

This project models the parts of FoodPrep that compute or change data:

- **Shopping-list generation.** The server route `POST /api/shopping-list/generate`
  and the meal planner's "Generate Shopping List" button do the same job.
  Each recipe's ingredients text is split on newlines and blank lines are
  dropped. Duplicate lines are removed, keeping the first occurrence. The
  trimmed lines are then upserted as pending items on the conflict key
  `(user_id, item)`. The server sends one batch; the planner upserts the lines
  one at a time.
- **Nutrition aggregation.** For one day: the total calories and the split by
  meal type. For one week: the per-date totals, built in the order the dates
  are first seen. Also the tracker's weekly average, its progress towards the
  2000-calorie goal, and the label under the progress circle.
- **Owner-scoped update and delete.** The server's `PUT` and `DELETE` routes
  for recipes and shopping-list items only touch rows whose `id` and
  `user_id` both match.
- **What the meal planner shows.** Entries grouped by meal type, the day's
  total, and the fallbacks a card shows when its recipe is missing.
- **The shopping-list screen.** The three filters, the completed/total
  counters, and how adding, toggling, deleting and clearing completed items
  change the table.

## How it is modelled

- `wrappers.dfy`, `seqs.dfy` and `text.dfy` hold the generic parts:
  - `Option` and `Result`;
  - first-occurrence deduplication, which is what `[...new Set(xs)]` does;
  - ECMAScript `trim` over the WhiteSpace and LineTerminator code points;
  - `split` on one separator character, which always yields one more piece
    than there are separators.
- `entities.dfy` defines the rows as the queries return them. A meal-plan
  entry's recipe is `None` when the join finds no recipe.
- Dates are day numbers. Day 0 is 1970-01-01, a Thursday, so `getDay()` is
  `(d + 4) % 7`.
- Progress is a `real`. The weekly average is computed on integers, and
  `Math.round` is written out as the nearest integer with halves rounded up.
- `store.dfy` models the `shopping_list` table as a value, `Table(rows, nextId)`:
  - `WellFormed` requires distinct ids, ids below `nextId`, and at most one
    row per `(owner, item)` key;
  - each database request is a function on that value;
  - the class `ShoppingStore` holds the same table in mutable fields, and
    each of its methods is one request, proved equal to that request's
    function on the old state.
- The server's generation is a method over a meal plan. The planner's
  generation is a method that upserts the lines in a `for` loop. Its loop
  invariant ties the store to `UpsertedAll` of the lines handled so far.
- The weekly grouping is a method with the mutable `dailyTotals` object,
  modelled as an insertion-ordered key sequence plus a map.

Two behaviours of the code differ from what a reader of the user interface
might expect, and the model follows the code:

- The collected ingredient lines stay untrimmed until the item text is
  written. So `" eggs"` and `"eggs"` count as two items in the reported
  number, yet both are written under the one key `"eggs"`. The planner's
  per-row upserts then leave a single shopping-list row. The server's batch
  names that key twice, and what the store answers to such a batch is not
  modelled (see "Left out").
- The delete routes for recipes and items remove only a row whose `id` and
  owner both match. When no row matches, they still answer success and
  change nothing.

## Model

| member | source | states |
|---|---|---|
| Seqs.Dedup | server/server.js:362 | `[...new Set(xs)]` has no duplicates and holds exactly the values of `xs` |
| Seqs.DedupKeepsFirstOccurrenceOrder | server/server.js:362 | values appear in the order of their first occurrence in the input |
| Seqs.DedupOfDistinct | components/MealPlanner.jsx:122 | a sequence without duplicates is left as it is |
| Seqs.DedupSnoc | server/server.js:362 | appending a value adds it at the end exactly when it is new |
| Text.Trim | server/server.js:356 | `trim` yields an infix of the string with only whitespace cut off at either end; it is empty exactly when the string is all whitespace, and otherwise starts and ends with a non-whitespace character |
| Text.TrimLeadingWhitespace | server/server.js:367 | leading whitespace never survives `trim` |
| Text.TrimIdempotent | server/server.js:367 | trimming a trimmed text changes nothing |
| Text.IsBlank | server/server.js:356 | `!s.trim()`: a line is blank exactly when every character of it is whitespace |
| Text.Split | server/server.js:356 | `split("\n")` yields at least one piece, and no piece contains the separator |
| Text.JoinSplit | server/server.js:356 | joining the pieces of a split with the separator gives back the text |
| Text.SplitJoin | server/server.js:356 | splitting a join of separator-free pieces gives back the pieces |
| Entities.Calories | server/server.js:268 | `meal.recipes?.calories \|\| 0` is 0 for an entry whose recipe is gone |
| Ingredients.KeepNonBlank | server/server.js:356 | the filter keeps the non-blank pieces and no blank one, untrimmed and as a subsequence of the pieces |
| Ingredients.KeepNonBlankCounts | server/server.js:356 | each non-blank piece is kept as often as it occurs, each blank one never, which with the subsequence fixes the result |
| Ingredients.KeepNonBlankLength | components/MealPlanner.jsx:117 | the number of lines kept is the number of pieces less the blank ones |
| Ingredients.KeepNonBlankOfNonBlank | components/MealPlanner.jsx:117 | pieces that are all non-blank are kept as they are |
| Ingredients.IngredientLines | server/server.js:356 | a recipe contributes its non-blank lines, as a subsequence of the split text, none containing a newline |
| Ingredients.IngredientLinesOfEmpty | server/server.js:355-358 | an empty ingredients text contributes no lines |
| Ingredients.IngredientLinesOfJoin | components/MealPlanner.jsx:117 | non-blank lines joined by newlines are recovered exactly |
| Ingredients.MealLines | server/server.js:355-358 | an entry without a recipe or with null or empty ingredients contributes nothing |
| Ingredients.PlanLines | server/server.js:353-359 | `allIngredients`: the lines of every entry, entry after entry, an entry without a recipe or ingredients adding none |
| Ingredients.PlanLinesMembership | server/server.js:353-359 | a line is collected exactly when some entry of the plan contributes it |
| Ingredients.CollectPlanLines | server/server.js:353-359 | the server's `forEach` collects the lines of every entry, entry after entry |
| Ingredients.RecipeLines | components/MealPlanner.jsx:114-119 | the planner's extraction fails exactly when some fetched recipe has null ingredients |
| Ingredients.CollectRecipeLines | components/MealPlanner.jsx:114-119 | the planner's loop computes that extraction, stopping at the first null |
| Ingredients.RecipeLinesOfPrefix | components/MealPlanner.jsx:116-119 | a failure on an earlier recipe fails the whole extraction |
| Ingredients.ClientAndServerAgree | components/MealPlanner.jsx:104-119 | when every recipe still present has non-null ingredients, the planner collects from those recipes the same lines as the server, entries whose recipe is gone adding nothing either way |
| Generate.GenerateOnServer | server/server.js:331-385 | no meal plans: error and no writes; otherwise the table gains exactly the trimmed distinct lines as pending items, and the count is the number of distinct untrimmed lines |
| Generate.GenerateInPlanner | components/MealPlanner.jsx:100-142 | no meals: error before any read; a null ingredients text: error and no writes; otherwise the per-line upserts end in the same table as the batch, and the count is the number of distinct lines |
| Generate.GeneratedLookup | server/server.js:362-374 | after generation, every collected line has a pending item under its trimmed text, every other key is as before, and the table stays well formed |
| Generate.GeneratedKeepsRows | server/server.js:371-374 | rows of other users, and items no line trims to, are kept |
| Generate.GenerateIdempotent | server/server.js:371-374 | generating twice from the same plan leaves the table as the first run left it |
| Generate.ReportedCountBound | server/server.js:379 | the reported count is at least the number of distinct items written |
| Generate.DistinctLinesOneItem | server/server.js:362-379 | two different lines with the same trim count as two in the reported number but become one item |
| Generate.SpacedEggs | server/server.js:362-367 | `" eggs"` and `"eggs"` are different lines with the same trim |
| Generate.Trimmed | server/server.js:365-369 | each item text is the trim of its line, line for line |
| Generate.Generated | server/server.js:362-374 | the table after generation: the distinct lines, trimmed, upserted as pending items of the user in order |
| Nutrition.TotalCalories | server/server.js:268 | the day's total adds `recipes?.calories \|\| 0` over the entries (its properties: TotalCaloriesAppend, DanglingEntryAddsNothing, BreakdownSumsToTotal) |
| Nutrition.TotalCaloriesAppend | components/NutritionTracker.jsx:75-79 | the day's total over two runs of entries is the sum of their totals |
| Nutrition.DanglingEntryAddsNothing | components/MealPlanner.jsx:94-98 | an entry whose recipe was deleted adds nothing to the total |
| Nutrition.MealsByType | components/MealPlanner.jsx:90-92 | `getMealsByType` keeps the entries of that type and no other, as a subsequence of the day's entries |
| Nutrition.MealsByTypeCounts | components/MealPlanner.jsx:90-92 | each entry of that type is kept as often as it occurs, which with the subsequence fixes the result |
| Nutrition.CaloriesByMealType | components/NutritionTracker.jsx:85-89 | `getCaloriesByMealType` is the total of that type's entries (its property: BreakdownSumsToTotal) |
| Nutrition.BreakdownSumsToTotal | server/server.js:266-283 | when every entry has one of the four meal types, the breakdown adds up to the total |
| Nutrition.DailyNutrition | server/server.js:249-290 | the daily report: the total, each meal type's figure equal to the calories of that type's entries, the entries; the breakdown sums to the total and an absent type counts 0 |
| Nutrition.CalorieProgress | components/NutritionTracker.jsx:97-103 | progress is `total / 2000 * 100` capped at 100, and it is 100 exactly when the goal is reached |
| Nutrition.ProgressLabel | components/NutritionTracker.jsx:129-133 | "Goal Reached!" exactly when the total reaches the goal; otherwise a positive remainder that makes up the goal |
| Weekly.DayOfWeek | server/server.js:296 | `getDay()` is between 0 and 6 |
| Weekly.WeekStart | server/server.js:295-296 | the start of the week is a Sunday at most six days before the date |
| Weekly.WeekEnd | server/server.js:298-299 | the Saturday six days later (its properties: WeekWindow) |
| Weekly.WeekWindow | server/server.js:294-299 | the window starts on a Sunday, holds the date, spans seven days and is the same for every date in it |
| Weekly.InWeekOf | server/server.js:309-311 | the query returns the entries dated inside the window and no other, as a subsequence of all entries |
| Weekly.InWeekOfCounts | server/server.js:309-311 | each entry inside the window is returned as often as it occurs, which with the subsequence fixes the result |
| Weekly.Dates | server/server.js:303-311 | the dates of the entries, entry for entry |
| Weekly.OnDate | server/server.js:317-323 | the entries of one date are those dated that day and no other, as a subsequence of the entries |
| Weekly.OnDateCounts | server/server.js:317-323 | each entry of that date is kept as often as it occurs |
| Weekly.ObjectValues | components/NutritionTracker.jsx:92 | `Object.values` yields one value per key: the value of the k-th key at position k |
| Weekly.GroupByDate | server/server.js:315-323 | `dailyTotals` has exactly the dates that have entries, each mapped to that day's calories, keys in first-seen order |
| Weekly.WeeklyValuesSum | components/NutritionTracker.jsx:60-69 | the per-date totals add up to the calories of the whole week |
| Weekly.WeeklyNutrition | server/server.js:292-329 | the weekly route's keys are exactly the dates of the entries in the window, in first-seen order, so a date without entries is absent; each maps to that date's calories, and the values add up to the week's total |
| Weekly.RoundDiv | components/NutritionTracker.jsx:94 | `Math.round(a / n)` is the nearest integer to `a / n`, with halves rounded up |
| Weekly.WeeklyAverage | components/NutritionTracker.jsx:91-95 | 0 for an empty week, otherwise the mean of the daily totals rounded to the nearest integer |
| Weekly.WeeklyAverageWithin | components/NutritionTracker.jsx:91-95 | the weekly average lies between the smallest and the largest daily total |
| Weekly.WeeklyAverageExample | components/NutritionTracker.jsx:91-95 | days of 2000 and 1800 calories average 1900; an empty week averages 0 |
| MealPlanner.DisplayName | components/MealPlanner.jsx:231 | a card heading is never empty: the recipe name, or "Recipe not found" when the recipe or its name is missing |
| MealPlanner.MissingRecipeCard | components/MealPlanner.jsx:231-233 | a card whose recipe is gone, built by `CardOf` from `DisplayName`, `Calories` and `DisplayMinutes`, shows "Recipe not found", 0 calories and 0 minutes |
| MealPlanner.Cards | components/MealPlanner.jsx:228-239 | a section shows one card per entry of its type, in entry order |
| MealPlanner.CardCaloriesOfEntries | components/MealPlanner.jsx:232 | the calories printed on a run of cards add up to the total of those entries |
| MealPlanner.CardsAddUpToSummary | components/MealPlanner.jsx:94-98 | when every entry has one of the four types, the calories on the four sections' cards add up to the daily summary's total |
| MealPlanner.PlaceholderIffNoEntry | components/MealPlanner.jsx:241-245 | "No {type} planned" appears exactly when the day has no entry of that type |
| MealPlanner.ShownIffStandardType | components/MealPlanner.jsx:225-228 | an entry appears in the timeline exactly when its type is one of the four offered |
| Store.KeyIndex | server/server.js:373 | finds the row holding a conflict key, or reports that none does |
| Store.Upserted | server/server.js:373 | one upsert on the conflict key `(user_id, item)` (its properties: UpsertedLookup, UpsertedKeepsRows, UpsertedPending) |
| Store.UpsertedAll | server/server.js:371-374 | a run of upserts, one key after the other (its properties: UpsertedAllLookup, UpsertedAllKeepsRows, UpsertedAllIdempotent) |
| Store.UpsertedLookup | server/server.js:373 | an upsert leaves a pending row under its key and changes no other key |
| Store.UpsertedPending | components/MealPlanner.jsx:126-135 | upserting a key that already has a pending row changes nothing |
| Store.UpsertedAllLookup | server/server.js:371-374 | a run of upserts leaves every key in it pending and no other key changed |
| Store.UpsertedKeepsRows | server/server.js:373 | an upsert keeps every row it does not target |
| Store.UpsertedAllKeepsRows | server/server.js:371-374 | a run of upserts keeps every row of another owner or of an item not in the run |
| Store.UpsertedAllPending | server/server.js:371-374 | upserting keys that are all pending changes nothing |
| Store.UpsertedAllIdempotent | server/server.js:371-374 | running the same upserts twice equals running them once |
| Store.Inserted | components/ShoppingList.jsx:36-44 | an insert is refused exactly when the user already has that item |
| Store.InsertedLookup | server/server.js:198-212 | a successful insert appends one row under a fresh id and changes no other key |
| Store.Retain | components/ShoppingList.jsx:79-83 | a filtered delete keeps exactly the rows that do not match, in order |
| Store.RetainWellFormed | components/ShoppingList.jsx:79-83 | deleting rows keeps the table well formed |
| Store.WithoutId | components/ShoppingList.jsx:65-74 | `delete().eq("id", id)` removes exactly the rows with that id |
| Store.WithoutCompleted | components/ShoppingList.jsx:76-91 | clearing removes exactly the user's completed rows |
| Store.DeletesWellFormed | components/ShoppingList.jsx:65-91 | both deletes keep the table well formed |
| Store.WithCompleted | components/ShoppingList.jsx:56 | the update sets the flag on the rows with that id and leaves every other row alone |
| Store.ToggleFlips | components/ShoppingList.jsx:54-63 | toggling from a current view flips the flag of that one row and changes no other row |
| Store.WithCompletedWellFormed | components/ShoppingList.jsx:56 | setting flags keeps the table well formed |
| Store.PatchRows | server/server.js:89-97 | the body is applied to the rows matching both the id and the owner, and to no other row |
| Store.UpdatedRows | server/server.js:217-222 | the `data` returned by the update is exactly the owner's rows with that id, as the patch leaves them, and is empty exactly when there is no such row |
| Store.ScopedUpdate | server/server.js:89-109 | the route answers 404 exactly when the owner has no row with that id, and then the rows are unchanged; otherwise it returns a row of the new table with that id and owner, and the new rows are the patched ones |
| Store.ScopedUpdateIsolation | server/server.js:214-222 | a scoped update never changes a row of another owner or with another id |
| Store.ScopedDelete | server/server.js:111-121 | a scoped delete removes exactly the owner's row with that id, and changes nothing when there is none |
| Store.ScopedDeleteIsRetain | server/server.js:236-246 | a scoped delete is the filtered delete on `id` and `user_id` |
| Store.ScopedDeleteWellFormed | server/server.js:236-246 | a scoped delete keeps the table well formed |
| Store.ApplyPatch | server/server.js:219 | `update(req.body)` writes the body's fields over the row's and keeps the others (its property: UpdatedItem) |
| Store.UpdatedItem | server/server.js:214-234 | the update route answers 404 exactly when the owner has no such row; it is refused exactly when the patched table would break the unique key; when it succeeds the new table is the patched one; otherwise nothing changes |
| Store.ShoppingStore.Upsert | components/MealPlanner.jsx:126-135 | one upsert on the mutable table equals `Upserted` on its old value |
| Store.ShoppingStore.UpsertBatch | server/server.js:371-374 | a batch upsert equals `UpsertedAll` on the old table |
| Store.ShoppingStore.Insert | server/server.js:198-212 | reports whether the insert was accepted, and changes the table only when it was |
| Store.ShoppingStore.UpdateCompleted | components/ShoppingList.jsx:56 | the new table is `WithCompleted` of the old one |
| Store.ShoppingStore.DeleteById | components/ShoppingList.jsx:65-74 | the new table is `WithoutId` of the old one |
| Store.ShoppingStore.DeleteCompleted | components/ShoppingList.jsx:76-91 | the new table is `WithoutCompleted` of the old one |
| Store.ShoppingStore.UpdateScoped | server/server.js:214-234 | outcome and new table are those of `UpdatedItem` |
| Store.ShoppingStore.DeleteScoped | server/server.js:236-246 | the new table is the scoped delete of the old one |
| ShoppingList.UserItems | components/ShoppingList.jsx:15-28 | the list shows exactly the user's rows, in table order |
| ShoppingList.FilteredItems | components/ShoppingList.jsx:93-97 | the filter keeps exactly the items it admits, in order |
| ShoppingList.FilterAllIsIdentity | components/ShoppingList.jsx:93-97 | the "all" filter shows every item unchanged |
| ShoppingList.CompletedCount | components/ShoppingList.jsx:99-100 | the completed count never exceeds the total |
| ShoppingList.FiltersPartition | components/ShoppingList.jsx:93-100 | the pending and completed filters split the items between them |
| ShoppingList.PendingLabelCount | components/ShoppingList.jsx:131-133 | "Pending (total - completed)" counts exactly the items the pending filter lists |
| ShoppingList.HandleAddItem | components/ShoppingList.jsx:30-52 | a blank input is ignored; otherwise the trimmed text is inserted as pending, and a refused insert changes nothing |
| ShoppingList.AddedItemIsPending | components/ShoppingList.jsx:33-42 | an added item is pending under its trimmed, non-empty text, and no other key changes |
| ShoppingList.HandleToggleComplete | components/ShoppingList.jsx:54-63 | the row's flag is set to the negation of the shown flag |
| ShoppingList.StaleToggleKeepsRow | components/ShoppingList.jsx:56 | on a stale view, where the flag in the table already differs from the one shown, the toggle changes nothing |
| ShoppingList.ToggleTwiceRestores | components/ShoppingList.jsx:54-63 | toggling and toggling back restores every row |
| ShoppingList.HandleClearCompleted | components/ShoppingList.jsx:76-91 | on confirmation the user's completed items are deleted; otherwise nothing changes |
| ShoppingList.ClearLeavesPending | components/ShoppingList.jsx:76-91 | after clearing, the user's list holds exactly their pending items, the completed counter is 0, and other users' rows stay |

## Left out

- Authentication, HTTP status plumbing and the Supabase client are not modelled. A request is a function of the user id and the table. Store errors other than the unique constraint are not modelled.
- Recipe and meal-plan creation and listing, the dashboard statistics, and the `RecipeManager` and `Dashboard` components are not modelled.
- The order `created_at desc` that the screens use for listing is not modelled. Lists follow table order.
- The time zone conversions of JavaScript `Date` and `toISOString` are not modelled. Dates are day numbers, and the week starts from the weekday of the given date.
- `Weekly.WeeklyAverage`: exact integer arithmetic with round-half-up stands in for floating-point division and `Math.round`. `NaN` calorie values are not modelled.
- `Nutrition.CalorieProgress`: a real number stands in for the floating-point percentage.
- `Store.ShoppingStore.UpsertBatch`: upserts the batch one row after the other. How the store answers a batch that names the same key twice is not modelled. Such a batch does arise in generation, because the lines are deduplicated before they are trimmed: `" eggs"` and `"eggs"` both become `"eggs"` (see DistinctLinesOneItem).
- `Generate.GenerateOnServer`: when two distinct lines trim to the same text, the model applies the batch's rows in order and answers `Ok`; the store's actual answer to that batch, which may be an error with nothing written, is not modelled.
- `Ingredients.ClientAndServerAgree`: the recipes the planner fetches are taken to be one per entry in entry order. `.in("id", recipeIds)` returns each recipe once, in store order, and that order is not modelled; `Generate.GenerateInPlanner` takes the fetched recipes as a parameter.
- `Generate.GenerateInPlanner`: a failure of one upsert inside the planner's loop is ignored by the component and is not modelled. With the per-row upserts the store modelled here never refuses.
- Update bodies that change `id` or `user_id` are not modelled. A patch sets only the item text and the completed flag.
- Concurrent requests and stale screens are reduced to explicit parameters: the flag the screen shows, and the user's confirmation.
