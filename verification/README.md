# NutraKids food resolution and points, in Dafny

This project models the server-side logic of NutraKids, a PHP back end for
tracking what children eat. The model has two main parts:

- **The food-name resolver.** A parent types a food name. The resolver looks
  it up in a shared food dictionary in three tiers and answers from the
  first tier that hits:
  1. the name matches exactly, ignoring case;
  2. the text appears inside the entry's alternative names;
  3. a bounded Levenshtein match over the whole dictionary.

  When all three tiers miss, the `suggest_food` action asks an external
  classifier (the Claude API). It then writes the classifier's answer back
  into the dictionary, so the same text resolves locally next time, unless
  a food of the corrected name already exists. In that case `saveFood`
  refuses, nothing is written, and the same text reaches the classifier
  again.
- **The state changes around it.**
  - `add_food` adds a food to a household unless the household already has
    that name.
  - `save_food_preferences` replaces all of a child's ratings at once.
  - `log_food` and `log_water` award points, and `get_daily_points` adds up
    the day.
  - The meal-plan service splits ratings into likes and dislikes, then maps
    the API reply to success or failure.

Every handler is a pure function. Its inputs are the state, the request
fields and the outcomes of external calls; its outputs are the response
and the new state. Tables are sequences of rows in storage order, and
AUTO_INCREMENT is a `nextId` counter.

Modules:

| module | file | what it holds |
|---|---|---|
| `Wrappers` | wrappers.dfy | `Option`, PHP's nullable value |
| `Text` | text.dfy | `trim`, ASCII `strtolower`, `LIKE '%x%'` as substring containment, code-point ordering |
| `Levenshtein` | levenshtein.dfy | recursive edit-distance spec, a dynamic-programming computation proved equal to it, and `levenshteinDistance` |
| `FoodSearch` | food_search.dfy | the dictionary, `searchFood` with its three tiers, `saveFood`, the two category queries |
| `ClaudeReply` | claude_reply.dfy | what the application sees of one API reply |
| `Suggest` | suggest.dfy | the `suggest_food` action |
| `Request` | request.dfy | PHP truthiness of request fields, error responses |
| `Household` | household.dfy | `add_food`, `save_food_preferences` |
| `Gamification` | gamification.dfy | `log_food`, `log_water`, `get_daily_points` |
| `MealPlan` | meal_plan.dfy | `generateMealPlan` and the result mapping of `callClaudeAPI` |

Modelling choices:

- **The fuzzy tier.** The source reads every row `ORDER BY food_name` and
  then sorts stably by distance. The row it returns is therefore the one
  with the least (distance, name) pair. MySQL leaves the order of rows
  with equal names unspecified; the model chooses the earliest in storage
  order among rows that tie on both, and `Best` computes exactly this.
  `ClosestUnique` shows that in a dictionary with case-insensitively unique
  names, at most one row qualifies.
- **The classifier's reply is an input.** On the paths that never call the
  classifier, the lemmas show that the reply does not affect the result.
- **The `log_water` bonus message.** "Hydration Hero! +20 bonus!" appears
  once the day's water reaches eight cups, but no points are credited for
  it. The model follows the code: `LogWater` credits exactly five points
  per cup.

## Model

| member | source | states |
|---|---|---|
| `Text.Trim` | backend/includes/FoodSearch.php:47 | `trim` yields a contiguous piece of its input that neither starts nor ends with one of the characters PHP strips, and everything removed before and after it is such a character |
| `Levenshtein.ComputeLev` | backend/includes/FoodSearch.php:34-35 | the row-by-row dynamic programme returns exactly the recursive edit distance `Lev` (insert, delete, substitute) |
| `Levenshtein.Distance` | backend/includes/FoodSearch.php:26-36 | the distance of two strings is the edit distance of their trimmed, lower-cased forms; the shortcuts for equal or empty strings agree with it |
| `Levenshtein.DistanceSymmetric` | backend/includes/FoodSearch.php:26-36 | the distance does not depend on the order of its arguments |
| `Levenshtein.DistanceZeroIff` | backend/includes/FoodSearch.php:27-30 | the distance is 0 exactly when the normalised strings are equal |
| `Levenshtein.DistanceBounds` | backend/includes/FoodSearch.php:26-36 | the distance is at least the difference of the normalised lengths and at most the larger of them |
| `Levenshtein.DistanceStrawberrys` | backend/includes/FoodSearch.php:19 | the documented example holds: "strawberrys" is one edit from "strawberry" |
| `Levenshtein.DistanceBrocoli` | backend/includes/FoodSearch.php:20 | the documented example holds: "brocoli" is one edit from "broccoli" |
| `FoodSearch.FirstHit` | backend/includes/FoodSearch.php:54-63 | a `LIMIT 1` probe answers nothing exactly when no row matches, otherwise the position of the first matching row in storage order |
| `FoodSearch.WithinTolerance` | backend/includes/FoodSearch.php:103-113 | the kept candidates are exactly the scored rows whose distance is within the tolerance |
| `FoodSearch.Best` | backend/includes/FoodSearch.php:115-121 | the first candidate after ordering by name and stably by distance: present exactly when there are candidates, and no candidate ranks strictly before it |
| `FoodSearch.Closest` | backend/includes/FoodSearch.php:92-131 | the fuzzy tier finds nothing exactly when no row is within tolerance; otherwise a row within tolerance that no row within tolerance ranks before by (distance, name) |
| `FoodSearch.ClosestUnique` | backend/includes/FoodSearch.php:94-121 | with case-insensitively unique names, at most one row is closest, so tie-breaking cannot change the answer |
| `FoodSearch.Lookup` | backend/includes/FoodSearch.php:53-135 | the exact tier wins untagged with the first matching row; the alternative-names tier only on an exact miss, tagged, with its first matching row; the fuzzy tier only when both miss, tagged with confidence "medium" and the closest row; no result exactly when all three miss |
| `FoodSearch.SearchFood` | backend/includes/FoodSearch.php:46-51 | a term shorter than two characters after trimming finds nothing; any longer term is looked up trimmed |
| `FoodSearch.LookupFindsSameName` | backend/includes/FoodSearch.php:53-67 | with case-insensitively unique names, a term equal to a stored name ignoring case finds exactly that row, untagged |
| `FoodSearch.SearchFindsAnyCasing` | backend/includes/FoodSearch.php:53-67 | any casing and padding of a stored name finds exactly that row through the exact tier |
| `FoodSearch.SaveFood` | backend/includes/FoodSearch.php:148-180 | refused, with the dictionary unchanged, exactly when the name exists ignoring case; otherwise exactly one row with a fresh id and the given fields is appended; the dictionary invariant is preserved |
| `FoodSearch.FoodsByCategory` | backend/includes/FoodSearch.php:189-200 | exactly the rows of the category, each as often as stored, ordered by name |
| `FoodSearch.AllCategories` | backend/includes/FoodSearch.php:207-216 | every category in use, strictly ascending and hence without duplicates |
| `FoodSearch.AscendingDistinct` | backend/includes/FoodSearch.php:209-211 | a strictly ascending list has no repeated element |
| `Suggest.SuggestFood` | backend/api/index.php:702-849 | a missing or short name is refused with the store unchanged; a local hit answers from the dictionary; each defect of the key or the reply is a failure without a write; a valid answer is returned with source `claude_api` and written back; the dictionary invariant holds afterwards |
| `Suggest.StatusOf` | backend/api/index.php:716-823 | the missing name is the only 400 failure; the classifier failures are 500 |
| `Suggest.FromLocal` | backend/api/index.php:736-746 | a local hit carries the row's name, emoji and category with source `local_database`; confidence is "medium" exactly for fuzzy hits and "high" otherwise |
| `Suggest.LocalOutcomeIgnoresClassifier` | backend/api/index.php:716-747 | for a refused name and for a local hit, neither the key nor the classifier's reply changes the outcome |
| `Suggest.SuggestKnownNameIsHigh` | backend/api/index.php:730-747 | a stored name in any casing is answered locally with high confidence and no write |
| `Suggest.WriteBack` | backend/api/index.php:829-834 | the classifier's answer is saved with alternative names `lower(raw),lower(corrected)`; a refusal by `saveFood` is ignored |
| `Suggest.AltNamesHoldInput` | backend/api/index.php:833 | the written-back alternative names contain the trimmed input, ignoring case |
| `Suggest.ExistingNameNotWrittenBack` | backend/api/index.php:829-834 | when the corrected name already exists ignoring case, the classifier's answer is returned but nothing is written, and the same text still misses the dictionary |
| `Suggest.WrittenBackResolvesLocally` | backend/api/index.php:829-834 | once an answer has been written back, the same text is answered from the dictionary without the classifier |
| `Household.FindFood` | backend/api/index.php:641-654 | the duplicate query finds a row exactly when the household has a food with that name, ignoring case |
| `Household.AddFood` | backend/api/index.php:613-676 | missing fields or no household are 400; a name the household already has, ignoring case, is 409 with no insert; otherwise exactly one active row with the next id; per-household name uniqueness is preserved |
| `Household.AddFoodTwiceRefused` | backend/api/index.php:641-664 | adding a food that was just added, in any casing, is refused with 409 |
| `Household.SavePreferences` | backend/api/index.php:484-544 | a missing child or empty submission is 400 and an unauthorised child 403, with nothing changed; otherwise the child's rows are exactly the submitted pairs in order and every other child's rows are as they were |
| `Household.SavedRatingsAreSubmitted` | backend/api/index.php:524-544 | after saving, the child has a (food, rating) row exactly when that pair was submitted |
| `Gamification.MealPoints` | backend/api/index.php:1018-1025 | a meal earns 10, 20, 30 or 40 points: at least 30 exactly when the food is new, a multiple of 20 exactly when the rating is 4 or more |
| `Gamification.BonusReason` | backend/api/index.php:1057 | the new-food reason wins over the rating reason, and the reason is empty exactly when only the base points were paid |
| `Gamification.CountEaten` | backend/api/index.php:1006-1016 | the count is zero exactly when the child never logged a meal of that name, ignoring case |
| `Gamification.Credit` | backend/api/index.php:1044-1050 | the child's total grows by the points and no other total changes; a missing user row changes nothing |
| `Gamification.LogFood` | backend/api/index.php:976-1057 | missing fields or profile are 400 with nothing changed; otherwise one meal row with today's date and the awarded points is appended, the points follow the formula with newness decided case-insensitively, and the child's total is credited |
| `Gamification.LoggedFoodNotNewAgain` | backend/api/index.php:1005-1025 | a food just logged is not new the next time in any casing, so it earns at most 20 points |
| `Gamification.FirstTracking` | backend/api/index.php:1093-1099 | the tracking fetch answers nothing exactly when the child has no row for the day, otherwise a row of that child and day |
| `Gamification.RecordWater` | backend/api/index.php:1092-1128 | whether today's row is updated or inserted, today's water grows by the cups and today's points by five per cup; other days and children are untouched |
| `Gamification.RecordWaterKeepsInvariants` | backend/api/index.php:1092-1128 | recording water keeps one tracking row per child and day, and keeps every row's points equal to five times its water |
| `Gamification.LogWater` | backend/api/index.php:1074-1156 | a missing child is 400; cups default to 1 and earn five points each; the reported total is today's water afterwards; the hydration message appears exactly from eight cups on and the child is credited only the cup points |
| `Gamification.GetDailyPoints` | backend/api/index.php:1172-1225 | a missing child id is refused and any present one is answered; today's points are today's meal points plus five per cup of today's water, next to the total, the meal count and the goal |
| `Gamification.LogFoodRaisesToday` | backend/api/index.php:1191-1217 | logging a meal raises the day's points by exactly its points and the day's meal count by one |
| `Gamification.LogWaterRaisesToday` | backend/api/index.php:1212-1217 | logging water raises the day's points by exactly the points it awarded |
| `MealPlan.SplitPreferences` | backend/includes/ClaudeAIService.php:14-22 | the loop yields exactly the names rated 4 or more and, separately, those rated 2 or less, each in input order |
| `MealPlan.SplitIsPartition` | backend/includes/ClaudeAIService.php:16-22 | every preference goes to exactly one of likes, dislikes and the unused rating-3 ones |
| `MealPlan.SplitMembership` | backend/includes/ClaudeAIService.php:16-22 | a name is liked exactly when some preference rates it 4 or more, and disliked exactly when some rates it 2 or less |
| `MealPlan.LikesDislikesDisjoint` | backend/includes/ClaudeAIService.php:16-22 | when each food appears once, no name is both liked and disliked |
| `MealPlan.InterpretReply` | backend/includes/ClaudeAIService.php:57-65 | success exactly for a 200 reply with `content[0].text`, carrying that text; "API Error" exactly for other statuses; "Unexpected response" for any other 200 |
| `MealPlan.ErrorStatusIgnoresBody` | backend/includes/ClaudeAIService.php:57-59 | a non-200 status gives the same error whatever the body |
| `MealPlan.GenerateMealPlan` | backend/includes/ClaudeAIService.php:13-25 | the likes and dislikes passed to the prompt and the mapped result of the call |

## Left out

- HTTP transport: the curl calls to the Claude API (backend/api/index.php:773-792, backend/includes/ClaudeAIService.php:43-55) are replaced by a given reply value (status, optional `content[0].text`, and what the text decodes to).
- Prompt text: the suggestion prompt and `buildMealPlanPrompt` only format text for the API.
- JSON encoding and decoding: requests and responses are records. A decoded classifier answer keeps only the four fields the handler reads; the other keys it passes through are not modelled.
- SQL and mysqli plumbing (backend/includes/Database.php is not part of this model): each table is an in-memory sequence of rows, and each query is a function over it.
- SQL `LIKE` special characters: a `%` or `_` typed by the user acts as a wildcard in the real query, and a `\` acts as MySQL's escape character (the input `a\b` matches `ab`, not `a\b`). The model treats the alternative-names test as plain substring containment, so the alternative-names tier, and `Suggest.WrittenBackResolvesLocally` with it, agree with the source only for input without these characters.
- Collation and character set: `ORDER BY` is code-point order, as under a binary collation, and `=` on names and on categories is exact. MySQL's default case-insensitive collation would order and tie names differently, would let `WHERE category = ?` (backend/includes/FoodSearch.php:193) match "Fruits" for "fruits", and would let `SELECT DISTINCT category` (backend/includes/FoodSearch.php:209) merge categories that differ only in case; `FoodsByCategory` and `AllCategories` compare categories exactly. `strtolower`, `LOWER()` and `levenshtein` are modelled as ASCII case folding and edit distance over characters, whereas PHP works on bytes.
- Length in bytes: `strlen` counts bytes, while the model counts characters. The two-character minimum of `searchFood` (backend/includes/FoodSearch.php:49) and of `suggest_food` (backend/api/index.php:716) lets a single multi-byte character such as "é" or an emoji through in PHP, but `SearchFood` and `Suggest.NameGiven` refuse it; for such input the model answers "not found" or 400 where the source goes on to the tiers and the classifier.
- PHP version: the model assumes PHP 8.2 or later, where `usort` is stable (8.0), `levenshtein` has no 255-character limit and never answers -1 (8.0), and `strtolower` ignores the locale (8.2).
- FoodSearch.Closest: the fuzzy tier's tie-break between rows at equal distance follows code-point name order, not the database's collation order.
- Sessions and authentication: the 401 "Not authenticated" check at the top of each handler, login and signup, and password hashing.
- Suggest.SuggestFood: a classifier answer without `corrected_name` is assumed not to be written back, because the NOT NULL name column makes the insert fail and `saveFood` turns the failure into `false`. The model does not derive this from the schema.
- Household lookups: the caller's household (`add_food`) and whether the caller may edit a child (`save_food_preferences`) are query results the handlers receive. They are parameters here.
- Database exceptions: the `catch` branches that answer 500 "Error: …" are not modelled.
- Clock: `date('Y-m-d')` and `CURDATE()` are both the `today` parameter. The model assumes PHP and MySQL agree on the date.
- Concurrency: the window between `saveFood`'s existence check and its insert, and any interleaving of requests. The model has a single writer.
- Error messages that embed a number: `ApiStatus` carries the status code rather than the text "Claude API error (status N)".
- Front ends: parent-app/public/js/app.js and child-app/public/js/app.js, and the password-generator page.
- Logging and configuration: the `error_log` calls and the configuration constants. The API key is a parameter, and the template's placeholder key counts as not configured.
