# Foodgram core in Dafny

Foodgram is a recipe-sharing web service built on Django and Django REST Framework.
Users publish recipes made of tagged ingredients with amounts. They mark recipes as
favourites, put them in a shopping cart, follow other authors, and download a shopping
list. The list sums up the ingredients of every recipe in the cart.

This project models the hand-written logic of the service in Dafny and proves what that
logic promises. The ORM is replaced by tables held as sequences of rows.

| module | file | models |
|---|---|---|
| `Models` | `models.dfy` | the entities; the `Database` class with its tables and declared constraints; the `ingredients_shopping_cart` aggregation |
| `Serializers` | `serializers.dfy` | data-URL header parsing of `Base64ImageField`; subscription and shopping-cart validation; the `is_*` fields; recipe validation; `add_ingredients`, `create` and `update` as methods on the database |
| `Views` | `views.dfy` | `shopping_cart_favorite`, `favorite`, `shopping_cart`, `subscribe`, and the `download_shopping_cart` composition |
| `SendFile` | `send_file.dfy` | `sending`, the loop that builds the text report |
| `TextToPrint` | `text_to_print.dfy` | `text_to_print`, the report built by `"\n".join` |
| `Validators` | `validators.dfy` | `validate_username` |
| `Permissions` | `permissions.dfy` | `AdminOrReadOnly` and `AuthorOrReadOnly` |
| `Filters` | `filters.dfy` | `RecipeFilter.get_is_in_shopping_cart`, `get_is_favorited`, and the `IngredientSearchFilter` name filter |
| `Wrappers`, `Collections`, `Text` | `wrappers.dfy`, `collections.dfy`, `text.dfy` | `Result`/`Option`/`Outcome`, sequence helpers, and `str.split`, `str.join` and number formatting with their laws |

Modelling choices:

- **Tables.** A table is a `seq` of rows, so a table may hold a row twice. This matters
  for the shopping cart, which declares no unique constraint. `Database.Constraints()`
  is what the database itself enforces: the unique constraints and check constraint of
  `Subscribe` and `Favourite`, and the range 0 to 2147483647 of a `PositiveIntegerField`
  column (`Models.IntegerColumnMax`), taking PostgreSQL's `integer` column as the
  backend. `Database.ValidatedValues()` is the minimum of 1 that the
  `MinValueValidator`s declare. Django runs those validators only when a serializer or
  a form validates (such as the admin's `RecipeIngredientInline`), never on a database
  write, so they are kept apart from `Constraints()`.
- **Ordering.** Names are ordered by code point (`Text.LexLe`); the database collation
  is not modelled.
- **Abstract parameters.** `\w`, `str.capitalize` and case folding are function
  parameters. So is the timestamp that `datetime.now()` produces.

Two modelling choices follow the code:

- **Per-entry counting.** The aggregation counts a recipe once per cart entry, since the
  query joins through the cart rows. It is not deduplicated by recipe.
  `Models.ShoppingCartTotalIsSum` states what the code does.
  `Models.ShoppingCartTotalWithUniqueCart` states that this equals the deduplicated sum
  while every (user, recipe) pair is stored once, which the API's `get_or_create` keeps
  as long as requests are served one at a time (`Views.ShoppingCart`).
- **No recipe list.** The serving code never lists deduplicated, sorted recipe names.
  The view calls `sending`, and `text_to_print` takes its recipe names as given.

## Model

| member | source | states |
|---|---|---|
| `Models.ShoppingCartTotals` | backend/recipes/models.py:165-170 | `ingredients_shopping_cart` on the joined rows; see the `ShoppingCart...` lemma rows below |
| `Models.ShoppingCartGroupsDistinct` | backend/recipes/models.py:165-170 | no (name, unit) group appears twice in the aggregation result |
| `Models.ShoppingCartGroupsCover` | backend/recipes/models.py:166-170 | a group appears exactly when some ingredient row of that group belongs to a recipe the user has a cart entry for |
| `Models.ShoppingCartTotalIsSum` | backend/recipes/models.py:166-170 | each group's total is the sum of its rows' amounts, each row counted once per cart entry of the user for its recipe |
| `Models.ShoppingCartTotalWithUniqueCart` | backend/recipes/models.py:166-170 | with at most one entry per (user, recipe), each total is the plain sum over the group's rows whose recipe is in the cart |
| `Models.ShoppingCartIgnoresOtherRecipes` | backend/recipes/models.py:166-167 | removing a row of a recipe outside the user's cart leaves the result unchanged |
| `Models.ShoppingCartSortedByName` | backend/recipes/models.py:170 | the result is ordered by ingredient name, non-decreasing |
| `Models.SortByName` | backend/recipes/models.py:170 | `order_by('ingredient__name')`: the keys come out sorted by name and are a permutation of the input |
| `Models.ShoppingCartEmptyCart` | backend/recipes/models.py:165-170 | a user without cart entries gets an empty result |
| `Models.ShoppingCartTotalsPositive` | backend/recipes/models.py:154-170 | when every amount is at least 1, every total is at least 1 and at least the group's number of rows |
| `Models.Database.IngredientsShoppingCart` | backend/recipes/models.py:165-170 | the aggregation over the database's tables; for validated data every total is at least 1 |
| `Models.Database.constructor` | backend/recipes/models.py:173-258 | an empty database satisfies the declared constraints and the validator minimums |
| `Serializers.ToInternalValue` | backend/api/serializers.py:28-33 | `Base64ImageField.to_internal_value`; see `ImagePassedOn`, `ImageSingleMarker`, `ImageNoMarker` and `ImageSeveralMarkers` |
| `Serializers.ImagePassedOn` | backend/api/serializers.py:28-33 | anything other than a string starting with `data:image` is passed on unchanged |
| `Serializers.ImageSingleMarker` | backend/api/serializers.py:29-32 | with exactly one `;base64,`, the payload is the text after it, and the file is named `temp.` plus the header's text after its last `/` |
| `Serializers.ExtensionAfterLastSlash` | backend/api/serializers.py:31 | `format.split('/')[-1]` is the header's text after its last `/`, or the whole header without one |
| `Serializers.ImageNoMarker` | backend/api/serializers.py:30 | without `;base64,` the two-target unpacking fails, having got one piece |
| `Serializers.ImageSeveralMarkers` | backend/api/serializers.py:30 | two or more `;base64,` make the unpacking fail |
| `Serializers.ValidateSubscribe` | backend/api/serializers.py:63-79 | `SubscribeModelSerializer` validation; see `ValidateSubscribeSpec` |
| `Serializers.ValidateSubscribeSpec` | backend/api/serializers.py:63-79 | accepts exactly a new pair of two different users and returns it unchanged; an existing pair gets the uniqueness message; an accepted pair keeps both table constraints |
| `Serializers.ValidateShoppingCart` | backend/api/serializers.py:278-289 | `ShoppingCartSerializer` validation; see `ValidateShoppingCartSpec` |
| `Serializers.ValidateShoppingCartSpec` | backend/api/serializers.py:278-289 | rejects exactly a pair already in the cart, with its message; an accepted pair keeps a duplicate-free cart duplicate-free |
| `Serializers.IsSubscribed` | backend/api/serializers.py:131-135 | `get_is_subscribed`; see `MembershipFields` and `Views.SubscribeMembership` |
| `Serializers.IsFavorited` | backend/api/serializers.py:195-199 | `get_is_favorited`; see `MembershipFields` and `Views.RelationStepMembership` |
| `Serializers.IsInShoppingCart` | backend/api/serializers.py:201-205 | `get_is_in_shopping_cart`; see `MembershipFields` and `Views.RelationStepMembership` |
| `Serializers.MembershipFields` | backend/api/serializers.py:195-205 | `is_favorited`, `is_in_shopping_cart` and `is_subscribed` (lines 131-135) are false for an anonymous viewer, and otherwise true iff the viewer's pair is stored |
| `Serializers.ValidateRecipe` | backend/api/serializers.py:231-246 | `RecipeCreateSerializer.validate`; see `ValidateRecipeTagsFirst`, `ValidateRecipeNeedsIngredients` and `ValidateRecipeRepeatedIds` |
| `Serializers.ValidateRecipeTagsFirst` | backend/api/serializers.py:231-235 | missing or empty tags are rejected with the tag message, whatever the ingredients are |
| `Serializers.ValidateRecipeNeedsIngredients` | backend/api/serializers.py:236-239 | with tags present, missing or empty ingredients are rejected |
| `Serializers.ValidateRecipeRepeatedIds` | backend/api/serializers.py:240-246 | with both present, rejected iff two items name the same ingredient, otherwise returned unchanged |
| `Serializers.ValidateRecipeAcceptsZeroAmount` | backend/api/serializers.py:157-163 | validation as written accepts an ingredient amount of 0 |
| `Serializers.ValidateRecipeAmounts` | backend/recipes/models.py:154-159 | with the amount minimum applied, an accepted payload has every amount at least 1, and a payload `validate` accepts is rejected iff some amount is below 1 |
| `Serializers.ValidateRecipeAmountsRejectsZero` | backend/recipes/models.py:154-159 | the corrected validation rejects the amount-0 payload with the validator's message |
| `Serializers.BuildRows` | backend/api/serializers.py:249-256 | the list comprehension succeeds iff every id names an ingredient, and then yields one row per item in order |
| `Serializers.InsertCheck` | backend/recipes/models.py:154-159 | the bulk insert into the `amount` column passes iff every amount lies in 0..2147483647; any amount above that raises DataError, otherwise a negative one raises IntegrityError |
| `Serializers.AddIngredients` | backend/api/serializers.py:248-256 | fails with DoesNotExist on an unknown id, otherwise answers what `InsertCheck` answers (then nothing is written); on success appends exactly those rows; preserves the constraints, and the validated minimums when every amount is at least 1 |
| `Serializers.ReplaceRowsSpec` | backend/api/serializers.py:271-272 | after the delete and the bulk create, the recipe's rows are exactly the new rows and the other recipes' rows are unchanged, in order |
| `Serializers.Create` | backend/api/serializers.py:258-265 | stores the recipe with the submitted fields and tag set, then appends one row per item; fails exactly as `AddIngredients` does, and the recipe stays stored when adding the rows fails; preserves the constraints, and the validated minimums when every amount is at least 1 |
| `Serializers.ClearRecipe` | backend/api/serializers.py:268-271 | clears the recipe's tags and deletes its ingredient rows, touching nothing else |
| `Serializers.StoreUpdated` | backend/api/serializers.py:273-274 | sets the submitted tags and the submitted fields, keeping the stored ones left out |
| `Serializers.AddThenStore` | backend/api/serializers.py:272-275 | adds the rows and, only when that succeeds, stores the submitted tags and fields; on failure nothing changes |
| `Serializers.Update` | backend/api/serializers.py:267-275 | fails exactly as `AddIngredients` does; on success, the recipe's tags and fields are the submitted ones and its rows are one per submitted item, with other recipes' rows untouched; on failure the tags are cleared and the old rows are gone; constraints preserved |
| `Views.GetOrCreate` | backend/api/views.py:106 | answers 201 unless the row is stored twice (MultipleObjectsReturned); afterwards the row is stored, and it is added only when absent |
| `Views.DeleteOr404` | backend/api/views.py:112-114 | 404 iff the row is absent; 204 removes one copy of the row and nothing else |
| `Views.CreateOnDistinctTable` | backend/api/views.py:104-110 | on a duplicate-free table POST answers 201 and leaves the row stored exactly once |
| `Views.CreateIdempotent` | backend/api/views.py:106 | repeating POST changes nothing, whatever the table holds, including the pair stored twice |
| `Views.DeleteOnDistinctTable` | backend/api/views.py:111-115 | on a duplicate-free table DELETE of a present row answers 204 and leaves every other row; of an absent row 404 with no change |
| `Views.DeleteUndoesCreate` | backend/api/views.py:104-115 | DELETE right after a POST that created the row restores the table |
| `Views.RelationStepKeepsDistinct` | backend/api/views.py:104-115 | neither method stores a row twice in a table that holds every row once |
| `Views.RelationStepMembership` | backend/api/views.py:102-115 | after a 201 `is_favorited` and `is_in_shopping_cart` (backend/api/serializers.py:195-205) are true for the acting user; after a 204 or a 404 they are false |
| `Views.ShoppingCartFavorite` | backend/api/views.py:102-115 | 404 for an unknown recipe; otherwise the chosen table takes the POST or DELETE step; the other table is untouched; duplicate-freedom and the constraints are preserved |
| `Views.Favorite` | backend/api/views.py:117-119 | the routine on the favourites; the cart is unchanged; after a 201 the pair is stored, and after a 204 or a 404 for an existing recipe it is not |
| `Views.ShoppingCart` | backend/api/views.py:121-123 | the routine on the cart; the favourites are unchanged and the cart stays duplicate-free; after a 201 the pair is stored, and after a 204 or a 404 for an existing recipe it is not |
| `Views.Subscribe` | backend/api/views.py:63-83 | 404 for an unknown author; POST answers 400 with the validation message or stores the pair with 201; DELETE removes it with 204 or answers 404; after a 201 the pair is stored, after such a DELETE it is not; constraints preserved |
| `Views.SubscribeMembership` | backend/api/views.py:64-83 | after an accepted POST `is_subscribed` (backend/api/serializers.py:131-135) is true for the acting user; after a DELETE answering 204 or 404 it is false |
| `Views.SubscribeThenUnsubscribe` | backend/api/views.py:66-83 | following a new author is accepted, and unfollowing right after restores the table |
| `Views.DownloadShoppingCartAsWritten` | backend/api/views.py:125-135 | `download_shopping_cart` as written, through `sending`; see `DownloadFailsOnNonEmptyCart` and `DownloadEmptyCart` |
| `Views.DownloadShoppingCart` | backend/api/views.py:125-135 | the download rendered with `text_to_print`; see `DownloadShoppingCartLines` |
| `Views.DownloadFailsOnNonEmptyCart` | backend/api/views.py:125-132 | as written, a cart yielding any ingredient makes the download raise KeyError on `recipe__name` |
| `Views.DownloadEmptyCart` | backend/api/views.py:125-132 | as written, only an empty aggregation renders: the two header lines |
| `Views.DownloadShoppingCartLines` | backend/api/views.py:125-132 | rendered with `text_to_print`, the list has one numbered line per aggregated ingredient in order, n + m + 4 lines, totals at least 1 for validated data |
| `SendFile.Report` | backend/api/send_file.py:4-19 | the text starts with the timestamp line and the title line, and ends with a newline |
| `SendFile.Sending` | backend/api/send_file.py:4-19 | the loop, with `count` equal to the entries written, produces `Report` |
| `SendFile.ReportEmpty` | backend/api/send_file.py:6-9 | empty input gives only the two header lines |
| `SendFile.ReportExtends` | backend/api/send_file.py:10-18 | the text for `xs + [y]` is the text for `xs` followed by entry `|xs| + 1` |
| `SendFile.ReportPrefix` | backend/api/send_file.py:10-18 | the text for a prefix of the rows is a prefix of the text for all rows |
| `SendFile.ReportNumbering` | backend/api/send_file.py:5-18 | entry k + 1, in the form `{k}.{name}  - {total}({unit}). Рецепт:{recipe}`, follows the first k entries |
| `SendFile.ReadRow` | backend/api/send_file.py:12-18 | reading one dictionary succeeds iff all four keys are present; without `recipe__name` alone it raises KeyError on that key |
| `SendFile.ReadRows` | backend/api/send_file.py:10-18 | succeeds iff every row reads, and then yields the rows in order; when row k is the first that does not read, its KeyError is the one raised |
| `SendFile.SendingDicts` | backend/api/send_file.py:4-19 | `sending` on the query's dictionaries: the report of the read rows, or the first KeyError; see `ReadRows` and `Sending` |
| `SendFile.SendingNeedsRecipeName` | backend/api/send_file.py:17 | a first dictionary without `recipe__name` makes `sending` raise |
| `TextToPrint.TextToPrint` | backend/api/text_to_print.py:4-20 | `text_to_print`; see `TextToPrintLines`, `TextToPrintIngredientLines` and `TextToPrintEmpty` |
| `TextToPrint.IngredientLines` | backend/api/text_to_print.py:5-9 | one line per ingredient, numbered from 1 in input order, in the form `{k}. {Name} - {total} ({unit}).` |
| `TextToPrint.TextToPrintLines` | backend/api/text_to_print.py:12-19 | split on newlines, the output is timestamp, title, the ingredient lines, a blank line, `Рецепты:` and the recipe names: n + m + 4 lines, with no trailing newline |
| `TextToPrint.TextToPrintIngredientLines` | backend/api/text_to_print.py:5-19 | line k + 3 of the output is the ingredient line numbered k + 1 |
| `TextToPrint.TextToPrintEmpty` | backend/api/text_to_print.py:12-19 | no ingredients and no recipes give timestamp, title, a blank line and `Рецепты:` |
| `Validators.ValidateUsername` | backend/recipes/validators.py:6-12 | `validate_username`; see `ValidateUsernameRaisesIff`, `ValidateUsernameEmpty` and `ValidateUsernameReports` |
| `Validators.AllowedPrefixLength` | backend/recipes/validators.py:7 | the anchored alternative removes the longest prefix of allowed characters |
| `Validators.ValidateUsernameRaisesIff` | backend/recipes/validators.py:7-8 | the validator raises iff some character is outside `[\w.@+-]` |
| `Validators.ValidateUsernameEmpty` | backend/recipes/validators.py:7-8 | the empty username is accepted |
| `Validators.ValidateUsernameReports` | backend/recipes/validators.py:7-12 | the reported characters are the distinct characters from the first disallowed one to the end, and include that one |
| `Permissions.AdminOrReadOnly` | backend/api/permissions.py:4-11 | `AdminOrReadOnly.has_object_permission`; see the lemma rows below |
| `Permissions.AuthorOrReadOnly` | backend/api/permissions.py:14-20 | `AuthorOrReadOnly.has_object_permission`; see the lemma rows below |
| `Permissions.SafeMethodsAlwaysAllowed` | backend/api/permissions.py:4-20 | both rules allow GET, HEAD and OPTIONS to anybody on any object |
| `Permissions.AdminOrReadOnlyUnsafe` | backend/api/permissions.py:6-11 | any other method is allowed iff the user is a superuser or staff |
| `Permissions.AuthorOrReadOnlyUnsafe` | backend/api/permissions.py:16-20 | any other method is allowed iff the user is the object's author |
| `Permissions.AnonymousOnlyReads` | backend/api/permissions.py:4-20 | an anonymous request is allowed exactly the safe methods |
| `Filters.GetIsInShoppingCart` | backend/api/filters.py:29-32 | `get_is_in_shopping_cart`; see `RecipeFiltersSpec` and `CartFilterRepeatsDuplicatedEntry` |
| `Filters.GetIsFavorited` | backend/api/filters.py:34-37 | `get_is_favorited`; see `RecipeFiltersSpec` and `FavoritedListsEachOnce` |
| `Filters.ByUser` | backend/api/filters.py:29-37 | the join keeps only queryset recipes: for a member exactly those with a row of the member; for an anonymous user those with no row at all |
| `Filters.RecipeFiltersSpec` | backend/api/filters.py:29-37 | a false value returns the queryset unchanged; neither filter adds a recipe; a true value keeps exactly the recipes with a row of the user |
| `Filters.JoinedOnDistinctRows` | backend/api/filters.py:31 | on a duplicate-free table the join is the sub-list of the queryset with a row of the user, in order |
| `Filters.FavoritedListsEachOnce` | backend/api/filters.py:34-37 | `is_favorited=1` lists each favourite exactly once, in queryset order |
| `Filters.CartFilterRepeatsDuplicatedEntry` | backend/api/filters.py:29-32 | a cart holding the same recipe twice makes `is_in_shopping_cart=1` list it twice |
| `Filters.IngredientSearch` | backend/api/filters.py:7 | keeps exactly the ingredients whose name starts with the query, case folded |
| `Filters.IngredientSearchEmptyQuery` | backend/api/filters.py:7 | skipping an empty query gives the same result as filtering by it |

## Left out

- Image decoding. `base64.b64decode`, `ContentFile` and the parent `ImageField` validation are not modelled; only the header split is.
- `Serializers.ImageNoMarker`: Python raises ValueError for a failed unpacking. The model returns the number of pieces instead.
- `FileResponse`, pagination, HTTP routing and 405 answers are framework behaviour.
- The djoser user and token views, and the admin configuration, are framework behaviour.
- The management commands that load data do file I/O.
- `SubscribeUserSerializer.get_recipes` slices a queryset by a raw query-string value. It is ORM behaviour.
- `SubscriptionSerializer` is never used.
- `ShoppingCartSerializer` is never used either: no view imports it, and `shopping_cart` calls `get_or_create` directly (backend/api/views.py:104-109). `Serializers.ValidateShoppingCartSpec` describes code the API never calls.
- Concurrent requests are not modelled. Each view is one step on the tables. `ShoppingCart` declares no unique constraint, so two interleaved POSTs of the same pair can both find no row and both insert it. That leaves the pair stored twice, the state that `Models.ShoppingCartTotalIsSum` counts per entry and that makes `Views.GetOrCreate` answer ServerError.
- The tag `ModelMultipleChoiceFilter` and the `author` filter are supplied by django-filter.
- The request-level permission checks (`IsAuthenticated`, `IsAuthenticatedOrReadOnly`) are left out. The model's methods take a signed-in user's id, so the anonymous paths are not modelled:
  - `create`, `update`, `favorite`, `shopping_cart` and `download_shopping_cart` are refused with 401 by `IsAuthenticatedOrReadOnly` or `IsAuthenticated` (backend/api/views.py:89-92, 125) before the view runs.
  - `UserViewSet` has only `AdminOrReadOnly`, which defines no `has_permission` (backend/api/views.py:47), so an anonymous request reaches `subscribe`. A POST sends `'user': None` to `SubscribeModelSerializer`, and `is_valid` answers 400 (backend/api/views.py:66-71). A DELETE filters `Subscribe` by the anonymous user, which fails inside the ORM (backend/api/views.py:80-83).
- The `view` argument of `has_object_permission` is not a parameter, since neither rule reads it.
- `datetime.now()` is a timestamp parameter. `\w`, `str.capitalize` and Unicode case folding are function parameters.
- Database collation: names are compared by code point.
- `ATOMIC_REQUESTS` and transaction rollback are not modelled. `Serializers.Update` shows the non-atomic state a failed lookup leaves behind.
- The field-level checks that DRF derives from the model fields are not modelled beyond `CookingTimeValid`, which stands for the `cooking_time` field's minimum and its column range: required fields and the existence of tag ids are not. `Create` and `Update` require them as their callers guarantee.
- Database cascades on delete are not modelled.
- `Validators.ValidateUsername`: the error message lists the characters in an order that depends on Python's set iteration. The model reports the set.
- `Models.ShoppingCartSortedByName`: groups with equal names come in first-appearance order. The database leaves that order unspecified.
- `Serializers.InsertCheck`: assumes PostgreSQL, whose `integer` column holds at most 2147483647. There, an out-of-range amount is refused while the statement's values are converted (DataError) before any row's check constraint runs; `CookingTimeValid` takes the same maximum from the range Django gives the field on that backend. The source fixes no engine. On MySQL the column is `integer UNSIGNED`, up to 4294967295, and a negative value is itself refused as out of range. SQLite stores any 64-bit value and keeps only the check that the value is not negative.
- `Serializers.ValidateRecipeAmounts`: the corrected validation adds only the minimum of 1; an amount above 2147483647 still reaches the database and raises DataError, as `Serializers.InsertCheck` states.
- `Views.DownloadShoppingCart`: the recipe names are taken as a parameter. No view gathers them.

## Findings

| source | as written | input that shows it | evidently intended | confidence | as-written member | corrected member |
|---|---|---|---|---|---|---|
| backend/api/serializers.py:157-163 | `amount` is a plain IntegerField, so the model field's MinValueValidator is never applied and the database check admits 0 | ingredients `[{"id": 7, "amount": 0}]` with one tag | amounts below 1 rejected with "Количество продуктов не может быть нулевым" (backend/recipes/models.py:154-159) | high; not executed | `Serializers.ValidateRecipeAcceptsZeroAmount` | `Serializers.ValidateRecipeAmounts` |
| backend/api/views.py:125-132 | `sending` reads `ingredient['recipe__name']`, a key the aggregation's `.values()` does not select | any cart whose recipes have at least one ingredient | a rendered list, as `text_to_print` renders the selected keys | high; not executed | `Views.DownloadFailsOnNonEmptyCart` | `Views.DownloadShoppingCartLines` |
