/** The bespoke logic of the API serializers: the data-URL header split of
    Base64ImageField, the validation of subscriptions, cart entries and recipe
    payloads, the `is_*` membership fields, and the writes of RecipeCreateSerializer. */
module Serializers {
  import opened Wrappers
  import opened Collections
  import opened Models
  import Text

  // ---------------------------------------------------------------------------
  // Base64ImageField.to_internal_value
  // ---------------------------------------------------------------------------

  const DataImagePrefix: string := "data:image"
  const Base64Marker: string := ";base64,"
  /** The file name ContentFile receives is this prefix followed by the extension. */
  const TempFilePrefix: string := "temp."

  /** The value a client sends for an image field. */
  datatype ImageData = StringData(s: string) | OtherData

  /** What the field hands on to ImageField: the original value, or the file that
      `ContentFile` is built from (its name and the base64 text still to be decoded). */
  datatype ImageValue = PassedOn(data: ImageData) | ImageFile(name: string, encoded: string)

  /** Python's ValueError when `data.split(';base64,')` does not unpack into two names. */
  datatype UnpackError = UnpackError(pieces: nat)

  function ToInternalValue(data: ImageData): Result<ImageValue, UnpackError> {
    if data.StringData? && Text.StartsWith(data.s, DataImagePrefix) then
      var parts := Text.Split(data.s, Base64Marker);
      if |parts| != 2 then Failure(UnpackError(|parts|))
      else
        var pieces := Text.Split(parts[0], "/");
        Success(ImageFile(TempFilePrefix + pieces[|pieces| - 1], parts[1]))
    else Success(PassedOn(data))
  }

  /** `ext` is the text after the last '/' of `header`, or all of it without a '/'. */
  predicate AfterLastSlash(header: string, ext: string) {
    && '/' !in ext
    && |ext| <= |header|
    && header[|header| - |ext|..] == ext
    && (|ext| < |header| ==> header[|header| - |ext| - 1] == '/')
  }

  /** Anything that is not a string starting with "data:image" is handed on unchanged. */
  lemma ImagePassedOn(data: ImageData)
    requires !(data.StringData? && Text.StartsWith(data.s, DataImagePrefix))
    ensures ToInternalValue(data) == Success(PassedOn(data))
  {
  }

  /** The marker ";base64," cannot overlap itself: two occurrences are 8 apart at least. */
  lemma MarkerOccurrencesApart(s: string, i: nat, j: nat)
    requires Text.OccursAt(s, Base64Marker, i) && Text.OccursAt(s, Base64Marker, j) && i < j
    ensures i + |Base64Marker| <= j
  {
    assert s[j] == ';' by {
      assert s[j..j + |Base64Marker|][0] == s[j];
    }
    forall k | i < k < i + |Base64Marker| ensures s[k] != ';' {
      assert s[i..i + |Base64Marker|][k - i] == s[k];
    }
  }

  /** A string with a single ";base64," splits into the text before and after it. */
  lemma SplitAtOnlyMarker(s: string, i: nat)
    requires Text.OccursAt(s, Base64Marker, i)
    requires forall j :: j != i ==> !Text.OccursAt(s, Base64Marker, j)
    ensures Text.Split(s, Base64Marker) == [s[..i], s[i + |Base64Marker|..]]
  {
    var rest := s[i + |Base64Marker|..];
    Text.SplitAtFirst(s, Base64Marker, i);
    forall j | 0 <= j <= |rest| - |Base64Marker| ensures !Text.OccursAt(rest, Base64Marker, j) {
      assert rest[j..j + |Base64Marker|] == s[i + |Base64Marker| + j..i + |Base64Marker| + j + |Base64Marker|];
      assert !Text.OccursAt(s, Base64Marker, i + |Base64Marker| + j);
    }
    Text.SplitWithoutSeparator(rest, Base64Marker);
  }

  /** With exactly one ";base64," the header is split off: the file is named after the
      text that follows the header's last '/', and the rest is the base64 payload. */
  lemma ImageSingleMarker(s: string, i: nat)
    requires Text.StartsWith(s, DataImagePrefix)
    requires Text.OccursAt(s, Base64Marker, i)
    requires forall j :: j != i ==> !Text.OccursAt(s, Base64Marker, j)
    ensures var r := ToInternalValue(StringData(s));
            && r.Success? && r.value.ImageFile?
            && r.value.encoded == s[i + |Base64Marker|..]
            && Text.StartsWith(r.value.name, TempFilePrefix)
            && AfterLastSlash(s[..i], r.value.name[|TempFilePrefix|..])
  {
    SplitAtOnlyMarker(s, i);
    var header := s[..i];
    ExtensionAfterLastSlash(header);
    var pieces := Text.Split(header, "/");
    var ext := pieces[|pieces| - 1];
    assert ToInternalValue(StringData(s)) == Success(ImageFile(TempFilePrefix + ext, s[i + |Base64Marker|..]));
    assert (TempFilePrefix + ext)[|TempFilePrefix|..] == ext;
    assert (TempFilePrefix + ext)[..|TempFilePrefix|] == TempFilePrefix;
  }

  /** `format.split('/')[-1]` is the text after the header's last '/'. */
  lemma ExtensionAfterLastSlash(header: string)
    ensures var pieces := Text.Split(header, "/");
            AfterLastSlash(header, pieces[|pieces| - 1])
  {
    assert "/" == ['/'];
    Text.LastPieceAfterLastSeparator(header, '/');
  }

  /** A "data:image" string without ";base64," fails to unpack. */
  lemma ImageNoMarker(s: string)
    requires Text.StartsWith(s, DataImagePrefix)
    requires forall j :: 0 <= j <= |s| - |Base64Marker| ==> !Text.OccursAt(s, Base64Marker, j)
    ensures ToInternalValue(StringData(s)) == Failure(UnpackError(1))
  {
    Text.SplitWithoutSeparator(s, Base64Marker);
  }

  /** A "data:image" string with two or more ";base64," fails to unpack. */
  lemma ImageSeveralMarkers(s: string, i: nat, j: nat)
    requires Text.StartsWith(s, DataImagePrefix)
    requires Text.OccursAt(s, Base64Marker, i) && Text.OccursAt(s, Base64Marker, j) && i < j
    ensures ToInternalValue(StringData(s)).Failure?
  {
    MarkerOccurrencesApart(s, i, j);
    Text.SplitAtLeastThree(s, Base64Marker, i, j);
  }

  // ---------------------------------------------------------------------------
  // SubscribeModelSerializer and ShoppingCartSerializer
  // ---------------------------------------------------------------------------

  const MessageSubIssued: string := "Подписка уже оформлена"
  const MessageSubYourself: string := "Подписка на самого себя невозможна"
  const MessageRecipeInCart: string := "Этот рецепт уже есть в списке покупок!"

  /** The UniqueTogetherValidator on (user, author) runs before `validate`. */
  function ValidateSubscribe(subscriptions: seq<Subscription>, data: Subscription): Result<Subscription, string> {
    if data in subscriptions then Failure(MessageSubIssued)
    else if data.user == data.author then Failure(MessageSubYourself)
    else Success(data)
  }

  /** Validation accepts exactly a new pair of two different users and returns it
      unchanged; appending an accepted pair keeps the table's two constraints. */
  lemma ValidateSubscribeSpec(subscriptions: seq<Subscription>, data: Subscription)
    ensures ValidateSubscribe(subscriptions, data).Success?
            <==> data !in subscriptions && data.user != data.author
    ensures ValidateSubscribe(subscriptions, data).Success? ==> ValidateSubscribe(subscriptions, data).value == data
    ensures data in subscriptions ==> ValidateSubscribe(subscriptions, data) == Failure(MessageSubIssued)
    ensures ValidateSubscribe(subscriptions, data).Success?
            && NoDuplicates(subscriptions) && (forall s :: s in subscriptions ==> s.user != s.author)
            ==> var after := subscriptions + [data];
                NoDuplicates(after) && (forall s :: s in after ==> s.user != s.author)
  {
    if ValidateSubscribe(subscriptions, data).Success? && NoDuplicates(subscriptions) {
      var after := subscriptions + [data];
      forall i, j | 0 <= i < j < |after| ensures after[i] != after[j] {
        if j == |subscriptions| {
          assert after[i] == subscriptions[i];
        } else {
          assert after[i] == subscriptions[i] && after[j] == subscriptions[j];
        }
      }
    }
  }

  /** The UniqueTogetherValidator of ShoppingCartSerializer on (user, recipe). */
  function ValidateShoppingCart(carts: seq<UserRecipe>, data: UserRecipe): Result<UserRecipe, string> {
    if data in carts then Failure(MessageRecipeInCart) else Success(data)
  }

  lemma ValidateShoppingCartSpec(carts: seq<UserRecipe>, data: UserRecipe)
    ensures ValidateShoppingCart(carts, data).Success? <==> data !in carts
    ensures ValidateShoppingCart(carts, data).Success? ==> ValidateShoppingCart(carts, data).value == data
    ensures ValidateShoppingCart(carts, data).Failure? ==> ValidateShoppingCart(carts, data).error == MessageRecipeInCart
    ensures ValidateShoppingCart(carts, data).Success? && NoDuplicates(carts) ==> NoDuplicates(carts + [data])
  {
    if data !in carts && NoDuplicates(carts) {
      var after := carts + [data];
      forall i, j | 0 <= i < j < |after| ensures after[i] != after[j] {
        if j == |carts| {
          assert after[i] == carts[i];
        } else {
          assert after[i] == carts[i] && after[j] == carts[j];
        }
      }
    }
  }

  // ---------------------------------------------------------------------------
  // The is_subscribed, is_favorited and is_in_shopping_cart fields
  // ---------------------------------------------------------------------------

  /** UserSerializer.get_is_subscribed: does the viewer follow `author`? */
  function IsSubscribed(subscriptions: seq<Subscription>, viewer: RequestUser, author: UserId): bool {
    if viewer.Anonymous? then false
    else Subscription(viewer.id, author) in subscriptions
  }

  function IsFavorited(favourites: seq<UserRecipe>, viewer: RequestUser, recipe: RecipeId): bool {
    if viewer.Anonymous? then false
    else UserRecipe(viewer.id, recipe) in favourites
  }

  function IsInShoppingCart(carts: seq<UserRecipe>, viewer: RequestUser, recipe: RecipeId): bool {
    if viewer.Anonymous? then false
    else UserRecipe(viewer.id, recipe) in carts
  }

  /** All three fields are false for an anonymous viewer, and otherwise tell whether the
      viewer's pair is stored. */
  lemma MembershipFields(db: Database, viewer: RequestUser, author: UserId, recipe: RecipeId)
    ensures viewer.Anonymous? ==>
              !IsSubscribed(db.subscriptions, viewer, author) &&
              !IsFavorited(db.favourites, viewer, recipe) &&
              !IsInShoppingCart(db.shoppingCarts, viewer, recipe)
    ensures viewer.Member? ==>
              (IsSubscribed(db.subscriptions, viewer, author) <==>
                 exists i :: 0 <= i < |db.subscriptions| && db.subscriptions[i] == Subscription(viewer.id, author)) &&
              (IsFavorited(db.favourites, viewer, recipe) <==>
                 exists i :: 0 <= i < |db.favourites| && db.favourites[i] == UserRecipe(viewer.id, recipe)) &&
              (IsInShoppingCart(db.shoppingCarts, viewer, recipe) <==>
                 exists i :: 0 <= i < |db.shoppingCarts| && db.shoppingCarts[i] == UserRecipe(viewer.id, recipe))
  {
  }

  // ---------------------------------------------------------------------------
  // RecipeCreateSerializer.validate
  // ---------------------------------------------------------------------------

  const MessageMinTags: string := "Минимальное число тегов: 1"
  const MessageMinIngredients: string := "Минимальное число ингредиентов: 1"
  const MessageRepeatedIngredient: string := "Нельзя добавлять один и тот же ингредиент!"
  /** The message of the MinValueValidator on RecipeIngredient.amount. */
  const MessageZeroAmount: string := "Количество продуктов не может быть нулевым"

  /** One submitted ingredient: `{"id": ..., "amount": ...}`. */
  datatype IngredientItem = IngredientItem(id: IngredientId, amount: int)

  /** The validated fields of a recipe payload; a field the request leaves out (a
      partial update) is None. */
  datatype RecipePayload = RecipePayload(
    tags: Option<seq<TagId>>,
    ingredients: Option<seq<IngredientItem>>,
    name: Option<string>,
    text: Option<string>,
    cookingTime: Option<int>)

  function IngredientIds(items: seq<IngredientItem>): (ids: seq<IngredientId>)
    ensures |ids| == |items| && forall i :: 0 <= i < |items| ==> ids[i] == items[i].id
  {
    seq(|items|, i requires 0 <= i < |items| => items[i].id)
  }

  /** `validate`: tags first, then ingredients, then repeated ingredient ids, detected
      by comparing the list's length with the size of its set. */
  function ValidateRecipe(p: RecipePayload): Result<RecipePayload, string> {
    if p.tags.None? || p.tags.value == [] then Failure(MessageMinTags)
    else if p.ingredients.None? || p.ingredients.value == [] then Failure(MessageMinIngredients)
    else
      var ids := IngredientIds(p.ingredients.value);
      if |ids| != |ToSet(ids)| then Failure(MessageRepeatedIngredient)
      else Success(p)
  }

  /** Missing or empty tags are rejected whatever the ingredients are. */
  lemma ValidateRecipeTagsFirst(p: RecipePayload)
    requires p.tags.None? || p.tags.value == []
    ensures ValidateRecipe(p) == Failure(MessageMinTags)
  {
  }

  /** With tags present, missing or empty ingredients are rejected. */
  lemma ValidateRecipeNeedsIngredients(p: RecipePayload)
    requires p.tags.Some? && p.tags.value != []
    requires p.ingredients.None? || p.ingredients.value == []
    ensures ValidateRecipe(p) == Failure(MessageMinIngredients)
  {
  }

  /** With tags and ingredients present, a payload is rejected exactly when two items
      name the same ingredient, and is otherwise returned unchanged. */
  lemma ValidateRecipeRepeatedIds(p: RecipePayload)
    requires p.tags.Some? && p.tags.value != []
    requires p.ingredients.Some? && p.ingredients.value != []
    ensures var items := p.ingredients.value;
            ValidateRecipe(p) == if exists i, j :: 0 <= i < j < |items| && items[i].id == items[j].id
                                 then Failure(MessageRepeatedIngredient)
                                 else Success(p)
  {
    var items := p.ingredients.value;
    var ids := IngredientIds(items);
    DistinctIffSameCardinality(ids);
    assert NoDuplicates(ids) <==> !exists i, j :: 0 <= i < j < |items| && items[i].id == items[j].id;
  }

  /** The serializer's `amount` is a plain IntegerField, so validation accepts an amount
      of 0 (the database's non-negativity check then lets it be stored). */
  lemma ValidateRecipeAcceptsZeroAmount()
    ensures var p := RecipePayload(Some([1]), Some([IngredientItem(7, 0)]), None, None, None);
            ValidateRecipe(p) == Success(p)
  {
    var p := RecipePayload(Some([1]), Some([IngredientItem(7, 0)]), None, None, None);
    ValidateRecipeRepeatedIds(p);
  }

  /** `validate` with the check the amount validator declares: every amount at least 1. */
  function ValidateRecipeAmounts(p: RecipePayload): (r: Result<RecipePayload, string>)
    ensures r.Success? ==> r == ValidateRecipe(p) && p.ingredients.Some?
    ensures r.Success? ==> ItemsAtLeast(p.ingredients.value, MinValueValid)
    ensures ValidateRecipe(p).Failure? ==> r == ValidateRecipe(p)
    ensures ValidateRecipe(p).Success? ==>
              r == if ItemsAtLeast(p.ingredients.value, MinValueValid) then Success(p) else Failure(MessageZeroAmount)
  {
    match ValidateRecipe(p)
    case Failure(e) => Failure(e)
    case Success(q) =>
      if exists i :: 0 <= i < |q.ingredients.value| && q.ingredients.value[i].amount < MinValueValid
      then Failure(MessageZeroAmount)
      else Success(q)
  }

  lemma ValidateRecipeAmountsRejectsZero()
    ensures ValidateRecipeAmounts(RecipePayload(Some([1]), Some([IngredientItem(7, 0)]), None, None, None))
            == Failure(MessageZeroAmount)
  {
    ValidateRecipeAcceptsZeroAmount();
  }

  /** The field-level check that the `cooking_time` serializer field takes over from the
      model field's validators: the MinValueValidator and the column's range. */
  predicate CookingTimeValid(p: RecipePayload) {
    p.cookingTime.None? || MinValueValid <= p.cookingTime.value <= IntegerColumnMax
  }

  // ---------------------------------------------------------------------------
  // RecipeCreateSerializer.add_ingredients, create and update
  // ---------------------------------------------------------------------------

  /** Why a write of the serializer raised: `Ingredient.objects.get` found no ingredient
      with a submitted id, the database refused an amount above the column's range
      (DataError, "integer out of range"), or its check refused a negative amount. */
  datatype SaveError = IngredientDoesNotExist | DataError | IntegrityError

  /** The rows `add_ingredients` creates: one per submitted item, in order. */
  function NewRows(items: seq<IngredientItem>, recipe: RecipeId): (rows: seq<RecipeIngredient>)
    ensures |rows| == |items|
    ensures forall i :: 0 <= i < |items| ==> rows[i] == RecipeIngredient(recipe, items[i].id, items[i].amount)
  {
    seq(|items|, i requires 0 <= i < |items| => RecipeIngredient(recipe, items[i].id, items[i].amount))
  }

  predicate AllKnown(ingredients: map<IngredientId, Ingredient>, items: seq<IngredientItem>) {
    forall i :: 0 <= i < |items| ==> items[i].id in ingredients
  }

  /** Every submitted amount is at least `n`. */
  predicate ItemsAtLeast(items: seq<IngredientItem>, n: int) {
    forall i :: 0 <= i < |items| ==> items[i].amount >= n
  }

  /** Every submitted amount is at most `n`. */
  predicate ItemsAtMost(items: seq<IngredientItem>, n: int) {
    forall i :: 0 <= i < |items| ==> items[i].amount <= n
  }

  /** Every submitted amount fits the PositiveIntegerField column. */
  predicate ItemsFitColumn(items: seq<IngredientItem>) {
    ItemsAtLeast(items, 0) && ItemsAtMost(items, IntegerColumnMax)
  }

  /** The list comprehension of `add_ingredients`: looks each id up in order and stops
      at the first unknown one. */
  method BuildRows(ingredients: map<IngredientId, Ingredient>, items: seq<IngredientItem>, recipe: RecipeId)
    returns (r: Result<seq<RecipeIngredient>, SaveError>)
    ensures r.Success? <==> AllKnown(ingredients, items)
    ensures r.Success? ==> r.value == NewRows(items, recipe)
    ensures r.Failure? ==> r.error == IngredientDoesNotExist
  {
    var built: seq<RecipeIngredient> := [];
    var i := 0;
    while i < |items|
      invariant 0 <= i <= |items|
      invariant forall k :: 0 <= k < i ==> items[k].id in ingredients
      invariant |built| == i
      invariant forall k :: 0 <= k < i ==> built[k] == RecipeIngredient(recipe, items[k].id, items[k].amount)
    {
      if items[i].id !in ingredients {
        return Failure(IngredientDoesNotExist);
      }
      built := built + [RecipeIngredient(recipe, items[i].id, items[i].amount)];
      i := i + 1;
    }
    return Success(built);
  }

  /** What the database answers to the bulk insert of `items`. The statement's values
      are converted to the column type before any row is checked, so an amount out of
      the column's range raises before a negative one. */
  function InsertCheck(items: seq<IngredientItem>): (r: Outcome<SaveError>)
    ensures r.Pass? <==> ItemsFitColumn(items)
    ensures r == Fail(DataError) <==> !ItemsAtMost(items, IntegerColumnMax)
    ensures r == Fail(IntegrityError) <==> ItemsAtMost(items, IntegerColumnMax) && !ItemsAtLeast(items, 0)
  {
    if exists k :: 0 <= k < |items| && items[k].amount > IntegerColumnMax then Fail(DataError)
    else if exists k :: 0 <= k < |items| && items[k].amount < 0 then Fail(IntegrityError)
    else Pass
  }

  /** `add_ingredients`: builds the rows and bulk-creates them in one statement. */
  method AddIngredients(db: Database, items: seq<IngredientItem>, recipe: RecipeId) returns (r: Outcome<SaveError>)
    modifies db`recipeIngredients
    ensures r == if AllKnown(db.ingredients, items) then InsertCheck(items) else Fail(IngredientDoesNotExist)
    ensures r.Pass? <==> AllKnown(db.ingredients, items) && ItemsFitColumn(items)
    ensures r.Pass? ==> db.recipeIngredients == old(db.recipeIngredients) + NewRows(items, recipe)
    ensures r.Fail? ==> db.recipeIngredients == old(db.recipeIngredients)
    ensures old(db.Constraints()) ==> db.Constraints()
    ensures old(db.ValidatedValues()) && ItemsAtLeast(items, MinValueValid) ==> db.ValidatedValues()
  {
    var built := BuildRows(db.ingredients, items, recipe);
    match built
    case Failure(e) =>
      r := Fail(e);
    case Success(rows) =>
      r := InsertCheck(items);
      if r.Pass? {
        db.recipeIngredients := db.recipeIngredients + rows;
        if old(db.Constraints()) {
          NewRowsAmounts(items, recipe, 0, IntegerColumnMax);
          AmountsAppend(old(db.recipeIngredients), rows, 0, IntegerColumnMax);
        }
        if old(db.ValidatedValues()) && ItemsAtLeast(items, MinValueValid) {
          NewRowsAmounts(items, recipe, MinValueValid, IntegerColumnMax);
          AmountsAppend(old(db.recipeIngredients), rows, MinValueValid, IntegerColumnMax);
        }
      }
  }

  function IsOtherRecipe(id: RecipeId): RecipeIngredient -> bool {
    (x: RecipeIngredient) => x.recipe != id
  }

  function IsRecipe(id: RecipeId): RecipeIngredient -> bool {
    (x: RecipeIngredient) => x.recipe == id
  }

  /** The recipe-ingredient table after `update` replaced the rows of recipe `id`. */
  function ReplaceRows(rows: seq<RecipeIngredient>, id: RecipeId, added: seq<RecipeIngredient>): seq<RecipeIngredient> {
    Filter(rows, IsOtherRecipe(id)) + added
  }

  /** After the replacement the recipe owns exactly the new rows, and the rows of every
      other recipe are those it had, in their order. */
  lemma ReplaceRowsSpec(rows: seq<RecipeIngredient>, id: RecipeId, added: seq<RecipeIngredient>)
    requires forall k :: 0 <= k < |added| ==> added[k].recipe == id
    ensures Filter(ReplaceRows(rows, id, added), IsRecipe(id)) == added
    ensures Filter(ReplaceRows(rows, id, added), IsOtherRecipe(id)) == Filter(rows, IsOtherRecipe(id))
  {
    ReplacedRowsOfRecipe(rows, id, added);
    ReplacedRowsOfOthers(rows, id, added);
  }

  lemma ReplacedRowsOfRecipe(rows: seq<RecipeIngredient>, id: RecipeId, added: seq<RecipeIngredient>)
    requires forall k :: 0 <= k < |added| ==> added[k].recipe == id
    ensures Filter(ReplaceRows(rows, id, added), IsRecipe(id)) == added
  {
    var kept := Filter(rows, IsOtherRecipe(id));
    FilterAppend(kept, added, IsRecipe(id));
    FilterNone(kept, IsRecipe(id));
    FilterAll(added, IsRecipe(id));
  }

  lemma ReplacedRowsOfOthers(rows: seq<RecipeIngredient>, id: RecipeId, added: seq<RecipeIngredient>)
    requires forall k :: 0 <= k < |added| ==> added[k].recipe == id
    ensures Filter(ReplaceRows(rows, id, added), IsOtherRecipe(id)) == Filter(rows, IsOtherRecipe(id))
  {
    var kept := Filter(rows, IsOtherRecipe(id));
    FilterAppend(kept, added, IsOtherRecipe(id));
    FilterAll(kept, IsOtherRecipe(id));
    FilterNone(added, IsOtherRecipe(id));
  }

  /** The recipe after `super().update`: the submitted fields replace the stored ones. */
  function Updated(r: Recipe, p: RecipePayload): Recipe
    requires p.tags.Some?
  {
    Recipe(
      r.author,
      if p.name.Some? then p.name.value else r.name,
      if p.text.Some? then p.text.value else r.text,
      if p.cookingTime.Some? then p.cookingTime.value else r.cookingTime,
      ToSet(p.tags.value))
  }

  /** The bounds on amounts and cooking times the writes below keep. */
  lemma AmountsAppend(a: seq<RecipeIngredient>, b: seq<RecipeIngredient>, lo: int, hi: int)
    requires AmountsWithin(a, lo, hi) && AmountsWithin(b, lo, hi)
    ensures AmountsWithin(a + b, lo, hi)
  {
  }

  lemma NewRowsAmounts(items: seq<IngredientItem>, recipe: RecipeId, lo: int, hi: int)
    requires ItemsAtLeast(items, lo) && ItemsAtMost(items, hi)
    ensures AmountsWithin(NewRows(items, recipe), lo, hi)
  {
  }

  lemma FilterAmounts(rows: seq<RecipeIngredient>, p: RecipeIngredient -> bool, lo: int, hi: int)
    requires AmountsWithin(rows, lo, hi)
    ensures AmountsWithin(Filter(rows, p), lo, hi)
  {
  }

  lemma CookingTimesStore(recipes: map<RecipeId, Recipe>, id: RecipeId, r: Recipe, lo: int, hi: int)
    requires CookingTimesWithin(recipes, lo, hi) && lo <= r.cookingTime <= hi
    ensures CookingTimesWithin(recipes[id := r], lo, hi)
  {
  }

  /** `create`: inserts the recipe under the key `id` the database assigns, sets its tags,
      then adds its ingredient rows. A failed lookup leaves the recipe without rows. */
  method Create(db: Database, author: UserId, id: RecipeId, p: RecipePayload) returns (r: Outcome<SaveError>)
    requires id !in db.recipes
    requires p.tags.Some? && p.ingredients.Some? && CookingTimeValid(p)
    requires p.name.Some? && p.text.Some? && p.cookingTime.Some?
    modifies db`recipes, db`recipeIngredients
    ensures db.recipes == old(db.recipes)[id := Recipe(author, p.name.value, p.text.value, p.cookingTime.value, ToSet(p.tags.value))]
    ensures r == if AllKnown(db.ingredients, p.ingredients.value) then InsertCheck(p.ingredients.value)
                 else Fail(IngredientDoesNotExist)
    ensures r.Pass? <==> AllKnown(db.ingredients, p.ingredients.value) && ItemsFitColumn(p.ingredients.value)
    ensures r.Pass? ==> db.recipeIngredients == old(db.recipeIngredients) + NewRows(p.ingredients.value, id)
    ensures r.Fail? ==> db.recipeIngredients == old(db.recipeIngredients)
    ensures old(db.Constraints()) ==> db.Constraints()
    ensures old(db.ValidatedValues()) && ItemsAtLeast(p.ingredients.value, MinValueValid) ==> db.ValidatedValues()
  {
    // `Recipe.objects.create` followed by `recipe.tags.set`
    var stored := Recipe(author, p.name.value, p.text.value, p.cookingTime.value, ToSet(p.tags.value));
    db.recipes := db.recipes[id := stored];
    r := AddIngredients(db, p.ingredients.value, id);
    if old(db.Constraints()) {
      CookingTimesStore(old(db.recipes), id, stored, 0, IntegerColumnMax);
    }
    if old(db.ValidatedValues()) {
      CookingTimesStore(old(db.recipes), id, stored, MinValueValid, IntegerColumnMax);
    }
  }

  /** The first two statements of `update`: `instance.tags.clear()` and the deletion of
      the recipe's ingredient rows. */
  method ClearRecipe(db: Database, id: RecipeId)
    requires id in db.recipes
    modifies db`recipes, db`recipeIngredients
    ensures db.recipes == old(db.recipes)[id := old(db.recipes)[id].(tags := {})]
    ensures db.recipeIngredients == Filter(old(db.recipeIngredients), IsOtherRecipe(id))
    ensures old(db.Constraints()) ==> db.Constraints()
    ensures old(db.ValidatedValues()) ==> db.ValidatedValues()
  {
    db.recipes := db.recipes[id := db.recipes[id].(tags := {})];
    db.recipeIngredients := Filter(db.recipeIngredients, IsOtherRecipe(id));
    if old(db.Constraints()) {
      FilterAmounts(old(db.recipeIngredients), IsOtherRecipe(id), 0, IntegerColumnMax);
      CookingTimesStore(old(db.recipes), id, db.recipes[id], 0, IntegerColumnMax);
    }
    if old(db.ValidatedValues()) {
      FilterAmounts(old(db.recipeIngredients), IsOtherRecipe(id), MinValueValid, IntegerColumnMax);
      CookingTimesStore(old(db.recipes), id, db.recipes[id], MinValueValid, IntegerColumnMax);
    }
  }

  /** The last two statements of `update`: `instance.tags.set(tags)` and
      `super().update`, which write the submitted fields over `stored`. */
  method StoreUpdated(db: Database, id: RecipeId, stored: Recipe, p: RecipePayload)
    requires id in db.recipes && db.recipes[id].cookingTime == stored.cookingTime
    requires p.tags.Some? && CookingTimeValid(p)
    modifies db`recipes
    ensures db.recipes == old(db.recipes)[id := Updated(stored, p)]
    ensures old(db.Constraints()) ==> db.Constraints()
    ensures old(db.ValidatedValues()) ==> db.ValidatedValues()
  {
    var updated := Updated(stored, p);
    db.recipes := db.recipes[id := updated];
    if old(db.Constraints()) {
      CookingTimesStore(old(db.recipes), id, updated, 0, IntegerColumnMax);
    }
    if old(db.ValidatedValues()) {
      CookingTimesStore(old(db.recipes), id, updated, MinValueValid, IntegerColumnMax);
    }
  }

  /** `update`: clears the tags, deletes the recipe's rows, adds the submitted rows, sets
      the tags and the other submitted fields. The steps are not atomic: when a lookup
      fails the recipe is left without tags and without rows. */
  method Update(db: Database, id: RecipeId, p: RecipePayload) returns (r: Outcome<SaveError>)
    requires id in db.recipes
    requires p.tags.Some? && p.ingredients.Some? && CookingTimeValid(p)
    modifies db`recipes, db`recipeIngredients
    ensures r == if AllKnown(db.ingredients, p.ingredients.value) then InsertCheck(p.ingredients.value)
                 else Fail(IngredientDoesNotExist)
    ensures r.Pass? <==> AllKnown(db.ingredients, p.ingredients.value) && ItemsFitColumn(p.ingredients.value)
    ensures r.Pass? ==> db.recipes == old(db.recipes)[id := Updated(old(db.recipes)[id], p)]
    ensures r.Pass? ==> db.recipeIngredients == ReplaceRows(old(db.recipeIngredients), id, NewRows(p.ingredients.value, id))
    ensures r.Fail? ==> db.recipes == old(db.recipes)[id := old(db.recipes)[id].(tags := {})]
    ensures r.Fail? ==> db.recipeIngredients == Filter(old(db.recipeIngredients), IsOtherRecipe(id))
    ensures old(db.Constraints()) ==> db.Constraints()
    ensures old(db.ValidatedValues()) && ItemsAtLeast(p.ingredients.value, MinValueValid) ==> db.ValidatedValues()
  {
    var stored := db.recipes[id];
    ClearRecipe(db, id);
    r := AddThenStore(db, id, stored, p);
    StoreOverwrites(old(db.recipes), id, stored.(tags := {}), Updated(stored, p));
  }

  /** Storing twice under the same key keeps the second value only. */
  lemma StoreOverwrites<K, V>(m: map<K, V>, k: K, first: V, second: V)
    ensures m[k := first][k := second] == m[k := second]
  {
  }

  /** The part of `update` after the clearing: adds the submitted rows and, when that
      succeeds, stores the tags and fields. */
  method AddThenStore(db: Database, id: RecipeId, stored: Recipe, p: RecipePayload) returns (r: Outcome<SaveError>)
    requires id in db.recipes && db.recipes[id].cookingTime == stored.cookingTime
    requires p.tags.Some? && p.ingredients.Some? && CookingTimeValid(p)
    modifies db`recipes, db`recipeIngredients
    ensures r == if AllKnown(db.ingredients, p.ingredients.value) then InsertCheck(p.ingredients.value)
                 else Fail(IngredientDoesNotExist)
    ensures r.Pass? <==> AllKnown(db.ingredients, p.ingredients.value) && ItemsFitColumn(p.ingredients.value)
    ensures r.Pass? ==> db.recipes == old(db.recipes)[id := Updated(stored, p)]
    ensures r.Pass? ==> db.recipeIngredients == old(db.recipeIngredients) + NewRows(p.ingredients.value, id)
    ensures r.Fail? ==> db.recipes == old(db.recipes) && db.recipeIngredients == old(db.recipeIngredients)
    ensures old(db.Constraints()) ==> db.Constraints()
    ensures old(db.ValidatedValues()) && ItemsAtLeast(p.ingredients.value, MinValueValid) ==> db.ValidatedValues()
  {
    r := AddIngredients(db, p.ingredients.value, id);
    if r.Pass? {
      StoreUpdated(db, id, stored, p);
    }
  }
}
