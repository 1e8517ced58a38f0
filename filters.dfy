/** The bespoke filters of the API: `RecipeFilter.get_is_in_shopping_cart` and
    `get_is_favorited` over a list of recipe ids, and `IngredientSearchFilter.name`. */
module Filters {
  import opened Collections
  import opened Models

  /** No row of `rows` is about `recipe`. */
  predicate HasNoRows(rows: seq<UserRecipe>, recipe: RecipeId) {
    forall e :: e in rows ==> e.recipe != recipe
  }

  function WithoutRows(rows: seq<UserRecipe>): RecipeId -> bool {
    (recipe: RecipeId) => HasNoRows(rows, recipe)
  }

  function HasRowOf(rows: seq<UserRecipe>, user: UserId): RecipeId -> bool {
    (recipe: RecipeId) => UserRecipe(user, recipe) in rows
  }

  /** `queryset.filter(<relation>__user=request.user.id)`. For a signed-in user the join
      yields a recipe once per row of that user about it. For an anonymous user the id is
      None, which the ORM turns into an IS NULL test on a left join: it keeps the recipes
      that have no row at all. */
  function ByUser(queryset: seq<RecipeId>, rows: seq<UserRecipe>, user: RequestUser): (r: seq<RecipeId>)
    ensures forall x :: x in r ==> x in queryset
    ensures user.Member? ==> forall x :: x in r <==> x in queryset && UserRecipe(user.id, x) in rows
    ensures user.Anonymous? ==> forall x :: x in r <==> x in queryset && HasNoRows(rows, x)
  {
    match user
    case Anonymous => Filter(queryset, WithoutRows(rows))
    case Member(id, _, _) => Joined(queryset, rows, id)
  }

  /** The inner join of the queryset with the rows of `user`. */
  function Joined(queryset: seq<RecipeId>, rows: seq<UserRecipe>, user: UserId): (r: seq<RecipeId>)
    ensures forall x :: x in r <==> x in queryset && UserRecipe(user, x) in rows
  {
    if queryset == [] then []
    else
      assert queryset == [queryset[0]] + queryset[1..];
      Repeat(queryset[0], multiset(rows)[UserRecipe(user, queryset[0])]) + Joined(queryset[1..], rows, user)
  }

  /** `get_is_in_shopping_cart`: the queryset itself for a false value. */
  function GetIsInShoppingCart(queryset: seq<RecipeId>, carts: seq<UserRecipe>, user: RequestUser, value: bool): seq<RecipeId> {
    if value then ByUser(queryset, carts, user) else queryset
  }

  /** `get_is_favorited`: the same rule on the favourites. */
  function GetIsFavorited(queryset: seq<RecipeId>, favourites: seq<UserRecipe>, user: RequestUser, value: bool): seq<RecipeId> {
    if value then ByUser(queryset, favourites, user) else queryset
  }

  /** Both filters return the queryset unchanged for a false value, never add a recipe,
      and for a true value keep exactly the recipes the user has a row for. */
  lemma RecipeFiltersSpec(queryset: seq<RecipeId>, carts: seq<UserRecipe>, favourites: seq<UserRecipe>, user: RequestUser, value: bool)
    ensures !value ==> GetIsInShoppingCart(queryset, carts, user, value) == queryset
    ensures !value ==> GetIsFavorited(queryset, favourites, user, value) == queryset
    ensures forall x :: x in GetIsInShoppingCart(queryset, carts, user, value) ==> x in queryset
    ensures forall x :: x in GetIsFavorited(queryset, favourites, user, value) ==> x in queryset
    ensures value && user.Member? ==> forall x ::
              (x in GetIsInShoppingCart(queryset, carts, user, value) <==> x in queryset && UserRecipe(user.id, x) in carts)
    ensures value && user.Member? ==> forall x ::
              (x in GetIsFavorited(queryset, favourites, user, value) <==> x in queryset && UserRecipe(user.id, x) in favourites)
  {
  }

  /** With a table that never holds a row twice, the join is the sub-list of the queryset
      the user has a row for, in queryset order. */
  lemma {:induction false} JoinedOnDistinctRows(queryset: seq<RecipeId>, rows: seq<UserRecipe>, user: UserId)
    requires NoDuplicates(rows)
    ensures Joined(queryset, rows, user) == Filter(queryset, HasRowOf(rows, user))
  {
    if queryset != [] {
      var r := queryset[0];
      DistinctCountsAtMostOne(rows, UserRecipe(user, r));
      JoinedOnDistinctRows(queryset[1..], rows, user);
      assert Repeat(r, multiset(rows)[UserRecipe(user, r)]) == if UserRecipe(user, r) in rows then [r] else [];
    }
  }

  /** The unique constraint of Favourite makes `is_favorited=1` list each favourite once. */
  lemma FavoritedListsEachOnce(queryset: seq<RecipeId>, favourites: seq<UserRecipe>, user: UserId)
    requires NoDuplicates(queryset) && NoDuplicates(favourites)
    ensures var r := GetIsFavorited(queryset, favourites, Member(user, false, false), true);
            NoDuplicates(r) && r == Filter(queryset, HasRowOf(favourites, user))
  {
    JoinedOnDistinctRows(queryset, favourites, user);
    FilterKeepsDistinct(queryset, HasRowOf(favourites, user));
  }

  /** A cart holding the same recipe twice makes `is_in_shopping_cart=1` list it twice. */
  lemma CartFilterRepeatsDuplicatedEntry()
    ensures GetIsInShoppingCart([5], [UserRecipe(1, 5), UserRecipe(1, 5)], Member(1, false, false), true) == [5, 5]
  {
    var rows := [UserRecipe(1, 5), UserRecipe(1, 5)];
    assert multiset(rows)[UserRecipe(1, 5)] == 2;
    assert [5][1..] == [];
  }

  // ---------------------------------------------------------------------------
  // IngredientSearchFilter
  // ---------------------------------------------------------------------------

  /** `name__istartswith=query`, case folding each character with `fold`. */
  predicate StartsWithFolded(name: string, query: string, fold: char -> char) {
    |query| <= |name| && forall k :: 0 <= k < |query| ==> fold(name[k]) == fold(query[k])
  }

  function NameStartsWith(query: string, fold: char -> char): Ingredient -> bool {
    (i: Ingredient) => StartsWithFolded(i.name, query, fold)
  }

  /** The `name` filter. An empty query is skipped, as CharFilter skips empty values. */
  function IngredientSearch(ingredients: seq<Ingredient>, query: string, fold: char -> char): (r: seq<Ingredient>)
    ensures forall i :: i in r <==> i in ingredients && StartsWithFolded(i.name, query, fold)
  {
    if query == [] then ingredients
    else Filter(ingredients, NameStartsWith(query, fold))
  }

  /** Skipping an empty query gives what filtering by it would give: every name starts
      with the empty string. */
  lemma IngredientSearchEmptyQuery(ingredients: seq<Ingredient>, fold: char -> char)
    ensures IngredientSearch(ingredients, [], fold) == ingredients
    ensures Filter(ingredients, NameStartsWith([], fold)) == ingredients
  {
    FilterAll(ingredients, NameStartsWith([], fold));
  }
}
