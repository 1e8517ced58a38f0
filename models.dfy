/** The entities of the recipes application, the database holding them with the
    constraints it declares, and the shopping-cart query
    `RecipeIngredient.ingredients_shopping_cart`. */
module Models {
  import opened Collections
  import Text

  type UserId = int
  type RecipeId = int
  type IngredientId = int
  type TagId = int

  /** Lower bound of the MinValueValidator on `amount` and on `cooking_time`. */
  const MinValueValid: int := 1

  /** Largest value of a PositiveIntegerField column, assuming PostgreSQL, where the
      column is an `integer` (32-bit signed) with a check that it is not negative. */
  const IntegerColumnMax: int := 0x7fff_ffff

  datatype Ingredient = Ingredient(name: string, measurementUnit: string)

  datatype Recipe = Recipe(author: UserId, name: string, text: string, cookingTime: int, tags: set<TagId>)

  /** A row of the recipe-ingredient join table. */
  datatype RecipeIngredient = RecipeIngredient(recipe: RecipeId, ingredient: IngredientId, amount: int)

  /** A row of Favourite or of ShoppingCart; both tables have the columns of UserRecipeModel. */
  datatype UserRecipe = UserRecipe(user: UserId, recipe: RecipeId)

  /** A row of Subscribe: `user` follows `author`. */
  datatype Subscription = Subscription(user: UserId, author: UserId)

  /** The user of a request: Django's AnonymousUser or a signed-in account. */
  datatype RequestUser = Anonymous | Member(id: UserId, isStaff: bool, isSuperuser: bool)

  // ---------------------------------------------------------------------------
  // The shopping-cart aggregation
  // ---------------------------------------------------------------------------

  /** A recipe-ingredient row joined with its ingredient's name and unit. */
  datatype IngredientRow = IngredientRow(recipe: RecipeId, name: string, unit: string, amount: int)

  /** The group-by key `(ingredient__name, ingredient__measurement_unit)`. */
  datatype GroupKey = GroupKey(name: string, unit: string)

  /** A row of the query's result: the two key columns and `total`. */
  datatype IngredientTotal = IngredientTotal(name: string, unit: string, total: int)

  function KeyOf(r: IngredientRow): GroupKey {
    GroupKey(r.name, r.unit)
  }

  function GroupKeyOf(t: IngredientTotal): GroupKey {
    GroupKey(t.name, t.unit)
  }

  /** The number of cart entries (user, recipe); ShoppingCart has no unique constraint. */
  function EntryCount(cart: seq<UserRecipe>, user: UserId, recipe: RecipeId): nat {
    multiset(cart)[UserRecipe(user, recipe)]
  }

  /** `filter(recipe__shopping_carts__user=user)`: the join of the rows with the cart
      yields every row once per cart entry of `user` for the row's recipe. */
  function CartRows(rows: seq<IngredientRow>, cart: seq<UserRecipe>, user: UserId): (js: seq<IngredientRow>)
    ensures forall r :: r in js <==> r in rows && EntryCount(cart, user, r.recipe) > 0
  {
    if rows == [] then []
    else
      assert forall r :: r in rows <==> r == rows[0] || r in rows[1..];
      var n := EntryCount(cart, user, rows[0].recipe);
      Repeat(rows[0], n) + CartRows(rows[1..], cart, user)
  }

  /** `Sum('amount')` over the rows of `js` in group `k`. */
  function SumFor(js: seq<IngredientRow>, k: GroupKey): int {
    if js == [] then 0
    else (if KeyOf(js[0]) == k then js[0].amount else 0) + SumFor(js[1..], k)
  }

  /** The number of rows of `js` in group `k`. */
  function CountFor(js: seq<IngredientRow>, k: GroupKey): nat {
    if js == [] then 0
    else (if KeyOf(js[0]) == k then 1 else 0) + CountFor(js[1..], k)
  }

  /** Reference definition of a group's total: each stored row of the group weighted
      by the number of the user's cart entries for its recipe. */
  function WeightedTotal(rows: seq<IngredientRow>, cart: seq<UserRecipe>, user: UserId, k: GroupKey): int {
    if rows == [] then 0
    else
      (if KeyOf(rows[0]) == k then rows[0].amount * EntryCount(cart, user, rows[0].recipe) else 0)
      + WeightedTotal(rows[1..], cart, user, k)
  }

  /** The plain sum over the rows of group `k` whose recipe is in the user's cart. */
  function CartTotal(rows: seq<IngredientRow>, cart: seq<UserRecipe>, user: UserId, k: GroupKey): int {
    if rows == [] then 0
    else
      (if KeyOf(rows[0]) == k && UserRecipe(user, rows[0].recipe) in cart then rows[0].amount else 0)
      + CartTotal(rows[1..], cart, user, k)
  }

  /** The distinct group keys of `js`, in order of first appearance (the GROUP BY). */
  function GroupKeys(js: seq<IngredientRow>): (ks: seq<GroupKey>)
    ensures NoDuplicates(ks)
    ensures forall k :: k in ks <==> exists r :: r in js && KeyOf(r) == k
  {
    if js == [] then []
    else
      var init, last := js[..|js| - 1], js[|js| - 1];
      assert js == init + [last];
      assert forall r :: r in js <==> r in init || r == last;
      var ks := GroupKeys(init);
      if KeyOf(last) in ks then ks else ks + [KeyOf(last)]
  }

  predicate SortedByName(ks: seq<GroupKey>) {
    forall i, j :: 0 <= i < j < |ks| ==> Text.LexLe(ks[i].name, ks[j].name)
  }

  /** Places `k` before the first key whose name is not below its own. */
  function InsertByName(k: GroupKey, ks: seq<GroupKey>): (r: seq<GroupKey>)
    requires SortedByName(ks)
    ensures SortedByName(r)
    ensures multiset(r) == multiset(ks) + multiset{k}
  {
    if ks == [] || Text.LexLe(k.name, ks[0].name) then
      BelowAllSorted(k, ks);
      SortedCons(k, ks);
      [k] + ks
    else
      assert ks == [ks[0]] + ks[1..];
      var rest := InsertByName(k, ks[1..]);
      Text.LexLeTotal(k.name, ks[0].name);
      BelowAllInserted(ks[0], k, ks[1..], rest);
      SortedCons(ks[0], rest);
      [ks[0]] + rest
  }

  /** A key whose name is below every name of a sorted sequence can go in front. */
  lemma SortedCons(x: GroupKey, ks: seq<GroupKey>)
    requires SortedByName(ks)
    requires forall j :: 0 <= j < |ks| ==> Text.LexLe(x.name, ks[j].name)
    ensures SortedByName([x] + ks)
  {
    var r := [x] + ks;
    forall i, j | 0 <= i < j < |r| ensures Text.LexLe(r[i].name, r[j].name) {
      assert r[j] == ks[j - 1];
      if i > 0 {
        assert r[i] == ks[i - 1];
      }
    }
  }

  /** A name below the first name of a sorted sequence is below all its names. */
  lemma BelowAllSorted(x: GroupKey, ks: seq<GroupKey>)
    requires SortedByName(ks)
    requires ks == [] || Text.LexLe(x.name, ks[0].name)
    ensures forall j :: 0 <= j < |ks| ==> Text.LexLe(x.name, ks[j].name)
  {
    forall j | 0 < j < |ks| ensures Text.LexLe(x.name, ks[j].name) {
      Text.LexLeTransitive(x.name, ks[0].name, ks[j].name);
    }
  }

  /** A name below all names of `ks` and below `k` is below all names of any
      rearrangement of `ks` with `k` added. */
  lemma BelowAllInserted(x: GroupKey, k: GroupKey, ks: seq<GroupKey>, rest: seq<GroupKey>)
    requires SortedByName([x] + ks) && Text.LexLe(x.name, k.name)
    requires multiset(rest) == multiset(ks) + multiset{k}
    ensures forall j :: 0 <= j < |rest| ==> Text.LexLe(x.name, rest[j].name)
  {
    forall j | 0 <= j < |rest| ensures Text.LexLe(x.name, rest[j].name) {
      var y := rest[j];
      assert y in multiset(rest);
      if y != k {
        assert y in multiset(ks);
        assert y in ks;
        var m :| 0 <= m < |ks| && ks[m] == y;
        var xs := [x] + ks;
        assert xs[0] == x && xs[m + 1] == y;
        assert Text.LexLe(xs[0].name, xs[m + 1].name);
      }
    }
  }

  /** Insertion sort on the ingredient name (`order_by('ingredient__name')`). */
  function SortByName(ks: seq<GroupKey>): (r: seq<GroupKey>)
    ensures SortedByName(r)
    ensures multiset(r) == multiset(ks)
  {
    if ks == [] then []
    else
      assert ks == [ks[0]] + ks[1..];
      InsertByName(ks[0], SortByName(ks[1..]))
  }

  /** `ingredients_shopping_cart`: the cart's rows grouped by (name, unit), each group
      with the sum of its amounts, ordered by name. */
  function ShoppingCartTotals(rows: seq<IngredientRow>, cart: seq<UserRecipe>, user: UserId): seq<IngredientTotal> {
    var js := CartRows(rows, cart, user);
    var ks := SortByName(GroupKeys(js));
    seq(|ks|, i requires 0 <= i < |ks| => IngredientTotal(ks[i].name, ks[i].unit, SumFor(js, ks[i])))
  }

  lemma ShoppingCartTotalsShape(rows: seq<IngredientRow>, cart: seq<UserRecipe>, user: UserId)
    ensures var js := CartRows(rows, cart, user);
            var ks := SortByName(GroupKeys(js));
            var r := ShoppingCartTotals(rows, cart, user);
            |r| == |ks| && NoDuplicates(ks) &&
            (forall i :: 0 <= i < |r| ==> GroupKeyOf(r[i]) == ks[i] && r[i].total == SumFor(js, ks[i]))
  {
    var js := CartRows(rows, cart, user);
    DistinctPermutation(GroupKeys(js), SortByName(GroupKeys(js)));
  }

  /** No (name, unit) group appears twice in the result. */
  lemma ShoppingCartGroupsDistinct(rows: seq<IngredientRow>, cart: seq<UserRecipe>, user: UserId)
    ensures var r := ShoppingCartTotals(rows, cart, user);
            forall i, j :: 0 <= i < j < |r| ==> GroupKeyOf(r[i]) != GroupKeyOf(r[j])
  {
    ShoppingCartTotalsShape(rows, cart, user);
  }

  /** A group appears in the result exactly when some stored row of that group belongs
      to a recipe with a cart entry of the user. */
  lemma ShoppingCartGroupsCover(rows: seq<IngredientRow>, cart: seq<UserRecipe>, user: UserId, k: GroupKey)
    ensures var r := ShoppingCartTotals(rows, cart, user);
            (exists i :: 0 <= i < |r| && GroupKeyOf(r[i]) == k)
            <==> (exists row :: row in rows && KeyOf(row) == k && EntryCount(cart, user, row.recipe) > 0)
  {
    var js := CartRows(rows, cart, user);
    var ks := SortByName(GroupKeys(js));
    var r := ShoppingCartTotals(rows, cart, user);
    ShoppingCartTotalsShape(rows, cart, user);
    assert k in ks <==> k in GroupKeys(js) by {
      assert k in ks <==> k in multiset(ks);
      assert k in GroupKeys(js) <==> k in multiset(GroupKeys(js));
    }
    if k in ks {
      var i :| 0 <= i < |ks| && ks[i] == k;
      assert GroupKeyOf(r[i]) == k;
    }
  }

  lemma {:induction false} SumForAppend(a: seq<IngredientRow>, b: seq<IngredientRow>, k: GroupKey)
    ensures SumFor(a + b, k) == SumFor(a, k) + SumFor(b, k)
  {
    if a == [] {
      assert a + b == b;
    } else {
      assert (a + b)[1..] == a[1..] + b;
      SumForAppend(a[1..], b, k);
    }
  }

  lemma {:induction false} SumForRepeat(r: IngredientRow, n: nat, k: GroupKey)
    ensures SumFor(Repeat(r, n), k) == if KeyOf(r) == k then r.amount * n else 0
  {
    if n > 0 {
      SumForRepeat(r, n - 1, k);
    }
  }

  /** Summing the joined rows is the same as weighting each stored row by its cart
      entries: the join counts a row once per cart entry. */
  lemma {:induction false} CartRowsSum(rows: seq<IngredientRow>, cart: seq<UserRecipe>, user: UserId, k: GroupKey)
    ensures SumFor(CartRows(rows, cart, user), k) == WeightedTotal(rows, cart, user, k)
  {
    if rows != [] {
      var n := EntryCount(cart, user, rows[0].recipe);
      SumForAppend(Repeat(rows[0], n), CartRows(rows[1..], cart, user), k);
      SumForRepeat(rows[0], n, k);
      CartRowsSum(rows[1..], cart, user, k);
    }
  }

  /** Each group's total is the sum of the amounts of its rows, counted once per cart
      entry of the user for the row's recipe. */
  lemma ShoppingCartTotalIsSum(rows: seq<IngredientRow>, cart: seq<UserRecipe>, user: UserId)
    ensures var r := ShoppingCartTotals(rows, cart, user);
            forall i :: 0 <= i < |r| ==> r[i].total == WeightedTotal(rows, cart, user, GroupKeyOf(r[i]))
  {
    ShoppingCartTotalsShape(rows, cart, user);
    var r := ShoppingCartTotals(rows, cart, user);
    forall i | 0 <= i < |r| ensures r[i].total == WeightedTotal(rows, cart, user, GroupKeyOf(r[i])) {
      CartRowsSum(rows, cart, user, GroupKeyOf(r[i]));
    }
  }

  lemma {:induction false} WeightedIsCartTotal(rows: seq<IngredientRow>, cart: seq<UserRecipe>, user: UserId, k: GroupKey)
    requires NoDuplicates(cart)
    ensures WeightedTotal(rows, cart, user, k) == CartTotal(rows, cart, user, k)
  {
    if rows != [] {
      DistinctCountsAtMostOne(cart, UserRecipe(user, rows[0].recipe));
      WeightedIsCartTotal(rows[1..], cart, user, k);
    }
  }

  /** With at most one cart entry per (user, recipe), as the API keeps it, each group's
      total is the plain sum over the group's rows whose recipe is in the cart. */
  lemma ShoppingCartTotalWithUniqueCart(rows: seq<IngredientRow>, cart: seq<UserRecipe>, user: UserId)
    requires NoDuplicates(cart)
    ensures var r := ShoppingCartTotals(rows, cart, user);
            forall i :: 0 <= i < |r| ==> r[i].total == CartTotal(rows, cart, user, GroupKeyOf(r[i]))
  {
    ShoppingCartTotalIsSum(rows, cart, user);
    var r := ShoppingCartTotals(rows, cart, user);
    forall i | 0 <= i < |r| ensures r[i].total == CartTotal(rows, cart, user, GroupKeyOf(r[i])) {
      WeightedIsCartTotal(rows, cart, user, GroupKeyOf(r[i]));
    }
  }

  /** The result is ordered by ingredient name; groups with equal names may come in
      either order. */
  lemma ShoppingCartSortedByName(rows: seq<IngredientRow>, cart: seq<UserRecipe>, user: UserId)
    ensures var r := ShoppingCartTotals(rows, cart, user);
            forall i, j :: 0 <= i < j < |r| ==> Text.LexLe(r[i].name, r[j].name)
  {
    ShoppingCartTotalsShape(rows, cart, user);
  }

  /** A user without cart entries gets an empty result. */
  lemma ShoppingCartEmptyCart(rows: seq<IngredientRow>, cart: seq<UserRecipe>, user: UserId)
    requires forall e :: e in cart ==> e.user != user
    ensures ShoppingCartTotals(rows, cart, user) == []
  {
    CartRowsWithoutEntries(rows, cart, user);
  }

  lemma {:induction false} CartRowsWithoutEntries(rows: seq<IngredientRow>, cart: seq<UserRecipe>, user: UserId)
    requires forall e :: e in cart ==> e.user != user
    ensures CartRows(rows, cart, user) == []
  {
    if rows != [] {
      assert UserRecipe(user, rows[0].recipe) !in cart;
      CartRowsWithoutEntries(rows[1..], cart, user);
    }
  }

  /** A row whose recipe has no cart entry of the user contributes nothing: removing it
      from the table leaves the result as it is. */
  lemma ShoppingCartIgnoresOtherRecipes(rows: seq<IngredientRow>, cart: seq<UserRecipe>, user: UserId, i: nat)
    requires i < |rows|
    requires EntryCount(cart, user, rows[i].recipe) == 0
    ensures ShoppingCartTotals(rows[..i] + rows[i + 1..], cart, user) == ShoppingCartTotals(rows, cart, user)
  {
    CartRowsSkip(rows, cart, user, i);
    ShoppingCartTotalsOfCartRows(rows[..i] + rows[i + 1..], rows, cart, user);
  }

  lemma {:induction false} CartRowsSkip(rows: seq<IngredientRow>, cart: seq<UserRecipe>, user: UserId, i: nat)
    requires i < |rows|
    requires EntryCount(cart, user, rows[i].recipe) == 0
    ensures CartRows(rows[..i] + rows[i + 1..], cart, user) == CartRows(rows, cart, user)
  {
    var skipped := rows[..i] + rows[i + 1..];
    if i == 0 {
      assert skipped == rows[1..];
      assert Repeat(rows[0], 0) == [];
    } else {
      var tail := rows[1..];
      assert skipped == [rows[0]] + (tail[..i - 1] + tail[i..]);
      assert skipped[1..] == tail[..i - 1] + tail[i..];
      CartRowsSkip(tail, cart, user, i - 1);
    }
  }

  /** The result depends on the table only through the rows the join selects. */
  lemma ShoppingCartTotalsOfCartRows(a: seq<IngredientRow>, b: seq<IngredientRow>, cart: seq<UserRecipe>, user: UserId)
    requires CartRows(a, cart, user) == CartRows(b, cart, user)
    ensures ShoppingCartTotals(a, cart, user) == ShoppingCartTotals(b, cart, user)
  {
  }

  lemma {:induction false} SumForAtLeastCount(js: seq<IngredientRow>, k: GroupKey)
    requires forall r :: r in js ==> r.amount >= MinValueValid
    ensures SumFor(js, k) >= CountFor(js, k)
  {
    if js != [] {
      assert js[0] in js;
      SumForAtLeastCount(js[1..], k);
    }
  }

  lemma CountForGroupKey(js: seq<IngredientRow>, k: GroupKey)
    requires k in GroupKeys(js)
    ensures CountFor(js, k) >= 1
  {
    CountForPositive(js, k);
  }

  lemma {:induction false} CountForPositive(js: seq<IngredientRow>, k: GroupKey)
    requires exists r :: r in js && KeyOf(r) == k
    ensures CountFor(js, k) >= 1
  {
    if KeyOf(js[0]) != k {
      var r :| r in js && KeyOf(r) == k;
      assert r in js[1..];
      CountForPositive(js[1..], k);
    }
  }

  /** When every stored amount respects the validator's minimum 1, every total is at
      least the number of joined rows of its group, and so at least 1. */
  lemma ShoppingCartTotalsPositive(rows: seq<IngredientRow>, cart: seq<UserRecipe>, user: UserId)
    requires forall r :: r in rows ==> r.amount >= MinValueValid
    ensures var r := ShoppingCartTotals(rows, cart, user);
            var js := CartRows(rows, cart, user);
            forall i :: 0 <= i < |r| ==> r[i].total >= CountFor(js, GroupKeyOf(r[i])) >= 1
  {
    ShoppingCartTotalsShape(rows, cart, user);
    var r := ShoppingCartTotals(rows, cart, user);
    var js := CartRows(rows, cart, user);
    var ks := SortByName(GroupKeys(js));
    forall i | 0 <= i < |r| ensures r[i].total >= CountFor(js, GroupKeyOf(r[i])) >= 1 {
      assert ks[i] in multiset(GroupKeys(js)) by {
        assert ks[i] in multiset(ks);
      }
      CountForGroupKey(js, ks[i]);
      SumForAtLeastCount(js, ks[i]);
    }
  }

  // ---------------------------------------------------------------------------
  // The database
  // ---------------------------------------------------------------------------

  /** The rows of the recipe-ingredient table that reference a known ingredient, joined
      with that ingredient (the SQL inner join behind `ingredient__name`). */
  function JoinIngredients(ris: seq<RecipeIngredient>, ingredients: map<IngredientId, Ingredient>): (rows: seq<IngredientRow>)
    ensures forall r :: r in rows ==> exists x :: x in ris && x.recipe == r.recipe && x.amount == r.amount
  {
    if ris == [] then []
    else
      var x := ris[0];
      assert forall y :: y in ris[1..] ==> y in ris;
      var rest := JoinIngredients(ris[1..], ingredients);
      if x.ingredient in ingredients then
        [IngredientRow(x.recipe, ingredients[x.ingredient].name, ingredients[x.ingredient].measurementUnit, x.amount)] + rest
      else rest
  }

  /** Every row of `rows` has an amount between `lo` and `hi`. */
  predicate AmountsWithin(rows: seq<RecipeIngredient>, lo: int, hi: int) {
    forall r :: r in rows ==> lo <= r.amount <= hi
  }

  /** Every recipe of `recipes` has a cooking time between `lo` and `hi`. */
  predicate CookingTimesWithin(recipes: map<RecipeId, Recipe>, lo: int, hi: int) {
    forall id :: id in recipes ==> lo <= recipes[id].cookingTime <= hi
  }

  /** The tables of the application. Each table is the sequence of its rows. */
  class Database {
    var users: set<UserId>
    var recipes: map<RecipeId, Recipe>
    var ingredients: map<IngredientId, Ingredient>
    var recipeIngredients: seq<RecipeIngredient>
    var favourites: seq<UserRecipe>
    var shoppingCarts: seq<UserRecipe>
    var subscriptions: seq<Subscription>

    constructor (users: set<UserId>, ingredients: map<IngredientId, Ingredient>)
      ensures this.users == users && this.ingredients == ingredients
      ensures recipes == map[] && recipeIngredients == []
      ensures favourites == [] && shoppingCarts == [] && subscriptions == []
      ensures Constraints() && ValidatedValues()
    {
      this.users := users;
      this.ingredients := ingredients;
      recipes := map[];
      recipeIngredients := [];
      favourites := [];
      shoppingCarts := [];
      subscriptions := [];
    }

    /** The constraints the database enforces on every write: the unique constraints of
        Favourite and Subscribe, Subscribe's check that nobody follows themself, and the
        range 0 to IntegerColumnMax of the PositiveIntegerField columns. ShoppingCart
        declares none. */
    ghost predicate Constraints()
      reads this
    {
      && NoDuplicates(favourites)
      && NoDuplicates(subscriptions)
      && (forall s :: s in subscriptions ==> s.user != s.author)
      && AmountsWithin(recipeIngredients, 0, IntegerColumnMax)
      && CookingTimesWithin(recipes, 0, IntegerColumnMax)
    }

    /** The minimum 1 that the MinValueValidators declare for `amount` and
        `cooking_time`, below the column's maximum; Django checks field validators only
        when a serializer or form validates, never on a database write. */
    ghost predicate ValidatedValues()
      reads this
    {
      && AmountsWithin(recipeIngredients, MinValueValid, IntegerColumnMax)
      && CookingTimesWithin(recipes, MinValueValid, IntegerColumnMax)
    }

    /** What `ingredients_shopping_cart` returns for a request of `user`. */
    function IngredientsShoppingCart(user: UserId): (r: seq<IngredientTotal>)
      reads this
      ensures ValidatedValues() ==> forall i :: 0 <= i < |r| ==> r[i].total >= 1
    {
      var rows := JoinIngredients(recipeIngredients, ingredients);
      assert ValidatedValues() ==> forall r :: r in rows ==> r.amount >= MinValueValid;
      var r := ShoppingCartTotals(rows, shoppingCarts, user);
      assert ValidatedValues() ==> forall i :: 0 <= i < |r| ==> r[i].total >= 1 by {
        if ValidatedValues() {
          ShoppingCartTotalsPositive(rows, shoppingCarts, user);
        }
      }
      r
    }
  }
}
