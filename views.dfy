/** The state-changing actions of the API views: adding and removing favourites and
    shopping-cart entries (`RecipeViewSet.shopping_cart_favorite`) and subscribing
    (`UserViewSet.subscribe`), over the tables of `Models.Database`. */
module Views {
  import opened Wrappers
  import opened Collections
  import opened Models
  import Serializers
  import SendFile
  import TextToPrint
  import Text

  datatype HttpMethod = Post | Delete

  /** The response of an action. `ServerError` is the unhandled
      `MultipleObjectsReturned` of `get_or_create` or `get_object_or_404`. */
  datatype Status = Created | NoContent | NotFound | BadRequest(message: string) | ServerError

  /** Which table `shopping_cart_favorite` is run on. */
  datatype Relation = FavouriteRelation | ShoppingCartRelation

  /** A response together with the table it leaves behind. */
  datatype Step<T> = Step(status: Status, rows: seq<T>)

  /** `Model.objects.get_or_create(...)`: inserts the row when it is absent, finds it when
      there is one, and raises when the table holds it twice. */
  function GetOrCreate<T(==)>(rows: seq<T>, e: T): (r: Step<T>)
    ensures r.status == Created || r.status == ServerError
    ensures r.status == Created <==> multiset(rows)[e] <= 1
    ensures r.status == Created ==> e in r.rows
    ensures multiset(r.rows) == if e in rows then multiset(rows) else multiset(rows) + multiset{e}
  {
    var c := multiset(rows)[e];
    if c == 0 then Step(Created, rows + [e])
    else if c == 1 then Step(Created, rows)
    else Step(ServerError, rows)
  }

  /** `get_object_or_404(Model, ...).delete()`: 404 when the row is absent, the row removed
      when there is one, and a raise when the table holds it twice. */
  function DeleteOr404<T(==,!new)>(rows: seq<T>, e: T): (r: Step<T>)
    ensures r.status == NotFound <==> e !in rows
    ensures r.status == NoContent <==> multiset(rows)[e] == 1
    ensures r.status != NoContent ==> r.rows == rows
    ensures r.status == NoContent ==> multiset(r.rows) == multiset(rows) - multiset{e}
  {
    var c := multiset(rows)[e];
    if c == 0 then Step(NotFound, rows)
    else if c == 1 then
      var rest := Without(rows, e);
      assert multiset(rest) == multiset(rows) - multiset{e} by {
        forall y ensures multiset(rest)[y] == (multiset(rows) - multiset{e})[y] {
        }
      }
      Step(NoContent, rest)
    else Step(ServerError, rows)
  }

  lemma {:induction false} WithoutAbsent<T(!new)>(s: seq<T>, x: T)
    requires x !in s
    ensures Without(s, x) == s
  {
    if s != [] {
      WithoutAbsent(s[1..], x);
      assert s == [s[0]] + s[1..];
    }
  }

  lemma {:induction false} WithoutAppend<T(!new)>(s: seq<T>, x: T)
    ensures Without(s + [x], x) == Without(s, x)
  {
    if s == [] {
      assert [x][1..] == [];
    } else {
      assert (s + [x])[1..] == s[1..] + [x];
      WithoutAppend(s[1..], x);
    }
  }

  lemma {:induction false} WithoutKeepsDistinct<T(!new)>(s: seq<T>, x: T)
    requires NoDuplicates(s)
    ensures NoDuplicates(Without(s, x))
  {
    if s != [] {
      var tail := s[1..];
      assert NoDuplicates(tail) by {
        forall i, j | 0 <= i < j < |tail| ensures tail[i] != tail[j] {
          assert tail[i] == s[i + 1] && tail[j] == s[j + 1];
        }
      }
      WithoutKeepsDistinct(tail, x);
      var rest := Without(tail, x);
      if s[0] != x {
        assert s[0] !in tail;
        assert multiset(rest)[s[0]] == multiset(tail)[s[0]] == 0;
        var r := [s[0]] + rest;
        forall i, j | 0 <= i < j < |r| ensures r[i] != r[j] {
          if i > 0 {
            assert r[i] == rest[i - 1] && r[j] == rest[j - 1];
          } else {
            assert r[j] in rest;
          }
        }
      }
    }
  }

  /** In a table that never holds a row twice, POST always answers 201 and leaves the
      row stored exactly once. */
  lemma CreateOnDistinctTable<T(!new)>(rows: seq<T>, e: T)
    requires NoDuplicates(rows)
    ensures var r := GetOrCreate(rows, e);
            r.status == Created && NoDuplicates(r.rows) && multiset(r.rows)[e] == 1
            && (e in rows ==> r.rows == rows)
            && (e !in rows ==> r.rows == rows + [e])
  {
    DistinctCountsAtMostOne(rows, e);
    if e !in rows {
      var after := rows + [e];
      forall i, j | 0 <= i < j < |after| ensures after[i] != after[j] {
        assert after[i] == rows[i];
        if j < |rows| {
          assert after[j] == rows[j];
        }
      }
    }
  }

  /** Repeating POST changes nothing more: `get_or_create` is idempotent, also when the
      table holds the pair twice and both calls answer 500. */
  lemma CreateIdempotent<T>(rows: seq<T>, e: T)
    ensures var once := GetOrCreate(rows, e);
            GetOrCreate(once.rows, e) == once
  {
  }

  /** In a table that never holds a row twice, DELETE removes exactly that row and keeps
      every other row, in order, or answers 404 and changes nothing. */
  lemma DeleteOnDistinctTable<T(!new)>(rows: seq<T>, e: T)
    requires NoDuplicates(rows)
    ensures var r := DeleteOr404(rows, e);
            && (e in rows ==> r.status == NoContent && r.rows == Without(rows, e))
            && (e !in rows ==> r.status == NotFound && r.rows == rows)
            && e !in r.rows
            && (forall x :: x != e ==> (x in r.rows <==> x in rows))
            && NoDuplicates(r.rows)
  {
    DistinctCountsAtMostOne(rows, e);
    WithoutKeepsDistinct(rows, e);
    var r := DeleteOr404(rows, e);
    forall x | x != e ensures x in r.rows <==> x in rows {
      assert multiset(r.rows)[x] == multiset(rows)[x];
    }
  }

  /** DELETE undoes a POST that inserted the row. */
  lemma DeleteUndoesCreate<T(!new)>(rows: seq<T>, e: T)
    requires e !in rows
    ensures DeleteOr404(GetOrCreate(rows, e).rows, e) == Step(NoContent, rows)
  {
    WithoutAppend(rows, e);
    WithoutAbsent(rows, e);
  }

  /** The table of `relation`. */
  function Table(db: Database, relation: Relation): seq<UserRecipe>
    reads db
  {
    match relation
    case FavouriteRelation => db.favourites
    case ShoppingCartRelation => db.shoppingCarts
  }

  /** What the routine does to one table of (user, recipe) rows. */
  function RelationStep(m: HttpMethod, rows: seq<UserRecipe>, e: UserRecipe): Step<UserRecipe> {
    match m
    case Post => GetOrCreate(rows, e)
    case Delete => DeleteOr404(rows, e)
  }

  /** Neither method ever stores a row twice in a table that holds every row once. */
  lemma RelationStepKeepsDistinct(m: HttpMethod, rows: seq<UserRecipe>, e: UserRecipe)
    requires NoDuplicates(rows)
    ensures NoDuplicates(RelationStep(m, rows, e).rows)
  {
    if m == Post {
      CreateOnDistinctTable(rows, e);
    } else {
      DeleteOnDistinctTable(rows, e);
    }
  }

  /** What `is_favorited` and `is_in_shopping_cart` show the acting user after a step:
      true after a 201, false after a 204 or a 404. */
  lemma RelationStepMembership(m: HttpMethod, rows: seq<UserRecipe>, viewer: RequestUser, recipe: RecipeId)
    requires viewer.Member?
    ensures var step := RelationStep(m, rows, UserRecipe(viewer.id, recipe));
            && (step.status == Created ==>
                  Serializers.IsFavorited(step.rows, viewer, recipe) && Serializers.IsInShoppingCart(step.rows, viewer, recipe))
            && (step.status == NoContent || step.status == NotFound ==>
                  !Serializers.IsFavorited(step.rows, viewer, recipe) && !Serializers.IsInShoppingCart(step.rows, viewer, recipe))
  {
    var e := UserRecipe(viewer.id, recipe);
    var step := RelationStep(m, rows, e);
    if step.status == NoContent {
      assert multiset(step.rows)[e] == 0;
    }
  }

  /** `shopping_cart_favorite`: 404 for an unknown recipe, otherwise `get_or_create` for
      POST and `get_object_or_404(...).delete()` for DELETE on the chosen table; the other
      table is never touched. */
  method ShoppingCartFavorite(db: Database, relation: Relation, user: UserId, pk: RecipeId, m: HttpMethod)
    returns (status: Status)
    modifies db`favourites, db`shoppingCarts
    ensures pk !in db.recipes ==> status == NotFound && Table(db, relation) == old(Table(db, relation))
    ensures pk in db.recipes ==>
              Step(status, Table(db, relation)) == RelationStep(m, old(Table(db, relation)), UserRecipe(user, pk))
    ensures relation == FavouriteRelation ==> db.shoppingCarts == old(db.shoppingCarts)
    ensures relation == ShoppingCartRelation ==> db.favourites == old(db.favourites)
    ensures NoDuplicates(old(Table(db, relation))) ==> NoDuplicates(Table(db, relation))
    ensures status == Created ==> UserRecipe(user, pk) in Table(db, relation)
    ensures pk in db.recipes && (status == NoContent || status == NotFound) ==> UserRecipe(user, pk) !in Table(db, relation)
    ensures relation == FavouriteRelation && old(db.Constraints()) ==> db.Constraints()
  {
    if pk !in db.recipes {
      return NotFound;
    }
    status := RunStep(db, relation, m, UserRecipe(user, pk));
  }

  /** One POST or DELETE step on the table of `relation`, for a recipe that exists. */
  method RunStep(db: Database, relation: Relation, m: HttpMethod, e: UserRecipe) returns (status: Status)
    modifies db`favourites, db`shoppingCarts
    ensures Step(status, Table(db, relation)) == RelationStep(m, old(Table(db, relation)), e)
    ensures relation == FavouriteRelation ==> db.shoppingCarts == old(db.shoppingCarts)
    ensures relation == ShoppingCartRelation ==> db.favourites == old(db.favourites)
    ensures NoDuplicates(old(Table(db, relation))) ==> NoDuplicates(Table(db, relation))
    ensures status == Created ==> e in Table(db, relation)
    ensures status == NoContent || status == NotFound ==> e !in Table(db, relation)
    ensures relation == FavouriteRelation && old(db.Constraints()) ==> db.Constraints()
  {
    var rows := Table(db, relation);
    var step := RelationStep(m, rows, e);
    if NoDuplicates(rows) {
      RelationStepKeepsDistinct(m, rows, e);
    }
    RelationStepMembership(m, rows, Member(e.user, false, false), e.recipe);
    SetTable(db, relation, step.rows);
    status := step.status;
  }

  /** Stores `rows` as the table of `relation`, leaving the other table as it was. */
  method SetTable(db: Database, relation: Relation, rows: seq<UserRecipe>)
    modifies db`favourites, db`shoppingCarts
    ensures Table(db, relation) == rows
    ensures relation == FavouriteRelation ==> db.shoppingCarts == old(db.shoppingCarts)
    ensures relation == ShoppingCartRelation ==> db.favourites == old(db.favourites)
    ensures relation == FavouriteRelation && old(db.Constraints()) && NoDuplicates(rows) ==> db.Constraints()
  {
    if relation == FavouriteRelation {
      db.favourites := rows;
    } else {
      db.shoppingCarts := rows;
    }
  }

  /** The `favorite` action. */
  method Favorite(db: Database, user: UserId, pk: RecipeId, m: HttpMethod) returns (status: Status)
    modifies db`favourites, db`shoppingCarts
    ensures db.shoppingCarts == old(db.shoppingCarts)
    ensures pk !in db.recipes ==> status == NotFound && db.favourites == old(db.favourites)
    ensures pk in db.recipes ==> Step(status, db.favourites) == RelationStep(m, old(db.favourites), UserRecipe(user, pk))
    ensures status == Created ==> UserRecipe(user, pk) in db.favourites
    ensures pk in db.recipes && (status == NoContent || status == NotFound) ==> UserRecipe(user, pk) !in db.favourites
    ensures old(db.Constraints()) ==> db.Constraints()
  {
    status := ShoppingCartFavorite(db, FavouriteRelation, user, pk, m);
  }

  /** The `shopping_cart` action. */
  method ShoppingCart(db: Database, user: UserId, pk: RecipeId, m: HttpMethod) returns (status: Status)
    modifies db`favourites, db`shoppingCarts
    ensures db.favourites == old(db.favourites)
    ensures pk !in db.recipes ==> status == NotFound && db.shoppingCarts == old(db.shoppingCarts)
    ensures pk in db.recipes ==> Step(status, db.shoppingCarts) == RelationStep(m, old(db.shoppingCarts), UserRecipe(user, pk))
    ensures status == Created ==> UserRecipe(user, pk) in db.shoppingCarts
    ensures pk in db.recipes && (status == NoContent || status == NotFound) ==> UserRecipe(user, pk) !in db.shoppingCarts
    ensures NoDuplicates(old(db.shoppingCarts)) ==> NoDuplicates(db.shoppingCarts)
    ensures old(db.Constraints()) ==> db.Constraints()
  {
    status := ShoppingCartFavorite(db, ShoppingCartRelation, user, pk, m);
  }

  /** `subscribe`: 404 for an unknown author; POST validates the pair as
      SubscribeModelSerializer does (400 with its message) and saves it; DELETE removes the
      pair or answers 404. */
  method Subscribe(db: Database, user: UserId, authorId: UserId, m: HttpMethod) returns (status: Status)
    modifies db`subscriptions
    ensures authorId !in db.users ==> status == NotFound && db.subscriptions == old(db.subscriptions)
    ensures authorId in db.users && m == Post ==>
              match Serializers.ValidateSubscribe(old(db.subscriptions), Models.Subscription(user, authorId))
              case Failure(msg) => status == BadRequest(msg) && db.subscriptions == old(db.subscriptions)
              case Success(_) => status == Created && db.subscriptions == old(db.subscriptions) + [Models.Subscription(user, authorId)]
    ensures authorId in db.users && m == Delete ==>
              Step(status, db.subscriptions) == DeleteOr404(old(db.subscriptions), Models.Subscription(user, authorId))
    ensures status == Created ==> Models.Subscription(user, authorId) in db.subscriptions
    ensures authorId in db.users && m == Delete && (status == NoContent || status == NotFound) ==>
              Models.Subscription(user, authorId) !in db.subscriptions
    ensures old(db.Constraints()) ==> db.Constraints()
  {
    if authorId !in db.users {
      return NotFound;
    }
    var e := Models.Subscription(user, authorId);
    if m == Post {
      var checked := Serializers.ValidateSubscribe(db.subscriptions, e);
      Serializers.ValidateSubscribeSpec(db.subscriptions, e);
      match checked
      case Failure(msg) =>
        status := BadRequest(msg);
      case Success(_) =>
        db.subscriptions := db.subscriptions + [e];
        status := Created;
    } else {
      var step := DeleteOr404(db.subscriptions, e);
      if old(db.Constraints()) {
        DeleteOnDistinctTable(db.subscriptions, e);
      }
      SubscribeMembership(db.subscriptions, Member(user, false, false), authorId);
      db.subscriptions := step.rows;
      status := step.status;
    }
  }

  /** What `is_subscribed` shows the acting user after `subscribe`: true after an
      accepted POST, false after a DELETE answering 204 or 404. */
  lemma SubscribeMembership(subscriptions: seq<Models.Subscription>, viewer: RequestUser, author: UserId)
    requires viewer.Member?
    ensures var e := Models.Subscription(viewer.id, author);
            Serializers.ValidateSubscribe(subscriptions, e).Success? ==>
              Serializers.IsSubscribed(subscriptions + [e], viewer, author)
    ensures var step := DeleteOr404(subscriptions, Models.Subscription(viewer.id, author));
            step.status == NoContent || step.status == NotFound ==>
              !Serializers.IsSubscribed(step.rows, viewer, author)
  {
    var e := Models.Subscription(viewer.id, author);
    var step := DeleteOr404(subscriptions, e);
    if step.status == NoContent {
      assert multiset(step.rows)[e] == 0;
    }
  }

  /** Following and unfollowing an author that exists: POST answers 201 exactly for a new
      pair of two different users, and DELETE right after it restores the table. */
  lemma SubscribeThenUnsubscribe(subscriptions: seq<Models.Subscription>, user: UserId, author: UserId)
    requires user != author && Models.Subscription(user, author) !in subscriptions
    ensures Serializers.ValidateSubscribe(subscriptions, Models.Subscription(user, author)).Success?
    ensures DeleteOr404(subscriptions + [Models.Subscription(user, author)], Models.Subscription(user, author))
            == Step(NoContent, subscriptions)
  {
    var e := Models.Subscription(user, author);
    WithoutAppend(subscriptions, e);
    WithoutAbsent(subscriptions, e);
  }

  // ---------------------------------------------------------------------------
  // download_shopping_cart
  // ---------------------------------------------------------------------------

  /** A row of `ingredients_shopping_cart` as `.values(...).annotate(total=...)` hands it
      on: a dictionary with the two grouped columns and `total`. */
  function QueryRow(t: IngredientTotal): map<string, SendFile.Value> {
    map[SendFile.NameKey := SendFile.Str(t.name),
        SendFile.UnitKey := SendFile.Str(t.unit),
        SendFile.TotalKey := SendFile.Num(t.total)]
  }

  function QueryRows(totals: seq<IngredientTotal>): (ds: seq<map<string, SendFile.Value>>)
    ensures |ds| == |totals| && forall i :: 0 <= i < |totals| ==> ds[i] == QueryRow(totals[i])
  {
    seq(|totals|, i requires 0 <= i < |totals| => QueryRow(totals[i]))
  }

  /** `download_shopping_cart` as written: `sending` applied to the query's rows. */
  function DownloadShoppingCartAsWritten(db: Database, user: UserId, timestamp: string): Result<string, SendFile.KeyError>
    reads db
  {
    SendFile.SendingDicts(timestamp, QueryRows(db.IngredientsShoppingCart(user)))
  }

  /** As soon as the cart yields one ingredient, the download raises KeyError on
      `recipe__name`, a key the query does not select. */
  lemma DownloadFailsOnNonEmptyCart(db: Database, user: UserId, timestamp: string)
    requires db.IngredientsShoppingCart(user) != []
    ensures DownloadShoppingCartAsWritten(db, user, timestamp) == Failure(SendFile.KeyError(SendFile.RecipeKey))
  {
    var ds := QueryRows(db.IngredientsShoppingCart(user));
    assert SendFile.RecipeKey !in ds[0];
    SendFile.SendingNeedsRecipeName(timestamp, ds);
  }

  /** Only an empty result renders: the two header lines. */
  lemma DownloadEmptyCart(db: Database, user: UserId, timestamp: string)
    requires db.IngredientsShoppingCart(user) == []
    ensures DownloadShoppingCartAsWritten(db, user, timestamp) == Success(SendFile.Header(timestamp))
  {
  }

  /** The download rendered by `text_to_print`, whose keys are the ones the query selects;
      `recipes` are the names listed under the recipes heading. */
  function DownloadShoppingCart(db: Database, user: UserId, timestamp: string, recipes: seq<string>, capitalize: string -> string): string
    reads db
  {
    TextToPrint.TextToPrint(timestamp, db.IngredientsShoppingCart(user), recipes, capitalize)
  }

  /** The rendered list holds one numbered line per aggregated ingredient, in the query's
      order, with the summed total, which is at least 1 for validated data. */
  lemma DownloadShoppingCartLines(db: Database, user: UserId, timestamp: string, recipes: seq<string>, capitalize: string -> string)
    requires TextToPrint.SingleLineFields(timestamp, db.IngredientsShoppingCart(user), recipes, capitalize)
    ensures var totals := db.IngredientsShoppingCart(user);
            var lines := Text.Split(DownloadShoppingCart(db, user, timestamp, recipes, capitalize), "\n");
            && |lines| == |totals| + |recipes| + 4
            && (forall k :: 0 <= k < |totals| ==> lines[k + 2] == TextToPrint.IngredientLine(k + 1, totals[k], capitalize))
            && (db.ValidatedValues() ==> forall k :: 0 <= k < |totals| ==> totals[k].total >= 1)
  {
    TextToPrint.TextToPrintIngredientLines(timestamp, db.IngredientsShoppingCart(user), recipes, capitalize);
  }
}
