/** `text_to_print`: the shopping list built by joining its lines with a newline. The
    timestamp is a parameter, and `str.capitalize` is the parameter `capitalize`. */
module TextToPrint {
  import opened Models
  import Text

  const Title: string := "Список покупок:"
  const RecipesHeading: string := "Рецепты:"

  /** The line of the ingredient numbered `k`. */
  function IngredientLine(k: nat, t: IngredientTotal, capitalize: string -> string): string {
    Text.NatToString(k) + ". " + capitalize(t.name) + " - " + Text.IntToString(t.total) + " (" + t.unit + ")."
  }

  /** The list comprehension over `enumerate(ingredients, 1)`. */
  function IngredientLines(ingredients: seq<IngredientTotal>, capitalize: string -> string): (lines: seq<string>)
    ensures |lines| == |ingredients|
    ensures forall k :: 0 <= k < |ingredients| ==> lines[k] == IngredientLine(k + 1, ingredients[k], capitalize)
  {
    seq(|ingredients|, k requires 0 <= k < |ingredients| => IngredientLine(k + 1, ingredients[k], capitalize))
  }

  /** The pieces handed to `"\n".join`. */
  function Pieces(timestamp: string, ingredients: seq<IngredientTotal>, recipes: seq<string>, capitalize: string -> string): seq<string> {
    [timestamp, Title] + IngredientLines(ingredients, capitalize) + ["\n" + RecipesHeading] + recipes
  }

  function TextToPrint(timestamp: string, ingredients: seq<IngredientTotal>, recipes: seq<string>, capitalize: string -> string): string {
    Text.Join(Pieces(timestamp, ingredients, recipes, capitalize), "\n")
  }

  /** The lines of the output, as `splitlines` would see them when no field holds a
      newline: timestamp, title, the numbered ingredient lines, a blank line, the recipes
      heading and the recipe names. */
  function Lines(timestamp: string, ingredients: seq<IngredientTotal>, recipes: seq<string>, capitalize: string -> string): seq<string> {
    [timestamp, Title] + IngredientLines(ingredients, capitalize) + ["", RecipesHeading] + recipes
  }

  /** No field of the input holds a newline. */
  predicate SingleLineFields(timestamp: string, ingredients: seq<IngredientTotal>, recipes: seq<string>, capitalize: string -> string) {
    && '\n' !in timestamp
    && (forall k :: 0 <= k < |ingredients| ==> '\n' !in capitalize(ingredients[k].name) && '\n' !in ingredients[k].unit)
    && (forall k :: 0 <= k < |recipes| ==> '\n' !in recipes[k])
  }

  /** Joining a piece that starts with the separator is joining an empty piece before it. */
  lemma JoinLeadingSeparator(a: seq<string>, x: string, b: seq<string>, c: char)
    requires a != []
    ensures Text.Join(a + [[c] + x] + b, [c]) == Text.Join(a + ["", x] + b, [c])
  {
    Text.JoinAppend(a, [[c] + x], [c]);
    Text.JoinAppend(a, ["", x], [c]);
    assert Text.Join([[c] + x], [c]) == [c] + x;
    assert Text.Join(["", x], [c]) == [c] + x by {
      assert ["", x] == [""] + [x];
      Text.JoinAppend([""], [x], [c]);
    }
    if b != [] {
      assert a + [[c] + x] + b == (a + [[c] + x]) + b;
      assert a + ["", x] + b == (a + ["", x]) + b;
      Text.JoinAppend(a + [[c] + x], b, [c]);
      Text.JoinAppend(a + ["", x], b, [c]);
    } else {
      assert a + [[c] + x] + b == a + [[c] + x];
      assert a + ["", x] + b == a + ["", x];
    }
  }

  lemma IngredientLineSingle(k: nat, t: IngredientTotal, capitalize: string -> string)
    requires '\n' !in capitalize(t.name) && '\n' !in t.unit
    ensures '\n' !in IngredientLine(k, t, capitalize)
  {
    var digits := Text.NatToString(k);
    assert forall i :: 0 <= i < |digits| ==> digits[i] != '\n';
  }

  /** Split on newlines, the output gives back its lines: n + m + 4 of them for n
      ingredients and m recipes, with no trailing newline after the last. */
  lemma TextToPrintLines(timestamp: string, ingredients: seq<IngredientTotal>, recipes: seq<string>, capitalize: string -> string)
    requires SingleLineFields(timestamp, ingredients, recipes, capitalize)
    ensures Text.Split(TextToPrint(timestamp, ingredients, recipes, capitalize), "\n")
            == Lines(timestamp, ingredients, recipes, capitalize)
    ensures |Lines(timestamp, ingredients, recipes, capitalize)| == |ingredients| + |recipes| + 4
  {
    var head := [timestamp, Title] + IngredientLines(ingredients, capitalize);
    assert "\n" == ['\n'];
    assert Pieces(timestamp, ingredients, recipes, capitalize) == head + [['\n'] + RecipesHeading] + recipes;
    assert Lines(timestamp, ingredients, recipes, capitalize) == head + ["", RecipesHeading] + recipes;
    JoinLeadingSeparator(head, RecipesHeading, recipes, '\n');
    var lines := Lines(timestamp, ingredients, recipes, capitalize);
    forall k | 0 <= k < |lines| ensures '\n' !in lines[k] {
      if 2 <= k < 2 + |ingredients| {
        IngredientLineSingle(k - 1, ingredients[k - 2], capitalize);
      } else if k >= 4 + |ingredients| {
        assert lines[k] == recipes[k - 4 - |ingredients|];
      }
    }
    Text.SplitJoin(lines, '\n');
  }

  /** Line k + 3 of the output is the ingredient line numbered k + 1, built from the
      k-th ingredient. */
  lemma TextToPrintIngredientLines(timestamp: string, ingredients: seq<IngredientTotal>, recipes: seq<string>, capitalize: string -> string)
    requires SingleLineFields(timestamp, ingredients, recipes, capitalize)
    ensures var lines := Text.Split(TextToPrint(timestamp, ingredients, recipes, capitalize), "\n");
            && |lines| == |ingredients| + |recipes| + 4
            && forall k :: 0 <= k < |ingredients| ==> lines[k + 2] == IngredientLine(k + 1, ingredients[k], capitalize)
  {
    TextToPrintLines(timestamp, ingredients, recipes, capitalize);
    var body := IngredientLines(ingredients, capitalize);
    var lines := [timestamp, Title] + body + ["", RecipesHeading] + recipes;
    assert lines == Lines(timestamp, ingredients, recipes, capitalize);
    assert lines[2..2 + |body|] == body;
    forall k | 0 <= k < |ingredients| ensures lines[k + 2] == IngredientLine(k + 1, ingredients[k], capitalize) {
      assert lines[k + 2] == lines[2..2 + |body|][k];
    }
  }

  /** No ingredients and no recipes: timestamp, title, a blank line and the heading. */
  lemma TextToPrintEmpty(timestamp: string, capitalize: string -> string)
    ensures TextToPrint(timestamp, [], [], capitalize) == timestamp + "\n" + Title + "\n\n" + RecipesHeading
  {
    var pieces := Pieces(timestamp, [], [], capitalize);
    assert pieces == [timestamp, Title, "\n" + RecipesHeading];
    assert pieces[1..] == [Title, "\n" + RecipesHeading];
    assert pieces[1..][1..] == ["\n" + RecipesHeading];
    assert Text.Join(pieces[1..], "\n") == Title + "\n" + ("\n" + RecipesHeading);
    assert Text.Join(pieces, "\n") == timestamp + "\n" + Text.Join(pieces[1..], "\n");
    assert "\n\n" == "\n" + "\n";
  }
}
