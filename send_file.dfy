/** `sending`: the plain-text shopping list built line by line in a loop. The
    timestamp that `datetime.now().strftime(...)` produces is a parameter. */
module SendFile {
  import opened Wrappers
  import Text

  const Title: string := "Список покупок:"

  /** One entry as the loop reads it: the text of `ingredient__name`, `total`,
      `ingredient__measurement_unit` and `recipe__name`. */
  datatype ReportRow = ReportRow(name: string, total: string, unit: string, recipe: string)

  /** The two header lines. */
  function Header(timestamp: string): string {
    timestamp + "\n" + Title + "\n"
  }

  /** The entry with number `k`. */
  function Entry(k: nat, r: ReportRow): string {
    Text.NatToString(k) + "." + r.name + "  - " + r.total + "(" + r.unit + ")." + " Рецепт:" + r.recipe + "\n"
  }

  /** The text after the loop has run over `rows`: the header, then the entries numbered
      from 1 in input order. It always starts with the header and ends with a newline. */
  function Report(timestamp: string, rows: seq<ReportRow>): (text: string)
    ensures |Header(timestamp)| <= |text| && text[..|Header(timestamp)|] == Header(timestamp)
    ensures text[|text| - 1] == '\n'
  {
    if rows == [] then Header(timestamp)
    else
      var before := Report(timestamp, rows[..|rows| - 1]);
      var text := before + Entry(|rows|, rows[|rows| - 1]);
      assert text[..|Header(timestamp)|] == before[..|Header(timestamp)|];
      text
  }

  /** The loop of `sending`: `count` is the number of entries written so far. */
  method Sending(timestamp: string, rows: seq<ReportRow>) returns (text: string)
    ensures text == Report(timestamp, rows)
  {
    var count := 0;
    text := Header(timestamp);
    while count < |rows|
      invariant 0 <= count <= |rows|
      invariant text == Report(timestamp, rows[..count])
    {
      var row := rows[count];
      count := count + 1;
      assert rows[..count][..count - 1] == rows[..count - 1];
      text := text + Entry(count, row);
    }
    assert rows[..count] == rows;
  }

  /** No ingredients: only the two header lines. */
  lemma ReportEmpty(timestamp: string)
    ensures Report(timestamp, []) == timestamp + "\n" + Title + "\n"
  {
  }

  /** The text for `xs + [y]` is the text for `xs` followed by entry |xs| + 1. */
  lemma ReportExtends(timestamp: string, xs: seq<ReportRow>, y: ReportRow)
    ensures Report(timestamp, xs + [y]) == Report(timestamp, xs) + Entry(|xs| + 1, y)
  {
    assert (xs + [y])[..|xs|] == xs;
  }

  predicate IsPrefix(a: string, b: string) {
    |a| <= |b| && b[..|a|] == a
  }

  lemma PrefixOfAppend(a: string, b: string, c: string)
    requires IsPrefix(a, b)
    ensures IsPrefix(a, b + c)
  {
    assert (b + c)[..|a|] == b[..|a|];
  }

  /** The text for a prefix of the rows is a prefix of the text for all of them. */
  lemma {:induction false} ReportPrefix(timestamp: string, rows: seq<ReportRow>, n: nat)
    requires n <= |rows|
    ensures IsPrefix(Report(timestamp, rows[..n]), Report(timestamp, rows))
  {
    if n < |rows| {
      var init := rows[..|rows| - 1];
      var last := rows[|rows| - 1];
      assert init[..n] == rows[..n];
      ReportPrefix(timestamp, init, n);
      PrefixOfAppend(Report(timestamp, rows[..n]), Report(timestamp, init), Entry(|rows|, last));
    } else {
      assert rows[..n] == rows;
    }
  }

  /** The text for the first k rows followed by entry k + 1, built from `rows[k]`, begins
      the text for all rows: entries are numbered 1..n in input order. */
  lemma ReportNumbering(timestamp: string, rows: seq<ReportRow>, k: nat)
    requires k < |rows|
    ensures IsPrefix(Report(timestamp, rows[..k]) + Entry(k + 1, rows[k]), Report(timestamp, rows))
  {
    assert rows[..k + 1] == rows[..k] + [rows[k]];
    ReportExtends(timestamp, rows[..k], rows[k]);
    ReportPrefix(timestamp, rows, k + 1);
  }

  // ---------------------------------------------------------------------------
  // The rows as the loop receives them: dictionaries read by key
  // ---------------------------------------------------------------------------

  /** A value of a queryset `.values()` dictionary. */
  datatype Value = Str(s: string) | Num(n: int)

  /** `f"{v}"`. */
  function Format(v: Value): string {
    match v
    case Str(s) => s
    case Num(n) => Text.IntToString(n)
  }

  /** Python's KeyError, carrying the missing key. */
  datatype KeyError = KeyError(key: string)

  const NameKey: string := "ingredient__name"
  const TotalKey: string := "total"
  const UnitKey: string := "ingredient__measurement_unit"
  const RecipeKey: string := "recipe__name"

  /** The four subscripts of one iteration, in the order the f-string evaluates them. */
  function ReadRow(d: map<string, Value>): (r: Result<ReportRow, KeyError>)
    ensures r.Success? <==> NameKey in d && TotalKey in d && UnitKey in d && RecipeKey in d
    ensures NameKey in d && TotalKey in d && UnitKey in d && RecipeKey !in d ==> r == Failure(KeyError(RecipeKey))
  {
    if NameKey !in d then Failure(KeyError(NameKey))
    else if TotalKey !in d then Failure(KeyError(TotalKey))
    else if UnitKey !in d then Failure(KeyError(UnitKey))
    else if RecipeKey !in d then Failure(KeyError(RecipeKey))
    else Success(ReportRow(Format(d[NameKey]), Format(d[TotalKey]), Format(d[UnitKey]), Format(d[RecipeKey])))
  }

  /** Every row before `k` reads successfully. */
  predicate ReadsBefore(ds: seq<map<string, Value>>, k: nat)
    requires k <= |ds|
  {
    forall i :: 0 <= i < k ==> ReadRow(ds[i]).Success?
  }

  /** Reads the rows in order, stopping at the first missing key. */
  function ReadRows(ds: seq<map<string, Value>>): (r: Result<seq<ReportRow>, KeyError>)
    ensures r.Success? ==> |r.value| == |ds|
    ensures r.Success? ==> forall i :: 0 <= i < |ds| ==> ReadRow(ds[i]) == Success(r.value[i])
    ensures r.Success? <==> forall i :: 0 <= i < |ds| ==> ReadRow(ds[i]).Success?
    ensures forall k :: 0 <= k < |ds| && ReadRow(ds[k]).Failure? && ReadsBefore(ds, k) ==>
              r == Failure(ReadRow(ds[k]).error)
  {
    if ds == [] then Success([])
    else
      match ReadRow(ds[0])
      case Failure(e) => Failure(e)
      case Success(row) =>
        match ReadRows(ds[1..])
        case Failure(e) => Failure(e)
        case Success(rest) => Success([row] + rest)
  }

  /** `sending(ingredients)` on dictionaries: the raise of the first missing key discards
      the text, otherwise the loop's text. */
  function SendingDicts(timestamp: string, ds: seq<map<string, Value>>): Result<string, KeyError> {
    match ReadRows(ds)
    case Failure(e) => Failure(e)
    case Success(rows) => Success(Report(timestamp, rows))
  }

  /** A first row without `recipe__name` makes the whole call raise KeyError. */
  lemma SendingNeedsRecipeName(timestamp: string, ds: seq<map<string, Value>>)
    requires ds != []
    requires NameKey in ds[0] && TotalKey in ds[0] && UnitKey in ds[0] && RecipeKey !in ds[0]
    ensures SendingDicts(timestamp, ds) == Failure(KeyError(RecipeKey))
  {
  }
}
