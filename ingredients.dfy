/**
 * Ingredient extraction: turning the free-text `ingredients` column of the
 * planned recipes into the list of ingredient lines, on the server and in the
 * meal planner.
 */
module Ingredients {
  import opened Wrappers
  import opened Seqs
  import opened Text
  import opened Entities

  /** `.filter((ing) => ing.trim())`: the pieces that are not blank, untrimmed, in order. */
  function KeepNonBlank(pieces: seq<string>): (r: seq<string>)
    ensures forall x :: x in r <==> x in pieces && !IsBlank(x)
    ensures IsSubseq(r, pieces)
  {
    if pieces == [] then []
    else if IsBlank(pieces[0]) then KeepNonBlank(pieces[1..])
    else [pieces[0]] + KeepNonBlank(pieces[1..])
  }

  /**
   * Every non-blank piece is kept as often as it occurs and no blank one is:
   * with the order the subsequence fixes, this pins the result down.
   */
  lemma {:induction false} KeepNonBlankCounts(pieces: seq<string>, x: string)
    ensures multiset(KeepNonBlank(pieces))[x] == if IsBlank(x) then 0 else multiset(pieces)[x]
  {
    if pieces != [] {
      KeepNonBlankCounts(pieces[1..], x);
      assert pieces == [pieces[0]] + pieces[1..];
    }
  }

  /** One line is kept for each non-blank piece: the lines number the non-blank pieces. */
  lemma {:induction false} KeepNonBlankLength(pieces: seq<string>)
    ensures |KeepNonBlank(pieces)| == |pieces| - CountBlank(pieces)
  {
    if pieces != [] {
      KeepNonBlankLength(pieces[1..]);
    }
  }

  /** The number of blank pieces. */
  function CountBlank(pieces: seq<string>): (n: nat)
    ensures n <= |pieces|
  {
    if pieces == [] then 0 else (if IsBlank(pieces[0]) then 1 else 0) + CountBlank(pieces[1..])
  }

  /** Pieces that are all non-blank are kept as they are. */
  lemma {:induction false} KeepNonBlankOfNonBlank(pieces: seq<string>)
    requires forall k :: 0 <= k < |pieces| ==> !IsBlank(pieces[k])
    ensures KeepNonBlank(pieces) == pieces
  {
    if pieces != [] {
      KeepNonBlankOfNonBlank(pieces[1..]);
    }
  }

  /**
   * `ingredients.split("\n").filter((ing) => ing.trim())`: the newline-separated
   * pieces of the text that are not blank, kept untrimmed and in text order.
   */
  function IngredientLines(text: string): (r: seq<string>)
    ensures forall x :: x in r <==> x in Split(text, '\n') && !IsBlank(x)
    ensures forall x :: x in r ==> '\n' !in x
    ensures IsSubseq(r, Split(text, '\n'))
  {
    var pieces := Split(text, '\n');
    assert forall x :: x in pieces ==> '\n' !in x;
    KeepNonBlank(pieces)
  }

  /** An empty ingredients text yields no lines. */
  lemma IngredientLinesOfEmpty()
    ensures IngredientLines([]) == []
  {
    var empty: string := [];
    assert Split(empty, '\n') == [empty];
    assert AllWhitespace(empty);
    assert KeepNonBlank([empty]) == KeepNonBlank([empty][1..]);
    assert [empty][1..] == [];
  }

  /**
   * A text written as non-blank lines joined by newlines gives back exactly
   * those lines.
   */
  lemma IngredientLinesOfJoin(lines: seq<string>)
    requires |lines| >= 1
    requires forall k :: 0 <= k < |lines| ==> '\n' !in lines[k] && !IsBlank(lines[k])
    ensures IngredientLines(Join(lines, '\n')) == lines
  {
    SplitJoin(lines, '\n');
    KeepNonBlankOfNonBlank(lines);
  }

  /** The ingredients text of an entry when the server treats it as present (`meal.recipes?.ingredients` truthy). */
  predicate HasIngredients(m: MealEntry) {
    m.recipe.Some? && m.recipe.value.ingredients.Some? && m.recipe.value.ingredients.value != []
  }

  /**
   * The lines one meal-plan entry contributes on the server: none when its
   * recipe is gone or its ingredients are null or empty.
   */
  function MealLines(m: MealEntry): (r: seq<string>)
    ensures !HasIngredients(m) ==> r == []
    ensures HasIngredients(m) ==> r == IngredientLines(m.recipe.value.ingredients.value)
  {
    if HasIngredients(m) then IngredientLines(m.recipe.value.ingredients.value) else []
  }

  /** `allIngredients` on the server: the lines of every entry, entry after entry. */
  function PlanLines(meals: seq<MealEntry>): seq<string> {
    if meals == [] then [] else PlanLines(meals[..|meals| - 1]) + MealLines(meals[|meals| - 1])
  }

  /** A line is collected exactly when some entry contributes it. */
  lemma {:induction false} PlanLinesMembership(meals: seq<MealEntry>, x: string)
    ensures x in PlanLines(meals) <==> exists k :: 0 <= k < |meals| && x in MealLines(meals[k])
  {
    if meals != [] {
      var front, last := meals[..|meals| - 1], meals[|meals| - 1];
      assert PlanLines(meals) == PlanLines(front) + MealLines(last);
      PlanLinesMembership(front, x);
      if x in PlanLines(front) {
        var k :| 0 <= k < |front| && x in MealLines(front[k]);
        assert meals[k] == front[k];
      } else if x in MealLines(last) {
        assert x in MealLines(meals[|meals| - 1]);
      } else {
        NoEntryContributes(front, last, x);
        assert meals == front + [last];
      }
    }
  }

  /** When neither the first entries nor the last one contribute `x`, no entry does. */
  lemma NoEntryContributes(front: seq<MealEntry>, last: MealEntry, x: string)
    requires forall k :: 0 <= k < |front| ==> x !in MealLines(front[k])
    requires x !in MealLines(last)
    ensures forall k :: 0 <= k < |front + [last]| ==> x !in MealLines((front + [last])[k])
  {
    var meals := front + [last];
    forall k | 0 <= k < |meals| ensures x !in MealLines(meals[k]) {
      if k < |front| {
        assert meals[k] == front[k];
      }
    }
  }

  /** The server's `forEach` over the meal plans pushing each entry's lines. */
  method CollectPlanLines(meals: seq<MealEntry>) returns (all: seq<string>)
    ensures all == PlanLines(meals)
  {
    all := [];
    var i := 0;
    while i < |meals|
      invariant 0 <= i <= |meals|
      invariant all == PlanLines(meals[..i])
    {
      assert meals[..i + 1][..i] == meals[..i];
      all := all + MealLines(meals[i]);
      i := i + 1;
    }
    assert meals[..i] == meals;
  }

  /**
   * The meal planner's extraction over the fetched recipes: `None` when some
   * recipe's ingredients are null, for `recipe.ingredients.split` then throws.
   */
  function RecipeLines(recipes: seq<Recipe>): (r: Option<seq<string>>)
    ensures r.None? <==> exists k :: 0 <= k < |recipes| && recipes[k].ingredients.None?
  {
    if recipes == [] then Some([])
    else
      var front := RecipeLines(recipes[..|recipes| - 1]);
      var last := recipes[|recipes| - 1];
      assert forall k :: 0 <= k < |recipes| - 1 ==> recipes[..|recipes| - 1][k] == recipes[k];
      if front.None? || last.ingredients.None? then None
      else Some(front.value + IngredientLines(last.ingredients.value))
  }

  /** The meal planner's `forEach` over the fetched recipes. */
  method CollectRecipeLines(recipes: seq<Recipe>) returns (all: Option<seq<string>>)
    ensures all == RecipeLines(recipes)
  {
    var lines: seq<string> := [];
    var i := 0;
    while i < |recipes|
      invariant 0 <= i <= |recipes|
      invariant RecipeLines(recipes[..i]) == Some(lines)
    {
      assert recipes[..i + 1][..i] == recipes[..i];
      if recipes[i].ingredients.None? {
        assert RecipeLines(recipes[..i + 1]).None?;
        RecipeLinesOfPrefix(recipes, i + 1);
        return None;
      }
      lines := lines + IngredientLines(recipes[i].ingredients.value);
      i := i + 1;
    }
    assert recipes[..i] == recipes;
    all := Some(lines);
  }

  /** Once a prefix fails, the whole extraction fails. */
  lemma RecipeLinesOfPrefix(recipes: seq<Recipe>, n: nat)
    requires n <= |recipes| && RecipeLines(recipes[..n]).None?
    ensures RecipeLines(recipes).None?
  {
    var k :| 0 <= k < n && recipes[..n][k].ingredients.None?;
    assert recipes[k].ingredients.None?;
  }

  /**
   * The recipes of meal-plan entries, in entry order; an entry whose recipe is
   * gone has no row for `.in("id", recipeIds)` to return.
   */
  function RecipesOf(meals: seq<MealEntry>): seq<Recipe> {
    if meals == [] then []
    else
      var last := meals[|meals| - 1];
      RecipesOf(meals[..|meals| - 1]) + (if last.recipe.Some? then [last.recipe.value] else [])
  }

  /**
   * On the same recipes, every one still present with non-null ingredients, the
   * meal planner and the server collect the same lines: an empty text, or an
   * entry whose recipe is gone, yields no lines either way.
   */
  lemma {:induction false} ClientAndServerAgree(meals: seq<MealEntry>)
    requires forall k :: 0 <= k < |meals| && meals[k].recipe.Some? ==> meals[k].recipe.value.ingredients.Some?
    ensures RecipeLines(RecipesOf(meals)) == Some(PlanLines(meals))
  {
    if meals != [] {
      var front := meals[..|meals| - 1];
      var last := meals[|meals| - 1];
      var rs := RecipesOf(meals);
      assert forall k :: 0 <= k < |front| ==> front[k] == meals[k];
      ClientAndServerAgree(front);
      assert PlanLines(meals) == PlanLines(front) + MealLines(last);
      if last.recipe.Some? {
        var text := last.recipe.value.ingredients.value;
        assert rs[..|rs| - 1] == RecipesOf(front) && rs[|rs| - 1] == last.recipe.value;
        if text == [] {
          IngredientLinesOfEmpty();
        }
        assert MealLines(last) == IngredientLines(text);
      } else {
        assert rs == RecipesOf(front);
        assert PlanLines(front) + [] == PlanLines(front);
      }
    }
  }
}
