/** The meal planner's day view: one section per meal type and what each card shows. */
module MealPlanner {
  import opened Wrappers
  import opened Entities
  import opened Nutrition

  /** The heading a card shows when its recipe is missing or has an empty name. */
  const MissingRecipeName: string := "Recipe not found"

  /** `meal.recipes?.name || "Recipe not found"`: never an empty heading. */
  function DisplayName(m: MealEntry): (s: string)
    ensures s != []
    ensures m.recipe.Some? && m.recipe.value.name != [] ==> s == m.recipe.value.name
    ensures m.recipe.None? || m.recipe.value.name == [] ==> s == MissingRecipeName
  {
    if m.recipe.Some? && m.recipe.value.name != [] then m.recipe.value.name else MissingRecipeName
  }

  /** `(meal.recipes?.prep_time || 0) + (meal.recipes?.cook_time || 0)`: the minutes a card shows. */
  function DisplayMinutes(m: MealEntry): (n: int)
    ensures m.recipe.None? ==> n == 0
    ensures m.recipe.Some? ==> n == OrZero(m.recipe.value.prepTime) + OrZero(m.recipe.value.cookTime)
  {
    if m.recipe.Some? then OrZero(m.recipe.value.prepTime) + OrZero(m.recipe.value.cookTime) else 0
  }

  /** What one card of the timeline shows: heading, calories and minutes. */
  datatype Card = Card(heading: string, calories: int, minutes: int)

  /** The card of one entry. */
  function CardOf(m: MealEntry): Card {
    Card(DisplayName(m), Calories(m), DisplayMinutes(m))
  }

  /** A card whose recipe is gone shows "Recipe not found", 0 calories and 0 minutes. */
  lemma MissingRecipeCard(m: MealEntry)
    requires m.recipe.None?
    ensures CardOf(m) == Card(MissingRecipeName, 0, 0)
  {
  }

  /** The cards of a section, in entry order. */
  function Cards(meals: seq<MealEntry>): (cs: seq<Card>)
    ensures |cs| == |meals| && forall k :: 0 <= k < |meals| ==> cs[k] == CardOf(meals[k])
  {
    if meals == [] then [] else [CardOf(meals[0])] + Cards(meals[1..])
  }

  /** The calories printed on a run of cards, added up. */
  function CardCalories(cards: seq<Card>): int {
    if cards == [] then 0 else cards[0].calories + CardCalories(cards[1..])
  }

  /** The calories on a run of cards add up to the total of their entries. */
  lemma {:induction false} CardCaloriesOfEntries(meals: seq<MealEntry>)
    ensures CardCalories(Cards(meals)) == TotalCalories(meals)
  {
    if meals != [] {
      CardCaloriesOfEntries(meals[1..]);
      assert Cards(meals)[1..] == Cards(meals[1..]);
    }
  }

  /**
   * When every entry has one of the four types, the calories on the cards of
   * the four sections add up to the "Total Calories" of the daily summary.
   */
  lemma CardsAddUpToSummary(meals: seq<MealEntry>)
    requires AllStandardTypes(meals)
    ensures CardCalories(Cards(MealsByType(meals, "breakfast"))) + CardCalories(Cards(MealsByType(meals, "lunch")))
          + CardCalories(Cards(MealsByType(meals, "dinner"))) + CardCalories(Cards(MealsByType(meals, "snack")))
         == TotalCalories(meals)
  {
    CardCaloriesOfEntries(MealsByType(meals, "breakfast"));
    CardCaloriesOfEntries(MealsByType(meals, "lunch"));
    CardCaloriesOfEntries(MealsByType(meals, "dinner"));
    CardCaloriesOfEntries(MealsByType(meals, "snack"));
    BreakdownSumsToTotal(meals);
  }

  /** The placeholder "No {type} planned" appears exactly when no entry of the day has that type. */
  lemma PlaceholderIffNoEntry(meals: seq<MealEntry>, t: string)
    ensures MealsByType(meals, t) == [] <==> forall m :: m in meals ==> m.mealType != t
  {
    var r := MealsByType(meals, t);
    if r != [] {
      assert r[0] in r;
    }
  }

  /** The entry appears in one of the four sections of the timeline. */
  predicate ShownInTimeline(meals: seq<MealEntry>, m: MealEntry) {
    exists t :: t in MealTypes && m in MealsByType(meals, t)
  }

  /** An entry of the day is shown exactly when its meal type is one of the four the planner offers. */
  lemma ShownIffStandardType(meals: seq<MealEntry>, m: MealEntry)
    requires m in meals
    ensures ShownInTimeline(meals, m) <==> m.mealType in MealTypes
  {
    if m.mealType in MealTypes {
      assert m in MealsByType(meals, m.mealType);
    }
  }
}
