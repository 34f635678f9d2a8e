/** The records the core reads: recipes and meal-plan entries as the queries return them. */
module Entities {
  import opened Wrappers

  /** The identifier of the user who owns a row. */
  type UserId = string

  /** A calendar date as a day number: day 0 is 1970-01-01, a Thursday. */
  type Day = int

  /** The columns of a recipe the core reads; every one of them is nullable in the store. */
  datatype Recipe = Recipe(
    name: string,
    calories: Option<int>,
    prepTime: Option<int>,
    cookTime: Option<int>,
    ingredients: Option<string>)

  /**
   * A meal_plans row joined with its recipe; `recipe` is `None` when the
   * referenced recipe no longer exists (the join yields null).
   */
  datatype MealEntry = MealEntry(date: Day, mealType: string, recipe: Option<Recipe>)

  /** The four meal slots the planner offers. */
  const MealTypes: seq<string> := ["breakfast", "lunch", "dinner", "snack"]

  /** JavaScript `n || 0` for a nullable number. */
  function OrZero(n: Option<int>): int {
    if n.Some? then n.value else 0
  }

  /** `meal.recipes?.calories || 0`: the calories an entry contributes. */
  function Calories(m: MealEntry): (c: int)
    ensures m.recipe.None? ==> c == 0
  {
    if m.recipe.Some? then OrZero(m.recipe.value.calories) else 0
  }
}
