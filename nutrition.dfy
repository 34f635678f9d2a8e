/**
 * Daily calorie aggregation: the `/api/nutrition/daily` route and the totals the
 * meal planner and nutrition tracker show for one day.
 */
module Nutrition {
  import opened Wrappers
  import opened Seqs
  import opened Entities

  /** `meals.reduce((sum, m) => sum + (m.recipes?.calories || 0), 0)`. */
  function TotalCalories(meals: seq<MealEntry>): int {
    if meals == [] then 0 else Calories(meals[0]) + TotalCalories(meals[1..])
  }

  /** The total over two runs of entries is the sum of their totals. */
  lemma {:induction false} TotalCaloriesAppend(a: seq<MealEntry>, b: seq<MealEntry>)
    ensures TotalCalories(a + b) == TotalCalories(a) + TotalCalories(b)
  {
    if a != [] {
      assert (a + b)[1..] == a[1..] + b;
      TotalCaloriesAppend(a[1..], b);
    } else {
      assert a + b == b;
    }
  }

  /** An entry whose recipe was deleted adds nothing to the total. */
  lemma DanglingEntryAddsNothing(meals: seq<MealEntry>, m: MealEntry)
    requires m.recipe.None?
    ensures TotalCalories(meals + [m]) == TotalCalories(meals)
  {
    TotalCaloriesAppend(meals, [m]);
  }

  /** `meals.filter((m) => m.meal_type === t)`: the entries of one meal type, in order. */
  function MealsByType(meals: seq<MealEntry>, t: string): (r: seq<MealEntry>)
    ensures forall x :: x in r <==> x in meals && x.mealType == t
    ensures IsSubseq(r, meals)
  {
    if meals == [] then []
    else if meals[0].mealType == t then [meals[0]] + MealsByType(meals[1..], t)
    else MealsByType(meals[1..], t)
  }

  /** Each entry of type `t` is kept as often as it occurs, and no entry of another type. */
  lemma {:induction false} MealsByTypeCounts(meals: seq<MealEntry>, t: string, x: MealEntry)
    ensures multiset(MealsByType(meals, t))[x] == if x.mealType == t then multiset(meals)[x] else 0
  {
    if meals != [] {
      MealsByTypeCounts(meals[1..], t, x);
      assert meals == [meals[0]] + meals[1..];
    }
  }

  /** The calories of the entries of one meal type (`getCaloriesByMealType`). */
  function CaloriesByMealType(meals: seq<MealEntry>, t: string): int {
    TotalCalories(MealsByType(meals, t))
  }

  /** Every entry has one of the four planner meal types. */
  predicate AllStandardTypes(meals: seq<MealEntry>) {
    forall k :: 0 <= k < |meals| ==> meals[k].mealType in MealTypes
  }

  /** When every entry has one of the four types, the four breakdowns add up to the total. */
  lemma {:induction false} BreakdownSumsToTotal(meals: seq<MealEntry>)
    requires AllStandardTypes(meals)
    ensures CaloriesByMealType(meals, "breakfast") + CaloriesByMealType(meals, "lunch")
          + CaloriesByMealType(meals, "dinner") + CaloriesByMealType(meals, "snack")
         == TotalCalories(meals)
  {
    if meals != [] {
      assert AllStandardTypes(meals[1..]) by {
        forall k | 0 <= k < |meals[1..]| ensures meals[1..][k].mealType in MealTypes {
          assert meals[1..][k] == meals[k + 1];
        }
      }
      BreakdownSumsToTotal(meals[1..]);
      assert meals[0].mealType in MealTypes;
    }
  }

  /** The body of the `/api/nutrition/daily` response. */
  datatype DailyReport = DailyReport(
    totalCalories: int,
    breakfast: int,
    lunch: int,
    dinner: int,
    snack: int,
    meals: seq<MealEntry>)

  /**
   * The daily nutrition report for the entries of one user and date: the total,
   * one figure per meal type, and the entries themselves.
   */
  function DailyNutrition(meals: seq<MealEntry>): (r: DailyReport)
    ensures r.meals == meals
    ensures r.totalCalories == TotalCalories(meals)
    ensures r.breakfast == CaloriesByMealType(meals, "breakfast")
    ensures r.lunch == CaloriesByMealType(meals, "lunch")
    ensures r.dinner == CaloriesByMealType(meals, "dinner")
    ensures r.snack == CaloriesByMealType(meals, "snack")
    ensures AllStandardTypes(meals) ==> r.breakfast + r.lunch + r.dinner + r.snack == r.totalCalories
    ensures MealsByType(meals, "breakfast") == [] ==> r.breakfast == 0
    ensures MealsByType(meals, "lunch") == [] ==> r.lunch == 0
    ensures MealsByType(meals, "dinner") == [] ==> r.dinner == 0
    ensures MealsByType(meals, "snack") == [] ==> r.snack == 0
  {
    assert AllStandardTypes(meals) ==>
      (CaloriesByMealType(meals, "breakfast") + CaloriesByMealType(meals, "lunch")
       + CaloriesByMealType(meals, "dinner") + CaloriesByMealType(meals, "snack")
       == TotalCalories(meals)) by {
      if AllStandardTypes(meals) {
        BreakdownSumsToTotal(meals);
      }
    }
    DailyReport(
      TotalCalories(meals),
      CaloriesByMealType(meals, "breakfast"),
      CaloriesByMealType(meals, "lunch"),
      CaloriesByMealType(meals, "dinner"),
      CaloriesByMealType(meals, "snack"),
      meals)
  }

  /** The goal the tracker compares the day's total against (`getCalorieGoal`). */
  const CalorieGoal: int := 2000

  /**
   * `Math.min((total / goal) * 100, 100)`: percentage of the goal reached,
   * capped at 100 and equal to 100 exactly when the goal is reached.
   */
  function CalorieProgress(total: int): (p: real)
    ensures p <= 100.0
    ensures p == 100.0 <==> total >= CalorieGoal
    ensures total < CalorieGoal ==> p * (CalorieGoal as real) == (total as real) * 100.0
  {
    var pct := (total as real) / (CalorieGoal as real) * 100.0;
    if pct < 100.0 then pct else 100.0
  }

  /** What the label under the progress circle shows. */
  datatype GoalLabel = GoalReached | Remaining(calories: int)

  /** "Goal Reached!" once the total reaches the goal, otherwise the calories still to go. */
  function ProgressLabel(total: int): (l: GoalLabel)
    ensures l.GoalReached? <==> total >= CalorieGoal
    ensures l.Remaining? ==> l.calories > 0 && total + l.calories == CalorieGoal
  {
    if total >= CalorieGoal then GoalReached else Remaining(CalorieGoal - total)
  }
}
