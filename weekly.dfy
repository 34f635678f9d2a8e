/**
 * Weekly calorie aggregation: the `/api/nutrition/weekly` route and the weekly
 * overview of the nutrition tracker.
 */
module Weekly {
  import opened Wrappers
  import opened Seqs
  import opened Entities
  import opened Nutrition

  /** JavaScript `getDay()`: 0 for Sunday up to 6 for Saturday (day 0 was a Thursday). */
  function DayOfWeek(d: Day): (w: nat)
    ensures w < 7
  {
    (d + 4) % 7
  }

  /** `start.setDate(start.getDate() - start.getDay())`: the Sunday that starts the week of `d`. */
  function WeekStart(d: Day): (s: Day)
    ensures DayOfWeek(s) == 0
    ensures s <= d < s + 7
  {
    var q := (d + 4) / 7;
    assert d - DayOfWeek(d) + 4 == 7 * q;
    d - DayOfWeek(d)
  }

  /** `end.setDate(end.getDate() + 6)`: the Saturday that ends the week of `d`. */
  function WeekEnd(d: Day): Day {
    WeekStart(d) + 6
  }

  /**
   * The window starts on a Sunday, holds `d` and seven dates in all, and every
   * date in it has the same window.
   */
  lemma WeekWindow(d: Day)
    ensures DayOfWeek(WeekStart(d)) == 0
    ensures WeekStart(d) <= d <= WeekEnd(d)
    ensures WeekEnd(d) - WeekStart(d) + 1 == 7
    ensures forall e :: WeekStart(d) <= e <= WeekEnd(d) ==> WeekStart(e) == WeekStart(d)
  {
    var q := (d + 4) / 7;
    assert WeekStart(d) + 4 == 7 * q;
    forall e | WeekStart(d) <= e <= WeekEnd(d) ensures WeekStart(e) == WeekStart(d) {
      assert e + 4 == 7 * q + (e - WeekStart(d));
    }
  }

  /** The entries the week query returns: `.gte("date", start).lte("date", end)`. */
  function InWeekOf(meals: seq<MealEntry>, selected: Day): (r: seq<MealEntry>)
    ensures forall x :: x in r <==> x in meals && WeekStart(selected) <= x.date <= WeekEnd(selected)
    ensures IsSubseq(r, meals)
  {
    if meals == [] then []
    else if WeekStart(selected) <= meals[0].date <= WeekEnd(selected)
    then [meals[0]] + InWeekOf(meals[1..], selected)
    else InWeekOf(meals[1..], selected)
  }

  /** Each entry dated inside the window is returned as often as it occurs, and no other. */
  lemma {:induction false} InWeekOfCounts(meals: seq<MealEntry>, selected: Day, x: MealEntry)
    ensures multiset(InWeekOf(meals, selected))[x] ==
              if WeekStart(selected) <= x.date <= WeekEnd(selected) then multiset(meals)[x] else 0
  {
    if meals != [] {
      InWeekOfCounts(meals[1..], selected, x);
      assert meals == [meals[0]] + meals[1..];
    }
  }

  /** The dates of the entries, in order. */
  function Dates(meals: seq<MealEntry>): (ds: seq<Day>)
    ensures |ds| == |meals| && forall k :: 0 <= k < |meals| ==> ds[k] == meals[k].date
  {
    if meals == [] then [] else Dates(meals[..|meals| - 1]) + [meals[|meals| - 1].date]
  }

  /** The entries dated `d`, in order. */
  function OnDate(meals: seq<MealEntry>, d: Day): (r: seq<MealEntry>)
    ensures forall x :: x in r <==> x in meals && x.date == d
    ensures IsSubseq(r, meals)
  {
    if meals == [] then []
    else
      var front := meals[..|meals| - 1];
      var last := meals[|meals| - 1];
      assert meals == front + [last];
      var r := OnDate(front, d) + (if last.date == d then [last] else []);
      IsSubseqSnoc(OnDate(front, d), front, last);
      assert last.date != d ==> r == OnDate(front, d);
      r
  }

  /** Each entry dated `d` is kept as often as it occurs, and no entry of another date. */
  lemma {:induction false} OnDateCounts(meals: seq<MealEntry>, d: Day, x: MealEntry)
    ensures multiset(OnDate(meals, d))[x] == if x.date == d then multiset(meals)[x] else 0
  {
    if meals != [] {
      var front := meals[..|meals| - 1];
      OnDateCounts(front, d, x);
      assert meals == front + [meals[|meals| - 1]];
    }
  }

  /** Each date's calorie total, for the dates `ds` in their order. */
  function DateTotals(meals: seq<MealEntry>, ds: seq<Day>): (r: seq<int>)
    ensures |r| == |ds|
  {
    if ds == [] then [] else [TotalCalories(OnDate(meals, ds[0]))] + DateTotals(meals, ds[1..])
  }

  /** `Object.values(dailyTotals)`: the totals in the order their dates were inserted. */
  function ObjectValues(keys: seq<Day>, totals: map<Day, int>): (r: seq<int>)
    requires forall k :: 0 <= k < |keys| ==> keys[k] in totals
    ensures |r| == |keys|
    ensures forall k :: 0 <= k < |keys| ==> r[k] == totals[keys[k]]
  {
    if keys == [] then [] else [totals[keys[0]]] + ObjectValues(keys[1..], totals)
  }

  /**
   * The `forEach` that builds `dailyTotals`: `totals` maps exactly the dates that
   * have entries to the calories of that date, and `keys` is the order in which
   * the object received them (first occurrence), so its values in that order are
   * the per-date totals.
   */
  method GroupByDate(meals: seq<MealEntry>) returns (keys: seq<Day>, totals: map<Day, int>)
    ensures keys == Dedup(Dates(meals))
    ensures forall d :: d in totals <==> d in Dates(meals)
    ensures forall d :: d in totals ==> totals[d] == TotalCalories(OnDate(meals, d))
    ensures forall k :: 0 <= k < |keys| ==> keys[k] in totals
    ensures ObjectValues(keys, totals) == DateTotals(meals, keys)
  {
    keys, totals := [], map[];
    for i := 0 to |meals|
      invariant Grouped(meals[..i], keys, totals)
    {
      var m := meals[i];
      assert meals[..i + 1] == meals[..i] + [m];
      ghost var keys0, totals0 := keys, totals;
      ghost var before := if m.date in totals then totals[m.date] else 0;
      if m.date !in totals {
        keys := keys + [m.date];
      }
      if m.date !in totals || totals[m.date] == 0 {
        totals := totals[m.date := 0];
      }
      assert totals[m.date] == before;
      totals := totals[m.date := totals[m.date] + Calories(m)];
      GroupStep(meals[..i], m, keys0, totals0, keys, totals);
    }
    assert meals[..|meals|] == meals;
    GroupedKeys(meals, keys, totals);
    AgreeOnKeys(meals, keys, totals);
  }

  /** What the loop of GroupByDate keeps: the object built so far from the entries `done`. */
  ghost predicate Grouped(done: seq<MealEntry>, keys: seq<Day>, totals: map<Day, int>) {
    && keys == Dedup(Dates(done))
    && (forall d :: d in totals <==> d in Dates(done))
    && (forall d :: d in totals ==> totals[d] == TotalCalories(OnDate(done, d)))
  }

  lemma DatesSnoc(done: seq<MealEntry>, m: MealEntry)
    ensures Dates(done + [m]) == Dates(done) + [m.date]
  {
  }

  lemma OnDateSnoc(done: seq<MealEntry>, m: MealEntry, d: Day)
    ensures OnDate(done + [m], d) == OnDate(done, d) + (if m.date == d then [m] else [])
  {
    var all := done + [m];
    assert all[..|all| - 1] == done;
  }

  /** Every key of the object has a total. */
  lemma GroupedKeys(done: seq<MealEntry>, keys: seq<Day>, totals: map<Day, int>)
    requires Grouped(done, keys, totals)
    ensures forall k :: 0 <= k < |keys| ==> keys[k] in totals
  {
    forall k | 0 <= k < |keys| ensures keys[k] in totals {
      assert keys[k] in keys;
    }
  }

  /** One step of the `forEach`: adding entry `m` to the object of `done` gives the object of `done + [m]`. */
  lemma GroupStep(done: seq<MealEntry>, m: MealEntry, keys: seq<Day>, totals: map<Day, int>,
                  keys': seq<Day>, totals': map<Day, int>)
    requires Grouped(done, keys, totals)
    requires keys' == if m.date in totals then keys else keys + [m.date]
    requires m.date in totals'
    requires totals'[m.date] == (if m.date in totals then totals[m.date] else 0) + Calories(m)
    requires forall d :: d != m.date ==> (d in totals' <==> d in totals)
    requires forall d :: d != m.date && d in totals ==> totals'[d] == totals[d]
    ensures Grouped(done + [m], keys', totals')
  {
    GroupStepKeys(done, m, keys, totals, keys');
    GroupStepDomain(done, m, totals, totals');
    GroupStepValues(done, m, totals, totals');
  }

  /** The keys after entry `m`: its date is appended when it is new. */
  lemma GroupStepKeys(done: seq<MealEntry>, m: MealEntry, keys: seq<Day>, totals: map<Day, int>, keys': seq<Day>)
    requires keys == Dedup(Dates(done))
    requires forall d :: d in totals <==> d in Dates(done)
    requires keys' == if m.date in totals then keys else keys + [m.date]
    ensures keys' == Dedup(Dates(done + [m]))
  {
    DatesSnoc(done, m);
    DedupSnoc(Dates(done), m.date);
  }

  /** The totals after entry `m` are the per-date sums of `done + [m]`. */
  lemma GroupStepValues(done: seq<MealEntry>, m: MealEntry, totals: map<Day, int>, totals': map<Day, int>)
    requires forall d :: d in totals <==> d in Dates(done)
    requires forall d :: d in totals ==> totals[d] == TotalCalories(OnDate(done, d))
    requires m.date in totals'
    requires totals'[m.date] == (if m.date in totals then totals[m.date] else 0) + Calories(m)
    requires forall d :: d != m.date ==> (d in totals' <==> d in totals)
    requires forall d :: d != m.date && d in totals ==> totals'[d] == totals[d]
    ensures forall d :: d in totals' ==> totals'[d] == TotalCalories(OnDate(done + [m], d))
  {
    forall d | d in totals'
      ensures totals'[d] == TotalCalories(OnDate(done + [m], d))
    {
      GroupStepTotal(done, m, totals, d);
    }
  }

  /** The dates of the object after entry `m` are those of `done + [m]`. */
  lemma GroupStepDomain(done: seq<MealEntry>, m: MealEntry, totals: map<Day, int>, totals': map<Day, int>)
    requires forall d :: d in totals <==> d in Dates(done)
    requires m.date in totals'
    requires forall d :: d != m.date ==> (d in totals' <==> d in totals)
    ensures forall d :: d in totals' <==> d in Dates(done + [m])
  {
    DatesSnoc(done, m);
  }

  /** The running total of date `d` after entry `m`. */
  lemma GroupStepTotal(done: seq<MealEntry>, m: MealEntry, totals: map<Day, int>, d: Day)
    requires forall d :: d in totals <==> d in Dates(done)
    requires forall d :: d in totals ==> totals[d] == TotalCalories(OnDate(done, d))
    ensures TotalCalories(OnDate(done + [m], d))
         == (if d in totals then totals[d] else 0) + (if m.date == d then Calories(m) else 0)
  {
    OnDateSnoc(done, m, d);
    TotalCaloriesAppend(OnDate(done, d), if m.date == d then [m] else []);
    if d !in totals {
      assert d !in Dates(done);
      assert OnDate(done, d) == [];
    }
  }

  /** Totals that agree with the per-date sums give those sums in key order. */
  lemma {:induction false} AgreeOnKeys(meals: seq<MealEntry>, keys: seq<Day>, totals: map<Day, int>)
    requires forall k :: 0 <= k < |keys| ==> keys[k] in totals
    requires forall d :: d in totals ==> totals[d] == TotalCalories(OnDate(meals, d))
    ensures ObjectValues(keys, totals) == DateTotals(meals, keys)
  {
    if keys != [] {
      AgreeOnKeys(meals, keys[1..], totals);
    }
  }

  /** Extending the key list by one date adds that date's total at the end. */
  lemma {:induction false} DateTotalsSnocKey(meals: seq<MealEntry>, ds: seq<Day>, d: Day)
    ensures Sum(DateTotals(meals, ds + [d])) == Sum(DateTotals(meals, ds)) + TotalCalories(OnDate(meals, d))
  {
    if ds == [] {
      assert DateTotals(meals, [d]) == [TotalCalories(OnDate(meals, d))];
    } else {
      assert (ds + [d])[1..] == ds[1..] + [d];
      DateTotalsSnocKey(meals, ds[1..], d);
    }
  }

  /** One more entry adds its calories to the sum over distinct dates that include its date. */
  lemma {:induction false} DateTotalsSnocMeal(meals: seq<MealEntry>, m: MealEntry, ds: seq<Day>)
    requires NoDup(ds)
    ensures Sum(DateTotals(meals + [m], ds))
         == Sum(DateTotals(meals, ds)) + (if m.date in ds then Calories(m) else 0)
  {
    if ds != [] {
      var all := meals + [m];
      assert all[..|all| - 1] == meals;
      TotalCaloriesAppend(OnDate(meals, ds[0]), if m.date == ds[0] then [m] else []);
      assert NoDup(ds[1..]);
      DateTotalsSnocMeal(meals, m, ds[1..]);
      assert m.date == ds[0] ==> m.date !in ds[1..];
      assert m.date in ds <==> m.date == ds[0] || m.date in ds[1..];
    }
  }

  /** A date no entry has collects no entries. */
  lemma {:induction false} OnDateOfAbsent(meals: seq<MealEntry>, d: Day)
    requires d !in Dates(meals)
    ensures OnDate(meals, d) == []
  {
    if meals != [] {
      var front := meals[..|meals| - 1];
      assert Dates(meals) == Dates(front) + [meals[|meals| - 1].date];
      OnDateOfAbsent(front, d);
    }
  }

  /** The values of `dailyTotals` add up to the calories of all the week's entries. */
  lemma {:induction false} WeeklyValuesSum(meals: seq<MealEntry>)
    ensures Sum(DateTotals(meals, Dedup(Dates(meals)))) == TotalCalories(meals)
  {
    if meals == [] {
      assert Dates(meals) == [];
    } else {
      var front, m := meals[..|meals| - 1], meals[|meals| - 1];
      assert meals == front + [m];
      WeeklyValuesSum(front);
      ValuesSumStep(front, m);
    }
  }

  /** One more entry keeps the sum of the per-date totals equal to the total. */
  lemma ValuesSumStep(front: seq<MealEntry>, m: MealEntry)
    requires Sum(DateTotals(front, Dedup(Dates(front)))) == TotalCalories(front)
    ensures Sum(DateTotals(front + [m], Dedup(Dates(front + [m])))) == TotalCalories(front + [m])
  {
    DatesSnoc(front, m);
    DedupSnoc(Dates(front), m.date);
    TotalCaloriesAppend(front, [m]);
    assert TotalCalories([m]) == Calories(m);
    if m.date in Dedup(Dates(front)) {
      DateTotalsSnocMeal(front, m, Dedup(Dates(front)));
    } else {
      ValuesSumNewDate(front, m);
    }
  }

  /** An entry on a date not seen before adds a key whose total is that entry's calories. */
  lemma ValuesSumNewDate(front: seq<MealEntry>, m: MealEntry)
    requires m.date !in Dedup(Dates(front))
    ensures Sum(DateTotals(front + [m], Dedup(Dates(front)) + [m.date]))
         == Sum(DateTotals(front, Dedup(Dates(front)))) + Calories(m)
  {
    var keys := Dedup(Dates(front));
    DateTotalsSnocMeal(front, m, keys + [m.date]);
    DateTotalsSnocKey(front, keys, m.date);
    OnDateOfAbsent(front, m.date);
  }

  /** JavaScript `Math.round(a / n)` for integers, `n > 0`: the nearest integer, halves rounded up. */
  function RoundDiv(a: int, n: int): (r: int)
    requires n > 0
    ensures 2 * r * n - n <= 2 * a < 2 * r * n + n
  {
    var q := (2 * a + n) / (2 * n);
    assert (2 * n) * q <= 2 * a + n < (2 * n) * q + 2 * n;
    q
  }

  /**
   * `getWeeklyAverage`: 0 for an empty week, otherwise the mean of the per-date
   * totals rounded to the nearest integer.
   */
  function WeeklyAverage(values: seq<int>): (avg: int)
    ensures values == [] ==> avg == 0
    ensures values != [] ==> 2 * avg * |values| - |values| <= 2 * Sum(values) < 2 * avg * |values| + |values|
  {
    if values == [] then 0 else RoundDiv(Sum(values), |values|)
  }

  /** A sum of `n` values between `lo` and `hi` lies between `n * lo` and `n * hi`. */
  lemma {:induction false} SumWithin(values: seq<int>, lo: int, hi: int)
    requires forall k :: 0 <= k < |values| ==> lo <= values[k] <= hi
    ensures |values| * lo <= Sum(values) <= |values| * hi
  {
    if values != [] {
      SumWithin(values[1..], lo, hi);
    }
  }

  /** Multiplying by a non-negative number keeps the order. */
  lemma MulMonotone(a: int, b: int, n: int)
    requires a <= b && n >= 0
    ensures a * n <= b * n
  {
    assert b * n == a * n + (b - a) * n;
  }

  /** A mean rounded to the nearest integer is no larger than a bound of the values. */
  lemma RoundedMeanAtMost(avg: int, n: int, total: int, hi: int)
    requires n > 0 && 2 * avg * n - n <= 2 * total && total <= n * hi
    ensures avg <= hi
  {
    if avg > hi {
      MulMonotone(hi + 1, avg, n);
      assert false;
    }
  }

  /** A mean rounded to the nearest integer is no smaller than a bound of the values. */
  lemma RoundedMeanAtLeast(avg: int, n: int, total: int, lo: int)
    requires n > 0 && 2 * total < 2 * avg * n + n && n * lo <= total
    ensures lo <= avg
  {
    if avg < lo {
      MulMonotone(avg, lo - 1, n);
      assert false;
    }
  }

  /** The weekly average lies between the smallest and the largest daily total. */
  lemma WeeklyAverageWithin(values: seq<int>, lo: int, hi: int)
    requires values != []
    requires forall k :: 0 <= k < |values| ==> lo <= values[k] <= hi
    ensures lo <= WeeklyAverage(values) <= hi
  {
    SumWithin(values, lo, hi);
    RoundedMeanAtMost(WeeklyAverage(values), |values|, Sum(values), hi);
    RoundedMeanAtLeast(WeeklyAverage(values), |values|, Sum(values), lo);
  }

  /** Two days of 2000 and 1800 calories average 1900; an empty week averages 0. */
  lemma WeeklyAverageExample()
    ensures WeeklyAverage([2000, 1800]) == 1900
    ensures WeeklyAverage([]) == 0
  {
    assert Sum([2000, 1800]) == 3800;
  }

  /** The date of every entry inside the window is among the dates the week query returns. */
  lemma WindowDatesCollected(meals: seq<MealEntry>, selected: Day)
    ensures forall k :: 0 <= k < |meals| && WeekStart(selected) <= meals[k].date <= WeekEnd(selected)
              ==> meals[k].date in Dates(InWeekOf(meals, selected))
  {
    var week := InWeekOf(meals, selected);
    forall k | 0 <= k < |meals| && WeekStart(selected) <= meals[k].date <= WeekEnd(selected)
      ensures meals[k].date in Dates(week)
    {
      assert meals[k] in week;
      var j :| 0 <= j < |week| && week[j] == meals[k];
      assert Dates(week)[j] == meals[k].date;
    }
  }

  /** Every date the week query returns lies in the window. */
  lemma CollectedDatesInWindow(meals: seq<MealEntry>, selected: Day)
    ensures forall d :: d in Dates(InWeekOf(meals, selected)) ==> WeekStart(selected) <= d <= WeekEnd(selected)
  {
    var week := InWeekOf(meals, selected);
    forall d | d in Dates(week)
      ensures WeekStart(selected) <= d <= WeekEnd(selected)
    {
      var j :| 0 <= j < |Dates(week)| && Dates(week)[j] == d;
      assert week[j] in week;
    }
  }

  /**
   * The weekly route: the entries in the window of `selected`, grouped by date.
   * The keys are exactly the dates of the entries in the window, so a date
   * without entries is absent rather than mapped to 0.
   */
  method WeeklyNutrition(meals: seq<MealEntry>, selected: Day) returns (keys: seq<Day>, totals: map<Day, int>)
    ensures keys == Dedup(Dates(InWeekOf(meals, selected)))
    ensures forall d :: d in totals <==> d in Dates(InWeekOf(meals, selected))
    ensures forall d :: d in keys <==> d in totals
    ensures forall d :: d in totals ==> WeekStart(selected) <= d <= WeekEnd(selected)
    ensures forall d :: d in totals ==> totals[d] == TotalCalories(OnDate(InWeekOf(meals, selected), d))
    ensures forall k :: 0 <= k < |meals| && WeekStart(selected) <= meals[k].date <= WeekEnd(selected)
              ==> meals[k].date in totals
    ensures forall k :: 0 <= k < |keys| ==> keys[k] in totals
    ensures Sum(ObjectValues(keys, totals)) == TotalCalories(InWeekOf(meals, selected))
  {
    var week := InWeekOf(meals, selected);
    keys, totals := GroupByDate(week);
    WindowDatesCollected(meals, selected);
    CollectedDatesInWindow(meals, selected);
    WeeklyValuesSum(week);
  }
}
