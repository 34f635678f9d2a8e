/**
 * Shopping-list generation from the meals planned for one date: the
 * `/api/shopping-list/generate` route and the meal planner's
 * "Generate Shopping List" action.
 */
module Generate {
  import opened Wrappers
  import opened Seqs
  import opened Text
  import opened Entities
  import opened Ingredients
  import opened Store

  /** Why generation stops without writing anything. */
  datatype GenerateError =
    | NoMealsPlanned       // the 400 "No meals planned for this date" / the planner's alert
    | IngredientsMissing   // a fetched recipe with null ingredients makes the planner's `split` throw

  /** `ingredient.trim()` for each line: the item texts written to the table. */
  function Trimmed(lines: seq<string>): (r: seq<string>)
    ensures |r| == |lines| && forall k :: 0 <= k < |lines| ==> r[k] == Trim(lines[k])
  {
    if lines == [] then [] else Trimmed(lines[..|lines| - 1]) + [Trim(lines[|lines| - 1])]
  }

  /** The table after the collected lines `all` are deduplicated, trimmed and upserted for `user`. */
  function Generated(t: Table, user: UserId, all: seq<string>): Table {
    UpsertedAll(t, user, Trimmed(Dedup(all)))
  }

  /** Some collected line trims to `x`. */
  predicate TrimsTo(all: seq<string>, x: string) {
    exists l :: l in all && Trim(l) == x
  }

  /**
   * After generation every collected line has a pending row of `user` under
   * its trimmed text; the rows of other users, and of items no line trims to,
   * are as before; the table stays well formed.
   */
  lemma GeneratedLookup(t: Table, user: UserId, all: seq<string>, o: UserId, x: string)
    requires WellFormed(t)
    ensures WellFormed(Generated(t, user, all))
    ensures Lookup(Generated(t, user, all), o, x) == if o == user && TrimsTo(all, x) then Some(false) else Lookup(t, o, x)
  {
    var items := Trimmed(Dedup(all));
    UpsertedAllLookup(t, user, items, o, x);
    if TrimsTo(all, x) {
      var l :| l in all && Trim(l) == x;
      var k :| 0 <= k < |Dedup(all)| && Dedup(all)[k] == l;
      assert items[k] == x;
    }
    if x in items {
      var k :| 0 <= k < |items| && items[k] == x;
      assert Dedup(all)[k] in all;
    }
  }

  /** An item text no collected line trims to is not among the generated items. */
  lemma NotTrimmedNotItem(all: seq<string>, x: string)
    requires !TrimsTo(all, x)
    ensures x !in Trimmed(Dedup(all))
  {
    var items := Trimmed(Dedup(all));
    forall k | 0 <= k < |items|
      ensures items[k] != x
    {
      assert Dedup(all)[k] in all;
    }
  }

  /** Generation keeps every row of another user, or of an item no collected line trims to. */
  lemma GeneratedKeepsRows(t: Table, user: UserId, all: seq<string>, r: ItemRow)
    requires r in t.rows && !(r.owner == user && TrimsTo(all, r.data.text))
    ensures r in Generated(t, user, all).rows
  {
    if r.owner == user {
      NotTrimmedNotItem(all, r.data.text);
    }
    UpsertedAllKeepsRows(t, user, Trimmed(Dedup(all)), r);
  }

  /** Generating a second time from the same plan leaves the table as the first generation left it. */
  lemma GenerateIdempotent(t: Table, user: UserId, all: seq<string>)
    requires WellFormed(t)
    ensures Generated(Generated(t, user, all), user, all) == Generated(t, user, all)
  {
    UpsertedAllIdempotent(t, user, Trimmed(Dedup(all)));
  }

  /** Deduplication never makes a sequence longer. */
  lemma {:induction false} DedupNoLonger<T(!new)>(s: seq<T>)
    ensures |Dedup(s)| <= |s|
  {
    if s != [] {
      DedupNoLonger(s[..|s| - 1]);
    }
  }

  /**
   * The reported count is the number of distinct untrimmed lines: it is never
   * below the number of distinct item texts written, and can be above it.
   */
  lemma ReportedCountBound(all: seq<string>)
    ensures |Dedup(Trimmed(Dedup(all)))| <= |Dedup(all)|
  {
    DedupNoLonger(Trimmed(Dedup(all)));
  }

  /**
   * Two different lines with the same trim count as two in the reported
   * number but become a single item.
   */
  lemma DistinctLinesOneItem(a: string, b: string)
    requires a != b && Trim(a) == Trim(b)
    ensures |Dedup([a, b])| == 2
    ensures Trimmed(Dedup([a, b])) == [Trim(a), Trim(a)]
    ensures |Dedup(Trimmed(Dedup([a, b])))| == 1
  {
    DedupPair(a, b);
    TrimmedPair(a, b);
    DedupPair(Trim(a), Trim(a));
  }

  /** The item texts of two lines. */
  lemma TrimmedPair(a: string, b: string)
    ensures Trimmed([a, b]) == [Trim(a), Trim(b)]
  {
    assert [a, b][..1] == [a];
  }

  /** `" eggs"` and `"eggs"` are two different lines with the same trim. */
  lemma SpacedEggs()
    ensures " eggs" != "eggs" && Trim(" eggs") == Trim("eggs")
  {
    var e := "eggs";
    assert " eggs" == [' '] + e;
    assert |[' '] + e| != |e|;
    TrimLeadingWhitespace(' ', e);
  }

  /**
   * The generate route. With no meal plans for the date it answers 400 and
   * writes nothing; otherwise it upserts one pending row per distinct line,
   * under the trimmed text, in one batch, and reports the number of distinct
   * untrimmed lines.
   */
  method GenerateOnServer(store: ShoppingStore, user: UserId, mealPlans: seq<MealEntry>)
    returns (r: Result<nat, GenerateError>)
    requires store.Valid()
    modifies store
    ensures store.Valid()
    ensures r.Err? <==> mealPlans == []
    ensures r.Err? ==> r.error == NoMealsPlanned && store.Snapshot() == old(store.Snapshot())
    ensures r.Ok? ==> r.value == |Dedup(PlanLines(mealPlans))|
    ensures r.Ok? ==> store.Snapshot() == Generated(old(store.Snapshot()), user, PlanLines(mealPlans))
  {
    if |mealPlans| == 0 {
      return Err(NoMealsPlanned);
    }
    var all := CollectPlanLines(mealPlans);
    var unique := Dedup(all);
    var items := Trimmed(unique);
    store.UpsertBatch(user, items);
    r := Ok(|unique|);
  }

  /** Upserting one more trimmed line extends the run of upserts by that line. */
  lemma PlannerStep(t: Table, user: UserId, unique: seq<string>, k: nat)
    requires k < |unique|
    ensures UpsertedAll(t, user, Trimmed(unique[..k + 1]))
         == Upserted(UpsertedAll(t, user, Trimmed(unique[..k])), user, Trim(unique[k]))
  {
    assert unique[..k + 1][..k] == unique[..k];
    assert Trimmed(unique[..k + 1])[..k] == Trimmed(unique[..k]);
  }

  /**
   * The meal planner's generation. With no meals planned it alerts and stops
   * before any read or write; when a fetched recipe has null ingredients the
   * extraction throws and nothing is written; otherwise it upserts the
   * distinct lines one at a time, trimmed, and reports their number.
   */
  method GenerateInPlanner(store: ShoppingStore, user: UserId, mealPlans: seq<MealEntry>, fetched: seq<Recipe>)
    returns (r: Result<nat, GenerateError>)
    requires store.Valid()
    modifies store
    ensures store.Valid()
    ensures mealPlans == [] ==> r == Err(NoMealsPlanned)
    ensures mealPlans != [] && RecipeLines(fetched).None? ==> r == Err(IngredientsMissing)
    ensures r.Err? ==> store.Snapshot() == old(store.Snapshot())
    ensures mealPlans != [] && RecipeLines(fetched).Some? ==>
              && r == Ok(|Dedup(RecipeLines(fetched).value)|)
              && store.Snapshot() == Generated(old(store.Snapshot()), user, RecipeLines(fetched).value)
  {
    if |mealPlans| == 0 {
      return Err(NoMealsPlanned);
    }
    var all := CollectRecipeLines(fetched);
    if all.None? {
      return Err(IngredientsMissing);
    }
    var unique := Dedup(all.value);
    for k := 0 to |unique|
      invariant store.Valid()
      invariant store.Snapshot() == UpsertedAll(old(store.Snapshot()), user, Trimmed(unique[..k]))
    {
      PlannerStep(old(store.Snapshot()), user, unique, k);
      store.Upsert(user, Trim(unique[k]));
    }
    assert unique[..|unique|] == unique;
    r := Ok(|unique|);
  }
}
