/** The example library of constants.ts, computed from the clock reading
    `now` taken when the module loads. Each entry of the `INITIAL_MEALS` array
    is a row of `SeedRows`; `InitialMeals(now)` turns the rows into meals. */
module Constants {
  import opened Types
  import opened Text
  import opened Utils

  /** `getImg`: an image-search address for a photo query. */
  function SeedImage(query: string): string {
    "https://tse2.mm.bing.net/th?q=" + EncodeUriComponent(query + " food photography")
    + "&w=800&h=600&c=7&rs=1&p=0"
  }

  /** The literal fields of one example meal; `daysAgo` is the whole number
      of days before `now` it was last cooked, `query` the photo query. */
  datatype SeedRow = SeedRow(id: string, title: string, daysAgo: nat, query: string, effort: Effort,
                             protein: string, keywords: seq<string>, source: SourceType,
                             url: Option<string>, tags: seq<string>, votes: int)

  /** The entries of `INITIAL_MEALS`, in order. */
  const SeedRows: seq<SeedRow> := [
    // High rotation (last 14 days)
    SeedRow("1", "Taco Tuesday", 2, "beef tacos lime cilantro", Easy, "Beef",
            ["mexican", "beef", "tacos"], Manual, None, ["Family Fav", "Mexican"], 15),
    SeedRow("2", "Spaghetti Bolognese", 5, "spaghetti bolognese parmesan", Medium, "Beef",
            ["pasta", "italian", "beef"], Manual, None, ["Pasta", "Italian", "Comfort"], 12),
    SeedRow("3", "Grilled Salmon & Veg", 10, "grilled salmon roasted vegetables", Easy, "Fish",
            ["healthy", "fish"], Ai, None, ["Healthy", "Low Carb", "BBQ"], 5),
    // Medium rotation (14 - 60 days)
    SeedRow("4", "Chicken Curry", 20, "chicken curry rice naan", Medium, "Chicken",
            ["spicy", "indian", "rice"], Url, Some("https://www.bbcgoodfood.com/recipes/chicken-curry"),
            ["Spicy", "Rice", "Indian"], 8),
    SeedRow("5", "Homemade Pizza", 25, "homemade margherita pizza basil", Hard, "Vegetarian",
            ["italian", "cheese"], Manual, None, ["Weekend Project", "Kids"], 20),
    SeedRow("6", "Stir Fry Noodles", 30, "pork stir fry noodles vegetables", Easy, "Pork",
            ["asian", "quick"], Manual, None, ["Asian", "Noodles", "Quick"], 6),
    SeedRow("7", "Burger Night", 45, "gourmet cheeseburger fries", Medium, "Beef",
            ["american", "grill"], Manual, None, ["American", "BBQ"], 18),
    // Low rotation (more than 60 days)
    SeedRow("8", "Shepherd\U{2019}s Pie", 70, "shepherds pie casserole", Hard, "Lamb",
            ["winter", "comfort"], Manual, None, ["Winter", "Casserole"], 3),
    SeedRow("9", "Fish Tacos", 90, "baja fish tacos cabbage", Medium, "Fish",
            ["summer", "mexican"], Ai, None, ["Summer", "Tacos"], 7),
    SeedRow("10", "Beef Stew", 100, "beef stew bowl carrots potatoes", Hard, "Beef",
            ["slowcooker", "winter"], Manual, None, ["Slow Cooker", "Winter"], 2),
    SeedRow("11", "Caesar Salad", 65, "chicken caesar salad", Easy, "Chicken",
            ["light", "healthy"], Manual, None, ["Salad", "Light"], 4),
    SeedRow("12", "Risotto", 120, "mushroom risotto", Hard, "Vegetarian",
            ["italian", "rice"], Manual, None, ["Italian", "Rice"], 5)
  ]

  /** One example meal as the literal builds it: cooked `daysAgo` days
      before `now`, with its photo, no description, ingredients or steps,
      and no recipe scan. */
  function Seed(now: int, row: SeedRow): (m: Meal)
    ensures m.id == row.id && m.title == row.title && m.votes == Some(row.votes)
    ensures m.lastCooked == now - row.daysAgo * DayMs
  {
    Meal(row.id, row.title, now - row.daysAgo * DayMs, SeedImage(row.query), row.effort, row.protein,
         row.keywords, None, None, None, None, row.url, Some(row.tags), Some(row.source), None,
         Some(row.votes))
  }

  /** The meals of a list of rows, in order. */
  function MealsOf(now: int, rows: seq<SeedRow>): (r: seq<Meal>)
    ensures |r| == |rows|
    ensures forall i :: 0 <= i < |rows| ==> r[i].id == rows[i].id && r[i].votes == Some(rows[i].votes)
    ensures forall i :: 0 <= i < |rows| ==> r[i].lastCooked == now - rows[i].daysAgo * DayMs
    ensures forall i :: 0 <= i < |rows| ==> r[i] == Seed(now, rows[i])
  {
    if rows == [] then [] else [Seed(now, rows[0])] + MealsOf(now, rows[1..])
  }

  /** `INITIAL_MEALS`: the twelve example meals, one per row, in order. */
  function InitialMeals(now: int): (r: seq<Meal>)
    ensures |r| == |SeedRows| == 12
    ensures forall i :: 0 <= i < 12 ==> r[i] == Seed(now, SeedRows[i])
  {
    MealsOf(now, SeedRows)
  }

  /** The ids of the example meals, `INITIAL_MEALS.map(m => m.id)`. */
  const SeedIds: seq<string> := ["1", "2", "3", "4", "5", "6", "7", "8", "9", "10", "11", "12"]

  /** How many days before `now` each example meal was last cooked. */
  const SeedAges: seq<nat> := [2, 5, 10, 20, 25, 30, 45, 70, 90, 100, 65, 120]

  /** The rows, field by field: twelve of them, with the ids "1" to "12" in
      order, the listed ages and positive vote counts. */
  lemma SeedRowsFields()
    ensures |SeedRows| == 12
    ensures forall i :: 0 <= i < 12 ==> SeedRows[i].id == SeedIds[i]
    ensures forall i :: 0 <= i < 12 ==> SeedRows[i].daysAgo == SeedAges[i]
    ensures forall i :: 0 <= i < 12 ==> SeedRows[i].votes > 0
  {
  }

  /** Meals built from the example rows carry their ids, ages and votes. */
  lemma RowFacts(ms: seq<Meal>, rows: seq<SeedRow>, now: int)
    requires |ms| == 12 && |rows| == 12
    requires forall i :: 0 <= i < 12 ==> ms[i].id == rows[i].id && ms[i].votes == Some(rows[i].votes)
    requires forall i :: 0 <= i < 12 ==> ms[i].lastCooked == now - rows[i].daysAgo * DayMs
    requires forall i :: 0 <= i < 12 ==> rows[i].id == SeedIds[i] && rows[i].daysAgo == SeedAges[i]
    requires forall i :: 0 <= i < 12 ==> rows[i].votes > 0
    ensures forall i :: 0 <= i < 12 ==> ms[i].id == SeedIds[i] && ms[i].lastCooked == now - SeedAges[i] * DayMs
    ensures forall i :: 0 <= i < 12 ==> ms[i].votes.Some? && ms[i].votes.value > 0
  {
    forall i | 0 <= i < 12
      ensures ms[i].id == SeedIds[i] && ms[i].lastCooked == now - SeedAges[i] * DayMs
    {
      assert rows[i].daysAgo == SeedAges[i];
    }
  }

  /** Twelve example meals, with the ids "1" to "12" in order, whatever the
      clock reads. */
  lemma InitialMealsIds(now: int)
    ensures |InitialMeals(now)| == 12
    ensures Ids(InitialMeals(now)) == SeedIds
  {
    SeedRowsFields();
    RowFacts(InitialMeals(now), SeedRows, now);
    assert forall i :: 0 <= i < 12 ==> Ids(InitialMeals(now))[i] == SeedIds[i];
  }

  /** The example ids are pairwise distinct. */
  lemma SeedIdsDistinct()
    ensures forall i, j :: 0 <= i < j < |SeedIds| ==> SeedIds[i] != SeedIds[j]
  {
    forall i, j | 0 <= i < j < |SeedIds| ensures SeedIds[i] != SeedIds[j] {
      if |SeedIds[i]| == |SeedIds[j]| {
        assert SeedIds[i][|SeedIds[i]| - 1] != SeedIds[j][|SeedIds[j]| - 1];
      }
    }
  }

  /** Every example meal was last cooked a positive whole number of days
      before `now`, and has a positive vote count. */
  lemma InitialMealsAgesAndVotes(now: int)
    ensures |InitialMeals(now)| == |SeedAges|
    ensures forall i :: 0 <= i < 12 ==>
      SeedAges[i] > 0 && InitialMeals(now)[i].lastCooked == now - SeedAges[i] * DayMs
    ensures forall i :: 0 <= i < 12 ==> InitialMeals(now)[i].votes.Some? && VotesOf(InitialMeals(now)[i]) > 0
  {
    SeedRowsFields();
    RowFacts(InitialMeals(now), SeedRows, now);
  }

  /** A meal cooked `d` whole days before `now` is recent up to fourteen
      days, medium up to sixty and old after. */
  lemma TierOfAge(now: int, d: nat)
    ensures GetTier(now, now - d * DayMs) == (if d <= 14 then High else if d <= 60 then MediumTier else Low)
  {
  }

  /** The example ages fall into the three bands of their sections. */
  lemma AgeTiers(ms: seq<Meal>, now: int)
    requires |ms| == 12
    requires forall i :: 0 <= i < 12 ==> ms[i].lastCooked == now - SeedAges[i] * DayMs
    ensures forall i :: 0 <= i < 3 ==> GetTier(now, ms[i].lastCooked) == High
    ensures forall i :: 3 <= i < 7 ==> GetTier(now, ms[i].lastCooked) == MediumTier
    ensures forall i :: 7 <= i < 12 ==> GetTier(now, ms[i].lastCooked) == Low
  {
    forall i | 0 <= i < 12
      ensures GetTier(now, ms[i].lastCooked)
              == (if SeedAges[i] <= 14 then High else if SeedAges[i] <= 60 then MediumTier else Low)
    {
      TierOfAge(now, SeedAges[i]);
    }
  }

  /** Classified at the moment the library was built, meals 1-3 are recent,
      4-7 medium and 8-12 old, as the section comments of the list say. */
  lemma InitialMealsTiers(now: int)
    ensures |InitialMeals(now)| == 12
    ensures forall i :: 0 <= i < 3 ==> GetTier(now, InitialMeals(now)[i].lastCooked) == High
    ensures forall i :: 3 <= i < 7 ==> GetTier(now, InitialMeals(now)[i].lastCooked) == MediumTier
    ensures forall i :: 7 <= i < 12 ==> GetTier(now, InitialMeals(now)[i].lastCooked) == Low
  {
    InitialMealsAgesAndVotes(now);
    AgeTiers(InitialMeals(now), now);
  }
}
