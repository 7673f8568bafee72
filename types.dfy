/** The records of the meal planner: a meal, a day of the week plan, and the
    enumerations they use. Optional fields of the TypeScript interfaces are
    `Option`s; `undefined` and `null` are both `None`. */
module Types {

  datatype Option<+T> = None | Some(value: T)

  datatype Effort = Easy | Medium | Hard

  datatype Tier = High | MediumTier | Low

  datatype SourceType = Url | Image | Ai | Manual

  /** A recipe. `lastCooked` is a timestamp in milliseconds, `0` meaning "never". */
  datatype Meal = Meal(
    id: string,
    title: string,
    lastCooked: int,
    image: string,
    effort: Effort,
    protein: string,
    keywords: seq<string>,
    description: Option<string>,
    ingredients: Option<seq<string>>,
    methodSteps: Option<seq<string>>,   // `method`
    thermomixMethod: Option<seq<string>>,
    sourceUrl: Option<string>,
    tags: Option<seq<string>>,
    sourceType: Option<SourceType>,
    sourceImage: Option<string>,
    votes: Option<int>)

  /** One day of the week plan, holding weak references to meals by id. */
  datatype DaySlot = DaySlot(dayLabel: string, mealIds: seq<string>)

  /** The day labels, Monday first. */
  const Days: seq<string> := ["M", "T", "W", "T", "F", "S", "S"]

  /** `meal.votes || 0`: an absent vote count reads as zero. */
  function VotesOf(m: Meal): int {
    match m.votes
    case Some(v) => v
    case None => 0
  }

  /** `list || []` for an optional list. */
  function OrEmpty<T>(o: Option<seq<T>>): seq<T> {
    match o
    case Some(xs) => xs
    case None => []
  }

  /** The ids of a list of meals, in order (`meals.map(m => m.id)`). */
  function Ids(ms: seq<Meal>): (r: seq<string>)
    ensures |r| == |ms|
    ensures forall i :: 0 <= i < |ms| ==> r[i] == ms[i].id
  {
    if ms == [] then [] else [ms[0].id] + Ids(ms[1..])
  }

  /** `meals.find(m => m.id === id)`: the first meal with that id. */
  function Find(ms: seq<Meal>, id: string): (r: Option<Meal>)
    ensures r.None? <==> id !in Ids(ms)
    ensures r.Some? ==> r.value in ms && r.value.id == id
    ensures r.Some? ==> exists k :: 0 <= k < |ms| && ms[k] == r.value && forall j :: 0 <= j < k ==> ms[j].id != id
  {
    if ms == [] then None
    else if ms[0].id == id then Some(ms[0])
    else
      var t := Find(ms[1..], id);
      assert t.Some? ==> exists k :: 1 <= k < |ms| && ms[k] == t.value && forall j :: 0 <= j < k ==> ms[j].id != id by {
        if t.Some? {
          var k :| 0 <= k < |ms[1..]| && ms[1..][k] == t.value && forall j :: 0 <= j < k ==> ms[1..][j].id != id;
          assert forall j :: 0 <= j < k + 1 ==> ms[j].id != id by {
            forall j | 0 <= j < k + 1 ensures ms[j].id != id {
              if j > 0 { assert ms[j] == ms[1..][j - 1]; }
            }
          }
        }
      }
      t
  }

  /** `ids.map(id => meals.find(...)).filter(m => !!m)`: the meals the ids
      refer to, in order, dangling ids dropped. */
  function Resolve(ids: seq<string>, ms: seq<Meal>): (r: seq<Meal>)
    ensures |r| <= |ids|
    ensures forall m :: m in r ==> m in ms && m.id in ids
  {
    if ids == [] then []
    else
      match Find(ms, ids[0])
      case Some(m) => [m] + Resolve(ids[1..], ms)
      case None => Resolve(ids[1..], ms)
  }

  /** When every id refers to a meal, resolution drops nothing and keeps the order. */
  lemma {:induction false} ResolveAllPresent(ids: seq<string>, ms: seq<Meal>)
    requires forall id :: id in ids ==> id in Ids(ms)
    ensures |Resolve(ids, ms)| == |ids|
    ensures forall j :: 0 <= j < |ids| ==> Resolve(ids, ms)[j].id == ids[j]
    ensures forall j :: 0 <= j < |ids| ==> Find(ms, ids[j]) == Some(Resolve(ids, ms)[j])
  {
    if ids != [] {
      ResolveAllPresent(ids[1..], ms);
    }
  }

  /** Ids that refer to no meal resolve to nothing. */
  lemma {:induction false} ResolveAllDangling(ids: seq<string>, ms: seq<Meal>)
    requires forall id :: id in ids ==> id !in Ids(ms)
    ensures Resolve(ids, ms) == []
  {
    if ids != [] {
      ResolveAllDangling(ids[1..], ms);
    }
  }

  /** Resolution distributes over concatenation of the id lists. */
  lemma {:induction false} ResolveAppend(a: seq<string>, b: seq<string>, ms: seq<Meal>)
    ensures Resolve(a + b, ms) == Resolve(a, ms) + Resolve(b, ms)
  {
    if a != [] {
      assert (a + b)[1..] == a[1..] + b;
      ResolveAppend(a[1..], b, ms);
    } else {
      assert a + b == b;
    }
  }
}
