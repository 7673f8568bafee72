/** What components/MealCard.tsx derives from a meal: the "days ago"
    badge, the vote badge, the tags shown for a tier and the guard on the
    add button. Sizes, colours and layout are not modelled. */
module MealCard {
  import opened Types
  import opened Text
  import opened Utils
  import App
  import MealsHook

  /** `Math.floor((now - lastCooked) / 86400000)`; the divisor is positive,
      so Dafny's division is the floor. A timestamp in the future gives a
      negative count, as the label expression at line 90
      of MealCard.tsx does. */
  function DaysAgo(now: int, lastCooked: int): (n: int)
    ensures n * DayMs <= now - lastCooked < (n + 1) * DayMs
  {
    (now - lastCooked) / DayMs
  }

  /** A meal cooked a whole number of days ago shows that number. */
  lemma DaysAgoWholeDays(now: int, k: int)
    ensures DaysAgo(now, now - k * DayMs) == k
  {
    var n := DaysAgo(now, now - k * DayMs);
    assert (n - k) * DayMs <= 0 < (n - k + 1) * DayMs;
  }

  /** The badge text: "Never" for a meal never cooked, else the whole days
      since it was. */
  function DaysAgoLabel(now: int, lastCooked: int): (r: string)
    ensures r == "Never" <==> lastCooked == 0
    ensures lastCooked != 0 ==> r == IntToString(DaysAgo(now, lastCooked)) + "d ago"
  {
    if lastCooked == 0 then "Never" else IntToString(DaysAgo(now, lastCooked)) + "d ago"
  }

  /** The vote badge: shown, with the stored count, exactly when the count
      read with absent as zero is positive. */
  function VoteBadge(m: Meal): (r: Option<int>)
    ensures r.Some? <==> VotesOf(m) > 0
    ensures r.Some? ==> m.votes == Some(r.value) && r.value > 0
  {
    if VotesOf(m) > 0 then m.votes else None
  }

  /** After a confirmed clear of the week no card shows a vote badge; after
      a vote, every picked meal whose count was not negative shows one. */
  lemma VoteBadgeAfterResetAndVote(ms: seq<Meal>, selected: seq<Meal>)
    ensures forall i :: 0 <= i < |ms| ==> VoteBadge(MealsHook.ResetVotes(ms)[i]).None?
    ensures forall i :: 0 <= i < |ms| && ms[i].id in Ids(selected) && VotesOf(ms[i]) >= 0 ==>
              VoteBadge(App.AddVotes(ms, selected)[i]).Some?
  {
    MealsHook.ResetVotesZero(ms);
  }

  /** `tier !== 'low' && meal.tags && meal.tags.slice(0, 2)`. */
  function VisibleTags(m: Meal, tier: Tier): (r: seq<string>)
    ensures |r| <= 2
    ensures r <= OrEmpty(m.tags)
    ensures tier == Low ==> r == []
    ensures tier != Low && |OrEmpty(m.tags)| >= 2 ==> |r| == 2
    ensures tier != Low && |OrEmpty(m.tags)| < 2 ==> r == OrEmpty(m.tags)
  {
    if tier == Low || m.tags.None? then []
    else m.tags.value[..if |m.tags.value| < 2 then |m.tags.value| else 2]
  }

  /** The meal handed to `onAdd` by a click on the add button
      (`!disabled && onAdd(meal)`): none when the button is disabled. */
  function AddClick(m: Meal, disabled: bool): (r: Option<Meal>)
    ensures r.Some? <==> !disabled
    ensures r.Some? ==> r.value == m
  {
    if disabled then None else Some(m)
  }
}
