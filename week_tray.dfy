/** What components/WeekTray.tsx shows of the plan: how many days hold a
    meal, and for each day its meals, the first of them, the stack of at
    most three pictures, the "+N more" note and the remove buttons. The
    progress bar's percentage is not modelled. */
module WeekTray {
  import opened Types
  import ShopList

  /** `slots.filter(s => s.mealIds && s.mealIds.length > 0).length`. */
  function FilledDays(slots: seq<DaySlot>): (r: nat)
    ensures r <= |slots|
    ensures r == 0 <==> forall d :: 0 <= d < |slots| ==> slots[d].mealIds == []
    ensures r == |slots| <==> forall d :: 0 <= d < |slots| ==> slots[d].mealIds != []
  {
    if slots == [] then 0
    else
      var rest := FilledDays(slots[1..]);
      assert forall d :: 1 <= d < |slots| ==> slots[d] == slots[1..][d - 1];
      (if slots[0].mealIds != [] then 1 else 0) + rest
  }

  /** The count adds up day by day: a week's filled days are those of its
      first part plus those of the rest (and one day counts one exactly when
      it holds a meal, by the extreme cases). */
  lemma {:induction false} FilledDaysAppend(a: seq<DaySlot>, b: seq<DaySlot>)
    ensures FilledDays(a + b) == FilledDays(a) + FilledDays(b)
  {
    if a == [] {
      assert a + b == b;
    } else {
      assert (a + b)[1..] == a[1..] + b;
      FilledDaysAppend(a[1..], b);
    }
  }

  /** The cap on stacked pictures. */
  const StackSize: nat := 3

  /** The view of one day at position `dayIndex`. */
  datatype DayView = DayView(
    dayLabel: string,
    dayMeals: seq<Meal>,
    primary: Option<Meal>,
    extraCount: int,
    stack: seq<Meal>,
    showsMore: bool,
    removeTargets: seq<(nat, string)>)

  /** One day of the tray: `dayMeals` resolves the day's ids, the primary
      meal is the first of them and `extraCount` counts the others
      (`-1` for an empty day, as `length - 1` gives); the stack is the first
      three; "+N more" appears for a day with more than one meal; every
      stacked picture carries a remove button for that day and that meal,
      except in shopping mode. */
  function DayViewOf(slot: DaySlot, dayIndex: nat, meals: seq<Meal>, isShopMode: bool): (v: DayView)
    ensures v.dayMeals == Resolve(slot.mealIds, meals)
    ensures v.primary.None? <==> v.dayMeals == []
    ensures v.primary.Some? ==> v.primary.value == v.dayMeals[0]
    ensures v.extraCount == |v.dayMeals| - 1
    ensures |v.stack| <= StackSize && v.stack <= v.dayMeals
    ensures |v.dayMeals| <= StackSize ==> v.stack == v.dayMeals
    ensures |v.dayMeals| > StackSize ==> v.stack == v.dayMeals[..StackSize]
    ensures v.showsMore <==> v.extraCount > 0
    ensures isShopMode ==> v.removeTargets == []
    ensures !isShopMode ==> |v.removeTargets| == |v.stack|
    ensures !isShopMode ==> forall k :: 0 <= k < |v.stack| ==> v.removeTargets[k] == (dayIndex, v.stack[k].id)
  {
    var dayMeals := Resolve(slot.mealIds, meals);
    var hasMeals := |dayMeals| > 0;
    var stack := if hasMeals then dayMeals[..if |dayMeals| < StackSize then |dayMeals| else StackSize] else [];
    DayView(slot.dayLabel, dayMeals,
            if hasMeals then Some(dayMeals[0]) else None,
            |dayMeals| - 1,
            stack,
            hasMeals && |dayMeals| - 1 > 0,
            if isShopMode then [] else seq(|stack|, k requires 0 <= k < |stack| => (dayIndex, stack[k].id)))
  }

  /** `slots.map((slot, dayIndex) => ...)`. */
  function TrayView(slots: seq<DaySlot>, meals: seq<Meal>, isShopMode: bool): (r: seq<DayView>)
    ensures |r| == |slots|
    ensures forall d :: 0 <= d < |slots| ==> r[d] == DayViewOf(slots[d], d, meals, isShopMode)
  {
    seq(|slots|, d requires 0 <= d < |slots| => DayViewOf(slots[d], d, meals, isShopMode))
  }

  /** When every id of a day refers to a meal, the day shows one meal per
      id, its primary meal is the first id's, and "+N more" counts the ids
      after the first. */
  lemma DayViewAllPresent(slot: DaySlot, dayIndex: nat, meals: seq<Meal>, isShopMode: bool)
    requires forall id :: id in slot.mealIds ==> id in Ids(meals)
    ensures var v := DayViewOf(slot, dayIndex, meals, isShopMode);
      && |v.dayMeals| == |slot.mealIds|
      && (slot.mealIds != [] ==> v.primary.Some? && v.primary.value.id == slot.mealIds[0])
      && v.extraCount == |slot.mealIds| - 1
  {
    ResolveAllPresent(slot.mealIds, meals);
  }

  /** The days' meals, one day after another. */
  function TrayMeals(views: seq<DayView>): seq<Meal> {
    if views == [] then [] else views[0].dayMeals + TrayMeals(views[1..])
  }

  /** The tray and the shopping checklist see the same meals: the days'
      meals laid end to end are the checklist's active meals. */
  lemma {:induction false} TrayMatchesChecklist(slots: seq<DaySlot>, meals: seq<Meal>, isShopMode: bool)
    ensures TrayMeals(TrayView(slots, meals, isShopMode)) == ShopList.ActiveMeals(slots, meals)
  {
    ShopList.ActiveMealsByDay(slots, meals);
    TrayMealsByDay(TrayView(slots, meals, isShopMode), slots, meals);
  }

  /** Views whose days' meals resolve the days' ids, laid end to end, are
      the resolved days in turn. */
  lemma {:induction false} TrayMealsByDay(views: seq<DayView>, slots: seq<DaySlot>, meals: seq<Meal>)
    requires |views| == |slots|
    requires forall d :: 0 <= d < |slots| ==> views[d].dayMeals == Resolve(slots[d].mealIds, meals)
    ensures TrayMeals(views) == ShopList.ByDay(slots, meals)
  {
    if slots != [] {
      TrayMealsByDay(views[1..], slots[1..], meals);
    }
  }
}
