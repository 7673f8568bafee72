/** The shopping checklist of components/ShopList.tsx: the meals of the
    week resolved from the plan, one item per ingredient, and the split of
    the items into the meals still to shop for and the items already
    checked. */
module ShopList {
  import opened Types
  import opened Text

  /** A line of the checklist; `id` is `mealId-index`. */
  datatype Item = Item(id: string, text: string, mealTitle: string, mealId: string, index: nat)

  /** An entry of the to-buy list: a meal and its unchecked items. */
  datatype Group = Group(meal: Meal, items: seq<Item>)

  /** `slots.flatMap(slot => slot.mealIds)`. */
  function WeekIds(slots: seq<DaySlot>): (r: seq<string>)
    ensures forall id :: id in r <==> exists d :: 0 <= d < |slots| && id in slots[d].mealIds
  {
    if slots == [] then []
    else
      var rest := WeekIds(slots[1..]);
      assert forall id :: id in rest <==> exists d :: 1 <= d < |slots| && id in slots[d].mealIds by {
        forall id ensures id in rest <==> exists d :: 1 <= d < |slots| && id in slots[d].mealIds {
          if id in rest {
            var d :| 0 <= d < |slots[1..]| && id in slots[1..][d].mealIds;
            assert id in slots[d + 1].mealIds;
          }
          if exists d :: 1 <= d < |slots| && id in slots[d].mealIds {
            var d :| 1 <= d < |slots| && id in slots[d].mealIds;
            assert id in slots[1..][d - 1].mealIds;
          }
        }
      }
      slots[0].mealIds + rest
  }

  /** `activeMeals`: the week's ids in day order, resolved, dangling ones
      dropped. */
  function ActiveMeals(slots: seq<DaySlot>, meals: seq<Meal>): (r: seq<Meal>)
    ensures |r| <= |WeekIds(slots)|
    ensures forall m :: m in r ==> m in meals && m.id in WeekIds(slots)
  {
    Resolve(WeekIds(slots), meals)
  }

  /** The meals of each day, resolved one day at a time and laid end to end. */
  function ByDay(slots: seq<DaySlot>, meals: seq<Meal>): seq<Meal> {
    if slots == [] then [] else Resolve(slots[0].mealIds, meals) + ByDay(slots[1..], meals)
  }

  /** Resolving the flattened week is resolving each day in turn. */
  lemma {:induction false} ActiveMealsByDay(slots: seq<DaySlot>, meals: seq<Meal>)
    ensures ActiveMeals(slots, meals) == ByDay(slots, meals)
  {
    if slots != [] {
      ResolveAppend(slots[0].mealIds, WeekIds(slots[1..]), meals);
      ActiveMealsByDay(slots[1..], meals);
    }
  }

  /** An id list resolves to nothing exactly when every id in it dangles. */
  lemma {:induction false} ResolveEmptyIff(ids: seq<string>, meals: seq<Meal>)
    ensures Resolve(ids, meals) == [] <==> forall id :: id in ids ==> id !in Ids(meals)
  {
    if ids != [] {
      ResolveEmptyIff(ids[1..], meals);
      assert forall id :: id in ids <==> id == ids[0] || id in ids[1..];
    }
  }

  /** The empty view is shown exactly when no id of the week refers to a
      meal of the library; in particular for a week with no ids. */
  lemma EmptyViewIff(slots: seq<DaySlot>, meals: seq<Meal>)
    ensures ActiveMeals(slots, meals) == [] <==>
      forall d, id :: 0 <= d < |slots| && id in slots[d].mealIds ==> id !in Ids(meals)
  {
    ResolveEmptyIff(WeekIds(slots), meals);
  }

  /** The texts of a meal's items: its ingredients, or its title when it
      has none. */
  function RawItems(m: Meal): (r: seq<string>)
    ensures |r| > 0
    ensures m.ingredients.Some? && |m.ingredients.value| > 0 ==> r == m.ingredients.value
    ensures !(m.ingredients.Some? && |m.ingredients.value| > 0) ==> r == [m.title]
  {
    if m.ingredients.Some? && |m.ingredients.value| > 0 then m.ingredients.value else [m.title]
  }

  /** `${meal.id}-${index}`. */
  function ItemId(m: Meal, k: nat): (r: string)
    ensures |r| == |m.id| + 1 + |NatToString(k)|
    ensures r[..|m.id|] == m.id && r[|m.id|] == '-' && r[|m.id| + 1..] == NatToString(k)
  {
    m.id + "-" + NatToString(k)
  }

  /** Item ids identify the meal and the position: two items with the same
      id belong to meals with the same id and sit at the same index,
      whatever characters the meal ids contain. */
  lemma ItemIdInjective(m1: Meal, k1: nat, m2: Meal, k2: nat)
    requires ItemId(m1, k1) == ItemId(m2, k2)
    ensures m1.id == m2.id && k1 == k2
  {
    var s := ItemId(m1, k1);
    var d1, d2 := NatToString(k1), NatToString(k2);
    var a, b := |m1.id|, |m2.id|;
    assert a == b;
    assert m1.id == s[..a] == m2.id;
    assert d1 == s[a + 1..] == d2;
    NatToStringInjective(k1, k2);
  }

  /** The items of a meal, numbered from zero. */
  function ItemsOf(m: Meal): (r: seq<Item>)
    ensures |r| == |RawItems(m)|
    ensures forall k :: 0 <= k < |r| ==>
      r[k] == Item(ItemId(m, k), RawItems(m)[k], m.title, m.id, k)
  {
    var raw := RawItems(m);
    seq(|raw|, k requires 0 <= k < |raw| => Item(ItemId(m, k), raw[k], m.title, m.id, k))
  }

  /** The items whose id is not checked, in order. */
  function Unchecked(xs: seq<Item>, checked: seq<string>): (r: seq<Item>)
    ensures forall it :: it in r <==> it in xs && it.id !in checked
  {
    if xs == [] then []
    else Unchecked(xs[..|xs| - 1], checked) + (if xs[|xs| - 1].id in checked then [] else [xs[|xs| - 1]])
  }

  /** The items whose id is checked, in order. */
  function Checked(xs: seq<Item>, checked: seq<string>): (r: seq<Item>)
    ensures forall it :: it in r <==> it in xs && it.id in checked
  {
    if xs == [] then []
    else Checked(xs[..|xs| - 1], checked) + (if xs[|xs| - 1].id in checked then [xs[|xs| - 1]] else [])
  }

  /** Every item lands in exactly one of the two lists. */
  lemma {:induction false} SplitCounts(xs: seq<Item>, checked: seq<string>)
    ensures |Unchecked(xs, checked)| + |Checked(xs, checked)| == |xs|
  {
    if xs != [] {
      SplitCounts(xs[..|xs| - 1], checked);
    }
  }

  lemma {:induction false} UncheckedAppend(a: seq<Item>, b: seq<Item>, checked: seq<string>)
    ensures Unchecked(a + b, checked) == Unchecked(a, checked) + Unchecked(b, checked)
  {
    if b == [] {
      assert a + b == a;
    } else {
      var b', x := b[..|b| - 1], b[|b| - 1];
      assert (a + b)[..|a + b| - 1] == a + b';
      assert (a + b)[|a + b| - 1] == x;
      UncheckedAppend(a, b', checked);
      var t := if x.id in checked then [] else [x];
      assert Unchecked(a + b, checked) == Unchecked(a + b', checked) + t;
      assert Unchecked(b, checked) == Unchecked(b', checked) + t;
      assert Unchecked(a, checked) + Unchecked(b', checked) + t
          == Unchecked(a, checked) + (Unchecked(b', checked) + t);
    }
  }

  lemma {:induction false} CheckedAppend(a: seq<Item>, b: seq<Item>, checked: seq<string>)
    ensures Checked(a + b, checked) == Checked(a, checked) + Checked(b, checked)
  {
    if b == [] {
      assert a + b == a;
    } else {
      var b', x := b[..|b| - 1], b[|b| - 1];
      assert (a + b)[..|a + b| - 1] == a + b';
      assert (a + b)[|a + b| - 1] == x;
      CheckedAppend(a, b', checked);
      var t := if x.id in checked then [x] else [];
      assert Checked(a + b, checked) == Checked(a + b', checked) + t;
      assert Checked(b, checked) == Checked(b', checked) + t;
      assert Checked(a, checked) + Checked(b', checked) + t
          == Checked(a, checked) + (Checked(b', checked) + t);
    }
  }

  /** The to-buy groups of the meals: one per meal with an unchecked item. */
  function TodoGroups(ms: seq<Meal>, checked: seq<string>): (r: seq<Group>)
    ensures forall g :: g in r ==> g.meal in ms && |g.items| > 0 && g.items == Unchecked(ItemsOf(g.meal), checked)
  {
    if ms == [] then []
    else
      var last := ms[|ms| - 1];
      var todo := Unchecked(ItemsOf(last), checked);
      TodoGroups(ms[..|ms| - 1], checked) + (if |todo| > 0 then [Group(last, todo)] else [])
  }

  /** The done list: the checked items of every meal, meal by meal. */
  function DoneItems(ms: seq<Meal>, checked: seq<string>): seq<Item> {
    if ms == [] then []
    else DoneItems(ms[..|ms| - 1], checked) + Checked(ItemsOf(ms[|ms| - 1]), checked)
  }

  /** All items of the meals, meal by meal. */
  function AllItems(ms: seq<Meal>): seq<Item> {
    if ms == [] then [] else AllItems(ms[..|ms| - 1]) + ItemsOf(ms[|ms| - 1])
  }

  /** The items of the to-buy groups laid end to end. */
  function ToBuy(gs: seq<Group>): seq<Item> {
    if gs == [] then [] else ToBuy(gs[..|gs| - 1]) + gs[|gs| - 1].items
  }

  /** The "to buy" counter: `todoByMeal.reduce((acc, g) => acc + g.items.length, 0)`. */
  function ToBuyCount(gs: seq<Group>): (r: nat)
    ensures r == |ToBuy(gs)|
  {
    if gs == [] then 0 else ToBuyCount(gs[..|gs| - 1]) + |gs[|gs| - 1].items|
  }

  /** The groups hold the unchecked items of all meals in order, and the
      done list the checked ones. */
  lemma {:induction false} SplitOfAll(ms: seq<Meal>, checked: seq<string>)
    ensures ToBuy(TodoGroups(ms, checked)) == Unchecked(AllItems(ms), checked)
    ensures DoneItems(ms, checked) == Checked(AllItems(ms), checked)
  {
    if ms != [] {
      var init, last := ms[..|ms| - 1], ms[|ms| - 1];
      SplitOfAll(init, checked);
      UncheckedAppend(AllItems(init), ItemsOf(last), checked);
      CheckedAppend(AllItems(init), ItemsOf(last), checked);
      var todo := Unchecked(ItemsOf(last), checked);
      var gs := TodoGroups(init, checked);
      if |todo| > 0 {
        assert (gs + [Group(last, todo)])[..|gs|] == gs;
      } else {
        assert gs + [] == gs;
      }
    }
  }

  /** The checklist partition: an item of the week is on the to-buy list
      exactly when its id is not checked and on the done list exactly when
      it is; the counter counts the unchecked items; the to-buy list is
      empty exactly when every item is checked. */
  lemma ShopListPartition(ms: seq<Meal>, checked: seq<string>)
    ensures forall it :: it in AllItems(ms) ==> (it in ToBuy(TodoGroups(ms, checked)) <==> it.id !in checked)
    ensures forall it :: it in AllItems(ms) ==> (it in DoneItems(ms, checked) <==> it.id in checked)
    ensures forall it :: it in ToBuy(TodoGroups(ms, checked)) || it in DoneItems(ms, checked) ==> it in AllItems(ms)
    ensures ToBuyCount(TodoGroups(ms, checked)) + |DoneItems(ms, checked)| == |AllItems(ms)|
    ensures TodoGroups(ms, checked) == [] <==> forall it :: it in AllItems(ms) ==> it.id in checked
  {
    SplitOfAll(ms, checked);
    SplitCounts(AllItems(ms), checked);
    if TodoGroups(ms, checked) != [] {
      var gs := TodoGroups(ms, checked);
      var g := gs[|gs| - 1];
      assert g in gs;
      assert ToBuy(gs) == ToBuy(gs[..|gs| - 1]) + g.items;
      assert g.items[0] in ToBuy(gs);
    }
  }

  /** The inner `forEach` over one meal's items: the unchecked ones, and
      the checked ones in the order they are pushed onto `doneItems`. */
  method SplitMeal(meal: Meal, checkedItems: seq<string>) returns (mealTodo: seq<Item>, mealDone: seq<Item>)
    ensures mealTodo == Unchecked(ItemsOf(meal), checkedItems)
    ensures mealDone == Checked(ItemsOf(meal), checkedItems)
  {
    var rawIngredients := RawItems(meal);
    ghost var items := ItemsOf(meal);
    mealTodo, mealDone := [], [];
    var index := 0;
    while index < |rawIngredients|
      invariant 0 <= index <= |rawIngredients|
      invariant mealTodo == Unchecked(items[..index], checkedItems)
      invariant mealDone == Checked(items[..index], checkedItems)
    {
      var item := Item(ItemId(meal, index), rawIngredients[index], meal.title, meal.id, index);
      assert items[..index + 1][..index] == items[..index];
      assert items[..index + 1][index] == item;
      if item.id in checkedItems {
        mealDone := mealDone + [item];
      } else {
        mealTodo := mealTodo + [item];
      }
      index := index + 1;
    }
    assert items[..index] == items;
  }

  /** One more meal adds its group, when it has unchecked items, and its
      checked items. */
  lemma PartitionStep(ms: seq<Meal>, i: nat, checked: seq<string>)
    requires i < |ms|
    ensures var todo := Unchecked(ItemsOf(ms[i]), checked);
      TodoGroups(ms[..i + 1], checked) == TodoGroups(ms[..i], checked) + (if |todo| > 0 then [Group(ms[i], todo)] else [])
    ensures DoneItems(ms[..i + 1], checked) == DoneItems(ms[..i], checked) + Checked(ItemsOf(ms[i]), checked)
  {
    assert ms[..i + 1][..i] == ms[..i];
  }

  /** The outer `forEach` building `todoByMeal` and `doneItems`. */
  method Partition(activeMeals: seq<Meal>, checkedItems: seq<string>)
    returns (todoByMeal: seq<Group>, doneItems: seq<Item>)
    ensures todoByMeal == TodoGroups(activeMeals, checkedItems)
    ensures doneItems == DoneItems(activeMeals, checkedItems)
  {
    todoByMeal := [];
    doneItems := [];
    var i := 0;
    while i < |activeMeals|
      invariant 0 <= i <= |activeMeals|
      invariant todoByMeal == TodoGroups(activeMeals[..i], checkedItems)
      invariant doneItems == DoneItems(activeMeals[..i], checkedItems)
    {
      var meal := activeMeals[i];
      var mealTodo, mealDone := SplitMeal(meal, checkedItems);
      doneItems := doneItems + mealDone;
      if |mealTodo| > 0 {
        todoByMeal := todoByMeal + [Group(meal, mealTodo)];
      }
      PartitionStep(activeMeals, i, checkedItems);
      i := i + 1;
    }
    assert activeMeals[..i] == activeMeals;
  }

  /** The two lists of the rendered checklist for a week. */
  method BuildChecklist(slots: seq<DaySlot>, meals: seq<Meal>, checkedItems: seq<string>)
    returns (empty: bool, todoByMeal: seq<Group>, doneItems: seq<Item>)
    ensures empty <==> ActiveMeals(slots, meals) == []
    ensures todoByMeal == TodoGroups(ActiveMeals(slots, meals), checkedItems)
    ensures doneItems == DoneItems(ActiveMeals(slots, meals), checkedItems)
  {
    var activeMeals := Resolve(WeekIds(slots), meals);
    if |activeMeals| == 0 {
      return true, [], [];
    }
    empty := false;
    todoByMeal, doneItems := Partition(activeMeals, checkedItems);
  }
}
