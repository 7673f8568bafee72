/** The meal library state of hooks/useMeals.ts: three state cells (the
    meals, the week slots, the checked shopping items), the handlers that
    replace them, and the effects that write each changed cell through to the
    browser's key/value store.

    This hook still uses the one-meal-per-day slot shape, `{ label, mealId }`
    with `mealId` null for an empty day, so its slots are `LegacySlot`s. */
module MealsHook {
  import opened Types
  import opened Constants

  /** A day of the week plan as this hook keeps it. */
  datatype LegacySlot = LegacySlot(dayLabel: string, mealId: Option<string>)

  datatype ToastKind = Success | Error | Info

  /** A message shown through `showToast`. */
  datatype Toast = Toast(message: string, kind: ToastKind)

  /** What the store holds under one key (the JSON text itself is not modelled). */
  datatype Stored = MealList(meals: seq<Meal>) | SlotList(slots: seq<LegacySlot>) | IdList(ids: seq<string>)

  const MealsKey: string := "rotation_meals"
  const WeekKey: string := "rotation_week"
  const ShopKey: string := "rotation_shop_checked"

  const StorageFullToast: Toast := Toast("Storage Full! Please delete some meals or use smaller images.", Error)
  const WeekFullToast: Toast := Toast("Your week is full! Remove a meal first.", Error)

  /** Each of the three keys, when present, holds the kind of record this hook writes there. */
  predicate WellTyped(store: map<string, Stored>) {
    && (MealsKey in store ==> store[MealsKey].MealList?)
    && (WeekKey in store ==> store[WeekKey].SlotList?)
    && (ShopKey in store ==> store[ShopKey].IdList?)
  }

  /** `DAYS.map(d => ({ label: d, mealId: null }))`. */
  function EmptyWeek(): (r: seq<LegacySlot>)
    ensures |r| == 7
    ensures forall i :: 0 <= i < 7 ==> r[i] == LegacySlot(Days[i], None)
  {
    seq(7, i requires 0 <= i < 7 => LegacySlot(Days[i], None))
  }

  /** `slots.findIndex(s => s.mealId === null)`: the first empty day. */
  function FirstEmpty(slots: seq<LegacySlot>): (r: Option<nat>)
    ensures r.Some? ==> r.value < |slots| && slots[r.value].mealId.None?
    ensures r.Some? ==> forall j :: 0 <= j < r.value ==> slots[j].mealId.Some?
    ensures r.None? ==> forall j :: 0 <= j < |slots| ==> slots[j].mealId.Some?
  {
    if slots == [] then None
    else if slots[0].mealId.None? then Some(0)
    else match FirstEmpty(slots[1..])
      case Some(i) => Some(i + 1)
      case None => None
  }

  /** `meals.map(m => m.id === saved.id ? saved : m)`. */
  function ReplaceById(ms: seq<Meal>, saved: Meal): (r: seq<Meal>)
    ensures |r| == |ms|
    ensures forall i :: 0 <= i < |ms| ==> r[i] == (if ms[i].id == saved.id then saved else ms[i])
  {
    if ms == [] then [] else [if ms[0].id == saved.id then saved else ms[0]] + ReplaceById(ms[1..], saved)
  }

  /** `meals.filter(m => !ids.includes(m.id))`: deleting one meal uses `[id]`,
      removing the examples uses the example ids. */
  function RemoveMeals(ms: seq<Meal>, ids: seq<string>): (r: seq<Meal>)
    ensures |r| <= |ms|
    ensures forall m :: m in r <==> m in ms && m.id !in ids
  {
    if ms == [] then []
    else if ms[0].id in ids then RemoveMeals(ms[1..], ids)
    else [ms[0]] + RemoveMeals(ms[1..], ids)
  }

  /** Empties every day whose meal id is one of `ids` (both
      `slot.mealId === id` and `slot.mealId && ids.includes(slot.mealId)`). */
  function ClearSlots(slots: seq<LegacySlot>, ids: seq<string>): (r: seq<LegacySlot>)
    ensures |r| == |slots|
    ensures forall i :: 0 <= i < |slots| ==> r[i].dayLabel == slots[i].dayLabel
    ensures forall i :: 0 <= i < |slots| ==>
      r[i].mealId == (if slots[i].mealId.Some? && slots[i].mealId.value in ids then None else slots[i].mealId)
  {
    if slots == [] then []
    else
      var s := slots[0];
      [if s.mealId.Some? && s.mealId.value in ids then s.(mealId := None) else s] + ClearSlots(slots[1..], ids)
  }

  /** `meals.map(m => ({ ...m, votes: 0 }))`. */
  function ResetVotes(ms: seq<Meal>): (r: seq<Meal>)
    ensures |r| == |ms|
    ensures forall i :: 0 <= i < |ms| ==> r[i] == ms[i].(votes := Some(0))
  {
    if ms == [] then [] else [ms[0].(votes := Some(0))] + ResetVotes(ms[1..])
  }

  /** `list.filter(x => x !== id)`. */
  function Without(xs: seq<string>, id: string): (r: seq<string>)
    ensures forall x :: x in r <==> x in xs && x != id
    ensures |r| <= |xs|
  {
    if xs == [] then [] else (if xs[0] == id then [] else [xs[0]]) + Without(xs[1..], id)
  }

  /** The body of `handleShopToggle`. */
  function ToggleItem(checked: seq<string>, id: string): (r: seq<string>)
    ensures id in r <==> id !in checked
    ensures forall x :: x != id ==> (x in r <==> x in checked)
    ensures id !in checked ==> r == checked + [id]
  {
    if id in checked then Without(checked, id) else checked + [id]
  }

  predicate NoDuplicates(xs: seq<string>) {
    forall i, j :: 0 <= i < j < |xs| ==> xs[i] != xs[j]
  }

  /** The write of the meals effect: only a non-empty library is written. */
  function MealsWrite(meals: seq<Meal>, changed: bool): seq<(string, Stored)> {
    if changed && |meals| > 0 then [(MealsKey, MealList(meals))] else []
  }

  /** The write of the week effect: only a non-empty week is written. */
  function SlotsWrite(slots: seq<LegacySlot>, changed: bool): seq<(string, Stored)> {
    if changed && |slots| > 0 then [(WeekKey, SlotList(slots))] else []
  }

  /** The write of the checklist effect, empty or not. */
  function ShopWrite(shop: seq<string>, changed: bool): seq<(string, Stored)> {
    if changed then [(ShopKey, IdList(shop))] else []
  }

  /** The store writes the persistence effects make after a commit, in the
      order the effects are declared, for the cells that changed. */
  function EffectWrites(meals: seq<Meal>, slots: seq<LegacySlot>, shop: seq<string>,
                        mealsChanged: bool, slotsChanged: bool, shopChanged: bool): (r: seq<(string, Stored)>)
    ensures |r| <= 3
    ensures |r| == 0 <==> !(mealsChanged && |meals| > 0) && !(slotsChanged && |slots| > 0) && !shopChanged
  {
    MealsWrite(meals, mealsChanged) + SlotsWrite(slots, slotsChanged) + ShopWrite(shop, shopChanged)
  }

  /** The store after a sequence of `safeSetItem` calls: a full store takes
      none of them. */
  function Apply(store: map<string, Stored>, full: bool, writes: seq<(string, Stored)>): (r: map<string, Stored>)
    ensures full ==> r == store
    decreases |writes|
  {
    if full || writes == [] then store else Apply(store[writes[0].0 := writes[0].1], full, writes[1..])
  }

  /** The warnings a sequence of `safeSetItem` calls shows: one per failed write. */
  function Warnings(full: bool, writes: seq<(string, Stored)>): (r: seq<Toast>)
    ensures |r| == (if full then |writes| else 0)
    ensures forall i :: 0 <= i < |r| ==> r[i] == StorageFullToast
    decreases |writes|
  {
    if !full || writes == [] then [] else [StorageFullToast] + Warnings(full, writes[1..])
  }

  /** Two stores agree on key `k`. */
  predicate SameAt(a: map<string, Stored>, b: map<string, Stored>, k: string) {
    (k in a <==> k in b) && (k in a ==> a[k] == b[k])
  }

  /** After the effects, when the store accepts writes, every changed cell
      with content is cached under its key; an empty library or week is never
      written over a stored one, and an unchanged cell's key keeps its record;
      keys other than the three are left alone. */
  lemma EffectsCacheState(store: map<string, Stored>, meals: seq<Meal>, slots: seq<LegacySlot>,
                          shop: seq<string>, mc: bool, sc: bool, shc: bool)
    ensures var s := Apply(store, false, EffectWrites(meals, slots, shop, mc, sc, shc));
      && (mc && |meals| > 0 ==> MealsKey in s && s[MealsKey] == MealList(meals))
      && (!mc || |meals| == 0 ==> SameAt(s, store, MealsKey))
      && (sc && |slots| > 0 ==> WeekKey in s && s[WeekKey] == SlotList(slots))
      && (!sc || |slots| == 0 ==> SameAt(s, store, WeekKey))
      && (shc ==> ShopKey in s && s[ShopKey] == IdList(shop))
      && (!shc ==> SameAt(s, store, ShopKey))
      && (forall k :: k != MealsKey && k != WeekKey && k != ShopKey ==> SameAt(s, store, k))
  {
    var w1, w2, w3 := MealsWrite(meals, mc), SlotsWrite(slots, sc), ShopWrite(shop, shc);
    ApplyAppend(store, w1 + w2, w3);
    ApplyAppend(store, w1, w2);
    var s1 := Apply(store, false, w1);
    var s2 := Apply(s1, false, w2);
    var s3 := Apply(s2, false, w3);
    if w1 != [] { ApplySingle(store, w1[0]); } else { assert s1 == store; }
    if w2 != [] { ApplySingle(s1, w2[0]); } else { assert s2 == s1; }
    if w3 != [] { ApplySingle(s2, w3[0]); } else { assert s3 == s2; }
    assert MealsKey != WeekKey && MealsKey != ShopKey && WeekKey != ShopKey;
  }

  /** What a run of `safeSetItem` calls leaves behind, when the store takes
      them: a key no call names keeps its record (or its absence), every
      named key is present, and the last call's record wins its key. */
  lemma {:induction false} ApplyFrame(store: map<string, Stored>, full: bool, writes: seq<(string, Stored)>)
    ensures forall k :: (forall i :: 0 <= i < |writes| ==> writes[i].0 != k) ==> SameAt(Apply(store, full, writes), store, k)
    ensures !full ==> forall i :: 0 <= i < |writes| ==> writes[i].0 in Apply(store, full, writes)
    ensures !full && writes != [] ==> Apply(store, full, writes)[writes[|writes| - 1].0] == writes[|writes| - 1].1
    decreases |writes|
  {
    if !full && writes != [] {
      var s', rest := store[writes[0].0 := writes[0].1], writes[1..];
      var r := Apply(store, full, writes);
      assert r == Apply(s', full, rest);
      ApplyFrame(s', full, rest);
      if |writes| == 1 {
        assert rest == [];
      }
      forall i | 0 <= i < |writes| ensures writes[i].0 in r {
        if i > 0 {
          assert rest[i - 1] == writes[i];
        } else if forall j :: 0 <= j < |rest| ==> rest[j].0 != writes[0].0 {
          assert SameAt(r, s', writes[0].0);
        }
      }
      forall k | (forall i :: 0 <= i < |writes| ==> writes[i].0 != k) ensures SameAt(r, store, k) {
        assert writes[0].0 != k;
        forall i | 0 <= i < |rest| ensures rest[i].0 != k {
          assert rest[i] == writes[i + 1];
        }
        assert SameAt(r, s', k);
      }
    }
  }

  lemma ApplySingle(store: map<string, Stored>, w: (string, Stored))
    ensures Apply(store, false, [w]) == store[w.0 := w.1]
  {
    assert [w][1..] == [];
  }

  lemma {:induction false} WarningsAppend(full: bool, a: seq<(string, Stored)>, b: seq<(string, Stored)>)
    ensures Warnings(full, a + b) == Warnings(full, a) + Warnings(full, b)
    decreases |a|
  {
    if full && a != [] {
      assert (a + b)[1..] == a[1..] + b;
      WarningsAppend(full, a[1..], b);
    } else if a == [] {
      assert a + b == b;
    }
  }

  /** A write of the right kind of record under one of the three keys. */
  predicate WellTypedWrite(w: (string, Stored)) {
    WellTyped(map[w.0 := w.1])
  }

  /** Writes of the right kinds keep the store well typed. */
  lemma {:induction false} ApplyWellTyped(store: map<string, Stored>, full: bool, writes: seq<(string, Stored)>)
    requires WellTyped(store)
    requires forall i :: 0 <= i < |writes| ==> WellTypedWrite(writes[i])
    ensures WellTyped(Apply(store, full, writes))
    decreases |writes|
  {
    if !full && writes != [] {
      assert WellTypedWrite(writes[0]);
      ApplyWellTyped(store[writes[0].0 := writes[0].1], full, writes[1..]);
    }
  }

  lemma {:induction false} ApplyAppend(store: map<string, Stored>, a: seq<(string, Stored)>, b: seq<(string, Stored)>)
    ensures Apply(store, false, a + b) == Apply(Apply(store, false, a), false, b)
    decreases |a|
  {
    if a != [] {
      assert (a + b)[1..] == a[1..] + b;
      ApplyAppend(store[a[0].0 := a[0].1], a[1..], b);
    } else {
      assert a + b == b;
    }
  }

  lemma WarningsThree(full: bool, w1: seq<(string, Stored)>, w2: seq<(string, Stored)>, w3: seq<(string, Stored)>)
    ensures Warnings(full, w1 + w2 + w3) == Warnings(full, w1) + Warnings(full, w2) + Warnings(full, w3)
  {
    WarningsAppend(full, w1 + w2, w3);
    WarningsAppend(full, w1, w2);
  }

  lemma ApplyThree(store: map<string, Stored>, full: bool, w1: seq<(string, Stored)>, w2: seq<(string, Stored)>, w3: seq<(string, Stored)>)
    ensures Apply(store, full, w1 + w2 + w3) == Apply(Apply(Apply(store, full, w1), full, w2), full, w3)
  {
    if !full {
      ApplyAppend(store, w1 + w2, w3);
      ApplyAppend(store, w1, w2);
    }
  }

  /** Three effects written one after the other make the store and the
      warnings of their writes in sequence, and writes of the right kinds
      keep the store well typed. */
  lemma ThreeWrites(full: bool, w1: seq<(string, Stored)>, w2: seq<(string, Stored)>, w3: seq<(string, Stored)>,
                    s0: map<string, Stored>, s1: map<string, Stored>, s2: map<string, Stored>, s3: map<string, Stored>,
                    t0: seq<Toast>, t1: seq<Toast>, t2: seq<Toast>, t3: seq<Toast>)
    requires s1 == Apply(s0, full, w1) && s2 == Apply(s1, full, w2) && s3 == Apply(s2, full, w3)
    requires t1 == t0 + Warnings(full, w1) && t2 == t1 + Warnings(full, w2) && t3 == t2 + Warnings(full, w3)
    ensures s3 == Apply(s0, full, w1 + w2 + w3)
    ensures t3 == t0 + Warnings(full, w1 + w2 + w3)
    ensures WellTyped(s0) && (forall i :: 0 <= i < |w1 + w2 + w3| ==> WellTypedWrite((w1 + w2 + w3)[i])) ==> WellTyped(s3)
  {
    WarningsThree(full, w1, w2, w3);
    ApplyThree(s0, full, w1, w2, w3);
    assert t3 == t0 + (Warnings(full, w1) + Warnings(full, w2) + Warnings(full, w3));
    if WellTyped(s0) && (forall i :: 0 <= i < |w1 + w2 + w3| ==> WellTypedWrite((w1 + w2 + w3)[i])) {
      ApplyWellTyped(s0, full, w1 + w2 + w3);
    }
  }

  /** The effects write each record under its own key. */
  lemma EffectWritesWellTyped(meals: seq<Meal>, slots: seq<LegacySlot>, shop: seq<string>, mc: bool, sc: bool, shc: bool)
    ensures var ws := EffectWrites(meals, slots, shop, mc, sc, shc);
      && ws == MealsWrite(meals, mc) + SlotsWrite(slots, sc) + ShopWrite(shop, shc)
      && forall i :: 0 <= i < |ws| ==> WellTypedWrite(ws[i])
  {
    assert MealsKey != WeekKey && MealsKey != ShopKey && WeekKey != ShopKey;
  }

  /** Removal keeps the order of the meals it keeps: it distributes over
      concatenation. */
  lemma {:induction false} RemoveMealsAppend(a: seq<Meal>, b: seq<Meal>, ids: seq<string>)
    ensures RemoveMeals(a + b, ids) == RemoveMeals(a, ids) + RemoveMeals(b, ids)
  {
    if a == [] {
      assert a + b == b;
    } else {
      assert (a + b)[1..] == a[1..] + b;
      RemoveMealsAppend(a[1..], b, ids);
    }
  }

  /** Removing ids no meal has changes nothing. */
  lemma {:induction false} RemoveMealsAbsent(ms: seq<Meal>, ids: seq<string>)
    requires forall i :: 0 <= i < |ms| ==> ms[i].id !in ids
    ensures RemoveMeals(ms, ids) == ms
  {
    if ms != [] {
      RemoveMealsAbsent(ms[1..], ids);
    }
  }

  /** Deleting twice is deleting once. */
  lemma RemoveMealsIdempotent(ms: seq<Meal>, ids: seq<string>)
    ensures RemoveMeals(RemoveMeals(ms, ids), ids) == RemoveMeals(ms, ids)
  {
    var r := RemoveMeals(ms, ids);
    assert forall i :: 0 <= i < |r| ==> r[i] in r;
    RemoveMealsAbsent(r, ids);
  }

  /** Removal keeps the library's ids distinct. */
  lemma {:induction false} RemoveMealsKeepsIdsDistinct(ms: seq<Meal>, ids: seq<string>)
    requires NoDuplicates(Ids(ms))
    ensures NoDuplicates(Ids(RemoveMeals(ms, ids)))
  {
    if ms != [] {
      var tail := ms[1..];
      assert Ids(tail) == Ids(ms)[1..];
      RemoveMealsKeepsIdsDistinct(tail, ids);
      if ms[0].id !in ids {
        var rt := RemoveMeals(tail, ids);
        assert Ids(RemoveMeals(ms, ids)) == [ms[0].id] + Ids(rt);
        IdsOfSubset(rt, tail);
        HeadNotInTail(Ids(ms));
        ConsKeepsNoDuplicates(ms[0].id, Ids(rt));
      }
    }
  }

  lemma HeadNotInTail(xs: seq<string>)
    requires NoDuplicates(xs) && xs != []
    ensures xs[0] !in xs[1..]
  {
    forall j | 0 <= j < |xs[1..]| ensures xs[1..][j] != xs[0] {
      assert xs[1..][j] == xs[j + 1];
    }
  }

  /** The meals of `a` all being meals of `b`, the ids of `a` are ids of `b`. */
  lemma IdsOfSubset(a: seq<Meal>, b: seq<Meal>)
    requires forall m :: m in a ==> m in b
    ensures forall x :: x in Ids(a) ==> x in Ids(b)
  {
    forall x | x in Ids(a) ensures x in Ids(b) {
      var k :| 0 <= k < |a| && Ids(a)[k] == x;
      assert a[k] in b;
      var j :| 0 <= j < |b| && b[j] == a[k];
      assert Ids(b)[j] == x;
    }
  }

  /** Putting a meal with a fresh id first keeps the ids distinct. */
  lemma SaveKeepsIdsDistinct(ms: seq<Meal>, saved: Meal)
    requires NoDuplicates(Ids(ms))
    requires saved.id !in Ids(ms)
    ensures NoDuplicates(Ids([saved] + ms))
  {
    assert Ids([saved] + ms) == [saved.id] + Ids(ms);
    ConsKeepsNoDuplicates(saved.id, Ids(ms));
  }

  lemma ConsKeepsNoDuplicates(x: string, ys: seq<string>)
    requires NoDuplicates(ys) && x !in ys
    ensures NoDuplicates([x] + ys)
  {
    var xs := [x] + ys;
    forall i, j | 0 <= i < j < |xs| ensures xs[i] != xs[j] {
      assert xs[j] == ys[j - 1] && ys[j - 1] in ys;
      if i > 0 {
        assert xs[i] == ys[i - 1];
      }
    }
  }

  /** Replacing by id keeps the ids themselves. */
  lemma ReplaceByIdKeepsIds(ms: seq<Meal>, saved: Meal)
    ensures Ids(ReplaceById(ms, saved)) == Ids(ms)
  {
    var r := ReplaceById(ms, saved);
    assert forall i :: 0 <= i < |ms| ==> Ids(r)[i] == Ids(ms)[i];
  }

  /** An edit replaces the meal with the saved id and only it: saving a
      record whose id is in the library puts that record in it. */
  lemma ReplaceByIdStores(ms: seq<Meal>, saved: Meal)
    ensures saved.id in Ids(ms) ==> saved in ReplaceById(ms, saved)
    ensures saved.id !in Ids(ms) ==> ReplaceById(ms, saved) == ms
  {
    var r := ReplaceById(ms, saved);
    if saved.id in Ids(ms) {
      var i :| 0 <= i < |ms| && Ids(ms)[i] == saved.id;
      assert r[i] == saved;
    } else {
      assert forall i :: 0 <= i < |ms| ==> ms[i].id != saved.id by {
        assert forall i :: 0 <= i < |ms| ==> Ids(ms)[i] == ms[i].id;
      }
      assert forall i :: 0 <= i < |ms| ==> r[i] == ms[i];
    }
  }

  /** After a delete no meal has the id and no day refers to it; the other
      meals and days stay. */
  lemma DeleteLeavesNoReference(ms: seq<Meal>, slots: seq<LegacySlot>, id: string)
    ensures id !in Ids(RemoveMeals(ms, [id]))
    ensures forall i :: 0 <= i < |slots| ==> ClearSlots(slots, [id])[i].mealId != Some(id)
    ensures forall m :: m in ms && m.id != id ==> m in RemoveMeals(ms, [id])
    ensures forall i :: 0 <= i < |slots| && slots[i].mealId != Some(id) ==> ClearSlots(slots, [id])[i] == slots[i]
  {
    var r := RemoveMeals(ms, [id]);
    assert forall i :: 0 <= i < |r| ==> Ids(r)[i] == r[i].id && r[i] in r;
  }

  /** Clearing the same ids twice is clearing them once. */
  lemma ClearSlotsIdempotent(slots: seq<LegacySlot>, ids: seq<string>)
    ensures ClearSlots(ClearSlots(slots, ids), ids) == ClearSlots(slots, ids)
  {
    var once := ClearSlots(slots, ids);
    var twice := ClearSlots(once, ids);
    assert forall i :: 0 <= i < |slots| ==> twice[i] == once[i];
  }

  /** After a reset every meal has zero votes and nothing else changed. */
  lemma ResetVotesZero(ms: seq<Meal>)
    ensures forall i :: 0 <= i < |ms| ==> VotesOf(ResetVotes(ms)[i]) == 0
    ensures forall i :: 0 <= i < |ms| ==> ResetVotes(ms)[i].(votes := ms[i].votes) == ms[i]
    ensures Ids(ResetVotes(ms)) == Ids(ms)
  {
    var r := ResetVotes(ms);
    assert forall i :: 0 <= i < |ms| ==> Ids(r)[i] == Ids(ms)[i];
  }

  /** A checklist without an item, with no item of its list removed. */
  lemma {:induction false} WithoutAbsent(xs: seq<string>, id: string)
    requires id !in xs
    ensures Without(xs, id) == xs
  {
    if xs != [] {
      WithoutAbsent(xs[1..], id);
      assert [xs[0]] + xs[1..] == xs;
    }
  }

  /** Checking and unchecking an unchecked item gives back the list. */
  lemma ToggleTwice(checked: seq<string>, id: string)
    requires id !in checked
    ensures ToggleItem(ToggleItem(checked, id), id) == checked
  {
    WithoutAppend(checked, [id], id);
    WithoutAbsent(checked, id);
    assert Without([id], id) == [] by {
      assert [id][1..] == [];
    }
  }

  lemma {:induction false} WithoutAppend(a: seq<string>, b: seq<string>, id: string)
    ensures Without(a + b, id) == Without(a, id) + Without(b, id)
  {
    if a == [] {
      assert a + b == b;
    } else {
      assert (a + b)[1..] == a[1..] + b;
      WithoutAppend(a[1..], b, id);
    }
  }

  /** Toggling keeps a checklist free of repeated items. */
  lemma {:induction false} ToggleKeepsNoDuplicates(checked: seq<string>, id: string)
    requires NoDuplicates(checked)
    ensures NoDuplicates(ToggleItem(checked, id))
  {
    if id in checked {
      WithoutKeepsNoDuplicates(checked, id);
    }
  }

  lemma {:induction false} WithoutKeepsNoDuplicates(xs: seq<string>, id: string)
    requires NoDuplicates(xs)
    ensures NoDuplicates(Without(xs, id))
  {
    if xs != [] {
      WithoutKeepsNoDuplicates(xs[1..], id);
      var rest := Without(xs[1..], id);
      assert xs[0] !in rest;
      var r := Without(xs, id);
      if xs[0] != id {
        assert r == [xs[0]] + rest;
        forall i, j | 0 <= i < j < |r| ensures r[i] != r[j] {
          if i == 0 { assert r[j] == rest[j - 1]; assert rest[j - 1] in rest; }
          else { assert r[i] == rest[i - 1] && r[j] == rest[j - 1]; }
        }
      }
    }
  }

  /** Adding a meal to the first empty day and removing it from that day
      gives back the week. */
  lemma AddThenRemoveRestoresWeek(slots: seq<LegacySlot>, id: string)
    requires FirstEmpty(slots).Some?
    ensures var i := FirstEmpty(slots).value;
      slots[i := slots[i].(mealId := Some(id))][i := slots[i := slots[i].(mealId := Some(id))][i].(mealId := None)] == slots
  {
    var i := FirstEmpty(slots).value;
    var added := slots[i := slots[i].(mealId := Some(id))];
    assert added[i := added[i].(mealId := None)][i] == slots[i];
  }

  /** The initialisation's write of the example library, made only when no
      library was saved. */
  function SeedWrite(saved: map<string, Stored>, meals: seq<Meal>): seq<(string, Stored)> {
    if MealsKey in saved then [] else [(MealsKey, MealList(meals))]
  }

  /** The store and the warnings after mounting: the initialisation writes
      (the example library when none was saved, then the empty checklist)
      followed by the effects for the loaded cells leave each of the three
      keys holding the loaded cell and the other keys as they were; a full
      store keeps what was saved and only warns. */
  lemma MountOutcome(saved: map<string, Stored>, initial: seq<Meal>, full: bool,
                     meals: seq<Meal>, slots: seq<LegacySlot>, shop: seq<string>,
                     s1: map<string, Stored>, s2: map<string, Stored>, s3: map<string, Stored>,
                     t1: seq<Toast>, t2: seq<Toast>, t3: seq<Toast>)
    requires WellTyped(saved)
    requires meals == (if MealsKey in saved then saved[MealsKey].meals else initial)
    requires slots == (if WeekKey in saved then saved[WeekKey].slots else EmptyWeek())
    requires shop == (if ShopKey in saved then saved[ShopKey].ids else [])
    requires s1 == Apply(saved, full, SeedWrite(saved, meals)) && t1 == [] + Warnings(full, SeedWrite(saved, meals))
    requires s2 == Apply(s1, full, [(ShopKey, IdList([]))]) && t2 == t1 + Warnings(full, [(ShopKey, IdList([]))])
    requires var ws := EffectWrites(meals, slots, shop, true, true, ShopKey in saved);
      s3 == Apply(s2, full, ws) && t3 == t2 + Warnings(full, ws)
    ensures !full ==> s3 == saved[MealsKey := MealList(meals)][WeekKey := SlotList(slots)][ShopKey := IdList(shop)]
    ensures !full ==> t3 == []
    ensures full ==> s3 == saved
    ensures full ==> forall i :: 0 <= i < |t3| ==> t3[i] == StorageFullToast
    ensures WellTyped(s3)
  {
    var ws := EffectWrites(meals, slots, shop, true, true, ShopKey in saved);
    if full {
      AllStorageFull([], Warnings(full, SeedWrite(saved, meals)));
      AllStorageFull(t1, Warnings(full, [(ShopKey, IdList([]))]));
      AllStorageFull(t2, Warnings(full, ws));
    } else {
      if MealsKey !in saved {
        ApplySingle(saved, (MealsKey, MealList(meals)));
      }
      ApplySingle(s1, (ShopKey, IdList([])));
      MountStore(saved, s2, meals, slots, shop);
    }
  }

  /** The store after mounting, when it accepts writes. */
  lemma MountStore(saved: map<string, Stored>, s0: map<string, Stored>,
                   meals: seq<Meal>, slots: seq<LegacySlot>, shop: seq<string>)
    requires MealsKey in saved ==> saved[MealsKey] == MealList(meals)
    requires s0 == (if MealsKey in saved then saved else saved[MealsKey := MealList(meals)])[ShopKey := IdList([])]
    requires WeekKey in saved ==> saved[WeekKey] == SlotList(slots)
    requires WeekKey !in saved ==> |slots| > 0
    requires ShopKey in saved ==> saved[ShopKey] == IdList(shop)
    requires ShopKey !in saved ==> shop == []
    ensures Apply(s0, false, EffectWrites(meals, slots, shop, true, true, ShopKey in saved))
            == saved[MealsKey := MealList(meals)][WeekKey := SlotList(slots)][ShopKey := IdList(shop)]
  {
    var store := Apply(s0, false, EffectWrites(meals, slots, shop, true, true, ShopKey in saved));
    EffectsCacheState(s0, meals, slots, shop, true, true, ShopKey in saved);
    var expected := saved[MealsKey := MealList(meals)][WeekKey := SlotList(slots)][ShopKey := IdList(shop)];
    assert MealsKey in store && store[MealsKey] == MealList(meals);
    assert WeekKey in store && store[WeekKey] == SlotList(slots);
    assert ShopKey in store && store[ShopKey] == IdList(shop);
    forall k ensures SameAt(store, expected, k) {
      if k != MealsKey && k != WeekKey && k != ShopKey {
        assert SameAt(store, s0, k);
        assert SameAt(s0, saved, k);
      }
    }
    assert store.Keys == expected.Keys by {
      assert forall k :: SameAt(store, expected, k) ==> (k in store <==> k in expected);
    }
    assert forall k :: k in store ==> store[k] == expected[k] by {
      assert forall k :: SameAt(store, expected, k) ==> (k in store ==> store[k] == expected[k]);
    }
  }

  lemma AllStorageFull(a: seq<Toast>, b: seq<Toast>)
    requires forall i :: 0 <= i < |a| ==> a[i] == StorageFullToast
    requires forall i :: 0 <= i < |b| ==> b[i] == StorageFullToast
    ensures forall i :: 0 <= i < |a + b| ==> (a + b)[i] == StorageFullToast
  {
  }

  /** The state cells of `useMeals`, the store they are written through to,
      and the messages shown. `storageFull` stands for the browser refusing
      writes (a quota error): `safeSetItem` then only warns. */
  class MealLibrary {
    var meals: seq<Meal>
    var weekSlots: seq<LegacySlot>
    var shopChecked: seq<string>
    var store: map<string, Stored>
    var storageFull: bool
    var toasts: seq<Toast>

    ghost predicate Valid()
      reads this
    {
      WellTyped(store)
    }

    /** Mounting the hook: the initialisation effect loads the three cells
        from the store, seeding the example library and an empty week when
        nothing is saved; then the persistence effects run, first once with
        the empty initial state (which writes the empty checklist) and again
        for the cells the load replaced. `initial` is the example library
        `INITIAL_MEALS` (see `MountWithExamples`). */
    constructor Mount(saved: map<string, Stored>, initial: seq<Meal>, full: bool)
      requires WellTyped(saved)
      ensures Valid()
      ensures meals == (if MealsKey in saved then saved[MealsKey].meals else initial)
      ensures weekSlots == (if WeekKey in saved then saved[WeekKey].slots else EmptyWeek())
      ensures shopChecked == (if ShopKey in saved then saved[ShopKey].ids else [])
      ensures storageFull == full
      ensures !full ==> store == saved[MealsKey := MealList(meals)][WeekKey := SlotList(weekSlots)][ShopKey := IdList(shopChecked)]
      ensures full ==> store == saved
      ensures !full ==> toasts == []
      ensures full ==> forall i :: 0 <= i < |toasts| ==> toasts[i] == StorageFullToast
    {
      meals := if MealsKey in saved then saved[MealsKey].meals else initial;
      weekSlots := if WeekKey in saved then saved[WeekKey].slots else EmptyWeek();
      shopChecked := if ShopKey in saved then saved[ShopKey].ids else [];
      store := saved;
      storageFull := full;
      toasts := [];
      new;
      Write(SeedWrite(saved, meals));
      ghost var s1, t1 := store, toasts;
      Write([(ShopKey, IdList([]))]);
      ghost var s2, t2 := store, toasts;
      Persist(true, true, ShopKey in saved);
      MountOutcome(saved, initial, full, meals, weekSlots, shopChecked, s1, s2, store, t1, t2, toasts);
    }

    /** `safeSetItem`: a write the store accepts, or a warning. */
    method SafeSetItem(key: string, value: Stored)
      modifies this`store, this`toasts
      ensures store == if storageFull then old(store) else old(store)[key := value]
      ensures toasts == old(toasts) + Warnings(storageFull, [(key, value)])
    {
      if storageFull {
        toasts := toasts + [StorageFullToast];
      } else {
        store := store[key := value];
      }
    }

    /** Runs the writes of one effect through `safeSetItem`. */
    method Write(writes: seq<(string, Stored)>)
      requires |writes| <= 1
      modifies this`store, this`toasts
      ensures store == Apply(old(store), storageFull, writes)
      ensures toasts == old(toasts) + Warnings(storageFull, writes)
    {
      if writes != [] {
        SafeSetItem(writes[0].0, writes[0].1);
        if !storageFull {
          ApplySingle(old(store), writes[0]);
        }
      }
    }

    /** The three persistence effects, in the order they are declared, for
        the cells a handler changed. */
    method Persist(mealsChanged: bool, slotsChanged: bool, shopChanged: bool)
      modifies this`store, this`toasts
      ensures store == Apply(old(store), storageFull,
                             EffectWrites(meals, weekSlots, shopChecked, mealsChanged, slotsChanged, shopChanged))
      ensures toasts == old(toasts)
                        + Warnings(storageFull, EffectWrites(meals, weekSlots, shopChecked, mealsChanged, slotsChanged, shopChanged))
      ensures WellTyped(old(store)) ==> WellTyped(store)
    {
      var w1 := MealsWrite(meals, mealsChanged);
      var w2 := SlotsWrite(weekSlots, slotsChanged);
      var w3 := ShopWrite(shopChecked, shopChanged);
      ghost var s0, t0 := store, toasts;
      Write(w1);
      ghost var s1, t1 := store, toasts;
      Write(w2);
      ghost var s2, t2 := store, toasts;
      Write(w3);
      ThreeWrites(storageFull, w1, w2, w3, s0, s1, s2, store, t0, t1, t2, toasts);
      EffectWritesWellTyped(meals, weekSlots, shopChecked, mealsChanged, slotsChanged, shopChanged);
    }

    /** The placement part of `handleAddToTray`: the meal goes into the first
        empty day, or the week is full. Effects are not run here. */
    method PlaceInTray(meal: Meal) returns (placed: bool)
      modifies this`weekSlots, this`toasts
      ensures placed == FirstEmpty(old(weekSlots)).Some?
      ensures placed ==> var i := FirstEmpty(old(weekSlots)).value;
        && weekSlots == old(weekSlots)[i := old(weekSlots)[i].(mealId := Some(meal.id))]
        && toasts == old(toasts) + [Toast("Added " + meal.title + " to " + old(weekSlots)[i].dayLabel, Success)]
      ensures !placed ==> weekSlots == old(weekSlots) && toasts == old(toasts) + [WeekFullToast]
    {
      var firstEmpty := FirstEmpty(weekSlots);
      if firstEmpty.Some? {
        var i := firstEmpty.value;
        var newSlots := weekSlots;
        newSlots := newSlots[i := newSlots[i].(mealId := Some(meal.id))];
        weekSlots := newSlots;
        toasts := toasts + [Toast("Added " + meal.title + " to " + newSlots[i].dayLabel, Success)];
        placed := true;
      } else {
        toasts := toasts + [WeekFullToast];
        placed := false;
      }
    }

    /** `handleAddToTray`. */
    method AddToTray(meal: Meal)
      requires Valid()
      modifies this
      ensures Valid()
      ensures meals == old(meals) && shopChecked == old(shopChecked) && storageFull == old(storageFull)
      ensures match FirstEmpty(old(weekSlots))
        case Some(i) =>
          && weekSlots == old(weekSlots)[i := old(weekSlots)[i].(mealId := Some(meal.id))]
          && store == Apply(old(store), storageFull, [(WeekKey, SlotList(weekSlots))])
          && toasts == old(toasts) + [Toast("Added " + meal.title + " to " + old(weekSlots)[i].dayLabel, Success)]
                       + Warnings(storageFull, [(WeekKey, SlotList(weekSlots))])
        case None =>
          weekSlots == old(weekSlots) && store == old(store) && toasts == old(toasts) + [WeekFullToast]
    {
      var placed := PlaceInTray(meal);
      Persist(false, placed, false);
    }

    /** `handleRemoveFromTray`: day `index` is emptied. */
    method RemoveFromTray(index: nat)
      requires Valid()
      requires index < |weekSlots|
      modifies this
      ensures Valid()
      ensures weekSlots == old(weekSlots)[index := old(weekSlots)[index].(mealId := None)]
      ensures meals == old(meals) && shopChecked == old(shopChecked) && storageFull == old(storageFull)
      ensures store == Apply(old(store), storageFull, [(WeekKey, SlotList(weekSlots))])
      ensures toasts == old(toasts) + Warnings(storageFull, [(WeekKey, SlotList(weekSlots))])
    {
      var newSlots := weekSlots;
      newSlots := newSlots[index := newSlots[index].(mealId := None)];
      weekSlots := newSlots;
      Persist(false, true, false);
    }

    /** `handleSaveMeal`: an edit replaces the meals with the saved id; a new
        meal is put first and offered to the tray. */
    method SaveMeal(saved: Meal, isEdit: bool)
      requires Valid()
      modifies this
      ensures Valid()
      ensures shopChecked == old(shopChecked) && storageFull == old(storageFull)
      ensures isEdit ==> && meals == ReplaceById(old(meals), saved)
                         && weekSlots == old(weekSlots)
                         && store == Apply(old(store), storageFull, EffectWrites(meals, weekSlots, shopChecked, true, false, false))
                         && toasts == old(toasts) + [Toast("Meal updated successfully", Success)]
                                      + Warnings(storageFull, EffectWrites(meals, weekSlots, shopChecked, true, false, false))
      ensures !isEdit ==> meals == [saved] + old(meals)
      ensures !isEdit ==> match FirstEmpty(old(weekSlots))
        case Some(i) =>
          && weekSlots == old(weekSlots)[i := old(weekSlots)[i].(mealId := Some(saved.id))]
          && store == Apply(old(store), storageFull, EffectWrites(meals, weekSlots, shopChecked, true, true, false))
          && toasts == old(toasts) + [Toast("Added " + saved.title + " to " + old(weekSlots)[i].dayLabel, Success)]
                       + [Toast("New meal created!", Success)]
                       + Warnings(storageFull, EffectWrites(meals, weekSlots, shopChecked, true, true, false))
        case None =>
          && weekSlots == old(weekSlots)
          && store == Apply(old(store), storageFull, EffectWrites(meals, weekSlots, shopChecked, true, false, false))
          && toasts == old(toasts) + [WeekFullToast] + [Toast("New meal created!", Success)]
                       + Warnings(storageFull, EffectWrites(meals, weekSlots, shopChecked, true, false, false))
    {
      if isEdit {
        meals := ReplaceById(meals, saved);
        toasts := toasts + [Toast("Meal updated successfully", Success)];
        Persist(true, false, false);
      } else {
        meals := [saved] + meals;
        var placed := PlaceInTray(saved);
        toasts := toasts + [Toast("New meal created!", Success)];
        Persist(true, placed, false);
      }
    }

    /** `handleDeleteMeal`: the meal leaves the library and every day that
        held it is emptied. */
    method DeleteMeal(id: string)
      requires Valid()
      modifies this
      ensures Valid()
      ensures meals == RemoveMeals(old(meals), [id])
      ensures weekSlots == ClearSlots(old(weekSlots), [id])
      ensures shopChecked == old(shopChecked) && storageFull == old(storageFull)
      ensures store == Apply(old(store), storageFull, EffectWrites(meals, weekSlots, shopChecked, true, true, false))
      ensures toasts == old(toasts) + [Toast("Meal deleted", Info)]
                        + Warnings(storageFull, EffectWrites(meals, weekSlots, shopChecked, true, true, false))
    {
      meals := RemoveMeals(meals, [id]);
      weekSlots := ClearSlots(weekSlots, [id]);
      toasts := toasts + [Toast("Meal deleted", Info)];
      Persist(true, true, false);
    }

    /** `handleClearWeek`, `confirmed` being the answer to `window.confirm`. */
    method ClearWeek(confirmed: bool)
      requires Valid()
      modifies this
      ensures Valid()
      ensures storageFull == old(storageFull)
      ensures !confirmed ==> meals == old(meals) && weekSlots == old(weekSlots) && shopChecked == old(shopChecked)
                             && store == old(store) && toasts == old(toasts)
      ensures confirmed ==> && weekSlots == EmptyWeek()
                            && meals == ResetVotes(old(meals))
                            && shopChecked == []
                            && store == Apply(old(store), storageFull, EffectWrites(meals, weekSlots, shopChecked, true, true, true))
                            && toasts == old(toasts) + [Toast("Week cleared and ready for new rotation!", Success)]
                                         + Warnings(storageFull, EffectWrites(meals, weekSlots, shopChecked, true, true, true))
    {
      if confirmed {
        weekSlots := EmptyWeek();
        meals := ResetVotes(meals);
        shopChecked := [];
        toasts := toasts + [Toast("Week cleared and ready for new rotation!", Success)];
        Persist(true, true, true);
      }
    }

    /** `handleRemoveDefaults`: the example meals leave the library and the
        days holding them are emptied. */
    method RemoveDefaults(confirmed: bool)
      requires Valid()
      modifies this
      ensures Valid()
      ensures shopChecked == old(shopChecked) && storageFull == old(storageFull)
      ensures !confirmed ==> meals == old(meals) && weekSlots == old(weekSlots)
                             && store == old(store) && toasts == old(toasts)
      ensures confirmed ==> && meals == RemoveMeals(old(meals), SeedIds)
                            && weekSlots == ClearSlots(old(weekSlots), SeedIds)
                            && store == Apply(old(store), storageFull, EffectWrites(meals, weekSlots, shopChecked, true, true, false))
                            && toasts == old(toasts) + [Toast("Example meals removed", Info)]
                                         + Warnings(storageFull, EffectWrites(meals, weekSlots, shopChecked, true, true, false))
    {
      if confirmed {
        var defaultIds := SeedIds;
        meals := RemoveMeals(meals, defaultIds);
        weekSlots := ClearSlots(weekSlots, defaultIds);
        toasts := toasts + [Toast("Example meals removed", Info)];
        Persist(true, true, false);
      }
    }

    /** `handleShopToggle`. */
    method ShopToggle(itemId: string)
      requires Valid()
      modifies this
      ensures Valid()
      ensures shopChecked == ToggleItem(old(shopChecked), itemId)
      ensures meals == old(meals) && weekSlots == old(weekSlots) && storageFull == old(storageFull)
      ensures store == Apply(old(store), storageFull, [(ShopKey, IdList(shopChecked))])
      ensures toasts == old(toasts) + Warnings(storageFull, [(ShopKey, IdList(shopChecked))])
    {
      shopChecked := ToggleItem(shopChecked, itemId);
      Persist(false, false, true);
    }
  }

  /** Mounting with the example library of constants.ts as it was built at
      module load time `now`: with nothing saved the library is the twelve
      examples. */
  method MountWithExamples(saved: map<string, Stored>, now: int, full: bool) returns (lib: MealLibrary)
    requires WellTyped(saved)
    ensures fresh(lib) && lib.Valid()
    ensures lib.meals == (if MealsKey in saved then saved[MealsKey].meals else InitialMeals(now))
    ensures MealsKey !in saved ==> Ids(lib.meals) == SeedIds
  {
    lib := new MealLibrary.Mount(saved, InitialMeals(now), full);
    InitialMealsIds(now);
  }
}
