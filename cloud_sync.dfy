/** The decisions of hooks/useCloudSync.ts: which fields of the fetched
    cloud row replace the local cells (and are re-cached in the local store),
    what row a push sends, and which changes trigger a push. The session
    handling, the remote client and the interleaving of requests are not
    modelled; a fetch is given its outcome as a value. */
module CloudSync {
  import opened Types
  import opened Text
  import opened MealsHook

  /** A column of the fetched row: missing or null, present but not an
      array, or an array. */
  datatype RemoteField<T> = Missing | NotArray | Items(xs: seq<T>)

  /** The `meals, week_slots, shopping_list` columns of a `user_data` row. */
  datatype RemoteRow = RemoteRow(meals: RemoteField<Meal>, weekSlots: RemoteField<LegacySlot>,
                                 shoppingList: RemoteField<string>)

  /** What the query returns: a row, no row, or an error (thrown or reported). */
  datatype FetchResult = Found(row: RemoteRow) | NoRow | Failed

  /** The three local cells. */
  datatype Local = Local(meals: seq<Meal>, weekSlots: seq<LegacySlot>, shopChecked: seq<string>)

  /** `x && Array.isArray(x) && x.length > 0`. */
  predicate NonEmptyArray<T>(f: RemoteField<T>) {
    f.Items? && |f.xs| > 0
  }

  /** The merge rule, cloud wins where it has data: the meals and the week
      are taken only from a non-empty array, the checklist from any array. */
  function Merge(local: Local, r: FetchResult): (m: Local)
    ensures r.Found? && NonEmptyArray(r.row.meals) ==> m.meals == r.row.meals.xs
    ensures !(r.Found? && NonEmptyArray(r.row.meals)) ==> m.meals == local.meals
    ensures r.Found? && NonEmptyArray(r.row.weekSlots) ==> m.weekSlots == r.row.weekSlots.xs
    ensures !(r.Found? && NonEmptyArray(r.row.weekSlots)) ==> m.weekSlots == local.weekSlots
    ensures r.Found? && r.row.shoppingList.Items? ==> m.shopChecked == r.row.shoppingList.xs
    ensures !(r.Found? && r.row.shoppingList.Items?) ==> m.shopChecked == local.shopChecked
  {
    match r
    case Found(row) =>
      Local(if NonEmptyArray(row.meals) then row.meals.xs else local.meals,
            if NonEmptyArray(row.weekSlots) then row.weekSlots.xs else local.weekSlots,
            if row.shoppingList.Items? then row.shoppingList.xs else local.shopChecked)
    case _ => local
  }

  /** No row and a failed fetch change nothing. */
  lemma MergeNothingFetched(local: Local, r: FetchResult)
    requires !r.Found?
    ensures Merge(local, r) == local
  {
  }

  /** A merge never empties a non-empty library or week. */
  lemma MergeKeepsContent(local: Local, r: FetchResult)
    ensures |local.meals| > 0 ==> |Merge(local, r).meals| > 0
    ensures |local.weekSlots| > 0 ==> |Merge(local, r).weekSlots| > 0
  {
  }

  /** Merging the same answer twice is merging it once. */
  lemma MergeIdempotent(local: Local, r: FetchResult)
    ensures Merge(Merge(local, r), r) == Merge(local, r)
  {
  }

  /** Which cells a fetch replaces. */
  function Replaced(r: FetchResult): (bool, bool, bool) {
    if r.Found? then (NonEmptyArray(r.row.meals), NonEmptyArray(r.row.weekSlots), r.row.shoppingList.Items?)
    else (false, false, false)
  }

  /** Applying the same effect writes twice is applying them once. */
  lemma ApplyEffectsTwice(store: map<string, Stored>, full: bool, meals: seq<Meal>, slots: seq<LegacySlot>,
                          shop: seq<string>, mc: bool, sc: bool, shc: bool)
    ensures var w := EffectWrites(meals, slots, shop, mc, sc, shc);
      Apply(Apply(store, full, w), full, w) == Apply(store, full, w)
  {
    if !full {
      var w := EffectWrites(meals, slots, shop, mc, sc, shc);
      var once := Apply(store, false, w);
      var twice := Apply(once, false, w);
      EffectsCacheState(store, meals, slots, shop, mc, sc, shc);
      EffectsCacheState(once, meals, slots, shop, mc, sc, shc);
      forall k ensures SameAt(twice, once, k) {
        if k != MealsKey && k != WeekKey && k != ShopKey {
          assert SameAt(twice, once, k);
        }
      }
      assert twice.Keys == once.Keys by {
        assert forall k :: SameAt(twice, once, k) ==> (k in twice <==> k in once);
      }
      assert forall k :: k in twice ==> twice[k] == once[k] by {
        assert forall k :: SameAt(twice, once, k) ==> (k in twice ==> twice[k] == once[k]);
      }
    }
  }

  /** `fetchCloudData` once the query has answered `r`. Each replaced cell is
      set and written with `safeSetItem`, in the order meals, week,
      checklist; the setters do not touch the store, so these writes are the
      effect writes of the new state. After the commit the hook's
      persistence effects run for the replaced cells and write the same
      records again. */
  method FetchCloudData(lib: MealLibrary, r: FetchResult)
    requires lib.Valid()
    modifies lib
    ensures lib.Valid()
    ensures Local(lib.meals, lib.weekSlots, lib.shopChecked)
            == Merge(Local(old(lib.meals), old(lib.weekSlots), old(lib.shopChecked)), r)
    ensures lib.storageFull == old(lib.storageFull)
    ensures var (mc, sc, shc) := Replaced(r);
      var w := EffectWrites(lib.meals, lib.weekSlots, lib.shopChecked, mc, sc, shc);
      && lib.store == Apply(old(lib.store), lib.storageFull, w)
      && lib.toasts == old(lib.toasts) + Warnings(lib.storageFull, w) + Warnings(lib.storageFull, w)
  {
    var (mc, sc, shc) := Replaced(r);
    if r.Found? {
      var data := r.row;
      if NonEmptyArray(data.meals) {
        lib.meals := data.meals.xs;
      }
      if NonEmptyArray(data.weekSlots) {
        lib.weekSlots := data.weekSlots.xs;
      }
      if data.shoppingList.Items? {
        lib.shopChecked := data.shoppingList.xs;
      }
    }
    lib.Persist(mc, sc, shc);   // the fetch's own safeSetItem calls
    lib.Persist(mc, sc, shc);   // the persistence effects
    ApplyEffectsTwice(old(lib.store), lib.storageFull, lib.meals, lib.weekSlots, lib.shopChecked, mc, sc, shc);
  }

  /** After a fetch that the store accepts, every replaced cell is cached
      under its key, the keys of the cells not replaced keep their records,
      and other keys are untouched. */
  lemma FetchCaches(store: map<string, Stored>, local: Local, r: FetchResult)
    ensures var m := Merge(local, r);
      var (mc, sc, shc) := Replaced(r);
      var s := Apply(store, false, EffectWrites(m.meals, m.weekSlots, m.shopChecked, mc, sc, shc));
      && (mc ==> MealsKey in s && s[MealsKey] == MealList(r.row.meals.xs))
      && (sc ==> WeekKey in s && s[WeekKey] == SlotList(r.row.weekSlots.xs))
      && (shc ==> ShopKey in s && s[ShopKey] == IdList(r.row.shoppingList.xs))
      && (!mc ==> SameAt(s, store, MealsKey))
      && (!sc ==> SameAt(s, store, WeekKey))
      && (!shc ==> SameAt(s, store, ShopKey))
      && (!r.Found? ==> s == store)
  {
    var m := Merge(local, r);
    var (mc, sc, shc) := Replaced(r);
    EffectsCacheState(store, m.meals, m.weekSlots, m.shopChecked, mc, sc, shc);
  }

  /** The row `saveToCloud` upserts: the whole state, replacing the stored row. */
  datatype UpsertRow = UpsertRow(userId: string, meals: seq<Meal>, weekSlots: seq<LegacySlot>,
                                 shoppingList: seq<string>, updatedAt: string)

  /** `saveToCloud`: nothing without a signed-in user or a configured
      backend; otherwise the user's id and all three collections, stamped
      with the time of the call. */
  function SaveToCloud(user: Option<string>, configured: bool, meals: seq<Meal>,
                       slots: seq<LegacySlot>, shop: seq<string>, stamp: string): (r: Option<UpsertRow>)
    ensures r.Some? <==> user.Some? && configured
    ensures r.Some? ==> r.value.userId == user.value && r.value.meals == meals
                        && r.value.weekSlots == slots && r.value.shoppingList == shop
  {
    if user.None? || !configured then None
    else Some(UpsertRow(user.value, meals, slots, shop, stamp))
  }

  /** The toast a failed upsert shows. */
  function SyncFailedToast(message: string): (t: Toast)
    ensures t.kind == Error
    ensures IsPrefix("Sync failed: ", t.message)
  {
    Toast("Sync failed: " + message, Error)
  }

  /** The three sync listeners: a library change pushes when a user is
      signed in and the library is not empty, a week change when a user is
      signed in and the week is not empty, a checklist change whenever a
      user is signed in. */
  function ListenerCalls(user: Option<string>, meals: seq<Meal>, slots: seq<LegacySlot>,
                         mealsChanged: bool, slotsChanged: bool, shopChanged: bool): (r: nat)
    ensures r <= 3
    ensures r == 0 <==> user.None? || (!(mealsChanged && |meals| > 0) && !(slotsChanged && |slots| > 0) && !shopChanged)
    ensures user.Some? && shopChanged ==> r >= 1
    ensures r == 3 <==> user.Some? && mealsChanged && |meals| > 0 && slotsChanged && |slots| > 0 && shopChanged
  {
    (if mealsChanged && user.Some? && |meals| > 0 then 1 else 0)
    + (if slotsChanged && user.Some? && |slots| > 0 then 1 else 0)
    + (if shopChanged && user.Some? then 1 else 0)
  }

  /** The rows pushed after a commit: one per listener that calls
      `saveToCloud`, each carrying the whole current state. */
  function Pushes(user: Option<string>, configured: bool, meals: seq<Meal>, slots: seq<LegacySlot>,
                  shop: seq<string>, mc: bool, sc: bool, shc: bool, stamp: string): (r: seq<UpsertRow>)
    ensures |r| == if user.Some? && configured then ListenerCalls(user, meals, slots, mc, sc, shc) else 0
    ensures forall j :: 0 <= j < |r| ==> user.Some? && r[j] == UpsertRow(user.value, meals, slots, shop, stamp)
  {
    match SaveToCloud(user, configured, meals, slots, shop, stamp)
    case Some(row) => seq(ListenerCalls(user, meals, slots, mc, sc, shc), _ => row)
    case None => []
  }

  /** Nothing is pushed without a user or a backend; a pushed row is always
      the full current state of that user; a change to an empty library or
      an empty week alone pushes nothing; and for a signed-in user on a
      configured backend, a change to a non-empty library, a change to a
      non-empty week and a checklist change each push, one row per
      listener that fires. */
  lemma PushGuards(user: Option<string>, configured: bool, meals: seq<Meal>, slots: seq<LegacySlot>,
                   shop: seq<string>, mc: bool, sc: bool, shc: bool, stamp: string)
    ensures user.None? || !configured ==> Pushes(user, configured, meals, slots, shop, mc, sc, shc, stamp) == []
    ensures forall row :: row in Pushes(user, configured, meals, slots, shop, mc, sc, shc, stamp) ==>
              user.Some? && row == UpsertRow(user.value, meals, slots, shop, stamp)
    ensures |meals| == 0 && !sc && !shc ==> Pushes(user, configured, meals, slots, shop, mc, sc, shc, stamp) == []
    ensures |slots| == 0 && !mc && !shc ==> Pushes(user, configured, meals, slots, shop, mc, sc, shc, stamp) == []
    ensures user.Some? && configured && shc ==> |Pushes(user, configured, meals, slots, shop, mc, sc, shc, stamp)| >= 1
    ensures user.Some? && configured && mc && |meals| > 0 ==> |Pushes(user, configured, meals, slots, shop, mc, sc, shc, stamp)| >= 1
    ensures user.Some? && configured && sc && |slots| > 0 ==> |Pushes(user, configured, meals, slots, shop, mc, sc, shc, stamp)| >= 1
    ensures user.Some? && configured ==>
              |Pushes(user, configured, meals, slots, shop, mc, sc, shc, stamp)| == ListenerCalls(user, meals, slots, mc, sc, shc)
  {
  }
}
