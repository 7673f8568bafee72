/** The planning logic of App.tsx: the outcome of a family vote (vote
    counts raised, winners spread over the week in three round-robin
    passes), the dashboard's recency tiers sorted by votes, and the search
    filter. App.tsx works on the slot shape of types.ts, a list of meal ids
    per day. */
module App {
  import opened Types
  import opened Text
  import opened Utils

  /** The vote step of `handleVotingComplete`: every meal of the library
      that was selected gains one vote (an absent count reads as zero);
      nothing else changes. */
  function AddVotes(meals: seq<Meal>, selected: seq<Meal>): (r: seq<Meal>)
    ensures |r| == |meals|
    ensures forall i :: 0 <= i < |meals| ==>
      VotesOf(r[i]) == VotesOf(meals[i]) + (if meals[i].id in Ids(selected) then 1 else 0)
    ensures forall i :: 0 <= i < |meals| ==> r[i].(votes := meals[i].votes) == meals[i]
    ensures forall i :: 0 <= i < |meals| ==> meals[i].id !in Ids(selected) ==> r[i] == meals[i]
  {
    if meals == [] then []
    else
      var m := meals[0];
      [if m.id in Ids(selected) then m.(votes := Some(VotesOf(m) + 1)) else m] + AddVotes(meals[1..], selected)
  }

  /** The library order and the ids are those of the library. */
  lemma AddVotesKeepsIds(meals: seq<Meal>, selected: seq<Meal>)
    ensures Ids(AddVotes(meals, selected)) == Ids(meals)
  {
    var r := AddVotes(meals, selected);
    assert forall i :: 0 <= i < |meals| ==> Ids(r)[i] == r[i].id == meals[i].id;
  }

  /** The most meals a day receives from a vote. */
  const DayCap: nat := 3

  /** One pass `p` of the inner loop, from day `i` on with `k` selections
      already placed: a day holding at most `p` meals receives the next
      selection, until the days or the selections run out. */
  function PassFrom(slots: seq<DaySlot>, ids: seq<string>, k: nat, p: nat, i: nat): (r: (seq<DaySlot>, nat))
    requires i <= |slots| && k <= |ids|
    ensures k <= r.1 <= |ids| && |r.0| == |slots|
    decreases |slots| - i
  {
    if i == |slots| || k == |ids| then (slots, k)
    else if |slots[i].mealIds| <= p then
      PassFrom(slots[i := slots[i].(mealIds := slots[i].mealIds + [ids[k]])], ids, k + 1, p, i + 1)
    else
      PassFrom(slots, ids, k, p, i + 1)
  }

  /** What a pass from day `i` guarantees about the week `after` it builds
      from `before`: the same days with the same labels; each day only
      appended to, by at most one meal; the days before `i` and the days
      holding more than `p` meals untouched; a day holding at most `p`
      meals ends with at most `p + 1`; and when selections are left over
      (`leftover`) and every day from `i` held at least `p`, every such day
      ends with more than `p`. */
  predicate PassShape(before: seq<DaySlot>, after: seq<DaySlot>, p: nat, i: nat, leftover: bool) {
    && |after| == |before|
    && (forall j :: 0 <= j < |before| ==> after[j].dayLabel == before[j].dayLabel)
    && (forall j :: 0 <= j < |before| ==> before[j].mealIds <= after[j].mealIds)
    && (forall j :: 0 <= j < |before| ==> |after[j].mealIds| <= |before[j].mealIds| + 1)
    && (forall j :: 0 <= j < |before| && (j < i || |before[j].mealIds| > p) ==> after[j] == before[j])
    && (forall j :: 0 <= j < |before| && |before[j].mealIds| <= p ==> |after[j].mealIds| <= p + 1)
    && (leftover && (forall j :: i <= j < |before| ==> |before[j].mealIds| >= p) ==>
          forall j :: i <= j < |before| ==> |after[j].mealIds| > p)
  }

  /** The converse half of a pass: an eligible day from `i` (holding at most
      `p` meals) that the pass leaves as it was marks the end of the
      selections, so nothing is left over and no later day changes either. */
  predicate PassStops(before: seq<DaySlot>, after: seq<DaySlot>, p: nat, i: nat, leftover: bool)
    requires |after| == |before|
  {
    forall j :: i <= j < |before| && |before[j].mealIds| <= p && after[j] == before[j] ==>
      !leftover && forall j' :: j <= j' < |before| ==> after[j'] == before[j']
  }

  /** Every pass has the shape `PassShape` describes. */
  lemma {:induction false} PassFromShape(slots: seq<DaySlot>, ids: seq<string>, k: nat, p: nat, i: nat)
    requires i <= |slots| && k <= |ids|
    ensures var r := PassFrom(slots, ids, k, p, i); PassShape(slots, r.0, p, i, r.1 < |ids|)
    decreases |slots| - i
  {
    var r := PassFrom(slots, ids, k, p, i);
    if i == |slots| || k == |ids| {
    } else if |slots[i].mealIds| <= p {
      var s := slots[i := slots[i].(mealIds := slots[i].mealIds + [ids[k]])];
      PassFromShape(s, ids, k + 1, p, i + 1);
      PlacedShape(slots, s, r.0, ids, k, p, i, r.1 < |ids|);
    } else {
      PassFromShape(slots, ids, k, p, i + 1);
    }
  }

  /** Every pass stops as `PassStops` describes: an eligible day receives
      nothing only once the selections have run out. */
  lemma {:induction false} PassFromStops(slots: seq<DaySlot>, ids: seq<string>, k: nat, p: nat, i: nat)
    requires i <= |slots| && k <= |ids|
    ensures var r := PassFrom(slots, ids, k, p, i); PassStops(slots, r.0, p, i, r.1 < |ids|)
    decreases |slots| - i
  {
    var r := PassFrom(slots, ids, k, p, i);
    if i == |slots| || k == |ids| {
    } else if |slots[i].mealIds| <= p {
      var s := slots[i := slots[i].(mealIds := slots[i].mealIds + [ids[k]])];
      PassFromStops(s, ids, k + 1, p, i + 1);
      PassFromShape(s, ids, k + 1, p, i + 1);
      assert r.0[i] != slots[i] by {
        assert |r.0[i].mealIds| >= |s[i].mealIds| > |slots[i].mealIds|;
      }
    } else {
      PassFromStops(slots, ids, k, p, i + 1);
    }
  }

  /** The step of `PassFromShape` where day `i` receives selection `k`. */
  lemma PlacedShape(slots: seq<DaySlot>, s: seq<DaySlot>, t: seq<DaySlot>, ids: seq<string>, k: nat, p: nat, i: nat,
                    leftover: bool)
    requires i < |slots| && k < |ids| && |slots[i].mealIds| <= p
    requires s == slots[i := slots[i].(mealIds := slots[i].mealIds + [ids[k]])]
    requires PassShape(s, t, p, i + 1, leftover)
    ensures PassShape(slots, t, p, i, leftover)
  {
    forall j | 0 <= j < |slots| ensures slots[j].mealIds <= t[j].mealIds {
      if j == i {
        PrefixTransitive(slots[j].mealIds, s[j].mealIds, t[j].mealIds);
      }
    }
  }

  /** The passes `p` to 2, starting with `k` selections placed. */
  function PassesFrom(slots: seq<DaySlot>, ids: seq<string>, k: nat, p: nat): (r: (seq<DaySlot>, nat))
    requires k <= |ids| && p <= DayCap
    ensures k <= r.1 <= |ids|
    ensures |r.0| == |slots|
    decreases DayCap - p
  {
    if p == DayCap then (slots, k)
    else
      var (s, k') := PassFrom(slots, ids, k, p, 0);
      PassesFrom(s, ids, k', p + 1)
  }

  /** The week after the vote's three passes: the same number of days. */
  function Distribute(slots: seq<DaySlot>, ids: seq<string>): (r: seq<DaySlot>)
    ensures |r| == |slots|
  {
    PassesFrom(slots, ids, 0, 0).0
  }

  /** How many selections the three passes place. */
  function Placed(slots: seq<DaySlot>, ids: seq<string>): (r: nat)
    ensures r <= |ids|
  {
    PassesFrom(slots, ids, 0, 0).1
  }

  /** What the passes from `p` on guarantee about a week `after` built from
      `before`: the same days with the same labels, each day only appended
      to, a day already holding `DayCap` or more meals left alone, no day
      raised above `DayCap` unless it was already, each day raised by at
      most `DayCap - p`; and when selections are left over (`leftover`),
      every day holds at least `DayCap`. */
  predicate Shape(before: seq<DaySlot>, after: seq<DaySlot>, p: nat, leftover: bool) {
    && |after| == |before|
    && (forall j :: 0 <= j < |before| ==> after[j].dayLabel == before[j].dayLabel)
    && (forall j :: 0 <= j < |before| ==> before[j].mealIds <= after[j].mealIds)
    && (forall j :: 0 <= j < |before| && |before[j].mealIds| >= DayCap ==> after[j] == before[j])
    && (forall j :: 0 <= j < |before| ==> |after[j].mealIds| <= Max(|before[j].mealIds|, DayCap))
    && (forall j :: 0 <= j < |before| ==> |after[j].mealIds| <= |before[j].mealIds| + (DayCap - p))
    && (leftover && (forall j :: 0 <= j < |before| ==> |before[j].mealIds| >= p) ==>
          forall j :: 0 <= j < |before| ==> |after[j].mealIds| >= DayCap)
  }

  lemma {:induction false} PassesFromShape(slots: seq<DaySlot>, ids: seq<string>, k: nat, p: nat)
    requires k <= |ids| && p <= DayCap
    ensures var r := PassesFrom(slots, ids, k, p); Shape(slots, r.0, p, r.1 < |ids|)
    decreases DayCap - p
  {
    var r := PassesFrom(slots, ids, k, p);
    if p == DayCap {
      ShapeNone(slots, r.1 < |ids|);
    } else {
      var q := PassFrom(slots, ids, k, p, 0);
      PassFromShape(slots, ids, k, p, 0);
      PassesFromShape(q.0, ids, q.1, p + 1);
      ShapeStep(slots, q.0, r.0, p, q.1 < |ids|, r.1 < |ids|);
    }
  }

  /** No pass at all leaves the week as it is. */
  lemma ShapeNone(slots: seq<DaySlot>, leftover: bool)
    ensures Shape(slots, slots, DayCap, leftover)
  {
  }

  /** One pass over the whole week followed by the later passes has the
      shape of the passes from `p`. */
  lemma ShapeStep(slots: seq<DaySlot>, s: seq<DaySlot>, t: seq<DaySlot>, p: nat, leftS: bool, leftT: bool)
    requires p < DayCap
    requires PassShape(slots, s, p, 0, leftS)
    requires Shape(s, t, p + 1, leftT)
    requires leftT ==> leftS
    ensures Shape(slots, t, p, leftT)
  {
    forall j | 0 <= j < |slots| ensures slots[j].mealIds <= t[j].mealIds {
      PrefixTransitive(slots[j].mealIds, s[j].mealIds, t[j].mealIds);
    }
  }

  function Max(a: int, b: int): int { if a < b then b else a }

  lemma PrefixTransitive(a: seq<string>, b: seq<string>, c: seq<string>)
    requires a <= b && b <= c
    ensures a <= c
  {
    assert c[..|a|] == c[..|b|][..|a|];
  }

  /** The distribution's guarantees, for all weeks and selections: same
      days with the same labels; each day's old meals are a prefix of its new
      ones; a day with three or more meals receives nothing; no day ends with
      more than three meals unless it already had them; each day receives at
      most three; and selections are left unplaced only when every day is
      full. */
  lemma DistributeShape(slots: seq<DaySlot>, ids: seq<string>)
    ensures |Distribute(slots, ids)| == |slots|
    ensures Placed(slots, ids) <= |ids|
    ensures forall j :: 0 <= j < |slots| ==> Distribute(slots, ids)[j].dayLabel == slots[j].dayLabel
    ensures forall j :: 0 <= j < |slots| ==> slots[j].mealIds <= Distribute(slots, ids)[j].mealIds
    ensures forall j :: 0 <= j < |slots| && |slots[j].mealIds| >= 3 ==> Distribute(slots, ids)[j] == slots[j]
    ensures forall j :: 0 <= j < |slots| ==> |Distribute(slots, ids)[j].mealIds| <= Max(|slots[j].mealIds|, 3)
    ensures forall j :: 0 <= j < |slots| ==> |Distribute(slots, ids)[j].mealIds| <= |slots[j].mealIds| + 3
    ensures Placed(slots, ids) < |ids| ==> forall j :: 0 <= j < |slots| ==> |Distribute(slots, ids)[j].mealIds| >= 3
  {
    PassesFromShape(slots, ids, 0, 0);
    assert Shape(slots, Distribute(slots, ids), 0, Placed(slots, ids) < |ids|);
  }

  /** The meals one pass appended, day by day from day `i`, concatenated. */
  function Appended(before: seq<DaySlot>, after: seq<DaySlot>, i: nat): seq<string>
    requires |before| == |after| && i <= |before|
    requires forall j :: 0 <= j < |before| ==> before[j].mealIds <= after[j].mealIds
    decreases |before| - i
  {
    if i == |before| then []
    else after[i].mealIds[|before[i].mealIds|..] + Appended(before, after, i + 1)
  }

  lemma {:induction false} AppendedFrom(b1: seq<DaySlot>, b2: seq<DaySlot>, after: seq<DaySlot>, i: nat)
    requires |b1| == |b2| == |after| && i <= |b1|
    requires forall j :: 0 <= j < |b1| ==> b1[j].mealIds <= after[j].mealIds && b2[j].mealIds <= after[j].mealIds
    requires forall j :: i <= j < |b1| ==> b1[j] == b2[j]
    ensures Appended(b1, after, i) == Appended(b2, after, i)
    decreases |b1| - i
  {
    if i < |b1| {
      AppendedFrom(b1, b2, after, i + 1);
    }
  }

  /** Selections are consumed in order: reading the days of a pass in order,
      the meals the pass appended are exactly the selections it placed. */
  lemma {:induction false} PassConsumesInOrder(slots: seq<DaySlot>, ids: seq<string>, k: nat, p: nat, i: nat)
    requires i <= |slots| && k <= |ids|
    ensures var r := PassFrom(slots, ids, k, p, i);
      |r.0| == |slots| && (forall j :: 0 <= j < |slots| ==> slots[j].mealIds <= r.0[j].mealIds) &&
      Appended(slots, r.0, i) == ids[k..r.1]
    decreases |slots| - i
  {
    var r := PassFrom(slots, ids, k, p, i);
    if i == |slots| || k == |ids| {
      if i < |slots| {
        AppendedNone(slots, i);
      }
    } else if |slots[i].mealIds| <= p {
      var s := slots[i := slots[i].(mealIds := slots[i].mealIds + [ids[k]])];
      PassConsumesInOrder(s, ids, k + 1, p, i + 1);
      PassFromShape(s, ids, k + 1, p, i + 1);
      assert r == PassFrom(s, ids, k + 1, p, i + 1);
      PlacedStep(slots, s, r, ids, k, i);
    } else {
      PassConsumesInOrder(slots, ids, k, p, i + 1);
      PassFromShape(slots, ids, k, p, i + 1);
      assert r == PassFrom(slots, ids, k, p, i + 1);
      SkippedStep(slots, r, ids, k, i);
    }
  }

  /** The step of `PassConsumesInOrder` where day `i` receives selection `k`. */
  lemma PlacedStep(slots: seq<DaySlot>, s: seq<DaySlot>, r: (seq<DaySlot>, nat), ids: seq<string>, k: nat, i: nat)
    requires i < |slots| && k < |ids| && s == slots[i := slots[i].(mealIds := slots[i].mealIds + [ids[k]])]
    requires |r.0| == |slots| && k + 1 <= r.1 <= |ids|
    requires forall j :: 0 <= j < |s| ==> s[j].mealIds <= r.0[j].mealIds
    requires Appended(s, r.0, i + 1) == ids[k + 1..r.1]
    requires r.0[i] == s[i]
    ensures forall j :: 0 <= j < |slots| ==> slots[j].mealIds <= r.0[j].mealIds
    ensures Appended(slots, r.0, i) == ids[k..r.1]
  {
    forall j | 0 <= j < |slots| ensures slots[j].mealIds <= r.0[j].mealIds {
      if j == i {
        PrefixTransitive(slots[j].mealIds, s[j].mealIds, r.0[j].mealIds);
      }
    }
    AppendedFrom(slots, s, r.0, i + 1);
    assert r.0[i].mealIds[|slots[i].mealIds|..] == [ids[k]];
    assert ids[k..r.1] == [ids[k]] + ids[k + 1..r.1];
  }

  /** The step of `PassConsumesInOrder` where day `i` is skipped. */
  lemma SkippedStep(slots: seq<DaySlot>, r: (seq<DaySlot>, nat), ids: seq<string>, k: nat, i: nat)
    requires i < |slots| && k <= r.1 <= |ids| && |r.0| == |slots|
    requires forall j :: 0 <= j < |slots| ==> slots[j].mealIds <= r.0[j].mealIds
    requires Appended(slots, r.0, i + 1) == ids[k..r.1]
    requires r.0[i] == slots[i]
    ensures Appended(slots, r.0, i) == ids[k..r.1]
  {
    assert r.0[i].mealIds[|slots[i].mealIds|..] == [];
  }

  lemma {:induction false} AppendedNone(slots: seq<DaySlot>, i: nat)
    requires i <= |slots|
    ensures Appended(slots, slots, i) == []
    decreases |slots| - i
  {
    if i < |slots| {
      AppendedNone(slots, i + 1);
      assert slots[i].mealIds[|slots[i].mealIds|..] == [];
    }
  }

  /** Seven empty days and five selections: selection `k` goes to day `k`,
      one per day, and the last two days stay empty. */
  lemma DistributeFiveOverEmptyWeek(ids: seq<string>)
    requires |ids| == 5
    ensures var w := seq(7, d requires 0 <= d < 7 => DaySlot(Days[d], []));
      Distribute(w, ids) == seq(7, d requires 0 <= d < 7 => DaySlot(Days[d], if d < 5 then [ids[d]] else []))
  {
    var w := seq(7, d requires 0 <= d < 7 => DaySlot(Days[d], []));
    var expected := seq(7, d requires 0 <= d < 7 => DaySlot(Days[d], if d < 5 then [ids[d]] else []));
    FirstPassFills(w, ids, 0);
    assert PassFrom(w, ids, 0, 0, 0).0 == expected;
    assert PassesFrom(expected, ids, 5, 2) == (expected, 5);
    assert PassesFrom(expected, ids, 5, 1) == (expected, 5);
  }

  /** When the days from `k` up to the number of selections are empty, the
      first pass from day `k` with `k` selections placed puts selection `d`
      on day `d` for each of those days and places every selection. */
  lemma {:induction false} FirstPassFills(s: seq<DaySlot>, ids: seq<string>, k: nat)
    requires k <= |ids| <= |s|
    requires forall d :: k <= d < |ids| ==> s[d].mealIds == []
    ensures PassFrom(s, ids, k, 0, k)
            == (seq(|s|, d requires 0 <= d < |s| => if k <= d < |ids| then DaySlot(s[d].dayLabel, [ids[d]]) else s[d]), |ids|)
    decreases |ids| - k
  {
    var filled := seq(|s|, d requires 0 <= d < |s| => if k <= d < |ids| then DaySlot(s[d].dayLabel, [ids[d]]) else s[d]);
    if k == |ids| {
      assert filled == s;
    } else {
      var s' := s[k := DaySlot(s[k].dayLabel, [ids[k]])];
      PlaceOnEmptyDay(s, ids, k);
      FirstPassFills(s', ids, k + 1);
      var filled' := seq(|s'|, d requires 0 <= d < |s'| => if k + 1 <= d < |ids| then DaySlot(s'[d].dayLabel, [ids[d]]) else s'[d]);
      assert filled' == filled;
    }
  }

  /** On the first pass, an empty day `k` reached with `k` selections placed
      receives selection `k`. */
  lemma PlaceOnEmptyDay(s: seq<DaySlot>, ids: seq<string>, k: nat)
    requires k < |ids| && k < |s| && s[k].mealIds == []
    ensures PassFrom(s, ids, k, 0, k) == PassFrom(s[k := DaySlot(s[k].dayLabel, [ids[k]])], ids, k + 1, 0, k + 1)
  {
    assert s[k].(mealIds := s[k].mealIds + [ids[k]]) == DaySlot(s[k].dayLabel, [ids[k]]);
  }

  /** One pass of the inner loop of `handleVotingComplete` over the days. */
  method RunPass(slots: seq<DaySlot>, selected: seq<Meal>, start: nat, pass: nat)
    returns (current: seq<DaySlot>, mealIndex: nat)
    requires start <= |selected|
    ensures (current, mealIndex) == PassFrom(slots, Ids(selected), start, pass, 0)
  {
    ghost var ids := Ids(selected);
    current, mealIndex := slots, start;
    var i := 0;
    while i < |current| && mealIndex < |selected|
      invariant i <= |current| && mealIndex <= |ids|
      invariant PassFrom(current, ids, mealIndex, pass, i) == PassFrom(slots, ids, start, pass, 0)
      decreases |current| - i
    {
      if |current[i].mealIds| <= pass {
        var next := current[i := current[i].(mealIds := current[i].mealIds + [selected[mealIndex].id])];
        assert ids[mealIndex] == selected[mealIndex].id;
        assert PassFrom(current, ids, mealIndex, pass, i) == PassFrom(next, ids, mealIndex + 1, pass, i + 1);
        current := next;
        mealIndex := mealIndex + 1;
      } else {
        assert PassFrom(current, ids, mealIndex, pass, i) == PassFrom(current, ids, mealIndex, pass, i + 1);
      }
      i := i + 1;
    }
  }

  /** The placement step of `handleVotingComplete`: three passes over a
      copy of the week, consuming the selections in order. */
  method DistributeVotes(slots: seq<DaySlot>, selected: seq<Meal>) returns (current: seq<DaySlot>)
    ensures current == Distribute(slots, Ids(selected))
  {
    ghost var ids := Ids(selected);
    current := slots;
    var mealIndex: nat := 0;
    for pass := 0 to DayCap
      invariant mealIndex <= |ids| == |selected|
      invariant PassesFrom(current, ids, mealIndex, pass) == PassesFrom(slots, ids, 0, 0)
    {
      PassesFromUnfold(current, ids, mealIndex, pass);
      current, mealIndex := RunPass(current, selected, mealIndex, pass);
    }
    PassesFromDone(current, ids, mealIndex);
  }

  lemma PassesFromUnfold(s: seq<DaySlot>, ids: seq<string>, k: nat, p: nat)
    requires k <= |ids| && p < DayCap
    ensures var q := PassFrom(s, ids, k, p, 0); PassesFrom(s, ids, k, p) == PassesFrom(q.0, ids, q.1, p + 1)
  {
  }

  lemma PassesFromDone(s: seq<DaySlot>, ids: seq<string>, k: nat)
    requires k <= |ids|
    ensures PassesFrom(s, ids, k, DayCap) == (s, k)
  {
  }

  /** `handleVotingComplete` on the library and the week: the library with
      the new vote counts, the week with the winners placed, and the toast
      text. */
  method HandleVotingComplete(meals: seq<Meal>, weekSlots: seq<DaySlot>, selected: seq<Meal>)
    returns (updatedMeals: seq<Meal>, currentSlots: seq<DaySlot>, message: string)
    ensures updatedMeals == AddVotes(meals, selected)
    ensures currentSlots == Distribute(weekSlots, Ids(selected))
    ensures message == "Added " + NatToString(|selected|) + " family favorites!"
  {
    updatedMeals := AddVotes(meals, selected);
    currentSlots := DistributeVotes(weekSlots, selected);
    message := "Added " + NatToString(|selected|) + " family favorites!";
  }

  // --- Derived state: tiers and search ---

  /** Inserts `m` into a list sorted by non-increasing votes, before the
      first meal with no more votes than `m`. */
  function Insert(m: Meal, s: seq<Meal>): (r: seq<Meal>)
    ensures multiset(r) == multiset(s) + multiset{m}
    ensures |r| == |s| + 1
  {
    if s == [] || VotesOf(s[0]) <= VotesOf(m) then [m] + s
    else
      assert s == [s[0]] + s[1..];
      [s[0]] + Insert(m, s[1..])
  }

  /** `.sort(sortByVotes)`: an insertion sort on the comparator `b - a` of
      the vote counts. Like the stable sort of JavaScript it keeps meals with
      equal votes in their original order. */
  function SortByVotes(ms: seq<Meal>): (r: seq<Meal>)
    ensures multiset(r) == multiset(ms)
    ensures |r| == |ms|
  {
    if ms == [] then []
    else
      assert ms == [ms[0]] + ms[1..];
      Insert(ms[0], SortByVotes(ms[1..]))
  }

  predicate SortedByVotes(ms: seq<Meal>) {
    forall i, j :: 0 <= i < j < |ms| ==> VotesOf(ms[i]) >= VotesOf(ms[j])
  }

  /** The meals of `ms` with exactly `v` votes, in order. */
  function WithVotes(ms: seq<Meal>, v: int): seq<Meal> {
    if ms == [] then []
    else (if VotesOf(ms[0]) == v then [ms[0]] else []) + WithVotes(ms[1..], v)
  }

  lemma {:induction false} InsertSorted(m: Meal, s: seq<Meal>)
    requires SortedByVotes(s)
    ensures SortedByVotes(Insert(m, s))
  {
    if s != [] && VotesOf(s[0]) > VotesOf(m) {
      assert SortedByVotes(s[1..]);
      InsertSorted(m, s[1..]);
      var r := Insert(m, s);
      var t := Insert(m, s[1..]);
      assert r == [s[0]] + t;
      forall j | 0 < j < |r| ensures VotesOf(r[0]) >= VotesOf(r[j]) {
        assert r[j] in multiset(t);
        assert r[j] in multiset(s[1..]) + multiset{m};
        if r[j] != m {
          assert r[j] in s[1..];
        }
      }
    }
  }

  /** Inserting `m` puts it before the meals with its vote count. */
  lemma {:induction false} InsertWithVotes(m: Meal, s: seq<Meal>, v: int)
    requires SortedByVotes(s)
    ensures WithVotes(Insert(m, s), v) == (if VotesOf(m) == v then [m] else []) + WithVotes(s, v)
  {
    if s == [] || VotesOf(s[0]) <= VotesOf(m) {
      assert ([m] + s)[1..] == s;
    } else {
      assert SortedByVotes(s[1..]);
      InsertWithVotes(m, s[1..], v);
      assert (([s[0]] + Insert(m, s[1..])))[1..] == Insert(m, s[1..]);
    }
  }

  /** The sort orders by non-increasing votes, keeps every meal, and is
      stable: the meals with any one vote count come out in the order they
      went in. */
  lemma {:induction false} SortByVotesCorrect(ms: seq<Meal>)
    ensures SortedByVotes(SortByVotes(ms))
    ensures multiset(SortByVotes(ms)) == multiset(ms)
    ensures forall v :: WithVotes(SortByVotes(ms), v) == WithVotes(ms, v)
  {
    if ms != [] {
      SortByVotesCorrect(ms[1..]);
      InsertSorted(ms[0], SortByVotes(ms[1..]));
      forall v ensures WithVotes(SortByVotes(ms), v) == WithVotes(ms, v) {
        InsertWithVotes(ms[0], SortByVotes(ms[1..]), v);
      }
    }
  }

  /** `meals.filter(m => getTier(m.lastCooked) === tier)`. */
  function InTier(ms: seq<Meal>, now: int, tier: Tier): (r: seq<Meal>)
    ensures forall m :: m in r <==> m in ms && GetTier(now, m.lastCooked) == tier
  {
    if ms == [] then []
    else (if GetTier(now, ms[0].lastCooked) == tier then [ms[0]] else []) + InTier(ms[1..], now, tier)
  }

  /** A dashboard column: exactly the library's meals of one tier, as often
      as the library has them, sorted by non-increasing votes. */
  function TierColumn(ms: seq<Meal>, now: int, tier: Tier): (r: seq<Meal>)
    ensures multiset(r) == multiset(InTier(ms, now, tier))
    ensures forall m :: m in r <==> m in ms && GetTier(now, m.lastCooked) == tier
    ensures SortedByVotes(r)
  {
    SortByVotesCorrect(InTier(ms, now, tier));
    SameMembers(SortByVotes(InTier(ms, now, tier)), InTier(ms, now, tier));
    SortByVotes(InTier(ms, now, tier))
  }

  /** Two lists with the same multiset hold the same members. */
  lemma SameMembers(a: seq<Meal>, b: seq<Meal>)
    requires multiset(a) == multiset(b)
    ensures forall m :: m in a <==> m in b
  {
    forall m ensures m in a <==> m in b {
      assert m in a <==> m in multiset(a);
    }
  }

  lemma {:induction false} InTierPartition(ms: seq<Meal>, now: int)
    ensures multiset(InTier(ms, now, High)) + multiset(InTier(ms, now, MediumTier)) + multiset(InTier(ms, now, Low))
            == multiset(ms)
  {
    if ms != [] {
      InTierPartition(ms[1..], now);
      assert ms == [ms[0]] + ms[1..];
    }
  }

  /** The high, medium and low columns together hold every meal exactly as
      often as the library does, each column holds only meals of its tier,
      and each is sorted by non-increasing votes. */
  lemma TierColumnsPartition(ms: seq<Meal>, now: int)
    ensures multiset(TierColumn(ms, now, High)) + multiset(TierColumn(ms, now, MediumTier))
            + multiset(TierColumn(ms, now, Low)) == multiset(ms)
    ensures forall t: Tier, m :: m in TierColumn(ms, now, t) ==> GetTier(now, m.lastCooked) == t
    ensures forall t: Tier :: SortedByVotes(TierColumn(ms, now, t))
  {
    InTierPartition(ms, now);
  }

  /** Some string of the list contains `q` once lowercased. */
  predicate AnyContains(xs: seq<string>, q: string) {
    xs != [] && (Includes(Lower(xs[0]), q) || AnyContains(xs[1..], q))
  }

  lemma {:induction false} AnyContainsIff(xs: seq<string>, q: string)
    ensures AnyContains(xs, q) <==> exists i :: 0 <= i < |xs| && Includes(Lower(xs[i]), q)
  {
    if xs != [] {
      AnyContainsIff(xs[1..], q);
      if AnyContains(xs[1..], q) {
        var i :| 0 <= i < |xs[1..]| && Includes(Lower(xs[1..][i]), q);
        assert Includes(Lower(xs[i + 1]), q);
      }
      if exists i :: 0 <= i < |xs| && Includes(Lower(xs[i]), q) {
        var i :| 0 <= i < |xs| && Includes(Lower(xs[i]), q);
        if i > 0 { assert Includes(Lower(xs[1..][i - 1]), q); }
      }
    }
  }

  /** The search test of one meal against the lowercased query `q`. */
  predicate MatchesQuery(m: Meal, q: string) {
    || Includes(Lower(m.title), q)
    || Includes(Lower(m.protein), q)
    || AnyContains(OrEmpty(m.tags), q)
    || AnyContains(OrEmpty(m.ingredients), q)
    || AnyContains(m.keywords, q)
  }

  function Matching(ms: seq<Meal>, q: string): (r: seq<Meal>)
    ensures forall m :: m in r <==> m in ms && MatchesQuery(m, q)
  {
    if ms == [] then []
    else (if MatchesQuery(ms[0], q) then [ms[0]] else []) + Matching(ms[1..], q)
  }

  /** `filteredMeals`: nothing for an empty query, otherwise the matching
      meals sorted by votes. */
  function FilteredMeals(ms: seq<Meal>, query: string): (r: seq<Meal>)
    ensures query == "" ==> r == []
  {
    if query == "" then [] else SortByVotes(Matching(ms, Lower(query)))
  }

  /** The search test spelled out: some field, lowercased, contains `q`. */
  predicate MatchesSpelledOut(m: Meal, q: string) {
    || Includes(Lower(m.title), q)
    || Includes(Lower(m.protein), q)
    || (exists i :: 0 <= i < |OrEmpty(m.tags)| && Includes(Lower(OrEmpty(m.tags)[i]), q))
    || (exists i :: 0 <= i < |OrEmpty(m.ingredients)| && Includes(Lower(OrEmpty(m.ingredients)[i]), q))
    || (exists i :: 0 <= i < |m.keywords| && Includes(Lower(m.keywords[i]), q))
  }

  lemma MatchesQueryIff(m: Meal, q: string)
    ensures MatchesQuery(m, q) <==> MatchesSpelledOut(m, q)
  {
    AnyContainsIff(OrEmpty(m.tags), q);
    AnyContainsIff(OrEmpty(m.ingredients), q);
    AnyContainsIff(m.keywords, q);
  }

  /** Sorting keeps exactly the matching meals. */
  lemma SortedMatchingMembers(ms: seq<Meal>, q: string)
    ensures forall m :: m in SortByVotes(Matching(ms, q)) <==> m in ms && MatchesQuery(m, q)
    ensures SortedByVotes(SortByVotes(Matching(ms, q)))
  {
    var found := Matching(ms, q);
    SortByVotesCorrect(found);
    forall m | m in SortByVotes(found) ensures m in found {
      assert m in multiset(SortByVotes(found));
    }
    forall m | m in found ensures m in SortByVotes(found) {
      assert m in multiset(found);
    }
  }

  /** For a non-empty query a meal is a result exactly when the lowercased
      query occurs in its lowercased title or protein, or in one of its
      tags, ingredients or keywords, and the results are sorted by votes. */
  lemma FilteredMealsCorrect(ms: seq<Meal>, query: string)
    requires query != ""
    ensures forall m :: m in FilteredMeals(ms, query) <==> m in ms && MatchesSpelledOut(m, Lower(query))
    ensures SortedByVotes(FilteredMeals(ms, query))
  {
    SortedMatchingMembers(ms, Lower(query));
    forall m | m in ms ensures MatchesQuery(m, Lower(query)) <==> MatchesSpelledOut(m, Lower(query)) {
      MatchesQueryIff(m, Lower(query));
    }
  }
}
