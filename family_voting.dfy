/** The family vote of components/FamilyVoting.tsx: a selection of at most
    five meals, toggled one at a time, handed over in library order. The
    shuffled display order is not modelled. */
module FamilyVoting {
  import opened Types
  import opened MealsHook

  /** The cap on the selection. */
  const MaxVotes: nat := 5

  /** `meals.filter(m => selectedIds.includes(m.id))`. */
  function Selection(ms: seq<Meal>, ids: seq<string>): (r: seq<Meal>)
    ensures forall m :: m in r <==> m in ms && m.id in ids
    ensures |r| <= |ms|
  {
    if ms == [] then [] else (if ms[0].id in ids then [ms[0]] else []) + Selection(ms[1..], ids)
  }

  /** The selection keeps the library's order and repeats: it distributes
      over concatenation of libraries (and a single meal is kept exactly when
      its id was picked, by the membership clause). */
  lemma {:induction false} SelectionAppend(a: seq<Meal>, b: seq<Meal>, ids: seq<string>)
    ensures Selection(a + b, ids) == Selection(a, ids) + Selection(b, ids)
  {
    if a == [] {
      assert a + b == b;
    } else {
      assert (a + b)[1..] == a[1..] + b;
      SelectionAppend(a[1..], b, ids);
    }
  }

  /** The selection is taken in library order: the order of the clicks does
      not matter, only which ids were picked. */
  lemma {:induction false} SelectionIgnoresClickOrder(ms: seq<Meal>, a: seq<string>, b: seq<string>)
    requires forall x :: x in a <==> x in b
    ensures Selection(ms, a) == Selection(ms, b)
  {
    if ms != [] {
      SelectionIgnoresClickOrder(ms[1..], a, b);
    }
  }

  /** Filtering a library with distinct ids gives meals with distinct ids. */
  lemma {:induction false} SelectionIdsDistinct(ms: seq<Meal>, ids: seq<string>)
    requires NoDuplicates(Ids(ms))
    ensures NoDuplicates(Ids(Selection(ms, ids)))
  {
    if ms != [] {
      assert Ids(ms[1..]) == Ids(ms)[1..];
      SelectionIdsDistinct(ms[1..], ids);
      var rest := Selection(ms[1..], ids);
      var r := Selection(ms, ids);
      if ms[0].id in ids {
        assert r == [ms[0]] + rest;
        forall i, j | 0 <= i < j < |r| ensures Ids(r)[i] != Ids(r)[j] {
          if i == 0 {
            assert r[j] == rest[j - 1] && rest[j - 1] in ms[1..];
            var k :| 0 <= k < |ms[1..]| && ms[1..][k] == r[j];
            assert Ids(ms)[k + 1] == r[j].id;
          } else {
            assert Ids(r)[i] == Ids(rest)[i - 1] && Ids(r)[j] == Ids(rest)[j - 1];
          }
        }
      }
    }
  }

  lemma {:induction false} DistinctCardinality(xs: seq<string>)
    requires NoDuplicates(xs)
    ensures |set x | x in xs| == |xs|
  {
    if xs != [] {
      DistinctCardinality(xs[1..]);
      assert (set x | x in xs) == {xs[0]} + (set x | x in xs[1..]);
      assert xs[0] !in xs[1..];
    }
  }

  lemma {:induction false} SubsetCardinality(a: set<string>, b: set<string>)
    requires a <= b
    ensures |a| <= |b|
  {
    if a != {} {
      var x :| x in a;
      SubsetCardinality(a - {x}, b - {x});
    }
  }

  /** Over a library with distinct ids, the selection holds no more meals
      than ids were picked, so at most five reach the vote count. */
  lemma SelectionSize(ms: seq<Meal>, ids: seq<string>)
    requires NoDuplicates(Ids(ms))
    ensures |Selection(ms, ids)| <= |ids|
  {
    var r := Selection(ms, ids);
    SelectionIdsDistinct(ms, ids);
    DistinctCardinality(Ids(r));
    assert (set x | x in Ids(r)) <= (set x | x in ids) by {
      forall x | x in Ids(r) ensures x in ids {
        var k :| 0 <= k < |Ids(r)| && Ids(r)[k] == x;
        assert r[k] in r;
      }
    }
    SubsetCardinality(set x | x in Ids(r), set x | x in ids);
    CardinalityAtMostLength(ids);
  }

  lemma {:induction false} CardinalityAtMostLength(xs: seq<string>)
    ensures |set x | x in xs| <= |xs|
  {
    if xs != [] {
      CardinalityAtMostLength(xs[1..]);
      assert (set x | x in xs) == {xs[0]} + (set x | x in xs[1..]);
    }
  }

  /** The voting screen over a library. */
  class Ballot {
    const meals: seq<Meal>
    var selectedIds: seq<string>

    /** The selection has no repeated id and at most five. */
    ghost predicate Valid()
      reads this
    {
      NoDuplicates(selectedIds) && |selectedIds| <= MaxVotes
    }

    constructor (meals: seq<Meal>)
      ensures this.meals == meals && selectedIds == [] && Valid()
    {
      this.meals := meals;
      selectedIds := [];
    }

    /** `toggleVote`: a selected id is removed; an unselected one is added
        while fewer than five are selected and ignored otherwise. */
    method ToggleVote(id: string)
      requires Valid()
      modifies this`selectedIds
      ensures Valid()
      ensures id in old(selectedIds) ==> selectedIds == Without(old(selectedIds), id)
      ensures id !in old(selectedIds) && |old(selectedIds)| < MaxVotes ==> selectedIds == old(selectedIds) + [id]
      ensures id !in old(selectedIds) && |old(selectedIds)| >= MaxVotes ==> selectedIds == old(selectedIds)
      ensures id in selectedIds <==> id !in old(selectedIds) && |old(selectedIds)| < MaxVotes
    {
      if id in selectedIds {
        WithoutKeepsNoDuplicates(selectedIds, id);
        selectedIds := Without(selectedIds, id);
      } else {
        if |selectedIds| < MaxVotes {
          ToggleKeepsNoDuplicates(selectedIds, id);
          selectedIds := selectedIds + [id];
        }
      }
    }

    /** The Done button: disabled with nothing selected, otherwise the
        meals of the library that were picked, in library order. */
    function Completion(): (r: Option<seq<Meal>>)
      reads this
      ensures r.None? <==> selectedIds == []
      ensures r.Some? ==> forall m :: m in r.value <==> m in meals && m.id in selectedIds
      ensures r.Some? ==> r.value == Selection(meals, selectedIds)
    {
      if |selectedIds| == 0 then None else Some(Selection(meals, selectedIds))
    }
  }
}
