/**
 * The in-memory food list and the three ways the dashboard rewrites it
 * after a successful remote call: append the created item, replace the
 * items whose id matches an updated item, and drop the items with a
 * deleted id. All three keep the order of the items they leave alone.
 */
module FoodList {
  import opened Records

  /** Some item of the list has id `k`. */
  predicate HasId(foods: seq<Food>, k: int) {
    exists i :: 0 <= i < |foods| && foods[i].id == k
  }

  /** No two items of the list share an id (the server assigns unique ids). */
  predicate UniqueIds(foods: seq<Food>) {
    forall i, j :: 0 <= i < j < |foods| ==> foods[i].id != foods[j].id
  }

  /** The number of items of the list whose id is `k`. */
  function CountId(foods: seq<Food>, k: int): (n: nat)
    ensures n <= |foods|
    ensures n == 0 <==> !HasId(foods, k)
  {
    if |foods| == 0 then 0
    else
      assert forall i :: 0 < i < |foods| ==> foods[i] == foods[1..][i - 1];
      (if foods[0].id == k then 1 else 0) + CountId(foods[1..], k)
  }

  /** `[...foods, item]`: the created item goes last. */
  function Append(foods: seq<Food>, item: Food): (r: seq<Food>)
    ensures |r| == |foods| + 1
    ensures r[..|foods|] == foods
    ensures r[|foods|] == item
  {
    foods + [item]
  }

  /**
   * `foods.filter(food => food.id !== k)`: the items whose id is not `k`,
   * in their original order.
   */
  function RemoveId(foods: seq<Food>, k: int): (r: seq<Food>)
    ensures |r| == |foods| - CountId(foods, k)
    ensures !HasId(r, k)
  {
    if |foods| == 0 then []
    else
      if foods[0].id == k then RemoveId(foods[1..], k)
      else [foods[0]] + RemoveId(foods[1..], k)
  }

  /**
   * `foods.map(f => f.id !== u.id ? f : u)`: every item whose id is the
   * updated item's id becomes the updated item; every other item stays
   * where it was.
   */
  function ReplaceById(foods: seq<Food>, u: Food): (r: seq<Food>)
    ensures |r| == |foods|
    ensures forall i :: 0 <= i < |foods| && foods[i].id == u.id ==> r[i] == u
    ensures forall i :: 0 <= i < |foods| && foods[i].id != u.id ==> r[i] == foods[i]
  {
    if |foods| == 0 then []
    else [if foods[0].id != u.id then foods[0] else u] + ReplaceById(foods[1..], u)
  }

  /** An item survives the delete exactly when it was there and has another id. */
  lemma {:induction false} RemoveIdMembers(foods: seq<Food>, k: int)
    ensures forall f :: f in RemoveId(foods, k) <==> f in foods && f.id != k
  {
    if |foods| > 0 {
      assert foods == [foods[0]] + foods[1..];
      RemoveIdMembers(foods[1..], k);
    }
  }

  /** Filtering a concatenation filters each part: the order is kept. */
  lemma {:induction false} RemoveIdAppend(a: seq<Food>, b: seq<Food>, k: int)
    ensures RemoveId(a + b, k) == RemoveId(a, k) + RemoveId(b, k)
  {
    if |a| == 0 {
      assert a + b == b;
    } else {
      var ab := a + b;
      assert ab[0] == a[0];
      assert ab[1..] == a[1..] + b;
      RemoveIdAppend(a[1..], b, k);
      if a[0].id == k {
        calc {
          RemoveId(ab, k);
          RemoveId(ab[1..], k);
          RemoveId(a[1..], k) + RemoveId(b, k);
          RemoveId(a, k) + RemoveId(b, k);
        }
      } else {
        calc {
          RemoveId(ab, k);
          [a[0]] + RemoveId(ab[1..], k);
          [a[0]] + (RemoveId(a[1..], k) + RemoveId(b, k));
          ([a[0]] + RemoveId(a[1..], k)) + RemoveId(b, k);
          RemoveId(a, k) + RemoveId(b, k);
        }
      }
    }
  }

  /**
   * The filter walks the list front to back: the empty list filters to
   * the empty list, and each further item is appended to the result of
   * its prefix exactly when its id is not `k`. This fixes the order and
   * the multiplicity of the survivors.
   */
  lemma RemoveIdInOrder(foods: seq<Food>, k: int)
    ensures RemoveId([], k) == []
    ensures forall n :: 0 <= n < |foods| ==>
              RemoveId(foods[..n + 1], k)
                == RemoveId(foods[..n], k) + (if foods[n].id == k then [] else [foods[n]])
  {
    forall n | 0 <= n < |foods|
      ensures RemoveId(foods[..n + 1], k)
                == RemoveId(foods[..n], k) + (if foods[n].id == k then [] else [foods[n]])
    {
      assert foods[..n + 1] == foods[..n] + [foods[n]];
      RemoveIdAppend(foods[..n], [foods[n]], k);
    }
  }

  /** Filtering out an id nobody has is the identity. */
  lemma {:induction false} RemoveIdAbsent(foods: seq<Food>, k: int)
    requires !HasId(foods, k)
    ensures RemoveId(foods, k) == foods
  {
    if |foods| > 0 {
      assert foods[0].id != k;
      assert !HasId(foods[1..], k) by {
        forall i | 0 <= i < |foods[1..]|
          ensures foods[1..][i].id != k
        {
          assert foods[1..][i] == foods[i + 1];
        }
      }
      RemoveIdAbsent(foods[1..], k);
      assert foods == [foods[0]] + foods[1..];
    }
  }

  /** Deleting the same id twice is the same as deleting it once. */
  lemma RemoveIdIdempotent(foods: seq<Food>, k: int)
    ensures RemoveId(RemoveId(foods, k), k) == RemoveId(foods, k)
  {
    RemoveIdAbsent(RemoveId(foods, k), k);
  }

  /** Appending an item and deleting its id restores a list that lacked that id. */
  lemma AppendThenRemove(foods: seq<Food>, item: Food)
    requires !HasId(foods, item.id)
    ensures RemoveId(Append(foods, item), item.id) == foods
  {
    RemoveIdAppend(foods, [item], item.id);
    RemoveIdAbsent(foods, item.id);
    assert RemoveId([item], item.id) == [];
  }

  /** Replacing by id never changes which id sits at which position. */
  lemma ReplaceByIdKeepsIds(foods: seq<Food>, u: Food)
    ensures forall i :: 0 <= i < |foods| ==> ReplaceById(foods, u)[i].id == foods[i].id
  {
  }

  /** Applying the same update response twice is the same as applying it once. */
  lemma ReplaceByIdIdempotent(foods: seq<Food>, u: Food)
    ensures ReplaceById(ReplaceById(foods, u), u) == ReplaceById(foods, u)
  {
  }

  /** An update response whose id matches no item leaves the list as it was. */
  lemma ReplaceByIdAbsent(foods: seq<Food>, u: Food)
    requires !HasId(foods, u.id)
    ensures ReplaceById(foods, u) == foods
  {
  }

  /** Deleting an id after updating it is the same as deleting it straight away. */
  lemma {:induction false} RemoveAfterReplace(foods: seq<Food>, u: Food)
    ensures RemoveId(ReplaceById(foods, u), u.id) == RemoveId(foods, u.id)
  {
    if |foods| > 0 {
      var r := ReplaceById(foods, u);
      assert r[1..] == ReplaceById(foods[1..], u);
      RemoveAfterReplace(foods[1..], u);
    }
  }

  /** With unique ids, an id occurs at most once. */
  lemma {:induction false} UniqueCountAtMostOne(foods: seq<Food>, k: int)
    requires UniqueIds(foods)
    ensures CountId(foods, k) <= 1
  {
    if |foods| > 0 {
      UniqueTail(foods);
      UniqueCountAtMostOne(foods[1..], k);
    }
  }

  /**
   * With unique ids, a delete removes exactly one item when the id is
   * present and none when it is absent.
   */
  lemma RemoveIdUnique(foods: seq<Food>, k: int)
    requires UniqueIds(foods)
    ensures |RemoveId(foods, k)| == if HasId(foods, k) then |foods| - 1 else |foods|
  {
    UniqueCountAtMostOne(foods, k);
  }

  /** Appending an item with a fresh id keeps the ids unique. */
  lemma AppendKeepsUnique(foods: seq<Food>, item: Food)
    requires UniqueIds(foods) && !HasId(foods, item.id)
    ensures UniqueIds(Append(foods, item))
  {
    var r := Append(foods, item);
    forall i, j | 0 <= i < j < |r|
      ensures r[i].id != r[j].id
    {
      if j < |foods| {
        assert r[i] == foods[i] && r[j] == foods[j];
      } else {
        assert r[i] == foods[i];
      }
    }
  }

  /** Updating by id keeps the ids unique. */
  lemma ReplaceKeepsUnique(foods: seq<Food>, u: Food)
    requires UniqueIds(foods)
    ensures UniqueIds(ReplaceById(foods, u))
  {
    ReplaceByIdKeepsIds(foods, u);
  }

  /** Dropping the head of a list with unique ids keeps them unique. */
  lemma UniqueTail(foods: seq<Food>)
    requires UniqueIds(foods) && |foods| > 0
    ensures UniqueIds(foods[1..])
    ensures forall f :: f in foods[1..] ==> f.id != foods[0].id
  {
    forall i, j | 0 <= i < j < |foods[1..]|
      ensures foods[1..][i].id != foods[1..][j].id
    {
      assert foods[1..][i] == foods[i + 1] && foods[1..][j] == foods[j + 1];
    }
    forall f | f in foods[1..]
      ensures f.id != foods[0].id
    {
      var i :| 0 <= i < |foods[1..]| && foods[1..][i] == f;
      assert foods[1..][i] == foods[i + 1];
    }
  }

  /** Putting an item with a fresh id in front of a list with unique ids keeps them unique. */
  lemma UniqueCons(f: Food, rest: seq<Food>)
    requires UniqueIds(rest)
    requires forall g :: g in rest ==> g.id != f.id
    ensures UniqueIds([f] + rest)
  {
    var r := [f] + rest;
    forall i, j | 0 <= i < j < |r|
      ensures r[i].id != r[j].id
    {
      assert r[j] == rest[j - 1];
      if i > 0 {
        assert r[i] == rest[i - 1];
      }
    }
  }

  /** Deleting by id keeps the ids unique. */
  lemma {:induction false} RemoveKeepsUnique(foods: seq<Food>, k: int)
    requires UniqueIds(foods)
    ensures UniqueIds(RemoveId(foods, k))
  {
    if |foods| > 0 {
      UniqueTail(foods);
      var rest := RemoveId(foods[1..], k);
      RemoveKeepsUnique(foods[1..], k);
      if foods[0].id != k {
        RemoveIdMembers(foods[1..], k);
        UniqueCons(foods[0], rest);
      }
    }
  }
}
