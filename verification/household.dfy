/**
 * Two household-scoped writes of the parent API:
 *
 *  - `add_food` adds a food to the caller's household unless the household
 *    already has one with the same name ignoring case;
 *  - `save_food_preferences` replaces all stored ratings of one child with
 *    the submitted ones.
 *
 * Tables are sequences of rows in storage order. Which household the caller
 * belongs to, and whether the caller may edit a child, are the results of
 * lookups and are passed in.
 */
module Household {
  import opened Wrappers
  import opened Text
  import opened Request

  // ---------------------------------------------------------------------
  // add_food
  // ---------------------------------------------------------------------

  /** A row of the household `foods` table. */
  datatype HouseholdFood = HouseholdFood(foodId: nat, household: int, name: string, emoji: string, category: string, active: bool)

  /** The table and the next AUTO_INCREMENT id. */
  datatype FoodsTable = FoodsTable(rows: seq<HouseholdFood>, nextId: nat)

  /** Within one household no two foods share a name ignoring case; ids are
      distinct and below the next one to be handed out. */
  predicate TableValid(t: FoodsTable) {
    (forall i, j :: 0 <= i < j < |t.rows| && t.rows[i].household == t.rows[j].household ==>
       !SameName(t.rows[i].name, t.rows[j].name)) &&
    (forall i, j :: 0 <= i < j < |t.rows| ==> t.rows[i].foodId != t.rows[j].foodId) &&
    (forall i :: 0 <= i < |t.rows| ==> t.rows[i].foodId < t.nextId)
  }

  /** The household already has a food called `name`, ignoring case. */
  predicate HasFood(t: FoodsTable, household: int, name: string) {
    exists i :: 0 <= i < |t.rows| && t.rows[i].household == household && SameName(t.rows[i].name, name)
  }

  const FieldsRequired := Refusal(400, "Food name, emoji, and category required")
  const HouseholdNotFound := Refusal(400, "Household not found")
  const AlreadyInHousehold := Refusal(409, "This food is already in your household")

  datatype AddResult = Added(foodId: nat) | AddRefused(refusal: Refusal)

  /** Whether some row of the household is named `name` ignoring case: the
      duplicate query. */
  function FindFood(rows: seq<HouseholdFood>, household: int, name: string): (found: bool)
    ensures found <==> exists i :: 0 <= i < |rows| && rows[i].household == household && SameName(rows[i].name, name)
  {
    if |rows| == 0 then false
    else if rows[0].household == household && SameName(rows[0].name, name) then true
    else
      var found := FindFood(rows[1..], household, name);
      assert found ==> exists i :: 0 < i < |rows| && rows[i].household == household && SameName(rows[i].name, name) by {
        if found {
          var k :| 0 <= k < |rows[1..]| && rows[1..][k].household == household && SameName(rows[1..][k].name, name);
          assert rows[k + 1] == rows[1..][k];
        }
      }
      found
  }

  /**
   * `add_food`: all three fields are required; the caller must belong to a
   * household; a name the household already has (ignoring case) is refused
   * with 409; otherwise one active row is appended with the next id.
   */
  function AddFood(t: FoodsTable, household: Option<int>, name: Option<string>, emoji: Option<string>, category: Option<string>)
    : (r: (AddResult, FoodsTable))
    ensures MissingText(name) || MissingText(emoji) || MissingText(category) ==> r == (AddRefused(FieldsRequired), t)
    ensures !(MissingText(name) || MissingText(emoji) || MissingText(category)) && household.None? ==>
      r == (AddRefused(HouseholdNotFound), t)
    ensures r.0 == AddRefused(AlreadyInHousehold) <==>
      !(MissingText(name) || MissingText(emoji) || MissingText(category)) && household.Some? &&
      HasFood(t, household.value, name.value)
    ensures r.0.Added? <==>
      !(MissingText(name) || MissingText(emoji) || MissingText(category)) && household.Some? &&
      !HasFood(t, household.value, name.value)
    ensures r.0.AddRefused? ==> r.1 == t
    ensures r.0.Added? ==>
      r.0.foodId == t.nextId < r.1.nextId &&
      r.1.rows == t.rows + [HouseholdFood(t.nextId, household.value, name.value, emoji.value, category.value, true)]
    ensures TableValid(t) ==> TableValid(r.1)
  {
    if MissingText(name) || MissingText(emoji) || MissingText(category) then (AddRefused(FieldsRequired), t)
    else if household.None? then (AddRefused(HouseholdNotFound), t)
    else if FindFood(t.rows, household.value, name.value) then (AddRefused(AlreadyInHousehold), t)
    else
      var row := HouseholdFood(t.nextId, household.value, name.value, emoji.value, category.value, true);
      var t' := FoodsTable(t.rows + [row], t.nextId + 1);
      AddKeepsValid(t, row, t');
      (Added(t.nextId), t')
  }

  lemma AddKeepsValid(t: FoodsTable, row: HouseholdFood, t': FoodsTable)
    requires !HasFood(t, row.household, row.name) && row.foodId == t.nextId
    requires t' == FoodsTable(t.rows + [row], t.nextId + 1)
    ensures TableValid(t) ==> TableValid(t')
  {
    forall i | 0 <= i < |t.rows| && t'.rows[i].household == row.household
      ensures !SameName(t'.rows[i].name, row.name)
    {
      assert t'.rows[i] == t.rows[i];
    }
  }

  /** Adding a food that was just added, in any casing, is refused. */
  lemma AddFoodTwiceRefused(t: FoodsTable, h: int, name: string, emoji: string, category: string,
                            name2: Option<string>, emoji2: Option<string>, category2: Option<string>)
    requires AddFood(t, Some(h), Some(name), Some(emoji), Some(category)).0.Added?
    requires name2.Some? && SameName(name2.value, name)
    requires !MissingText(name2) && !MissingText(emoji2) && !MissingText(category2)
    ensures var t' := AddFood(t, Some(h), Some(name), Some(emoji), Some(category)).1;
      AddFood(t', Some(h), name2, emoji2, category2) == (AddRefused(AlreadyInHousehold), t')
  {
    var t' := AddFood(t, Some(h), Some(name), Some(emoji), Some(category)).1;
    assert t'.rows[|t.rows|].household == h && SameName(t'.rows[|t.rows|].name, name2.value);
  }

  // ---------------------------------------------------------------------
  // save_food_preferences
  // ---------------------------------------------------------------------

  /** A row of `food_preferences`: one child's rating of one food. */
  datatype PrefRow = PrefRow(child: int, foodId: int, rating: int)

  const PrefsRequired := Refusal(400, "Child ID and preferences required")
  const ChildNotYours := Refusal(403, "Child not found or unauthorized")

  datatype PrefsResult = PrefsSaved(count: nat) | PrefsRefused(refusal: Refusal)

  /** The rows of `child`, in storage order. */
  function RowsOf(rows: seq<PrefRow>, child: int): (r: seq<PrefRow>)
    ensures forall x :: x in r <==> x in rows && x.child == child
  {
    if |rows| == 0 then []
    else
      var rest := RowsOf(rows[1..], child);
      assert forall x :: x in rows <==> x == rows[0] || x in rows[1..];
      if rows[0].child == child then [rows[0]] + rest else rest
  }

  /** The rows of every child but `child`: what `DELETE ... WHERE
      child_user_id = ?` leaves. */
  function RowsNotOf(rows: seq<PrefRow>, child: int): (r: seq<PrefRow>)
    ensures forall x :: x in r <==> x in rows && x.child != child
  {
    if |rows| == 0 then []
    else
      var rest := RowsNotOf(rows[1..], child);
      assert forall x :: x in rows <==> x == rows[0] || x in rows[1..];
      if rows[0].child != child then [rows[0]] + rest else rest
  }

  /** One inserted row per submitted `food_id => rating` pair, in order. */
  function NewRows(child: int, prefs: seq<(int, int)>): (r: seq<PrefRow>)
    ensures |r| == |prefs|
    ensures forall i :: 0 <= i < |prefs| ==> r[i] == PrefRow(child, prefs[i].0, prefs[i].1)
  {
    seq(|prefs|, i requires 0 <= i < |prefs| => PrefRow(child, prefs[i].0, prefs[i].1))
  }

  lemma {:induction false} RowsOfConcat(a: seq<PrefRow>, b: seq<PrefRow>, child: int)
    ensures RowsOf(a + b, child) == RowsOf(a, child) + RowsOf(b, child)
    decreases |a|
  {
    if |a| > 0 {
      assert (a + b)[0] == a[0] && (a + b)[1..] == a[1..] + b;
      RowsOfConcat(a[1..], b, child);
      if a[0].child == child {
        calc {
          RowsOf(a + b, child);
          [a[0]] + RowsOf(a[1..] + b, child);
          [a[0]] + (RowsOf(a[1..], child) + RowsOf(b, child));
          ([a[0]] + RowsOf(a[1..], child)) + RowsOf(b, child);
        }
      }
    } else {
      assert a + b == b;
    }
  }

  lemma {:induction false} RowsOfRowsNotOf(rows: seq<PrefRow>, child: int, other: int)
    ensures RowsOf(RowsNotOf(rows, child), child) == []
    ensures other != child ==> RowsOf(RowsNotOf(rows, child), other) == RowsOf(rows, other)
    decreases |rows|
  {
    if |rows| > 0 {
      RowsOfRowsNotOf(rows[1..], child, other);
      var rest := RowsNotOf(rows[1..], child);
      if rows[0].child != child {
        assert RowsNotOf(rows, child) == [rows[0]] + rest;
        assert ([rows[0]] + rest)[1..] == rest;
      }
    }
  }

  lemma RowsOfNewRows(child: int, other: int, prefs: seq<(int, int)>)
    ensures RowsOf(NewRows(child, prefs), child) == NewRows(child, prefs)
    ensures other != child ==> RowsOf(NewRows(child, prefs), other) == []
  {
    var n := NewRows(child, prefs);
    assert forall x :: x in n ==> x.child == child;
    AllOf(n, child);
    if other != child {
      NoneOf(n, other);
    }
  }

  lemma {:induction false} AllOf(rows: seq<PrefRow>, child: int)
    requires forall x :: x in rows ==> x.child == child
    ensures RowsOf(rows, child) == rows
    decreases |rows|
  {
    if |rows| > 0 {
      assert rows[0] in rows;
      assert forall x :: x in rows[1..] ==> x in rows;
      AllOf(rows[1..], child);
      assert rows == [rows[0]] + rows[1..];
    }
  }

  lemma {:induction false} NoneOf(rows: seq<PrefRow>, other: int)
    requires forall x :: x in rows ==> x.child != other
    ensures RowsOf(rows, other) == []
    decreases |rows|
  {
    if |rows| > 0 {
      assert rows[0] in rows;
      assert forall x :: x in rows[1..] ==> x in rows;
      NoneOf(rows[1..], other);
    }
  }

  /**
   * `save_food_preferences`: a missing child id or an empty submission is
   * refused with 400, a child the caller may not edit with 403; otherwise
   * the child's rows are deleted and one row per submitted pair inserted.
   */
  function SavePreferences(rows: seq<PrefRow>, childId: Option<int>, prefs: seq<(int, int)>, mayEdit: bool)
    : (r: (PrefsResult, seq<PrefRow>))
    ensures MissingNumber(childId) || |prefs| == 0 ==> r == (PrefsRefused(PrefsRequired), rows)
    ensures !(MissingNumber(childId) || |prefs| == 0) && !mayEdit ==> r == (PrefsRefused(ChildNotYours), rows)
    ensures r.0.PrefsSaved? <==> !MissingNumber(childId) && |prefs| > 0 && mayEdit
    ensures r.0.PrefsSaved? ==>
      r.0.count == |prefs| &&
      // afterwards the child's rows are exactly the submitted pairs, in order ...
      RowsOf(r.1, childId.value) == NewRows(childId.value, prefs) &&
      // ... and every other child's rows are as they were.
      (forall other :: other != childId.value ==> RowsOf(r.1, other) == RowsOf(rows, other))
  {
    if MissingNumber(childId) || |prefs| == 0 then (PrefsRefused(PrefsRequired), rows)
    else if !mayEdit then (PrefsRefused(ChildNotYours), rows)
    else
      var c := childId.value;
      var rows' := RowsNotOf(rows, c) + NewRows(c, prefs);
      forall other | true
        ensures RowsOf(rows', c) == NewRows(c, prefs)
        ensures other != c ==> RowsOf(rows', other) == RowsOf(rows, other)
      {
        RowsOfConcat(RowsNotOf(rows, c), NewRows(c, prefs), c);
        RowsOfConcat(RowsNotOf(rows, c), NewRows(c, prefs), other);
        RowsOfRowsNotOf(rows, c, other);
        RowsOfNewRows(c, other, prefs);
      }
      (PrefsSaved(|prefs|), rows')
  }

  /** After saving, the child has exactly the submitted ratings: a
      (food, rating) row exists for the child iff that pair was submitted. */
  lemma SavedRatingsAreSubmitted(rows: seq<PrefRow>, child: int, prefs: seq<(int, int)>, mayEdit: bool,
                                 food: int, rating: int)
    requires SavePreferences(rows, Some(child), prefs, mayEdit).0.PrefsSaved?
    ensures PrefRow(child, food, rating) in SavePreferences(rows, Some(child), prefs, mayEdit).1 <==>
      (food, rating) in prefs
  {
    var rows' := SavePreferences(rows, Some(child), prefs, mayEdit).1;
    var mine := RowsOf(rows', child);
    assert PrefRow(child, food, rating) in rows' <==> PrefRow(child, food, rating) in mine;
    if (food, rating) in prefs {
      var i :| 0 <= i < |prefs| && prefs[i] == (food, rating);
      assert mine[i] == PrefRow(child, food, rating);
    }
  }
}
