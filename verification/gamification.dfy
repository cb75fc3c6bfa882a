/**
 * The children's points: `log_food` records a meal and awards points for
 * it, `log_water` records cups of water on today's tracking row, and
 * `get_daily_points` adds up what the day is worth.
 *
 * The day is a parameter (`today`), standing for both PHP's `date('Y-m-d')`
 * and SQL's `CURDATE()`. The child profile lookup is the `profiles` map
 * from child to household; `users.points_total` is the `pointsTotal` map.
 */
module Gamification {
  import opened Wrappers
  import opened Text
  import opened Request

  /** A calendar day, `YYYY-MM-DD`. */
  type Date = string

  /** A row of `logged_meals`. */
  datatype MealRow = MealRow(child: int, household: int, date: Date, mealType: string, name: string, rating: int, points: int)

  /** A row of `daily_tracking`. */
  datatype TrackingRow = TrackingRow(child: int, date: Date, water: int, dailyPoints: int)

  datatype GameState = GameState(
    meals: seq<MealRow>,
    tracking: seq<TrackingRow>,
    pointsTotal: map<int, int>,
    profiles: map<int, int>)

  // ---------------------------------------------------------------------
  // log_food
  // ---------------------------------------------------------------------

  const BasePoints: int := 10
  const GoodRatingBonus: int := 10
  const NewFoodBonus: int := 20
  /** Ratings from this value up earn the good-rating bonus. */
  const GoodRating: int := 4

  /** Points for one logged meal. */
  function MealPoints(rating: int, isNew: bool): (p: int)
    ensures p == 10 || p == 20 || p == 30 || p == 40
    ensures p >= 30 <==> isNew
    ensures p % 20 == 0 <==> rating >= GoodRating
  {
    BasePoints + (if rating >= GoodRating then GoodRatingBonus else 0) + (if isNew then NewFoodBonus else 0)
  }

  const NewFoodMessage: string := "First time trying this food!"
  const GoodRatingMessage: string := "Great rating!"

  /** The `bonus_reason` of the response: the new-food reason wins over the
      rating reason, and there is a reason exactly when a bonus was paid. */
  function BonusReason(rating: int, isNew: bool): (m: string)
    ensures m == "" <==> MealPoints(rating, isNew) == BasePoints
    ensures m == NewFoodMessage <==> isNew
    ensures m == GoodRatingMessage <==> !isNew && rating >= GoodRating
  {
    if isNew then NewFoodMessage else if rating >= GoodRating then GoodRatingMessage else ""
  }

  /** The child has logged a meal called `name` before, ignoring case. */
  predicate EatenBefore(meals: seq<MealRow>, child: int, name: string) {
    exists i :: 0 <= i < |meals| && meals[i].child == child && SameName(meals[i].name, name)
  }

  /** `COUNT(*) ... WHERE child_user_id = ? AND LOWER(meal_name) = LOWER(?)`. */
  function CountEaten(meals: seq<MealRow>, child: int, name: string): (n: nat)
    ensures n == 0 <==> !EatenBefore(meals, child, name)
  {
    if |meals| == 0 then 0
    else
      var rest := CountEaten(meals[1..], child, name);
      assert EatenBefore(meals[1..], child, name) ==> EatenBefore(meals, child, name) by {
        if EatenBefore(meals[1..], child, name) {
          var k :| 0 <= k < |meals[1..]| && meals[1..][k].child == child && SameName(meals[1..][k].name, name);
          assert meals[k + 1] == meals[1..][k];
        }
      }
      assert EatenBefore(meals, child, name) ==>
        (meals[0].child == child && SameName(meals[0].name, name)) || EatenBefore(meals[1..], child, name) by {
        if EatenBefore(meals, child, name) && !(meals[0].child == child && SameName(meals[0].name, name)) {
          var k :| 0 <= k < |meals| && meals[k].child == child && SameName(meals[k].name, name);
          assert meals[1..][k - 1] == meals[k];
        }
      }
      (if meals[0].child == child && SameName(meals[0].name, name) then 1 else 0) + rest
  }

  /** Add `points` to the child's total; `UPDATE` of a missing user changes nothing. */
  function Credit(totals: map<int, int>, child: int, points: int): (t: map<int, int>)
    ensures t.Keys == totals.Keys
    ensures child in totals ==> t[child] == totals[child] + points
    ensures forall u :: u in totals && u != child ==> t[u] == totals[u]
  {
    if child in totals then totals[child := totals[child] + points] else totals
  }

  datatype FoodLog = FoodLog(points: int, isNew: bool, bonusReason: string)
  datatype LogFoodResult = FoodLogged(log: FoodLog) | FoodRefused(refusal: Refusal)

  const MissingFields := Refusal(400, "Missing required fields")
  const ProfileNotFound := Refusal(400, "Child profile not found")

  /**
   * `log_food`: all four fields are required and the child must have a
   * profile. The meal is new when the child never logged one of the same
   * name ignoring case; the meal row is appended with today's date and the
   * points, and the points are credited to the child.
   */
  function LogFood(s: GameState, childId: Option<int>, name: Option<string>, mealType: Option<string>,
                   rating: Option<int>, today: Date): (r: (LogFoodResult, GameState))
    ensures MissingNumber(childId) || MissingText(mealType) || MissingText(name) || MissingNumber(rating) ==>
      r == (FoodRefused(MissingFields), s)
    ensures r.0 == FoodRefused(ProfileNotFound) <==>
      !(MissingNumber(childId) || MissingText(mealType) || MissingText(name) || MissingNumber(rating)) &&
      childId.value !in s.profiles
    ensures r.0.FoodLogged? <==>
      !(MissingNumber(childId) || MissingText(mealType) || MissingText(name) || MissingNumber(rating)) &&
      childId.value in s.profiles
    ensures r.0.FoodRefused? ==> r.1 == s
    ensures r.0.FoodLogged? ==>
      var c := childId.value;
      r.0.log.isNew == !EatenBefore(s.meals, c, name.value) &&
      r.0.log.points == MealPoints(rating.value, r.0.log.isNew) &&
      r.0.log.bonusReason == BonusReason(rating.value, r.0.log.isNew) &&
      r.1.meals == s.meals + [MealRow(c, s.profiles[c], today, mealType.value, name.value, rating.value, r.0.log.points)] &&
      r.1.tracking == s.tracking && r.1.profiles == s.profiles &&
      r.1.pointsTotal == Credit(s.pointsTotal, c, r.0.log.points)
  {
    if MissingNumber(childId) || MissingText(mealType) || MissingText(name) || MissingNumber(rating) then
      (FoodRefused(MissingFields), s)
    else if childId.value !in s.profiles then (FoodRefused(ProfileNotFound), s)
    else
      var c := childId.value;
      var isNew := CountEaten(s.meals, c, name.value) == 0;
      var points := MealPoints(rating.value, isNew);
      var row := MealRow(c, s.profiles[c], today, mealType.value, name.value, rating.value, points);
      (FoodLogged(FoodLog(points, isNew, BonusReason(rating.value, isNew))),
       s.(meals := s.meals + [row], pointsTotal := Credit(s.pointsTotal, c, points)))
  }

  /** A food just logged is not new the next time, in any casing: that
      meal earns at most 20 points. */
  lemma LoggedFoodNotNewAgain(s: GameState, child: int, name: string, mealType: string, rating: int, today: Date,
                              name2: string, mealType2: Option<string>, rating2: Option<int>, today2: Date)
    requires LogFood(s, Some(child), Some(name), Some(mealType), Some(rating), today).0.FoodLogged?
    requires SameName(name2, name) && !MissingText(Some(name2))
    requires !MissingText(mealType2) && !MissingNumber(rating2)
    ensures var s' := LogFood(s, Some(child), Some(name), Some(mealType), Some(rating), today).1;
      var r := LogFood(s', Some(child), Some(name2), mealType2, rating2, today2).0;
      r.FoodLogged? && !r.log.isNew && r.log.points <= 20
  {
    var s' := LogFood(s, Some(child), Some(name), Some(mealType), Some(rating), today).1;
    assert s'.meals[|s.meals|].child == child && SameName(s'.meals[|s.meals|].name, name2);
  }

  // ---------------------------------------------------------------------
  // log_water
  // ---------------------------------------------------------------------

  const PointsPerCup: int := 5
  const WaterGoal: int := 8
  const HydrationMessage: string := "Hydration Hero! +20 bonus!"

  predicate IsRow(t: TrackingRow, child: int, date: Date) {
    t.child == child && t.date == date
  }

  /** The row a `SELECT ... WHERE child_user_id = ? AND tracking_date = ?`
      fetches: the first matching one. */
  function FirstTracking(rows: seq<TrackingRow>, child: int, date: Date): (r: Option<TrackingRow>)
    ensures r.None? <==> forall i :: 0 <= i < |rows| ==> !IsRow(rows[i], child, date)
    ensures r.Some? ==> r.value in rows && IsRow(r.value, child, date)
  {
    if |rows| == 0 then None
    else if IsRow(rows[0], child, date) then Some(rows[0])
    else
      var r := FirstTracking(rows[1..], child, date);
      assert forall i :: 1 <= i < |rows| ==> rows[i] == rows[1..][i - 1];
      r
  }

  /** Cups of water the child drank on `date`, as the handlers read it (0
      without a row). */
  function WaterOn(rows: seq<TrackingRow>, child: int, date: Date): int {
    match FirstTracking(rows, child, date)
    case Some(t) => t.water
    case None => 0
  }

  function DailyPointsOn(rows: seq<TrackingRow>, child: int, date: Date): int {
    match FirstTracking(rows, child, date)
    case Some(t) => t.dailyPoints
    case None => 0
  }

  /** One row after `UPDATE daily_tracking SET water_intake = water_intake
      + ?, daily_points = daily_points + ? WHERE child_user_id = ? AND
      tracking_date = ?`. */
  function Topped(t: TrackingRow, child: int, date: Date, cups: int, points: int): TrackingRow {
    if IsRow(t, child, date) then t.(water := t.water + cups, dailyPoints := t.dailyPoints + points) else t
  }

  /** The whole table after that `UPDATE`. */
  function AddWater(rows: seq<TrackingRow>, child: int, date: Date, cups: int, points: int): (r: seq<TrackingRow>)
    ensures |r| == |rows|
    ensures forall i :: 0 <= i < |rows| ==> r[i] == Topped(rows[i], child, date, cups, points)
  {
    if |rows| == 0 then [] else [Topped(rows[0], child, date, cups, points)] + AddWater(rows[1..], child, date, cups, points)
  }

  /** At most one tracking row per child and day. */
  predicate TrackingUnique(rows: seq<TrackingRow>) {
    forall i, j :: 0 <= i < j < |rows| ==> !IsRow(rows[j], rows[i].child, rows[i].date)
  }

  /** Every tracking row's points are its water points. */
  predicate PointsMatchWater(rows: seq<TrackingRow>) {
    forall i :: 0 <= i < |rows| ==> rows[i].dailyPoints == PointsPerCup * rows[i].water
  }

  datatype WaterLog = WaterLog(points: int, waterToday: int, goal: int, bonus: string)
  datatype LogWaterResult = WaterLogged(log: WaterLog) | WaterRefused(refusal: Refusal)

  const ChildIdRequired := Refusal(400, "Child ID required")

  /** The tracking rows after logging `cups` on `date`: update today's row
      when there is one, insert it otherwise. */
  function RecordWater(rows: seq<TrackingRow>, child: int, date: Date, cups: int): (r: seq<TrackingRow>)
    ensures WaterOn(r, child, date) == WaterOn(rows, child, date) + cups
    ensures DailyPointsOn(r, child, date) == DailyPointsOn(rows, child, date) + PointsPerCup * cups
    ensures forall c, d :: !(c == child && d == date) ==>
      FirstTracking(r, c, d) == FirstTracking(rows, c, d)
  {
    var points := PointsPerCup * cups;
    if FirstTracking(rows, child, date).Some? then
      UpdateTracking(rows, child, date, cups, points);
      AddWater(rows, child, date, cups, points)
    else
      InsertTracking(rows, TrackingRow(child, date, cups, points));
      rows + [TrackingRow(child, date, cups, points)]
  }

  /** Logging water keeps one row per child and day, and every row's
      points equal to its water points. */
  lemma RecordWaterKeepsInvariants(rows: seq<TrackingRow>, child: int, date: Date, cups: int)
    ensures TrackingUnique(rows) ==> TrackingUnique(RecordWater(rows, child, date, cups))
    ensures PointsMatchWater(rows) ==> PointsMatchWater(RecordWater(rows, child, date, cups))
  {
    var points := PointsPerCup * cups;
    var r := RecordWater(rows, child, date, cups);
    if FirstTracking(rows, child, date).Some? {
      assert r == AddWater(rows, child, date, cups, points);
      assert forall i :: 0 <= i < |rows| ==> r[i].child == rows[i].child && r[i].date == rows[i].date;
    } else {
      var x := TrackingRow(child, date, cups, points);
      assert r == rows + [x];
      assert forall i :: 0 <= i < |rows| ==> r[i] == rows[i];
      assert forall i :: 0 <= i < |rows| ==> !IsRow(rows[i], child, date);
    }
  }

  lemma UpdateTracking(rows: seq<TrackingRow>, child: int, date: Date, cups: int, points: int)
    requires FirstTracking(rows, child, date).Some?
    ensures var r := AddWater(rows, child, date, cups, points);
      WaterOn(r, child, date) == WaterOn(rows, child, date) + cups &&
      DailyPointsOn(r, child, date) == DailyPointsOn(rows, child, date) + points &&
      forall c, d :: !(c == child && d == date) ==> FirstTracking(r, c, d) == FirstTracking(rows, c, d)
  {
    AddWaterFirst(rows, child, date, cups, points);
    forall c, d | !(c == child && d == date)
      ensures FirstTracking(AddWater(rows, child, date, cups, points), c, d) == FirstTracking(rows, c, d)
    {
      AddWaterOthers(rows, child, date, cups, points, c, d);
    }
  }

  lemma InsertTracking(rows: seq<TrackingRow>, x: TrackingRow)
    requires FirstTracking(rows, x.child, x.date).None?
    ensures FirstTracking(rows + [x], x.child, x.date) == Some(x)
    ensures forall c, d :: !(c == x.child && d == x.date) ==> FirstTracking(rows + [x], c, d) == FirstTracking(rows, c, d)
  {
    FirstTrackingAppend(rows, x, x.child, x.date);
    forall c, d | !(c == x.child && d == x.date)
      ensures FirstTracking(rows + [x], c, d) == FirstTracking(rows, c, d)
    {
      FirstTrackingAppend(rows, x, c, d);
    }
  }

  lemma {:induction false} AddWaterFirst(rows: seq<TrackingRow>, child: int, date: Date, cups: int, points: int)
    requires FirstTracking(rows, child, date).Some?
    ensures FirstTracking(AddWater(rows, child, date, cups, points), child, date) ==
      Some(Topped(FirstTracking(rows, child, date).value, child, date, cups, points))
    decreases |rows|
  {
    var rest := AddWater(rows[1..], child, date, cups, points);
    var head := Topped(rows[0], child, date, cups, points);
    assert AddWater(rows, child, date, cups, points) == [head] + rest;
    assert ([head] + rest)[0] == head && ([head] + rest)[1..] == rest;
    if !IsRow(rows[0], child, date) {
      AddWaterFirst(rows[1..], child, date, cups, points);
    }
  }

  lemma {:induction false} AddWaterOthers(rows: seq<TrackingRow>, child: int, date: Date, cups: int, points: int, c: int, d: Date)
    requires !(c == child && d == date)
    ensures FirstTracking(AddWater(rows, child, date, cups, points), c, d) == FirstTracking(rows, c, d)
    decreases |rows|
  {
    if |rows| > 0 {
      var rest := AddWater(rows[1..], child, date, cups, points);
      var head := Topped(rows[0], child, date, cups, points);
      assert AddWater(rows, child, date, cups, points) == [head] + rest;
      assert ([head] + rest)[0] == head && ([head] + rest)[1..] == rest;
      AddWaterOthers(rows[1..], child, date, cups, points, c, d);
    }
  }

  lemma {:induction false} FirstTrackingAppend(rows: seq<TrackingRow>, x: TrackingRow, c: int, d: Date)
    ensures FirstTracking(rows + [x], c, d) ==
      if FirstTracking(rows, c, d).Some? || !IsRow(x, c, d) then FirstTracking(rows, c, d) else Some(x)
    decreases |rows|
  {
    if |rows| == 0 {
      assert [] + [x] == [x];
    } else {
      assert (rows + [x])[1..] == rows[1..] + [x];
      FirstTrackingAppend(rows[1..], x, c, d);
    }
  }

  /**
   * `log_water`: the child id is required; `cups` defaults to 1 and earns
   * five points each. The water total is read back afterwards and the
   * hydration message shown from eight cups on; it pays nothing extra.
   */
  function LogWater(s: GameState, childId: Option<int>, cups: Option<int>, today: Date): (r: (LogWaterResult, GameState))
    ensures MissingNumber(childId) <==> r.0.WaterRefused?
    ensures r.0.WaterRefused? ==> r == (WaterRefused(ChildIdRequired), s)
    ensures r.0.WaterLogged? ==>
      var c := childId.value;
      var n := cups.GetOr(1);
      r.0.log.points == PointsPerCup * n &&
      r.0.log.waterToday == WaterOn(s.tracking, c, today) + n == WaterOn(r.1.tracking, c, today) &&
      DailyPointsOn(r.1.tracking, c, today) == DailyPointsOn(s.tracking, c, today) + r.0.log.points &&
      r.0.log.goal == WaterGoal &&
      (r.0.log.bonus == HydrationMessage <==> r.0.log.waterToday >= WaterGoal) &&
      (r.0.log.bonus != HydrationMessage ==> r.0.log.bonus == "") &&
      r.1.pointsTotal == Credit(s.pointsTotal, c, r.0.log.points) &&
      r.1.meals == s.meals && r.1.profiles == s.profiles
    ensures r.0.WaterLogged? ==> forall c, d :: !(c == childId.value && d == today) ==>
      FirstTracking(r.1.tracking, c, d) == FirstTracking(s.tracking, c, d)
    ensures TrackingUnique(s.tracking) ==> TrackingUnique(r.1.tracking)
    ensures PointsMatchWater(s.tracking) ==> PointsMatchWater(r.1.tracking)
  {
    if MissingNumber(childId) then (WaterRefused(ChildIdRequired), s)
    else
      var c := childId.value;
      var n := cups.GetOr(1);
      var points := PointsPerCup * n;
      var tracking := RecordWater(s.tracking, c, today, n);
      RecordWaterKeepsInvariants(s.tracking, c, today, n);
      var total := WaterOn(tracking, c, today);
      (WaterLogged(WaterLog(points, total, WaterGoal, if total >= WaterGoal then HydrationMessage else "")),
       s.(tracking := tracking, pointsTotal := Credit(s.pointsTotal, c, points)))
  }

  // ---------------------------------------------------------------------
  // get_daily_points
  // ---------------------------------------------------------------------

  /** `SUM(points_earned)` over the child's meals on `date`. */
  function MealPointsOn(meals: seq<MealRow>, child: int, date: Date): int {
    if |meals| == 0 then 0
    else (if meals[0].child == child && meals[0].date == date then meals[0].points else 0)
         + MealPointsOn(meals[1..], child, date)
  }

  /** `COUNT(*)` of the child's meals on `date`. */
  function MealsOn(meals: seq<MealRow>, child: int, date: Date): nat {
    if |meals| == 0 then 0
    else (if meals[0].child == child && meals[0].date == date then 1 else 0) + MealsOn(meals[1..], child, date)
  }

  lemma {:induction false} MealsOnAppend(meals: seq<MealRow>, m: MealRow, child: int, date: Date)
    ensures MealPointsOn(meals + [m], child, date) ==
      MealPointsOn(meals, child, date) + (if m.child == child && m.date == date then m.points else 0)
    ensures MealsOn(meals + [m], child, date) ==
      MealsOn(meals, child, date) + (if m.child == child && m.date == date then 1 else 0)
    decreases |meals|
  {
    if |meals| == 0 {
      assert [] + [m] == [m];
    } else {
      assert (meals + [m])[1..] == meals[1..] + [m];
      MealsOnAppend(meals[1..], m, child, date);
    }
  }

  /** The day's points: its meals' points plus five per cup of water. */
  function TodayPoints(s: GameState, child: int, today: Date): int {
    MealPointsOn(s.meals, child, today) + PointsPerCup * WaterOn(s.tracking, child, today)
  }

  datatype DailyStats = DailyStats(totalPoints: int, todayPoints: int, mealsLogged: nat, waterIntake: int, waterGoal: int)
  datatype DailyResult = Daily(stats: DailyStats) | DailyRefused(refusal: Refusal)

  /** `get_daily_points`: the child's total (0 without a user row), today's
      points, today's meal count and water, and the goal. */
  function GetDailyPoints(s: GameState, childId: Option<int>, today: Date): (r: DailyResult)
    ensures MissingNumber(childId) <==> r == DailyRefused(ChildIdRequired)
    ensures r.Daily? <==> !MissingNumber(childId)
    ensures r.Daily? ==>
      var c := childId.value;
      r.stats.todayPoints == MealPointsOn(s.meals, c, today) + PointsPerCup * r.stats.waterIntake &&
      r.stats.waterIntake == WaterOn(s.tracking, c, today) &&
      r.stats.totalPoints == (if c in s.pointsTotal then s.pointsTotal[c] else 0) &&
      r.stats.mealsLogged == MealsOn(s.meals, c, today) &&
      r.stats.waterGoal == WaterGoal
  {
    if MissingNumber(childId) then DailyRefused(ChildIdRequired)
    else
      var c := childId.value;
      var water := WaterOn(s.tracking, c, today);
      Daily(DailyStats(if c in s.pointsTotal then s.pointsTotal[c] else 0,
                       MealPointsOn(s.meals, c, today) + PointsPerCup * water,
                       MealsOn(s.meals, c, today), water, WaterGoal))
  }

  /** Logging a meal raises the day's points by exactly the points it
      earned, and the day's meal count by one. */
  lemma LogFoodRaisesToday(s: GameState, childId: Option<int>, name: Option<string>, mealType: Option<string>,
                           rating: Option<int>, today: Date)
    requires LogFood(s, childId, name, mealType, rating, today).0.FoodLogged?
    ensures var r := LogFood(s, childId, name, mealType, rating, today);
      TodayPoints(r.1, childId.value, today) == TodayPoints(s, childId.value, today) + r.0.log.points &&
      MealsOn(r.1.meals, childId.value, today) == MealsOn(s.meals, childId.value, today) + 1
  {
    var r := LogFood(s, childId, name, mealType, rating, today);
    MealsOnAppend(s.meals, r.1.meals[|s.meals|], childId.value, today);
    assert r.1.meals == s.meals + [r.1.meals[|s.meals|]];
  }

  /** Logging water raises the day's points by exactly the points it
      earned; the hydration message adds nothing. */
  lemma LogWaterRaisesToday(s: GameState, childId: Option<int>, cups: Option<int>, today: Date)
    requires LogWater(s, childId, cups, today).0.WaterLogged?
    ensures var r := LogWater(s, childId, cups, today);
      TodayPoints(r.1, childId.value, today) == TodayPoints(s, childId.value, today) + r.0.log.points
  {
  }
}
