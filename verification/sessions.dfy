/** Sessions that start from an empty store, as a client sees them through
    the contracts above. */
module Sessions {
  import opened Items
  import opened Persistence
  import opened Tracker

  /** A 300-calorie meal against the default limit, then a 400-calorie
      workout. */
  method MealThenWorkout() {
    var storage := new Storage(map[]);
    var tracker := new CalorieTracker(storage);
    assert tracker.calorieLimit == 1950 && tracker.totalCalories == 0;
    tracker.AddMeal(Entry("1", "Eggs", 300));
    assert tracker.totalCalories == 300 && tracker.Remaining() == 1650;
    assert !tracker.IsOverLimit();
    tracker.AddWorkout(Entry("2", "Run", 400));
    assert tracker.totalCalories == -100 && tracker.Remaining() == 2050;
  }

  /** A meal added and removed again: the total and the stored meals are
      back where they started. */
  method MealThenRemove() {
    var storage := new Storage(map[]);
    var tracker := new CalorieTracker(storage);
    tracker.AddMeal(Entry("1", "Eggs", 300));
    assert tracker.meals == [Entry("1", "Eggs", 300)];
    tracker.RemoveMeal("1");
    assert tracker.meals == [] && tracker.totalCalories == 0;
    assert storage.GetMeals() == [] && storage.GetTotalCalories() == 0;
  }

  /** A raised limit, a meal over it, and a reset that keeps the limit. */
  method OverLimitThenReset() {
    var storage := new Storage(map[]);
    var tracker := new CalorieTracker(storage);
    tracker.SetLimit(2000);
    tracker.AddMeal(Entry("1", "Feast", 2500));
    assert tracker.Remaining() == -500 && tracker.IsOverLimit();
    tracker.Reset();
    assert tracker.calorieLimit == 2000 && storage.GetCalorieLimit() == 2000;
    assert storage.GetTotalCalories() == 0 && storage.GetMeals() == [] && storage.GetWorkouts() == [];
  }
}
