/** The tracker: in-memory limit, running total, meals and workouts, with
    every change written through to the persistence adapter. */
module Tracker {
  import opened Items
  import opened Persistence

  class CalorieTracker {
    var calorieLimit: int
    var totalCalories: int
    var meals: seq<Meal>
    var workouts: seq<Workout>
    /** The adapter every change is written through to. */
    const storage: Storage

    ghost predicate Valid()
      reads this, storage
    {
      storage.Valid()
    }

    /** Calories taken in: the sum over the meals; never negative while no
        meal has negative calories. */
    function Consumed(): (consumed: int)
      reads this
      ensures NoNegativeCalories(meals) ==> consumed >= 0
    {
      SumNonNegative(meals);
      SumCalories(meals)
    }

    /** Calories burned: the sum over the workouts; never negative while no
        workout has negative calories. */
    function Burned(): (burned: int)
      reads this
      ensures NoNegativeCalories(workouts) ==> burned >= 0
    {
      SumNonNegative(workouts);
      SumCalories(workouts)
    }

    /** What is left of the limit. In a balanced state it is the limit less
        what the meals bring in, plus what the workouts burn. */
    function Remaining(): (remaining: int)
      reads this
      ensures Balanced() ==> remaining == calorieLimit - Consumed() + Burned()
    {
      calorieLimit - totalCalories
    }

    /** The over-limit hint shown with the remaining calories. In a balanced
        state it is raised exactly when meals less workouts reach the limit. */
    predicate IsOverLimit()
      reads this
      ensures Balanced() ==> (IsOverLimit() <==> Consumed() - Burned() >= calorieLimit)
    {
      Remaining() <= 0
    }

    /** The running total is meals minus workouts. */
    ghost predicate Balanced()
      reads this
    {
      totalCalories == Consumed() - Burned()
    }

    /** The store reads back exactly what is held in memory. */
    ghost predicate Mirrored()
      reads this, storage
      requires Valid()
    {
      storage.GetCalorieLimit() == calorieLimit &&
      storage.GetTotalCalories() == totalCalories &&
      storage.GetMeals() == meals &&
      storage.GetWorkouts() == workouts
    }

    /** The state every public operation keeps: balanced, mirrored, and
        with unique ids in both lists. */
    ghost predicate Consistent()
      reads this, storage
      requires Valid()
    {
      Balanced() && Mirrored() && UniqueIds(meals) && UniqueIds(workouts)
    }

    /** Load the four records, each from its getter with its default. */
    constructor(storage: Storage)
      requires storage.Valid()
      ensures this.storage == storage && Valid()
      ensures calorieLimit == storage.GetCalorieLimit()
      ensures totalCalories == storage.GetTotalCalories()
      ensures meals == storage.GetMeals() && workouts == storage.GetWorkouts()
      ensures Mirrored()
    {
      this.storage := storage;
      calorieLimit := storage.GetCalorieLimit();
      totalCalories := storage.GetTotalCalories();
      meals := storage.GetMeals();
      workouts := storage.GetWorkouts();
    }

    method AddMeal(meal: Meal)
      requires Valid()
      modifies this, storage
      ensures Valid()
      ensures meals == old(meals) + [meal]
      ensures totalCalories == old(totalCalories) + meal.calories
      ensures workouts == old(workouts) && calorieLimit == old(calorieLimit)
      ensures storage.store == old(storage.store)
        [TotalCaloriesKey := Number(totalCalories)]
        [MealsKey := List(old(storage.GetMeals()) + [meal])]
      ensures old(Balanced()) ==> Balanced()
      ensures old(Mirrored()) ==> Mirrored()
      ensures old(Consistent()) && !old(Contains(meals, meal.id)) ==> Consistent()
      ensures meal.calories >= 0 && old(IsOverLimit()) ==> IsOverLimit()
    {
      meals := meals + [meal];
      totalCalories := totalCalories + meal.calories;
      storage.UpdateTotalCalories(totalCalories);
      storage.SaveMeal(meal);
      SumAppend(old(meals), meal);
      if old(Consistent()) && !old(Contains(meals, meal.id)) {
        AppendUnique(old(meals), meal);
      }
    }

    method AddWorkout(workout: Workout)
      requires Valid()
      modifies this, storage
      ensures Valid()
      ensures workouts == old(workouts) + [workout]
      ensures totalCalories == old(totalCalories) - workout.calories
      ensures meals == old(meals) && calorieLimit == old(calorieLimit)
      ensures storage.store == old(storage.store)
        [TotalCaloriesKey := Number(totalCalories)]
        [WorkoutsKey := List(old(storage.GetWorkouts()) + [workout])]
      ensures old(Balanced()) ==> Balanced()
      ensures old(Mirrored()) ==> Mirrored()
      ensures old(Consistent()) && !old(Contains(workouts, workout.id)) ==> Consistent()
      ensures workout.calories >= 0 && !old(IsOverLimit()) ==> !IsOverLimit()
    {
      workouts := workouts + [workout];
      totalCalories := totalCalories - workout.calories;
      storage.UpdateTotalCalories(totalCalories);
      storage.SaveWorkout(workout);
      SumAppend(old(workouts), workout);
      if old(Consistent()) && !old(Contains(workouts, workout.id)) {
        AppendUnique(old(workouts), workout);
      }
    }

    /** Remove the first meal with `id`, if any, and take its calories off
        the total. */
    method RemoveMeal(id: Id)
      requires Valid()
      modifies this, storage
      ensures Valid()
      ensures meals == RemoveFirst(old(meals), id)
      ensures workouts == old(workouts) && calorieLimit == old(calorieLimit)
      ensures !old(Contains(meals, id)) ==> unchanged(this, storage)
      ensures old(Contains(meals, id)) ==>
        totalCalories == old(totalCalories) - old(meals[FindIndex(meals, id)].calories) &&
        storage.store == old(storage.store)
          [TotalCaloriesKey := Number(totalCalories)]
          [MealsKey := List(ForEachSplice(old(storage.GetMeals()), id))]
      ensures old(Balanced()) ==> Balanced()
      ensures old(Mirrored()) && old(UniqueIds(meals)) ==> Mirrored()
      ensures old(Consistent()) ==> Consistent()
      ensures old(NoNegativeCalories(meals)) && !old(IsOverLimit()) ==> !IsOverLimit()
    {
      var index := FindIndex(meals, id);
      if index != -1 {
        var meal := meals[index];
        totalCalories := totalCalories - meal.calories;
        storage.UpdateTotalCalories(totalCalories);
        meals := meals[..index] + meals[index + 1..];
        assert meals == RemoveFirst(old(meals), id);
        storage.RemoveMeal(id);
        SumRemoveAt(old(meals), index);
        if old(UniqueIds(meals)) {
          RemoveFirstKeepsUnique(old(meals), id);
          assert old(Mirrored()) ==> storage.GetMeals() == meals;
        }
      }
    }

    /** Remove the first workout with `id`, if any, and give its calories
        back to the total. */
    method RemoveWorkout(id: Id)
      requires Valid()
      modifies this, storage
      ensures Valid()
      ensures workouts == RemoveFirst(old(workouts), id)
      ensures meals == old(meals) && calorieLimit == old(calorieLimit)
      ensures !old(Contains(workouts, id)) ==> unchanged(this, storage)
      ensures old(Contains(workouts, id)) ==>
        totalCalories == old(totalCalories) + old(workouts[FindIndex(workouts, id)].calories) &&
        storage.store == old(storage.store)
          [TotalCaloriesKey := Number(totalCalories)]
          [WorkoutsKey := List(ForEachSplice(old(storage.GetWorkouts()), id))]
      ensures old(Balanced()) ==> Balanced()
      ensures old(Mirrored()) && old(UniqueIds(workouts)) ==> Mirrored()
      ensures old(Consistent()) ==> Consistent()
      ensures old(NoNegativeCalories(workouts)) && old(IsOverLimit()) ==> IsOverLimit()
    {
      var index := FindIndex(workouts, id);
      if index != -1 {
        var workout := workouts[index];
        totalCalories := totalCalories + workout.calories;
        storage.SetTotalCalories(totalCalories);
        workouts := workouts[..index] + workouts[index + 1..];
        assert workouts == RemoveFirst(old(workouts), id);
        storage.RemoveWorkout(id);
        SumRemoveAt(old(workouts), index);
        if old(UniqueIds(workouts)) {
          RemoveFirstKeepsUnique(old(workouts), id);
          assert old(Mirrored()) ==> storage.GetWorkouts() == workouts;
        }
      }
    }

    /** Zero the total and empty both lists, here and in the store; the
        limit stays. */
    method Reset()
      requires Valid()
      modifies this, storage
      ensures Valid()
      ensures totalCalories == 0 && meals == [] && workouts == []
      ensures calorieLimit == old(calorieLimit)
      ensures storage.store == old(storage.store) - {TotalCaloriesKey, MealsKey, WorkoutsKey}
      ensures Balanced()
      ensures old(storage.GetCalorieLimit()) == calorieLimit ==> Consistent()
      ensures IsOverLimit() <==> calorieLimit <= 0
    {
      totalCalories := 0;
      meals := [];
      workouts := [];
      storage.ClearAll();
    }

    /** Set the limit, here and in the store. */
    method SetLimit(calorieLimit: int)
      requires Valid()
      modifies this, storage
      ensures Valid()
      ensures this.calorieLimit == calorieLimit
      ensures totalCalories == old(totalCalories) && meals == old(meals) && workouts == old(workouts)
      ensures storage.store == old(storage.store)[CalorieLimitKey := Number(calorieLimit)]
      ensures old(Balanced()) ==> Balanced()
      ensures old(Mirrored()) ==> Mirrored()
      ensures old(Consistent()) ==> Consistent()
    {
      this.calorieLimit := calorieLimit;
      storage.SetCalorieLimit(calorieLimit);
    }
  }

  /** Appending an entry whose id is new keeps the ids unique. */
  lemma AppendUnique(s: seq<Entry>, e: Entry)
    requires UniqueIds(s) && !Contains(s, e.id)
    ensures UniqueIds(s + [e])
  {
  }
}
