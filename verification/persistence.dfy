/** The persistence adapter: four logical records kept in a string-keyed
    store. The browser's store is replaced by a map that holds typed values,
    so reading back what was written is the identity. */
module Persistence {
  import opened Items

  /** The four keys the adapter uses. */
  datatype Key = CalorieLimitKey | TotalCaloriesKey | MealsKey | WorkoutsKey

  /** What a key holds: a number for the two scalars, a list for the two
      collections. */
  datatype Value = Number(n: int) | List(entries: seq<Entry>)

  /** The limit assumed when none was ever stored. */
  const DefaultLimit := 1950

  /** The total assumed when none was ever stored. */
  const DefaultTotal := 0

  /** The scalar keys hold numbers and the collection keys hold lists. */
  ghost predicate WellTyped(m: map<Key, Value>) {
    forall k :: k in m ==> (m[k].Number? <==> (k == CalorieLimitKey || k == TotalCaloriesKey))
  }

  /** The loop of `removeMeal`/`removeWorkout`: visit indices 0 up to the
      original length, and at each index that still exists and holds an
      entry with `id`, splice that entry out. */
  method SpliceMatching(entries: seq<Entry>, id: Id) returns (r: seq<Entry>)
    ensures r == ForEachSplice(entries, id)
  {
    r := entries;
    var n := |entries|;
    var i := 0;
    // `done` is the part of `r` the loop has moved past for good, and
    // `rest` the part it has still to visit
    ghost var done: seq<Entry> := [];
    ghost var rest := entries;
    while i < n
      invariant i <= n && i + |rest| <= n
      invariant r == done + rest
      invariant |done| <= i && (|done| < i ==> rest == [])
      invariant ForEachSplice(entries, id) == done + ForEachSplice(rest, id)
    {
      if i < |r| && r[i].id == id {
        assert r[i] == rest[0] && r[..i] == done && r[i + 1..] == rest[1..];
        r := r[..i] + r[i + 1..];
        if |rest| > 1 {
          ghost var tail := ForEachSplice(rest[2..], id);
          assert ForEachSplice(rest, id) == [rest[1]] + tail;
          assert done + ([rest[1]] + tail) == (done + [rest[1]]) + tail;
          assert rest[1..] == [rest[1]] + rest[2..];
          done, rest := done + [rest[1]], rest[2..];
        } else {
          assert ForEachSplice(rest, id) == [];
          rest := [];
        }
      } else if i < |r| {
        ghost var tail := ForEachSplice(rest[1..], id);
        assert r[i] == rest[0] && rest == [rest[0]] + rest[1..];
        assert ForEachSplice(rest, id) == [rest[0]] + tail;
        assert done + ([rest[0]] + tail) == (done + [rest[0]]) + tail;
        done, rest := done + [rest[0]], rest[1..];
      }
      i := i + 1;
    }
  }

  /** The adapter. Each operation reads, updates or deletes keys of `store`. */
  class Storage {
    var store: map<Key, Value>

    ghost predicate Valid()
      reads this
    {
      WellTyped(store)
    }

    /** An adapter over a store that already holds `initial`. */
    constructor(initial: map<Key, Value>)
      requires WellTyped(initial)
      ensures Valid() && store == initial
    {
      store := initial;
    }

    /** The stored limit, or `defaultLimit` when none is stored. */
    function GetCalorieLimit(defaultLimit: int := DefaultLimit): (limit: int)
      reads this
      requires Valid()
      ensures CalorieLimitKey !in store ==> limit == defaultLimit
      ensures CalorieLimitKey in store ==> store[CalorieLimitKey] == Number(limit)
    {
      if CalorieLimitKey !in store then defaultLimit else store[CalorieLimitKey].n
    }

    method SetCalorieLimit(calorieLimit: int)
      requires Valid()
      modifies this
      ensures Valid()
      ensures store == old(store)[CalorieLimitKey := Number(calorieLimit)]
      ensures GetTotalCalories() == old(GetTotalCalories()) && GetMeals() == old(GetMeals()) && GetWorkouts() == old(GetWorkouts())
      ensures GetCalorieLimit() == calorieLimit
    {
      store := store[CalorieLimitKey := Number(calorieLimit)];
    }

    /** The stored total, or `defaultTotal` when none is stored. */
    function GetTotalCalories(defaultTotal: int := DefaultTotal): (total: int)
      reads this
      requires Valid()
      ensures TotalCaloriesKey !in store ==> total == defaultTotal
      ensures TotalCaloriesKey in store ==> store[TotalCaloriesKey] == Number(total)
    {
      if TotalCaloriesKey !in store then defaultTotal else store[TotalCaloriesKey].n
    }

    method SetTotalCalories(totalCalories: int)
      requires Valid()
      modifies this
      ensures Valid()
      ensures store == old(store)[TotalCaloriesKey := Number(totalCalories)]
      ensures GetCalorieLimit() == old(GetCalorieLimit()) && GetMeals() == old(GetMeals()) && GetWorkouts() == old(GetWorkouts())
      ensures GetTotalCalories() == totalCalories
    {
      store := store[TotalCaloriesKey := Number(totalCalories)];
    }

    /** A second name for `SetTotalCalories`, with the same effect. */
    method UpdateTotalCalories(newTotalCalories: int)
      requires Valid()
      modifies this
      ensures Valid()
      ensures store == old(store)[TotalCaloriesKey := Number(newTotalCalories)]
      ensures GetCalorieLimit() == old(GetCalorieLimit()) && GetMeals() == old(GetMeals()) && GetWorkouts() == old(GetWorkouts())
      ensures GetTotalCalories() == newTotalCalories
    {
      store := store[TotalCaloriesKey := Number(newTotalCalories)];
    }

    /** The stored meals, or none when the key is absent. */
    function GetMeals(): (meals: seq<Meal>)
      reads this
      requires Valid()
      ensures MealsKey !in store ==> meals == []
      ensures MealsKey in store ==> store[MealsKey] == List(meals)
    {
      if MealsKey !in store then [] else store[MealsKey].entries
    }

    /** Read the list, append `meal`, write the list back. */
    method SaveMeal(meal: Meal)
      requires Valid()
      modifies this
      ensures Valid()
      ensures store == old(store)[MealsKey := List(old(GetMeals()) + [meal])]
      ensures GetCalorieLimit() == old(GetCalorieLimit()) && GetTotalCalories() == old(GetTotalCalories()) && GetWorkouts() == old(GetWorkouts())
      ensures GetMeals() == old(GetMeals()) + [meal]
    {
      var meals := GetMeals();
      meals := meals + [meal];
      store := store[MealsKey := List(meals)];
    }

    /** The stored workouts, or none when the key is absent. */
    function GetWorkouts(): (workouts: seq<Workout>)
      reads this
      requires Valid()
      ensures WorkoutsKey !in store ==> workouts == []
      ensures WorkoutsKey in store ==> store[WorkoutsKey] == List(workouts)
    {
      if WorkoutsKey !in store then [] else store[WorkoutsKey].entries
    }

    /** Read the list, append `workout`, write the list back. */
    method SaveWorkout(workout: Workout)
      requires Valid()
      modifies this
      ensures Valid()
      ensures store == old(store)[WorkoutsKey := List(old(GetWorkouts()) + [workout])]
      ensures GetCalorieLimit() == old(GetCalorieLimit()) && GetTotalCalories() == old(GetTotalCalories()) && GetMeals() == old(GetMeals())
      ensures GetWorkouts() == old(GetWorkouts()) + [workout]
    {
      var workouts := GetWorkouts();
      workouts := workouts + [workout];
      store := store[WorkoutsKey := List(workouts)];
    }

    /** Read the list, splice out the entries with `id` met while iterating,
        write the list back (also when nothing matched). */
    method RemoveMeal(id: Id)
      requires Valid()
      modifies this
      ensures Valid()
      ensures store == old(store)[MealsKey := List(ForEachSplice(old(GetMeals()), id))]
      ensures GetCalorieLimit() == old(GetCalorieLimit()) && GetTotalCalories() == old(GetTotalCalories()) && GetWorkouts() == old(GetWorkouts())
      ensures |GetMeals()| <= |old(GetMeals())|
      ensures !Contains(old(GetMeals()), id) ==> GetMeals() == old(GetMeals())
      ensures UniqueIds(old(GetMeals())) ==> GetMeals() == RemoveFirst(old(GetMeals()), id)
    {
      var meals := GetMeals();
      ghost var before := meals;
      meals := SpliceMatching(meals, id);
      if !Contains(before, id) {
        ForEachSpliceMiss(before, id);
      }
      if UniqueIds(before) {
        ForEachSpliceUnique(before, id);
      }
      store := store[MealsKey := List(meals)];
    }

    /** Read the list, splice out the entries with `id` met while iterating,
        write the list back (also when nothing matched). */
    method RemoveWorkout(id: Id)
      requires Valid()
      modifies this
      ensures Valid()
      ensures store == old(store)[WorkoutsKey := List(ForEachSplice(old(GetWorkouts()), id))]
      ensures GetCalorieLimit() == old(GetCalorieLimit()) && GetTotalCalories() == old(GetTotalCalories()) && GetMeals() == old(GetMeals())
      ensures |GetWorkouts()| <= |old(GetWorkouts())|
      ensures !Contains(old(GetWorkouts()), id) ==> GetWorkouts() == old(GetWorkouts())
      ensures UniqueIds(old(GetWorkouts())) ==> GetWorkouts() == RemoveFirst(old(GetWorkouts()), id)
    {
      var workouts := GetWorkouts();
      ghost var before := workouts;
      workouts := SpliceMatching(workouts, id);
      if !Contains(before, id) {
        ForEachSpliceMiss(before, id);
      }
      if UniqueIds(before) {
        ForEachSpliceUnique(before, id);
      }
      store := store[WorkoutsKey := List(workouts)];
    }

    /** Delete the total and both lists; the limit stays. */
    method ClearAll()
      requires Valid()
      modifies this
      ensures Valid()
      ensures store == old(store) - {TotalCaloriesKey, MealsKey, WorkoutsKey}
      ensures GetTotalCalories() == 0 && GetMeals() == [] && GetWorkouts() == []
      ensures GetCalorieLimit() == old(GetCalorieLimit())
    {
      store := store - {TotalCaloriesKey, MealsKey, WorkoutsKey};
    }
  }
}
