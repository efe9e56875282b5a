/** Meals and workouts, and the list operations the tracker and its store
    perform on them. */
module Items {

  /** Entries are identified by an opaque string id. */
  type Id = string

  /** A meal or a workout: an id, a name and its calories. */
  datatype Entry = Entry(id: Id, name: string, calories: int)

  type Meal = Entry
  type Workout = Entry

  /** Some entry of `s` carries `id`. */
  ghost predicate Contains(s: seq<Entry>, id: Id) {
    exists i :: 0 <= i < |s| && s[i].id == id
  }

  /** No two entries of `s` share an id. */
  ghost predicate UniqueIds(s: seq<Entry>) {
    forall i, j :: 0 <= i < j < |s| ==> s[i].id != s[j].id
  }

  /** No entry of `s` has negative calories. */
  ghost predicate NoNegativeCalories(s: seq<Entry>) {
    forall e :: e in s ==> e.calories >= 0
  }

  /** `Array.prototype.findIndex` with the predicate `e.id === id`:
      the first index holding `id`, or -1. */
  function FindIndex(s: seq<Entry>, id: Id): (r: int)
    ensures -1 <= r < |s|
    ensures r == -1 <==> !Contains(s, id)
    ensures r != -1 ==> s[r].id == id && forall i :: 0 <= i < r ==> s[i].id != id
  {
    if s == [] then -1
    else if s[0].id == id then 0
    else
      var k := FindIndex(s[1..], id);
      if k == -1 then -1 else k + 1
  }

  /** The first entry with `id` spliced out; `s` itself when there is none. */
  function RemoveFirst(s: seq<Entry>, id: Id): (r: seq<Entry>)
    ensures FindIndex(s, id) == -1 ==> r == s
    ensures FindIndex(s, id) != -1 ==> |r| == |s| - 1
  {
    var k := FindIndex(s, id);
    if k == -1 then s else s[..k] + s[k + 1..]
  }

  /** `reduce((total, e) => total + e.calories, 0)`: a fold from the left. */
  function SumCalories(s: seq<Entry>): (total: int)
  {
    if s == [] then 0 else SumCalories(s[..|s| - 1]) + s[|s| - 1].calories
  }

  /** What is left of `s` after iterating it with `forEach` and calling
      `splice(index, 1)` on every visited entry with `id`. A splice shifts
      the rest of the array down by one while `forEach` moves on to the
      next index, so the entry right after a removed one is never visited. */
  function ForEachSplice(s: seq<Entry>, id: Id): (r: seq<Entry>)
    ensures |r| <= |s|
  {
    if s == [] then []
    else if s[0].id == id then (if |s| == 1 then [] else [s[1]] + ForEachSplice(s[2..], id))
    else [s[0]] + ForEachSplice(s[1..], id)
  }

  // ---------------------------------------------------------------------
  // The running sum

  /** Appending an entry adds its calories to the sum. */
  lemma SumAppend(s: seq<Entry>, e: Entry)
    ensures SumCalories(s + [e]) == SumCalories(s) + e.calories
  {
  }

  /** Entries with no negative calories never give a negative sum. */
  lemma {:induction false} SumNonNegative(s: seq<Entry>)
    ensures NoNegativeCalories(s) ==> SumCalories(s) >= 0
    decreases |s|
  {
    if s != [] && NoNegativeCalories(s) {
      var init := s[..|s| - 1];
      assert NoNegativeCalories(init) by {
        forall e | e in init ensures e.calories >= 0 {
          assert e in s;
        }
      }
      SumNonNegative(init);
      assert s[|s| - 1] in s;
    }
  }

  /** Splicing out the entry at `k` subtracts its calories from the sum. */
  lemma {:induction false} SumRemoveAt(s: seq<Entry>, k: nat)
    requires k < |s|
    ensures SumCalories(s[..k] + s[k + 1..]) == SumCalories(s) - s[k].calories
    decreases |s|
  {
    var last := |s| - 1;
    var init := s[..last];
    var t := s[..k] + s[k + 1..];
    if k == last {
      assert t == init;
    } else {
      SumRemoveAt(init, k);
      // the last entry of `t` is the last of `s`; before it, `init` less entry k
      assert t[..|t| - 1] == init[..k] + init[k + 1..];
      assert t[|t| - 1] == s[last];
    }
  }

  /** Removing the first entry with `id` subtracts that entry's calories;
      a miss leaves the sum as it was. */
  lemma SumRemoveFirst(s: seq<Entry>, id: Id)
    ensures var k := FindIndex(s, id);
      SumCalories(RemoveFirst(s, id)) == if k == -1 then SumCalories(s) else SumCalories(s) - s[k].calories
  {
    var k := FindIndex(s, id);
    if k != -1 {
      assert RemoveFirst(s, id) == s[..k] + s[k + 1..];
      SumRemoveAt(s, k);
    }
  }

  // ---------------------------------------------------------------------
  // Removal by id

  /** On a hit, removal takes out exactly one entry, the first with `id`,
      and nothing else: the multiset of entries loses just that one. */
  lemma {:induction false} RemoveFirstMultiset(s: seq<Entry>, id: Id)
    requires Contains(s, id)
    ensures multiset(RemoveFirst(s, id)) + multiset{s[FindIndex(s, id)]} == multiset(s)
  {
    var k := FindIndex(s, id);
    var before, after := s[..k], s[k + 1..];
    assert s == before + ([s[k]] + after);
    calc {
      multiset(s);
      multiset(before) + multiset([s[k]] + after);
      multiset(before) + multiset{s[k]} + multiset(after);
      multiset(before + after) + multiset{s[k]};
      { assert RemoveFirst(s, id) == before + after; }
      multiset(RemoveFirst(s, id)) + multiset{s[k]};
    }
  }

  /** Removal keeps ids unique. */
  lemma RemoveFirstKeepsUnique(s: seq<Entry>, id: Id)
    requires UniqueIds(s)
    ensures UniqueIds(RemoveFirst(s, id))
  {
  }

  /** With unique ids, removal takes out exactly the entry with `id`: no
      entry with `id` remains, every other entry stays, and the list is one
      shorter exactly when `id` occurred. */
  lemma RemoveFirstExact(s: seq<Entry>, id: Id)
    requires UniqueIds(s)
    ensures !Contains(RemoveFirst(s, id), id)
    ensures forall e :: e in s && e.id != id ==> e in RemoveFirst(s, id)
    ensures |RemoveFirst(s, id)| == if Contains(s, id) then |s| - 1 else |s|
  {
  }

  /** The ids after the first entry of a list with unique ids are unique
      and differ from the first one. */
  lemma UniqueTail(s: seq<Entry>)
    requires UniqueIds(s) && s != []
    ensures UniqueIds(s[1..])
    ensures !Contains(s[1..], s[0].id)
  {
  }

  /** Removal by `findIndex`/`splice` keeps a first entry whose id differs. */
  lemma RemoveFirstCons(s: seq<Entry>, id: Id)
    requires s != [] && s[0].id != id
    ensures RemoveFirst(s, id) == [s[0]] + RemoveFirst(s[1..], id)
  {
  }

  /** The sweep never adds an entry: what it leaves is a sub-multiset of
      what it was given. */
  lemma {:induction false} ForEachSpliceSubMultiset(s: seq<Entry>, id: Id)
    ensures multiset(ForEachSplice(s, id)) <= multiset(s)
    decreases |s|
  {
    if s == [] {
    } else if s[0].id == id {
      if |s| > 1 {
        var r := ForEachSplice(s[2..], id);
        ForEachSpliceSubMultiset(s[2..], id);
        MultisetHead(s);
        MultisetHead(s[1..]);
        assert s[1..][1..] == s[2..];
        assert multiset([s[1]] + r) == multiset{s[1]} + multiset(r);
      }
    } else {
      var r := ForEachSplice(s[1..], id);
      ForEachSpliceSubMultiset(s[1..], id);
      MultisetHead(s);
      assert multiset([s[0]] + r) == multiset{s[0]} + multiset(r);
    }
  }

  /** A list's multiset is its first entry plus the multiset of the rest. */
  lemma MultisetHead(s: seq<Entry>)
    requires s != []
    ensures multiset(s) == multiset{s[0]} + multiset(s[1..])
  {
    assert s == [s[0]] + s[1..];
  }

  /** A list in which `id` does not occur is left as it is by the sweep. */
  lemma {:induction false} ForEachSpliceMiss(s: seq<Entry>, id: Id)
    requires !Contains(s, id)
    ensures ForEachSplice(s, id) == s
    decreases |s|
  {
    if s != [] {
      assert s[0].id != id;
      assert !Contains(s[1..], id) by {
        forall i | 0 <= i < |s[1..]| ensures s[1..][i].id != id {
          assert s[1..][i] == s[i + 1];
        }
      }
      ForEachSpliceMiss(s[1..], id);
      assert s == [s[0]] + s[1..];
    }
  }

  /** With unique ids the `forEach`/`splice` sweep removes exactly what
      `findIndex`/`splice` removes: the one entry with `id`. */
  lemma {:induction false} ForEachSpliceUnique(s: seq<Entry>, id: Id)
    requires UniqueIds(s)
    ensures ForEachSplice(s, id) == RemoveFirst(s, id)
    decreases |s|
  {
    if s != [] {
      UniqueTail(s);
      if s[0].id == id {
        if |s| > 1 {
          assert !Contains(s[2..], id) by {
            forall i | 0 <= i < |s[2..]| ensures s[2..][i].id != id {
              assert s[2..][i] == s[1..][i + 1];
            }
          }
          ForEachSpliceMiss(s[2..], id);
          assert [s[1]] + s[2..] == s[1..];
        }
      } else {
        ForEachSpliceUnique(s[1..], id);
        RemoveFirstCons(s, id);
      }
    }
  }

  /** Without unique ids the two removals part ways: for the list
      `[a, b, a']` where `a` and `a'` share an id, the sweep removes both
      while `findIndex`/`splice` removes only the first. */
  lemma DuplicateIdsDiverge()
    ensures exists s: seq<Entry>, id: Id ::
      ForEachSplice(s, id) != RemoveFirst(s, id) && Contains(ForEachSplice(s, id), id) == false
  {
    var a := Entry("a", "Eggs", 300);
    var b := Entry("b", "Run", 400);
    var a' := Entry("a", "Toast", 150);
    var s := [a, b, a'];
    assert s[2..] == [a'] && ForEachSplice([a'], "a") == [];
    assert ForEachSplice(s, "a") == [b];
    assert FindIndex(s, "a") == 0;
    assert |RemoveFirst(s, "a")| == 2;
    assert !Contains([b], "a");
  }

  /** Nor does the sweep always remove every entry with the id: for
      `[a, a']` it splices out `a` and never visits `a'`, which is left. */
  lemma DuplicateIdsSurvive()
    ensures exists s: seq<Entry>, id: Id :: Contains(ForEachSplice(s, id), id)
  {
    var a := Entry("a", "Eggs", 300);
    var a' := Entry("a", "Toast", 150);
    var d := [a, a'];
    assert ForEachSplice(d, "a") == [a'];
    assert ForEachSplice(d, "a")[0].id == "a";
  }
}
