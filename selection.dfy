/**
 * Building a custom workout (App.tsx): the count stepper of the setup screen,
 * the name search and the capped toggle of the selection screen, the "Start"
 * commit into the session store, and the resolution of exercise ids against
 * the catalog done by the two execution screens.
 */
module Selection {
  import opened Util
  import opened Session

  /** A catalog entry; `name` is the name in the language currently shown. */
  datatype Exercise = Exercise(id: string, name: string, videoUrl: Option<string>)

  /** A ready-made programme: an ordered id list and a number of sets. */
  datatype ReadyWorkout = ReadyWorkout(id: string, exercises: seq<string>, sets: nat)

  /** The catalog has an entry with this id. */
  predicate Known(catalog: seq<Exercise>, id: string) {
    exists e :: e in catalog && e.id == id
  }

  // ---------------------------------------------------------------------------
  // Setup screen: how many exercises

  const MinCount := 1
  const MaxCount := 10
  const InitialCount := 4

  /** The "-" button: one less, but never below 1. */
  function StepDown(count: int): (r: int)
    ensures r >= MinCount
    ensures count > MinCount ==> r == count - 1
    ensures count <= MinCount ==> r == MinCount
  {
    if count - 1 > MinCount then count - 1 else MinCount
  }

  /** The "+" button: one more, but never above 10. */
  function StepUp(count: int): (r: int)
    ensures r <= MaxCount
    ensures count < MaxCount ==> r == count + 1
    ensures count >= MaxCount ==> r == MaxCount
  {
    if count + 1 < MaxCount then count + 1 else MaxCount
  }

  function StepDownTimes(count: int, k: nat): int {
    if k == 0 then count else StepDown(StepDownTimes(count, k - 1))
  }

  function StepUpTimes(count: int, k: nat): int {
    if k == 0 then count else StepUp(StepUpTimes(count, k - 1))
  }

  /** `k` presses of "-" from a count in range leave max(1, count - k). */
  lemma {:induction false} StepDownTimesClamps(count: int, k: nat)
    requires MinCount <= count <= MaxCount
    ensures StepDownTimes(count, k) == if count - k > MinCount then count - k else MinCount
  {
    if k > 0 {
      StepDownTimesClamps(count, k - 1);
    }
  }

  /** `k` presses of "+" from a count in range leave min(10, count + k). */
  lemma {:induction false} StepUpTimesClamps(count: int, k: nat)
    requires MinCount <= count <= MaxCount
    ensures StepUpTimes(count, k) == if count + k < MaxCount then count + k else MaxCount
  {
    if k > 0 {
      StepUpTimesClamps(count, k - 1);
    }
  }

  class SetupScreen {
    var count: int

    ghost predicate Valid()
      reads this
    {
      MinCount <= count <= MaxCount
    }

    constructor ()
      ensures Valid() && count == InitialCount
    {
      count := InitialCount;
    }

    method Decrement()
      requires Valid()
      modifies this
      ensures Valid() && count == StepDown(old(count))
    {
      count := StepDown(count);
    }

    method Increment()
      requires Valid()
      modifies this
      ensures Valid() && count == StepUp(old(count))
    {
      count := StepUp(count);
    }
  }

  // ---------------------------------------------------------------------------
  // Search by name

  /**
   * The catalog entries whose lower-cased name contains the lower-cased
   * query, in catalog order. `lower` stands for `toLowerCase`.
   */
  function Search(catalog: seq<Exercise>, query: string, lower: string -> string): (r: seq<Exercise>)
    ensures |r| <= |catalog|
    ensures forall e :: e in r ==> e in catalog && Contains(lower(e.name), lower(query))
    ensures forall e :: e in catalog && Contains(lower(e.name), lower(query)) ==> e in r
  {
    if catalog == [] then []
    else
      (if Contains(lower(catalog[0].name), lower(query)) then [catalog[0]] else [])
      + Search(catalog[1..], query, lower)
  }

  /** Searching a concatenation searches each part: the matches keep catalog order. */
  lemma {:induction false} SearchAppend(a: seq<Exercise>, b: seq<Exercise>, query: string, lower: string -> string)
    ensures Search(a + b, query, lower) == Search(a, query, lower) + Search(b, query, lower)
  {
    if a == [] {
      assert a + b == b;
    } else {
      assert (a + b)[1..] == a[1..] + b;
      SearchAppend(a[1..], b, query, lower);
    }
  }

  /** An empty (lower-cased) query shows the whole catalog. */
  lemma {:induction false} SearchEmptyQuery(catalog: seq<Exercise>, query: string, lower: string -> string)
    requires lower(query) == ""
    ensures Search(catalog, query, lower) == catalog
  {
    if catalog != [] {
      ContainsEmpty(lower(catalog[0].name));
      SearchEmptyQuery(catalog[1..], query, lower);
    }
  }

  // ---------------------------------------------------------------------------
  // Selection screen: the capped toggle and the commit

  /**
   * `handleToggle(id)`: a selected id is deselected; a new id is appended
   * only while fewer than `count` are selected; otherwise nothing happens.
   */
  function ToggleSelection(selected: seq<string>, id: string, count: int): (r: seq<string>)
    ensures id in selected ==> id !in r && forall x :: x != id ==> (x in r <==> x in selected)
    ensures id in selected ==> |r| < |selected|
    ensures id !in selected && |selected| < count ==> r == selected + [id]
    ensures id !in selected && |selected| >= count ==> r == selected
    ensures NoDup(selected) ==> NoDup(r)
    ensures |selected| <= count ==> |r| <= count
  {
    if id in selected then
      var r := RemoveAll(selected, id);
      assert NoDup(selected) ==> NoDup(r) by {
        if NoDup(selected) { RemoveAllNoDup(selected, id); }
      }
      r
    else if |selected| < count then selected + [id]
    else selected
  }

  /** The selection after a series of taps on the list. */
  function ToggleAll(selected: seq<string>, taps: seq<string>, count: int): seq<string>
    decreases |taps|
  {
    if taps == [] then selected
    else ToggleAll(ToggleSelection(selected, taps[0], count), taps[1..], count)
  }

  /** Whatever is tapped, the selection stays duplicate-free and never exceeds `count`. */
  lemma {:induction false} ToggleAllKeepsBounds(selected: seq<string>, taps: seq<string>, count: int)
    requires NoDup(selected) && |selected| <= count
    ensures NoDup(ToggleAll(selected, taps, count)) && |ToggleAll(selected, taps, count)| <= count
    decreases |taps|
  {
    if taps != [] {
      ToggleAllKeepsBounds(ToggleSelection(selected, taps[0], count), taps[1..], count);
    }
  }

  /** Deselecting keeps the other selected ids in their order. */
  lemma DeselectKeepsOrder(a: seq<string>, id: string, b: seq<string>, count: int)
    requires id !in a && id !in b
    ensures ToggleSelection(a + [id] + b, id, count) == a + b
  {
    var s := a + [id] + b;
    assert id in s by { assert s[|a|] == id; }
    assert ToggleSelection(s, id, count) == RemoveAll(s, id);
    assert RemoveAll([id], id) == [] by { assert [id][1..] == []; }
    RemoveAllAppend(a + [id], b, id);
    RemoveAllAppend(a, [id], id);
    RemoveAllAbsent(a, id);
    RemoveAllAbsent(b, id);
  }

  /** With count 3: tapping a, b, c, d selects a, b, c; then -b, +d gives a, c, d. */
  lemma CappedSelectionExample(a: string, b: string, c: string, d: string)
    requires NoDup([a, b, c, d])
    ensures ToggleAll([], [a, b, c, d], 3) == [a, b, c]
    ensures ToggleAll([a, b, c], [b, d], 3) == [a, c, d]
  {
    assert a != b && a != c && a != d && b != c && b != d && c != d by {
      var s := [a, b, c, d];
      assert s[0] != s[1] && s[0] != s[2] && s[0] != s[3] && s[1] != s[2] && s[1] != s[3] && s[2] != s[3];
    }
    // First series: a, b, c are accepted, d is ignored.
    assert ToggleSelection([], a, 3) == [a];
    assert ToggleSelection([a], b, 3) == [a, b];
    assert ToggleSelection([a, b], c, 3) == [a, b, c];
    assert ToggleSelection([a, b, c], d, 3) == [a, b, c];
    assert [a, b, c, d][1..] == [b, c, d] && [b, c, d][1..] == [c, d] && [c, d][1..] == [d] && [d][1..] == [];
    assert ToggleAll([a, b, c], [d], 3) == [a, b, c];
    assert ToggleAll([a, b], [c, d], 3) == [a, b, c];
    assert ToggleAll([a], [b, c, d], 3) == [a, b, c];
    // Second series: b is deselected, then d fits.
    assert ToggleSelection([a, b, c], b, 3) == [a, c] by {
      DeselectKeepsOrder([a], b, [c], 3);
      assert [a] + [b] + [c] == [a, b, c];
      assert [a] + [c] == [a, c];
    }
    assert ToggleSelection([a, c], d, 3) == [a, c, d];
    assert [b, d][1..] == [d];
    assert ToggleAll([a, c], [d], 3) == [a, c, d];
  }

  /** "Start" is enabled unless fewer than `count` are selected (`disabled={selected.length < count}`). */
  function StartEnabled(selected: seq<string>, count: int): (b: bool)
    ensures |selected| <= count ==> (b <==> |selected| == count)
  {
    !(|selected| < count)
  }

  class SelectionScreen {
    /** The count taken from the route. */
    const count: int
    var selected: seq<string>
    var query: string

    ghost predicate Valid()
      reads this
    {
      MinCount <= count <= MaxCount && NoDup(selected) && |selected| <= count
    }

    constructor (count: int)
      requires MinCount <= count <= MaxCount
      ensures Valid() && this.count == count && selected == [] && query == ""
    {
      this.count := count;
      selected := [];
      query := "";
    }

    method SetQuery(q: string)
      modifies this
      ensures query == q && selected == old(selected)
    {
      query := q;
    }

    method Toggle(id: string)
      requires Valid()
      modifies this
      ensures Valid()
      ensures selected == ToggleSelection(old(selected), id, count) && query == old(query)
    {
      selected := ToggleSelection(selected, id, count);
    }

    /** "Start": when enabled, the selection is committed unchanged to the store; when disabled, nothing happens. */
    method Start(store: Store) returns (started: bool)
      requires Valid() && store.Valid()
      modifies store
      ensures started <==> |selected| == count
      ensures started ==> store.data == SaveActiveWorkout(old(store.data), selected)
      ensures !started ==> store.data == old(store.data)
      ensures store.Valid()
    {
      started := StartEnabled(selected, count);
      if started {
        store.SaveActive(selected);
      }
    }
  }

  // ---------------------------------------------------------------------------
  // Resolving ids against the catalog

  /** `EXERCISES.find(e => e.id === id)`: the first entry with that id. */
  function Find(catalog: seq<Exercise>, id: string): (r: Option<Exercise>)
    ensures r.None? <==> !Known(catalog, id)
    ensures r.Some? ==> r.value.id == id
    ensures r.Some? ==>
      exists i :: 0 <= i < |catalog| && catalog[i] == r.value && forall j :: 0 <= j < i ==> catalog[j].id != id
  {
    if catalog == [] then None
    else if catalog[0].id == id then Some(catalog[0])
    else
      var r := Find(catalog[1..], id);
      assert Known(catalog, id) ==> Known(catalog[1..], id) by {
        if Known(catalog, id) {
          var e :| e in catalog && e.id == id;
          assert e in catalog[1..];
        }
      }
      if r.Some? then
        assert exists i :: 0 <= i < |catalog| && catalog[i] == r.value && forall j :: 0 <= j < i ==> catalog[j].id != id by {
          var i :| 0 <= i < |catalog[1..]| && catalog[1..][i] == r.value && forall j :: 0 <= j < i ==> catalog[1..][j].id != id;
          assert catalog[i + 1] == r.value;
          assert forall j :: 0 <= j < i + 1 ==> catalog[j].id != id by {
            forall j | 0 <= j < i + 1 ensures catalog[j].id != id {
              if j > 0 { assert catalog[j] == catalog[1..][j - 1]; }
            }
          }
        }
        r
      else r
  }

  /**
   * `ids.map(id => EXERCISES.find(...)).filter(e => !!e)`: the entries for
   * the known ids, in the order of `ids`; unknown ids are dropped.
   */
  function Resolve(ids: seq<string>, catalog: seq<Exercise>): (r: seq<Exercise>)
    ensures |r| <= |ids|
    ensures forall e :: e in r ==> e in catalog && e.id in ids
    // when every id is known, the i-th entry is the first catalog entry with the i-th id
    ensures (forall id :: id in ids ==> Known(catalog, id)) ==>
              |r| == |ids| && forall i :: 0 <= i < |r| ==> r[i].id == ids[i] && Find(catalog, ids[i]) == Some(r[i])
  {
    if ids == [] then []
    else
      var head := Find(catalog, ids[0]);
      var rest := Resolve(ids[1..], catalog);
      assert forall e :: e in rest ==> e.id in ids by {
        forall e | e in rest ensures e.id in ids {
          assert e.id in ids[1..];
        }
      }
      assert (forall id :: id in ids ==> Known(catalog, id)) ==> forall id :: id in ids[1..] ==> Known(catalog, id) by {
        forall id | id in ids[1..] ensures id in ids { }
      }
      var r := (if head.Some? then [head.value] else []) + rest;
      assert (forall id :: id in ids ==> Known(catalog, id)) ==>
               forall i :: 0 <= i < |r| ==> Find(catalog, ids[i]) == Some(r[i]) by {
        if forall id :: id in ids ==> Known(catalog, id) {
          assert ids[0] in ids;
          forall i | 0 <= i < |r| ensures Find(catalog, ids[i]) == Some(r[i]) {
            if i > 0 {
              assert r[i] == rest[i - 1] && ids[i] == ids[1..][i - 1];
            }
          }
        }
      }
      r
  }

  /** One id resolves to the first catalog entry with it, or to nothing when the catalog lacks it. */
  lemma ResolveOne(id: string, catalog: seq<Exercise>)
    ensures Resolve([id], catalog) == if Find(catalog, id).Some? then [Find(catalog, id).value] else []
  {
    assert [id][0] == id && [id][1..] == [];
  }

  /** Resolving a concatenation resolves each part: the output keeps the input's order. */
  lemma {:induction false} ResolveAppend(a: seq<string>, b: seq<string>, catalog: seq<Exercise>)
    ensures Resolve(a + b, catalog) == Resolve(a, catalog) + Resolve(b, catalog)
  {
    if a == [] {
      assert a + b == b;
    } else {
      assert (a + b)[1..] == a[1..] + b;
      ResolveAppend(a[1..], b, catalog);
    }
  }

  /** An id the catalog does not know is silently dropped. */
  lemma ResolveDropsUnknown(a: seq<string>, id: string, b: seq<string>, catalog: seq<Exercise>)
    requires !Known(catalog, id)
    ensures Resolve(a + [id] + b, catalog) == Resolve(a, catalog) + Resolve(b, catalog)
  {
    assert Resolve([id], catalog) == [] by {
      assert Find(catalog, id).None?;
      assert [id][1..] == [];
    }
    ResolveAppend(a + [id], b, catalog);
    ResolveAppend(a, [id], catalog);
    assert Resolve(a, catalog) + [] == Resolve(a, catalog);
  }

  /** ["valid1", "ghost", "valid2"] against a catalog holding only the two valid ones gives both, in order. */
  lemma ResolveExample(v1: Exercise, v2: Exercise)
    requires v1.id == "valid1" && v2.id == "valid2"
    ensures Resolve(["valid1", "ghost", "valid2"], [v1, v2]) == [v1, v2]
  {
    var catalog := [v1, v2];
    assert !Known(catalog, "ghost") by {
      forall e | e in catalog ensures e.id != "ghost" {
        assert e == v1 || e == v2;
      }
    }
    ResolveDropsUnknown(["valid1"], "ghost", ["valid2"], catalog);
    assert ["valid1"] + ["ghost"] + ["valid2"] == ["valid1", "ghost", "valid2"];
    assert Resolve(["valid1"], catalog) == [v1] by {
      assert Find(catalog, "valid1") == Some(v1);
      ResolveOne("valid1", catalog);
    }
    assert Resolve(["valid2"], catalog) == [v2] by {
      assert Find(catalog, "valid2") == Some(v2) by {
        assert catalog[1..] == [v2];
      }
      ResolveOne("valid2", catalog);
    }
  }

  /** The active workout screen lists the stored session's exercises. */
  function ActiveExercises(d: UserData, catalog: seq<Exercise>): (r: seq<Exercise>)
    ensures |r| <= |d.activeWorkout|
    ensures forall e :: e in r ==> e in catalog && e.id in d.activeWorkout
    // a session of known ids is listed one entry per stored id, in the stored order
    ensures (forall id :: id in d.activeWorkout ==> Known(catalog, id)) ==>
              |r| == |d.activeWorkout|
              && forall i :: 0 <= i < |r| ==> Find(catalog, d.activeWorkout[i]) == Some(r[i])
  {
    Resolve(d.activeWorkout, catalog)
  }

  /** `PREDEFINED_WORKOUTS.find(w => w.id === workoutId)`: the first programme with that id. */
  function FindWorkout(workouts: seq<ReadyWorkout>, id: string): (r: Option<ReadyWorkout>)
    ensures r.None? <==> forall w :: w in workouts ==> w.id != id
    ensures r.Some? ==> r.value.id == id
    ensures r.Some? ==>
      exists i :: 0 <= i < |workouts| && workouts[i] == r.value && forall j :: 0 <= j < i ==> workouts[j].id != id
  {
    if workouts == [] then None
    else if workouts[0].id == id then Some(workouts[0])
    else
      var r := FindWorkout(workouts[1..], id);
      assert forall w :: w in workouts[1..] ==> w in workouts;
      assert (forall w :: w in workouts[1..] ==> w.id != id) ==> forall w :: w in workouts ==> w.id != id by {
        if forall w :: w in workouts[1..] ==> w.id != id {
          forall w | w in workouts ensures w.id != id {
            if w != workouts[0] {
              var k :| 0 <= k < |workouts| && workouts[k] == w;
              assert workouts[1..][k - 1] == w;
            }
          }
        }
      }
      if r.Some? then
        assert exists i :: 0 <= i < |workouts| && workouts[i] == r.value && forall j :: 0 <= j < i ==> workouts[j].id != id by {
          var i :| 0 <= i < |workouts[1..]| && workouts[1..][i] == r.value && forall j :: 0 <= j < i ==> workouts[1..][j].id != id;
          assert workouts[i + 1] == r.value;
          forall j | 0 <= j < i + 1 ensures workouts[j].id != id {
            if j > 0 { assert workouts[j] == workouts[1..][j - 1]; }
          }
        }
        r
      else r
  }

  /**
   * The ready-made workout screen: "Workout not found" (None) for an unknown
   * id, otherwise the exercises of the first programme with that id, resolved
   * against the catalog. It reads the programme catalog only; it has no
   * access to the session store.
   */
  function ReadyExercises(workouts: seq<ReadyWorkout>, id: string, catalog: seq<Exercise>): (r: Option<seq<Exercise>>)
    ensures r.None? <==> forall w :: w in workouts ==> w.id != id
    ensures r.Some? ==>
      exists i :: 0 <= i < |workouts| && workouts[i].id == id && (forall j :: 0 <= j < i ==> workouts[j].id != id)
                  && r.value == Resolve(workouts[i].exercises, catalog)
  {
    var w := FindWorkout(workouts, id);
    if w.None? then None else Some(Resolve(w.value.exercises, catalog))
  }

  /** The custom-workout path end to end: what was committed is what the active screen shows. */
  method StartThenShow(store: Store, screen: SelectionScreen, catalog: seq<Exercise>) returns (shown: seq<Exercise>)
    requires store.Valid() && screen.Valid()
    requires forall id :: id in screen.selected ==> Known(catalog, id)
    modifies store
    ensures store.Valid()
    ensures |screen.selected| == screen.count ==>
              |shown| == screen.count && forall i :: 0 <= i < |shown| ==> shown[i].id == screen.selected[i]
  {
    var _ := screen.Start(store);
    shown := ActiveExercises(store.data, catalog);
  }
}
