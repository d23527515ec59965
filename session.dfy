/**
 * The persistent session store of App.tsx (`useUserData`) and the resume
 * prompt of the home screen.
 *
 * The record is a value; every updater builds a new copy of it from the
 * previous one (the `setData(prev => ({ ...prev, ... }))` expressions), so the
 * updaters are functions on `UserData`. The hook itself holds the current
 * record and rewrites the storage slot after every change: that is the
 * `Store` class, whose `persisted` field stands for the slot under the
 * storage key.
 */
module Session {
  import opened Util

  datatype UserData = UserData(
    favorites: seq<string>,
    notes: map<string, string>,
    customPlans: map<string, string>,
    activeWorkout: seq<string>)

  /** The record used when nothing is stored yet. */
  const Empty := UserData([], map[], map[], [])

  /** The record loaded at start-up: the stored one if there is one, otherwise the empty one. */
  function Load(stored: Option<UserData>): (d: UserData)
    ensures stored.None? ==> d.favorites == [] && d.notes == map[] && d.customPlans == map[] && d.activeWorkout == []
    ensures stored.Some? ==> d == stored.value
  {
    if stored.Some? then stored.value else Empty
  }

  // ---------------------------------------------------------------------------
  // The five updaters

  /** `saveActiveWorkout(ids)`: the active workout becomes `ids`, in order. */
  function SaveActiveWorkout(d: UserData, ids: seq<string>): (r: UserData)
    ensures r.activeWorkout == ids
    ensures r.favorites == d.favorites && r.notes == d.notes && r.customPlans == d.customPlans
  {
    d.(activeWorkout := ids)
  }

  /** `clearActiveWorkout()`: no session in progress any more. */
  function ClearActiveWorkout(d: UserData): (r: UserData)
    ensures r.activeWorkout == []
    ensures r.favorites == d.favorites && r.notes == d.notes && r.customPlans == d.customPlans
  {
    d.(activeWorkout := [])
  }

  /**
   * The favourites list after toggling `id`: if present, every occurrence is
   * removed and the others keep their order; if absent, it is appended.
   */
  function ToggleFavorite(favorites: seq<string>, id: string): (r: seq<string>)
    ensures id in r <==> id !in favorites
    ensures id !in favorites ==> r == favorites + [id]
    ensures NoDup(favorites) ==> NoDup(r)
  {
    if id in favorites then
      var r := RemoveAll(favorites, id);
      assert NoDup(favorites) ==> NoDup(r) by {
        if NoDup(favorites) { RemoveAllNoDup(favorites, id); }
      }
      r
    else
      favorites + [id]
  }

  /**
   * Toggling never touches another id: each keeps its number of occurrences,
   * and `id` itself ends up at most once in the list.
   */
  lemma ToggleKeepsOthers(favorites: seq<string>, id: string, x: string)
    requires x != id
    ensures multiset(ToggleFavorite(favorites, id))[x] == multiset(favorites)[x]
    ensures multiset(ToggleFavorite(favorites, id))[id] <= 1
  {
    var r := ToggleFavorite(favorites, id);
    if id in favorites {
      RemoveAllCounts(favorites, id, x);
      assert id !in r;
    } else {
      assert multiset(r) == multiset(favorites) + multiset{id};
    }
  }

  /** `toggleFavorite(id)` on the whole record. */
  function WithFavoriteToggled(d: UserData, id: string): (r: UserData)
    ensures r.favorites == ToggleFavorite(d.favorites, id)
    ensures r.notes == d.notes && r.customPlans == d.customPlans && r.activeWorkout == d.activeWorkout
  {
    d.(favorites := ToggleFavorite(d.favorites, id))
  }

  /** `updateNote(id, text)`: the note of `id` becomes `text`, every other note is kept. */
  function UpdateNote(d: UserData, id: string, text: string): (r: UserData)
    ensures id in r.notes && r.notes[id] == text
    ensures r.notes.Keys == d.notes.Keys + {id}
    ensures forall k :: k in d.notes && k != id ==> r.notes[k] == d.notes[k]
    ensures r.favorites == d.favorites && r.customPlans == d.customPlans && r.activeWorkout == d.activeWorkout
  {
    d.(notes := d.notes[id := text])
  }

  /** `updatePlan(id, text)`: the plan `id` becomes `text`, every other plan is kept. */
  function UpdatePlan(d: UserData, id: string, text: string): (r: UserData)
    ensures id in r.customPlans && r.customPlans[id] == text
    ensures r.customPlans.Keys == d.customPlans.Keys + {id}
    ensures forall k :: k in d.customPlans && k != id ==> r.customPlans[k] == d.customPlans[k]
    ensures r.favorites == d.favorites && r.notes == d.notes && r.activeWorkout == d.activeWorkout
  {
    d.(customPlans := d.customPlans[id := text])
  }

  // ---------------------------------------------------------------------------
  // Properties of the updaters

  /** Toggling `id` `k` times in a row. */
  function ToggleTimes(favorites: seq<string>, id: string, k: nat): seq<string>
  {
    if k == 0 then favorites else ToggleFavorite(ToggleTimes(favorites, id, k - 1), id)
  }

  /** Each toggle flips membership, so `id` is present after `k` toggles iff it was present xor `k` is odd. */
  lemma {:induction false} ToggleParity(favorites: seq<string>, id: string, k: nat)
    ensures id in ToggleTimes(favorites, id, k) <==> ((id in favorites) != (k % 2 == 1))
  {
    if k > 0 {
      ToggleParity(favorites, id, k - 1);
    }
  }

  /** Starting from an absent id, it is a favourite after `k` toggles iff `k` is odd. */
  lemma AbsentToggledOddTimes(favorites: seq<string>, id: string, k: nat)
    requires id !in favorites
    ensures id in ToggleTimes(favorites, id, k) <==> k % 2 == 1
  {
    ToggleParity(favorites, id, k);
  }

  /** Toggling an absent id twice gives back exactly the same list. */
  lemma ToggleTwiceRestores(favorites: seq<string>, id: string)
    requires id !in favorites
    ensures ToggleFavorite(ToggleFavorite(favorites, id), id) == favorites
  {
    RemoveAllAppend(favorites, [id], id);
    RemoveAllAbsent(favorites, id);
  }

  /** Removing a present id removes it piecewise: the other ids keep their relative order. */
  lemma ToggleRemovesInOrder(a: seq<string>, id: string, b: seq<string>)
    requires id in a + b
    ensures ToggleFavorite(a + b, id) == RemoveAll(a, id) + RemoveAll(b, id)
  {
    RemoveAllAppend(a, b, id);
  }

  /**
   * Order matters: toggling a favourite off and on again moves it from its
   * place to the end of the list.
   */
  lemma ToggleTwiceMovesToEnd(a: seq<string>, id: string, b: seq<string>)
    requires id !in a && id !in b
    ensures ToggleFavorite(ToggleFavorite(a + [id] + b, id), id) == a + b + [id]
  {
    var once := ToggleFavorite(a + [id] + b, id);
    assert once == a + b by {
      assert id in a + [id] + b;
      assert RemoveAll(a + [id], id) == a by {
        RemoveAllAppend(a, [id], id);
        RemoveAllAbsent(a, id);
        assert RemoveAll([id], id) == [];
      }
      RemoveAllAppend(a + [id], b, id);
      RemoveAllAbsent(b, id);
    }
    assert id !in a + b;
  }

  /** Last write wins: a second note for the same id replaces the first. */
  lemma NoteLastWriteWins(d: UserData, id: string, t1: string, t2: string)
    ensures UpdateNote(UpdateNote(d, id, t1), id, t2) == UpdateNote(d, id, t2)
  {
    assert UpdateNote(UpdateNote(d, id, t1), id, t2).notes == UpdateNote(d, id, t2).notes;
  }

  /** Last write wins for plans too. */
  lemma PlanLastWriteWins(d: UserData, id: string, t1: string, t2: string)
    ensures UpdatePlan(UpdatePlan(d, id, t1), id, t2) == UpdatePlan(d, id, t2)
  {
    assert UpdatePlan(UpdatePlan(d, id, t1), id, t2).customPlans == UpdatePlan(d, id, t2).customPlans;
  }

  /** Notes for different ids do not interfere: the order of the two edits is irrelevant. */
  lemma NotesCommute(d: UserData, i1: string, t1: string, i2: string, t2: string)
    requires i1 != i2
    ensures UpdateNote(UpdateNote(d, i1, t1), i2, t2) == UpdateNote(UpdateNote(d, i2, t2), i1, t1)
  {
    assert UpdateNote(UpdateNote(d, i1, t1), i2, t2).notes == UpdateNote(UpdateNote(d, i2, t2), i1, t1).notes;
  }

  // ---------------------------------------------------------------------------
  // The hook: current record plus the storage slot

  class Store {
    /** The record in memory (`data`). */
    var data: UserData
    /** The storage slot under the storage key; None when nothing was ever written. */
    var persisted: Option<UserData>

    /** The effect on `data` has written the whole record back. */
    ghost predicate Valid()
      reads this
    {
      persisted == Some(data)
    }

    /** Mount: read the slot (or start empty), then the effect writes the record back. */
    constructor (stored: Option<UserData>)
      ensures data == Load(stored)
      ensures Valid()
    {
      data := Load(stored);
      persisted := Some(Load(stored));
    }

    /** Every change replaces `data`, and the effect then writes it out in full. */
    method Commit(d: UserData)
      modifies this
      ensures data == d && Valid()
    {
      data := d;
      persisted := Some(d);
    }

    method SaveActive(ids: seq<string>)
      modifies this
      ensures data == SaveActiveWorkout(old(data), ids) && Valid()
    {
      Commit(SaveActiveWorkout(data, ids));
    }

    method ClearActive()
      modifies this
      ensures data == ClearActiveWorkout(old(data)) && Valid()
    {
      Commit(ClearActiveWorkout(data));
    }

    method ToggleFav(id: string)
      modifies this
      ensures data == WithFavoriteToggled(old(data), id) && Valid()
    {
      Commit(WithFavoriteToggled(data, id));
    }

    method SetNote(id: string, text: string)
      modifies this
      ensures data == UpdateNote(old(data), id, text) && Valid()
    {
      Commit(UpdateNote(data, id, text));
    }

    method SetPlan(id: string, text: string)
      modifies this
      ensures data == UpdatePlan(old(data), id, text) && Valid()
    {
      Commit(UpdatePlan(data, id, text));
    }
  }

  // ---------------------------------------------------------------------------
  // Home screen: resume prompt

  /** Where the home screen sends the user. */
  datatype Destination = StayHome | ActiveWorkoutView

  /**
   * The home screen's `showResumeModal` flag. The effect on `userData` only
   * ever raises it (when the active workout is non-empty); the two buttons
   * lower it.
   */
  class Home {
    var showResume: bool

    /** Mount: the flag starts lowered and the effect raises it for a session in progress. */
    constructor (d: UserData)
      ensures showResume == PromptsResume(d)
    {
      showResume := |d.activeWorkout| > 0;
    }

    /** The effect re-run after the record changed. */
    method Refresh(d: UserData)
      modifies this
      ensures showResume == (old(showResume) || PromptsResume(d))
    {
      if |d.activeWorkout| > 0 {
        showResume := true;
      }
    }

    /** "No": discard the session, lower the prompt; the effect re-runs on the cleared record. */
    method Decline(store: Store) returns (dest: Destination)
      requires store.Valid()
      modifies this, store
      ensures store.data == ClearActiveWorkout(old(store.data)) && store.Valid()
      ensures !showResume && dest == StayHome
    {
      store.ClearActive();
      showResume := false;
      Refresh(store.data);
      dest := StayHome;
    }

    /** "Yes": lower the prompt and go to the active workout, without touching the record. */
    method Accept() returns (dest: Destination)
      modifies this
      ensures !showResume && dest == ActiveWorkoutView
    {
      showResume := false;
      dest := ActiveWorkoutView;
    }
  }

  /** Whether mounting the home screen on `d` raises the prompt. */
  function PromptsResume(d: UserData): (b: bool)
    ensures b <==> d.activeWorkout != []
  {
    |d.activeWorkout| > 0
  }

  /** After "No" the record no longer raises the prompt, and nothing but the active workout changed. */
  lemma DeclineSilencesPrompt(d: UserData)
    ensures !PromptsResume(ClearActiveWorkout(d))
    ensures ClearActiveWorkout(d).favorites == d.favorites
  {
  }

  /** Mount after a store was loaded, "No", reload: the reloaded record has no session. */
  method ResumeThenReload(stored: Option<UserData>) returns (reloaded: UserData)
    ensures reloaded.activeWorkout == []
    ensures stored.Some? ==> reloaded.favorites == stored.value.favorites && reloaded.notes == stored.value.notes
  {
    var store := new Store(stored);
    var home := new Home(store.data);
    if home.showResume {
      var _ := home.Decline(store);
    }
    assert store.persisted.Some?;
    var again := new Store(store.persisted);
    reloaded := again.data;
  }

  /** `saveActiveWorkout(ids)` and a later start-up: the reloaded record has exactly `ids`, in order. */
  method SaveThenReload(stored: Option<UserData>, ids: seq<string>) returns (reloaded: UserData)
    ensures reloaded.activeWorkout == ids
    ensures reloaded.favorites == Load(stored).favorites && reloaded.notes == Load(stored).notes
    ensures reloaded.customPlans == Load(stored).customPlans
  {
    var store := new Store(stored);
    store.SaveActive(ids);
    var again := new Store(store.persisted);
    reloaded := again.data;
  }
}
