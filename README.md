# Knee-rehabilitation workout guide: the session engine in Dafny

This project models the workout session engine of a small React app (App.tsx and
components.tsx) that guides a user through knee-rehabilitation exercises. The
model covers:

- **Session store** (`useUserData`). One `UserData` record holds `favorites`,
  `notes`, `customPlans` and `activeWorkout`. It is loaded once at start-up,
  or built empty when nothing is stored. Five updaters each build a new copy,
  and the whole record is written back to the storage slot after every change.
  Updaters and loading are functions in module `Session`. The hook is the
  class `Session.Store`: its `data` field is the record in memory and its
  `persisted` field is the storage slot.
- **Resume prompt** of the home screen (`Session.Home`). The prompt is raised
  when a session is in progress. "No" clears the session; "Yes" goes to it.
- **Workout selector** (module `Selection`). It covers:
  - the count stepper, clamped to [1, 10];
  - the case-insensitive name search;
  - the capped toggle `handleToggle`;
  - the "Start" button, enabled only when the selection is full, which commits
    the selection to the store;
  - resolving exercise ids against the catalog for the two workout screens.
    Unknown ids are dropped.

  Ready-made workouts are resolved from their own catalog. They never touch
  the store: `Selection.ReadyExercises` has no access to it.
- **Stopwatch** (module `Stopwatch`). `Stopwatch.Step` defines its state
  machine, one event at a time: click, press, release, the 800 ms reset
  firing, and the 10 ms tick. The class `Stopwatch.Timer` has one method per
  handler. `formatTime` is in module `TimeFormat`, with a parser that reads
  the display back.
- **Set card** (module `SetTracker`). It has a done flag and a free-text load.
  A click inside the load area is stopped before it reaches the card.
- **Video embed address** (module `Video`). A missing or empty address shows a
  placeholder. Otherwise everything from the first `/watch`, and then from the
  first `/edit`, becomes `/view?embed`. Taken together, the address is cut at
  its first marker of either kind.

Where the code and its design description differ, the model follows the code:

- **Unreadable stored record.** The record is read with `JSON.parse` and no
  fallback (App.tsx:43). The model takes the stored record as an already
  decoded `Option<UserData>`. An unreadable record is not modelled, and the
  model does not claim a fallback to the empty record.
- **Favourites are an ordered list.** The toggle appends a missing id at the
  end and removes every occurrence of a present one (App.tsx:52). So the list
  has an order: toggling a present id off and on again moves it to the end.
  The toggle never creates a duplicate; only a record written outside the app
  can hold one, and a toggle then removes every copy.
- **With a mouse, a long press restarts the stopwatch.** The reset fires
  while the button is held, so the stopwatch is reset to 0 and stopped. After
  a long mouse press the browser still sends the click that follows the
  release (components.tsx:78-80), and that click starts the stopwatch again
  from 0 (`Stopwatch.LongPress`). A long touch (components.tsx:81-82) is
  generally not followed by a click, so there the stopwatch stays at 0,
  stopped: the first half of `Stopwatch.LongPress`.
- **A press does not cancel the previous reset.** Each press overwrites the
  stored timeout handle without clearing the old timeout (components.tsx:49).
  A release then cancels only the latest reset
  (`Stopwatch.DoublePressLeaksFirstReset`).
- **The two embed rewrites run in sequence** (components.tsx:154). The `/edit`
  rewrite runs on the result of the `/watch` rewrite. An address with `/edit`
  before `/watch` is therefore cut at the `/edit`.

## Model

| member | source | states |
|---|---|---|
| `Util.RemoveAll` | App.tsx:52 | `filter(v => v !== x)`: x is gone, every other element is kept and nothing is added, never longer; shorter when x was present |
| `Util.IndexOf` | components.tsx:154 | the first occurrence of a pattern: it occurs there and nowhere before; None iff it occurs nowhere |
| `Util.Contains` | App.tsx:291 | `includes`: true iff the pattern occurs at some position |
| `Session.Load` | App.tsx:41-43 | no stored record gives the all-empty record; a stored one is used as it is |
| `Session.SaveActiveWorkout` | App.tsx:50 | the active workout becomes exactly `ids`, in order; favourites, notes and plans unchanged |
| `Session.ClearActiveWorkout` | App.tsx:51 | the active workout becomes empty; the other three fields unchanged |
| `Session.ToggleFavorite` | App.tsx:52 | id is present afterwards iff it was absent; absent: appended at the end; a duplicate-free list stays duplicate-free |
| `Session.ToggleKeepsOthers` | App.tsx:52 | every other id keeps its number of occurrences, and id occurs at most once afterwards |
| `Session.WithFavoriteToggled` | App.tsx:52 | the record's favourites are toggled and notes, plans and active workout are unchanged |
| `Session.UpdateNote` | App.tsx:53 | the note of id becomes text, the key set gains only id, every other note and every other field unchanged |
| `Session.UpdatePlan` | App.tsx:54 | the plan id becomes text, the key set gains only id, every other plan and every other field unchanged |
| `Session.ToggleParity` | App.tsx:52 | after k toggles id is present iff (present before) xor (k odd) |
| `Session.AbsentToggledOddTimes` | App.tsx:52 | from an absent id, present after k toggles iff k is odd |
| `Session.ToggleTwiceRestores` | App.tsx:52 | two toggles of an absent id give back exactly the same list |
| `Session.ToggleTwiceMovesToEnd` | App.tsx:52 | toggling a present id twice turns `a + [id] + b` into `a + b + [id]`: the order of the list matters |
| `Session.ToggleRemovesInOrder` | App.tsx:52 | removing a present id removes it from each part, so the remaining ids keep their relative order |
| `Session.NoteLastWriteWins` | App.tsx:53 | a second note for the same id replaces the first (last write wins) |
| `Session.PlanLastWriteWins` | App.tsx:54 | a second plan text for the same id replaces the first |
| `Session.NotesCommute` | App.tsx:53 | notes for two different ids do not interfere: either order gives the same record |
| `Session.Store.constructor` | App.tsx:41-48 | the in-memory record is the loaded one (empty if nothing stored) and the slot holds it |
| `Session.Store.Commit` | App.tsx:46-48 | after a change the slot holds exactly the new record |
| `Session.Store.SaveActive` | App.tsx:50 | record becomes `SaveActiveWorkout(old record, ids)` and is persisted in full |
| `Session.Store.ClearActive` | App.tsx:51 | record becomes `ClearActiveWorkout(old record)` and is persisted in full |
| `Session.Store.ToggleFav` | App.tsx:52 | record becomes `WithFavoriteToggled(old record, id)` and is persisted in full |
| `Session.Store.SetNote` | App.tsx:53 | record becomes `UpdateNote(old record, id, text)` and is persisted in full |
| `Session.Store.SetPlan` | App.tsx:54 | record becomes `UpdatePlan(old record, id, text)` and is persisted in full |
| `Session.SaveThenReload` | App.tsx:41-50 | save the active workout, restart from the slot: the reloaded active workout is exactly `ids` and the other fields are the loaded ones |
| `Session.PromptsResume` | App.tsx:65 | the home screen raises the prompt iff the active workout is non-empty |
| `Session.Home.constructor` | App.tsx:62-66 | on mount the flag is exactly `PromptsResume(d)`: shown iff a session is in progress |
| `Session.Home.Refresh` | App.tsx:64-66 | the effect only ever raises the prompt, and raises it iff `PromptsResume` holds for the record |
| `Session.Home.Decline` | App.tsx:88 | "No" clears the active workout (persisted), lowers the prompt, and the prompt stays lowered after the effect re-runs |
| `Session.Home.Accept` | App.tsx:89 | "Yes" lowers the prompt and goes to the active workout without changing the record |
| `Session.DeclineSilencesPrompt` | App.tsx:88 | a cleared record raises no prompt and keeps its favourites |
| `Session.ResumeThenReload` | App.tsx:59-89 | load, mount home, answer "No", reload: no session left, favourites and notes kept |
| `Selection.StepDown` | App.tsx:273 | "-" gives count - 1 but never below 1 |
| `Selection.StepUp` | App.tsx:275 | "+" gives count + 1 but never above 10 |
| `Selection.StepDownTimesClamps` | App.tsx:273 | k presses of "-" from a count in [1,10] give max(1, count - k) |
| `Selection.StepUpTimesClamps` | App.tsx:275 | k presses of "+" from a count in [1,10] give min(10, count + k) |
| `Selection.SetupScreen.constructor` | App.tsx:266 | the stepper starts at 4, inside [1,10] |
| `Selection.SetupScreen.Decrement` | App.tsx:273 | count becomes `StepDown(count)` and stays in [1,10] |
| `Selection.SetupScreen.Increment` | App.tsx:275 | count becomes `StepUp(count)` and stays in [1,10] |
| `Selection.Search` | App.tsx:291 | exactly the catalog entries whose lower-cased name contains the lower-cased query: every result matches and every match is a result |
| `Selection.SearchAppend` | App.tsx:291 | search results keep catalog order |
| `Selection.SearchEmptyQuery` | App.tsx:291 | an empty query keeps the whole catalog |
| `Selection.ToggleSelection` | App.tsx:293-296 | a selected id is removed (others kept); a new id is appended only while fewer than count are selected, else nothing changes; duplicate-freedom and length at most count are kept |
| `Selection.ToggleAllKeepsBounds` | App.tsx:293-296 | after any series of taps the selection is duplicate-free and has at most count ids |
| `Selection.DeselectKeepsOrder` | App.tsx:294 | deselecting an id leaves the rest in their order |
| `Selection.CappedSelectionExample` | App.tsx:293-296 | count 3: tapping a,b,c,d gives [a,b,c]; then -b,+d gives [a,c,d] |
| `Selection.StartEnabled` | App.tsx:318 | with at most count selected, "Start" is enabled iff exactly count are selected |
| `Selection.SelectionScreen.constructor` | App.tsx:287-289 | count from the route, nothing selected, empty query |
| `Selection.SelectionScreen.SetQuery` | App.tsx:304 | the query is replaced, the selection kept |
| `Selection.SelectionScreen.Toggle` | App.tsx:293-296 | selection becomes `ToggleSelection(old, id, count)` and stays duplicate-free and within count |
| `Selection.SelectionScreen.Start` | App.tsx:318 | enabled iff the selection is full; then the store's active workout becomes the selection unchanged, otherwise the store is untouched |
| `Selection.Find` | App.tsx:196 | `EXERCISES.find`: None iff no entry has the id; otherwise the first entry with that id |
| `Selection.Resolve` | App.tsx:328 | never longer than the input; only catalog entries whose id was asked for; when every id is known, the i-th entry is the first catalog entry with the i-th id |
| `Selection.ResolveOne` | App.tsx:328 | one id resolves to the first catalog entry with it, or to nothing when the catalog lacks it; with `ResolveAppend` this fixes every output |
| `Selection.ResolveAppend` | App.tsx:328 | the output follows the order of the input ids |
| `Selection.ResolveDropsUnknown` | App.tsx:328 | an unknown id is silently dropped |
| `Selection.ResolveExample` | App.tsx:196 | ["valid1","ghost","valid2"] against a catalog with only the two valid ones gives both, in that order |
| `Selection.ActiveExercises` | App.tsx:328 | the active screen lists no more entries than stored ids, each from the catalog with a stored id; when every stored id is known, the i-th entry is the first catalog entry with the i-th stored id |
| `Selection.FindWorkout` | App.tsx:191 | `find`: None iff no programme has the id; otherwise the first programme with that id |
| `Selection.ReadyExercises` | App.tsx:190-196 | "Workout not found" iff no programme has the id; otherwise the exercises of the first programme with that id, resolved; no store involved |
| `Selection.StartThenShow` | App.tsx:318-328 | committing a full selection of known ids makes the active screen show exactly those exercises in selection order |
| `Stopwatch.Step` | components.tsx:46-66 | click flips running and keeps time; press schedules a fresh reset and overwrites the stored handle; release cancels only the stored one; a pending reset zeroes and stops; a cleared one does nothing; tick adds 10 only while running; only a press changes the stored handle or hands out a new one; clicks and ticks neither schedule nor cancel a reset |
| `Stopwatch.RunKeepsTimeMultipleOfTick` | components.tsx:41-66 | from 0 (or any multiple of 10) the time stays a multiple of 10 |
| `Stopwatch.RunKeepsWellFormed` | components.tsx:43-56 | handles stay positive and earlier than the next one, so the release guard always sees the stored handle |
| `Stopwatch.RunWithoutResetIsMonotone` | components.tsx:59-66 | without a reset firing the time never decreases |
| `Stopwatch.RunTicks` | components.tsx:59-66 | k ticks add exactly 10k while running and nothing while stopped |
| `Stopwatch.QuickTap` | components.tsx:46-82 | press, release, click: running flag flipped, time kept, the scheduled reset cancelled |
| `Stopwatch.ReleaseCancelsReset` | components.tsx:55-57 | a reset firing straight after the release has no effect |
| `Stopwatch.StaysCancelled` | components.tsx:46-57 | a reset no longer pending stays so under every later series of events |
| `Stopwatch.ReleasedNeverFires` | components.tsx:46-57 | after press and release, the press's reset has no effect whatever events (click, ticks, presses) come before it would fire |
| `Stopwatch.LongPress` | components.tsx:48-82 | the reset fires during the hold: time 0 and stopped, where a long touch ends; the click that follows a mouse release starts it again from 0 |
| `Stopwatch.DoublePressLeaksFirstReset` | components.tsx:48-56 | a second press overwrites the handle, the release cancels only the second reset, the first still zeroes and stops |
| `Stopwatch.Example1230` | components.tsx:41-86 | tap, 123 ticks, tap: 1230 ms, stopped, shown as 00:01.23 |
| `Stopwatch.Timer.constructor` | components.tsx:41-44 | time 0, stopped, no handle, nothing scheduled |
| `Stopwatch.Timer.ToggleTimer` | components.tsx:46 | state becomes `Step(old, Click)` |
| `Stopwatch.Timer.HandleStartReset` | components.tsx:48-53 | state becomes `Step(old, Press)`; the returned handle is the new pending one |
| `Stopwatch.Timer.HandleEndReset` | components.tsx:55-57 | state becomes `Step(old, Release)` |
| `Stopwatch.Timer.FireReset` | components.tsx:49-52 | state becomes `Step(old, ResetFires(handle))` |
| `Stopwatch.Timer.Tick` | components.tsx:59-66 | state becomes `Step(old, Tick)` |
| `TimeFormat.Digits` | components.tsx:69 | `toString` of a natural: non-empty, only digits, no leading zero except for 0 itself, one digit iff below 10, two for 10..99 |
| `TimeFormat.DigitsRoundTrip` | components.tsx:69 | reading the digits back gives the number |
| `TimeFormat.PadStart2` | components.tsx:69-71 | `padStart(2, '0')`: length max(2, len), ends with the input, only zeros in front |
| `TimeFormat.Field` | components.tsx:69-71 | one padded field of the display: at least two characters, exactly two below 100 |
| `TimeFormat.PaddedDigits` | components.tsx:69-71 | a padded field is digits only and reads back as its number |
| `TimeFormat.Minutes` | components.tsx:69 | the whole minutes elapsed: minutes·60000 ≤ ms < (minutes + 1)·60000 |
| `TimeFormat.Seconds` | components.tsx:70 | the seconds field is below 60 |
| `TimeFormat.Centiseconds` | components.tsx:71 | the centiseconds field is below 100 |
| `TimeFormat.FieldsRecompose` | components.tsx:69-71 | minutes·60000 + seconds·1000 + centiseconds·10 = ms rounded down to 10 |
| `TimeFormat.FieldsExact` | components.tsx:69-71 | for a multiple of 10 the three fields give back ms exactly |
| `TimeFormat.Join` | components.tsx:72 | the template: minutes, ':', seconds, '.', centiseconds, in that order and nothing else |
| `TimeFormat.FormatTime` | components.tsx:68-73 | at least 8 characters, exactly 8 below 100 minutes; ':' and '.' at the MM:SS.CC positions from the end |
| `TimeFormat.FormatTimeRoundTrip` | components.tsx:68-73 | parsing the display back gives ms rounded down to 10 |
| `TimeFormat.FormatTimeInjectiveOnTicks` | components.tsx:68-73 | two different multiples of 10 are displayed differently |
| `TimeFormat.DisplayOf1230` | components.tsx:68-73 | 1230 ms is shown as 00:01.23 |
| `SetTracker.Apply` | components.tsx:106-124 | a click on the card flips done, a click in the load wrapper does nothing, no click changes the load; typing sets the load and never changes done |
| `SetTracker.DoneParity` | components.tsx:106 | done iff an odd number of clicks reached the card |
| `SetTracker.LoadIsLastTyped` | components.tsx:124 | the load is the last text typed |
| `SetTracker.LoadAreaKeepsDone` | components.tsx:118-124 | anything done in the load area leaves done unchanged |
| `SetTracker.SetCard.constructor` | components.tsx:101-102 | a new card is not done and has an empty load |
| `SetTracker.SetCard.Click` | components.tsx:105-118 | state becomes `Apply(old, ClickOn(target))` |
| `SetTracker.SetCard.Type` | components.tsx:124 | state becomes `Apply(old, TypeLoad(text))` |
| `Video.EmbedUrl` | components.tsx:154 | address without a marker: unchanged; otherwise the text before its first `/watch` or `/edit` (whichever comes first) followed by `/view?embed` |
| `Video.ReplaceFromFirst` | components.tsx:154 | no match: unchanged; else the text before the first match followed by the replacement |
| `Video.PlayerFor` | components.tsx:152-154 | placeholder iff the address is missing or empty; otherwise the rewritten address |
| `Video.EmbedPlainUrl` | components.tsx:154 | an address with neither `/watch` nor `/edit` is used unchanged |
| `Video.EmbedWatchUrl` | components.tsx:154 | with a first `/watch` at i and no `/edit` before it: the text up to i followed by `/view?embed` |
| `Video.EmbedEndsWithSuffix` | components.tsx:154 | an address with either marker ends in `/view?embed` after rewriting |
| `Video.EmbedHasNoMarker` | components.tsx:154 | the rewritten address contains neither `/watch` nor `/edit` |
| `Video.EmbedIdempotent` | components.tsx:154 | rewriting a rewritten address changes nothing |

## Left out

- Rendering is not modelled. That covers JSX, styling classes, `Button`, `Header`, `ScreenWrapper`, `getIcon`, the styling configuration, and the accordion state (`openId`) of the two workout screens.
- `localStorage` and JSON are not modelled. The storage slot is the field `Session.Store.persisted`, holding an already decoded record. An unreadable record makes `JSON.parse` throw in the source, so the model neither handles nor claims a fallback for it.
- Routing is not modelled (`navigate`, the path-segment `parseInt`, which can give NaN). The selection count is a constructor parameter in [1, 10]. The workout id is a parameter. Navigation targets appear only as `Session.Destination`.
- The language context and translations are not modelled. The exercise, programme and translation constants live in files that are not part of this model. The catalogs are parameters, and an exercise's `name` is its name in the current language.
- `toLowerCase` is a parameter `lower: string -> string`. Unicode case mapping is not modelled.
- Real time is not modelled (`setInterval`, `setTimeout`, the 800 ms delay, effect clean-up on unmount). Ticks and reset firings are discrete events. A tick while stopped changes nothing, because no interval is registered then.
- Touch and mouse events are one event kind each (press, release). Whether a click follows a release is up to the browser: it does after a mouse release, and generally not after a long touch. The model has no such rule; the `Click` event is sent only where it happens.
- The iframe, video playback and the "tap to watch" flag of `VideoPlayer` are not modelled. Regular-expression line terminators are ignored: addresses are assumed to hold no line breaks.
- The number of set cards a ready-made workout renders (`workout.sets`) is not modelled. Set-card state is never persisted, as in the source.
- Selection.SearchEmptyQuery: needs `lower(query) == ""`, because `lower` is abstract. The source's `"".toLowerCase()` is always `""`.
