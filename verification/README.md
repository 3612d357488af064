# Habit day state

A model of the day-state logic of the habit-tracking app's `Habit` screen
(`mobile/src/screens/Habit.tsx`). The screen shows one calendar date's
habits. It holds three pieces of state: a `loading` flag, `dayInfo` (the
habits possible that day, as last fetched, or nothing) and `completedHabits`
(the ids of the habits done that day). Stripped of React, it is a sequential
state machine over an immutable list of ids:

- **load** (`fetchHabits`): raises `loading` and fetches the day once. On
  success it replaces `dayInfo` and `completedHabits` with the response. On
  failure it keeps both as they were. Either way it lowers `loading`.
- **toggle** (`handleToggleHabit`): sends the toggle to the server first.
  Only once the call is acknowledged does it flip the habit locally. A present
  id is filtered out everywhere; an absent id is appended at the end. A failed
  call changes nothing.
- **progress**: 0 when there is no day or the day has no habits. Otherwise
  the percentage helper is applied to the two list lengths.
- **past-date lock**: a date whose end of day is strictly before "now" is in
  the past, where "now" is the instant of the screen's most recent render.
  Its checkboxes are then disabled, so pressing them does nothing (assuming
  a disabled checkbox ignores presses).

Files:

- `habit_ids.dfy` (module `HabitIds`): the id list, `Remove` (the `filter`),
  `Toggle`, and their properties.
- `calendar.dfy` (module `Calendar`): day numbers, end of day, and the lock
  predicate.
- `habit_screen.dfy` (module `HabitScreen`): the screen record, load, toggle,
  checkbox press and progress.

Each remote call is an input to the model: `Remote.Ok(value)` or
`Remote.Failed`. The percentage helper `generateProgressPercentage` lives in
a file that is not part of this model, so it is a function parameter
`percent`. A date is an integer day number in the device's local time. "Now"
is the instant of the screen's most recent render, as an integer count of
milliseconds on the same time line; day `d` ends at millisecond
`(d + 1) * 86400000 - 1` (23:59:59.999).

Three details of the code shape the model:

- Completed ids are a list whose length is counted. The code does not
  exclude duplicates; the model proves that toggling never introduces one.
- A failed load keeps the previous day and completed list.
- `handleToggleHabit` does not check the date itself. The lock comes only
  from the disabled checkbox. So `HandleToggleHabit` has no date
  precondition, and the lock is modelled by `OnPress`.

## Model

| member | source | states |
|---|---|---|
| HabitIds.Remove | mobile/src/screens/Habit.tsx:58 | every occurrence of the id is gone and every other id keeps its number of occurrences (multiset); membership is "in the old list and not the id" |
| HabitIds.RemoveIsSubsequence | mobile/src/screens/Habit.tsx:58 | the filtered list is a subsequence of the original: the surviving ids keep their original relative order |
| HabitIds.RemoveAppend | mobile/src/screens/Habit.tsx:58 | filtering distributes over concatenation |
| HabitIds.RemoveAbsent | mobile/src/screens/Habit.tsx:58 | filtering out an id that does not occur returns the list unchanged |
| HabitIds.RemoveKeepsNoDuplicates | mobile/src/screens/Habit.tsx:58 | filtering a duplicate-free list yields a duplicate-free list |
| HabitIds.Toggle | mobile/src/screens/Habit.tsx:57-61 | membership of exactly the given id flips and every other id's membership is unchanged; a present id is removed in order (subsequence, multiset with its count zeroed); an absent id is appended, the old list being an unchanged prefix |
| HabitIds.ToggleKeepsNoDuplicates | mobile/src/screens/Habit.tsx:57-60 | toggling keeps a duplicate-free list duplicate-free, since an id is appended only when absent |
| HabitIds.ToggleTwiceFromAbsent | mobile/src/screens/Habit.tsx:57-61 | two toggles of an initially absent id restore exactly the original list |
| HabitIds.ToggleTwiceSameMembers | mobile/src/screens/Habit.tsx:57-61 | two toggles of any id restore the original membership (the order may change when the id was present) |
| HabitIds.CountBound | mobile/src/screens/Habit.tsx:37-38 | a duplicate-free list of ids drawn from another list is no longer than it (so the completed count never exceeds the possible count) |
| Calendar.EndOfDay | mobile/src/screens/Habit.tsx:34 | the end of day is the last instant of that day: it lies in the day, and the next instant lies in the next day |
| Calendar.IsDateInPast | mobile/src/screens/Habit.tsx:34 | a date is in the past (its end of day strictly before now) exactly when it is a day strictly before the day of now; today and future dates are never locked |
| Calendar.LockIsMonotonic | mobile/src/screens/Habit.tsx:34 | once a date is locked it stays locked as time passes, and every earlier date is locked too |
| HabitScreen.FetchHabits | mobile/src/screens/Habit.tsx:40-52 | afterwards loading is false; success installs the response's day and its completed list; failure keeps the previous day and completed list |
| HabitScreen.FetchSuccessForgetsPrior | mobile/src/screens/Habit.tsx:43-45 | the state after a successful load does not depend on the state before it |
| HabitScreen.FetchKeepsConsistent | mobile/src/screens/Habit.tsx:40-52 | a load keeps the screen consistent when the server's day is well formed, and a failed load keeps whatever consistency there was |
| HabitScreen.HandleToggleHabit | mobile/src/screens/Habit.tsx:54-66 | a failed call leaves the whole state equal to its pre-call value; an acknowledged call flips membership of exactly that id, appends an absent id at the end, removes a present id keeping the others' order, and never touches loading or the day |
| HabitScreen.Ids | mobile/src/screens/Habit.tsx:90-92 | one id per possible habit, and an id is listed exactly when some habit of the day carries it |
| HabitScreen.CheckboxEnabled | mobile/src/screens/Habit.tsx:72-95 | a checkbox can be pressed only once loading is over, for a habit of the day, on a date that is today or later |
| HabitScreen.OnPress | mobile/src/screens/Habit.tsx:90-96 | a press on an enabled checkbox runs the toggle; a press on a date already past at the most recent render, on a checkbox that is not shown, or with a failed call leaves the state unchanged; no press changes loading, the day or the membership of any other id |
| HabitScreen.PressKeepsConsistent | mobile/src/screens/Habit.tsx:57-60 | every press keeps the completed list duplicate-free and within the day's habit ids |
| HabitScreen.HabitProgress | mobile/src/screens/Habit.tsx:37-38 | progress is 0 without a day or with no possible habits; otherwise it is the helper applied to the completed count and the possible count |
| HabitScreen.ProgressInRange | mobile/src/screens/Habit.tsx:37-38 | on a consistent screen, a helper that stays within 0..100 whenever the completed count is at most the possible count keeps the progress within 0..100 |
| HabitScreen.FailedToggleKeepsProgress | mobile/src/screens/Habit.tsx:54-66 | a failed toggle leaves the progress value unchanged |
| HabitScreen.FirstLoadFailure | mobile/src/screens/Habit.tsx:27-52 | when the first load fails, the screen has no day and no completed ids, progress is 0, and no press has any effect |
| HabitScreen.TwoHabitScenario | mobile/src/screens/Habit.tsx:37-61 | for habits "a" and "b" with "a" completed, progress is the helper at (1, 2); pressing "b" today with an acknowledged call gives ["a", "b"] and progress at (2, 2) |

## Left out

- Rendering: the JSX, layout, `clsx` styling, and the `Loading`, `HabitEmpty`, `Checkbox`, `ProgressBar` and `BackButton` components (lines 72-106) are UI. Only the conditions under which a checkbox can be pressed are kept, in `CheckboxEnabled`.
- `dayjs` parsing of the route's date string and the weekday and day/month formatting (lines 33, 35-36) are library calls. Dates are day numbers instead. Time zones and daylight-saving days of other lengths are not modelled.
- The `api.get` and `api.patch` calls, `Alert.alert` and `console.log` are I/O. Each remote call is modelled only as its outcome and response value. The alerts and logs have no effect on state.
- HabitScreen.OnPress: the lock is the one computed at the most recent render. It is not re-evaluated as time passes without a re-render, so a screen rendered for today at 23:59 still toggles on a press at 00:01. The model also assumes the `Checkbox` component, which is not part of this model, ignores presses when `disabled`.
- HabitScreen.HabitProgress: the body of `generateProgressPercentage` is in a file that is not part of this model. It is a parameter, so the model does not state its rounding or the 0..100 range of its result. Typing it as `(nat, nat) -> nat` assumes it returns a non-negative whole number.
- The stale-closure race between overlapping toggles (line 57 reads the render-time list while lines 58 and 60 use the latest one) is UI event-loop concurrency. In a sequential model the two lists coincide.
- A response that arrives after the screen has been left, and overlapping loads, are concurrency and are not modelled.
- The shape of the server's JSON is trusted. A malformed response is not modelled.
- `server/src/server.ts` is Fastify and CORS bootstrap plus a `parseInt` of the port variable, with no day-state logic.
