/**
 The day state of the habit screen as a sequential state machine. The screen
 holds a loading flag, the day's information as last fetched (possibly
 absent) and its own list of completed habit ids. Each remote call is
 modelled only by its outcome: `Ok` with the response value, or `Failed`.
 */
module HabitScreen {
  import opened HabitIds
  import opened Calendar

  datatype Option<T> = None | Some(value: T)

  /** The outcome of one awaited remote call. */
  datatype Remote<T> = Ok(value: T) | Failed

  datatype HabitRef = HabitRef(id: HabitId, title: string)

  /** The server's answer for one date. */
  datatype DayInfo = DayInfo(completedHabits: seq<HabitId>, possibleHabits: seq<HabitRef>)

  datatype Screen = Screen(loading: bool, dayInfo: Option<DayInfo>, completedHabits: seq<HabitId>)

  /** The state the screen is created with, before its first fetch completes. */
  const Mounted := Screen(true, None, [])

  /** The ids of the day's habits, one per habit, in display order. */
  function Ids(habits: seq<HabitRef>): (ids: seq<HabitId>)
    ensures |ids| == |habits|
    ensures forall x :: x in ids <==> exists h :: h in habits && h.id == x
  {
    if habits == [] then [] else [habits[0].id] + Ids(habits[1..])
  }

  /** What the server guarantees of a day: its habits have distinct ids, and
      the completed ids are distinct habits of that day. */
  predicate WellFormedDay(d: DayInfo) {
    && NoDuplicates(Ids(d.possibleHabits))
    && NoDuplicates(d.completedHabits)
    && forall x :: x in d.completedHabits ==> x in Ids(d.possibleHabits)
  }

  /** The screen's own completed list agrees with the day it shows. */
  predicate Consistent(s: Screen) {
    s.dayInfo.Some? ==> WellFormedDay(s.dayInfo.value.(completedHabits := s.completedHabits))
  }

  /** `fetchHabits`: the day is fetched once and the loading flag is lowered
      whatever the outcome. A failure only alerts, so the previous day and
      completed list survive it. The flag raised while the call is in flight
      is not observable in this sequential model. */
  function FetchHabits(s: Screen, response: Remote<DayInfo>): (r: Screen)
    ensures !r.loading
    ensures response.Ok? ==>
              r.dayInfo == Some(response.value) && r.completedHabits == response.value.completedHabits
    ensures response.Failed? ==> r.dayInfo == s.dayInfo && r.completedHabits == s.completedHabits
  {
    match response
    case Ok(day) => s.(dayInfo := Some(day), completedHabits := day.completedHabits, loading := false)
    case Failed => s.(loading := false)
  }

  /** `handleToggleHabit`: the toggle is sent first; only an acknowledged call
      flips the habit in the local list, and a failed one changes nothing. */
  function HandleToggleHabit(s: Screen, habitId: HabitId, ack: Remote<()>): (r: Screen)
    ensures ack.Failed? ==> r == s
    ensures r.loading == s.loading && r.dayInfo == s.dayInfo
    ensures ack.Ok? ==> forall x :: x in r.completedHabits <==>
                          (if x == habitId then x !in s.completedHabits else x in s.completedHabits)
    ensures ack.Ok? && habitId !in s.completedHabits ==>
              r.completedHabits == s.completedHabits + [habitId]
    ensures ack.Ok? && habitId in s.completedHabits ==>
              SubsequenceOf(r.completedHabits, s.completedHabits)
              && multiset(r.completedHabits) == multiset(s.completedHabits)[habitId := 0]
  {
    match ack
    case Ok(_) => s.(completedHabits := Toggle(s.completedHabits, habitId))
    case Failed => s
  }

  /** A checkbox is on screen once loading is over and the day is known, one
      per possible habit; it is disabled when the date is in the past. `now`
      is the instant of the screen's most recent render, when the lock is
      computed. */
  predicate CheckboxEnabled(s: Screen, date: int, now: int, habitId: HabitId)
    ensures CheckboxEnabled(s, date, now, habitId) ==> DayOf(now) <= date
    ensures CheckboxEnabled(s, date, now, habitId) ==>
              s.dayInfo.Some? && exists h :: h in s.dayInfo.value.possibleHabits && h.id == habitId
  {
    && !s.loading
    && s.dayInfo.Some?
    && habitId in Ids(s.dayInfo.value.possibleHabits)
    && !IsDateInPast(date, now)
  }

  /** A press on the checkbox of `habitId`, shown for `date` by a render at
      instant `now`. The lock is the one that render computed; a press made
      later, without a re-render in between, still sees it. A disabled
      checkbox is taken to ignore presses. */
  function OnPress(s: Screen, date: int, now: int, habitId: HabitId, ack: Remote<()>): (r: Screen)
    ensures IsDateInPast(date, now) ==> r == s
    ensures ack.Failed? ==> r == s
    ensures r.loading == s.loading && r.dayInfo == s.dayInfo
    ensures forall x :: x != habitId ==> (x in r.completedHabits <==> x in s.completedHabits)
    ensures CheckboxEnabled(s, date, now, habitId) ==> r == HandleToggleHabit(s, habitId, ack)
    ensures !CheckboxEnabled(s, date, now, habitId) ==> r == s
  {
    if CheckboxEnabled(s, date, now, habitId) then HandleToggleHabit(s, habitId, ack) else s
  }

  /** Every press keeps the screen consistent: an id is only ever appended when
      it is absent and is one of the day's habits. */
  lemma PressKeepsConsistent(s: Screen, date: int, now: int, habitId: HabitId, ack: Remote<()>)
    requires Consistent(s)
    ensures Consistent(OnPress(s, date, now, habitId, ack))
  {
    if CheckboxEnabled(s, date, now, habitId) && ack.Ok? {
      ToggleKeepsNoDuplicates(s.completedHabits, habitId);
    }
  }

  /** The progress bar value. The percentage helper is passed in: the screen
      calls it with the two list lengths only when a day with at least one
      habit is present, and shows 0 otherwise. */
  function HabitProgress(s: Screen, percent: (nat, nat) -> nat): (p: nat)
    ensures s.dayInfo.None? || |s.dayInfo.value.possibleHabits| == 0 ==> p == 0
    ensures s.dayInfo.Some? && |s.dayInfo.value.possibleHabits| > 0 ==>
              p == percent(|s.completedHabits|, |s.dayInfo.value.possibleHabits|)
  {
    match s.dayInfo
    case Some(day) => if |day.possibleHabits| > 0 then percent(|s.completedHabits|, |day.possibleHabits|) else 0
    case None => 0
  }

  /** A load from any state leaves a consistent screen when the server's answer
      is well formed, and a failed load keeps whatever consistency there was. */
  lemma FetchKeepsConsistent(s: Screen, response: Remote<DayInfo>)
    requires Consistent(s)
    requires response.Ok? ==> WellFormedDay(response.value)
    ensures Consistent(FetchHabits(s, response))
  {
  }

  /** A successful load forgets everything the screen held before. */
  lemma FetchSuccessForgetsPrior(s1: Screen, s2: Screen, day: DayInfo)
    ensures FetchHabits(s1, Ok(day)) == FetchHabits(s2, Ok(day))
  {
  }

  /** On a consistent screen the completed count never exceeds the number of
      possible habits, so a helper that keeps `k <= n` within 0..100 keeps the
      progress bar within 0..100. */
  lemma ProgressInRange(s: Screen, percent: (nat, nat) -> nat)
    requires Consistent(s)
    requires forall k: nat, n: nat :: 0 < n && k <= n ==> percent(k, n) <= 100
    ensures HabitProgress(s, percent) <= 100
  {
    if s.dayInfo.Some? && |s.dayInfo.value.possibleHabits| > 0 {
      CountBound(s.completedHabits, Ids(s.dayInfo.value.possibleHabits));
    }
  }

  /** A failed toggle leaves the progress bar where it was. */
  lemma FailedToggleKeepsProgress(s: Screen, habitId: HabitId, percent: (nat, nat) -> nat)
    ensures HabitProgress(HandleToggleHabit(s, habitId, Failed), percent) == HabitProgress(s, percent)
  {
  }

  /** The first load after mounting: on failure nothing is shown but the empty
      state, with progress 0 and no checkbox that can be pressed. */
  lemma FirstLoadFailure(date: int, now: int, habitId: HabitId, ack: Remote<()>, percent: (nat, nat) -> nat)
    ensures FetchHabits(Mounted, Failed) == Screen(false, None, [])
    ensures HabitProgress(FetchHabits(Mounted, Failed), percent) == 0
    ensures OnPress(FetchHabits(Mounted, Failed), date, now, habitId, ack) == FetchHabits(Mounted, Failed)
  {
  }

  /** Two habits "a" and "b" with "a" done: pressing "b" on today's date with
      an acknowledged call completes both. */
  lemma TwoHabitScenario(date: int, now: int, percent: (nat, nat) -> nat)
    requires date == DayOf(now)
    ensures var day := DayInfo(["a"], [HabitRef("a", "Drink water"), HabitRef("b", "Read")]);
            var loaded := FetchHabits(Mounted, Ok(day));
            var pressed := OnPress(loaded, date, now, "b", Ok(()));
            && HabitProgress(loaded, percent) == percent(1, 2)
            && pressed.completedHabits == ["a", "b"]
            && HabitProgress(pressed, percent) == percent(2, 2)
  {
  }
}
