/** The component version of the app: the habit list held as component state,
    its initial value read from local storage, and the two updates the page makes
    to it, adding a habit and toggling a habit's completion. Each update builds a
    new list from the previous one. */
module Tracker {
  import opened Wrappers

  /** A habit record of the component version; `id` is a generated UUID string. */
  datatype Habit = Habit(id: string, name: string, description: string, reminderTime: string,
                         completed: bool, streak: int)

  /** The initial state: the saved list, or the empty list when nothing is saved. */
  function InitialHabits(saved: Option<seq<Habit>>): (habits: seq<Habit>)
    ensures saved.None? ==> habits == []
    ensures saved.Some? ==> habits == saved.value
  {
    saved.GetOr([])
  }

  /** The new list after the form is submitted: the previous records followed by
      a fresh, not yet completed record with no streak. */
  function AddHabit(prev: seq<Habit>, id: string, name: string, description: string,
                    reminderTime: string): (habits: seq<Habit>)
    ensures |habits| == |prev| + 1
    ensures habits[..|prev|] == prev
    ensures var h := habits[|prev|];
            h.id == id && h.name == name && h.description == description
            && h.reminderTime == reminderTime && !h.completed && h.streak == 0
  {
    prev + [Habit(id, name, description, reminderTime, false, 0)]
  }

  /** One record under a toggle of `id`: only a record with that id changes, only
      in its completion and streak, and its streak grows exactly when it becomes
      completed. */
  function ToggleOne(h: Habit, id: string): (r: Habit)
    ensures h.id != id ==> r == h
    ensures r.id == h.id && r.name == h.name && r.description == h.description
            && r.reminderTime == h.reminderTime
    ensures r.completed != h.completed <==> h.id == id
    ensures h.streak <= r.streak <= h.streak + 1
    ensures r.streak == h.streak + 1 <==> h.id == id && r.completed
  {
    if h.id == id then
      h.(completed := !h.completed, streak := if !h.completed then h.streak + 1 else h.streak)
    else h
  }

  /** The new list after toggling `id`: the same records in the same order, where
      each record with that id has its completion flipped and its streak raised
      by one exactly when it goes from not completed to completed. */
  function ToggleHabit(prev: seq<Habit>, id: string): (habits: seq<Habit>)
    ensures |habits| == |prev|
    ensures forall i :: 0 <= i < |prev| && prev[i].id != id ==> habits[i] == prev[i]
    ensures forall i :: 0 <= i < |prev| && prev[i].id == id ==>
              && habits[i].completed == !prev[i].completed
              && habits[i].streak == (if prev[i].completed then prev[i].streak else prev[i].streak + 1)
              && habits[i].id == prev[i].id && habits[i].name == prev[i].name
              && habits[i].description == prev[i].description
              && habits[i].reminderTime == prev[i].reminderTime
  {
    if prev == [] then [] else [ToggleOne(prev[0], id)] + ToggleHabit(prev[1..], id)
  }

  /** A toggle never lowers a streak, and raises it by at most one. */
  lemma StreakNeverDecreases(prev: seq<Habit>, id: string)
    ensures forall i :: 0 <= i < |prev| ==>
              prev[i].streak <= ToggleHabit(prev, id)[i].streak <= prev[i].streak + 1
  {
  }

  /** Toggling an id that no record carries returns an equal list. */
  lemma ToggleAbsentId(prev: seq<Habit>, id: string)
    requires forall i :: 0 <= i < |prev| ==> prev[i].id != id
    ensures ToggleHabit(prev, id) == prev
  {
  }

  /** Toggling twice restores every completion flag, and every record with that
      id ends with exactly one more streak point: one of the two toggles went from
      not completed to completed. */
  lemma ToggleTwice(prev: seq<Habit>, id: string)
    ensures var twice := ToggleHabit(ToggleHabit(prev, id), id);
            && |twice| == |prev|
            && (forall i :: 0 <= i < |prev| ==> twice[i].completed == prev[i].completed)
            && (forall i :: 0 <= i < |prev| && prev[i].id == id ==> twice[i].streak == prev[i].streak + 1)
            && (forall i :: 0 <= i < |prev| && prev[i].id != id ==> twice[i] == prev[i])
  {
  }

  /** Completing a freshly added habit whose id is new to the list marks it done with
      a streak of one and leaves every earlier record untouched. */
  lemma CompleteNewHabit(prev: seq<Habit>, id: string, name: string, description: string,
                         reminderTime: string)
    requires forall i :: 0 <= i < |prev| ==> prev[i].id != id
    ensures ToggleHabit(AddHabit(prev, id, name, description, reminderTime), id)
         == prev + [Habit(id, name, description, reminderTime, true, 1)]
  {
  }
}
