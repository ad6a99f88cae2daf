/** The habit store of the plain-script version of the app: the list of habit
    records kept under the `habits` key of the browser's local storage, with the
    form check that guards additions and the delete-by-id filter. */
module HabitStore {
  import opened Wrappers
  import opened Seqs

  /** A habit record. `id` is the creation timestamp, `time` the "HH:MM" string
      taken from the form, `days` the checked weekdays (0 = Sunday). */
  datatype Habit = Habit(id: int, name: string, time: string, days: seq<int>)

  /** The submit handler's check: an empty name, an empty time or no checked day
      rejects the submission (the user is alerted); otherwise the new record. */
  function MakeHabit(now: int, name: string, time: string, checkedDays: seq<int>): (r: Option<Habit>)
    ensures r.None? <==> name == [] || time == [] || checkedDays == []
    ensures r.Some? ==> r.value.id == now && r.value.name == name
                        && r.value.time == time && r.value.days == checkedDays
  {
    if name == [] || time == [] || |checkedDays| == 0 then None
    else Some(Habit(now, name, time, checkedDays))
  }

  /** The filter predicate of the delete handler: keep records whose id differs. */
  function HasOtherId(id: int): Habit -> bool
  {
    (h: Habit) => h.id != id
  }

  /** The list that remains after deleting every record with identifier `id`. */
  function RemoveById(habits: seq<Habit>, id: int): (r: seq<Habit>)
    ensures |r| <= |habits|
    ensures forall i :: 0 <= i < |r| ==> r[i].id != id
  {
    Filter(habits, HasOtherId(id))
  }

  /** Deleting keeps exactly the records with another id, each with all its copies,
      in their original order, and nothing with the deleted id. */
  lemma RemoveByIdSpec(habits: seq<Habit>, id: int)
    ensures forall h :: h in RemoveById(habits, id) <==> h in habits && h.id != id
    ensures forall h: Habit :: h.id != id ==> multiset(RemoveById(habits, id))[h] == multiset(habits)[h]
    ensures forall h: Habit :: h.id == id ==> multiset(RemoveById(habits, id))[h] == 0
    ensures IsSubsequence(RemoveById(habits, id), habits)
  {
    forall h ensures h in RemoveById(habits, id) <==> h in habits && h.id != id {
      FilterMembership(habits, HasOtherId(id), h);
    }
    forall h ensures multiset(RemoveById(habits, id))[h] == if h.id != id then multiset(habits)[h] else 0 {
      FilterMultiplicity(habits, HasOtherId(id), h);
    }
    FilterIsSubsequence(habits, HasOtherId(id));
  }

  /** Deleting an id that no record carries leaves the list as it was. */
  lemma RemoveAbsentId(habits: seq<Habit>, id: int)
    requires forall i :: 0 <= i < |habits| ==> habits[i].id != id
    ensures RemoveById(habits, id) == habits
  {
    FilterAllPass(habits, HasOtherId(id));
  }

  /** Deleting the same id twice is the same as deleting it once. */
  lemma RemoveByIdIdempotent(habits: seq<Habit>, id: int)
    ensures RemoveById(RemoveById(habits, id), id) == RemoveById(habits, id)
  {
    FilterIdempotent(habits, HasOtherId(id));
  }

  /** Appending a record and then deleting its id removes it again (together with
      any earlier record that shares the id, since ids are not checked for uniqueness). */
  lemma RemoveAfterSave(habits: seq<Habit>, h: Habit)
    ensures RemoveById(habits + [h], h.id) == RemoveById(habits, h.id)
  {
    FilterAppend(habits, [h], HasOtherId(h.id));
    assert Filter([h], HasOtherId(h.id)) == [];
  }

  /** The browser's local storage as far as this app uses it: the `habits` key. */
  class Store {
    /** What is stored under `habits`; `None` while the key has never been written. */
    var saved: Option<seq<Habit>>

    constructor ()
      ensures saved == None && GetHabits() == []
    {
      saved := None;
    }

    /** The stored list, or the empty list when nothing is stored. */
    function GetHabits(): (habits: seq<Habit>)
      reads this
      ensures saved.None? ==> habits == []
      ensures saved.Some? ==> habits == saved.value
    {
      saved.GetOr([])
    }

    /** Reads the list, appends the record and writes the whole list back. */
    method SaveHabit(habit: Habit)
      modifies this
      ensures saved == Some(old(GetHabits()) + [habit])
      ensures |GetHabits()| == |old(GetHabits())| + 1
      ensures GetHabits()[..|old(GetHabits())|] == old(GetHabits())
      ensures GetHabits()[|old(GetHabits())|] == habit
    {
      var habits := GetHabits();
      habits := habits + [habit];
      saved := Some(habits);
    }

    /** The form submit handler: validate, then save a record stamped with `now`.
        A rejected submission leaves the store untouched. */
    method AddHabit(now: int, name: string, time: string, checkedDays: seq<int>) returns (accepted: bool)
      modifies this
      ensures accepted <==> name != [] && time != [] && checkedDays != []
      ensures !accepted ==> saved == old(saved)
      ensures accepted ==> GetHabits() == old(GetHabits()) + [Habit(now, name, time, checkedDays)]
    {
      var habit := MakeHabit(now, name, time, checkedDays);
      if habit.None? {
        accepted := false;
        return;
      }
      SaveHabit(habit.value);
      accepted := true;
    }

    /** Rewrites the stored list without the records carrying `id`. */
    method DeleteHabit(id: int)
      modifies this
      ensures saved == Some(RemoveById(old(GetHabits()), id))
      ensures forall h :: h in GetHabits() <==> h in old(GetHabits()) && h.id != id
    {
      var habits := RemoveById(GetHabits(), id);
      RemoveByIdSpec(GetHabits(), id);
      saved := Some(habits);
    }
  }
}
