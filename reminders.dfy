/** The reminder check that runs once at start-up and then every minute: format
    the current time as "HH:MM" and send one notification for every stored habit
    scheduled on the current weekday at exactly that minute. The clock and the
    notification platform are parameters; the notifications sent are the result. */
module Reminders {
  import opened Wrappers
  import opened Seqs
  import opened HabitStore

  /** The platform's notification permission state. */
  datatype Permission = Default | Granted | Denied

  /** What the script can observe about notifications: whether the platform has
      them at all and, if so, the current permission. */
  datatype Platform = Platform(notificationSupported: bool, permission: Permission)

  /** The fields read from the current date: weekday (0 = Sunday), hours, minutes. */
  datatype Clock = Clock(day: int, hour: int, minute: int) {
    predicate Valid()
    {
      0 <= day < 7 && 0 <= hour < 24 && 0 <= minute < 60
    }
  }

  /** A notification as handed to the dispatcher: title and body. */
  datatype Notice = Notice(title: string, body: string)

  function DigitChar(d: nat): (c: char)
    requires d < 10
    ensures '0' <= c <= '9'
  {
    ('0' as int + d) as char
  }

  /** `Number.prototype.toString()` of a natural number: its decimal digits. */
  function DecimalString(n: nat): (s: string)
    ensures |s| >= 1
    ensures n < 10 ==> s == [DigitChar(n)]
    decreases n
  {
    if n < 10 then [DigitChar(n)] else DecimalString(n / 10) + [DigitChar(n % 10)]
  }

  /** `n` copies of `c`. */
  function Repeat(c: char, n: nat): (r: string)
    ensures |r| == n
  {
    if n == 0 then [] else [c] + Repeat(c, n - 1)
  }

  /** Every character of `Repeat(c, n)` is `c`. */
  lemma {:induction false} RepeatChars(c: char, n: nat)
    ensures forall i :: 0 <= i < n ==> Repeat(c, n)[i] == c
  {
    if n > 0 {
      RepeatChars(c, n - 1);
    }
  }

  /** `String.prototype.padStart(width, c)` with a one-character pad. */
  function PadStart(s: string, width: nat, c: char): (r: string)
    ensures |r| == if |s| >= width then |s| else width
    ensures r[|r| - |s|..] == s
    ensures r[..|r| - |s|] == Repeat(c, |r| - |s|)
  {
    if |s| >= width then s else Repeat(c, width - |s|) + s
  }

  /** One clock field as the reminder check writes it. Below one hundred, it is
      the tens digit followed by the units digit. */
  function TwoDigits(n: nat): (r: string)
    ensures n < 100 ==> r == [DigitChar(n / 10), DigitChar(n % 10)]
  {
    PadStart(DecimalString(n), 2, '0')
  }

  /** The current time as the string compared against each habit's time. */
  function FormatTime(hour: nat, minute: nat): (r: string)
    requires hour < 24 && minute < 60
    ensures r == [DigitChar(hour / 10), DigitChar(hour % 10), ':', DigitChar(minute / 10), DigitChar(minute % 10)]
  {
    TwoDigits(hour) + ":" + TwoDigits(minute)
  }

  function DigitValue(c: char): int
  {
    c as int - '0' as int
  }

  predicate IsDigit(c: char)
  {
    '0' <= c <= '9'
  }

  /** Reads an "HH:MM" string back into hours and minutes. */
  function ParseTime(s: string): Option<(int, int)>
  {
    if |s| == 5 && s[2] == ':' && IsDigit(s[0]) && IsDigit(s[1]) && IsDigit(s[3]) && IsDigit(s[4]) then
      var hour := 10 * DigitValue(s[0]) + DigitValue(s[1]);
      var minute := 10 * DigitValue(s[3]) + DigitValue(s[4]);
      if hour < 24 && minute < 60 then Some((hour, minute)) else None
    else None
  }

  lemma DigitValueOfChar(d: nat)
    requires d < 10
    ensures DigitValue(DigitChar(d)) == d
  {
  }

  /** Reading the formatted time back gives the hour and minute it was made from. */
  lemma FormatTimeRoundTrip(hour: nat, minute: nat)
    requires hour < 24 && minute < 60
    ensures ParseTime(FormatTime(hour, minute)) == Some((hour, minute))
  {
    ParseDigits(hour, minute);
  }

  lemma ParseDigits(hour: nat, minute: nat)
    requires hour < 24 && minute < 60
    ensures ParseTime([DigitChar(hour / 10), DigitChar(hour % 10), ':', DigitChar(minute / 10), DigitChar(minute % 10)])
         == Some((hour, minute))
  {
    DigitValueOfChar(hour / 10);
    DigitValueOfChar(hour % 10);
    DigitValueOfChar(minute / 10);
    DigitValueOfChar(minute % 10);
  }

  /** Different minutes of the day never format to the same string, so a habit
      matches during one minute of the day at most. */
  lemma FormatTimeInjective(h1: nat, m1: nat, h2: nat, m2: nat)
    requires h1 < 24 && m1 < 60 && h2 < 24 && m2 < 60
    ensures (h1 != h2 || m1 != m2) ==> FormatTime(h1, m1) != FormatTime(h2, m2)
  {
    FormatTimeRoundTrip(h1, m1);
    FormatTimeRoundTrip(h2, m2);
  }

  /** The match test of the reminder check; DispatchedSplit and DispatchedMembership
      state which habits it selects and in what order. */
  function IsDue(day: int, time: string): Habit -> bool
  {
    (h: Habit) => day in h.days && h.time == time
  }

  /** The reminder for a habit: the fixed title, and a body that reads back to the
      habit's name between "Time to " and "!". */
  function ReminderFor(h: Habit): (n: Notice)
    ensures n.title == "Habit Reminder"
    ensures |n.body| == |h.name| + 9 && n.body[..8] == "Time to " && n.body[|n.body| - 1] == '!'
    ensures n.body[8..|n.body| - 1] == h.name
  {
    Notice("Habit Reminder", "Time to " + h.name + "!")
  }

  function NoticesFor(habits: seq<Habit>): (notices: seq<Notice>)
    ensures |notices| == |habits|
    ensures forall i :: 0 <= i < |habits| ==> notices[i] == ReminderFor(habits[i])
  {
    if habits == [] then [] else [ReminderFor(habits[0])] + NoticesFor(habits[1..])
  }

  /** The notifications one check sends, in store order, for a given day and time. */
  function Dispatched(habits: seq<Habit>, day: int, time: string): (sent: seq<Notice>)
    ensures |sent| <= |habits|
    ensures forall i :: 0 <= i < |sent| ==> sent[i].title == "Habit Reminder"
  {
    NoticesFor(Filter(habits, IsDue(day, time)))
  }

  lemma {:induction false} NoticesForAppend(a: seq<Habit>, b: seq<Habit>)
    ensures NoticesFor(a + b) == NoticesFor(a) + NoticesFor(b)
  {
    if a == [] {
      assert a + b == b;
    } else {
      assert (a + b)[1..] == a[1..] + b;
      NoticesForAppend(a[1..], b);
    }
  }

  /** Each habit contributes its own reminder exactly when it is due, at its own
      place in the store order. */
  lemma DispatchedSplit(before: seq<Habit>, h: Habit, after: seq<Habit>, day: int, time: string)
    ensures Dispatched(before + [h] + after, day, time)
         == Dispatched(before, day, time)
          + (if day in h.days && h.time == time then [ReminderFor(h)] else [])
          + Dispatched(after, day, time)
  {
    var p := IsDue(day, time);
    var due := day in h.days && h.time == time;
    assert p(h) == due;
    assert Filter([h], p) == (if due then [h] else []);
    assert NoticesFor(if due then [h] else []) == (if due then [ReminderFor(h)] else []);
    FilterAppend(before + [h], after, p);
    FilterAppend(before, [h], p);
    NoticesForAppend(Filter(before, p) + Filter([h], p), Filter(after, p));
    NoticesForAppend(Filter(before, p), Filter([h], p));
  }

  /** A reminder is sent for a title and body exactly when some due habit produces them. */
  lemma DispatchedMembership(habits: seq<Habit>, day: int, time: string, n: Notice)
    ensures n in Dispatched(habits, day, time)
        <==> exists h :: h in habits && day in h.days && h.time == time && n == ReminderFor(h)
  {
    var due := Filter(habits, IsDue(day, time));
    NoticesForMembership(due, n);
    forall h ensures h in due <==> h in habits && IsDue(day, time)(h) {
      FilterMembership(habits, IsDue(day, time), h);
    }
  }

  lemma NoticesForMembership(habits: seq<Habit>, n: Notice)
    ensures n in NoticesFor(habits) <==> exists h :: h in habits && n == ReminderFor(h)
  {
    var notices := NoticesFor(habits);
    if n in notices {
      var i :| 0 <= i < |notices| && notices[i] == n;
      assert habits[i] in habits;
    }
    if h :| h in habits && n == ReminderFor(h) {
      var i :| 0 <= i < |habits| && habits[i] == h;
      assert notices[i] == n;
    }
  }

  /** No habit due, no notification. */
  lemma NothingDueNothingSent(habits: seq<Habit>, day: int, time: string)
    requires forall i :: 0 <= i < |habits| ==> !(day in habits[i].days && habits[i].time == time)
    ensures Dispatched(habits, day, time) == []
  {
    FilterNonePass(habits, IsDue(day, time));
  }

  /** A habit on Monday, Wednesday and Friday at 07:30, checked on a Wednesday at 07:30. */
  lemma MeditateOnWednesday(id: int)
    ensures Dispatched([Habit(id, "Meditate", "07:30", [1, 3, 5])], 3, FormatTime(7, 30))
         == [Notice("Habit Reminder", "Time to Meditate!")]
  {
    var h := Habit(id, "Meditate", "07:30", [1, 3, 5]);
    var t := FormatTime(7, 30);
    assert t == "07:30";
    assert IsDue(3, t)(h);
    assert Filter([h], IsDue(3, t)) == [h];
    assert ReminderFor(h) == Notice("Habit Reminder", "Time to Meditate!");
    assert NoticesFor([h]) == [ReminderFor(h)];
  }

  /** One reminder check. It sends nothing unless notifications are supported and
      granted; otherwise it walks the stored habits in order and sends one reminder
      for each habit due now. */
  method CheckReminders(platform: Platform, clock: Clock, store: Store) returns (sent: seq<Notice>)
    requires clock.Valid()
    ensures !platform.notificationSupported || platform.permission != Granted ==> sent == []
    ensures platform.notificationSupported && platform.permission == Granted ==>
              sent == Dispatched(store.GetHabits(), clock.day, FormatTime(clock.hour, clock.minute))
  {
    if !platform.notificationSupported || platform.permission != Granted {
      return [];
    }
    var currentDay := clock.day;
    var currentTime := FormatTime(clock.hour, clock.minute);
    var habits := store.GetHabits();
    sent := [];
    var i := 0;
    while i < |habits|
      invariant 0 <= i <= |habits|
      invariant sent == Dispatched(habits[..i], currentDay, currentTime)
    {
      var habit := habits[i];
      assert habits[..i + 1] == habits[..i] + [habit] + [];
      DispatchedSplit(habits[..i], habit, [], currentDay, currentTime);
      assert Dispatched([], currentDay, currentTime) == [];
      if currentDay in habit.days && habit.time == currentTime {
        sent := sent + [ReminderFor(habit)];
      }
      i := i + 1;
    }
    assert habits[..i] == habits;
  }
}
