/**
  The choice the reminder timer makes on each tick: which tasks get an alert.
  The tick schedule and the alert itself are outside this module.
 */
module Reminder {
  import opened Seqs
  import opened Tasks
  import opened Views

  /** Reminders go out for deadlines less than one minute away, in milliseconds. */
  const Window: int := 60000

  /** Whether a tick at `now` alerts for `t`. The done flag plays no part. */
  function DueSoon(t: Task, now: int): (b: bool)
    ensures b <==> now < t.deadline < now + Window
  {
    0 < t.deadline - now < Window
  }

  /** The tasks a tick at `now` alerts for, in list order, one alert each. */
  function Reminders(tasks: seq<Task>, now: int): (r: seq<Task>)
    ensures IsSubseq(r, tasks)
    ensures forall i :: 0 <= i < |r| ==> now < r[i].deadline < now + Window
    ensures forall t :: multiset(r)[t] == if now < t.deadline < now + Window then multiset(tasks)[t] else 0
  {
    Filter(tasks, (t: Task) => DueSoon(t, now))
  }

  /** A done task whose deadline is within the minute still gets an alert. */
  lemma RemindsDoneTasks(tasks: seq<Task>, now: int, t: Task)
    requires t in tasks && t.done
    requires now < t.deadline < now + Window
    ensures t in Reminders(tasks, now)
  {
    assert multiset(Reminders(tasks, now))[t] == multiset(tasks)[t];
  }

  /** One list on which a done task gets an alert. */
  lemma RemindsDoneExample(now: int)
    ensures var done := Task("1", "Pay rent", now + 1000, true);
      Reminders([done], now) == [done]
  {
    var done := Task("1", "Pay rent", now + 1000, true);
    var r := Reminders([done], now);
    assert multiset(r)[done] == 1;
    assert done in r;
  }

  /** An alert for an undone task is always for a task the active view shows. */
  lemma RemindedUndoneIsActive(tasks: seq<Task>, now: int)
    ensures forall t | t in Reminders(tasks, now) && !t.done :: t in Visible(tasks, Active, now)
  {
  }

  /** No alert is ever for an overdue task. */
  lemma NoReminderWhenOverdue(tasks: seq<Task>, now: int)
    ensures forall t | t in Reminders(tasks, now) :: t !in Visible(tasks, Overdue, now)
  {
  }
}
