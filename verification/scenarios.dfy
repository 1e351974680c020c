/** Two end-to-end walks through the handlers, from an empty list. */
module Scenarios {
  import opened Wrappers
  import opened Tasks
  import opened Store
  import opened Views

  /**
    Add a task, tick it off: the overdue view is then empty whatever the
    deadline, and deleting the task empties the list again.
   */
  lemma AddToggleDelete(id: Id, deadline: int, now: int)
    ensures var added := Add([], id, "Buy milk", Some(deadline));
      && |added| == 1 && !added[0].done
      && var toggled := Toggle(added, id);
      && toggled[0].done
      && Visible(toggled, Overdue, now) == []
      && Delete(toggled, id) == []
  {
    var added := Add([], id, "Buy milk", Some(deadline));
    var toggled := Toggle(added, id);
    assert toggled == [Task(id, "Buy milk", deadline, true)];
  }

  /** A task added with a past deadline shows under overdue and not under active. */
  lemma PastDeadlineIsOverdue(id: Id, deadline: int, now: int)
    requires deadline < now
    ensures var added := Add([], id, "Pay rent", Some(deadline));
      && Visible(added, Overdue, now) == added
      && Visible(added, Active, now) == []
  {
    var added := Add([], id, "Pay rent", Some(deadline));
    var t := Task(id, "Pay rent", deadline, false);
    assert added == [t];
    var overdue := Visible(added, Overdue, now);
    assert multiset(overdue)[t] == 1;
    assert |overdue| == |multiset(overdue)|;
    assert overdue == [t] by {
      assert |overdue| <= 1;
      assert overdue[0] in multiset(overdue);
    }
  }
}
