/**
  The view filter: which tasks the list shows under each filter button, and
  the overdue and done counts of the subtitle. `now` is the current time in
  milliseconds, one value for the whole evaluation.
 */
module Views {
  import opened Seqs
  import opened Tasks

  /** The filter buttons. */
  datatype Mode = All | Active | Overdue | Done

  /** The filter state is a string; anything but the three named views shows everything. */
  function ModeOf(name: string): (m: Mode)
    ensures m == Active <==> name == "active"
    ensures m == Overdue <==> name == "overdue"
    ensures m == Done <==> name == "done"
  {
    if name == "active" then Active
    else if name == "overdue" then Overdue
    else if name == "done" then Done
    else All
  }

  /** Not done, and the deadline lies strictly before `now`. */
  function IsOverdue(t: Task, now: int): (b: bool)
    ensures t.done ==> !b
    ensures !t.done ==> (b <==> now > t.deadline)
  {
    !t.done && t.deadline < now
  }

  /** Whether the view `mode` shows task `t`. */
  function Shows(mode: Mode, t: Task, now: int): (b: bool)
    ensures mode == All ==> b
    ensures mode == Active ==> (b <==> !t.done && now <= t.deadline)
    ensures mode == Overdue ==> (b <==> !t.done && t.deadline < now)
    ensures mode == Done ==> (b <==> t.done)
  {
    match mode
    case Active => !t.done && !IsOverdue(t, now)
    case Overdue => IsOverdue(t, now)
    case Done => t.done
    case All => true
  }

  /** The visible tasks: those the view shows, in list order. */
  function Visible(tasks: seq<Task>, mode: Mode, now: int): (r: seq<Task>)
    ensures IsSubseq(r, tasks)
    ensures forall i :: 0 <= i < |r| ==> Shows(mode, r[i], now)
    ensures forall t :: multiset(r)[t] == if Shows(mode, t, now) then multiset(tasks)[t] else 0
  {
    Filter(tasks, (t: Task) => Shows(mode, t, now))
  }

  /** The tasks the view hides, in list order. */
  function Hidden(tasks: seq<Task>, mode: Mode, now: int): (r: seq<Task>)
    ensures IsSubseq(r, tasks)
    ensures forall i :: 0 <= i < |r| ==> !Shows(mode, r[i], now)
    ensures forall t :: multiset(r)[t] == if Shows(mode, t, now) then 0 else multiset(tasks)[t]
  {
    Filter(tasks, (t: Task) => !Shows(mode, t, now))
  }

  /** What a view shows and what it hides together make up the list. */
  lemma ShownAndHidden(tasks: seq<Task>, mode: Mode, now: int)
    ensures multiset(Visible(tasks, mode, now)) + multiset(Hidden(tasks, mode, now)) == multiset(tasks)
  {
    var v, h := Visible(tasks, mode, now), Hidden(tasks, mode, now);
    assert forall t :: (multiset(v) + multiset(h))[t] == multiset(tasks)[t];
  }

  /** A done task is never overdue, whatever its deadline. */
  lemma DoneNeverOverdue(tasks: seq<Task>, now: int)
    ensures forall t | t in tasks && t.done :: t !in Visible(tasks, Overdue, now)
  {
  }

  /** Each task is shown by exactly one of the active, overdue and done views. */
  lemma ExactlyOneView(t: Task, now: int)
    ensures Shows(Active, t, now) || Shows(Overdue, t, now) || Shows(Done, t, now)
    ensures !(Shows(Active, t, now) && Shows(Overdue, t, now))
    ensures !(Shows(Active, t, now) && Shows(Done, t, now))
    ensures !(Shows(Overdue, t, now) && Shows(Done, t, now))
  {
  }

  /**
    The active, overdue and done views split the list: they share no task,
    and together they hold every task as often as the list does.
   */
  lemma ViewsPartition(tasks: seq<Task>, now: int)
    ensures multiset(Visible(tasks, Active, now)) + multiset(Visible(tasks, Overdue, now))
            + multiset(Visible(tasks, Done, now)) == multiset(tasks)
    ensures multiset(Visible(tasks, Active, now)) !! multiset(Visible(tasks, Overdue, now))
    ensures multiset(Visible(tasks, Active, now)) !! multiset(Visible(tasks, Done, now))
    ensures multiset(Visible(tasks, Overdue, now)) !! multiset(Visible(tasks, Done, now))
    ensures |Visible(tasks, Active, now)| + |Visible(tasks, Overdue, now)| + |Visible(tasks, Done, now)| == |tasks|
  {
  }

  /** The unfiltered view is the whole list, in order. */
  lemma AllShowsEverything(tasks: seq<Task>, now: int)
    ensures Visible(tasks, All, now) == tasks
  {
    FilterKeepsAll(tasks, (t: Task) => Shows(All, t, now));
  }

  /** The overdue count of the subtitle: the number of overdue tasks. */
  function OverdueCount(tasks: seq<Task>, now: int): (n: nat)
    ensures n == |Visible(tasks, Overdue, now)|
  {
    var overdue := Filter(tasks, (t: Task) => IsOverdue(t, now));
    assert multiset(overdue) == multiset(Visible(tasks, Overdue, now));
    |overdue|
  }

  /** The done count of the subtitle: the number of done tasks. */
  function DoneCount(tasks: seq<Task>): (n: nat)
    ensures n <= |tasks|
  {
    |Filter(tasks, (t: Task) => t.done)|
  }

  /** The done count is the length of the done view, whatever the time. */
  lemma DoneCountIsDoneView(tasks: seq<Task>, now: int)
    ensures DoneCount(tasks) == |Visible(tasks, Done, now)|
  {
    var done := Filter(tasks, (t: Task) => t.done);
    assert multiset(done) == multiset(Visible(tasks, Done, now));
  }

  /** Overdue and done tasks are counted apart, so the two counts never exceed the total. */
  lemma CountsWithinTotal(tasks: seq<Task>, now: int)
    ensures OverdueCount(tasks, now) + DoneCount(tasks) <= |tasks|
  {
    ViewsPartition(tasks, now);
    DoneCountIsDoneView(tasks, now);
  }
}
