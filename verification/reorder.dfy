/**
  The drag-end handler: a drag inside the visible list reorders the whole
  task list. The reordered visible tasks come first, followed by every task
  whose id is not among them, in its old relative order.
 */
module Reorder {
  import opened Wrappers
  import opened Seqs
  import opened Tasks
  import opened Views

  /** The tasks whose id is not in `ids`, in list order: the `rest` of a drag. */
  function Rest(tasks: seq<Task>, ids: set<Id>): (r: seq<Task>)
    ensures IsSubseq(r, tasks)
    ensures forall t :: multiset(r)[t] == if t.id in ids then 0 else multiset(tasks)[t]
  {
    Filter(tasks, (t: Task) => t.id !in ids)
  }

  /**
    The new task list after a drag from visible index `source` to visible
    index `destination` (`None` when the drag was dropped outside the list).
    The drag library only reports indices inside the visible list.
   */
  function DragEnd(tasks: seq<Task>, mode: Mode, now: int, source: nat, destination: Option<nat>): (r: seq<Task>)
    requires destination.Some? ==>
      source < |Visible(tasks, mode, now)| && destination.value < |Visible(tasks, mode, now)|
    ensures destination.None? ==> r == tasks
    ensures destination.Some? ==>
      var visible := Visible(tasks, mode, now);
      && |visible| <= |r|
      && r[..|visible|] == Move(visible, source, destination.value)
      && r[|visible|..] == Rest(tasks, Ids(visible))
  {
    if destination.None? then tasks
    else
      var items := Move(Visible(tasks, mode, now), source, destination.value);
      var movedIds := Ids(items);
      SameTasksSameIds(items, Visible(tasks, mode, now));
      var rest := Rest(tasks, movedIds);
      assert (items + rest)[..|items|] == items && (items + rest)[|items|..] == rest;
      items + rest
  }

  /** With unique ids, a task's id is among the visible ids exactly when the view shows it. */
  lemma VisibleIdsMatchShows(tasks: seq<Task>, mode: Mode, now: int, t: Task)
    requires UniqueIds(tasks)
    requires t in tasks
    ensures t.id in Ids(Visible(tasks, mode, now)) <==> Shows(mode, t, now)
  {
    var visible := Visible(tasks, mode, now);
    if t.id in Ids(visible) {
      var v :| v in visible && v.id == t.id;
      assert v in tasks;
      SameIdSameTask(tasks, t, v);
    }
  }

  /**
    With unique ids, the tasks left after the dragged ones are exactly the
    tasks the view hides, in their old relative order, as one block at the end.
   */
  lemma HiddenMoveAsBlock(tasks: seq<Task>, mode: Mode, now: int, source: nat, destination: nat)
    requires UniqueIds(tasks)
    requires source < |Visible(tasks, mode, now)| && destination < |Visible(tasks, mode, now)|
    ensures DragEnd(tasks, mode, now, source, Some(destination))
         == Move(Visible(tasks, mode, now), source, destination)
          + Hidden(tasks, mode, now)
  {
    var visible := Visible(tasks, mode, now);
    var items := Move(visible, source, destination);
    var movedIds := Ids(items);
    SameTasksSameIds(items, visible);
    forall i | 0 <= i < |tasks|
      ensures (tasks[i].id !in movedIds) == !Shows(mode, tasks[i], now)
    {
      VisibleIdsMatchShows(tasks, mode, now, tasks[i]);
    }
    FilterCongruent(tasks, (t: Task) => t.id !in movedIds, (t: Task) => !Shows(mode, t, now));
  }

  /** With unique ids, a drag only reorders: the new list is a permutation of the old. */
  lemma DragEndPermutes(tasks: seq<Task>, mode: Mode, now: int, source: nat, destination: Option<nat>)
    requires UniqueIds(tasks)
    requires destination.Some? ==>
      source < |Visible(tasks, mode, now)| && destination.value < |Visible(tasks, mode, now)|
    ensures multiset(DragEnd(tasks, mode, now, source, destination)) == multiset(tasks)
  {
    if destination.Some? {
      HiddenMoveAsBlock(tasks, mode, now, source, destination.value);
      var visible, hidden := Visible(tasks, mode, now), Hidden(tasks, mode, now);
      var items := Move(visible, source, destination.value);
      assert multiset(items + hidden) == multiset(items) + multiset(hidden);
      ShownAndHidden(tasks, mode, now);
    }
  }

  /** With unique ids, the list after a drag still has unique ids. */
  lemma DragEndKeepsUniqueIds(tasks: seq<Task>, mode: Mode, now: int, source: nat, destination: Option<nat>)
    requires UniqueIds(tasks)
    requires destination.Some? ==>
      source < |Visible(tasks, mode, now)| && destination.value < |Visible(tasks, mode, now)|
    ensures UniqueIds(DragEnd(tasks, mode, now, source, destination))
  {
    DragEndPermutes(tasks, mode, now, source, destination);
    PermutationKeepsUniqueIds(DragEnd(tasks, mode, now, source, destination), tasks);
  }

  /** Under the unfiltered view a drag is a plain move within the whole list. */
  lemma DragEndUnderAll(tasks: seq<Task>, now: int, source: nat, destination: nat)
    requires source < |tasks| && destination < |tasks|
    ensures Visible(tasks, All, now) == tasks
    ensures DragEnd(tasks, All, now, source, Some(destination)) == Move(tasks, source, destination)
  {
    AllShowsEverything(tasks, now);
    var items := Move(tasks, source, destination);
    var movedIds := Ids(items);
    forall i | 0 <= i < |tasks|
      ensures tasks[i].id in movedIds
    {
      assert tasks[i] in multiset(items);
    }
    FilterDropsAll(tasks, (t: Task) => t.id !in movedIds);
  }

  /**
    Why the handler needs unique ids: a hidden task that shares its id with
    a visible one is dropped from the list by a drag.
   */
  lemma SharedIdIsDropped(tasks: seq<Task>, mode: Mode, now: int, source: nat, destination: nat, t: Task)
    requires source < |Visible(tasks, mode, now)| && destination < |Visible(tasks, mode, now)|
    requires t in tasks && !Shows(mode, t, now)
    requires t.id in Ids(Visible(tasks, mode, now))
    ensures t !in DragEnd(tasks, mode, now, source, Some(destination))
  {
    var visible := Visible(tasks, mode, now);
    var r := DragEnd(tasks, mode, now, source, Some(destination));
    assert r == r[..|visible|] + r[|visible|..];
    assert multiset(r[..|visible|])[t] == 0;
  }

  /** One list on which a drag loses a task: two tasks share id "7", one done, one not. */
  lemma SharedIdDropExample(now: int)
    ensures var shown := Task("7", "a", now, true);
      var hidden := Task("7", "b", now, false);
      DragEnd([shown, hidden], Done, now, 0, Some(0)) == [shown]
  {
    var shown := Task("7", "a", now, true);
    var hidden := Task("7", "b", now, false);
    var tasks := [shown, hidden];
    var visible := Visible(tasks, Done, now);
    assert visible == [shown] by {
      assert multiset(visible)[shown] == 1 && multiset(visible)[hidden] == 0;
      assert |multiset(visible)| == 1;
    }
    InsertRemove(visible, 0);
    FilterDropsAll(tasks, (t: Task) => t.id !in Ids([shown]));
  }
}
