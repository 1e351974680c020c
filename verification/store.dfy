/**
  The task store: the four handlers that replace the task list (add, delete,
  edit, toggle), each a pure function from the old list to the new one.
 */
module Store {
  import opened Wrappers
  import opened Seqs
  import opened Tasks

  /**
    The add handler. `text` and `deadline` are the two form fields
    (`None` is an empty deadline field); `id` is the creation timestamp the
    handler reads from the clock. An empty field makes it a no-op; otherwise
    one undone task is appended at the end.
   */
  function Add(tasks: seq<Task>, id: Id, text: string, deadline: Option<int>): (r: seq<Task>)
    ensures text == "" || deadline.None? ==> r == tasks
    ensures text != "" && deadline.Some? ==>
      && |r| == |tasks| + 1
      && r[..|tasks|] == tasks
      && r[|tasks|].id == id
      && r[|tasks|].text == text
      && r[|tasks|].deadline == deadline.value
      && !r[|tasks|].done
  {
    if text == "" || deadline.None? then tasks
    else tasks + [Task(id, text, deadline.value, false)]
  }

  /**
    The delete handler: every task carrying `id` is removed, the others stay
    in their original relative order; an absent id leaves the list as it is.
   */
  function Delete(tasks: seq<Task>, id: Id): (r: seq<Task>)
    ensures IsSubseq(r, tasks)
    ensures forall t :: multiset(r)[t] == if t.id == id then 0 else multiset(tasks)[t]
    ensures id !in Ids(r)
    ensures id !in Ids(tasks) ==> r == tasks
  {
    var keep := (t: Task) => t.id != id;
    // Both branches filter alike; the second only records that nothing is dropped.
    if id in Ids(tasks) then Filter(tasks, keep)
    else
      FilterKeepsAll(tasks, keep);
      Filter(tasks, keep)
  }

  /**
    The edit handler. `newText` is what the prompt returned (`None` when it
    was cancelled). A cancelled or empty answer changes nothing; otherwise
    exactly the texts of the tasks carrying `id` are replaced.
   */
  function Edit(tasks: seq<Task>, id: Id, newText: Option<string>): (r: seq<Task>)
    ensures |r| == |tasks|
    ensures forall i :: 0 <= i < |r| ==>
      && r[i].id == tasks[i].id
      && r[i].deadline == tasks[i].deadline
      && r[i].done == tasks[i].done
    ensures forall i :: 0 <= i < |r| ==>
      r[i].text == (if tasks[i].id == id && newText.Some? && newText.value != "" then newText.value else tasks[i].text)
  {
    if newText.None? || newText.value == "" then tasks
    else Map(tasks, (t: Task) => if t.id == id then t.(text := newText.value) else t)
  }

  /**
    The toggle handler: the `done` flag of every task carrying `id` is
    flipped; nothing else changes.
   */
  function Toggle(tasks: seq<Task>, id: Id): (r: seq<Task>)
    ensures |r| == |tasks|
    ensures forall i :: 0 <= i < |r| ==>
      && r[i].id == tasks[i].id
      && r[i].text == tasks[i].text
      && r[i].deadline == tasks[i].deadline
      && r[i].done == (if tasks[i].id == id then !tasks[i].done else tasks[i].done)
  {
    Map(tasks, (t: Task) => if t.id == id then t.(done := !t.done) else t)
  }

  /** Toggling the same task twice restores the list. */
  lemma ToggleTwice(tasks: seq<Task>, id: Id)
    ensures Toggle(Toggle(tasks, id), id) == tasks
  {
    var r := Toggle(Toggle(tasks, id), id);
    assert forall i :: 0 <= i < |r| ==> r[i] == tasks[i];
  }

  /** Toggling an id no task carries changes nothing. */
  lemma ToggleAbsent(tasks: seq<Task>, id: Id)
    requires id !in Ids(tasks)
    ensures Toggle(tasks, id) == tasks
  {
    var r := Toggle(tasks, id);
    forall i | 0 <= i < |r|
      ensures r[i] == tasks[i]
    {
      assert tasks[i] in tasks;
    }
  }

  /** Editing an id no task carries changes nothing. */
  lemma EditAbsent(tasks: seq<Task>, id: Id, newText: Option<string>)
    requires id !in Ids(tasks)
    ensures Edit(tasks, id, newText) == tasks
  {
    var r := Edit(tasks, id, newText);
    forall i | 0 <= i < |r|
      ensures r[i] == tasks[i]
    {
      assert tasks[i] in tasks;
    }
  }

  /** Repeating an edit with the same answer changes nothing further. */
  lemma EditTwice(tasks: seq<Task>, id: Id, newText: Option<string>)
    ensures Edit(Edit(tasks, id, newText), id, newText) == Edit(tasks, id, newText)
  {
    var once := Edit(tasks, id, newText);
    var twice := Edit(once, id, newText);
    assert forall i :: 0 <= i < |twice| ==> twice[i] == once[i];
  }

  /** Adding with a fresh id keeps ids unique. */
  lemma AddKeepsUniqueIds(tasks: seq<Task>, id: Id, text: string, deadline: Option<int>)
    requires UniqueIds(tasks)
    requires id !in Ids(tasks)
    ensures UniqueIds(Add(tasks, id, text, deadline))
  {
    var r := Add(tasks, id, text, deadline);
    forall i, j | 0 <= i < j < |r|
      ensures r[i].id != r[j].id
    {
      if j == |tasks| {
        assert r[i] == tasks[i];
        assert tasks[i] in tasks;
      } else {
        assert r[i] == tasks[i] && r[j] == tasks[j];
      }
    }
  }

  /** Deleting the task just added with a fresh id restores the list. */
  lemma DeleteUndoesAdd(tasks: seq<Task>, id: Id, text: string, deadline: Option<int>)
    requires id !in Ids(tasks)
    ensures Delete(Add(tasks, id, text, deadline), id) == tasks
  {
    if text != "" && deadline.Some? {
      var t := Task(id, text, deadline.value, false);
      var keep := (u: Task) => u.id != id;
      FilterSnoc(tasks, t, keep);
      FilterKeepsAll(tasks, keep);
    }
  }

  /** Delete, edit and toggle keep ids unique. */
  lemma DeleteEditToggleKeepUniqueIds(tasks: seq<Task>, id: Id, newText: Option<string>)
    requires UniqueIds(tasks)
    ensures UniqueIds(Delete(tasks, id))
    ensures UniqueIds(Edit(tasks, id, newText))
    ensures UniqueIds(Toggle(tasks, id))
  {
    SubseqKeepsUniqueIds(Delete(tasks, id), tasks);
    SameIdsKeepUniqueIds(Edit(tasks, id, newText), tasks);
    SameIdsKeepUniqueIds(Toggle(tasks, id), tasks);
  }

  /** One user action on the store, with what the handler reads from outside. */
  datatype Action =
    | AddTask(id: Id, text: string, deadline: Option<int>)
    | DeleteTask(id: Id)
    | EditTask(id: Id, newText: Option<string>)
    | ToggleDone(id: Id)

  /** The list after one action. */
  function Apply(tasks: seq<Task>, a: Action): (r: seq<Task>)
  {
    match a
    case AddTask(id, text, deadline) => Add(tasks, id, text, deadline)
    case DeleteTask(id) => Delete(tasks, id)
    case EditTask(id, newText) => Edit(tasks, id, newText)
    case ToggleDone(id) => Toggle(tasks, id)
  }

  /** The list after a sequence of actions, applied in order. */
  function Run(tasks: seq<Task>, actions: seq<Action>): (r: seq<Task>)
    decreases |actions|
  {
    if |actions| == 0 then tasks else Run(Apply(tasks, actions[0]), actions[1..])
  }

  /** Every add in `actions` draws an id no task carries at that moment. */
  predicate FreshAdds(tasks: seq<Task>, actions: seq<Action>)
    decreases |actions|
  {
    |actions| == 0 ||
    ((actions[0].AddTask? ==> actions[0].id !in Ids(tasks))
     && FreshAdds(Apply(tasks, actions[0]), actions[1..]))
  }

  /** The ids the add actions of `actions` hand out. */
  function AddedIds(actions: seq<Action>): (r: set<Id>)
    decreases |actions|
  {
    if |actions| == 0 then {}
    else (if actions[0].AddTask? then {actions[0].id} else {}) + AddedIds(actions[1..])
  }

  /** With fresh ids on every add, any run of actions keeps ids unique. */
  lemma {:induction false} RunKeepsUniqueIds(tasks: seq<Task>, actions: seq<Action>)
    requires UniqueIds(tasks)
    requires FreshAdds(tasks, actions)
    ensures UniqueIds(Run(tasks, actions))
    decreases |actions|
  {
    if |actions| > 0 {
      var a := actions[0];
      match a {
        case AddTask(id, text, deadline) => AddKeepsUniqueIds(tasks, id, text, deadline);
        case DeleteTask(id) => DeleteEditToggleKeepUniqueIds(tasks, id, None);
        case EditTask(id, newText) => DeleteEditToggleKeepUniqueIds(tasks, id, newText);
        case ToggleDone(id) => DeleteEditToggleKeepUniqueIds(tasks, id, None);
      }
      RunKeepsUniqueIds(Apply(tasks, a), actions[1..]);
    }
  }

  /** One action introduces no id other than the one an add hands out. */
  lemma ApplyIds(tasks: seq<Task>, a: Action)
    ensures Ids(Apply(tasks, a)) <= Ids(tasks) + (if a.AddTask? then {a.id} else {})
  {
    var r := Apply(tasks, a);
    forall x | x in Ids(r)
      ensures x in Ids(tasks) + (if a.AddTask? then {a.id} else {})
    {
      var t :| t in r && t.id == x;
      var k :| 0 <= k < |r| && r[k] == t;
      match a {
        case AddTask(id, text, deadline) =>
          if k < |tasks| {
            assert tasks[k] in tasks;
          }
        case DeleteTask(id) =>
          assert t in tasks;
        case EditTask(id, newText) =>
          assert tasks[k] in tasks;
        case ToggleDone(id) =>
          assert tasks[k] in tasks;
      }
    }
  }

  /** Every id in the list was there at the start or was handed out by an add. */
  lemma {:induction false} RunIdsComeFromAdds(tasks: seq<Task>, actions: seq<Action>)
    ensures Ids(Run(tasks, actions)) <= Ids(tasks) + AddedIds(actions)
    decreases |actions|
  {
    if |actions| > 0 {
      ApplyIds(tasks, actions[0]);
      RunIdsComeFromAdds(Apply(tasks, actions[0]), actions[1..]);
    }
  }
}
