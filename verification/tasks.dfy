/**
  The one entity of the to-do list: a task record `{id, text, deadline, done}`,
  and the store invariant that no two tasks share an id.
 */
module Tasks {
  import opened Seqs

  /** Ids are the decimal strings of the creation timestamp. */
  type Id = string

  /**
    A task. `deadline` is the point in time the deadline field denotes, in
    milliseconds, as the comparisons and subtractions of the component see it.
   */
  datatype Task = Task(id: Id, text: string, deadline: int, done: bool)

  /** The ids of the tasks in `s`. */
  function Ids(s: seq<Task>): (r: set<Id>)
  {
    set t | t in s :: t.id
  }

  /** The store invariant: distinct positions hold distinct ids. */
  predicate UniqueIds(s: seq<Task>)
  {
    forall i, j | 0 <= i < j < |s| :: s[i].id != s[j].id
  }

  /** Two lists holding the same tasks hold the same ids. */
  lemma SameTasksSameIds(a: seq<Task>, b: seq<Task>)
    requires multiset(a) == multiset(b)
    ensures Ids(a) == Ids(b)
  {
    assert forall t :: t in a <==> t in multiset(b);
  }

  /** In a list with unique ids, a task is determined by its id. */
  lemma SameIdSameTask(s: seq<Task>, x: Task, y: Task)
    requires UniqueIds(s)
    requires x in s && y in s
    requires x.id == y.id
    ensures x == y
  {
    var i :| 0 <= i < |s| && s[i] == x;
    var j :| 0 <= j < |s| && s[j] == y;
  }

  /** Deleting tasks never creates a clash of ids: a subsequence keeps the invariant. */
  lemma {:induction false} SubseqKeepsUniqueIds(a: seq<Task>, b: seq<Task>)
    requires IsSubseq(a, b)
    requires UniqueIds(b)
    ensures UniqueIds(a)
    decreases |b|
  {
    if |a| > 0 {
      assert UniqueIds(b[1..]) by {
        forall i, j | 0 <= i < j < |b[1..]|
          ensures b[1..][i].id != b[1..][j].id
        {
          assert b[1..][i] == b[i + 1] && b[1..][j] == b[j + 1];
        }
      }
      if a[0] == b[0] && IsSubseq(a[1..], b[1..]) {
        SubseqKeepsUniqueIds(a[1..], b[1..]);
        forall i, j | 0 <= i < j < |a|
          ensures a[i].id != a[j].id
        {
          if i == 0 {
            assert a[j] == a[1..][j - 1];
            SubseqMembers(a[1..], b[1..], a[j]);
            var k :| 0 <= k < |b[1..]| && b[1..][k] == a[j];
            assert b[0].id != b[k + 1].id;
          } else {
            assert a[i] == a[1..][i - 1] && a[j] == a[1..][j - 1];
          }
        }
      } else {
        SubseqKeepsUniqueIds(a, b[1..]);
      }
    }
  }

  /** Two lists with the same ids position by position agree on the invariant. */
  lemma SameIdsKeepUniqueIds(a: seq<Task>, b: seq<Task>)
    requires |a| == |b|
    requires forall i :: 0 <= i < |a| ==> a[i].id == b[i].id
    ensures UniqueIds(a) <==> UniqueIds(b)
  {
  }

  /** A task at two positions of a list occurs at least twice in it. */
  lemma TwoPositionsTwice(s: seq<Task>, i: nat, j: nat)
    requires i < j < |s|
    requires s[i] == s[j]
    ensures multiset(s)[s[i]] >= 2
  {
    assert s == s[..j] + s[j..];
    assert s[..j][i] == s[i];
    assert s[j..][0] == s[i];
  }

  /** A list with unique ids holds no task twice. */
  lemma UniqueIdsNoRepeats(s: seq<Task>, t: Task)
    requires UniqueIds(s)
    ensures multiset(s)[t] <= 1
  {
    if multiset(s)[t] >= 2 {
      var i :| 0 <= i < |s| && s[i] == t;
      var rest := Remove(s, i);
    }
  }

  /** Reordering a list with unique ids keeps ids unique. */
  lemma PermutationKeepsUniqueIds(a: seq<Task>, b: seq<Task>)
    requires multiset(a) == multiset(b)
    requires UniqueIds(b)
    ensures UniqueIds(a)
  {
    forall i, j | 0 <= i < j < |a|
      ensures a[i].id != a[j].id
    {
      if a[i].id == a[j].id {
        assert a[i] in multiset(b) && a[j] in multiset(b);
        SameIdSameTask(b, a[i], a[j]);
        TwoPositionsTwice(a, i, j);
        UniqueIdsNoRepeats(b, a[i]);
      }
    }
  }
}
