/** The order in which the web client lists tasks, and the pending and
    completed groups (src/components/task-list.tsx). */
module TaskList {

  import opened Optional
  import opened Types
  import Seqs

  /** The comparator given to `sort`: incomplete tasks first, then ascending
      due date, a missing due date counting as +Infinity. Where the source
      returns +Infinity or -Infinity this returns 1 or -1, the same sign. */
  function Compare(a: Task, b: Task): int
  {
    if a.completed != b.completed then (if a.completed then 1 else -1)
    else match (a.dueDate, b.dueDate)
      case (Some(x), Some(y)) => if x != y then x - y else 0
      case (None, Some(_)) => 1
      case (Some(_), None) => -1
      case (None, None) => 0
  }

  /** The comparator is a total preorder whose ties are exactly the tasks with
      the same completion status and the same due date. */
  lemma CompareIsTotalPreorder(a: Task, b: Task, c: Task)
    ensures Compare(a, a) == 0
    ensures Compare(a, b) < 0 <==> Compare(b, a) > 0
    ensures Compare(a, b) == 0 <==> a.completed == b.completed && a.dueDate == b.dueDate
    ensures Compare(a, b) <= 0 && Compare(b, c) <= 0 ==> Compare(a, c) <= 0
  {
  }

  /** Every task compares at most equal to every later one. */
  ghost predicate Ordered(s: seq<Task>)
  {
    forall i, j :: 0 <= i < j < |s| ==> Compare(s[i], s[j]) <= 0
  }

  lemma OrderedCons(x: Task, s: seq<Task>)
    requires Ordered(s)
    requires forall y :: y in s ==> Compare(x, y) <= 0
    ensures Ordered([x] + s)
  {
  }

  /** A task that sorts no later than the head of an ordered list may go
      in front of it. */
  lemma OrderedPrepend(x: Task, s: seq<Task>)
    requires Ordered(s)
    requires s == [] || Compare(x, s[0]) <= 0
    ensures Ordered([x] + s)
  {
  }

  /** The head of an ordered list may stay in front of the rest with a later
      task inserted. */
  lemma OrderedKeepHead(x: Task, s: seq<Task>, rest: seq<Task>)
    requires Ordered(s) && s != [] && Compare(x, s[0]) > 0
    requires Ordered(rest) && multiset(rest) == multiset(s[1..]) + multiset{x}
    ensures Ordered([s[0]] + rest)
  {
    forall y | y in rest ensures Compare(s[0], y) <= 0 {
      assert y in multiset(rest);
      if y != x {
        assert y in s[1..];
      } else {
        CompareIsTotalPreorder(x, s[0], x);
      }
    }
    OrderedCons(s[0], rest);
  }

  /** Stable insertion: `x` goes after the tasks that sort strictly before
      it and before those that tie with it. */
  function Insert(x: Task, s: seq<Task>): (r: seq<Task>)
    requires Ordered(s)
    ensures Ordered(r)
    ensures multiset(r) == multiset(s) + multiset{x}
  {
    if s == [] || Compare(x, s[0]) <= 0 then
      OrderedPrepend(x, s);
      [x] + s
    else
      assert s == [s[0]] + s[1..];
      var rest := Insert(x, s[1..]);
      OrderedKeepHead(x, s, rest);
      [s[0]] + rest
  }

  /** `[...tasks].sort(compare)`: a sorted copy, the input left as it was.
      The result is a permutation of the input, all incomplete tasks come
      before all completed ones, and within one status due dates ascend with
      the undated tasks last. */
  function SortTasks(tasks: seq<Task>): (r: seq<Task>)
    ensures Ordered(r)
    ensures multiset(r) == multiset(tasks)
    ensures forall i, j :: 0 <= i < j < |r| && !r[j].completed ==> !r[i].completed
    ensures forall i, j :: 0 <= i < j < |r| && r[i].completed == r[j].completed && r[i].dueDate.None? ==>
      r[j].dueDate.None?
    ensures forall i, j :: 0 <= i < j < |r| && r[i].completed == r[j].completed &&
                           r[i].dueDate.Some? && r[j].dueDate.Some? ==>
                             r[i].dueDate.value <= r[j].dueDate.value
  {
    if tasks == [] then []
    else
      assert tasks == [tasks[0]] + tasks[1..];
      Insert(tasks[0], SortTasks(tasks[1..]))
  }

  /** The tasks of `s` that tie with `k`, in their order in `s`. */
  function TiedWith(s: seq<Task>, k: Task): (r: seq<Task>)
    ensures forall x :: x in r ==> x in s
    ensures forall x :: x in s && Compare(x, k) == 0 ==> x in r
  {
    if s == [] then []
    else (if Compare(s[0], k) == 0 then [s[0]] else []) + TiedWith(s[1..], k)
  }

  lemma TiedWithCons(x: Task, s: seq<Task>, k: Task)
    ensures TiedWith([x] + s, k) == (if Compare(x, k) == 0 then [x] else []) + TiedWith(s, k)
  {
  }

  lemma {:induction false} InsertTiedWith(x: Task, s: seq<Task>, k: Task)
    requires Ordered(s)
    ensures TiedWith(Insert(x, s), k) == (if Compare(x, k) == 0 then [x] else []) + TiedWith(s, k)
  {
    if s == [] || Compare(x, s[0]) <= 0 {
      TiedWithCons(x, s, k);
    } else {
      var h, rest := s[0], s[1..];
      var xs := if Compare(x, k) == 0 then [x] else [];
      var hs := if Compare(h, k) == 0 then [h] else [];
      assert hs == [] || xs == [] by {
        CompareIsTotalPreorder(x, h, k);
        CompareIsTotalPreorder(h, k, x);
      }
      calc {
        TiedWith(Insert(x, s), k);
        { assert Insert(x, s) == [h] + Insert(x, rest); TiedWithCons(h, Insert(x, rest), k); }
        hs + TiedWith(Insert(x, rest), k);
        { InsertTiedWith(x, rest, k); }
        hs + (xs + TiedWith(rest, k));
        xs + (hs + TiedWith(rest, k));
        { assert s == [h] + rest; TiedWithCons(h, rest, k); }
        xs + TiedWith(s, k);
      }
    }
  }

  /** The sort is stable: tasks that tie keep their input order. */
  lemma {:induction false} SortIsStable(tasks: seq<Task>, k: Task)
    ensures TiedWith(SortTasks(tasks), k) == TiedWith(tasks, k)
  {
    if tasks != [] {
      assert tasks == [tasks[0]] + tasks[1..];
      SortIsStable(tasks[1..], k);
      InsertTiedWith(tasks[0], SortTasks(tasks[1..]), k);
      TiedWithCons(tasks[0], tasks[1..], k);
    }
  }

  lemma SelfTie(s: seq<Task>)
    requires s != []
    ensures TiedWith(s, s[0]) == [s[0]] + TiedWith(s[1..], s[0])
  {
  }

  lemma TiesDetermineEmptiness(r1: seq<Task>, r2: seq<Task>)
    requires forall k :: TiedWith(r1, k) == TiedWith(r2, k)
    ensures r1 == [] <==> r2 == []
  {
    if r1 != [] {
      SelfTie(r1);
      assert TiedWith(r2, r1[0]) != [];
    }
    if r2 != [] {
      SelfTie(r2);
      assert TiedWith(r1, r2[0]) != [];
    }
  }

  /** The head of an ordered list sorts no later than any task of another
      list with the same tie groups. */
  lemma HeadNoLater(r1: seq<Task>, r2: seq<Task>)
    requires Ordered(r1) && r1 != [] && r2 != []
    requires TiedWith(r1, r2[0]) == TiedWith(r2, r2[0])
    ensures Compare(r1[0], r2[0]) <= 0
  {
  }

  /** Two ordered lists with the same tie groups start with the same task. */
  lemma TiesDetermineHead(r1: seq<Task>, r2: seq<Task>)
    requires Ordered(r1) && Ordered(r2) && r1 != [] && r2 != []
    requires forall k :: TiedWith(r1, k) == TiedWith(r2, k)
    ensures r1[0] == r2[0]
  {
    var a, b := r1[0], r2[0];
    assert Compare(b, a) == 0 by {
      HeadNoLater(r1, r2);
      HeadNoLater(r2, r1);
      CompareIsTotalPreorder(a, b, a);
    }
    assert TiedWith(r1, a) == [a] + TiedWith(r1[1..], a) by {
      SelfTie(r1);
    }
    assert TiedWith(r2, a) == [b] + TiedWith(r2[1..], a) by {
      assert r2 == [b] + r2[1..];
      TiedWithCons(b, r2[1..], a);
    }
    assert TiedWith(r1, a) == TiedWith(r2, a);
    assert TiedWith(r1, a)[0] == a && TiedWith(r2, a)[0] == b;
  }

  /** An ordered list is fixed by its tie groups. */
  lemma {:induction false} OrderedByTiesUnique(r1: seq<Task>, r2: seq<Task>)
    requires Ordered(r1) && Ordered(r2)
    requires forall k :: TiedWith(r1, k) == TiedWith(r2, k)
    ensures r1 == r2
  {
    TiesDetermineEmptiness(r1, r2);
    if r1 != [] {
      TiesDetermineHead(r1, r2);
      var a := r1[0];
      assert r1 == [a] + r1[1..];
      assert r2 == [a] + r2[1..];
      forall k ensures TiedWith(r1[1..], k) == TiedWith(r2[1..], k) {
        var front := if Compare(a, k) == 0 then [a] else [];
        TiedWithCons(a, r1[1..], k);
        TiedWithCons(a, r2[1..], k);
        assert TiedWith(r1[1..], k) == TiedWith(r1, k)[|front|..];
        assert TiedWith(r2[1..], k) == TiedWith(r2, k)[|front|..];
      }
      OrderedByTiesUnique(r1[1..], r2[1..]);
    }
  }

  /** Any stable sort of the same input under this comparator yields exactly
      `SortTasks`, so the choice of insertion sort in the model does not
      matter. */
  lemma StableSortIsSortTasks(tasks: seq<Task>, r: seq<Task>)
    requires Ordered(r)
    requires forall k :: TiedWith(r, k) == TiedWith(tasks, k)
    ensures r == SortTasks(tasks)
  {
    forall k ensures TiedWith(r, k) == TiedWith(SortTasks(tasks), k) {
      SortIsStable(tasks, k);
    }
    OrderedByTiesUnique(r, SortTasks(tasks));
  }

  /** `pendingTasks`. */
  function Pending(s: seq<Task>): seq<Task>
  {
    Seqs.Filter(s, (t: Task) => !t.completed)
  }

  /** `completedTasks`. */
  function Done(s: seq<Task>): seq<Task>
  {
    Seqs.Filter(s, (t: Task) => t.completed)
  }

  /** On an ordered list the pending group followed by the completed group
      is the whole list. */
  lemma {:induction false} GroupsSplitOrdered(r: seq<Task>)
    requires Ordered(r)
    ensures Pending(r) + Done(r) == r
    ensures |Pending(r)| + |Done(r)| == |r|
  {
    if r != [] {
      var a, rest := r[0], r[1..];
      assert r == [a] + rest;
      assert Ordered(rest);
      if a.completed {
        assert forall y :: y in rest ==> y.completed by {
          forall y | y in rest ensures y.completed {
            var j :| 0 <= j < |rest| && rest[j] == y;
            assert Compare(r[0], r[j + 1]) <= 0;
          }
        }
        Seqs.FilterDropsAll(rest, (t: Task) => !t.completed);
        Seqs.FilterKeepsAll(rest, (t: Task) => t.completed);
      } else {
        GroupsSplitOrdered(rest);
      }
    }
  }

  /** `pendingTasks ++ completedTasks == sortedTasks`. */
  lemma GroupsPartitionSortedTasks(tasks: seq<Task>)
    ensures Pending(SortTasks(tasks)) + Done(SortTasks(tasks)) == SortTasks(tasks)
    ensures |Pending(SortTasks(tasks))| + |Done(SortTasks(tasks))| == |tasks|
  {
    GroupsSplitOrdered(SortTasks(tasks));
    assert |SortTasks(tasks)| == |multiset(SortTasks(tasks))| == |multiset(tasks)| == |tasks|;
  }

}
