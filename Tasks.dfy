/**
 * The todo and assignment lists of js/app.js: completion and deletion by
 * id, and the todo ordering of `updateTodosList`.
 */
module Tasks {
  import opened Wrappers
  import opened Seqs
  import Sorting

  datatype Priority = Low | Medium | High

  /**
   * A todo or an assignment; `group` is the todo's category or the
   * assignment's subject.
   */
  datatype Task = Task(
    id: int,
    title: string,
    description: string,
    priority: Priority,
    group: string,
    dueDate: string,
    completed: bool,
    createdAt: string)

  /** `priorityOrder`: high 3, medium 2, low 1. */
  function Weight(p: Priority): int {
    match p
    case High => 3
    case Medium => 2
    case Low => 1
  }

  /** The todo comparator: `a.completed - b.completed`, then `priorityOrder[b] - priorityOrder[a]`. */
  function TodoCompare(a: Task, b: Task): int {
    if a.completed != b.completed then
      (if a.completed then 1 else 0) - (if b.completed then 1 else 0)
    else
      Weight(b.priority) - Weight(a.priority)
  }

  /**
   * The position of a todo's class in the order: incomplete high, medium,
   * low, then completed high, medium, low.
   */
  function Rank(t: Task): (r: nat)
    ensures r < 6
  {
    (if t.completed then 3 else 0) + (3 - Weight(t.priority))
  }

  /** The comparator orders exactly by class: negative, zero and positive as the classes compare. */
  lemma CompareIsRank(a: Task, b: Task)
    ensures TodoCompare(a, b) < 0 <==> Rank(a) < Rank(b)
    ensures TodoCompare(a, b) == 0 <==> Rank(a) == Rank(b)
    ensures TodoCompare(a, b) > 0 <==> Rank(a) > Rank(b)
  {
  }

  function TodoBefore(): (Task, Task) -> bool {
    (a, b) => TodoCompare(a, b) < 0
  }

  /** `filteredTodos.sort(comparator)`, stable. */
  function SortTodos(s: seq<Task>): (r: seq<Task>)
    ensures multiset(r) == multiset(s)
  {
    Sorting.Sort(TodoBefore(), s)
  }

  /** The todos of class `k`, in their original order. */
  function OfClass(s: seq<Task>, k: int): (r: seq<Task>)
    ensures forall i :: 0 <= i < |r| ==> Rank(r[i]) == k
  {
    if s == [] then []
    else (if Rank(s[0]) == k then [s[0]] else []) + OfClass(s[1..], k)
  }

  lemma OfClassCons(h: Task, t: seq<Task>, k: int)
    ensures OfClass([h] + t, k) == (if Rank(h) == k then [h] else []) + OfClass(t, k)
  {
    assert ([h] + t)[1..] == t;
  }

  /** The classes from `k` on, each in its original order, one after the other. */
  function Classes(s: seq<Task>, k: nat): seq<Task>
    decreases 6 - k
  {
    if k >= 6 then [] else OfClass(s, k) + Classes(s, k + 1)
  }

  predicate RankSorted(s: seq<Task>) {
    forall i, j :: 0 <= i < j < |s| ==> Rank(s[i]) <= Rank(s[j])
  }

  /** Two prefixes of which one is empty can be swapped. */
  lemma SwapAroundEmpty<T>(a: seq<T>, b: seq<T>, r: seq<T>)
    requires a == [] || b == []
    ensures a + (b + r) == b + (a + r)
  {
    if a == [] {
      assert a + (b + r) == b + r;
      assert a + r == r;
    } else {
      assert b + r == r;
      assert b + (a + r) == a + r;
    }
  }

  /** Inserting a todo leaves every class as if the todo had been put first. */
  lemma {:induction false} InsertKeepsClasses(x: Task, t: seq<Task>, k: int)
    ensures OfClass(Sorting.Insert(TodoBefore(), x, t), k) == OfClass([x] + t, k)
    decreases |t|
  {
    if t == [] {
      assert [x] + t == [x];
    } else if TodoBefore()(t[0], x) {
      var h, rest := t[0], t[1..];
      var ins := Sorting.Insert(TodoBefore(), x, rest);
      CompareIsRank(h, x);
      var ch := if Rank(h) == k then [h] else [];
      var cx := if Rank(x) == k then [x] else [];
      assert ch == [] || cx == [];
      calc {
        OfClass(Sorting.Insert(TodoBefore(), x, t), k);
        OfClass([h] + ins, k);
        { OfClassCons(h, ins, k); }
        ch + OfClass(ins, k);
        { InsertKeepsClasses(x, rest, k); }
        ch + OfClass([x] + rest, k);
        { OfClassCons(x, rest, k); }
        ch + (cx + OfClass(rest, k));
        { SwapAroundEmpty(ch, cx, OfClass(rest, k)); }
        cx + (ch + OfClass(rest, k));
        { OfClassCons(h, rest, k); assert t == [h] + rest; }
        cx + OfClass(t, k);
        { OfClassCons(x, t, k); }
        OfClass([x] + t, k);
      }
    }
  }

  /** The sort is stable: each class keeps its original order. */
  lemma {:induction false} SortKeepsClasses(s: seq<Task>, k: int)
    ensures OfClass(SortTodos(s), k) == OfClass(s, k)
    decreases |s|
  {
    if s != [] {
      var rest := Sorting.Sort(TodoBefore(), s[1..]);
      InsertKeepsClasses(s[0], rest, k);
      SortKeepsClasses(s[1..], k);
      OfClassCons(s[0], rest, k);
      OfClassCons(s[0], s[1..], k);
      assert s == [s[0]] + s[1..];
    }
  }

  lemma {:induction false} InsertRankSorted(x: Task, t: seq<Task>)
    requires RankSorted(t)
    ensures RankSorted(Sorting.Insert(TodoBefore(), x, t))
    decreases |t|
  {
    CompareIsRank(if t == [] then x else t[0], x);
    if t != [] && TodoBefore()(t[0], x) {
      InsertRankSorted(x, t[1..]);
      var r := Sorting.Insert(TodoBefore(), x, t[1..]);
      assert multiset(r) == multiset(t[1..]) + multiset{x};
      forall j | 0 <= j < |r|
        ensures Rank(t[0]) <= Rank(r[j])
      {
        assert r[j] in multiset(r);
        if r[j] != x {
          var m := Sorting.InElements(r[j], t[1..]);
          assert t[1..][m] == t[m + 1];
        }
      }
    }
  }

  /** Sorted todos never have a later one in an earlier class. */
  lemma {:induction false} SortRankSorted(s: seq<Task>)
    ensures RankSorted(SortTodos(s))
    decreases |s|
  {
    if s != [] {
      SortRankSorted(s[1..]);
      InsertRankSorted(s[0], Sorting.Sort(TodoBefore(), s[1..]));
    }
  }

  /** A class below every member of a list is empty in it. */
  lemma {:induction false} MissingClassEmpty(s: seq<Task>, k: int)
    requires forall i :: 0 <= i < |s| ==> Rank(s[i]) != k
    ensures OfClass(s, k) == []
    decreases |s|
  {
    if s != [] {
      MissingClassEmpty(s[1..], k);
    }
  }

  /** Classes from `k` on ignore a first todo of a lower class. */
  lemma {:induction false} ClassesSkipLower(h: Task, t: seq<Task>, k: nat)
    requires Rank(h) < k
    ensures Classes([h] + t, k) == Classes(t, k)
  {
    forall j | k <= j < 6
      ensures OfClass([h] + t, j) == OfClass(t, j)
    {
      OfClassCons(h, t, j);
    }
    ClassesAgree([h] + t, t, k);
  }

  /** Classes with the same members from `k` on give the same list. */
  lemma {:induction false} ClassesAgree(a: seq<Task>, b: seq<Task>, k: nat)
    requires forall j :: k <= j < 6 ==> OfClass(a, j) == OfClass(b, j)
    ensures Classes(a, k) == Classes(b, k)
    decreases 6 - k
  {
    if k < 6 {
      ClassesAgree(a, b, k + 1);
    }
  }

  /** A first todo of class `k` comes first among the classes from `k` on. */
  lemma {:induction false} ClassesCons(h: Task, t: seq<Task>, k: nat)
    requires Rank(h) == k
    ensures Classes([h] + t, k) == [h] + Classes(t, k)
  {
    calc {
      Classes([h] + t, k);
      OfClass([h] + t, k) + Classes([h] + t, k + 1);
      { OfClassCons(h, t, k); }
      ([h] + OfClass(t, k)) + Classes([h] + t, k + 1);
      { ClassesSkipLower(h, t, k + 1); }
      ([h] + OfClass(t, k)) + Classes(t, k + 1);
      [h] + (OfClass(t, k) + Classes(t, k + 1));
      [h] + Classes(t, k);
    }
  }

  /** A list sorted by class, all from class `k` on, is its classes laid end to end. */
  lemma {:induction false} SortedIsClasses(s: seq<Task>, k: nat)
    requires RankSorted(s)
    requires forall i :: 0 <= i < |s| ==> k <= Rank(s[i])
    ensures s == Classes(s, k)
    decreases |s| + 6 - k
  {
    if s == [] {
      if k < 6 {
        SortedIsClasses(s, k + 1);
      }
    } else if Rank(s[0]) == k {
      SortedIsClasses(s[1..], k);
      ClassesCons(s[0], s[1..], k);
      assert s == [s[0]] + s[1..];
    } else {
      MissingClassEmpty(s, k);
      SortedIsClasses(s, k + 1);
    }
  }

  /**
   * The sorted todos are the incomplete high, medium and low ones, then the
   * completed high, medium and low ones, each group in its original order.
   */
  lemma SortTodosIsClasses(s: seq<Task>)
    ensures SortTodos(s) == Classes(s, 0)
  {
    var r := SortTodos(s);
    SortRankSorted(s);
    SortedIsClasses(r, 0);
    forall j | 0 <= j < 6
      ensures OfClass(r, j) == OfClass(s, j)
    {
      SortKeepsClasses(s, j);
    }
    ClassesAgree(r, s, 0);
  }

  /** Sorting sorted todos changes nothing: a second `updateTodosList` keeps the order. */
  lemma SortTodosIdempotent(s: seq<Task>)
    ensures SortTodos(SortTodos(s)) == SortTodos(s)
  {
    var r := SortTodos(s);
    SortRankSorted(s);
    SortedIsClasses(r, 0);
    SortTodosIsClasses(r);
  }

  /**
   * Todos are in sorted order exactly when no todo of a later class comes
   * before one of an earlier class.
   */
  lemma RankSortedIsSorted(s: seq<Task>)
    ensures RankSorted(s) <==> s == SortTodos(s)
  {
    SortRankSorted(s);
    if RankSorted(s) {
      SortedIsClasses(s, 0);
      SortTodosIsClasses(s);
    }
  }

  /**
   * In sorted todos an incomplete one never follows a completed one, and
   * among the same completion state priority never rises.
   */
  lemma SortTodosOrder(s: seq<Task>)
    ensures var r := SortTodos(s);
      forall i, j :: 0 <= i < j < |r| ==>
        (r[i].completed ==> r[j].completed) &&
        (r[i].completed == r[j].completed ==> Weight(r[i].priority) >= Weight(r[j].priority))
  {
    SortRankSorted(s);
  }

  /** The index of the first task with the id, as `find` looks it up. */
  function FirstWithId(s: seq<Task>, id: int): (r: Option<nat>)
    ensures r.Some? ==> r.value < |s| && s[r.value].id == id && forall j :: 0 <= j < r.value ==> s[j].id != id
    ensures r.None? ==> forall j :: 0 <= j < |s| ==> s[j].id != id
  {
    if s == [] then None
    else if s[0].id == id then Some(0)
    else
      match FirstWithId(s[1..], id)
      case None => None
      case Some(i) => Some(i + 1)
  }

  /** `completeTodo`/`completeAssignment`: the first task with the id becomes completed. */
  function CompleteById(s: seq<Task>, id: int): (r: seq<Task>)
    ensures |r| == |s|
    ensures forall j :: 0 <= j < |s| && s[j].id != id ==> r[j] == s[j]
    ensures FirstWithId(s, id).Some? ==>
      forall j :: 0 <= j < |s| && j != FirstWithId(s, id).value ==> r[j] == s[j]
    ensures forall j :: 0 <= j < |s| ==> r[j].(completed := s[j].completed) == s[j]
    ensures forall j :: 0 <= j < |s| && s[j].completed ==> r[j].completed
    ensures (exists j :: 0 <= j < |s| && s[j].id == id) ==>
      r[FirstWithId(s, id).value].completed
    ensures (forall j :: 0 <= j < |s| ==> s[j].id != id) ==> r == s
  {
    match FirstWithId(s, id)
    case None => s
    case Some(i) => s[i := s[i].(completed := true)]
  }

  /** Completing twice is completing once. */
  lemma CompleteByIdIdempotent(s: seq<Task>, id: int)
    ensures CompleteById(CompleteById(s, id), id) == CompleteById(s, id)
  {
    var r := CompleteById(s, id);
    match FirstWithId(s, id)
    case None =>
    case Some(i) =>
      assert r[i].id == id;
      assert forall j :: 0 <= j < i ==> r[j].id != id;
  }

  function OtherId(id: int): Task -> bool {
    (t: Task) => t.id != id
  }

  /** `deleteTodo`/`deleteAssignment`: drop every task with the id, keep the rest in order. */
  function RemoveId(s: seq<Task>, id: int): (r: seq<Task>)
    ensures forall j :: 0 <= j < |r| ==> r[j].id != id && r[j] in s
    ensures forall j :: 0 <= j < |s| && s[j].id != id ==> s[j] in r
    ensures IsSubsequence(r, s)
    ensures forall x :: multiset(r)[x] == if x.id != id then multiset(s)[x] else 0
  {
    FilterIsSubsequence(OtherId(id), s);
    forall x ensures multiset(Filter(OtherId(id), s))[x] == if x.id != id then multiset(s)[x] else 0 {
      FilterMultiset(OtherId(id), s, x);
    }
    Filter(OtherId(id), s)
  }

  function WithPriority(p: Priority): Task -> bool {
    (t: Task) => t.priority == p
  }
}
