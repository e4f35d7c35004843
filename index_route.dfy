/** The home page, app/routes/_index.tsx: its loader lists the signed-in
    user's tasks sorted incomplete first, then high, medium, low priority;
    its action handles `logout` and `toggle`. */
module IndexRoute {
  import opened Wrappers
  import opened Db
  import opened Forms
  import opened Auth
  import TasksRoute

  // ---------------------------------------------------------------------------
  // The comparator

  /** `priorityOrder[p || 'medium']` over `{ high: 0, medium: 1, low: 2 }`:
      the empty string counts as medium, any other unlisted text has no rank
      (the lookup is `undefined`). */
  function Rank(p: Priority): (r: Option<nat>)
    ensures r == Some(0) <==> PriorityText(p) == "high"
    ensures r == Some(1) <==> PriorityText(p) == "medium" || PriorityText(p) == ""
    ensures r == Some(2) <==> PriorityText(p) == "low"
    ensures r.None? <==> PriorityText(p) !in {"", "high", "medium", "low"}
  {
    var key := if PriorityText(p) == "" then "medium" else PriorityText(p);
    if key == "high" then Some(0)
    else if key == "medium" then Some(1)
    else if key == "low" then Some(2)
    else None
  }

  /** A task whose priority has a rank. */
  predicate Known(t: Task) {
    Rank(t.priority).Some?
  }

  predicate AllKnown(s: seq<Task>) {
    forall t :: t in s ==> Known(t)
  }

  /** The order the page promises, stated independently of the comparator:
      incomplete before completed, then by rank. */
  predicate Precedes(a: Task, b: Task)
    requires Known(a) && Known(b)
  {
    (!a.completed && b.completed) ||
    (a.completed == b.completed && Rank(a.priority).value < Rank(b.priority).value)
  }

  predicate SameKey(a: Task, b: Task) {
    a.completed == b.completed && Rank(a.priority) == Rank(b.priority)
  }

  /** A comparator's answer: a number, or NaN when a rank is `undefined`. */
  datatype Comparison = Number(n: int) | NaN

  /** The loader's comparator. */
  function Compare(a: Task, b: Task): (c: Comparison)
    ensures !a.completed && b.completed ==> c.Number? && c.n < 0
    ensures a.completed && !b.completed ==> c.Number? && c.n > 0
    ensures Known(a) && Known(b) ==> c.Number? && (c.n < 0 <==> Precedes(a, b)) && (c.n == 0 <==> SameKey(a, b))
    ensures c.NaN? <==> a.completed == b.completed && !(Known(a) && Known(b))
  {
    if a.completed != b.completed then
      Number(if a.completed then 1 else -1)
    else
      match (Rank(a.priority), Rank(b.priority))
      case (Some(x), Some(y)) => Number(x as int - y as int)
      case _ => NaN
  }

  /** How `Array.prototype.sort` reads the comparator (ECMAScript
      SortCompare): NaN counts as 0. */
  function SortCompare(a: Task, b: Task): (r: int)
    ensures r < 0 <==> (!a.completed && b.completed) ||
                       (a.completed == b.completed && Known(a) && Known(b) && Rank(a.priority).value < Rank(b.priority).value)
    ensures r == 0 <==> a.completed == b.completed && (Rank(a.priority) == Rank(b.priority) || !(Known(a) && Known(b)))
  {
    match Compare(a, b)
    case Number(n) => n
    case NaN => 0
  }

  /** The comparator is antisymmetric for every pair of tasks. */
  lemma CompareAntisymmetric(a: Task, b: Task)
    ensures SortCompare(a, b) == -SortCompare(b, a)
  {
  }

  /** On tasks with a ranked priority the comparator is transitive, so with
      antisymmetry it is a total preorder. */
  lemma CompareTransitive(a: Task, b: Task, c: Task)
    requires Known(a) && Known(b) && Known(c)
    requires SortCompare(a, b) <= 0 && SortCompare(b, c) <= 0
    ensures SortCompare(a, c) <= 0
  {
  }

  /** With an unlisted priority it is not: NaN makes such a task tie with
      both a high and a low one, although low follows high. */
  lemma UnlistedPriorityBreaksTransitivity()
    ensures var high := Task("1", "u", "a", false, High);
            var odd := Task("2", "u", "b", false, Unlisted("urgent"));
            var low := Task("3", "u", "c", false, Low);
            SortCompare(low, odd) == 0 && SortCompare(odd, high) == 0 && SortCompare(low, high) > 0
  {
  }

  // ---------------------------------------------------------------------------
  // Sorting

  /** No pair out of order under the comparator. */
  predicate Sorted(s: seq<Task>) {
    forall i, j :: 0 <= i < j < |s| ==> SortCompare(s[i], s[j]) <= 0
  }

  /** Places `x`, which came before everything in `s`, ahead of the first
      element it does not follow, so ties keep their order. */
  function Insert(x: Task, s: seq<Task>): (r: seq<Task>)
    ensures multiset(r) == multiset(s) + multiset{x}
  {
    if s == [] then [x]
    else if SortCompare(x, s[0]) <= 0 then [x] + s
    else
      assert s == [s[0]] + s[1..];
      [s[0]] + Insert(x, s[1..])
  }

  /** `Array.prototype.sort` with the comparator, a stable sort. */
  function SortTasks(s: seq<Task>): (r: seq<Task>)
    ensures multiset(r) == multiset(s)
  {
    if s == [] then []
    else
      assert s == [s[0]] + s[1..];
      Insert(s[0], SortTasks(s[1..]))
  }

  /** The task placed in front is in order with everything after it. */
  lemma InsertFrontSorted(x: Task, s: seq<Task>)
    requires Known(x) && AllKnown(s) && Sorted(s)
    requires s != [] && SortCompare(x, s[0]) <= 0
    ensures Sorted([x] + s)
  {
    var r := [x] + s;
    forall j | 1 <= j < |r| ensures SortCompare(r[0], r[j]) <= 0 {
      if j > 1 {
        CompareTransitive(x, s[0], s[j - 1]);
      }
    }
  }

  /** The head kept in front is in order with the rest after the insertion. */
  lemma InsertBehindSorted(x: Task, s: seq<Task>, tail: seq<Task>)
    requires Sorted(s) && s != []
    requires SortCompare(s[0], x) <= 0
    requires multiset(tail) == multiset(s[1..]) + multiset{x}
    requires Sorted(tail)
    ensures Sorted([s[0]] + tail)
  {
    var rest := s[1..];
    forall k | 0 <= k < |tail| ensures SortCompare(s[0], tail[k]) <= 0 {
      assert tail[k] in multiset(tail);
      if tail[k] != x {
        assert tail[k] in rest;
        var m :| 0 <= m < |rest| && rest[m] == tail[k];
        assert s[m + 1] == tail[k];
      }
    }
  }

  lemma {:induction false} InsertSorted(x: Task, s: seq<Task>)
    requires Known(x) && AllKnown(s) && Sorted(s)
    ensures Sorted(Insert(x, s))
  {
    if s != [] {
      if SortCompare(x, s[0]) <= 0 {
        InsertFrontSorted(x, s);
      } else {
        var rest := s[1..];
        assert AllKnown(rest) by {
          forall t | t in rest ensures Known(t) {
            assert t in s;
          }
        }
        InsertSorted(x, rest);
        CompareAntisymmetric(x, s[0]);
        InsertBehindSorted(x, s, Insert(x, rest));
      }
    }
  }

  lemma {:induction false} SortTasksSorted(s: seq<Task>)
    requires AllKnown(s)
    ensures Sorted(SortTasks(s))
  {
    if s != [] {
      var rest := s[1..];
      assert AllKnown(rest) by {
        forall t | t in rest ensures Known(t) {
          assert t in s;
        }
      }
      SortTasksSorted(rest);
      var sorted := SortTasks(rest);
      assert AllKnown(sorted) by {
        forall t | t in sorted ensures Known(t) {
          assert t in multiset(sorted);
          assert t in rest;
        }
      }
      InsertSorted(s[0], sorted);
    }
  }

  /** In a sorted list, a task the comparator puts strictly first does come
      first; in particular every incomplete task precedes every completed one. */
  lemma SortedRespectsComparator(s: seq<Task>, i: nat, j: nat)
    requires Sorted(s) && i < |s| && j < |s|
    requires SortCompare(s[i], s[j]) < 0
    ensures i < j
  {
  }

  // ---------------------------------------------------------------------------
  // The loader and the action

  datatype LoaderData = LoaderData(tasks: Option<seq<Task>>, userId: Option<string>)

  /** The loader: nothing when no one is signed in, otherwise the user's
      tasks, sorted. The sort works on the filtered copy, never on the store. */
  function Loader(tasks: seq<Task>, session: Session): (r: LoaderData)
    ensures !Truthy(GetUserId(session)) <==> r == LoaderData(None, None)
    ensures Truthy(GetUserId(session)) ==>
              r.userId == GetUserId(session) && r.tasks.Some? &&
              multiset(r.tasks.value) == multiset(GetTasksForUser(tasks, GetUserId(session).value))
  {
    var userId := GetUserId(session);
    if !Truthy(userId) then LoaderData(None, None)
    else LoaderData(Some(SortTasks(GetTasksForUser(tasks, userId.value))), userId)
  }

  /** When every listed priority has a rank, the loader's list is sorted:
      incomplete first, then high, medium, low. */
  lemma LoaderSorted(tasks: seq<Task>, session: Session)
    requires Truthy(GetUserId(session))
    requires AllKnown(GetTasksForUser(tasks, GetUserId(session).value))
    ensures Sorted(Loader(tasks, session).tasks.value)
    ensures var sorted := Loader(tasks, session).tasks.value;
            forall i, j :: 0 <= i < |sorted| && 0 <= j < |sorted| && !sorted[i].completed && sorted[j].completed ==> i < j
  {
    var mine := GetTasksForUser(tasks, GetUserId(session).value);
    SortTasksSorted(mine);
    var sorted := Loader(tasks, session).tasks.value;
    forall i, j | 0 <= i < |sorted| && 0 <= j < |sorted| && !sorted[i].completed && sorted[j].completed
      ensures i < j
    {
      SortedRespectsComparator(sorted, i, j);
    }
  }

  /** The response to a `logout`: back to the home page, session cleared. */
  const LogoutRedirect: Response := Redirect("/", true)

  /** The home page's action. It has no session guard: `toggle` runs for
      anyone. */
  method Action(db: Store, form: Form) returns (r: Response)
    requires db.Valid()
    modifies db
    ensures db.Valid() && db.users == old(db.users)
    ensures Field(form, "_action") == Some("logout") ==> r == LogoutRedirect && db.tasks == old(db.tasks)
    ensures Field(form, "_action") == Some("toggle") ==> r == Null && db.tasks == TasksRoute.Toggled(old(db.tasks), form)
    ensures Field(form, "_action") !in {Some("logout"), Some("toggle")} ==> r == Null && db.tasks == old(db.tasks)
  {
    var action := Field(form, "_action");
    if action == Some("logout") {
      return LogoutRedirect;
    } else if action == Some("toggle") {
      var taskId := Field(form, "taskId");
      var completed := IsTrue(form, "completed");
      if Truthy(taskId) {
        var _ := db.UpdateTask(taskId.value, None, Some(completed), None);
      }
    }
    r := Null;
  }
}
