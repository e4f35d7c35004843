/** The action of app/routes/tasks.tsx: the `_action` form field picks one of
    `new`, `edit`, `delete` and `toggle`, the other fields are normalised,
    and the matching store operation runs. The action always answers `null`. */
module TasksRoute {
  import opened Wrappers
  import opened Db
  import opened Forms
  import opened Auth

  /** `new`: the priority field cast unchecked, `"medium"` when it is absent
      or empty. */
  function NewTaskPriority(form: Form): (p: Priority)
    ensures !Truthy(Field(form, "priority")) ==> p == Medium
    ensures Truthy(Field(form, "priority")) ==> PriorityText(p) == Field(form, "priority").value
    ensures Truthy(Field(form, "priority")) ==> p == ParsePriority(Field(form, "priority").value)
  {
    var v := Field(form, "priority");
    if Truthy(v) then ParsePriority(v.value) else Medium
  }

  /** `edit`: the priority field cast with no default, so an absent field
      leaves the priority alone and any text, even an empty one, is written. */
  function EditPriority(form: Form): (p: Option<Priority>)
    ensures p.None? <==> Field(form, "priority").None?
    ensures p.Some? ==> PriorityText(p.value) == Field(form, "priority").value
    ensures p.Some? ==> p.value == ParsePriority(Field(form, "priority").value)
  {
    match Field(form, "priority")
    case None => None
    case Some(s) => Some(ParsePriority(s))
  }

  /** The `toggle` branch, written the same way in the home page's action:
      with a task id, `completed` becomes "the field is exactly `true`". */
  function Toggled(tasks: seq<Task>, form: Form): (r: seq<Task>)
    ensures |r| == |tasks|
    ensures forall j :: 0 <= j < |tasks| ==> r[j] == tasks[j].(completed := r[j].completed)
    ensures forall j :: 0 <= j < |tasks| && r[j] != tasks[j] ==>
              Truthy(Field(form, "taskId")) && FindTaskIndex(tasks, Field(form, "taskId").value) == Some(j) &&
              r[j].completed == IsTrue(form, "completed")
  {
    var taskId := Field(form, "taskId");
    if Truthy(taskId) then Updated(tasks, taskId.value, Patch(None, Some(IsTrue(form, "completed")), None))
    else tasks
  }

  /** The task array after the action, once the session user is known. No
      action invents an id other than `freshId`, which goes to a task of the
      session user, and none changes the owner of a task. */
  function Effect(tasks: seq<Task>, userId: string, form: Form, freshId: string): (r: seq<Task>)
    ensures forall j :: 0 <= j < |r| ==>
              (r[j].id == freshId && r[j].userId == userId) ||
              exists k :: 0 <= k < |tasks| && tasks[k].id == r[j].id && tasks[k].userId == r[j].userId
  {
    var action := Field(form, "_action");
    if action == Some("new") then
      var title := Field(form, "title").GetOr("");
      if HasText(title) then tasks + [Task(freshId, userId, title, false, NewTaskPriority(form))]
      else tasks
    else if action == Some("edit") then
      var taskId := Field(form, "taskId");
      var title := Field(form, "updatedTitle");
      if Truthy(taskId) && title.Some? && HasText(title.value) then
        Updated(tasks, taskId.value, Patch(title, None, EditPriority(form)))
      else tasks
    else if action == Some("delete") then
      var taskId := Field(form, "taskId");
      if Truthy(taskId) then Without(tasks, taskId.value) else tasks
    else if action == Some("toggle") then
      Toggled(tasks, form)
    else
      tasks
  }

  /** The route's action: the session guard, then the dispatch on `_action`.
      `freshId` is the id `crypto.randomUUID` gives a new task. */
  method Action(db: Store, session: Session, form: Form, freshId: string) returns (r: Response)
    requires db.Valid()
    requires forall t :: t in db.tasks ==> t.id != freshId
    modifies db
    ensures db.Valid() && db.users == old(db.users)
    ensures RequireUserId(session).Failure? ==>
              r == RequireUserId(session).error && db.tasks == old(db.tasks)
    ensures RequireUserId(session).Success? ==>
              r == Null && db.tasks == Effect(old(db.tasks), RequireUserId(session).value, form, freshId)
  {
    var guard := RequireUserId(session);
    if guard.Failure? {
      return guard.error;
    }
    var userId := guard.value;
    var action := Field(form, "_action");
    if action == Some("new") {
      var newTitle := Field(form, "title").GetOr("");
      var priority := NewTaskPriority(form);
      if HasText(newTitle) {
        var _ := db.AddTask(userId, newTitle, Some(priority), freshId);
      }
    } else if action == Some("edit") {
      var taskId := Field(form, "taskId");
      var updatedTitle := Field(form, "updatedTitle");
      var priority := EditPriority(form);
      if Truthy(taskId) && updatedTitle.Some? && HasText(updatedTitle.value) {
        var _ := db.UpdateTask(taskId.value, updatedTitle, None, priority);
      }
    } else if action == Some("delete") {
      var taskId := Field(form, "taskId");
      if Truthy(taskId) {
        db.DeleteTask(taskId.value);
      }
    } else if action == Some("toggle") {
      var taskId := Field(form, "taskId");
      var completed := IsTrue(form, "completed");
      if Truthy(taskId) {
        var _ := db.UpdateTask(taskId.value, None, Some(completed), None);
      }
    }
    r := Null;
  }

  // ---------------------------------------------------------------------------
  // What each branch does

  /** `new` with a title that has text: the session user's list gains one
      incomplete task at the end, titled with the untrimmed field, and every
      other user's list is unchanged. */
  lemma NewTaskListed(tasks: seq<Task>, userId: string, form: Form, freshId: string, viewer: string)
    requires Field(form, "_action") == Some("new")
    requires HasText(Field(form, "title").GetOr(""))
    ensures GetTasksForUser(Effect(tasks, userId, form, freshId), viewer) ==
              GetTasksForUser(tasks, viewer) +
              (if viewer == userId then [Task(freshId, userId, Field(form, "title").value, false, NewTaskPriority(form))] else [])
  {
    var t := Task(freshId, userId, Field(form, "title").GetOr(""), false, NewTaskPriority(form));
    AddedTaskListed(tasks, t, viewer);
  }

  /** `new` with a missing title, or one made only of characters `trim`
      removes, adds nothing. */
  lemma NewBlankTitleIgnored(tasks: seq<Task>, userId: string, form: Form, freshId: string)
    requires Field(form, "_action") == Some("new")
    requires forall i :: 0 <= i < |Field(form, "title").GetOr("")| ==> IsTrimmable(Field(form, "title").GetOr("")[i])
    ensures Effect(tasks, userId, form, freshId) == tasks
  {
  }

  /** `edit` writes title and priority only: ids, owners and completion of
      every task stay, and with no priority field every priority stays. */
  lemma EditKeepsCompletion(tasks: seq<Task>, userId: string, form: Form, freshId: string)
    requires Field(form, "_action") == Some("edit")
    ensures |Effect(tasks, userId, form, freshId)| == |tasks|
    ensures forall j :: 0 <= j < |tasks| ==>
              var t := Effect(tasks, userId, form, freshId)[j];
              t.id == tasks[j].id && t.userId == tasks[j].userId && t.completed == tasks[j].completed
    ensures Field(form, "priority").None? ==>
              forall j :: 0 <= j < |tasks| ==> Effect(tasks, userId, form, freshId)[j].priority == tasks[j].priority
  {
    var r := Effect(tasks, userId, form, freshId);
    var taskId := Field(form, "taskId");
    var title := Field(form, "updatedTitle");
    if Truthy(taskId) && title.Some? && HasText(title.value) {
      var p := Patch(title, None, EditPriority(form));
      UpdatedKeepsUnpatched(tasks, taskId.value, p);
      assert r == Updated(tasks, taskId.value, p);
    } else {
      assert r == tasks;
    }
  }

  /** `edit` with a task id and a title that has text gives the first task
      with that id the untrimmed title. */
  lemma EditSetsTitle(tasks: seq<Task>, userId: string, form: Form, freshId: string, i: nat)
    requires Field(form, "_action") == Some("edit")
    requires Truthy(Field(form, "taskId"))
    requires Field(form, "updatedTitle").Some? && HasText(Field(form, "updatedTitle").value)
    requires FindTaskIndex(tasks, Field(form, "taskId").value) == Some(i)
    ensures Effect(tasks, userId, form, freshId)[i].title == Field(form, "updatedTitle").value
  {
  }

  /** `edit` without a task id, or without a title that has text, changes
      nothing. */
  lemma EditBlankIgnored(tasks: seq<Task>, userId: string, form: Form, freshId: string)
    requires Field(form, "_action") == Some("edit")
    requires !Truthy(Field(form, "taskId")) || !HasText(Field(form, "updatedTitle").GetOr(""))
    ensures Effect(tasks, userId, form, freshId) == tasks
  {
  }

  /** `edit` with a task id, a title that has text and a priority field writes
      that field, cast unchecked, to the first task with the id. */
  lemma EditSetsPriority(tasks: seq<Task>, userId: string, form: Form, freshId: string, i: nat)
    requires Field(form, "_action") == Some("edit")
    requires Truthy(Field(form, "taskId"))
    requires Field(form, "updatedTitle").Some? && HasText(Field(form, "updatedTitle").value)
    requires Field(form, "priority").Some?
    requires FindTaskIndex(tasks, Field(form, "taskId").value) == Some(i)
    ensures Effect(tasks, userId, form, freshId)[i].priority == ParsePriority(Field(form, "priority").value)
  {
  }

  /** `delete` with a task id leaves no task with that id and keeps the
      others; without one it changes nothing. */
  lemma DeleteRemovesTask(tasks: seq<Task>, userId: string, form: Form, freshId: string)
    requires Field(form, "_action") == Some("delete")
    ensures Truthy(Field(form, "taskId")) ==>
              forall t :: t in Effect(tasks, userId, form, freshId) <==> t in tasks && t.id != Field(form, "taskId").value
    ensures !Truthy(Field(form, "taskId")) ==> Effect(tasks, userId, form, freshId) == tasks
  {
  }

  /** `toggle` sets `completed` on the first task with the given id to
      whether the field is exactly `"true"`, and leaves every other position,
      a later task with the same id included, as it was. */
  lemma ToggleOnlyCompleted(tasks: seq<Task>, form: Form)
    ensures forall i :: Truthy(Field(form, "taskId")) && FindTaskIndex(tasks, Field(form, "taskId").value) == Some(i) ==>
              Toggled(tasks, form)[i].completed == IsTrue(form, "completed")
    ensures forall j :: 0 <= j < |tasks| && (!Truthy(Field(form, "taskId")) || FindTaskIndex(tasks, Field(form, "taskId").value) != Some(j)) ==>
              Toggled(tasks, form)[j] == tasks[j]
  {
  }

  /** Any `_action` other than the four leaves the store as it was. */
  lemma UnknownActionIgnored(tasks: seq<Task>, userId: string, form: Form, freshId: string)
    requires Field(form, "_action") !in {Some("new"), Some("edit"), Some("delete"), Some("toggle")}
    ensures Effect(tasks, userId, form, freshId) == tasks
  {
  }

  /** `edit`, `delete` and `toggle` find the task by id alone: what they do
      does not depend on who is signed in. */
  lemma NoOwnershipCheck(tasks: seq<Task>, alice: string, bob: string, form: Form, freshId: string)
    requires Field(form, "_action") != Some("new")
    ensures Effect(tasks, alice, form, freshId) == Effect(tasks, bob, form, freshId)
  {
  }
}
