/** The in-memory store of app/utils/db.server.ts: two process-wide arrays,
    `users` and `tasks`, the queries that read them and the operations that
    change them in place. */
module Db {
  import opened Wrappers
  import opened Seqs

  /** A task's priority. The type annotation allows only the three names,
      but the request handlers cast any form string to it unchecked, so a
      stored priority may be any other string, kept verbatim in `Unlisted`. */
  datatype Priority = High | Medium | Low | Unlisted(text: string)

  /** The string the store actually holds. */
  function PriorityText(p: Priority): string {
    match p
    case High => "high"
    case Medium => "medium"
    case Low => "low"
    case Unlisted(s) => s
  }

  /** The unchecked `as Task['priority']` cast of a form string. */
  function ParsePriority(s: string): (p: Priority)
    ensures PriorityText(p) == s
    ensures p.Unlisted? <==> s != "high" && s != "medium" && s != "low"
  {
    if s == "high" then High
    else if s == "medium" then Medium
    else if s == "low" then Low
    else Unlisted(s)
  }

  datatype Task = Task(id: string, userId: string, title: string, completed: bool, priority: Priority)

  datatype User = User(id: string, username: string, passwordHash: string)

  /** What `createUser` hands back: the record without its hash. */
  datatype NewUser = NewUser(id: string, username: string)

  type Salt = nat

  /** The password-hashing primitive (bcrypt in the application): `hash`
      salts and hashes a password, `matches` compares a password with a
      stored hash. */
  datatype Hasher = Hasher(hash: (string, Salt) -> string, matches: (string, string) -> bool)

  /** A hasher accepts every password against a hash made from it. */
  ghost predicate Sound(h: Hasher) {
    forall password, salt :: h.matches(password, h.hash(password, salt))
  }

  // ---------------------------------------------------------------------------
  // Queries: pure reads of the two arrays

  function HasUsername(username: string): User -> bool {
    (u: User) => u.username == username
  }

  /** `users.find(u => u.username === username)`: the first user with exactly
      that username. */
  function FindUserByUsername(users: seq<User>, username: string): (r: Option<User>)
    ensures r.Some? ==> r.value.username == username
    ensures r.Some? ==> exists i :: 0 <= i < |users| && users[i] == r.value && FirstIndex(users, HasUsername(username)) == Some(i)
    ensures r.None? <==> forall i :: 0 <= i < |users| ==> users[i].username != username
  {
    match FirstIndex(users, HasUsername(username))
    case None => None
    case Some(i) => Some(users[i])
  }

  /** The user with that username, if the password matches its stored hash;
      nothing otherwise, whichever check failed. */
  function ValidateUserPassword(users: seq<User>, h: Hasher, username: string, password: string): (r: Option<User>)
    ensures r.Some? <==>
              FindUserByUsername(users, username).Some? &&
              h.matches(password, FindUserByUsername(users, username).value.passwordHash)
    ensures r.Some? ==> r == FindUserByUsername(users, username)
  {
    match FindUserByUsername(users, username)
    case None => None
    case Some(user) => if h.matches(password, user.passwordHash) then Some(user) else None
  }

  function OwnedBy(userId: string): Task -> bool {
    (t: Task) => t.userId == userId
  }

  /** `tasks.filter(t => t.userId === userId)`: exactly that user's tasks, each
      as often as it is stored. */
  function GetTasksForUser(tasks: seq<Task>, userId: string): (r: seq<Task>)
    ensures forall t :: t in r <==> t in tasks && t.userId == userId
    ensures forall t :: multiset(r)[t] == if t.userId == userId then multiset(tasks)[t] else 0
  {
    FilterMultiset(tasks, OwnedBy(userId));
    Filter(tasks, OwnedBy(userId))
  }

  /** Listing keeps store order: the tasks of a concatenation are the tasks of
      each part, one after the other. */
  lemma GetTasksForUserConcat(a: seq<Task>, b: seq<Task>, userId: string)
    ensures GetTasksForUser(a + b, userId) == GetTasksForUser(a, userId) + GetTasksForUser(b, userId)
  {
    FilterConcat(a, b, OwnedBy(userId));
  }

  /** After a task is appended, its owner's list gains exactly that task at the
      end and every other user's list is as before. */
  lemma {:induction false} AddedTaskListed(tasks: seq<Task>, t: Task, userId: string)
    ensures GetTasksForUser(tasks + [t], userId) ==
              GetTasksForUser(tasks, userId) + (if t.userId == userId then [t] else [])
  {
    GetTasksForUserConcat(tasks, [t], userId);
    assert [t][1..] == [];
  }

  function HasId(id: string): Task -> bool {
    (t: Task) => t.id == id
  }

  /** `tasks.findIndex(t => t.id === taskId)`. */
  function FindTaskIndex(tasks: seq<Task>, id: string): (r: Option<nat>)
    ensures r.Some? ==> r.value < |tasks| && tasks[r.value].id == id
    ensures r.Some? ==> forall j :: 0 <= j < r.value ==> tasks[j].id != id
    ensures r.None? <==> forall j :: 0 <= j < |tasks| ==> tasks[j].id != id
  {
    FirstIndex(tasks, HasId(id))
  }

  /** The optional arguments of `updateTask`: a field is written only when given. */
  datatype Patch = Patch(title: Option<string>, completed: Option<bool>, priority: Option<Priority>)

  function ApplyPatch(t: Task, p: Patch): (r: Task)
    ensures r.id == t.id && r.userId == t.userId
    ensures r.title == (if p.title.Some? then p.title.value else t.title)
    ensures r.completed == (if p.completed.Some? then p.completed.value else t.completed)
    ensures r.priority == (if p.priority.Some? then p.priority.value else t.priority)
  {
    var t1 := if p.title.Some? then t.(title := p.title.value) else t;
    var t2 := if p.completed.Some? then t1.(completed := p.completed.value) else t1;
    if p.priority.Some? then t2.(priority := p.priority.value) else t2
  }

  /** The task array after `updateTask(id, ...)`: only the first task with that
      id is patched; ids, owners and every other task are untouched. */
  function Updated(tasks: seq<Task>, id: string, p: Patch): (r: seq<Task>)
    ensures |r| == |tasks|
    ensures forall j :: 0 <= j < |r| ==> r[j].id == tasks[j].id && r[j].userId == tasks[j].userId
    ensures (forall j :: 0 <= j < |tasks| ==> tasks[j].id != id) ==> r == tasks
    ensures forall i :: 0 <= i < |tasks| && tasks[i].id == id && (forall j :: 0 <= j < i ==> tasks[j].id != id) ==>
              r == tasks[i := ApplyPatch(tasks[i], p)]
  {
    match FindTaskIndex(tasks, id)
    case None => tasks
    case Some(i) => tasks[i := ApplyPatch(tasks[i], p)]
  }

  /** What `updateTask` returns: `null` when no task has the id, otherwise the
      patched record. */
  function UpdateResult(tasks: seq<Task>, id: string, p: Patch): (r: Option<Task>)
    ensures r.None? <==> forall j :: 0 <= j < |tasks| ==> tasks[j].id != id
    ensures r.Some? ==> r.value.id == id
    ensures r.Some? ==> FindTaskIndex(tasks, id).Some? && r.value == Updated(tasks, id, p)[FindTaskIndex(tasks, id).value]
  {
    match FindTaskIndex(tasks, id)
    case None => None
    case Some(i) => Some(ApplyPatch(tasks[i], p))
  }

  /** A field the patch does not give keeps its value in every task. */
  lemma UpdatedKeepsUnpatched(tasks: seq<Task>, id: string, p: Patch)
    ensures p.title.None? ==> forall j :: 0 <= j < |tasks| ==> Updated(tasks, id, p)[j].title == tasks[j].title
    ensures p.completed.None? ==> forall j :: 0 <= j < |tasks| ==> Updated(tasks, id, p)[j].completed == tasks[j].completed
    ensures p.priority.None? ==> forall j :: 0 <= j < |tasks| ==> Updated(tasks, id, p)[j].priority == tasks[j].priority
  {
  }

  /** Patching keeps every id in place, so the id is found at the same index. */
  lemma UpdatedFindsSameIndex(tasks: seq<Task>, id: string, other: string, p: Patch)
    ensures FindTaskIndex(Updated(tasks, id, p), other) == FindTaskIndex(tasks, other)
  {
    FirstIndexPointwise(Updated(tasks, id, p), tasks, HasId(other));
  }

  /** Setting `completed` and then setting it back to what it was restores the
      whole array; title and priority are never touched on the way. */
  lemma ToggleRoundTrip(tasks: seq<Task>, id: string, c: bool, i: nat)
    requires FindTaskIndex(tasks, id) == Some(i)
    ensures Updated(tasks, id, Patch(None, Some(c), None))[i].title == tasks[i].title
    ensures Updated(tasks, id, Patch(None, Some(c), None))[i].priority == tasks[i].priority
    ensures Updated(Updated(tasks, id, Patch(None, Some(c), None)), id, Patch(None, Some(tasks[i].completed), None)) == tasks
  {
  }

  function NotId(id: string): Task -> bool {
    (t: Task) => t.id != id
  }

  /** `tasks.filter(t => t.id !== taskId)`: every task with that id is gone and
      the others keep their order. */
  function Without(tasks: seq<Task>, id: string): (r: seq<Task>)
    ensures forall t :: t in r <==> t in tasks && t.id != id
    ensures forall t: Task :: t.id != id ==> multiset(r)[t] == multiset(tasks)[t]
  {
    FilterMultiset(tasks, NotId(id));
    Filter(tasks, NotId(id))
  }

  /** Deleting keeps store order: deleting from a concatenation deletes from
      each part, one after the other. */
  lemma WithoutConcat(a: seq<Task>, b: seq<Task>, id: string)
    ensures Without(a + b, id) == Without(a, id) + Without(b, id)
  {
    FilterConcat(a, b, NotId(id));
  }

  /** Deleting twice is deleting once. */
  lemma DeleteIdempotent(tasks: seq<Task>, id: string)
    ensures Without(Without(tasks, id), id) == Without(tasks, id)
  {
    FilterIdempotent(tasks, NotId(id));
  }

  /** Deleting an id nobody has is a no-op. */
  lemma DeleteMissing(tasks: seq<Task>, id: string)
    requires forall j :: 0 <= j < |tasks| ==> tasks[j].id != id
    ensures Without(tasks, id) == tasks
  {
    FilterKeepsAll(tasks, NotId(id));
  }

  /** After a delete, updating that id finds nothing and changes nothing. */
  lemma UpdateAfterDelete(tasks: seq<Task>, id: string, p: Patch)
    ensures UpdateResult(Without(tasks, id), id, p) == None
    ensures Updated(Without(tasks, id), id, p) == Without(tasks, id)
  {
  }

  // ---------------------------------------------------------------------------
  // Invariants of the two arrays

  ghost predicate DistinctTaskIds(tasks: seq<Task>) {
    forall i, j :: 0 <= i < j < |tasks| ==> tasks[i].id != tasks[j].id
  }

  ghost predicate DistinctUserIds(users: seq<User>) {
    forall i, j :: 0 <= i < j < |users| ==> users[i].id != users[j].id
  }

  lemma DistinctTail(tasks: seq<Task>)
    requires tasks != [] && DistinctTaskIds(tasks)
    ensures DistinctTaskIds(tasks[1..])
    ensures forall t :: t in tasks[1..] ==> t.id != tasks[0].id
  {
  }

  lemma DistinctCons(head: Task, tail: seq<Task>)
    requires DistinctTaskIds(tail)
    requires forall t :: t in tail ==> t.id != head.id
    ensures DistinctTaskIds([head] + tail)
  {
  }

  /** Removing tasks never creates a duplicate id. */
  lemma {:induction false} WithoutKeepsDistinct(tasks: seq<Task>, id: string)
    requires DistinctTaskIds(tasks)
    ensures DistinctTaskIds(Without(tasks, id))
  {
    if tasks != [] {
      var head, rest := tasks[0], tasks[1..];
      DistinctTail(tasks);
      WithoutKeepsDistinct(rest, id);
      var tail := Without(rest, id);
      assert Without(tasks, id) == (if head.id != id then [head] else []) + tail;
      if head.id != id {
        DistinctCons(head, tail);
      } else {
        assert [] + tail == tail;
      }
    }
  }

  // ---------------------------------------------------------------------------
  // The stateful store

  /** The two module-level arrays. `hasher` stands for bcrypt. */
  class Store {
    var users: seq<User>
    var tasks: seq<Task>
    const hasher: Hasher

    /** Ids come from `crypto.randomUUID`, so none repeats. */
    ghost predicate Valid()
      reads this
    {
      DistinctTaskIds(tasks) && DistinctUserIds(users)
    }

    /** Both arrays start empty when the process starts. */
    constructor (h: Hasher)
      ensures Valid()
      ensures users == [] && tasks == [] && hasher == h
    {
      users, tasks := [], [];
      hasher := h;
    }

    /** `createUser`: appends a user whose stored hash is made from the
        password; the caller supplies the fresh id and the salt. */
    method CreateUser(username: string, password: string, id: string, salt: Salt) returns (u: NewUser)
      requires Valid()
      requires forall x :: x in users ==> x.id != id
      modifies this
      ensures Valid()
      ensures users == old(users) + [User(id, username, hasher.hash(password, salt))]
      ensures tasks == old(tasks)
      ensures u.id == id && u.username == username
    {
      var passwordHash := hasher.hash(password, salt);
      users := users + [User(id, username, passwordHash)];
      u := NewUser(id, username);
    }

    /** `addTask`: appends one incomplete task; `priority` absent means the
        default `'medium'`. */
    method AddTask(userId: string, title: string, priority: Option<Priority>, id: string) returns (t: Task)
      requires Valid()
      requires forall x :: x in tasks ==> x.id != id
      modifies this
      ensures Valid()
      ensures t.id == id && t.userId == userId && t.title == title && !t.completed
      ensures t.priority == priority.GetOr(Medium)
      ensures tasks == old(tasks) + [t]
      ensures users == old(users)
    {
      t := Task(id, userId, title, false, priority.GetOr(Medium));
      tasks := tasks + [t];
    }

    /** `updateTask`: writes the given fields of the first task with that id,
        in place, and returns it; `null` and no change when there is none. */
    method UpdateTask(id: string, title: Option<string>, completed: Option<bool>, priority: Option<Priority>)
      returns (r: Option<Task>)
      requires Valid()
      modifies this
      ensures Valid()
      ensures tasks == Updated(old(tasks), id, Patch(title, completed, priority))
      ensures r == UpdateResult(old(tasks), id, Patch(title, completed, priority))
      ensures users == old(users)
    {
      var idx := FindTaskIndex(tasks, id);
      if idx.None? {
        return None;
      }
      var i := idx.value;
      if title.Some? {
        tasks := tasks[i := tasks[i].(title := title.value)];
      }
      if completed.Some? {
        tasks := tasks[i := tasks[i].(completed := completed.value)];
      }
      if priority.Some? {
        tasks := tasks[i := tasks[i].(priority := priority.value)];
      }
      r := Some(tasks[i]);
    }

    /** `deleteTask`: reassigns `tasks` to the tasks with another id. */
    method DeleteTask(id: string)
      requires Valid()
      modifies this
      ensures Valid()
      ensures tasks == Without(old(tasks), id)
      ensures users == old(users)
    {
      WithoutKeepsDistinct(tasks, id);
      tasks := Without(tasks, id);
    }
  }
}
