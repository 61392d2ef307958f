/** GET and POST /api/tasks: list the house group's tasks as the caller
    may see them, and let an admin create a task. */
module Tasks {
  import opened Base
  import opened Types
  import Query
  import Db
  import Session

  /** The `status` and `my_tasks` query parameters, as sent. */
  datatype TaskFilter = TaskFilter(status: Option<string>, myTasks: Option<string>)

  /** The query parameters, with `limit` already read as a whole number. */
  datatype TaskQuery = TaskQuery(limit: Option<nat>, filter: TaskFilter)

  /** Members, and admins asking for `my_tasks=true`, see only tasks
      assigned to themselves. */
  predicate OnlyOwn(caller: User, q: TaskFilter)
  {
    caller.role != Admin || q.myTasks == Some("true")
  }

  /** The row conditions `.eq(...)` adds, one by one. */
  predicate Visible(t: Task, caller: User, q: TaskFilter)
  {
    SameGroup(t.houseGroupId, caller.houseGroupId)
    && (OnlyOwn(caller, q) ==> t.assignedTo == Some(caller.id))
    && (Truthy(q.status) ==> TaskStatusName(t.status) == q.status.value)
  }

  /** The ordered result before `.limit(...)`. */
  function Listed(tasks: seq<Task>, caller: User, q: TaskFilter): (r: seq<Task>)
    ensures forall i :: 0 <= i < |r| ==> Visible(r[i], caller, q)
    ensures multiset(r) == multiset(Query.Filter(tasks, (t: Task) => Visible(t, caller, q)))
    ensures forall t :: t in tasks && Visible(t, caller, q) ==> t in r
    ensures Query.SortedDesc(r, TaskCreatedAt)
  {
    Query.FilterSorted(tasks, (t: Task) => Visible(t, caller, q), TaskCreatedAt)
  }

  const FetchFailed := "Failed to fetch tasks"

  /** GET /api/tasks. `fetchFails` says the store reported an error. */
  function ListTasks(
    token: Option<string>, resolved: Option<UserId>, users: seq<User>, tasks: seq<Task>,
    q: TaskQuery, fetchFails: bool): (r: Session.Reply<seq<Task>>)
    ensures Session.Profile(token, resolved, users).Fail? ==> r == Session.Forward(Session.Profile(token, resolved, users))
    ensures Session.Profile(token, resolved, users).Ok? && fetchFails ==> r == Session.Fail(500, FetchFailed)
    ensures r.Ok? <==> Session.Profile(token, resolved, users).Ok? && !fetchFails
    ensures r.Ok? ==> var caller := Session.Profile(token, resolved, users).data;
      (forall i :: 0 <= i < |r.data| ==> SameGroup(r.data[i].houseGroupId, caller.houseGroupId))
      && (OnlyOwn(caller, q.filter) ==> forall i :: 0 <= i < |r.data| ==> r.data[i].assignedTo == Some(caller.id))
      && (Truthy(q.filter.status) ==> forall i :: 0 <= i < |r.data| ==> TaskStatusName(r.data[i].status) == q.filter.status.value)
      && Query.SortedDesc(r.data, TaskCreatedAt)
      && r.data <= Listed(tasks, caller, q.filter)
      && (q.limit.Some? ==> |r.data| <= q.limit.value)
      && (q.limit.None? ==> forall t :: t in tasks && Visible(t, caller, q.filter) ==> t in r.data)
  {
    var profile := Session.Profile(token, resolved, users);
    if profile.Fail? then Session.Forward(profile)
    else if fetchFails then Session.Fail(500, FetchFailed)
    else
      var all := Listed(tasks, profile.data, q.filter);
      var r := Query.Take(all, q.limit);
      assert forall i :: 0 <= i < |r| ==> r[i] == all[i];
      Session.Ok(r)
  }

  /** A member cannot widen the listing with `my_tasks`: whatever the
      parameter says, a member's listing is the one without it. */
  lemma MemberCannotWiden(tasks: seq<Task>, caller: User, f: TaskFilter)
    requires caller.role == Member
    ensures Listed(tasks, caller, f) == Listed(tasks, caller, f.(myTasks := None))
  {
    var g := f.(myTasks := None);
    assert forall t :: Visible(t, caller, f) == Visible(t, caller, g);
    Query.FilterExt(tasks, (t: Task) => Visible(t, caller, f), (t: Task) => Visible(t, caller, g));
  }

  /** The limit only cuts the ordered listing short: the limited result is
      its first `n` tasks. */
  lemma {:induction false} LimitIsPrefix(
    token: Option<string>, resolved: Option<UserId>, users: seq<User>, tasks: seq<Task>, q: TaskQuery, n: nat)
    requires Session.Profile(token, resolved, users).Ok?
    ensures var caller := Session.Profile(token, resolved, users).data;
      var full := ListTasks(token, resolved, users, tasks, q.(limit := None), false).data;
      ListTasks(token, resolved, users, tasks, q.(limit := Some(n)), false).data
        == if n < |full| then full[..n] else full
  {
  }

  /** The fields POST reads from the JSON body. */
  datatype TaskBody = TaskBody(title: JsonField, description: JsonField, assignedTo: JsonField, deadline: JsonField)

  const AdminsOnly := "Only admins can create tasks"
  const FieldsRequired := "Title, assigned_to, and deadline are required"
  const CreateFailed := "Failed to create task"

  /** The row POST inserts for a request that passes the checks; `id` and
      `now` are the key and timestamp the store assigns. */
  function NewTask(caller: User, body: TaskBody, id: string, now: int): (t: Task)
    requires FieldTruthy(body.title) && FieldTruthy(body.assignedTo) && FieldTruthy(body.deadline)
    ensures t.status == Pending && t.createdBy == Some(caller.id) && t.houseGroupId == caller.houseGroupId
    ensures t.title == body.title.text && t.assignedTo == Some(body.assignedTo.text) && t.deadline == body.deadline.text
    ensures t.description.None? <==> !FieldTruthy(body.description)
    ensures t.description.Some? ==> t.description.value == body.description.text
    ensures t.proofImageUrl.None?
  {
    Task(id, caller.houseGroupId, body.title.text, OrNull(body.description), Some(body.assignedTo.text),
         Some(caller.id), body.deadline.text, Pending, None, now, now)
  }

  /** Everything POST decides before the insert. */
  function PlanTask(
    token: Option<string>, resolved: Option<UserId>, users: seq<User>, body: TaskBody,
    id: string, now: int): (r: Session.Reply<Task>)
    ensures Session.Profile(token, resolved, users).Fail? ==> r == Session.Forward(Session.Profile(token, resolved, users))
    ensures Session.Profile(token, resolved, users).Ok? && Session.Profile(token, resolved, users).data.role != Admin
      ==> r == Session.Fail(403, AdminsOnly)
    ensures Session.Profile(token, resolved, users).Ok? && Session.Profile(token, resolved, users).data.role == Admin
      && !(FieldTruthy(body.title) && FieldTruthy(body.assignedTo) && FieldTruthy(body.deadline))
      ==> r == Session.Fail(400, FieldsRequired)
    ensures r.Ok? <==> (Session.Profile(token, resolved, users).Ok? && Session.Profile(token, resolved, users).data.role == Admin
      && FieldTruthy(body.title) && FieldTruthy(body.assignedTo) && FieldTruthy(body.deadline))
    ensures r.Ok? ==> r.data == NewTask(Session.Profile(token, resolved, users).data, body, id, now)
  {
    var profile := Session.Profile(token, resolved, users);
    if profile.Fail? then Session.Forward(profile)
    else if profile.data.role != Admin then Session.Fail(403, AdminsOnly)
    else if !FieldTruthy(body.title) || !FieldTruthy(body.assignedTo) || !FieldTruthy(body.deadline) then
      Session.Fail(400, FieldsRequired)
    else Session.Ok(NewTask(profile.data, body, id, now))
  }

  /** POST /api/tasks. `insertFails` says the store refused the row. */
  method CreateTask(
    db: Db.Store, token: Option<string>, resolved: Option<UserId>, body: TaskBody,
    id: string, now: int, insertFails: bool) returns (reply: Session.Reply<Task>)
    modifies db`tasks
    ensures var plan := PlanTask(token, resolved, db.users, body, id, now);
      reply == (if plan.Ok? && insertFails then Session.Fail(500, CreateFailed) else plan)
    ensures reply.Ok? ==> db.tasks == old(db.tasks) + [reply.data]
    ensures reply.Fail? ==> db.tasks == old(db.tasks)
  {
    reply := PlanTask(token, resolved, db.users, body, id, now);
    if reply.Fail? {
      return;
    }
    if insertFails {
      reply := Session.Fail(500, CreateFailed);
      return;
    }
    db.tasks := db.tasks + [reply.data];
  }

  /** A task an admin creates is visible in the admin's own listing when
      it is assigned to the admin and no status filter is given. */
  lemma {:induction false} CreatedTaskListed(caller: User, body: TaskBody, id: string, now: int, tasks: seq<Task>)
    requires caller.houseGroupId.Some?
    requires FieldTruthy(body.title) && FieldTruthy(body.assignedTo) && FieldTruthy(body.deadline)
    requires body.assignedTo.text == caller.id
    ensures NewTask(caller, body, id, now) in Listed(tasks + [NewTask(caller, body, id, now)], caller, TaskFilter(None, None))
  {
    var t := NewTask(caller, body, id, now);
    assert t in tasks + [t];
  }
}
