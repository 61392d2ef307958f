/** GET /api/dashboard/stats: task counts for the caller's view of the
    house group, and for admins the member and open-request counts. */
module DashboardStats {
  import opened Base
  import opened Types
  import Query
  import Session

  datatype AdminExtras = AdminExtras(totalMembers: nat, pendingRequests: nat)

  datatype Stats = Stats(
    totalTasks: nat,
    pendingTasks: nat,
    completedTasks: nat,
    verifiedTasks: nat,
    overdueTasks: nat,
    extras: Option<AdminExtras>)

  /** The tasks counted: the group's, and for a member only those assigned
      to the member. */
  predicate Counted(t: Task, caller: User)
  {
    SameGroup(t.houseGroupId, caller.houseGroupId)
    && (caller.role != Admin ==> t.assignedTo == Some(caller.id))
  }

  predicate HasStatus(t: Task, s: TaskStatus) { t.status == s }

  /** `t.status === "pending" && new Date(t.deadline) < now`; `toMillis`
      parses the stored deadline text, `None` for an invalid date, which
      compares false. */
  predicate OverduePending(t: Task, toMillis: string -> Option<int>, now: int)
  {
    t.status == Pending && toMillis(t.deadline).Some? && toMillis(t.deadline).value < now
  }

  /** The three statuses partition any list of tasks. */
  lemma {:induction false} StatusPartition(s: seq<Task>)
    ensures Query.Count(s, (t: Task) => HasStatus(t, Pending)) + Query.Count(s, (t: Task) => HasStatus(t, Completed))
      + Query.Count(s, (t: Task) => HasStatus(t, Verified)) == |s|
  {
    if s != [] {
      StatusPartition(s[1..]);
      Query.FilterCons(s, (t: Task) => HasStatus(t, Pending));
      Query.FilterCons(s, (t: Task) => HasStatus(t, Completed));
      Query.FilterCons(s, (t: Task) => HasStatus(t, Verified));
    }
  }

  /** The stats for an identified caller. `tasksFail`, `membersFail` and
      `requestsFail` say that the store reported an error for that query,
      whose data and count then read as null and count as 0. */
  function Compute(
    caller: User, users: seq<User>, tasks: seq<Task>, requests: seq<TaskRequest>,
    toMillis: string -> Option<int>, now: int,
    tasksFail: bool, membersFail: bool, requestsFail: bool): (st: Stats)
    ensures var seen := Query.Filter(tasks, (t: Task) => Counted(t, caller));
      st.totalTasks == (if tasksFail then 0 else |seen|)
      && st.pendingTasks == (if tasksFail then 0 else Query.Count(seen, (t: Task) => HasStatus(t, Pending)))
      && st.completedTasks == (if tasksFail then 0 else Query.Count(seen, (t: Task) => HasStatus(t, Completed)))
      && st.verifiedTasks == (if tasksFail then 0 else Query.Count(seen, (t: Task) => HasStatus(t, Verified)))
      && st.overdueTasks == (if tasksFail then 0 else Query.Count(seen, (t: Task) => OverduePending(t, toMillis, now)))
    ensures st.pendingTasks + st.completedTasks + st.verifiedTasks == st.totalTasks
    ensures st.overdueTasks <= st.pendingTasks
    ensures st.extras.Some? <==> caller.role == Admin
    ensures st.extras.Some? ==>
      st.extras.value.totalMembers == (if membersFail then 0 else Query.Count(users, (u: User) => SameGroup(u.houseGroupId, caller.houseGroupId)))
      && st.extras.value.pendingRequests == (if requestsFail then 0 else Query.Count(requests, (r: TaskRequest) => OpenRequest(r, caller.houseGroupId)))
  {
    var seen := Query.Filter(tasks, (t: Task) => Counted(t, caller));
    StatusPartition(seen);
    Query.CountMono(seen, (t: Task) => HasStatus(t, Pending), (t: Task) => OverduePending(t, toMillis, now));
    var extras :=
      if caller.role == Admin then
        Some(AdminExtras(
          if membersFail then 0 else Query.Count(users, (u: User) => SameGroup(u.houseGroupId, caller.houseGroupId)),
          if requestsFail then 0 else Query.Count(requests, (r: TaskRequest) => OpenRequest(r, caller.houseGroupId))))
      else None;
    if tasksFail then Stats(0, 0, 0, 0, 0, extras)
    else
      Stats(|seen|,
            Query.Count(seen, (t: Task) => HasStatus(t, Pending)),
            Query.Count(seen, (t: Task) => HasStatus(t, Completed)),
            Query.Count(seen, (t: Task) => HasStatus(t, Verified)),
            Query.Count(seen, (t: Task) => OverduePending(t, toMillis, now)),
            extras)
  }

  /** `.eq("house_group_id", g).eq("status", "submitted")`. */
  predicate OpenRequest(r: TaskRequest, g: Option<GroupId>)
  {
    SameGroup(r.houseGroupId, g) && RequestStatusName(r.status) == "submitted"
  }

  /** The handler: the session prelude, then the stats. */
  function GetStats(
    token: Option<string>, resolved: Option<UserId>, users: seq<User>, tasks: seq<Task>,
    requests: seq<TaskRequest>, toMillis: string -> Option<int>, now: int,
    tasksFail: bool, membersFail: bool, requestsFail: bool): (r: Session.Reply<Stats>)
    ensures Session.Profile(token, resolved, users).Fail? ==> r == Session.Forward(Session.Profile(token, resolved, users))
    ensures r.Ok? <==> Session.Profile(token, resolved, users).Ok?
    ensures r.Ok? ==> r.data == Compute(Session.Profile(token, resolved, users).data, users, tasks, requests,
                                        toMillis, now, tasksFail, membersFail, requestsFail)
  {
    var profile := Session.Profile(token, resolved, users);
    if profile.Fail? then Session.Forward(profile)
    else Session.Ok(Compute(profile.data, users, tasks, requests, toMillis, now, tasksFail, membersFail, requestsFail))
  }

  /** A freshly submitted request in the admin's group raises the admin's
      open-request count by exactly one. */
  lemma {:induction false} SubmissionCounted(
    caller: User, users: seq<User>, tasks: seq<Task>, requests: seq<TaskRequest>,
    toMillis: string -> Option<int>, now: int, r: TaskRequest)
    requires caller.role == Admin
    requires r.status == Submitted && SameGroup(r.houseGroupId, caller.houseGroupId)
    ensures Compute(caller, users, tasks, requests + [r], toMillis, now, false, false, false).extras.value.pendingRequests
      == Compute(caller, users, tasks, requests, toMillis, now, false, false, false).extras.value.pendingRequests + 1
  {
    Query.FilterAppend(requests, r, (x: TaskRequest) => OpenRequest(x, caller.houseGroupId));
  }
}
