/** GET /api/user/stats: counts over every task assigned to the caller,
    in any house group. */
module UserStats {
  import opened Base
  import opened Types
  import Query
  import Session

  datatype UserTaskStats = UserTaskStats(totalTasks: nat, completedTasks: nat, verifiedTasks: nat)

  /** A task counts as completed once it is completed or verified. */
  predicate Done(t: Task) { t.status == Completed || t.status == Verified }

  predicate IsVerified(t: Task) { t.status == Verified }

  /** The counts over the caller's tasks; when the fetch fails the handler
      logs the error and every count reads 0. */
  function CountTasks(uid: UserId, tasks: seq<Task>, fetchFails: bool): (st: UserTaskStats)
    ensures var mine := Query.Filter(tasks, (t: Task) => t.assignedTo == Some(uid));
      st == (if fetchFails then UserTaskStats(0, 0, 0)
             else UserTaskStats(|mine|, Query.Count(mine, Done), Query.Count(mine, IsVerified)))
    ensures st.verifiedTasks <= st.completedTasks <= st.totalTasks
  {
    var mine := Query.Filter(tasks, (t: Task) => t.assignedTo == Some(uid));
    Query.CountMono(mine, Done, IsVerified);
    if fetchFails then UserTaskStats(0, 0, 0)
    else UserTaskStats(|mine|, Query.Count(mine, Done), Query.Count(mine, IsVerified))
  }

  /** The handler: only the token is checked; no users row is needed. */
  function GetUserStats(token: Option<string>, resolved: Option<UserId>, tasks: seq<Task>, fetchFails: bool)
    : (r: Session.Reply<UserTaskStats>)
    ensures Session.Authenticate(token, resolved).Fail? ==> r == Session.Forward(Session.Authenticate(token, resolved))
    ensures r.Fail? ==> r.status == 401
    ensures r.Ok? <==> Session.Authenticate(token, resolved).Ok?
    ensures r.Ok? ==> r.data == CountTasks(resolved.value, tasks, fetchFails)
  {
    var auth := Session.Authenticate(token, resolved);
    if auth.Fail? then Session.Forward(auth) else Session.Ok(CountTasks(auth.data, tasks, fetchFails))
  }

  /** The counts ignore house groups: moving a task to another group, or
      to none, leaves the caller's stats unchanged. */
  lemma {:induction false} GroupIgnored(uid: UserId, tasks: seq<Task>, k: nat, g: Option<GroupId>, fetchFails: bool)
    requires k < |tasks|
    ensures CountTasks(uid, tasks[k := tasks[k].(houseGroupId := g)], fetchFails) == CountTasks(uid, tasks, fetchFails)
  {
    var moved := tasks[k := tasks[k].(houseGroupId := g)];
    var p := (t: Task) => t.assignedTo == Some(uid);
    MovedFilter(tasks, k, g, p);
    var mine := Query.Filter(tasks, p);
    var mine2 := Query.Filter(moved, p);
    SameStatusCount(mine, mine2, Done);
    SameStatusCount(mine, mine2, IsVerified);
  }

  /** Changing a task's group keeps the filtered list the same up to the
      group field. */
  lemma {:induction false} MovedFilter(tasks: seq<Task>, k: nat, g: Option<GroupId>, p: Task -> bool)
    requires k < |tasks|
    requires forall t :: p(t) == p(t.(houseGroupId := g))
    ensures var a := Query.Filter(tasks, p);
      var b := Query.Filter(tasks[k := tasks[k].(houseGroupId := g)], p);
      |a| == |b| && forall i :: 0 <= i < |a| ==> a[i].status == b[i].status
  {
    var moved := tasks[k := tasks[k].(houseGroupId := g)];
    Query.FilterCons(tasks, p);
    Query.FilterCons(moved, p);
    if k > 0 {
      assert moved[1..] == tasks[1..][k - 1 := tasks[k].(houseGroupId := g)];
      MovedFilter(tasks[1..], k - 1, g, p);
    } else {
      assert moved[1..] == tasks[1..];
    }
  }

  /** Lists that agree status by status have the same status counts. */
  lemma {:induction false} SameStatusCount(a: seq<Task>, b: seq<Task>, p: Task -> bool)
    requires |a| == |b| && forall i :: 0 <= i < |a| ==> a[i].status == b[i].status
    requires forall t: Task, u: Task :: t.status == u.status ==> p(t) == p(u)
    ensures Query.Count(a, p) == Query.Count(b, p)
  {
    if a != [] {
      SameStatusCount(a[1..], b[1..], p);
      Query.FilterCons(a, p);
      Query.FilterCons(b, p);
    }
  }
}
