/** GET and POST /api/task-requests: list the house group's task
    requests as the caller may see them, and let any member submit one. */
module TaskRequests {
  import opened Base
  import opened Types
  import Query
  import Db
  import Session

  /** Members see only their own requests; admins see the whole group's. */
  predicate Visible(r: TaskRequest, caller: User, status: Option<string>)
  {
    SameGroup(r.houseGroupId, caller.houseGroupId)
    && (Truthy(status) ==> RequestStatusName(r.status) == status.value)
    && (caller.role != Admin ==> r.requestedBy == caller.id)
  }

  const FetchFailed := "Failed to fetch requests"

  /** GET /api/task-requests, with the `status` query parameter as sent. */
  function ListRequests(
    token: Option<string>, resolved: Option<UserId>, users: seq<User>, requests: seq<TaskRequest>,
    status: Option<string>, fetchFails: bool): (r: Session.Reply<seq<TaskRequest>>)
    ensures Session.Profile(token, resolved, users).Fail? ==> r == Session.Forward(Session.Profile(token, resolved, users))
    ensures Session.Profile(token, resolved, users).Ok? && fetchFails ==> r == Session.Fail(500, FetchFailed)
    ensures r.Ok? <==> Session.Profile(token, resolved, users).Ok? && !fetchFails
    ensures r.Ok? ==> var caller := Session.Profile(token, resolved, users).data;
      (forall i :: 0 <= i < |r.data| ==> SameGroup(r.data[i].houseGroupId, caller.houseGroupId))
      && (Truthy(status) ==> forall i :: 0 <= i < |r.data| ==> RequestStatusName(r.data[i].status) == status.value)
      && (caller.role != Admin ==> forall i :: 0 <= i < |r.data| ==> r.data[i].requestedBy == caller.id)
      && (forall x :: x in requests && Visible(x, caller, status) ==> x in r.data)
      && multiset(r.data) == multiset(Query.Filter(requests, (x: TaskRequest) => Visible(x, caller, status)))
      && Query.SortedDesc(r.data, RequestCreatedAt)
  {
    var profile := Session.Profile(token, resolved, users);
    if profile.Fail? then Session.Forward(profile)
    else if fetchFails then Session.Fail(500, FetchFailed)
    else
      var caller := profile.data;
      Session.Ok(Query.FilterSorted(requests, (x: TaskRequest) => Visible(x, caller, status), RequestCreatedAt))
  }

  /** The fields POST reads from the JSON body. */
  datatype RequestBody = RequestBody(title: JsonField, description: JsonField, assignedTo: JsonField, deadline: JsonField)

  const TitleRequired := "Title is required"
  const CreateFailed := "Failed to create task request"

  /** The row POST inserts: `description || null`, but `assigned_to ?? null`
      and `deadline ?? null`. */
  function NewRequest(caller: User, body: RequestBody, id: string, now: int): (r: TaskRequest)
    requires FieldTruthy(body.title)
    ensures r.status == Submitted && r.requestedBy == caller.id && r.houseGroupId == caller.houseGroupId
    ensures r.title == body.title.text
    ensures r.description == (if FieldTruthy(body.description) then Some(body.description.text) else None)
    ensures r.assignedTo == (if body.assignedTo.Text? then Some(body.assignedTo.text) else None)
    ensures r.deadline == (if body.deadline.Text? then Some(body.deadline.text) else None)
    ensures r.rejectionReason.None? && r.reviewedAt.None? && r.reviewedBy.None?
  {
    TaskRequest(id, caller.houseGroupId, caller.id, body.title.text, OrNull(body.description),
                OrNullish(body.assignedTo), OrNullish(body.deadline), Submitted, None, None, None, now)
  }

  /** An empty description is dropped, while an empty assignee or deadline
      is stored as the empty text. */
  lemma EmptyTextKept(caller: User, title: string, id: string, now: int)
    requires title != ""
    ensures var r := NewRequest(caller, RequestBody(Text(title), Text(""), Text(""), Text("")), id, now);
      r.description.None? && r.assignedTo == Some("") && r.deadline == Some("")
  {
  }

  /** Everything POST decides before the insert: any caller with a users
      row may submit, with no role check. */
  function PlanRequest(
    token: Option<string>, resolved: Option<UserId>, users: seq<User>, body: RequestBody,
    id: string, now: int): (r: Session.Reply<TaskRequest>)
    ensures Session.Profile(token, resolved, users).Fail? ==> r == Session.Forward(Session.Profile(token, resolved, users))
    ensures Session.Profile(token, resolved, users).Ok? && !FieldTruthy(body.title) ==> r == Session.Fail(400, TitleRequired)
    ensures r.Ok? <==> Session.Profile(token, resolved, users).Ok? && FieldTruthy(body.title)
    ensures r.Ok? ==> r.data == NewRequest(Session.Profile(token, resolved, users).data, body, id, now)
  {
    var profile := Session.Profile(token, resolved, users);
    if profile.Fail? then Session.Forward(profile)
    else if !FieldTruthy(body.title) then Session.Fail(400, TitleRequired)
    else Session.Ok(NewRequest(profile.data, body, id, now))
  }

  /** POST /api/task-requests. `insertFails` says the store refused the row. */
  method SubmitRequest(
    db: Db.Store, token: Option<string>, resolved: Option<UserId>, body: RequestBody,
    id: string, now: int, insertFails: bool) returns (reply: Session.Reply<TaskRequest>)
    modifies db`requests
    ensures var plan := PlanRequest(token, resolved, db.users, body, id, now);
      reply == (if plan.Ok? && insertFails then Session.Fail(500, CreateFailed) else plan)
    ensures reply.Ok? ==> db.requests == old(db.requests) + [reply.data]
    ensures reply.Fail? ==> db.requests == old(db.requests)
  {
    reply := PlanRequest(token, resolved, db.users, body, id, now);
    if reply.Fail? {
      return;
    }
    if insertFails {
      reply := Session.Fail(500, CreateFailed);
      return;
    }
    db.requests := db.requests + [reply.data];
  }

  /** A request submitted by a member of a house group shows up in that
      member's own listing of submitted requests. */
  lemma {:induction false} SubmittedRequestListed(
    token: Option<string>, resolved: Option<UserId>, users: seq<User>, requests: seq<TaskRequest>,
    body: RequestBody, id: string, now: int)
    requires PlanRequest(token, resolved, users, body, id, now).Ok?
    requires Session.Profile(token, resolved, users).data.houseGroupId.Some?
    ensures var r := PlanRequest(token, resolved, users, body, id, now).data;
      var listed := ListRequests(token, resolved, users, requests + [r], Some("submitted"), false);
      listed.Ok? && r in listed.data
  {
    var r := PlanRequest(token, resolved, users, body, id, now).data;
    assert r in requests + [r];
  }
}
