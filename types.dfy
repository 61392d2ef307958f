/** The rows of the five tables (users, house_groups, invites, tasks,
    task_requests); timestamps the server assigns are milliseconds since
    the epoch. */
module Types {
  import opened Base

  type UserId = string
  type GroupId = string

  datatype Role = Admin | Member

  datatype TaskStatus = Pending | Completed | Verified

  /** The request statuses as the route handlers write and count them. */
  datatype RequestStatus = Submitted | Approved | Rejected

  function TaskStatusName(s: TaskStatus): string
  {
    match s
    case Pending => "pending"
    case Completed => "completed"
    case Verified => "verified"
  }

  function RequestStatusName(s: RequestStatus): string
  {
    match s
    case Submitted => "submitted"
    case Approved => "approved"
    case Rejected => "rejected"
  }

  datatype User = User(
    id: UserId,
    fullName: Option<string>,
    email: string,
    avatarUrl: Option<string>,
    houseGroupId: Option<GroupId>,
    role: Role,
    createdAt: int)

  datatype HouseGroup = HouseGroup(
    id: GroupId,
    name: string,
    inviteCode: string,
    createdBy: Option<UserId>,
    createdAt: int)

  datatype Invite = Invite(
    id: string,
    code: string,
    houseGroupId: Option<GroupId>,
    createdBy: UserId,
    email: Option<string>,
    expiresAt: Option<int>,
    usedBy: Option<UserId>,
    revoked: bool,
    createdAt: int)

  /** `deadline` is the stored text of the timestamp, as the client sent it. */
  datatype Task = Task(
    id: string,
    houseGroupId: Option<GroupId>,
    title: string,
    description: Option<string>,
    assignedTo: Option<UserId>,
    createdBy: Option<UserId>,
    deadline: string,
    status: TaskStatus,
    proofImageUrl: Option<string>,
    createdAt: int,
    updatedAt: int)

  datatype TaskRequest = TaskRequest(
    id: string,
    houseGroupId: Option<GroupId>,
    requestedBy: UserId,
    title: string,
    description: Option<string>,
    assignedTo: Option<string>,
    deadline: Option<string>,
    status: RequestStatus,
    rejectionReason: Option<string>,
    reviewedAt: Option<int>,
    reviewedBy: Option<UserId>,
    createdAt: int)

  /** `.eq("house_group_id", g)`: SQL equality, so a null `g` matches no row. */
  predicate SameGroup(rowGroup: Option<GroupId>, g: Option<GroupId>)
  {
    g.Some? && rowGroup == g
  }

  function TaskCreatedAt(t: Task): int { t.createdAt }
  function RequestCreatedAt(r: TaskRequest): int { r.createdAt }
  function InviteCreatedAt(i: Invite): int { i.createdAt }
}
