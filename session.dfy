/** The prelude every protected route handler runs: read the
    `sb-access-token` cookie, ask the identity provider who it belongs to,
    and (for most handlers) load the caller's users row. */
module Session {
  import opened Base
  import opened Types
  import Db

  /** A handler's JSON reply: `{ success: true, ... }` with its payload, or
      `{ success: false, error }` with an HTTP status. */
  datatype Reply<T> = Ok(data: T) | Fail(status: int, error: string)

  /** The same failure, as a reply of another payload type. */
  function Forward<A, B>(r: Reply<A>): (f: Reply<B>)
    requires r.Fail?
    ensures f.Fail? && f.status == r.status && f.error == r.error
  {
    Fail(r.status, r.error)
  }

  const Unauthorized := "Unauthorized"
  const InvalidToken := "Invalid token"
  const UserNotFound := "User not found"

  /** `request.cookies.get("sb-access-token")?.value` is `token`;
      `resolved` is the account `auth.getUser(token)` answers with, `None`
      for an error or no user. An empty cookie value counts as none. */
  function Authenticate(token: Option<string>, resolved: Option<UserId>): (r: Reply<UserId>)
    ensures r.Ok? <==> Truthy(token) && resolved.Some?
    ensures r.Ok? ==> r.data == resolved.value
    ensures r.Fail? ==> r.status == 401
    ensures !Truthy(token) ==> r.error == Unauthorized
    ensures Truthy(token) && resolved.None? ==> r == Fail(401, InvalidToken)
  {
    if !Truthy(token) then Fail(401, Unauthorized)
    else if resolved.None? then Fail(401, InvalidToken)
    else Ok(resolved.value)
  }

  /** Authentication followed by `.from("users")...eq("id", user.id).single()`;
      a missing row is 404. */
  function Profile(token: Option<string>, resolved: Option<UserId>, users: seq<User>): (r: Reply<User>)
    ensures Authenticate(token, resolved).Fail? ==> r == Forward(Authenticate(token, resolved))
    ensures r.Ok? <==> Authenticate(token, resolved).Ok? && Db.UserRow(users, resolved.value).Some?
    ensures r.Ok? ==> r.data in users && r.data.id == resolved.value
    ensures r.Fail? ==> r.status == 401 || r == Fail(404, UserNotFound)
  {
    var auth := Authenticate(token, resolved);
    if auth.Fail? then Forward(auth)
    else
      var row := Db.UserRow(users, auth.data);
      if row.None? then Fail(404, UserNotFound) else Ok(row.value)
  }

  /** The token is checked before the users table is read: an
      unauthenticated request gets the same reply whatever the table holds. */
  lemma TokenBeforeTable(token: Option<string>, resolved: Option<UserId>, a: seq<User>, b: seq<User>)
    requires Authenticate(token, resolved).Fail?
    ensures Profile(token, resolved, a) == Profile(token, resolved, b)
    ensures Profile(token, resolved, a).status == 401
  {
  }

  /** With unique user ids, an authenticated caller who has a users row
      always gets exactly that row. */
  lemma {:induction false} ProfileFindsRow(token: Option<string>, resolved: Option<UserId>, users: seq<User>, k: nat)
    requires Db.UniqueUserIds(users) && k < |users|
    requires Truthy(token) && resolved == Some(users[k].id)
    ensures Profile(token, resolved, users) == Ok(users[k])
  {
    Db.UserRowFindsPresent(users, k);
  }
}
