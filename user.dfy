/** GET and PUT /api/user: read the caller's own profile, and change its
    name or avatar. */
module UserProfile {
  import opened Base
  import opened Types
  import Query
  import Db
  import Session

  /** The users row with its house group joined in (`house_group:house_groups(*)`),
      null when the row has no group or the group is missing. */
  datatype ProfileView = ProfileView(user: User, houseGroup: Option<HouseGroup>)

  function GroupOf(u: User, groups: seq<HouseGroup>): (g: Option<HouseGroup>)
    ensures g.Some? ==> g.value in groups && u.houseGroupId == Some(g.value.id)
  {
    if u.houseGroupId.None? then None else Db.GroupRow(groups, u.houseGroupId.value)
  }

  /** GET /api/user. */
  function GetProfile(token: Option<string>, resolved: Option<UserId>, users: seq<User>, groups: seq<HouseGroup>)
    : (r: Session.Reply<ProfileView>)
    ensures Session.Profile(token, resolved, users).Fail? ==> r == Session.Forward(Session.Profile(token, resolved, users))
    ensures r.Ok? <==> Session.Profile(token, resolved, users).Ok?
    ensures r.Ok? ==> r.data.user in users && r.data.user.id == resolved.value
    ensures r.Ok? ==> r.data.houseGroup == GroupOf(r.data.user, groups)
    ensures Session.Authenticate(token, resolved).Ok? && r.Fail? ==> r == Session.Fail(404, Session.UserNotFound)
  {
    var profile := Session.Profile(token, resolved, users);
    if profile.Fail? then Session.Forward(profile)
    else Session.Ok(ProfileView(profile.data, GroupOf(profile.data, groups)))
  }

  /** The body fields PUT recognises. */
  datatype ProfileBody = ProfileBody(fullName: JsonField, avatarUrl: JsonField)

  /** A field to overwrite carries its new value (`None` for JSON null);
      a field left alone is `None`. */
  datatype Patch = Patch(fullName: Option<Option<string>>, avatarUrl: Option<Option<string>>)

  /** The value a present body field is stored as. */
  function Stored(f: JsonField): Option<string>
    requires !f.Missing?
  {
    if f.Null? then None else Some(f.text)
  }

  /** `if (body.x !== undefined) updates.x = body.x`, for the two fields:
      null is a value to store, only an absent field is skipped. */
  function PatchFrom(body: ProfileBody): (p: Patch)
    ensures p.fullName.Some? <==> !body.fullName.Missing?
    ensures p.avatarUrl.Some? <==> !body.avatarUrl.Missing?
    ensures p.fullName.Some? ==> p.fullName.value == Stored(body.fullName)
    ensures p.avatarUrl.Some? ==> p.avatarUrl.value == Stored(body.avatarUrl)
  {
    Patch(if body.fullName.Missing? then None else Some(Stored(body.fullName)),
          if body.avatarUrl.Missing? then None else Some(Stored(body.avatarUrl)))
  }

  predicate IsEmpty(p: Patch) { p.fullName.None? && p.avatarUrl.None? }

  /** One row with the patch applied; every other column is kept. */
  function ApplyPatch(u: User, p: Patch): (v: User)
    ensures v.id == u.id && v.email == u.email && v.houseGroupId == u.houseGroupId
    ensures v.role == u.role && v.createdAt == u.createdAt
    ensures v.fullName == (if p.fullName.Some? then p.fullName.value else u.fullName)
    ensures v.avatarUrl == (if p.avatarUrl.Some? then p.avatarUrl.value else u.avatarUrl)
  {
    u.(fullName := if p.fullName.Some? then p.fullName.value else u.fullName,
       avatarUrl := if p.avatarUrl.Some? then p.avatarUrl.value else u.avatarUrl)
  }

  /** `.update(updates).eq("id", uid)`: every row with that id is patched. */
  function PatchRows(users: seq<User>, uid: UserId, p: Patch): (r: seq<User>)
    ensures |r| == |users|
    ensures forall i :: 0 <= i < |r| ==> r[i] == if users[i].id == uid then ApplyPatch(users[i], p) else users[i]
  {
    seq(|users|, i requires 0 <= i < |users| => if users[i].id == uid then ApplyPatch(users[i], p) else users[i])
  }

  /** Patching leaves the ids, and so the users table's key, as they were. */
  lemma PatchKeepsIds(users: seq<User>, uid: UserId, p: Patch)
    ensures Db.UniqueUserIds(users) ==> Db.UniqueUserIds(PatchRows(users, uid, p))
    ensures forall i :: 0 <= i < |users| ==> PatchRows(users, uid, p)[i].id == users[i].id
  {
  }

  /** Applying the same patch twice is applying it once. */
  lemma PatchIdempotent(users: seq<User>, uid: UserId, p: Patch)
    ensures PatchRows(PatchRows(users, uid, p), uid, p) == PatchRows(users, uid, p)
  {
  }

  const NoFields := "No valid fields to update"
  const UpdateFailed := "Failed to update profile"

  /** PUT /api/user. The token is checked before the body is read, and no
      users row is looked up first. `updateFails` says the store reported
      an error for the update itself. The updated row is returned with
      `.single()`, so a caller without a users row gets 500. */
  method UpdateProfile(
    db: Db.Store, token: Option<string>, resolved: Option<UserId>, body: ProfileBody, updateFails: bool)
    returns (reply: Session.Reply<User>)
    modifies db`users
    ensures Session.Authenticate(token, resolved).Fail? ==> reply == Session.Forward(Session.Authenticate(token, resolved))
    ensures Session.Authenticate(token, resolved).Ok? && IsEmpty(PatchFrom(body)) ==> reply == Session.Fail(400, NoFields)
    ensures var go := Session.Authenticate(token, resolved).Ok? && !IsEmpty(PatchFrom(body)) && !updateFails;
      db.users == (if go then PatchRows(old(db.users), resolved.value, PatchFrom(body)) else old(db.users))
    ensures reply.Ok? ==> Session.Authenticate(token, resolved).Ok? && !IsEmpty(PatchFrom(body)) && !updateFails
    ensures reply.Ok? <==> (Session.Authenticate(token, resolved).Ok? && !IsEmpty(PatchFrom(body)) && !updateFails
      && Db.UserRow(db.users, resolved.value).Some?)
    ensures reply.Ok? ==> reply.data == Db.UserRow(db.users, resolved.value).value
    ensures reply.Fail? ==> reply.status in {400, 401, 500}
    ensures old(db.Valid()) ==> db.Valid()
  {
    var auth := Session.Authenticate(token, resolved);
    if auth.Fail? {
      return Session.Forward(auth);
    }
    var patch := PatchFrom(body);
    if IsEmpty(patch) {
      return Session.Fail(400, NoFields);
    }
    if updateFails {
      return Session.Fail(500, UpdateFailed);
    }
    PatchKeepsIds(db.users, auth.data, patch);
    db.users := PatchRows(db.users, auth.data, patch);
    var row := Db.UserRow(db.users, auth.data);
    if row.None? {
      return Session.Fail(500, UpdateFailed);
    }
    reply := Session.Ok(row.value);
  }

  /** With unique ids, the row PUT returns is the caller's row with the
      patch applied, in place: every other row is untouched. */
  lemma {:induction false} UpdateHitsOnlyCaller(users: seq<User>, k: nat, p: Patch)
    requires Db.UniqueUserIds(users) && k < |users|
    ensures var after := PatchRows(users, users[k].id, p);
      after[k] == ApplyPatch(users[k], p)
      && (forall i :: 0 <= i < |users| && i != k ==> after[i] == users[i])
      && Db.UserRow(after, users[k].id) == Some(ApplyPatch(users[k], p))
  {
    var after := PatchRows(users, users[k].id, p);
    PatchKeepsIds(users, users[k].id, p);
    Db.UserRowFindsPresent(after, k);
  }
}
