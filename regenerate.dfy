/** POST /api/house-group/regenerate: an admin replaces the house group's
    invite code with a freshly generated one. */
module Regenerate {
  import opened Base
  import opened Types
  import Query
  import Utils
  import Db
  import Session
  import InvitesValidate

  const NotInGroup := "User not in a house group"
  const AdminsOnly := "Only admins can regenerate invite code"
  const UpdateFailed := "Failed to regenerate code"

  /** The checks before the update: the token, then a users row with a
      house group (404 otherwise), then the admin role (403). The result
      is the group to update. */
  function Guard(token: Option<string>, resolved: Option<UserId>, users: seq<User>): (r: Session.Reply<GroupId>)
    ensures Session.Authenticate(token, resolved).Fail? ==> r == Session.Forward(Session.Authenticate(token, resolved))
    ensures r.Fail? ==> r.status in {401, 403, 404}
    ensures (Session.Authenticate(token, resolved).Ok? && !(Db.UserRow(users, resolved.value).Some?
               && Truthy(Db.UserRow(users, resolved.value).value.houseGroupId)))
      ==> r == Session.Fail(404, NotInGroup)
    ensures r.Ok? <==> (Session.Authenticate(token, resolved).Ok? && Db.UserRow(users, resolved.value).Some?
      && Truthy(Db.UserRow(users, resolved.value).value.houseGroupId) && Db.UserRow(users, resolved.value).value.role == Admin)
    ensures r.Ok? ==> Db.UserRow(users, resolved.value).value.houseGroupId == Some(r.data)
  {
    var auth := Session.Authenticate(token, resolved);
    if auth.Fail? then Session.Forward(auth)
    else
      var row := Db.UserRow(users, auth.data);
      if row.None? || !Truthy(row.value.houseGroupId) then Session.Fail(404, NotInGroup)
      else if row.value.role != Admin then Session.Fail(403, AdminsOnly)
      else Session.Ok(row.value.houseGroupId.value)
  }

  /** `.update({ invite_code: code }).eq("id", gid)`. */
  function ReplaceCode(groups: seq<HouseGroup>, gid: GroupId, code: string): (r: seq<HouseGroup>)
    ensures |r| == |groups|
    ensures forall i :: 0 <= i < |r| ==> r[i] == if groups[i].id == gid then groups[i].(inviteCode := code) else groups[i]
  {
    seq(|groups|, i requires 0 <= i < |groups| => if groups[i].id == gid then groups[i].(inviteCode := code) else groups[i])
  }

  /** The reply: the updated group row and the number of its members. */
  datatype Regenerated = Regenerated(group: HouseGroup, memberCount: nat)

  /** The handler. `draws` feed the code generator; `updateFails` and
      `countFails` say that the store reported an error for the update or
      for the member count (which then reads 0). */
  method RegenerateCode(
    db: Db.Store, token: Option<string>, resolved: Option<UserId>, draws: seq<real>,
    updateFails: bool, countFails: bool) returns (reply: Session.Reply<Regenerated>)
    requires Utils.ValidDraws(draws)
    modifies db`groups
    ensures var guard := Guard(token, resolved, db.users);
      guard.Fail? ==> reply == Session.Forward(guard)
    ensures var guard := Guard(token, resolved, db.users);
      db.groups == (if guard.Ok? && !updateFails then ReplaceCode(old(db.groups), guard.data, Utils.InviteCodeFrom(draws))
                    else old(db.groups))
    ensures var guard := Guard(token, resolved, db.users);
      reply.Ok? <==> guard.Ok? && !updateFails && Db.GroupRow(db.groups, guard.data).Some?
    ensures var guard := Guard(token, resolved, db.users);
      reply.Ok? ==> (reply.data.group == Db.GroupRow(db.groups, guard.data).value
        && reply.data.group.inviteCode == Utils.InviteCodeFrom(draws)
        && reply.data.memberCount == (if countFails then 0
             else Query.Count(db.users, (u: User) => SameGroup(u.houseGroupId, Some(guard.data)))))
    ensures reply.Fail? ==> reply.status in {401, 403, 404, 500}
    ensures old(db.Valid()) ==> db.Valid()
  {
    var guard := Guard(token, resolved, db.users);
    if guard.Fail? {
      return Session.Forward(guard);
    }
    var gid := guard.data;
    var code := Utils.GenerateInviteCode(draws);
    if updateFails {
      return Session.Fail(500, UpdateFailed);
    }
    db.groups := ReplaceCode(db.groups, gid, code);
    var row := Db.GroupRow(db.groups, gid);
    if row.None? {
      return Session.Fail(500, UpdateFailed);
    }
    var members := if countFails then 0 else Query.Count(db.users, (u: User) => SameGroup(u.houseGroupId, Some(gid)));
    reply := Session.Ok(Regenerated(row.value, members));
  }

  /** Once the code is replaced, a code no other group holds finds the
      regenerated group through the legacy lookup, and the group no longer
      answers to its old code. */
  lemma {:induction false} NewCodeFindsGroup(groups: seq<HouseGroup>, k: nat, code: string)
    requires Db.UniqueGroupIds(groups) && k < |groups|
    requires forall i :: 0 <= i < |groups| && i != k ==> groups[i].inviteCode != code
    requires code != groups[k].inviteCode
    ensures var after := ReplaceCode(groups, groups[k].id, code);
      InvitesValidate.LegacyRow(after, code) == Some(groups[k].(inviteCode := code))
      && forall i :: 0 <= i < |after| && after[i].id == groups[k].id ==> after[i].inviteCode != groups[k].inviteCode
  {
    var after := ReplaceCode(groups, groups[k].id, code);
    Query.FilterOnly(after, k, (g: HouseGroup) => g.inviteCode == code);
  }

  /** Only the caller's group changes: every other group keeps its code. */
  lemma OthersKept(groups: seq<HouseGroup>, gid: GroupId, code: string)
    ensures forall i :: 0 <= i < |groups| && groups[i].id != gid ==> ReplaceCode(groups, gid, code)[i] == groups[i]
    ensures forall i :: 0 <= i < |groups| ==> ReplaceCode(groups, gid, code)[i].id == groups[i].id
  {
  }
}
