/** POST and GET /api/invites: an admin issues a one-off invite code for
    the house group, optionally with an e-mail and an expiry, and lists
    the group's invites. */
module Invites {
  import opened Base
  import opened JsText
  import opened Types
  import Query
  import Utils
  import Db
  import Session
  import InvitesValidate

  /** The request body fields the handler reads. `expiresInDays` is the
      JSON number, when one is sent. */
  datatype InviteBody = InviteBody(email: JsonField, expiresInDays: Option<int>)

  /** The inserted row and the registration link returned with it. */
  datatype IssuedInvite = IssuedInvite(invite: Invite, link: string)

  const Forbidden := "Forbidden: admin only"
  const CreateFailed := "Failed to create invite"
  const DefaultOrigin := "http://localhost:3000"
  const RegisterPath := "/auth/register?invite="

  /** `expires_in_days ? now + days * 24 * 60 * 60 * 1000 : null`. */
  function ExpiresAt(days: Option<int>, now: int): (e: Option<int>)
    ensures e.None? <==> days.None? || days.value == 0
    ensures e.Some? ==> e.value == now + days.value * Utils.DayMs
    ensures e.Some? && days.value > 0 ==> e.value > now
  {
    if days.Some? && days.value != 0 then Some(now + days.value * Utils.DayMs) else None
  }

  /** The `users` row the handler looks up, when the caller is an admin:
      no row and a member row are both refused with 403. */
  function AdminRow(uid: UserId, users: seq<User>): (r: Option<User>)
    ensures r.Some? ==> r.value in users && r.value.id == uid && r.value.role == Admin
    ensures r.Some? <==> Db.UserRow(users, uid).Some? && Db.UserRow(users, uid).value.role == Admin
  {
    var row := Db.UserRow(users, uid);
    if row.Some? && row.value.role == Admin then row else None
  }

  /** The link base: the request's `origin` header, else the configured
      public application URL, else the development address. */
  function Origin(originHeader: Option<string>, appUrl: Option<string>): string
  {
    OrElse(originHeader, OrElse(appUrl, DefaultOrigin))
  }

  /** `${origin}/auth/register?invite=${encodeURIComponent(code)}`. */
  function InviteLink(origin: string, code: string): (link: string)
    requires forall i :: 0 <= i < |code| ==> IsAscii(code[i])
    ensures StartsWith(link, origin + RegisterPath)
  {
    var link := origin + RegisterPath + EncodeUriComponent(code);
    assert link[..|origin + RegisterPath|] == origin + RegisterPath;
    link
  }

  /** Everything POST decides before the insert: the replies that refuse
      the request, or the row to insert and the link to return. `code` is
      the generated code, `id` the key the store assigns. */
  function PlanInvite(
    body: InviteBody, token: Option<string>, resolved: Option<UserId>, users: seq<User>,
    code: string, id: string, now: int, originHeader: Option<string>, appUrl: Option<string>): (r: Session.Reply<IssuedInvite>)
    requires forall i :: 0 <= i < |code| ==> IsAsciiUpper(code[i]) || IsAsciiDigit(code[i])
    ensures Session.Authenticate(token, resolved).Fail? ==> r == Session.Forward(Session.Authenticate(token, resolved))
    ensures Session.Authenticate(token, resolved).Ok? && AdminRow(resolved.value, users).None? ==> r == Session.Fail(403, Forbidden)
    ensures r.Ok? <==> Session.Authenticate(token, resolved).Ok? && AdminRow(resolved.value, users).Some?
    ensures r.Ok? ==> var inv := r.data.invite;
      inv.code == code && inv.createdBy == resolved.value
      && inv.houseGroupId == AdminRow(resolved.value, users).value.houseGroupId
      && inv.email == OrNull(body.email) && inv.expiresAt == ExpiresAt(body.expiresInDays, now)
      && inv.usedBy.None? && !inv.revoked && inv.createdAt == now && inv.id == id
    ensures r.Ok? ==> r.data.link == Origin(originHeader, appUrl) + RegisterPath + code
  {
    var auth := Session.Authenticate(token, resolved);
    if auth.Fail? then Session.Forward(auth)
    else
      var row := AdminRow(auth.data, users);
      if row.None? then Session.Fail(403, Forbidden)
      else
        var inv := Invite(id, ToUpper(code), row.value.houseGroupId, auth.data, OrNull(body.email),
                          ExpiresAt(body.expiresInDays, now), None, false, now);
        UpperCodeIsUnreserved(code);
        Session.Ok(IssuedInvite(inv, InviteLink(Origin(originHeader, appUrl), code)))
  }

  /** An upper-case alphanumeric code is its own upper case and its own
      URI encoding. */
  lemma UpperCodeIsUnreserved(code: string)
    requires forall i :: 0 <= i < |code| ==> IsAsciiUpper(code[i]) || IsAsciiDigit(code[i])
    ensures ToUpper(code) == code
    ensures forall i :: 0 <= i < |code| ==> IsAscii(code[i])
    ensures EncodeUriComponent(code) == code
  {
    assert forall i :: 0 <= i < |code| ==> UpperChar(code[i]) == code[i];
    EncodeUnreservedIdentity(code);
  }

  /** POST /api/invites. `draws` are the `Math.random()` values the code
      generator consumes; `insertError` is the store's refusal of the row,
      with its message. */
  method IssueInvite(
    db: Db.Store, body: InviteBody, token: Option<string>, resolved: Option<UserId>,
    draws: seq<real>, id: string, now: int, originHeader: Option<string>, appUrl: Option<string>,
    insertError: Option<string>) returns (reply: Session.Reply<IssuedInvite>)
    requires Utils.ValidDraws(draws)
    modifies db`invites
    ensures var plan := PlanInvite(body, token, resolved, db.users, Utils.InviteCodeFrom(draws), id, now, originHeader, appUrl);
      reply == (if plan.Fail? then plan else if insertError.Some? then Session.Fail(400, OrElse(insertError, CreateFailed)) else plan)
    ensures reply.Ok? ==> db.invites == old(db.invites) + [reply.data.invite]
    ensures reply.Fail? ==> db.invites == old(db.invites)
  {
    var generated := Utils.GenerateInviteCode(draws);
    var code := ToUpper(generated);
    UpperCodeIsUnreserved(generated);
    var plan := PlanInvite(body, token, resolved, db.users, code, id, now, originHeader, appUrl);
    if plan.Fail? {
      return plan;
    }
    if insertError.Some? {
      return Session.Fail(400, OrElse(insertError, CreateFailed));
    }
    db.invites := db.invites + [plan.data.invite];
    reply := plan;
  }

  /** An invite issued into a table where its code was new validates, up
      to and including its expiry time, as a usable invite for the
      issuer's house group. */
  lemma {:induction false} IssuedInviteValidates(
    invites: seq<Invite>, groups: seq<HouseGroup>, inv: Invite, t: int)
    requires |inv.code| > 0
    requires forall i :: 0 <= i < |inv.code| ==> IsAsciiUpper(inv.code[i]) || IsAsciiDigit(inv.code[i])
    requires Query.Count(invites, (i: Invite) => i.code == inv.code) == 0
    requires !inv.revoked && inv.usedBy.None?
    requires inv.expiresAt.None? || t <= inv.expiresAt.value
    ensures InvitesValidate.ValidateInvite(Some(inv.code), invites + [inv], groups, t).Valid?
    ensures InvitesValidate.ValidateInvite(Some(inv.code), invites + [inv], groups, t).houseGroupId == inv.houseGroupId
  {
    UpperCodeIsUnreserved(inv.code);
    var p := (i: Invite) => i.code == inv.code;
    Query.FilterAppend(invites, inv, p);
    assert InvitesValidate.NormalizedCode(Some(inv.code)) == inv.code;
    assert InvitesValidate.InviteRow(invites + [inv], inv.code) == Some(inv);
  }

  /** GET: the caller's group's invites, newest first. `fetchError` is the
      store's error message, when it reports one. */
  function ListInvites(
    token: Option<string>, resolved: Option<UserId>, users: seq<User>, invites: seq<Invite>,
    fetchError: Option<string>): (r: Session.Reply<seq<Invite>>)
    ensures Session.Authenticate(token, resolved).Fail? ==> r == Session.Forward(Session.Authenticate(token, resolved))
    ensures Session.Authenticate(token, resolved).Ok? && AdminRow(resolved.value, users).None? ==> r == Session.Fail(403, "Forbidden")
    ensures Session.Authenticate(token, resolved).Ok? && AdminRow(resolved.value, users).Some? && fetchError.Some?
      ==> r == Session.Fail(400, fetchError.value)
    ensures r.Fail? ==> r.status in {400, 401, 403}
    ensures r.Ok? ==> Session.Authenticate(token, resolved).Ok? && AdminRow(resolved.value, users).Some? && fetchError.None?
    ensures r.Ok? ==> var g := AdminRow(resolved.value, users).value.houseGroupId;
      (forall i :: 0 <= i < |r.data| ==> SameGroup(r.data[i].houseGroupId, g))
      && (forall x :: x in invites && SameGroup(x.houseGroupId, g) ==> x in r.data)
      && multiset(r.data) == multiset(Query.Filter(invites, (x: Invite) => SameGroup(x.houseGroupId, g)))
      && Query.SortedDesc(r.data, InviteCreatedAt)
  {
    var auth := Session.Authenticate(token, resolved);
    if auth.Fail? then Session.Forward(auth)
    else
      var row := AdminRow(auth.data, users);
      if row.None? then Session.Fail(403, "Forbidden")
      else if fetchError.Some? then Session.Fail(400, fetchError.value)
      else
        var g := row.value.houseGroupId;
        Session.Ok(Query.FilterSorted(invites, (x: Invite) => SameGroup(x.houseGroupId, g), InviteCreatedAt))
  }
}
