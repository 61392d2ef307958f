/** GET /api/invites/validate: decide whether an invite code may be used.
    The invites table is consulted first; the codes stored on
    house_groups rows are a fallback for codes issued before that table. */
module InvitesValidate {
  import opened Base
  import opened JsText
  import opened Types
  import Query

  /** `RequiresCode` is the 400 reply "code required"; the other two are
      `success: true` replies with `valid` false or true. */
  datatype Validation =
    | RequiresCode
    | Invalid(reason: string)
    | Valid(houseGroupId: Option<GroupId>, groupInviteCode: Option<string>)

  const Revoked := "revoked"
  const Used := "used"
  const Expired := "expired"
  const NotFound := "not_found"

  /** `(searchParams.get("code") || "").toUpperCase()`. */
  function NormalizedCode(code: Option<string>): (c: string)
    ensures |c| == if code.Some? then |code.value| else 0
  {
    ToUpper(if code.Some? then code.value else "")
  }

  /** `.from("invites").select().eq("code", c).single()`. */
  function InviteRow(invites: seq<Invite>, c: string): (r: Option<Invite>)
    ensures r.Some? ==> r.value in invites && r.value.code == c
    ensures r.Some? <==> Query.Count(invites, (i: Invite) => i.code == c) == 1
  {
    Query.Single(invites, (i: Invite) => i.code == c)
  }

  /** `.from("house_groups").select("id, invite_code").eq("invite_code", c).single()`. */
  function LegacyRow(groups: seq<HouseGroup>, c: string): (r: Option<HouseGroup>)
    ensures r.Some? ==> r.value in groups && r.value.inviteCode == c
    ensures r.Some? <==> Query.Count(groups, (g: HouseGroup) => g.inviteCode == c) == 1
  {
    Query.Single(groups, (g: HouseGroup) => g.inviteCode == c)
  }

  /** `.from("house_groups").select("invite_code").eq("id", gid).single()`;
      a null group id matches no row. */
  function OwnGroupRow(groups: seq<HouseGroup>, gid: Option<GroupId>): (r: Option<HouseGroup>)
    ensures r.Some? ==> r.value in groups && gid == Some(r.value.id)
  {
    Query.Single(groups, (g: HouseGroup) => gid == Some(g.id))
  }

  /** `invite.expires_at && new Date(invite.expires_at) < new Date()`. */
  predicate IsExpired(inv: Invite, now: int)
  {
    inv.expiresAt.Some? && inv.expiresAt.value < now
  }

  /** A found row is usable when it is neither revoked, used nor expired. */
  predicate Usable(inv: Invite, now: int)
  {
    !inv.revoked && !Truthy(inv.usedBy) && !IsExpired(inv, now)
  }

  /** The decision for a found invite row: the first failing check wins. */
  function RowVerdict(inv: Invite, groups: seq<HouseGroup>, now: int): (r: Validation)
    ensures r.Invalid? <==> !Usable(inv, now)
    ensures r == Invalid(Revoked) <==> inv.revoked
    ensures r == Invalid(Used) <==> !inv.revoked && Truthy(inv.usedBy)
    ensures r == Invalid(Expired) <==> !inv.revoked && !Truthy(inv.usedBy) && IsExpired(inv, now)
    ensures r.Valid? ==> r.houseGroupId == inv.houseGroupId
    ensures r.Valid? ==> (r.groupInviteCode.Some? <==> OwnGroupRow(groups, inv.houseGroupId).Some? && OwnGroupRow(groups, inv.houseGroupId).value.inviteCode != "")
    ensures r.Valid? && r.groupInviteCode.Some? ==> r.groupInviteCode == Some(OwnGroupRow(groups, inv.houseGroupId).value.inviteCode)
  {
    if inv.revoked then Invalid(Revoked)
    else if Truthy(inv.usedBy) then Invalid(Used)
    else if IsExpired(inv, now) then Invalid(Expired)
    else
      var group := OwnGroupRow(groups, inv.houseGroupId);
      var groupCode := if group.Some? && group.value.inviteCode != "" then Some(group.value.inviteCode) else None;
      Valid(inv.houseGroupId, groupCode)
  }

  /** The handler. */
  function ValidateInvite(code: Option<string>, invites: seq<Invite>, groups: seq<HouseGroup>, now: int): (r: Validation)
    ensures r.RequiresCode? <==> NormalizedCode(code) == ""
    ensures r.Invalid? ==> r.reason in {Revoked, Used, Expired, NotFound}
    ensures NormalizedCode(code) != "" && InviteRow(invites, NormalizedCode(code)).Some? ==>
      r == RowVerdict(InviteRow(invites, NormalizedCode(code)).value, groups, now)
    ensures NormalizedCode(code) != "" && InviteRow(invites, NormalizedCode(code)).None? ==>
      (r.Valid? <==> LegacyRow(groups, NormalizedCode(code)).Some?)
    ensures NormalizedCode(code) != "" && InviteRow(invites, NormalizedCode(code)).None? && r.Valid? ==>
      r.houseGroupId == Some(LegacyRow(groups, NormalizedCode(code)).value.id) && r.groupInviteCode == Some(NormalizedCode(code))
  {
    var c := NormalizedCode(code);
    if c == "" then RequiresCode
    else
      var row := InviteRow(invites, c);
      if row.Some? then RowVerdict(row.value, groups, now)
      else
        var legacy := LegacyRow(groups, c);
        if legacy.Some? then Valid(Some(legacy.value.id), Some(legacy.value.inviteCode))
        else Invalid(NotFound)
  }

  /** A code that passes names a usable invite row, or, when no invite row
      matches, the one house group whose own code it is. */
  lemma {:induction false} ValidMeansUsable(code: Option<string>, invites: seq<Invite>, groups: seq<HouseGroup>, now: int)
    requires ValidateInvite(code, invites, groups, now).Valid?
    ensures var c := NormalizedCode(code);
      (InviteRow(invites, c).Some? && Usable(InviteRow(invites, c).value, now))
      || (InviteRow(invites, c).None? && LegacyRow(groups, c).Some?
          && ValidateInvite(code, invites, groups, now).houseGroupId == Some(LegacyRow(groups, c).value.id))
  {
    var c := NormalizedCode(code);
    var row := InviteRow(invites, c);
    if row.Some? {
      assert ValidateInvite(code, invites, groups, now) == RowVerdict(row.value, groups, now);
    }
  }

  /** A revoked, used or expired invite row is never rescued by a group
      whose legacy code is the same text. */
  lemma NoLegacyRescue(code: Option<string>, invites: seq<Invite>, groups: seq<HouseGroup>, now: int)
    requires NormalizedCode(code) != ""
    requires InviteRow(invites, NormalizedCode(code)).Some?
    requires !Usable(InviteRow(invites, NormalizedCode(code)).value, now)
    ensures ValidateInvite(code, invites, groups, now).Invalid?
    ensures ValidateInvite(code, invites, groups, now).reason != NotFound
  {
  }

  /** An invite whose expiry is exactly now, or later, is not expired. */
  lemma ExpiryIsStrict(inv: Invite, groups: seq<HouseGroup>, now: int)
    requires !inv.revoked && !Truthy(inv.usedBy)
    requires inv.expiresAt.None? || inv.expiresAt.value >= now
    ensures RowVerdict(inv, groups, now).Valid?
  {
  }

  /** The lookup ignores letter case: a code and its upper-case form get
      the same answer. */
  lemma {:induction false} CaseInsensitive(s: string, invites: seq<Invite>, groups: seq<HouseGroup>, now: int)
    ensures ValidateInvite(Some(s), invites, groups, now) == ValidateInvite(Some(ToUpper(s)), invites, groups, now)
  {
    assert ToUpper(ToUpper(s)) == ToUpper(s) by {
      forall i | 0 <= i < |s|
        ensures UpperChar(UpperChar(s[i])) == UpperChar(s[i])
      {
      }
    }
  }
}
