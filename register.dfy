/** POST /api/auth/register: create an identity account, then either
    create a house group (becoming its admin) or join one by its invite
    code (becoming a member), write the users row, sign in and set the
    session cookies. Two failures delete the new account again; the
    others leave it in place. */
module Register {
  import opened Base
  import opened JsText
  import opened Types
  import Query
  import Utils
  import Db
  import Session
  import InvitesValidate
  import Invites

  datatype RegisterBody = RegisterBody(
    fullName: JsonField, email: JsonField, password: JsonField,
    action: JsonField, groupName: JsonField, inviteCode: JsonField)

  /** What a call to the identity provider or the store came back with. */
  datatype Outcome<T> = Success(value: T) | Failure(message: string)

  datatype Tokens = Tokens(access: string, refresh: string)

  /** The answers of the outside calls, in the order the handler makes
      them: the identity provider's `createUser` (the new account id), the
      group insert (the new group id), the users insert (its error, if
      any), the compensating `deleteUser` (whether the provider refused
      it; the handler ignores its answer) and `signInWithPassword` (the
      session tokens). */
  datatype Answers = Answers(
    account: Outcome<UserId>, groupInsert: Outcome<GroupId>,
    userInsert: Option<string>, deleteRefused: bool, signIn: Outcome<Tokens>)

  datatype Cookie = Cookie(
    name: string, value: string, httpOnly: bool, secure: bool,
    sameSite: string, maxAge: nat, path: string)

  /** The success reply: the users row read back, and the cookies set. */
  datatype Registered = Registered(user: Option<User>, cookies: seq<Cookie>)

  /** Where the handler stops. */
  datatype Stop =
    | MissingFields | AccountRefused
    | NoGroupName | GroupInsertFailed
    | NoInviteCode | UnknownCode
    | UserInsertFailed | SignInFailed | Done

  const Incomplete := "data tidak Lengkap"
  const AccountFallback := "Gagal membuat akun"
  const GroupNameRequired := "Nama House Group harus diisi"
  const GroupFallback := "Gagal membuat house group"
  const CodeRequired := "Kode Undangan harus diisi"
  const CodeInvalid := "Kode Undangan tidak valid"
  const UserFallback := "Gagal membuat user"
  const SignInFallback := "Gagal masuk"

  const AccessMaxAge := 60 * 60 * 24 * 7
  const RefreshMaxAge := 60 * 60 * 24 * 30

  predicate HasRequired(b: RegisterBody)
  {
    FieldTruthy(b.fullName) && FieldTruthy(b.email) && FieldTruthy(b.password) && FieldTruthy(b.action)
  }

  /** Only the exact text "create" creates a group; any other action joins. */
  predicate IsCreate(b: RegisterBody) { b.action == Text("create") }

  /** The join branch's lookup: `.eq("invite_code", code.toUpperCase()).single()`. */
  function JoinRow(groups: seq<HouseGroup>, code: string): (r: Option<HouseGroup>)
    ensures r == InvitesValidate.LegacyRow(groups, ToUpper(code))
  {
    InvitesValidate.LegacyRow(groups, ToUpper(code))
  }

  function AfterGroup(a: Answers): Stop
  {
    if a.userInsert.Some? then UserInsertFailed
    else if a.signIn.Failure? then SignInFailed
    else Done
  }

  /** Whether the branch for the action has what it needs: a group name
      and a stored group, or an invite code that finds a group. */
  predicate Placed(b: RegisterBody, groups: seq<HouseGroup>, a: Answers)
  {
    if IsCreate(b) then FieldTruthy(b.groupName) && a.groupInsert.Success?
    else FieldTruthy(b.inviteCode) && JoinRow(groups, b.inviteCode.text).Some?
  }

  /** The decision chain, given what each outside call answers. */
  function StopAt(b: RegisterBody, groups: seq<HouseGroup>, a: Answers): (s: Stop)
    ensures s == MissingFields <==> !HasRequired(b)
    ensures s == AccountRefused <==> HasRequired(b) && a.account.Failure?
    ensures s in {NoGroupName, GroupInsertFailed} ==> IsCreate(b)
    ensures s in {NoInviteCode, UnknownCode} ==> !IsCreate(b)
    ensures s == UnknownCode ==> FieldTruthy(b.inviteCode) && JoinRow(groups, b.inviteCode.text).None?
    ensures s in {UserInsertFailed, SignInFailed, Done} <==> HasRequired(b) && a.account.Success? && Placed(b, groups, a)
    ensures s == Done <==> (HasRequired(b) && a.account.Success? && Placed(b, groups, a)
      && a.userInsert.None? && a.signIn.Success?)
  {
    if !HasRequired(b) then MissingFields
    else if a.account.Failure? then AccountRefused
    else if IsCreate(b) then
      if !FieldTruthy(b.groupName) then NoGroupName
      else if a.groupInsert.Failure? then GroupInsertFailed
      else AfterGroup(a)
    else if !FieldTruthy(b.inviteCode) then NoInviteCode
    else if JoinRow(groups, b.inviteCode.text).None? then UnknownCode
    else AfterGroup(a)
  }

  /** The stops after which the identity account still exists. */
  predicate KeepsAccount(s: Stop) { s in {NoGroupName, NoInviteCode, UnknownCode, SignInFailed, Done} }

  /** The stops whose compensation asks to delete the account just created. */
  predicate DeletesAccount(s: Stop) { s in {GroupInsertFailed, UserInsertFailed} }

  /** The stops after which the users row has been written. */
  predicate WroteUser(s: Stop) { s in {SignInFailed, Done} }

  /** The stops after which a created house group has been written. */
  predicate WroteGroup(b: RegisterBody, s: Stop) { IsCreate(b) && s in {UserInsertFailed, SignInFailed, Done} }

  /** The reply for each stop but `Done`; every refusal is a 400. */
  function Refusal(b: RegisterBody, groups: seq<HouseGroup>, a: Answers): (r: Session.Reply<Registered>)
    requires StopAt(b, groups, a) != Done
    ensures r.Fail? && r.status == 400
  {
    match StopAt(b, groups, a)
    case MissingFields => Session.Fail(400, Incomplete)
    case AccountRefused => Session.Fail(400, OrElse(Some(a.account.message), AccountFallback))
    case NoGroupName => Session.Fail(400, GroupNameRequired)
    case GroupInsertFailed => Session.Fail(400, OrElse(Some(a.groupInsert.message), GroupFallback))
    case NoInviteCode => Session.Fail(400, CodeRequired)
    case UnknownCode => Session.Fail(400, CodeInvalid)
    case UserInsertFailed => Session.Fail(400, OrElse(a.userInsert, UserFallback))
    case SignInFailed => Session.Fail(400, OrElse(Some(a.signIn.message), SignInFallback))
  }

  /** The two session cookies: `httpOnly`, `secure` in production,
      `sameSite: "lax"`, path `/`, living 7 and 30 days. */
  function SessionCookies(t: Tokens, production: bool): (cs: seq<Cookie>)
    ensures |cs| == 2
    ensures cs[0].name == "sb-access-token" && cs[0].value == t.access && cs[0].maxAge == 604800
    ensures cs[1].name == "sb-refresh-token" && cs[1].value == t.refresh && cs[1].maxAge == 2592000
    ensures forall i :: 0 <= i < 2 ==> cs[i].httpOnly && cs[i].secure == production && cs[i].sameSite == "lax" && cs[i].path == "/"
  {
    [Cookie("sb-access-token", t.access, true, production, "lax", AccessMaxAge, "/"),
     Cookie("sb-refresh-token", t.refresh, true, production, "lax", RefreshMaxAge, "/")]
  }

  /** The identity accounts afterwards. A refused compensating delete
      leaves the new account in place. */
  function AccountsAfter(b: RegisterBody, groups: seq<HouseGroup>, a: Answers, accounts: map<UserId, string>)
    : (r: map<UserId, string>)
    ensures KeepsAccount(StopAt(b, groups, a)) ==> r == accounts[a.account.value := b.email.text]
    ensures DeletesAccount(StopAt(b, groups, a)) && !a.deleteRefused ==> r == accounts - {a.account.value}
    ensures DeletesAccount(StopAt(b, groups, a)) && a.deleteRefused ==> r == accounts[a.account.value := b.email.text]
    ensures StopAt(b, groups, a) in {MissingFields, AccountRefused} ==> r == accounts
  {
    var s := StopAt(b, groups, a);
    if KeepsAccount(s) || (DeletesAccount(s) && a.deleteRefused) then accounts[a.account.value := b.email.text]
    else if DeletesAccount(s) then accounts - {a.account.value}
    else accounts
  }

  /** The group the create path inserts, with a new code and the new user
      as its creator. */
  function NewGroup(b: RegisterBody, a: Answers, code: string, now: int): (g: HouseGroup)
    requires FieldTruthy(b.groupName) && a.groupInsert.Success? && a.account.Success?
    ensures g.id == a.groupInsert.value && g.name == b.groupName.text && g.inviteCode == code
    ensures g.createdBy == Some(a.account.value)
  {
    HouseGroup(a.groupInsert.value, b.groupName.text, code, Some(a.account.value), now)
  }

  /** The house groups afterwards. */
  function GroupsAfter(b: RegisterBody, groups: seq<HouseGroup>, a: Answers, code: string, now: int)
    : (r: seq<HouseGroup>)
    ensures WroteGroup(b, StopAt(b, groups, a)) ==> r == groups + [NewGroup(b, a, code, now)]
    ensures !WroteGroup(b, StopAt(b, groups, a)) ==> r == groups
  {
    if WroteGroup(b, StopAt(b, groups, a)) then groups + [NewGroup(b, a, code, now)] else groups
  }

  /** The users row the handler writes: admin of the new group, or member
      of the group the code found. */
  function NewUser(b: RegisterBody, groups: seq<HouseGroup>, a: Answers, now: int): (u: User)
    requires HasRequired(b) && a.account.Success? && Placed(b, groups, a)
    ensures u.id == a.account.value && u.fullName == Some(b.fullName.text) && u.email == b.email.text
    ensures IsCreate(b) ==> u.houseGroupId == Some(a.groupInsert.value) && u.role == Admin
    ensures !IsCreate(b) ==> u.houseGroupId == Some(JoinRow(groups, b.inviteCode.text).value.id) && u.role == Member
  {
    var gid := if IsCreate(b) then a.groupInsert.value else JoinRow(groups, b.inviteCode.text).value.id;
    User(a.account.value, Some(b.fullName.text), b.email.text, None, Some(gid),
         if IsCreate(b) then Admin else Member, now)
  }

  /** The users table afterwards. */
  function UsersAfter(b: RegisterBody, groups: seq<HouseGroup>, a: Answers, users: seq<User>, now: int)
    : (r: seq<User>)
    ensures WroteUser(StopAt(b, groups, a)) ==> r == users + [NewUser(b, groups, a, now)]
    ensures !WroteUser(StopAt(b, groups, a)) ==> r == users
  {
    if WroteUser(StopAt(b, groups, a)) then users + [NewUser(b, groups, a, now)] else users
  }

  /** The handler. `draws` feed the code generator, `now` is the store's
      clock and `production` says whether the server runs in production. */
  method RegisterUser(
    db: Db.Store, b: RegisterBody, a: Answers, draws: seq<real>, now: int, production: bool)
    returns (reply: Session.Reply<Registered>)
    requires Utils.ValidDraws(draws)
    modifies db`accounts, db`groups, db`users
    ensures db.accounts == AccountsAfter(b, old(db.groups), a, old(db.accounts))
    ensures db.groups == GroupsAfter(b, old(db.groups), a, Utils.InviteCodeFrom(draws), now)
    ensures db.users == UsersAfter(b, old(db.groups), a, old(db.users), now)
    ensures StopAt(b, old(db.groups), a) != Done ==> reply == Refusal(b, old(db.groups), a)
    ensures StopAt(b, old(db.groups), a) == Done ==>
      reply == Session.Ok(Registered(Db.UserRow(db.users, a.account.value), SessionCookies(a.signIn.value, production)))
  {
    if !HasRequired(b) {
      return Session.Fail(400, Incomplete);
    }
    if a.account.Failure? {
      return Session.Fail(400, OrElse(Some(a.account.message), AccountFallback));
    }
    var uid := a.account.value;
    db.accounts := db.accounts[uid := b.email.text];
    var groupId: GroupId;
    var role: Role := Member;
    if IsCreate(b) {
      if !FieldTruthy(b.groupName) {
        return Session.Fail(400, GroupNameRequired);
      }
      var code := Utils.GenerateInviteCode(draws);
      if a.groupInsert.Failure? {
        if !a.deleteRefused {
          db.accounts := db.accounts - {uid};
        }
        return Session.Fail(400, OrElse(Some(a.groupInsert.message), GroupFallback));
      }
      db.groups := db.groups + [HouseGroup(a.groupInsert.value, b.groupName.text, code, Some(uid), now)];
      groupId := a.groupInsert.value;
      role := Admin;
    } else {
      if !FieldTruthy(b.inviteCode) {
        return Session.Fail(400, CodeRequired);
      }
      var row := JoinRow(db.groups, b.inviteCode.text);
      if row.None? {
        return Session.Fail(400, CodeInvalid);
      }
      groupId := row.value.id;
      role := Member;
    }
    if a.userInsert.Some? {
      if !a.deleteRefused {
        db.accounts := db.accounts - {uid};
      }
      return Session.Fail(400, OrElse(a.userInsert, UserFallback));
    }
    db.users := db.users + [User(uid, Some(b.fullName.text), b.email.text, None, Some(groupId), role, now)];
    if a.signIn.Failure? {
      return Session.Fail(400, OrElse(Some(a.signIn.message), SignInFallback));
    }
    reply := Session.Ok(Registered(Db.UserRow(db.users, uid), SessionCookies(a.signIn.value, production)));
  }

  /** Missing fields are refused before any identity account exists. */
  lemma MissingFieldsCreateNothing(b: RegisterBody, groups: seq<HouseGroup>, a: Answers, accounts: map<UserId, string>)
    requires !HasRequired(b)
    ensures AccountsAfter(b, groups, a, accounts) == accounts
    ensures Refusal(b, groups, a) == Session.Fail(400, Incomplete)
  {
  }

  /** The refusals that leave the new identity account behind without a
      users row: an empty group name, and an empty or unknown invite code.
      A failed sign-in leaves both the account and the users row. */
  lemma {:induction false} OrphanAccounts(b: RegisterBody, groups: seq<HouseGroup>, a: Answers)
    requires HasRequired(b) && a.account.Success?
    ensures !Placed(b, groups, a) && !(IsCreate(b) && FieldTruthy(b.groupName)) ==>
      var s := StopAt(b, groups, a); KeepsAccount(s) && !WroteUser(s)
    ensures Placed(b, groups, a) && a.userInsert.None? && a.signIn.Failure? ==>
      var s := StopAt(b, groups, a); KeepsAccount(s) && WroteUser(s)
  {
  }

  /** The reply to a failed group or users insert does not depend on
      whether the compensating delete went through; when it was refused,
      the account outlives the refusal with no users row. */
  lemma {:induction false} RefusedDeleteOrphans(
    b: RegisterBody, groups: seq<HouseGroup>, a: Answers, accounts: map<UserId, string>, users: seq<User>, now: int)
    requires DeletesAccount(StopAt(b, groups, a))
    ensures Refusal(b, groups, a) == Refusal(b, groups, a.(deleteRefused := !a.deleteRefused))
    ensures a.deleteRefused ==>
      (a.account.value in AccountsAfter(b, groups, a, accounts) && UsersAfter(b, groups, a, users, now) == users)
    ensures !a.deleteRefused ==> a.account.value !in AccountsAfter(b, groups, a, accounts)
  {
    var flipped := a.(deleteRefused := !a.deleteRefused);
    assert StopAt(b, groups, flipped) == StopAt(b, groups, a);
  }

  /** A users-insert failure on the create path deletes the account but
      leaves the new house group in place, with no member. */
  lemma OrphanGroup(b: RegisterBody, groups: seq<HouseGroup>, a: Answers)
    requires HasRequired(b) && a.account.Success? && IsCreate(b) && FieldTruthy(b.groupName)
    requires a.groupInsert.Success? && a.userInsert.Some?
    ensures var s := StopAt(b, groups, a);
      s == UserInsertFailed && WroteGroup(b, s) && DeletesAccount(s) && !WroteUser(s)
  {
  }

  /** The join path matches the code case-insensitively: the code typed in
      lower case finds the group whose stored code is its upper case. */
  lemma JoinIgnoresCase(groups: seq<HouseGroup>, code: string)
    ensures JoinRow(groups, code) == JoinRow(groups, ToUpper(code))
  {
    assert ToUpper(ToUpper(code)) == ToUpper(code) by {
      forall i | 0 <= i < |code|
        ensures UpperChar(UpperChar(code[i])) == UpperChar(code[i])
      {
      }
    }
  }

  /** Registration keeps the store consistent when the identity provider
      and the store hand out new ids: user and group ids stay unique, and
      every users row still has its account, on every path, including the
      ones that delete the account again. On success the users row is the
      one written. */
  lemma {:induction false} RegisterKeepsStoreValid(
    b: RegisterBody, a: Answers, accounts: map<UserId, string>, users: seq<User>, groups: seq<HouseGroup>,
    code: string, now: int)
    requires Db.UniqueUserIds(users) && Db.UniqueGroupIds(groups)
    requires forall i :: 0 <= i < |users| ==> users[i].id in accounts
    requires a.account.Success? ==> a.account.value !in accounts
    requires a.groupInsert.Success? ==> forall i :: 0 <= i < |groups| ==> groups[i].id != a.groupInsert.value
    ensures var users' := UsersAfter(b, groups, a, users, now);
      var accounts' := AccountsAfter(b, groups, a, accounts);
      Db.UniqueUserIds(users') && Db.UniqueGroupIds(GroupsAfter(b, groups, a, code, now))
      && (forall i :: 0 <= i < |users'| ==> users'[i].id in accounts')
    ensures WroteUser(StopAt(b, groups, a)) ==>
      Db.UserRow(UsersAfter(b, groups, a, users, now), a.account.value) == Some(NewUser(b, groups, a, now))
  {
    var s := StopAt(b, groups, a);
    if a.account.Success? {
      assert forall i :: 0 <= i < |users| ==> users[i].id != a.account.value;
    }
    if WroteUser(s) {
      var users' := users + [NewUser(b, groups, a, now)];
      Db.UserRowFindsPresent(users', |users|);
    }
  }

  /** The join path reads only the codes stored on house groups: a code
      issued into the invites table, which the validation endpoint accepts,
      is refused at registration unless some group holds it as its own. */
  lemma {:induction false} IssuedInviteCannotJoin(
    b: RegisterBody, a: Answers, groups: seq<HouseGroup>, invites: seq<Invite>, inv: Invite, t: int)
    requires HasRequired(b) && a.account.Success? && !IsCreate(b) && b.inviteCode == Text(inv.code)
    requires |inv.code| > 0
    requires forall i :: 0 <= i < |inv.code| ==> IsAsciiUpper(inv.code[i]) || IsAsciiDigit(inv.code[i])
    requires Query.Count(invites, (i: Invite) => i.code == inv.code) == 0
    requires !inv.revoked && inv.usedBy.None?
    requires inv.expiresAt.None? || t <= inv.expiresAt.value
    requires forall i :: 0 <= i < |groups| ==> groups[i].inviteCode != inv.code
    ensures InvitesValidate.ValidateInvite(Some(inv.code), invites + [inv], groups, t).Valid?
    ensures StopAt(b, groups, a) == UnknownCode
  {
    Invites.IssuedInviteValidates(invites, groups, inv, t);
    Invites.UpperCodeIsUnreserved(inv.code);
    Query.FilterNone(groups, (g: HouseGroup) => g.inviteCode == inv.code);
  }
}
