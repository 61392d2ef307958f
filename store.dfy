/** The hosted backend's state as the handlers see it: the identity
    provider's accounts and the five tables. Handlers that write are
    methods elsewhere that take the store and name the tables they modify. */
module Db {
  import opened Base
  import opened Types
  import Query

  class Store {
    /** Identity-provider accounts: account id to e-mail. */
    var accounts: map<UserId, string>
    var users: seq<User>
    var groups: seq<HouseGroup>
    var tasks: seq<Task>
    var requests: seq<TaskRequest>
    var invites: seq<Invite>

    /** Primary keys of users and house_groups are unique, and every users
        row belongs to an identity account (users.id references the account). */
    ghost predicate Valid()
      reads this
    {
      UniqueUserIds(users) && UniqueGroupIds(groups)
      && (forall i :: 0 <= i < |users| ==> users[i].id in accounts)
    }

    constructor ()
      ensures Valid()
      ensures accounts == map[] && users == [] && groups == []
      ensures tasks == [] && requests == [] && invites == []
    {
      accounts := map[];
      users := [];
      groups := [];
      tasks := [];
      requests := [];
      invites := [];
    }
  }

  ghost predicate UniqueUserIds(users: seq<User>)
  {
    forall i, j :: 0 <= i < j < |users| ==> users[i].id != users[j].id
  }

  ghost predicate UniqueGroupIds(groups: seq<HouseGroup>)
  {
    forall i, j :: 0 <= i < j < |groups| ==> groups[i].id != groups[j].id
  }

  /** `.from("users").select(...).eq("id", id).single()`. */
  function UserRow(users: seq<User>, id: UserId): (r: Option<User>)
    ensures r.Some? ==> r.value in users && r.value.id == id
  {
    Query.Single(users, (u: User) => u.id == id)
  }

  /** `.from("house_groups").select(...).eq("id", id).single()`. */
  function GroupRow(groups: seq<HouseGroup>, id: GroupId): (r: Option<HouseGroup>)
    ensures r.Some? ==> r.value in groups && r.value.id == id
  {
    Query.Single(groups, (g: HouseGroup) => g.id == id)
  }

  /** With unique ids, a row that is present is the one `.single()` finds. */
  lemma {:induction false} UserRowFindsPresent(users: seq<User>, k: nat)
    requires UniqueUserIds(users)
    requires k < |users|
    ensures UserRow(users, users[k].id) == Some(users[k])
  {
    var p := (u: User) => u.id == users[k].id;
    var f := Query.Filter(users, p);
    UniqueFilterAt(users, k);
    assert |f| == 1;
  }

  lemma {:induction false} UniqueFilterAt(users: seq<User>, k: nat)
    requires UniqueUserIds(users)
    requires k < |users|
    ensures Query.Filter(users, (u: User) => u.id == users[k].id) == [users[k]]
  {
    var id := users[k].id;
    if k == 0 {
      NoneFiltered(users[1..], id);
      assert users == [users[0]] + users[1..];
    } else {
      UniqueFilterAt(users[1..], k - 1);
      assert users[1..][k - 1] == users[k];
      assert users == [users[0]] + users[1..];
    }
  }

  lemma {:induction false} NoneFiltered(users: seq<User>, id: UserId)
    requires forall i :: 0 <= i < |users| ==> users[i].id != id
    ensures Query.Filter(users, (u: User) => u.id == id) == []
  {
    if users != [] {
      NoneFiltered(users[1..], id);
    }
  }
}
