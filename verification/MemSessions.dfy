/** The sessions in memory and their index by user (pkg/database/memdb.go:437-528, 1216-1225). */
module MemSessions {
  import opened Wrappers

  /** The sessions of everyone else. */
  function WithoutUser(users: map<nat, Option<int>>, user: int): map<nat, Option<int>> {
    map id | id in users && users[id] != Some(user) :: users[id]
  }

  function SessionsOf(users: map<nat, Option<int>>, user: int): set<nat> {
    set id | id in users && users[id] == Some(user)
  }

  /** Each user's sessions are listed, and no user without sessions. */
  ghost predicate UserIndexed(byUser: map<int, set<nat>>, users: map<nat, Option<int>>) {
    forall user: int ::
      && (user in byUser <==> SessionsOf(users, user) != {})
      && (user in byUser ==> byUser[user] == SessionsOf(users, user))
  }

  lemma OneMoreSession(users: map<nat, Option<int>>, id: nat, u: Option<int>, user: int)
    requires id !in users
    ensures SessionsOf(users[id := u], user) ==
            if u == Some(user) then SessionsOf(users, user) + {id} else SessionsOf(users, user)
  {
  }

  lemma OneSessionLess(users: map<nat, Option<int>>, id: nat, user: int)
    ensures SessionsOf(users - {id}, user) == SessionsOf(users, user) - {id}
    ensures id in users && users[id] != Some(user) ==> SessionsOf(users - {id}, user) == SessionsOf(users, user)
  {
  }

  lemma UserGone(users: map<nat, Option<int>>, gone: int, user: int)
    ensures SessionsOf(WithoutUser(users, gone), user) == if user == gone then {} else SessionsOf(users, user)
    ensures users - SessionsOf(users, gone) == WithoutUser(users, gone)
  {
  }

  class SessionTable {
    var users: map<nat, Option<int>>  // the registered user of each session, if any
    var byUser: map<int, set<nat>>

    ghost predicate Valid()
      reads this
    {
      UserIndexed(byUser, users)
    }

    constructor ()
      ensures Valid() && users == map[]
    {
      users, byUser := map[], map[];
    }

    /** `id` comes from the ID generator. */
    method Create(id: nat, user: Option<int>)
      requires Valid() && id !in users
      modifies this
      ensures Valid() && users == old(users)[id := user]
    {
      hide SessionsOf;
      forall u: int ensures SessionsOf(users[id := user], u) ==
                            if user == Some(u) then SessionsOf(users, u) + {id} else SessionsOf(users, u) {
        OneMoreSession(users, id, user, u);
      }
      users := users[id := user];
      if user.Some? {
        var ids := if user.value in byUser then byUser[user.value] else {};
        byUser := byUser[user.value := ids + {id}];
      }
    }

    method Delete(id: nat)
      requires Valid()
      modifies this
      ensures Valid() && users == old(users) - {id}
    {
      hide SessionsOf;
      if id !in users {
        assert users - {id} == users;
        return;
      }
      var user := users[id];
      forall u: int
        ensures SessionsOf(users - {id}, u) ==
                if user == Some(u) then SessionsOf(users, u) - {id} else SessionsOf(users, u)
      {
        OneSessionLess(users, id, u);
      }
      users := users - {id};
      if user.Some? && user.value in byUser {
        var ids := byUser[user.value] - {id};
        if ids == {} {
          byUser := byUser - {user.value};
        } else {
          byUser := byUser[user.value := ids];
        }
      }
    }

    /** All sessions of a deleted account, one by one. */
    method DeleteOfUser(user: int)
      requires Valid()
      modifies this
      ensures Valid() && users == WithoutUser(old(users), user)
    {
      hide SessionsOf, WithoutUser;
      ghost var was := users;
      forall u: int ensures SessionsOf(WithoutUser(was, user), u) == if u == user then {} else SessionsOf(was, u) {
        UserGone(was, user, u);
      }
      UserGone(was, user, user);
      if user !in byUser {
        assert was - {} == was;
        return;
      }
      var rest := byUser[user];
      while rest != {}
        modifies this`users
        invariant rest <= byUser[user]
        invariant users == was - (byUser[user] - rest)
      {
        var id :| id in rest;
        users := users - {id};
        rest := rest - {id};
      }
      assert byUser[user] - {} == byUser[user];
      byUser := byUser - {user};
    }
  }
}
