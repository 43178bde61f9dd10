/** modules/grafana/files/ldap_users_sync.py: making Grafana's users those of a list of LDAP groups. */
module GrafanaSync {
  import opened Common

  datatype Account = Account(id: nat, name: string, email: string, role: string, admin: bool)

  /** What LDAP knows of a person. */
  datatype Meta = Meta(name: string, email: string)

  /** A group, its members as listed, and the role they get. */
  datatype Group = Group(uids: seq<string>, role: string)

  const PROTECTED_LOGINS: set<string> := {"admin"}
  const ADMIN := "Admin"
  const NEW_USER_ROLE := "Viewer"  // what a user has before set_role

  /** An account as seen from outside: everything but the id, which re-creation changes. */
  datatype Profile = Profile(name: string, email: string, role: string, admin: bool)

  function ProfileOf(users: map<string, Account>, login: string): Option<Profile>
  {
    if login in users then
      var a := users[login];
      Some(Profile(a.name, a.email, a.role, a.admin))
    else None
  }

  function Synced(m: Meta, role: string): Profile
  {
    Profile(m.name, m.email, role, role == ADMIN)
  }

  /** The role of the first group that lists the login. */
  function FirstRole(groups: seq<Group>, login: string): Option<string>
  {
    if groups == [] then None
    else if login in groups[0].uids then Some(groups[0].role)
    else FirstRole(groups[1..], login)
  }

  /** Every login that some group lists. */
  function Listed(groups: seq<Group>): set<string>
  {
    set g, u | g in groups && u in g.uids :: u
  }

  /** The uids with valid metadata, and those without. */
  function WithMeta(meta: string -> Option<Meta>, uids: seq<string>): set<string>
  {
    set u | u in uids && meta(u).Some?
  }

  function WithoutMeta(meta: string -> Option<Meta>, uids: seq<string>): set<string>
  {
    set u | u in uids && meta(u).None?
  }

  /** What a group leaves of an account `p` whose login is `l`; `seen` were in earlier groups. */
  function AfterGroup(meta: string -> Option<Meta>, uids: seq<string>, role: string, seen: set<string>,
                      l: string, p: Option<Profile>): Option<Profile>
  {
    if l in uids && l !in seen && meta(l).Some? then Some(Synced(meta(l).value, role)) else p
  }

  lemma OneMoreUid(meta: string -> Option<Meta>, uids: seq<string>, u: string)
    ensures WithMeta(meta, uids + [u]) == WithMeta(meta, uids) + if meta(u).Some? then {u} else {}
    ensures WithoutMeta(meta, uids + [u]) == WithoutMeta(meta, uids) + if meta(u).None? then {u} else {}
  {
  }

  ghost predicate DistinctIds(users: map<string, Account>, nextId: nat)
  {
    && (forall l :: l in users ==> users[l].id < nextId)
    && forall l, m :: l in users && m in users && users[l].id == users[m].id ==> l == m
  }

  function RoleSet(users: map<string, Account>, id: nat, role: string): map<string, Account>
  {
    map l | l in users :: if users[l].id == id then users[l].(role := role) else users[l]
  }

  function AdminSet(users: map<string, Account>, id: nat, status: bool): map<string, Account>
  {
    map l | l in users :: if users[l].id == id then users[l].(admin := status) else users[l]
  }

  function WithoutId(users: map<string, Account>, id: nat): map<string, Account>
  {
    map l | l in users && users[l].id != id :: users[l]
  }

  /** The accounts whose logins are in `keep`. */
  function Kept(users: map<string, Account>, keep: set<string>): map<string, Account>
  {
    map l | l in users && l in keep :: users[l]
  }

  /** Accounts that were there before keep their ids exactly if their names and emails stay: otherwise
      they have been created anew. */
  ghost predicate IdsKept(before: map<string, Account>, after: map<string, Account>, l: string)
  {
    l in before && l in after ==>
      (after[l].id == before[l].id <==> after[l].name == before[l].name && after[l].email == before[l].email)
  }

  ghost predicate Untouched(before: map<string, Account>, after: map<string, Account>, l: string)
  {
    (l in after <==> l in before) && (l in after ==> after[l] == before[l])
  }

  /** Every account is as the listed members of the group leave it. */
  ghost predicate GroupDone(meta: string -> Option<Meta>, uids: seq<string>, role: string, seen: set<string>,
                            before: map<string, Account>, after: map<string, Account>)
  {
    forall l :: ProfileOf(after, l) == AfterGroup(meta, uids, role, seen, l, ProfileOf(before, l))
  }

  lemma GroupGoesOn(meta: string -> Option<Meta>, uids: seq<string>, u: string, role: string, first: set<string>, seen: set<string>,
                    start: map<string, Account>, before: map<string, Account>, after: map<string, Account>)
    requires GroupDone(meta, uids, role, first, start, before) && seen == first + WithMeta(meta, uids)
    requires if u in seen || meta(u).None? then after == before
             else ProfileOf(after, u) == Some(Synced(meta(u).value, role)) && OnlySeen(before, after, {u})
    ensures GroupDone(meta, uids + [u], role, first, start, after)
  {
    forall l ensures ProfileOf(after, l) == AfterGroup(meta, uids + [u], role, first, l, ProfileOf(start, l)) {
      assert ProfileOf(before, l) == AfterGroup(meta, uids, role, first, l, ProfileOf(start, l));
      assert l in uids + [u] <==> l in uids || l == u;
      assert after != before && l != u ==> Untouched(before, after, l);
    }
  }

  /** So far only the logins in `seen` have been dealt with. */
  ghost predicate OnlySeen(before: map<string, Account>, after: map<string, Account>, seen: set<string>)
  {
    forall l :: IdsKept(before, after, l) && (l !in seen ==> Untouched(before, after, l))
  }

  lemma SeenThen(first: map<string, Account>, before: map<string, Account>, after: map<string, Account>,
                 seen: set<string>, more: set<string>)
    requires OnlySeen(first, before, seen) && OnlySeen(before, after, more) && seen !! more
    ensures OnlySeen(first, after, seen + more)
  {
    forall l ensures IdsKept(first, after, l) && (l !in seen + more ==> Untouched(first, after, l)) {
      assert IdsKept(first, before, l) && IdsKept(before, after, l);
      assert l !in seen ==> Untouched(first, before, l);
      assert l !in more ==> Untouched(before, after, l);
    }
  }

  /** With distinct ids a call by id concerns one login. */
  lemma RoleOfOne(users: map<string, Account>, nextId: nat, user: string, role: string)
    requires DistinctIds(users, nextId) && user in users
    ensures RoleSet(users, users[user].id, role) == users[user := users[user].(role := role)]
  {
    forall l | l in users && users[l].id == users[user].id ensures l == user {}
  }

  lemma AdminOfOne(users: map<string, Account>, nextId: nat, user: string, status: bool)
    requires DistinctIds(users, nextId) && user in users
    ensures AdminSet(users, users[user].id, status) == users[user := users[user].(admin := status)]
  {
    forall l | l in users && users[l].id == users[user].id ensures l == user {}
  }

  lemma WithoutOne(users: map<string, Account>, nextId: nat, keep: set<string>, user: string)
    requires DistinctIds(users, nextId) && user in users && user in keep
    ensures WithoutId(Kept(users, keep), users[user].id) == Kept(users, keep - {user})
  {
    forall l | l in users && users[l].id == users[user].id ensures l == user {}
  }

  lemma GrantOne(users: map<string, Account>, nextId: nat, user: string, role: string, status: bool)
    requires DistinctIds(users, nextId) && user in users
    ensures var id, after := users[user].id, users[user := users[user].(role := role, admin := status)];
            AdminSet(RoleSet(users, id, role), id, status) == after && DistinctIds(after, nextId)
  {
    RoleOfOne(users, nextId, user, role);
    var given := users[user := users[user].(role := role)];
    assert DistinctIds(given, nextId);
    AdminOfOne(given, nextId, user, status);
  }

  /** One round of the deletion pass. */
  lemma DropNext(users: map<string, Account>, nextId: nat, stay: set<string>, todo: set<string>, login: string)
    requires DistinctIds(users, nextId) && login in users && login in todo
    ensures Kept(users, todo - {login} + stay) ==
            if login in stay then Kept(users, todo + stay) else WithoutId(Kept(users, todo + stay), users[login].id)
  {
    WithoutOne(users, nextId, todo + stay, login);
    assert todo - {login} + stay == if login in stay then todo + stay else todo + stay - {login};
  }

  lemma KeptIds(users: map<string, Account>, nextId: nat, keep: set<string>)
    requires DistinctIds(users, nextId)
    ensures DistinctIds(Kept(users, keep), nextId)
  {
  }

  class Syncer {
    const meta: string -> Option<Meta>  // uid_meta, the same on every call; None if invalid
    const commit: bool
    var users: map<string, Account>     // Grafana's own store
    var nextId: nat
    var seenUsers: set<string>
    var invalidUsers: set<string>

    constructor (meta: string -> Option<Meta>, commit: bool, users: map<string, Account>, nextId: nat)
      ensures this.meta == meta && this.commit == commit
      ensures this.users == users && this.nextId == nextId && seenUsers == {} && invalidUsers == {}
    {
      this.meta, this.commit := meta, commit;
      this.users, this.nextId, seenUsers, invalidUsers := users, nextId, {}, {};
    }

    ghost predicate Valid()
      reads this
    {
      && DistinctIds(users, nextId)
      && (forall u :: u in seenUsers ==> meta(u).Some?)
      && forall u :: u in invalidUsers ==> meta(u).None?
    }

    // ------------------------------------------------------------ the Grafana API

    method CreateUser(login: string, m: Meta) returns (id: nat)
      requires login !in users && DistinctIds(users, nextId)
      modifies this`users, this`nextId
      ensures id == old(nextId) && nextId == old(nextId) + 1 && DistinctIds(users, nextId)
      ensures users == old(users)[login := Account(id, m.name, m.email, NEW_USER_ROLE, false)]
    {
      id := nextId;
      users := users[login := Account(id, m.name, m.email, NEW_USER_ROLE, false)];
      nextId := nextId + 1;
    }

    method SetRole(id: nat, role: string)
      modifies this`users
      ensures users == RoleSet(old(users), id, role)
    {
      users := map l | l in users :: if users[l].id == id then users[l].(role := role) else users[l];
    }

    method SetGrafanaAdmin(id: nat, status: bool)
      modifies this`users
      ensures users == AdminSet(old(users), id, status)
    {
      users := map l | l in users :: if users[l].id == id then users[l].(admin := status) else users[l];
    }

    method DeleteUser(id: nat)
      modifies this`users
      ensures users == if commit then WithoutId(old(users), id) else old(users)
    {
      if commit {
        users := map l | l in users && users[l].id != id :: users[l];
      }
    }

    // ------------------------------------------------------------ one group

    /** `existing` still describes every login this group has not come to. */
    ghost predicate Current(existing: map<string, Account>)
      reads this
    {
      forall l :: l !in seenUsers ==> if l in existing then l in users && users[l] == existing[l] else l !in users
    }

    /** Gives the account its role, and the admin flag that goes with it. */
    method Grant(user: string, id: nat, role: string)
      requires user in users && users[user].id == id && DistinctIds(users, nextId)
      modifies this`users
      ensures DistinctIds(users, nextId)
      ensures users == old(users)[user := old(users)[user].(role := role, admin := role == ADMIN)]
    {
      GrantOne(users, nextId, user, role, role == ADMIN);
      SetRole(id, role);
      if role == ADMIN {
        SetGrafanaAdmin(id, true);
      } else {
        SetGrafanaAdmin(id, false);
      }
    }

    /** Brings name and email up to date, by creating the account anew if need be. */
    method Ensure(user: string, m: Meta, existing: map<string, Account>) returns (id: nat)
      requires commit && Valid() && Current(existing) && user !in seenUsers
      modifies this`users, this`nextId
      ensures Valid() && user in users && users[user].id == id
      ensures users[user].name == m.name && users[user].email == m.email
      ensures OnlySeen(old(users), users, {user})
    {
      if user !in existing {
        id := CreateUser(user, m);
      } else {
        var known := existing[user];
        id := known.id;
        if known.name != m.name || known.email != m.email {
          WithoutOne(users, nextId, users.Keys, user);
          assert Kept(users, users.Keys) == users;
          DeleteUser(id);
          assert users == Kept(old(users), old(users).Keys - {user});
          id := CreateUser(user, m);
        }
      }
    }

    method SyncLdapUsers(uids: seq<string>, role: string)
      requires Valid()
      modifies this`users, this`nextId, this`seenUsers, this`invalidUsers
      ensures Valid()
      ensures seenUsers == old(seenUsers) + WithMeta(meta, uids)
      ensures invalidUsers == old(invalidUsers) + WithoutMeta(meta, uids)
      ensures !commit ==> users == old(users)
      ensures commit ==> GroupDone(meta, uids, role, old(seenUsers), old(users), users)
      ensures commit ==> OnlySeen(old(users), users, seenUsers - old(seenUsers))
    {
      var existing := users;
      for i := 0 to |uids|
        invariant Valid() && (commit ==> Current(existing))
        invariant seenUsers == old(seenUsers) + WithMeta(meta, uids[..i])
        invariant invalidUsers == old(invalidUsers) + WithoutMeta(meta, uids[..i])
        invariant !commit ==> users == old(users)
        invariant commit ==> GroupDone(meta, uids[..i], role, old(seenUsers), old(users), users)
        invariant commit ==> OnlySeen(old(users), users, seenUsers - old(seenUsers))
      {
        ghost var before, seen := users, seenUsers;
        assert uids[..i + 1] == uids[..i] + [uids[i]];
        OneMoreUid(meta, uids[..i], uids[i]);
        SyncOne(uids[i], role, existing);
        if commit {
          SeenThen(old(users), before, users, seen - old(seenUsers), seenUsers - seen);
          assert seenUsers - old(seenUsers) == seen - old(seenUsers) + (seenUsers - seen);
          GroupGoesOn(meta, uids[..i], uids[i], role, old(seenUsers), seen, old(users), before, users);
        }
      }
      assert uids[..|uids|] == uids;
    }

    method SyncOne(user: string, role: string, existing: map<string, Account>)
      requires Valid() && (commit ==> Current(existing))
      modifies this`users, this`nextId, this`seenUsers, this`invalidUsers
      ensures Valid() && (commit ==> Current(existing))
      ensures seenUsers == old(seenUsers) + if meta(user).Some? then {user} else {}
      ensures invalidUsers == old(invalidUsers) + if meta(user).None? then {user} else {}
      ensures !commit || user in old(seenUsers) || meta(user).None? ==> users == old(users)
      ensures commit && user !in old(seenUsers) && meta(user).Some? ==>
                ProfileOf(users, user) == Some(Synced(meta(user).value, role))
      ensures commit ==> OnlySeen(old(users), users, seenUsers - old(seenUsers))
    {
      if user in seenUsers { return; }
      var m := meta(user);
      if m.None? {
        invalidUsers := invalidUsers + {user};
        return;
      }
      if commit {
        var id := Ensure(user, m.value, existing);
        Grant(user, id, role);
      }
      seenUsers := seenUsers + {user};
    }

    /** All groups in order; `all` collects every listed login. */
    method SyncGroups(groups: seq<Group>) returns (all: set<string>)
      requires Valid() && seenUsers == {} && invalidUsers == {}
      modifies this`users, this`nextId, this`seenUsers, this`invalidUsers
      ensures Valid() && all == Listed(groups)
      ensures invalidUsers == set u | u in all && meta(u).None?
      ensures !commit ==> users == old(users)
      ensures commit ==> forall l :: ProfileOf(users, l) == AfterGroups(meta, groups, old(users), l)
      ensures commit ==> OnlySeen(old(users), users, seenUsers)
    {
      all := {};
      for i := 0 to |groups|
        invariant Valid() && all == Listed(groups[..i])
        invariant seenUsers == set u | u in all && meta(u).Some?
        invariant invalidUsers == set u | u in all && meta(u).None?
        invariant !commit ==> users == old(users)
        invariant commit ==> forall l :: ProfileOf(users, l) == AfterGroups(meta, groups[..i], old(users), l)
        invariant commit ==> OnlySeen(old(users), users, seenUsers)
      {
        ghost var before, seen := users, seenUsers;
        var g := groups[i];
        OneMoreGroup(meta, groups, i, old(users));
        SyncLdapUsers(g.uids, g.role);
        if commit {
          SeenThen(old(users), before, users, seen, seenUsers - seen);
          assert seen + (seenUsers - seen) == seenUsers;
        }
        all := all + set u | u in g.uids;
      }
      assert groups[..|groups|] == groups;
    }

    /** The deletion pass: whoever is neither protected nor validly listed goes. */
    method DeleteMissing(all: set<string>)
      requires Valid()
      modifies this`users
      ensures Valid()
      ensures users == if commit then Kept(old(users), PROTECTED_LOGINS + (all - invalidUsers)) else old(users)
    {
      var listing := users;
      var todo := listing.Keys;
      ghost var stay := PROTECTED_LOGINS + (all - invalidUsers);
      assert Kept(listing, todo + stay) == listing;
      while todo != {}
        invariant todo <= listing.Keys && listing == old(users) && DistinctIds(listing, nextId)
        invariant users == if commit then Kept(listing, todo + stay) else listing
        decreases todo
      {
        var login :| login in todo;
        DropNext(listing, nextId, stay, todo, login);
        todo := todo - {login};
        if login in PROTECTED_LOGINS { continue; }
        if login !in all - invalidUsers {
          DeleteUser(listing[login].id);
        }
      }
      assert {} + stay == stay;
      KeptIds(listing, nextId, stay);
    }

    /** The whole program. Account 1 is Grafana's built-in admin. */
    method Run(groups: seq<Group>, deleteUsers: bool)
      requires Valid() && seenUsers == {} && invalidUsers == {}
      modifies this`users, this`nextId, this`seenUsers, this`invalidUsers
      ensures !commit ==> users == old(users)
      ensures commit ==> forall l :: ProfileOf(users, l) == Final(meta, groups, deleteUsers, old(users), l)
      ensures commit ==> forall l :: IdsKept(old(users), users, l)
      ensures commit && deleteUsers ==>
                users.Keys == PROTECTED_LOGINS * old(users).Keys + set u | u in Listed(groups) && meta(u).Some?
    {
      if commit {
        SetRole(1, ADMIN);
      }
      assert commit ==> users == WithAdmin(old(users));
      var all := SyncGroups(groups);
      ghost var synced := users;
      if deleteUsers {
        DeleteMissing(all);
      }
      if commit {
        AllFinal(meta, groups, deleteUsers, old(users), synced, users);
        IdsStayKept(old(users), synced, users);
        if deleteUsers { FinalKeys(meta, groups, old(users), users); }
      }
    }
  }

  /** What is left of the synchronised store is what is expected of every login. */
  lemma AllFinal(meta: string -> Option<Meta>, groups: seq<Group>, deleteUsers: bool,
                 before: map<string, Account>, synced: map<string, Account>, after: map<string, Account>)
    requires forall l :: ProfileOf(synced, l) == AfterGroups(meta, groups, WithAdmin(before), l)
    requires var all := Listed(groups);
             after == if deleteUsers then Kept(synced, PROTECTED_LOGINS + (all - set u | u in all && meta(u).None?)) else synced
    ensures forall l :: ProfileOf(after, l) == Final(meta, groups, deleteUsers, before, l)
  {
    forall l ensures ProfileOf(after, l) == Final(meta, groups, deleteUsers, before, l) {
      ListedHasRole(groups, l);
      assert ProfileOf(synced, l) == AfterGroups(meta, groups, WithAdmin(before), l);
    }
  }

  lemma IdsStayKept(before: map<string, Account>, synced: map<string, Account>, after: map<string, Account>)
    requires forall l :: IdsKept(WithAdmin(before), synced, l)
    requires forall l :: l in after ==> l in synced && after[l] == synced[l]
    ensures forall l :: IdsKept(before, after, l)
  {
    forall l ensures IdsKept(before, after, l) { assert IdsKept(WithAdmin(before), synced, l); }
  }

  lemma FinalKeys(meta: string -> Option<Meta>, groups: seq<Group>, before: map<string, Account>, after: map<string, Account>)
    requires forall l :: ProfileOf(after, l) == Final(meta, groups, true, before, l)
    ensures after.Keys == PROTECTED_LOGINS * before.Keys + set u | u in Listed(groups) && meta(u).Some?
  {
    forall l ensures l in after <==> l in PROTECTED_LOGINS * before.Keys + set u | u in Listed(groups) && meta(u).Some? {
      ListedHasRole(groups, l);
      assert ProfileOf(after, l) == Final(meta, groups, true, before, l);
    }
  }

  /** The store once account 1 has been made an organisation admin. */
  function WithAdmin(users: map<string, Account>): map<string, Account>
  {
    RoleSet(users, 1, ADMIN)
  }

  function AfterGroups(meta: string -> Option<Meta>, groups: seq<Group>, users: map<string, Account>, login: string): Option<Profile>
  {
    var role := FirstRole(groups, login);
    if role.Some? && meta(login).Some? then Some(Synced(meta(login).value, role.value)) else ProfileOf(users, login)
  }

  /** What the account of `login` must be after a committed run. */
  function Final(meta: string -> Option<Meta>, groups: seq<Group>, deleteUsers: bool, users: map<string, Account>, login: string): Option<Profile>
  {
    var role := FirstRole(groups, login);
    if role.Some? && meta(login).Some? then Some(Synced(meta(login).value, role.value))
    else if deleteUsers && login !in PROTECTED_LOGINS then None
    else ProfileOf(WithAdmin(users), login)
  }

  lemma {:induction false} ListedHasRole(groups: seq<Group>, login: string)
    ensures login in Listed(groups) <==> FirstRole(groups, login).Some?
  {
    if groups != [] {
      ListedHasRole(groups[1..], login);
      assert forall g :: g in groups <==> g == groups[0] || g in groups[1..];
    }
  }

  lemma {:induction false} FirstRoleSnoc(groups: seq<Group>, g: Group, login: string)
    ensures FirstRole(groups + [g], login) ==
            if FirstRole(groups, login).Some? then FirstRole(groups, login)
            else if login in g.uids then Some(g.role) else None
  {
    if groups == [] {
      assert groups + [g] == [g];
    } else {
      FirstRoleSnoc(groups[1..], g, login);
      assert (groups + [g])[1..] == groups[1..] + [g];
    }
  }

  /** How one more group changes what is expected: only logins not listed before. */
  lemma OneMoreGroup(meta: string -> Option<Meta>, groups: seq<Group>, i: nat, users: map<string, Account>)
    requires i < |groups|
    ensures Listed(groups[..i + 1]) == Listed(groups[..i]) + set u | u in groups[i].uids
    ensures forall l :: AfterGroups(meta, groups[..i + 1], users, l) ==
                        if l in groups[i].uids && l !in Listed(groups[..i]) && meta(l).Some?
                        then Some(Synced(meta(l).value, groups[i].role))
                        else AfterGroups(meta, groups[..i], users, l)
  {
    assert groups[..i + 1] == groups[..i] + [groups[i]];
    forall l
      ensures l in Listed(groups[..i + 1]) <==> l in Listed(groups[..i]) || l in groups[i].uids
      ensures AfterGroups(meta, groups[..i + 1], users, l) ==
              if l in groups[i].uids && l !in Listed(groups[..i]) && meta(l).Some?
              then Some(Synced(meta(l).value, groups[i].role))
              else AfterGroups(meta, groups[..i], users, l)
    {
      ListedHasRole(groups[..i], l);
      ListedHasRole(groups[..i + 1], l);
      FirstRoleSnoc(groups[..i], groups[i], l);
    }
  }
}
