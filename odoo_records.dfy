/** The few Odoo records the deployment scripts touch: records named by an xmlid
    (`env.ref`), and the `res.users` table that both the Odoo bootstrap and the
    n8n connector update with "search by login, then write or create". */
module OdooRecords {
  import opened Common

  /** A record: the model it belongs to and its id. */
  datatype Record = Record(model: string, id: nat)

  /** `env.ref`: the records the database knows by xmlid; a missing xmlid raises. */
  type Refs = map<string, Record>

  /** `env.ref(xid)` succeeds and gives a `res.groups` record. */
  predicate IsGroupRef(refs: Refs, xid: string) {
    xid in refs && refs[xid].model == "res.groups"
  }

  /** The ids of the groups named by xmlids, in order; names that are missing or that
      name a record of another model are skipped. */
  function GroupIds(refs: Refs, xmlids: seq<string>): (r: seq<nat>)
    ensures |r| <= |xmlids|
    decreases |xmlids|
  {
    if |xmlids| == 0 then []
    else
      var last := xmlids[|xmlids| - 1];
      GroupIds(refs, xmlids[..|xmlids| - 1]) + (if IsGroupRef(refs, last) then [refs[last].id] else [])
  }

  /** An id is resolved exactly when some xmlid names a group with that id. */
  lemma {:induction false} GroupIdsMembers(refs: Refs, xmlids: seq<string>)
    ensures forall g :: g in GroupIds(refs, xmlids) <==>
      exists k :: 0 <= k < |xmlids| && IsGroupRef(refs, xmlids[k]) && refs[xmlids[k]].id == g
    decreases |xmlids|
  {
    if |xmlids| > 0 {
      var p := xmlids[..|xmlids| - 1];
      GroupIdsMembers(refs, p);
      forall g
        ensures g in GroupIds(refs, xmlids) <==>
          exists k :: 0 <= k < |xmlids| && IsGroupRef(refs, xmlids[k]) && refs[xmlids[k]].id == g
      {
        if exists k :: 0 <= k < |xmlids| && IsGroupRef(refs, xmlids[k]) && refs[xmlids[k]].id == g {
          var k :| 0 <= k < |xmlids| && IsGroupRef(refs, xmlids[k]) && refs[xmlids[k]].id == g;
          if k < |p| {
            assert p[k] == xmlids[k];
          }
        }
        if g in GroupIds(refs, p) {
          var k :| 0 <= k < |p| && IsGroupRef(refs, p[k]) && refs[p[k]].id == g;
          assert xmlids[k] == p[k];
        }
      }
    }
  }

  lemma GroupIdsAppend(refs: Refs, xmlids: seq<string>, xid: string)
    ensures GroupIds(refs, xmlids + [xid])
         == GroupIds(refs, xmlids) + (if IsGroupRef(refs, xid) then [refs[xid].id] else [])
  {
    assert (xmlids + [xid])[..|xmlids|] == xmlids;
  }

  /** The loop of `_ensure_user_with_groups` that resolves xmlids, missing ones skipped. */
  method ResolveGroupIds(refs: Refs, xmlids: seq<string>) returns (ids: seq<nat>)
    ensures ids == GroupIds(refs, xmlids)
  {
    ids := [];
    for i := 0 to |xmlids|
      invariant ids == GroupIds(refs, xmlids[..i])
    {
      GroupIdsAppend(refs, xmlids[..i], xmlids[i]);
      assert xmlids[..i + 1] == xmlids[..i] + [xmlids[i]];
      var xid := xmlids[i];
      if xid in refs && refs[xid].model == "res.groups" {
        ids := ids + [refs[xid].id];
      }
    }
    assert xmlids[..|xmlids|] == xmlids;
  }

  // ---------------------------------------------------------------------------
  // res.users
  // ---------------------------------------------------------------------------

  /** A user: None for the password or the groups means Odoo's own default was kept. */
  datatype User = User(login: string, name: string, password: Option<string>, groups: Option<set<nat>>)

  /** The `vals` dict given to `write`/`create`; `group_ids` holds `(6, 0, ids)`. */
  datatype UserVals = UserVals(name: string, login: string, password: Option<string>, groups: Option<seq<nat>>)

  /** No two users share a login. */
  predicate UniqueLogins(users: seq<User>) {
    forall i, j :: 0 <= i < j < |users| ==> users[i].login != users[j].login
  }

  /** `Users.search([["login", "=", login]], limit=1)`: the position of the first user with that login. */
  function FindLogin(users: seq<User>, login: string): (r: Option<nat>)
    ensures r.Some? ==> r.value < |users| && users[r.value].login == login
    ensures r.Some? ==> forall j :: 0 <= j < r.value ==> users[j].login != login
    ensures r.None? ==> forall j :: 0 <= j < |users| ==> users[j].login != login
    decreases |users|
  {
    if |users| == 0 then None
    else if users[0].login == login then Some(0)
    else
      match FindLogin(users[1..], login)
      case None => None
      case Some(k) => Some(k + 1)
  }

  /** The groups a `(6, 0, ids)` command leaves: exactly the ids. */
  function GroupSet(ids: seq<nat>): (s: set<nat>)
    ensures forall g :: g in s <==> g in ids
  {
    set g | g in ids
  }

  /** The user carries what vals give: its name and login, and the password and the
      groups whenever vals hold them. */
  predicate Carries(u: User, vals: UserVals) {
    && u.login == vals.login && u.name == vals.name
    && (vals.password.Some? ==> u.password == vals.password)
    && (vals.groups.Some? ==> u.groups == Some(GroupSet(vals.groups.value)))
  }

  /** `user.write(vals)`: the user carries vals afterwards, and what vals leave out (the
      password, the groups) stays as it was. */
  function Written(u: User, vals: UserVals): (r: User)
    ensures Carries(r, vals)
    ensures vals.password.None? ==> r.password == u.password
    ensures vals.groups.None? ==> r.groups == u.groups
  {
    User(vals.login, vals.name,
         if vals.password.Some? then vals.password else u.password,
         if vals.groups.Some? then Some(GroupSet(vals.groups.value)) else u.groups)
  }

  /** `Users.create(vals)`: the new user carries vals, and what vals leave out is left to
      Odoo's defaults. */
  function Created(vals: UserVals): (r: User)
    ensures Carries(r, vals)
    ensures vals.password.None? ==> r.password.None?
    ensures vals.groups.None? ==> r.groups.None?
  {
    User(vals.login, vals.name, vals.password,
         if vals.groups.Some? then Some(GroupSet(vals.groups.value)) else None)
  }

  /** The table after "search by login, write when found, create otherwise". */
  function Upserted(users: seq<User>, vals: UserVals): seq<User> {
    match FindLogin(users, vals.login)
    case Some(i) => users[i := Written(users[i], vals)]
    case None => users + [Created(vals)]
  }

  /** The upsert keeps logins unique, leaves exactly one user with the login, and
      changes no other user. */
  lemma UpsertedProperties(users: seq<User>, vals: UserVals)
    requires UniqueLogins(users)
    ensures var r := Upserted(users, vals);
      && UniqueLogins(r)
      && FindLogin(r, vals.login).Some?
      && (forall j :: 0 <= j < |r| && j != FindLogin(r, vals.login).value ==> r[j].login != vals.login)
      && (FindLogin(users, vals.login).Some? ==> |r| == |users|)
      && (FindLogin(users, vals.login).None? ==> |r| == |users| + 1)
      && (forall j :: 0 <= j < |users| && users[j].login != vals.login ==> r[j] == users[j])
  {
    var r := Upserted(users, vals);
    match FindLogin(users, vals.login)
    case Some(i) =>
      assert r[i].login == vals.login;
      assert FindLogin(r, vals.login).Some?;
    case None =>
      assert r[|users|].login == vals.login;
      assert FindLogin(r, vals.login).Some?;
  }

  /** After the upsert the user with the login carries vals. A user that existed keeps
      its place and, where vals are silent, its password and groups; a new user has
      Odoo's defaults there. */
  lemma UpsertedCarries(users: seq<User>, vals: UserVals)
    requires UniqueLogins(users)
    ensures var r := Upserted(users, vals);
      FindLogin(r, vals.login).Some? && Carries(r[FindLogin(r, vals.login).value], vals)
    ensures var r := Upserted(users, vals);
      FindLogin(users, vals.login).Some? ==>
        var k := FindLogin(users, vals.login).value;
        && FindLogin(r, vals.login) == Some(k)
        && (vals.password.None? ==> r[k].password == users[k].password)
        && (vals.groups.None? ==> r[k].groups == users[k].groups)
    ensures var r := Upserted(users, vals);
      FindLogin(users, vals.login).None? ==>
        && FindLogin(r, vals.login) == Some(|users|)
        && (vals.password.None? ==> r[|users|].password.None?)
        && (vals.groups.None? ==> r[|users|].groups.None?)
  {
    var r := Upserted(users, vals);
    UpsertedProperties(users, vals);
    match FindLogin(users, vals.login)
    case Some(k) =>
      assert r[k].login == vals.login;
    case None =>
      assert r[|users|].login == vals.login;
  }

  /** Running the same upsert twice leaves what running it once left, with the same users
      (the password and groups given are set again to the same values). */
  lemma UpsertIdempotent(users: seq<User>, vals: UserVals)
    requires UniqueLogins(users)
    ensures Upserted(Upserted(users, vals), vals) == Upserted(users, vals)
  {
    var r := Upserted(users, vals);
    UpsertedProperties(users, vals);
    var i := FindLogin(r, vals.login).value;
    assert Written(r[i], vals) == r[i];
  }

  /** The `res.users` table as the scripts see it: a record's id is its position plus one. */
  class UserStore {
    var users: seq<User>

    predicate Valid()
      reads this
    {
      UniqueLogins(users)
    }

    constructor (initial: seq<User>)
      requires UniqueLogins(initial)
      ensures Valid() && users == initial
    {
      users := initial;
    }

    /** Search the user by the login of vals, then write vals to it or create it; the id of
        the user is returned. */
    method Upsert(vals: UserVals) returns (id: nat)
      requires Valid()
      modifies this
      ensures Valid()
      ensures users == Upserted(old(users), vals)
      ensures 0 < id <= |users| && users[id - 1].login == vals.login
      ensures FindLogin(old(users), vals.login).Some? ==> id == FindLogin(old(users), vals.login).value + 1
      ensures FindLogin(old(users), vals.login).None? ==> id == |old(users)| + 1
    {
      UpsertedProperties(users, vals);
      match FindLogin(users, vals.login)
      case Some(i) =>
        users := users[i := Written(users[i], vals)];
        id := i + 1;
      case None =>
        users := users + [Created(vals)];
        id := |users|;
    }
  }
}
