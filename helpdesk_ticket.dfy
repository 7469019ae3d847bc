/** The helpdesk ticket extension: category-driven team and assignee defaults in
    `create`, `write` and the category onchange, the many2many command fold that keeps
    at most one SLA, category-aware SLA matching and grouping (`_sla_find`), pruning of
    SLA statuses that no longer match, the branch display name and its inverse, the
    media preview and counts, and the two validation constraints. The ORM is replaced
    by plain values: tables are maps from ids to records, searches are functions given
    as parameters, and `vals` is a map from field names to Python values. */
module HelpdeskTicket {
  import opened Common
  import opened Text

  // ---------------------------------------------------------------------------
  // Python values in `vals`
  // ---------------------------------------------------------------------------

  /** The Python values `vals` holds: a number (ids, `False` as 0), `None`, or a list or
      tuple such as a many2many command. */
  datatype Value = Num(n: int) | Null | List(elems: seq<Value>)

  /** Python's `False`, which equals 0. */
  const FalseValue: Value := Num(0)

  predicate Truthy(v: Value) {
    match v
    case Num(n) => n != 0
    case Null => false
    case List(xs) => xs != []
  }

  /** The field values passed to `create` and `write`. */
  type Vals = map<string, Value>

  /** `vals.get(key)`. */
  function Get(vals: Vals, key: string): (v: Value)
    ensures key !in vals ==> v == Null
  {
    if key in vals then vals[key] else Null
  }

  /** A record id as a value, `False` when there is none. */
  function IdValue(id: Option<int>): Value {
    if id.Some? then Num(id.value) else FalseValue
  }

  // ---------------------------------------------------------------------------
  // categories and teams
  // ---------------------------------------------------------------------------

  /** A `helpdesk.category`: its team, its default assignee and its parent. */
  datatype Category = Category(team: Option<int>, user: Option<int>, parent: Option<int>)

  type Categories = map<int, Category>

  /** An id that names no stored category reads as an empty record. */
  const NoCategory := Category(None, None, None)

  function CategoryAt(cats: Categories, id: int): Category {
    if id in cats then cats[id] else NoCategory
  }

  /** `Category.browse(v)` for the value in `vals`. */
  function CategoryOf(cats: Categories, v: Value): Category {
    if v.Num? then CategoryAt(cats, v.n) else NoCategory
  }

  /** The parent links are acyclic: every parent ranks below its child. Odoo's recursion
      check on `parent_id` keeps the tree this way. */
  ghost predicate Ranked(cats: Categories, rank: map<int, nat>) {
    forall id :: id in cats ==>
      && id in rank
      && (cats[id].parent.Some? && cats[id].parent.value in cats ==>
            cats[id].parent.value in rank && rank[cats[id].parent.value] < rank[id])
  }

  /** The termination measure of the walk up the parent chain. */
  ghost function Height(cats: Categories, rank: map<int, nat>, p: Option<int>): nat
    requires Ranked(cats, rank)
  {
    match p
    case None => 0
    case Some(id) => if id in cats then rank[id] + 2 else 1
  }

  /** The categories met walking up from p: p, its parent, and so on to the root. */
  ghost function Chain(cats: Categories, rank: map<int, nat>, p: Option<int>): (ch: seq<int>)
    requires Ranked(cats, rank)
    ensures p.None? <==> ch == []
    ensures p.Some? ==> ch[0] == p.value
    ensures forall k :: 0 <= k < |ch| - 1 ==> CategoryAt(cats, ch[k]).parent == Some(ch[k + 1])
    decreases Height(cats, rank, p)
  {
    match p
    case None => []
    case Some(id) => [id] + Chain(cats, rank, CategoryAt(cats, id).parent)
  }

  /** What the loop `while parent and not parent.team_id: parent = parent.parent_id`
      finds: the team of the first category from p upwards that has one. */
  function AncestorTeam(cats: Categories, ghost rank: map<int, nat>, p: Option<int>): Option<int>
    requires Ranked(cats, rank)
    decreases Height(cats, rank, p)
  {
    match p
    case None => None
    case Some(id) =>
      var c := CategoryAt(cats, id);
      if c.team.Some? then c.team else AncestorTeam(cats, rank, c.parent)
  }

  /** The walk of `create`, `write` and the onchange, as the loop it is. */
  method FindAncestorTeam(cats: Categories, ghost rank: map<int, nat>, start: Option<int>)
      returns (team: Option<int>)
    requires Ranked(cats, rank)
    ensures team == AncestorTeam(cats, rank, start)
  {
    var parent := start;
    while parent.Some? && CategoryAt(cats, parent.value).team.None?
      invariant AncestorTeam(cats, rank, parent) == AncestorTeam(cats, rank, start)
      decreases Height(cats, rank, parent)
    {
      parent := CategoryAt(cats, parent.value).parent;
    }
    team := if parent.Some? then CategoryAt(cats, parent.value).team else None;
  }

  /** The walk finds the team of the nearest category on the chain that has one, and
      nothing exactly when no category on the chain has a team. */
  lemma AncestorTeamNearest(cats: Categories, rank: map<int, nat>, p: Option<int>)
    requires Ranked(cats, rank)
    ensures var ch, t := Chain(cats, rank, p), AncestorTeam(cats, rank, p);
      t.Some? ==> exists k :: 0 <= k < |ch| && CategoryAt(cats, ch[k]).team == t
                              && forall j :: 0 <= j < k ==> CategoryAt(cats, ch[j]).team.None?
    ensures var ch := Chain(cats, rank, p);
      AncestorTeam(cats, rank, p).None? <==> forall k :: 0 <= k < |ch| ==> CategoryAt(cats, ch[k]).team.None?
  {
    AncestorTeamFound(cats, rank, p);
    AncestorTeamNone(cats, rank, p);
  }

  /** A team found is the team of a category on the chain with none before it. */
  lemma {:induction false} AncestorTeamFound(cats: Categories, rank: map<int, nat>, p: Option<int>)
    requires Ranked(cats, rank)
    ensures AncestorTeam(cats, rank, p).Some? ==>
      exists k :: 0 <= k < |Chain(cats, rank, p)|
        && CategoryAt(cats, Chain(cats, rank, p)[k]).team == AncestorTeam(cats, rank, p)
        && forall j :: 0 <= j < k ==> CategoryAt(cats, Chain(cats, rank, p)[j]).team.None?
    decreases Height(cats, rank, p)
  {
    if p.Some? {
      var c := CategoryAt(cats, p.value);
      var ch := Chain(cats, rank, p);
      var t := AncestorTeam(cats, rank, p);
      if c.team.None? && t.Some? {
        var rest := Chain(cats, rank, c.parent);
        assert ch == [p.value] + rest;
        assert t == AncestorTeam(cats, rank, c.parent);
        AncestorTeamFound(cats, rank, c.parent);
        var k :| 0 <= k < |rest| && CategoryAt(cats, rest[k]).team == t
                 && forall j :: 0 <= j < k ==> CategoryAt(cats, rest[j]).team.None?;
        forall j | 0 <= j < k + 1
          ensures CategoryAt(cats, ch[j]).team.None?
        {
          if j > 0 {
            assert ch[j] == rest[j - 1];
          }
        }
        assert ch[k + 1] == rest[k];
        assert 0 <= k + 1 < |ch| && CategoryAt(cats, ch[k + 1]).team == t
          && forall j :: 0 <= j < k + 1 ==> CategoryAt(cats, ch[j]).team.None?;
      } else if t.Some? {
        assert CategoryAt(cats, ch[0]).team == t;
      }
    }
  }

  /** No category of the chain has a team. */
  predicate NoTeamOn(cats: Categories, ch: seq<int>) {
    forall k :: 0 <= k < |ch| ==> CategoryAt(cats, ch[k]).team.None?
  }

  /** Nothing is found exactly when no category on the chain has a team. */
  lemma {:induction false} AncestorTeamNone(cats: Categories, rank: map<int, nat>, p: Option<int>)
    requires Ranked(cats, rank)
    ensures AncestorTeam(cats, rank, p).None? <==> NoTeamOn(cats, Chain(cats, rank, p))
    decreases Height(cats, rank, p)
  {
    if p.Some? {
      var c := CategoryAt(cats, p.value);
      var ch := Chain(cats, rank, p);
      var rest := Chain(cats, rank, c.parent);
      assert ch == [p.value] + rest;
      assert CategoryAt(cats, ch[0]) == c;
      if c.team.None? {
        assert AncestorTeam(cats, rank, p) == AncestorTeam(cats, rank, c.parent);
        AncestorTeamNone(cats, rank, c.parent);
        assert NoTeamOn(cats, ch) <==> NoTeamOn(cats, rest) by {
          NoTeamOnCons(cats, p.value, rest);
        }
      } else {
        assert AncestorTeam(cats, rank, p) == c.team;
      }
    }
  }

  lemma NoTeamOnCons(cats: Categories, id: int, rest: seq<int>)
    requires CategoryAt(cats, id).team.None?
    ensures NoTeamOn(cats, [id] + rest) <==> NoTeamOn(cats, rest)
  {
    var ch := [id] + rest;
    if NoTeamOn(cats, ch) {
      forall k | 0 <= k < |rest|
        ensures CategoryAt(cats, rest[k]).team.None?
      {
        assert rest[k] == ch[k + 1];
      }
    }
    if NoTeamOn(cats, rest) {
      forall k | 0 <= k < |ch|
        ensures CategoryAt(cats, ch[k]).team.None?
      {
        if k > 0 {
          assert ch[k] == rest[k - 1];
        }
      }
    }
  }

  /** A `helpdesk.team`: its assignment method, its members and whether it uses SLAs. */
  datatype Team = Team(assignMethod: string, members: set<int>, useSla: bool)

  type Teams = map<int, Team>

  /** `Team.browse(v)`; an id that names no stored team reads as no team. */
  function TeamOf(teams: Teams, v: Value): Option<Team> {
    if v.Num? && v.n in teams then Some(teams[v.n]) else None
  }

  predicate AssignsByCategory(team: Team) {
    team.assignMethod == "category"
  }

  /** The assignee taken from the category: its default user when that user is a member
      of the team, nobody otherwise. */
  function CategoryUser(c: Category, team: Team): (u: Option<int>)
    ensures u.Some? <==> c.user.Some? && c.user.value in team.members
    ensures u.Some? ==> u == c.user
  {
    if c.user.Some? && c.user.value in team.members then c.user else None
  }

  /** The team to set from the category: its own team; otherwise, unless the current team
      is kept, the nearest ancestor's team, else the fallback. None leaves the team as it is. */
  function SyncedTeam(cats: Categories, ghost rank: map<int, nat>, c: Category, keep: bool,
                      fallback: Option<int>): Option<int>
    requires Ranked(cats, rank)
  {
    if c.team.Some? then c.team
    else if keep then None
    else
      var a := AncestorTeam(cats, rank, c.parent);
      if a.Some? then a else fallback
  }

  /** The category's own team wins; a kept team is left alone; otherwise the team comes
      from the nearest ancestor that has one on the parent chain, and only when no
      ancestor has a team from the fallback. */
  lemma SyncedTeamNearest(cats: Categories, rank: map<int, nat>, c: Category, keep: bool,
                          fallback: Option<int>)
    requires Ranked(cats, rank)
    ensures c.team.Some? ==> SyncedTeam(cats, rank, c, keep, fallback) == c.team
    ensures c.team.None? && keep ==> SyncedTeam(cats, rank, c, keep, fallback).None?
    ensures var ch, t := Chain(cats, rank, c.parent), SyncedTeam(cats, rank, c, keep, fallback);
      c.team.None? && !keep ==>
        || (exists k :: 0 <= k < |ch| && CategoryAt(cats, ch[k]).team == t && t.Some?
                        && forall j :: 0 <= j < k ==> CategoryAt(cats, ch[j]).team.None?)
        || ((forall k :: 0 <= k < |ch| ==> CategoryAt(cats, ch[k]).team.None?) && t == fallback)
  {
    AncestorTeamNearest(cats, rank, c.parent);
  }

  /** `vals['team_id'] = t` when there is a team to set. */
  function SetTeam(vals: Vals, t: Option<int>): (r: Vals)
    ensures t.None? ==> r == vals
    ensures t.Some? ==> r == vals["team_id" := Num(t.value)]
  {
    if t.Some? then vals["team_id" := Num(t.value)] else vals
  }

  // ---------------------------------------------------------------------------
  // create and write: team and assignee
  // ---------------------------------------------------------------------------

  /** The database as `create`, `write` and the onchange see it. `firstTeamOf` is
      `Team.search([('company_id', '=', company)], limit=1)`. */
  datatype Db = Db(categories: Categories, teams: Teams, firstTeamOf: Value -> Option<int>,
                   currentCompany: int)

  /** The company fallback of `create`: the first team of `vals['company_id']` or of the
      current company. */
  function CreateFallbackTeam(db: Db, vals: Vals): Option<int> {
    var company := Get(vals, "company_id");
    db.firstTeamOf(if Truthy(company) then company else Num(db.currentCompany))
  }

  /** Steps 1 and 2 of `create` for one `vals`: the team from the category, then the
      assignee from the category when the team assigns by category and no user is given. */
  function CreateSynced(db: Db, ghost rank: map<int, nat>, vals: Vals): Vals
    requires Ranked(db.categories, rank)
  {
    var cid := Get(vals, "category_id");
    if !Truthy(cid) then vals
    else
      var c := CategoryOf(db.categories, cid);
      var v1 := SetTeam(vals, SyncedTeam(db.categories, rank, c, Truthy(Get(vals, "team_id")),
                                         CreateFallbackTeam(db, vals)));
      var team := if c.team.Some? then TeamOf(db.teams, Num(c.team.value))
                  else if Truthy(Get(v1, "team_id")) then TeamOf(db.teams, Get(v1, "team_id"))
                  else None;
      if team.Some? && AssignsByCategory(team.value) && !Truthy(Get(v1, "user_id"))
      then v1["user_id" := IdValue(CategoryUser(c, team.value))]
      else v1
  }

  /** `create` resolves the team: the category's own team; otherwise, when no team was
      supplied, the nearest ancestor's team, else the company's first team; a supplied
      team is kept when the category has none. Without a category nothing changes. */
  lemma CreateTeam(db: Db, rank: map<int, nat>, vals: Vals)
    requires Ranked(db.categories, rank)
    ensures var r, c := CreateSynced(db, rank, vals), CategoryOf(db.categories, Get(vals, "category_id"));
      && (!Truthy(Get(vals, "category_id")) ==> r == vals)
      && (Truthy(Get(vals, "category_id")) && c.team.Some? ==> Get(r, "team_id") == Num(c.team.value))
      && (Truthy(Get(vals, "category_id")) && c.team.None? && Truthy(Get(vals, "team_id")) ==>
            Get(r, "team_id") == Get(vals, "team_id"))
      && (Truthy(Get(vals, "category_id")) && c.team.None? && !Truthy(Get(vals, "team_id")) ==>
            var a := AncestorTeam(db.categories, rank, c.parent);
            Get(r, "team_id") == (if a.Some? then Num(a.value)
                                  else if CreateFallbackTeam(db, vals).Some? then Num(CreateFallbackTeam(db, vals).value)
                                  else Get(vals, "team_id")))
  {
  }

  /** `create` sets the assignee only when the resolved team assigns by category and no
      user was supplied, and then to the category's user exactly when that user is a team
      member, `False` otherwise; a supplied user is always kept. */
  lemma CreateAssignee(db: Db, rank: map<int, nat>, vals: Vals)
    requires Ranked(db.categories, rank)
    ensures var r := CreateSynced(db, rank, vals);
      Truthy(Get(vals, "user_id")) ==> Get(r, "user_id") == Get(vals, "user_id")
    ensures var r, c := CreateSynced(db, rank, vals), CategoryOf(db.categories, Get(vals, "category_id"));
      var team := TeamOf(db.teams, Get(r, "team_id"));
      Get(r, "user_id") != Get(vals, "user_id") ==>
        && Truthy(Get(vals, "category_id")) && team.Some? && AssignsByCategory(team.value)
        && Get(r, "user_id") == IdValue(CategoryUser(c, team.value))
    ensures var r, c := CreateSynced(db, rank, vals), CategoryOf(db.categories, Get(vals, "category_id"));
      var team := TeamOf(db.teams, Get(r, "team_id"));
      && Truthy(Get(vals, "category_id")) && !Truthy(Get(vals, "user_id"))
      && Truthy(Get(r, "team_id")) && team.Some? && AssignsByCategory(team.value) ==>
        Get(r, "user_id") == IdValue(CategoryUser(c, team.value))
  {
    var r := CreateSynced(db, rank, vals);
    if Truthy(Get(vals, "category_id")) {
      var c := CategoryOf(db.categories, Get(vals, "category_id"));
      var v1 := SetTeam(vals, SyncedTeam(db.categories, rank, c, Truthy(Get(vals, "team_id")),
                                         CreateFallbackTeam(db, vals)));
      if c.team.Some? {
        assert Get(v1, "team_id") == Num(c.team.value);
      }
    }
  }

  /** `create` writes no field but `team_id` and `user_id` before the SLA step. */
  lemma CreateTouchesTeamAndUser(db: Db, rank: map<int, nat>, vals: Vals)
    requires Ranked(db.categories, rank)
    ensures var r := CreateSynced(db, rank, vals);
      forall k :: k != "team_id" && k != "user_id" ==> (k in r <==> k in vals) && Get(r, k) == Get(vals, k)
  {
  }

  /** Steps 1 and 2 of `write`: the team from the category or its nearest ancestor, never a
      company default and never over a supplied `team_id` unless the category has its own;
      the assignee only for a single ticket without one and with no `user_id` in vals.
      `users` holds the current assignee of every ticket written. */
  function WriteSynced(db: Db, ghost rank: map<int, nat>, vals: Vals, users: seq<Option<int>>): Vals
    requires Ranked(db.categories, rank)
  {
    if "category_id" !in vals || !Truthy(vals["category_id"]) then vals
    else
      var c := CategoryOf(db.categories, vals["category_id"]);
      var v1 := SetTeam(vals, SyncedTeam(db.categories, rank, c, "team_id" in vals, None));
      var target := WriteTarget(db, c, v1);
      if && target.Some? && AssignsByCategory(target.value)
         && "user_id" !in v1 && |users| == 1 && users[0].None?
      then v1["user_id" := IdValue(CategoryUser(c, target.value))]
      else v1
  }

  /** The target team of `write`: a truthy `team_id` in vals, otherwise the category's own
      team; an id that names no stored team reads as none. */
  function WriteTarget(db: Db, c: Category, v: Vals): (t: Option<Team>)
    ensures "team_id" in v && Truthy(v["team_id"]) ==> t == TeamOf(db.teams, v["team_id"])
    ensures !("team_id" in v && Truthy(v["team_id"])) && c.team.None? ==> t.None?
    ensures t.Some? ==> t.value in db.teams.Values
  {
    if "team_id" in v && Truthy(v["team_id"]) then TeamOf(db.teams, v["team_id"])
    else if c.team.Some? then TeamOf(db.teams, Num(c.team.value))
    else None
  }

  /** `write` never falls back to a company team: the team it leaves is the one supplied,
      the category's own, or the nearest ancestor's; a supplied team survives unless the
      category has its own. */
  lemma WriteTeam(db: Db, rank: map<int, nat>, vals: Vals, users: seq<Option<int>>)
    requires Ranked(db.categories, rank)
    ensures var r := WriteSynced(db, rank, vals, users);
      var c := CategoryOf(db.categories, Get(vals, "category_id"));
      && ("team_id" in r ==>
            || ("team_id" in vals && r["team_id"] == vals["team_id"])
            || (c.team.Some? && r["team_id"] == Num(c.team.value))
            || (AncestorTeam(db.categories, rank, c.parent).Some?
                && r["team_id"] == Num(AncestorTeam(db.categories, rank, c.parent).value)))
      && ("team_id" in vals && c.team.None? ==> r["team_id"] == vals["team_id"])
      && ("team_id" !in r ==> "team_id" !in vals)
  {
  }

  /** `write` keeps a supplied `user_id`. It sets one exactly for a single ticket with no
      current assignee, no `user_id` in vals and a target team that assigns by category, and
      then to the category's user when that user is a member of the target team, `False`
      otherwise. */
  lemma WriteAssignee(db: Db, rank: map<int, nat>, vals: Vals, users: seq<Option<int>>)
    requires Ranked(db.categories, rank)
    ensures var r := WriteSynced(db, rank, vals, users);
      "user_id" in vals ==> "user_id" in r && r["user_id"] == vals["user_id"]
    ensures var r := WriteSynced(db, rank, vals, users);
      "user_id" in r && "user_id" !in vals ==>
        && "category_id" in vals && Truthy(vals["category_id"]) && |users| == 1 && users[0].None?
        && var c := CategoryOf(db.categories, vals["category_id"]);
           var target := WriteTarget(db, c, r);
           && target.Some? && AssignsByCategory(target.value)
           && r["user_id"] == IdValue(CategoryUser(c, target.value))
    ensures var r := WriteSynced(db, rank, vals, users);
      var c := CategoryOf(db.categories, Get(vals, "category_id"));
      var target := WriteTarget(db, c, r);
      && "category_id" in vals && Truthy(vals["category_id"])
      && "user_id" !in vals && |users| == 1 && users[0].None?
      && target.Some? && AssignsByCategory(target.value) ==>
        "user_id" in r && r["user_id"] == IdValue(CategoryUser(c, target.value))
  {
    var r := WriteSynced(db, rank, vals, users);
    if "category_id" in vals && Truthy(vals["category_id"]) {
      var c := CategoryOf(db.categories, vals["category_id"]);
      var v1 := SetTeam(vals, SyncedTeam(db.categories, rank, c, "team_id" in vals, None));
      var target := WriteTarget(db, c, v1);
      var assign := target.Some? && AssignsByCategory(target.value) && "user_id" !in v1 && |users| == 1 && users[0].None?;
      assert r == if assign then v1["user_id" := IdValue(CategoryUser(c, target.value))] else v1;
      assert ("user_id" in v1) == ("user_id" in vals);
      assert "user_id" in vals ==> v1["user_id"] == vals["user_id"];
      assert WriteTarget(db, c, r) == target by {
        assert ("team_id" in r) == ("team_id" in v1);
        assert "team_id" in v1 ==> r["team_id"] == v1["team_id"];
      }
    } else {
      assert r == vals;
    }
  }

  // ---------------------------------------------------------------------------
  // the many2many command fold that keeps at most one SLA
  // ---------------------------------------------------------------------------

  /** `set(cmd[2] or [])`; None where Python raises: a non-zero number, or a list with a
      list inside, which cannot be hashed. */
  function IdSet(v: Value): (r: Option<set<Value>>)
    ensures r.Some? ==> forall x :: x in r.value ==> !x.List?
  {
    if !Truthy(v) then Some({})
    else if v.List? && forall x :: x in v.elems ==> !x.List? then Some(set x | x in v.elems)
    else None
  }

  /** One step of the command loop of `create`; None where it raises. Anything that is not
      a non-empty list or tuple is skipped, as is an unknown operation. */
  function ApplyCommand(ids: set<Value>, cmd: Value): Option<set<Value>> {
    if !cmd.List? || cmd.elems == [] then Some(ids)
    else
      var op := cmd.elems[0];
      if op == Num(6) then (if |cmd.elems| < 3 then None else IdSet(cmd.elems[2]))
      else if op == Num(4) then (if |cmd.elems| < 2 || cmd.elems[1].List? then None
                                 else Some(ids + {cmd.elems[1]}))
      else if op == Num(3) then (if |cmd.elems| < 2 || cmd.elems[1].List? then None
                                 else Some(ids - {cmd.elems[1]}))
      else if op == Num(5) then Some({})
      else Some(ids)
  }

  /** The commands applied in order from the set s; None once one raises. */
  function FoldFrom(s: Option<set<Value>>, cmds: seq<Value>): Option<set<Value>>
    decreases |cmds|
  {
    if s.None? || cmds == [] then s
    else FoldFrom(ApplyCommand(s.value, cmds[0]), cmds[1..])
  }

  /** The final id set of a command list, starting from the empty set. */
  function Fold(cmds: seq<Value>): Option<set<Value>> {
    FoldFrom(Some({}), cmds)
  }

  /** The loop `for cmd in cmds`, left by the exception a malformed command raises. */
  method FoldCommands(cmds: seq<Value>) returns (ids: Option<set<Value>>)
    ensures ids == Fold(cmds)
  {
    ids := Some({});
    var i := 0;
    while i < |cmds|
      invariant 0 <= i <= |cmds|
      invariant ids.Some?
      invariant FoldFrom(ids, cmds[i..]) == Fold(cmds)
    {
      assert cmds[i..][1..] == cmds[i + 1..];
      var next := ApplyCommand(ids.value, cmds[i]);
      if next.None? {
        return None;
      }
      ids := next;
      i := i + 1;
    }
    assert cmds[i..] == [];
  }

  /** Folding a concatenation folds the second part from the result of the first. */
  lemma {:induction false} FoldConcat(s: Option<set<Value>>, a: seq<Value>, b: seq<Value>)
    ensures FoldFrom(s, a + b) == FoldFrom(FoldFrom(s, a), b)
    decreases |a|
  {
    if s.Some? && a != [] {
      assert (a + b)[0] == a[0];
      assert (a + b)[1..] == a[1..] + b;
      FoldConcat(ApplyCommand(s.value, a[0]), a[1..], b);
    } else if a == [] {
      assert a + b == b;
    }
  }

  /** The commands act in order: the last one applies to what the others left. */
  lemma FoldLast(a: seq<Value>, cmd: Value)
    ensures Fold(a + [cmd]) == (if Fold(a).Some? then ApplyCommand(Fold(a).value, cmd) else None)
  {
    FoldConcat(Some({}), a, [cmd]);
  }

  /** Operation 6 replaces the set and 5 clears it: what came before is forgotten. */
  lemma FoldReplaceForgets(a: seq<Value>, cmd: Value, b: seq<Value>)
    requires cmd.List? && cmd.elems != [] && (cmd.elems[0] == Num(6) || cmd.elems[0] == Num(5))
    requires Fold(a).Some?
    ensures Fold(a + [cmd] + b) == Fold([cmd] + b)
  {
    FoldConcat(Some({}), a + [cmd], b);
    FoldConcat(Some({}), [cmd], b);
    FoldLast(a, cmd);
    FoldLast([], cmd);
    assert [] + [cmd] == [cmd];
  }

  /** The folded set never holds a list, so it can be hashed. */
  lemma {:induction false} FoldHashable(s: Option<set<Value>>, cmds: seq<Value>)
    requires s.Some? ==> forall x :: x in s.value ==> !x.List?
    ensures var r := FoldFrom(s, cmds); r.Some? ==> forall x :: x in r.value ==> !x.List?
    decreases |cmds|
  {
    if s.Some? && cmds != [] {
      FoldHashable(ApplyCommand(s.value, cmds[0]), cmds[1..]);
    }
  }

  /** `vals['sla_ids']` folded; iterating anything but a list raises. */
  function FoldValue(v: Value): Option<set<Value>> {
    if v.List? then Fold(v.elems) else None
  }

  /** `[(6, 0, [x])]`. */
  function SingleSla(x: Value): Value {
    List([List([Num(6), Num(0), List([x])])])
  }

  /** The outcome of the SLA step of `create`: `sla_ids` rewritten to one `(6, 0, [x])` for
      some member x of the folded set; vals itself when the field is falsy, the fold raises
      or it ends empty. The member is `next(iter(ids))`, which no order fixes. */
  ghost predicate SlaClamped(vals: Vals, r: Vals) {
    var v := Get(vals, "sla_ids");
    if Truthy(v) && FoldValue(v).Some? && FoldValue(v).value != {} then
      exists x :: x in FoldValue(v).value && r == vals["sla_ids" := SingleSla(x)]
    else r == vals
  }

  /** `# Ensure at most one SLA is set`. */
  method ClampSla(vals: Vals) returns (r: Vals)
    ensures SlaClamped(vals, r)
  {
    r := vals;
    var v := Get(vals, "sla_ids");
    if Truthy(v) && v.List? {
      var ids := FoldCommands(v.elems);
      if ids.Some? && ids.value != {} {
        var x :| x in ids.value;
        r := vals["sla_ids" := SingleSla(x)];
      }
    }
  }

  /** `(6, 0, [x])` folds to exactly `{x}`. */
  lemma SingleSlaFolds(x: Value)
    requires !x.List?
    ensures FoldValue(SingleSla(x)) == Some({x})
  {
    var cmd := List([Num(6), Num(0), List([x])]);
    assert (set y | y in [x]) == {x};
    assert IdSet(List([x])) == Some({x});
    assert ApplyCommand({}, cmd) == Some({x});
    assert [cmd][1..] == [];
    assert FoldFrom(Some({}), [cmd]) == FoldFrom(Some({x}), []);
  }

  /** After the SLA step `sla_ids` names at most one SLA. */
  lemma ClampLeavesAtMostOne(vals: Vals, r: Vals)
    requires SlaClamped(vals, r)
    ensures var f := FoldValue(Get(r, "sla_ids")); f.Some? ==> |f.value| <= 1
  {
    var v := Get(vals, "sla_ids");
    if Truthy(v) && FoldValue(v).Some? && FoldValue(v).value != {} {
      var x :| x in FoldValue(v).value && r == vals["sla_ids" := SingleSla(x)];
      FoldHashable(Some({}), v.elems);
      SingleSlaFolds(x);
    } else if FoldValue(v).Some? {
      assert !Truthy(v) || FoldValue(v).value == {};
      if !Truthy(v) {
        assert v.elems == [];
      }
    }
  }

  /** The SLA step is idempotent: applied to its own result it changes nothing. */
  lemma ClampIdempotent(vals: Vals, r: Vals, r2: Vals)
    requires SlaClamped(vals, r) && SlaClamped(r, r2)
    ensures r2 == r
  {
    var v := Get(vals, "sla_ids");
    if Truthy(v) && FoldValue(v).Some? && FoldValue(v).value != {} {
      var x :| x in FoldValue(v).value && r == vals["sla_ids" := SingleSla(x)];
      FoldHashable(Some({}), v.elems);
      SingleSlaFolds(x);
      assert Get(r, "sla_ids") == SingleSla(x);
      var y :| y in FoldValue(SingleSla(x)).value && r2 == r["sla_ids" := SingleSla(y)];
      assert y == x;
    }
  }

  /** `create` for one `vals`: team and assignee from the category, then the SLA step. */
  method CreateVals(db: Db, ghost rank: map<int, nat>, vals: Vals) returns (r: Vals)
    requires Ranked(db.categories, rank)
    ensures SlaClamped(CreateSynced(db, rank, vals), r)
  {
    r := vals;
    var categoryId := Get(r, "category_id");
    if Truthy(categoryId) {
      var c := CategoryOf(db.categories, categoryId);
      if c.team.Some? {
        r := r["team_id" := Num(c.team.value)];
      } else if !Truthy(Get(r, "team_id")) {
        var found := FindAncestorTeam(db.categories, rank, c.parent);
        if found.Some? {
          r := r["team_id" := Num(found.value)];
        } else {
          var fallback := CreateFallbackTeam(db, r);
          if fallback.Some? {
            r := r["team_id" := Num(fallback.value)];
          }
        }
      }
      var team := if c.team.Some? then TeamOf(db.teams, Num(c.team.value))
                  else if Truthy(Get(r, "team_id")) then TeamOf(db.teams, Get(r, "team_id"))
                  else None;
      if team.Some? && AssignsByCategory(team.value) && !Truthy(Get(r, "user_id")) {
        r := r["user_id" := IdValue(CategoryUser(c, team.value))];
      }
    }
    assert r == CreateSynced(db, rank, vals);
    r := ClampSla(r);
  }

  /** `create` over `vals_list`: every `vals` prepared in order. */
  method CreateValsList(db: Db, ghost rank: map<int, nat>, valsList: seq<Vals>) returns (out: seq<Vals>)
    requires Ranked(db.categories, rank)
    ensures |out| == |valsList|
    ensures forall i :: 0 <= i < |out| ==> SlaClamped(CreateSynced(db, rank, valsList[i]), out[i])
  {
    out := [];
    for i := 0 to |valsList|
      invariant |out| == i
      invariant forall j :: 0 <= j < i ==> SlaClamped(CreateSynced(db, rank, valsList[j]), out[j])
    {
      var v := CreateVals(db, rank, valsList[i]);
      out := out + [v];
    }
  }

  /** Steps 1 and 2 of `write`, as the statements they are. */
  method WriteVals(db: Db, ghost rank: map<int, nat>, vals: Vals, users: seq<Option<int>>) returns (r: Vals)
    requires Ranked(db.categories, rank)
    ensures r == WriteSynced(db, rank, vals, users)
  {
    r := vals;
    if "category_id" in r && Truthy(r["category_id"]) {
      var c := CategoryOf(db.categories, r["category_id"]);
      if c.team.Some? {
        r := r["team_id" := Num(c.team.value)];
      } else if "team_id" !in r {
        var found := FindAncestorTeam(db.categories, rank, c.parent);
        if found.Some? {
          r := r["team_id" := Num(found.value)];
        }
      }
      var target := if c.team.Some? then TeamOf(db.teams, Num(c.team.value)) else None;
      if "team_id" in r && Truthy(r["team_id"]) {
        target := TeamOf(db.teams, r["team_id"]);
      }
      if target.Some? && AssignsByCategory(target.value) {
        if "user_id" !in r && |users| == 1 && users[0].None? {
          r := r["user_id" := IdValue(CategoryUser(c, target.value))];
        }
      }
    }
  }

  // ---------------------------------------------------------------------------
  // tickets and SLA policies
  // ---------------------------------------------------------------------------

  /** A stored ticket as the SLA logic and the constraints read it. `stage` is the
      sequence of its stage, if it has one. */
  datatype TicketRec = TicketRec(id: int, category: Option<int>, team: Option<int>, user: Option<int>,
                                 company: Option<int>, branch: Option<int>, priority: string,
                                 stage: Option<int>, tags: set<int>, slaIds: seq<int>, optOut: bool,
                                 bump: int)

  /** A `helpdesk.sla`: its team, priority, target stage sequence, categories and tags. */
  datatype Sla = Sla(id: int, team: Option<int>, priorityAll: bool, priority: string, stageSeq: int,
                     categories: set<int>, tags: set<int>)

  /** `ticket.stage_id.sequence`, 0 on the empty record. */
  function StageSeq(t: TicketRec): int {
    if t.stage.Some? then t.stage.value else 0
  }

  /** SLA without category, or with one among the ancestors of the ticket's category; a
      ticket without category takes only SLAs without category. */
  predicate CategoryMatches(category: Option<int>, ancestors: set<int>, sla: Sla) {
    if category.Some? then sla.categories == {} || sla.categories * ancestors != {}
    else sla.categories == {}
  }

  /** SLA without tags, or sharing a tag with the ticket(s). */
  predicate TagsMatch(tags: set<int>, sla: Sla) {
    sla.tags == {} || sla.tags * tags != {}
  }

  /** `_onchange_sla_ids_domain` for one ticket: whether the domain it returns admits sla.
      `ancestors` is the `parent_of` search for the ticket's category. Opting out leaves
      `[('id', '=', 0)]`. */
  predicate DomainAdmits(t: TicketRec, ancestors: set<int>, sla: Sla) {
    if t.optOut then sla.id == 0
    else
      && (if t.team.Some? then sla.team.None? || sla.team == t.team else sla.team.None?)
      && (sla.priorityAll || sla.priority == t.priority)
      && (t.stage.Some? ==> sla.stageSeq >= t.stage.value)
      && CategoryMatches(t.category, ancestors, sla)
      && TagsMatch(t.tags, sla)
  }

  /** The base domain of `_sla_find`: the ticket's explicit SLAs when it has some,
      otherwise team, priority, stage sequence and category. */
  predicate FindBase(t: TicketRec, ancestors: set<int>, sla: Sla) {
    if t.slaIds != [] then sla.id in t.slaIds
    else
      && (sla.team.None? || sla.team == t.team)
      && (sla.priorityAll || sla.priority == t.priority)
      && sla.stageSeq >= StageSeq(t)
      && CategoryMatches(t.category, ancestors, sla)
  }

  /** An opted-out ticket can select no stored SLA (stored ids are positive). */
  lemma OptOutAdmitsNothing(t: TicketRec, ancestors: set<int>, sla: Sla)
    requires t.optOut && sla.id > 0
    ensures !DomainAdmits(t, ancestors, sla)
  {
  }

  /** For a ticket with a team and a stage and no explicit SLA, the onchange domain
      admits exactly the SLAs `_sla_find` matches before its extra domain. */
  lemma DomainAgreesWithFind(t: TicketRec, ancestors: set<int>, sla: Sla)
    requires !t.optOut && t.team.Some? && t.stage.Some? && t.slaIds == []
    ensures DomainAdmits(t, ancestors, sla) <==> FindBase(t, ancestors, sla) && TagsMatch(t.tags, sla)
  {
  }

  /** Without a team the onchange domain admits only team-agnostic SLAs, where `_sla_find`
      never looks at such a ticket at all. */
  lemma DomainWithoutTeam(t: TicketRec, ancestors: set<int>, sla: Sla)
    requires !t.optOut && t.team.None? && sla.team.Some?
    ensures !DomainAdmits(t, ancestors, sla)
  {
  }

  // ---------------------------------------------------------------------------
  // the form: onchanges and the recompute bump
  // ---------------------------------------------------------------------------

  /** The first SLA and nothing else: what `(6, 0, [sla_ids[:1].id])` leaves. */
  function KeepFirst(s: seq<int>): seq<int> {
    if |s| > 1 then [s[0]] else s
  }

  /** At most one SLA remains, it is the first, a list of one or none is left alone, and
      doing it twice changes nothing more. */
  lemma KeepFirstProperties(s: seq<int>)
    ensures |KeepFirst(s)| <= 1 && KeepFirst(s) <= s
    ensures s != [] <==> KeepFirst(s) != []
    ensures s != [] ==> KeepFirst(s) == [s[0]]
    ensures KeepFirst(KeepFirst(s)) == KeepFirst(s)
  {
  }

  /** The category onchange keeps only a team: its own, the nearest ancestor's, or else the
      company's first team when the ticket has none. */
  function OnchangeTeam(db: Db, ghost rank: map<int, nat>, c: Category, team: Option<int>,
                        company: Option<int>): Option<int>
    requires Ranked(db.categories, rank)
  {
    var fallback := db.firstTeamOf(Num(if company.Some? then company.value else db.currentCompany));
    var t := SyncedTeam(db.categories, rank, c, team.Some?, fallback);
    if t.Some? then t else team
  }

  /** The assignee after the team step: the category's user, or nobody, when the team
      assigns by category; otherwise as it was. */
  function OnchangeUser(db: Db, c: Category, team: Option<int>, user: Option<int>): Option<int> {
    var target := TeamOf(db.teams, IdValue(team));
    if team.Some? && target.Some? && AssignsByCategory(target.value) then CategoryUser(c, target.value)
    else user
  }

  /** The members the assignee may be chosen from. */
  function AllowedUsers(db: Db, team: Option<int>): set<int> {
    var t := TeamOf(db.teams, IdValue(team));
    if team.Some? && t.Some? then t.value.members else {}
  }

  /** The ticket after the category onchange: team, assignee, and a default SLA when none
      is chosen; nothing changes without a category. `defaultSla` is the first SLA whose
      categories meet the category's ancestors, None when there is none or the search
      raises. */
  function OnchangeState(db: Db, ghost rank: map<int, nat>, r: TicketRec, defaultSla: Option<int>): TicketRec
    requires Ranked(db.categories, rank)
  {
    if r.category.None? then r
    else
      var c := CategoryAt(db.categories, r.category.value);
      var team := OnchangeTeam(db, rank, c, r.team, r.company);
      r.(team := team, user := OnchangeUser(db, c, team, r.user),
         slaIds := if !r.optOut && r.slaIds == [] && defaultSla.Some? then [defaultSla.value] else r.slaIds)
  }

  /** The three steps of the category onchange for one ticket, as statements. */
  method OnchangeValues(db: Db, ghost rank: map<int, nat>, r: TicketRec, defaultSla: Option<int>)
      returns (out: TicketRec)
    requires Ranked(db.categories, rank)
    ensures out == OnchangeState(db, rank, r, defaultSla)
  {
    out := r;
    if r.category.Some? {
      var c := CategoryAt(db.categories, r.category.value);
      var team := OnchangeTeamStep(db, rank, c, r.team, r.company);
      out := out.(team := team);
      var target := TeamOf(db.teams, IdValue(out.team));
      if out.team.Some? && target.Some? && AssignsByCategory(target.value) {
        out := out.(user := CategoryUser(c, target.value));
      }
      if !r.optOut && r.slaIds == [] && defaultSla.Some? {
        out := out.(slaIds := [defaultSla.value]);
      }
    }
  }

  /** The team step of the category onchange, as statements. */
  method OnchangeTeamStep(db: Db, ghost rank: map<int, nat>, c: Category, team: Option<int>,
                          company: Option<int>) returns (t: Option<int>)
    requires Ranked(db.categories, rank)
    ensures t == OnchangeTeam(db, rank, c, team, company)
  {
    t := team;
    if c.team.Some? {
      t := c.team;
    } else if team.None? {
      var found := FindAncestorTeam(db.categories, rank, c.parent);
      if found.Some? {
        t := found;
      } else {
        var fallback := db.firstTeamOf(Num(if company.Some? then company.value else db.currentCompany));
        if fallback.Some? {
          t := fallback;
        }
      }
    }
  }

  /** `helpdesk.ticket` as the form edits it. */
  class Ticket {
    var id: int
    var category: Option<int>
    var team: Option<int>
    var user: Option<int>
    var company: Option<int>
    var branch: Option<int>
    var priority: string
    var stage: Option<int>
    var tags: set<int>
    var slaIds: seq<int>
    var optOut: bool
    var bump: int

    constructor (r: TicketRec)
      ensures Snapshot() == r
    {
      id, category, team, user := r.id, r.category, r.team, r.user;
      company, branch, priority, stage := r.company, r.branch, r.priority, r.stage;
      tags, slaIds, optOut, bump := r.tags, r.slaIds, r.optOut, r.bump;
    }

    /** The ticket's current values. */
    function Snapshot(): TicketRec
      reads this
    {
      TicketRec(id, category, team, user, company, branch, priority, stage, tags, slaIds, optOut, bump)
    }

    /** `_onchange_category_id_set_team_and_user` for this ticket; the result is the
        member domain offered for the assignee. */
    method OnchangeCategory(db: Db, ghost rank: map<int, nat>, defaultSla: Option<int>)
        returns (allowed: set<int>)
      requires Ranked(db.categories, rank)
      modifies this
      ensures Snapshot() == OnchangeState(db, rank, old(Snapshot()), defaultSla)
      ensures allowed == AllowedUsers(db, team)
    {
      var r := OnchangeValues(db, rank, Snapshot(), defaultSla);
      team, user, slaIds := r.team, r.user, r.slaIds;
      allowed := AllowedUsers(db, team);
    }

    /** `_onchange_sla_ids_limit_one`: keep only the first SLA. */
    method LimitOneSla()
      modifies this
      ensures slaIds == KeepFirst(old(slaIds))
      ensures Snapshot() == old(Snapshot()).(slaIds := slaIds)
    {
      if |slaIds| > 1 {
        slaIds := [slaIds[0]];
      }
    }

    /** `_bump_sla` for this ticket. */
    method BumpSla()
      modifies this
      ensures bump == old(bump) + 1
      ensures Snapshot() == old(Snapshot()).(bump := bump)
    {
      bump := bump + 1;
    }
  }

  /** The category onchange never leaves an assignee from the category who is not a member
      of a team that assigns by category. */
  lemma OnchangeAssigneeIsMember(db: Db, c: Category, team: Option<int>, user: Option<int>)
    requires var t := TeamOf(db.teams, IdValue(team)); team.Some? && t.Some? && AssignsByCategory(t.value)
    ensures var u := OnchangeUser(db, c, team, user);
      u.Some? ==> u.value in AllowedUsers(db, team) && u == c.user
    ensures var u, t := OnchangeUser(db, c, team, user), TeamOf(db.teams, IdValue(team));
      && (c.user.Some? && c.user.value in t.value.members ==> u == c.user)
      && (!(c.user.Some? && c.user.value in t.value.members) ==> u.None?)
  {
  }

  /** `_bump_sla` over a recordset: every ticket's counter goes up by one. */
  method BumpAll(tickets: seq<Ticket>)
    requires forall i, j :: 0 <= i < j < |tickets| ==> tickets[i] != tickets[j]
    modifies set t | t in tickets
    ensures forall i :: 0 <= i < |tickets| ==>
      tickets[i].Snapshot() == old(tickets[i].Snapshot()).(bump := old(tickets[i].bump) + 1)
  {
    for i := 0 to |tickets|
      invariant forall j :: 0 <= j < i ==>
        tickets[j].Snapshot() == old(tickets[j].Snapshot()).(bump := old(tickets[j].bump) + 1)
      invariant forall j :: i <= j < |tickets| ==> tickets[j].Snapshot() == old(tickets[j].Snapshot())
    {
      tickets[i].BumpSla();
    }
  }

  /** The compression step of `write`: every ticket with several SLAs keeps the first. */
  method CompressSlas(tickets: seq<Ticket>)
    requires forall i, j :: 0 <= i < j < |tickets| ==> tickets[i] != tickets[j]
    modifies set t | t in tickets
    ensures forall i :: 0 <= i < |tickets| ==>
      tickets[i].Snapshot() == old(tickets[i].Snapshot()).(slaIds := KeepFirst(old(tickets[i].slaIds)))
  {
    for i := 0 to |tickets|
      invariant forall j :: 0 <= j < i ==>
        tickets[j].Snapshot() == old(tickets[j].Snapshot()).(slaIds := KeepFirst(old(tickets[j].slaIds)))
      invariant forall j :: i <= j < |tickets| ==> tickets[j].Snapshot() == old(tickets[j].Snapshot())
    {
      if |tickets[i].slaIds| > 1 {
        tickets[i].LimitOneSla();
      }
    }
  }

  // ---------------------------------------------------------------------------
  // trigger fields and `_sla_find`
  // ---------------------------------------------------------------------------

  /** `_sla_reset_trigger`: the inherited trigger fields followed by the three of this
      extension, each kept at its first occurrence. */
  function TriggerFields(base: seq<string>): seq<string> {
    Dedup(base + ["category_id", "sla_recompute_bump", "sla_opt_out"])
  }

  /** The trigger fields are distinct, are exactly the inherited ones and the three added
      ones, keep the order of first occurrences, and always include the three. */
  lemma TriggerFieldsProperties(base: seq<string>)
    ensures NoDuplicates(TriggerFields(base))
    ensures forall f :: f in TriggerFields(base) <==>
      f in base || f == "category_id" || f == "sla_recompute_bump" || f == "sla_opt_out"
    ensures var all := base + ["category_id", "sla_recompute_bump", "sla_opt_out"];
      forall i, j :: 0 <= i < j < |TriggerFields(base)| ==>
        FirstIndex(all, TriggerFields(base)[i]) < FirstIndex(all, TriggerFields(base)[j])
  {
    var all := base + ["category_id", "sla_recompute_bump", "sla_opt_out"];
    DedupNoDuplicates(all);
    DedupMembers(all);
    DedupOrder(all);
    assert all[|base|] == "category_id";
    assert all[|base| + 1] == "sla_recompute_bump";
    assert all[|base| + 2] == "sla_opt_out";
  }

  /** What `_sla_find` reads besides the tickets: the teams, the SLA table in search order,
      the `parent_of` search, the inherited trigger fields, the value a ticket holds for a
      field (many2one fields by id), and the inherited extra domain. */
  datatype SlaDb = SlaDb(teams: Teams, slas: seq<Sla>, ancestorsOf: int -> set<int>,
                         baseTriggers: seq<string>, field: (TicketRec, string) -> Value,
                         extra: (TicketRec, Sla) -> bool)

  /** The tickets `_sla_find` considers: not opted out, with a team that uses SLAs. */
  predicate Eligible(teams: Teams, t: TicketRec) {
    !t.optOut && t.team.Some? && t.team.value in teams && teams[t.team.value].useSla
  }

  /** `_generate_key`: the ticket's values of the trigger fields, in order. */
  function Key(db: SlaDb, t: TicketRec): seq<Value> {
    var fs := TriggerFields(db.baseTriggers);
    seq(|fs|, i requires 0 <= i < |fs| => db.field(t, fs[i]))
  }

  method GenerateKey(db: SlaDb, t: TicketRec) returns (key: seq<Value>)
    ensures key == Key(db, t)
  {
    var fs := TriggerFields(db.baseTriggers);
    key := [];
    for i := 0 to |fs|
      invariant key == seq(i, j requires 0 <= j < i => db.field(t, fs[j]))
    {
      key := key + [db.field(t, fs[i])];
    }
  }

  /** `tickets_map`: the eligible tickets grouped by key, in order. */
  function Groups(db: SlaDb, tickets: seq<TicketRec>): (g: map<seq<Value>, seq<TicketRec>>)
    ensures forall k :: k in g ==> |g[k]| > 0
    decreases |tickets|
  {
    if tickets == [] then map[]
    else
      var g := Groups(db, tickets[..|tickets| - 1]);
      var t := tickets[|tickets| - 1];
      if !Eligible(db.teams, t) then g
      else
        var k := Key(db, t);
        g[k := (if k in g then g[k] else []) + [t]]
  }

  /** The eligible tickets with key k, in order. */
  function WithKey(db: SlaDb, tickets: seq<TicketRec>, k: seq<Value>): seq<TicketRec> {
    Filter(tickets, u => Eligible(db.teams, u) && Key(db, u) == k)
  }

  /** A key has a group exactly when an eligible ticket has that key, and the group is
      those tickets in their order. */
  lemma {:induction false} GroupsAreFilters(db: SlaDb, tickets: seq<TicketRec>)
    ensures forall k :: k in Groups(db, tickets) <==> WithKey(db, tickets, k) != []
    ensures forall k :: k in Groups(db, tickets) ==> Groups(db, tickets)[k] == WithKey(db, tickets, k)
    decreases |tickets|
  {
    if tickets != [] {
      var p := tickets[..|tickets| - 1];
      var t := tickets[|tickets| - 1];
      assert tickets == p + [t];
      GroupsAreFilters(db, p);
      forall k
        ensures WithKey(db, tickets, k) == WithKey(db, p, k)
                  + (if Eligible(db.teams, t) && Key(db, t) == k then [t] else [])
      {
        FilterAppend(p, t, u => Eligible(db.teams, u) && Key(db, u) == k);
      }
    }
  }

  /** The tags of all tickets of a group: `tickets.tag_ids`. */
  function UnionTags(group: seq<TicketRec>): (r: set<int>)
    ensures forall x :: x in r <==> exists i :: 0 <= i < |group| && x in group[i].tags
    decreases |group|
  {
    if group == [] then {}
    else
      var r := UnionTags(group[1..]);
      assert forall i :: 1 <= i < |group| ==> group[i] == group[1..][i - 1];
      group[0].tags + r
  }

  /** `sla_domain_map[key]`: the ticket that built the domain and the ancestors it read. */
  datatype SlaDomain = SlaDomain(ticket: TicketRec, ancestors: set<int>)

  /** `ticket.category_id` and its ancestors; none without a category. */
  function AncestorsFor(db: SlaDb, t: TicketRec): set<int> {
    if t.category.Some? then db.ancestorsOf(t.category.value) else {}
  }

  /** The SLA ids `_sla_find` gives a group: the SLAs its domain, built from its first
      ticket, admits, with no tags or a tag of some ticket of the group. */
  function Applicable(db: SlaDb, group: seq<TicketRec>): set<int>
    requires |group| > 0
  {
    var t := group[0];
    set s | s in db.slas && FindBase(t, AncestorsFor(db, t), s) && db.extra(t, s)
                         && TagsMatch(UnionTags(group), s) :: s.id
  }

  /** Stored SLAs have distinct ids. */
  predicate DistinctSlaIds(slas: seq<Sla>) {
    forall i, j :: 0 <= i < j < |slas| ==> slas[i].id != slas[j].id
  }

  /** An SLA applies to a group when it is among the first ticket's explicit SLAs, or,
      without those, it matches the first ticket's team, priority, stage sequence and
      category; and it passes the extra domain and has no tags or shares one with some
      ticket of the group. */
  lemma ApplicableIff(db: SlaDb, group: seq<TicketRec>, s: Sla)
    requires |group| > 0 && s in db.slas && DistinctSlaIds(db.slas)
    ensures var t := group[0];
      s.id in Applicable(db, group) <==>
        && (t.slaIds != [] ==> s.id in t.slaIds)
        && (t.slaIds == [] ==>
              && (s.team.None? || s.team == t.team)
              && (s.priorityAll || s.priority == t.priority)
              && s.stageSeq >= StageSeq(t)
              && CategoryMatches(t.category, AncestorsFor(db, t), s))
        && db.extra(t, s)
        && (s.tags == {} || exists i :: 0 <= i < |group| && s.tags * group[i].tags != {})
  {
    var t := group[0];
    var u := UnionTags(group);
    if s.id in Applicable(db, group) {
      var s' :| s' in db.slas && FindBase(t, AncestorsFor(db, t), s') && db.extra(t, s')
                && TagsMatch(u, s') && s'.id == s.id;
      var i :| 0 <= i < |db.slas| && db.slas[i] == s;
      var j :| 0 <= j < |db.slas| && db.slas[j] == s';
      assert i == j;
      assert s == s';
      if s.tags != {} {
        assert s.tags * u != {};
        NonEmptyHasMember(s.tags * u);
        var x :| x in s.tags * u;
        var k :| 0 <= k < |group| && x in group[k].tags;
        assert x in s.tags * group[k].tags;
      }
    } else {
      if s.tags != {} && exists i :: 0 <= i < |group| && s.tags * group[i].tags != {} {
        var i :| 0 <= i < |group| && s.tags * group[i].tags != {};
        NonEmptyHasMember(s.tags * group[i].tags);
        var x :| x in s.tags * group[i].tags;
        assert x in s.tags * u;
      }
    }
  }

  lemma NonEmptyHasMember(xs: set<int>)
    requires xs != {}
    ensures exists x :: x in xs
  {
    if forall x :: x !in xs {
      assert false;
    }
  }

  /** The SLA search of one group. */
  method SearchSlas(db: SlaDb, d: SlaDomain, group: seq<TicketRec>) returns (ids: set<int>)
    requires |group| > 0 && d.ticket == group[0] && d.ancestors == AncestorsFor(db, group[0])
    ensures ids == Applicable(db, group)
  {
    var tags := UnionTags(group);
    ids := set s | s in db.slas && FindBase(d.ticket, d.ancestors, s) && db.extra(d.ticket, s)
                                && TagsMatch(tags, s) :: s.id;
  }

  /** `_sla_find`: the eligible tickets grouped by key, and for each key the SLA ids of
      its group. */
  method SlaFind(db: SlaDb, tickets: seq<TicketRec>)
      returns (groups: map<seq<Value>, seq<TicketRec>>, found: map<seq<Value>, set<int>>)
    ensures groups == Groups(db, tickets)
    ensures found.Keys == groups.Keys
    ensures forall k :: k in found ==> found[k] == Applicable(db, groups[k])
  {
    var domains;
    groups, domains := GroupTickets(db, tickets);
    found := SearchGroups(db, groups, domains);
  }

  /** The first loop of `_sla_find`: `tickets_map`, and `sla_domain_map` built from the
      first ticket of each key. Ancestor sets are read once per category. */
  method GroupTickets(db: SlaDb, tickets: seq<TicketRec>)
      returns (groups: map<seq<Value>, seq<TicketRec>>, domains: map<seq<Value>, SlaDomain>)
    ensures groups == Groups(db, tickets)
    ensures domains.Keys == groups.Keys
    ensures forall k :: k in domains ==>
      domains[k].ticket == groups[k][0] && domains[k].ancestors == AncestorsFor(db, groups[k][0])
  {
    groups := map[];
    domains := map[];
    var cache: map<int, set<int>> := map[];
    for i := 0 to |tickets|
      invariant groups == Groups(db, tickets[..i])
      invariant DomainsOf(db, groups, domains)
      invariant forall c :: c in cache ==> cache[c] == db.ancestorsOf(c)
    {
      GroupsSnoc(db, tickets, i);
      groups, domains, cache := GroupTicket(db, groups, domains, cache, tickets[i]);
    }
    assert tickets[..|tickets|] == tickets;
  }

  /** Every group has a domain, built from its first ticket. */
  predicate DomainsOf(db: SlaDb, groups: map<seq<Value>, seq<TicketRec>>, domains: map<seq<Value>, SlaDomain>) {
    && domains.Keys == groups.Keys
    && forall k :: k in domains ==>
         |groups[k]| > 0 && domains[k].ticket == groups[k][0] && domains[k].ancestors == AncestorsFor(db, groups[k][0])
  }

  /** One turn of the first loop of `_sla_find`: an eligible ticket joins its key's group,
      and a new group gets its domain, the category's ancestors looked up once. */
  method GroupTicket(db: SlaDb, groups: map<seq<Value>, seq<TicketRec>>, domains: map<seq<Value>, SlaDomain>,
                     cache: map<int, set<int>>, t: TicketRec)
      returns (groups': map<seq<Value>, seq<TicketRec>>, domains': map<seq<Value>, SlaDomain>, cache': map<int, set<int>>)
    requires DomainsOf(db, groups, domains)
    requires forall c :: c in cache ==> cache[c] == db.ancestorsOf(c)
    ensures groups' == if !Eligible(db.teams, t) then groups
                       else groups[Key(db, t) := (if Key(db, t) in groups then groups[Key(db, t)] else []) + [t]]
    ensures DomainsOf(db, groups', domains')
    ensures forall c :: c in cache' ==> cache'[c] == db.ancestorsOf(c)
  {
    groups', domains', cache' := groups, domains, cache;
    if t.optOut || !(t.team.Some? && t.team.value in db.teams && db.teams[t.team.value].useSla) {
      return;
    }
    var key := GenerateKey(db, t);
    groups' := groups[key := (if key in groups then groups[key] else []) + [t]];
    if key !in domains {
      var ancestors: set<int> := {};
      if t.category.Some? {
        var cat := t.category.value;
        if cat !in cache {
          cache' := cache[cat := db.ancestorsOf(cat)];
        }
        ancestors := cache'[cat];
      }
      domains' := domains[key := SlaDomain(t, ancestors)];
    }
  }

  /** One more ticket: grouped under its key when eligible, ignored otherwise. */
  lemma GroupsSnoc(db: SlaDb, tickets: seq<TicketRec>, i: nat)
    requires i < |tickets|
    ensures var g, t := Groups(db, tickets[..i]), tickets[i];
      Groups(db, tickets[..i + 1])
        == if !Eligible(db.teams, t) then g
           else g[Key(db, t) := (if Key(db, t) in g then g[Key(db, t)] else []) + [t]]
  {
    assert tickets[..i + 1][..i] == tickets[..i];
    assert tickets[..i + 1][i] == tickets[i];
  }

  /** The second loop of `_sla_find`: the SLA search of every group. */
  method SearchGroups(db: SlaDb, groups: map<seq<Value>, seq<TicketRec>>, domains: map<seq<Value>, SlaDomain>)
      returns (found: map<seq<Value>, set<int>>)
    requires forall k :: k in groups ==> |groups[k]| > 0
    requires domains.Keys == groups.Keys
    requires forall k :: k in domains ==>
      domains[k].ticket == groups[k][0] && domains[k].ancestors == AncestorsFor(db, groups[k][0])
    ensures found.Keys == groups.Keys
    ensures forall k :: k in found ==> found[k] == Applicable(db, groups[k])
  {
    found := map[];
    var todo := groups.Keys;
    while todo != {}
      invariant todo <= groups.Keys
      invariant found.Keys == groups.Keys - todo
      invariant forall k :: k in found ==> found[k] == Applicable(db, groups[k])
      decreases |todo|
    {
      var k :| k in todo;
      var ids := SearchSlas(db, domains[k], groups[k]);
      found := found[k := ids];
      todo := todo - {k};
    }
  }

  // ---------------------------------------------------------------------------
  // pruning obsolete SLA statuses
  // ---------------------------------------------------------------------------

  /** A `helpdesk.sla.status`: its ticket and its SLA. */
  datatype Status = Status(id: int, ticket: int, sla: int)

  /** Recordset tickets are distinct records. */
  predicate DistinctTicketIds(tickets: seq<TicketRec>) {
    forall i, j :: 0 <= i < j < |tickets| ==> tickets[i].id != tickets[j].id
  }

  /** `allowed_by_ticket.get(ticket.id, set())`: the SLA ids of the ticket's group, none
      for a ticket `_sla_find` skips. */
  ghost function AllowedFor(db: SlaDb, tickets: seq<TicketRec>, t: TicketRec): set<int> {
    var g := Groups(db, tickets);
    var k := Key(db, t);
    if Eligible(db.teams, t) && k in g then Applicable(db, g[k]) else {}
  }

  /** The statuses of ticket t to unlink: all of them when nothing is allowed, otherwise
      those whose SLA is not allowed. */
  ghost function ObsoleteOf(statuses: seq<Status>, t: TicketRec, allowed: set<int>): set<int> {
    set st | st in statuses && st.ticket == t.id && (allowed == {} || st.sla !in allowed) :: st.id
  }

  ghost function ObsoleteUpTo(db: SlaDb, tickets: seq<TicketRec>, statuses: seq<Status>, n: nat): set<int>
    requires n <= |tickets|
  {
    if n == 0 then {}
    else ObsoleteUpTo(db, tickets, statuses, n - 1)
           + ObsoleteOf(statuses, tickets[n - 1], AllowedFor(db, tickets, tickets[n - 1]))
  }

  /** `_cleanup_obsolete_sla_statuses_after_change`: nothing unless some written field is a
      trigger field; otherwise the statuses of every ticket that no longer match. */
  ghost function Obsolete(db: SlaDb, tickets: seq<TicketRec>, statuses: seq<Status>, written: set<string>): set<int> {
    var triggers := TriggerFields(db.baseTriggers);
    if forall f :: f in written ==> f !in triggers then {}
    else ObsoleteUpTo(db, tickets, statuses, |tickets|)
  }

  /** A status is pruned exactly when a trigger field was written and it belongs to a ticket
      that is allowed no SLA, or whose allowed SLAs do not include the status's SLA. The
      status's `reached` state plays no part. */
  lemma ObsoleteIff(db: SlaDb, tickets: seq<TicketRec>, statuses: seq<Status>, written: set<string>, x: int)
    ensures x in Obsolete(db, tickets, statuses, written) <==>
      && (exists f :: f in written && f in TriggerFields(db.baseTriggers))
      && exists st, t :: st in statuses && t in tickets && st.id == x && st.ticket == t.id
                         && (AllowedFor(db, tickets, t) == {} || st.sla !in AllowedFor(db, tickets, t))
  {
    if exists f :: f in written && f in TriggerFields(db.baseTriggers) {
      ObsoleteUpToIff(db, tickets, statuses, |tickets|, x);
    }
  }

  lemma {:induction false} ObsoleteUpToIff(db: SlaDb, tickets: seq<TicketRec>, statuses: seq<Status>, n: nat, x: int)
    requires n <= |tickets|
    ensures x in ObsoleteUpTo(db, tickets, statuses, n) <==>
      exists st, i :: st in statuses && 0 <= i < n && st.id == x && st.ticket == tickets[i].id
                      && var a := AllowedFor(db, tickets, tickets[i]); (a == {} || st.sla !in a)
    ensures n == |tickets| ==> (x in ObsoleteUpTo(db, tickets, statuses, n) <==>
      exists st, t :: st in statuses && t in tickets && st.id == x && st.ticket == t.id
                      && (AllowedFor(db, tickets, t) == {} || st.sla !in AllowedFor(db, tickets, t)))
  {
    if n > 0 {
      ObsoleteUpToIff(db, tickets, statuses, n - 1, x);
    }
    if n == |tickets| {
      if exists st, t :: st in statuses && t in tickets && st.id == x && st.ticket == t.id
                         && (AllowedFor(db, tickets, t) == {} || st.sla !in AllowedFor(db, tickets, t)) {
        var st, t :| st in statuses && t in tickets && st.id == x && st.ticket == t.id
                     && (AllowedFor(db, tickets, t) == {} || st.sla !in AllowedFor(db, tickets, t));
        var i :| 0 <= i < |tickets| && tickets[i] == t;
      }
    }
  }

  /** The ids of a group's tickets. */
  function GroupIds(members: seq<TicketRec>): set<int> {
    set u | u in members :: u.id
  }

  /** A ticket's id is among its group's ids exactly when the ticket belongs to the group:
      record ids tell tickets apart. */
  lemma GroupIdsOfTickets(db: SlaDb, tickets: seq<TicketRec>, k: seq<Value>)
    requires DistinctTicketIds(tickets) && k in Groups(db, tickets)
    ensures forall t :: t in tickets ==>
      (t.id in GroupIds(Groups(db, tickets)[k]) <==> Eligible(db.teams, t) && Key(db, t) == k)
  {
    GroupsAreFilters(db, tickets);
    var members := Groups(db, tickets)[k];
    forall t | t in tickets && t.id in GroupIds(members)
      ensures Eligible(db.teams, t) && Key(db, t) == k
    {
      var u :| u in members && u.id == t.id;
      var a :| 0 <= a < |tickets| && tickets[a] == t;
      var b :| 0 <= b < |tickets| && tickets[b] == u;
      assert a == b;
    }
  }

  /** The inner loop of `allowed_by_ticket`: every ticket of one group gets its SLA ids. */
  method AssignGroup(allowed: map<int, set<int>>, members: seq<TicketRec>, ids: set<int>)
      returns (r: map<int, set<int>>)
    ensures r.Keys == allowed.Keys + GroupIds(members)
    ensures forall x :: x in r ==> r[x] == (if x in GroupIds(members) then ids else allowed[x])
  {
    r := allowed;
    for j := 0 to |members|
      invariant r.Keys == allowed.Keys + GroupIds(members[..j])
      invariant forall x :: x in r ==> r[x] == (if x in GroupIds(members[..j]) then ids else allowed[x])
    {
      assert members[..j + 1] == members[..j] + [members[j]];
      assert GroupIds(members[..j + 1]) == GroupIds(members[..j]) + {members[j].id};
      r := r[members[j].id := ids];
    }
    assert members[..|members|] == members;
  }

  /** The `allowed_by_ticket` loop: each ticket of each group gets its group's SLA ids. */
  method AllowedByTicket(db: SlaDb, tickets: seq<TicketRec>, groups: map<seq<Value>, seq<TicketRec>>,
                         found: map<seq<Value>, set<int>>)
      returns (allowed: map<int, set<int>>)
    requires DistinctTicketIds(tickets)
    requires groups == Groups(db, tickets) && found.Keys == groups.Keys
    requires forall k :: k in found ==> found[k] == Applicable(db, groups[k])
    ensures forall t :: t in tickets ==> (if t.id in allowed then allowed[t.id] else {}) == AllowedFor(db, tickets, t)
  {
    allowed := map[];
    var todo := found.Keys;
    while todo != {}
      invariant todo <= found.Keys
      invariant forall t :: t in tickets ==>
        (t.id in allowed <==> Eligible(db.teams, t) && Key(db, t) in found.Keys - todo)
      invariant forall t :: t in tickets && t.id in allowed ==> allowed[t.id] == found[Key(db, t)]
      decreases |todo|
    {
      var k :| k in todo;
      GroupIdsOfTickets(db, tickets, k);
      allowed := AssignGroup(allowed, groups[k], found[k]);
      todo := todo - {k};
    }
  }

  /** `_cleanup_obsolete_sla_statuses_after_change(vals)` with `written` the keys of vals:
      the ids of the statuses to unlink. */
  method CleanupObsoleteStatuses(db: SlaDb, tickets: seq<TicketRec>, statuses: seq<Status>,
                                 written: set<string>)
      returns (toUnlink: set<int>)
    requires DistinctTicketIds(tickets)
    ensures toUnlink == Obsolete(db, tickets, statuses, written)
  {
    var triggers := TriggerFields(db.baseTriggers);
    if forall f :: f in written ==> f !in triggers {
      return {};
    }
    var groups, found := SlaFind(db, tickets);
    var allowedBy := AllowedByTicket(db, tickets, groups, found);
    toUnlink := {};
    for i := 0 to |tickets|
      invariant toUnlink == ObsoleteUpTo(db, tickets, statuses, i)
    {
      var t := tickets[i];
      assert t in tickets;
      var allowed := if t.id in allowedBy then allowedBy[t.id] else {};
      var ids := TicketObsolete(statuses, t, allowed);
      toUnlink := toUnlink + ids;
    }
  }

  /** The body of the cleanup loop for one ticket. */
  method TicketObsolete(statuses: seq<Status>, t: TicketRec, allowed: set<int>) returns (ids: set<int>)
    ensures ids == ObsoleteOf(statuses, t, allowed)
  {
    if allowed == {} {
      ids := set st | st in statuses && st.ticket == t.id :: st.id;
    } else {
      ids := set st | st in statuses && st.ticket == t.id && st.sla !in allowed :: st.id;
    }
  }

  // ---------------------------------------------------------------------------
  // the branch display name and its inverse
  // ---------------------------------------------------------------------------

  /** A `res.company` as the branch display reads it; an unset registry or name is "". */
  datatype Company = Company(registry: string, name: string)

  type Companies = map<int, Company>

  /** `_compute_branch_display_name` for a branch: "registry-name" when the stripped
      registry is set, the bare name otherwise. */
  function DisplayOf(c: Company): (d: string)
    ensures Trim(c.registry) == [] ==> d == c.name
    ensures Trim(c.registry) != [] ==> Trim(c.registry) + "-" <= d && d[|Trim(c.registry)| + 1..] == c.name
  {
    var reg := Trim(c.registry);
    if reg != "" then reg + "-" + c.name else c.name
  }

  /** The display of a ticket's branch: False (None) without a branch; a branch id that
      names no stored company reads as an empty company. */
  function BranchDisplay(companies: Companies, branch: Option<int>): (d: Option<string>)
    ensures d.None? <==> branch.None?
  {
    if branch.None? then None
    else Some(DisplayOf(if branch.value in companies then companies[branch.value] else Company("", "")))
  }

  /** How `_inverse_branch_display_name` splits an edited, stripped value: around its
      first '-', each side stripped; a value without '-' is all name. */
  function ParseDisplay(value: string): (parts: (string, string))
    ensures '-' !in value ==> parts == ("", value)
    ensures '-' in value ==> parts.0 == Trim(BeforeFirst(value, '-'))
  {
    if '-' in value then (Trim(BeforeFirst(value, '-')), Trim(AfterFirst(value, '-'))) else ("", value)
  }

  /** The `write_vals` of the inverse: each field is written when Some. */
  datatype CompanyWrite = CompanyWrite(registry: Option<string>, name: Option<string>)

  const NoWrite := CompanyWrite(None, None)

  /** The company fields the inverse writes for an edited display: nothing when the value
      strips to nothing; the registry when it differs from the stored one; the name when
      the new one is non-empty and differs. */
  function InverseWrites(c: Company, display: Option<string>): (w: CompanyWrite)
    ensures w.name.Some? ==> w.name.value != "" && w.name.value != c.name
    ensures w.registry.Some? ==> w.registry.value != c.registry
    ensures (display.None? || Trim(display.value) == "") ==> w == NoWrite
  {
    var value := if display.Some? then Trim(display.value) else "";
    if value == "" then NoWrite
    else
      var parts := ParseDisplay(value);
      CompanyWrite(if parts.0 != c.registry then Some(parts.0) else None,
                   if parts.1 != "" && parts.1 != c.name then Some(parts.1) else None)
  }

  /** The company after `write(w)`. */
  function Written(c: Company, w: CompanyWrite): Company {
    Company(if w.registry.Some? then w.registry.value else c.registry,
            if w.name.Some? then w.name.value else c.name)
  }

  /** `_inverse_branch_display_name` for one ticket: the companies afterwards; None when
      there is something to write but the branch record no longer exists (the write raises). */
  function InverseBranchDisplay(companies: Companies, branch: Option<int>, display: Option<string>)
      : (r: Option<Companies>)
    ensures branch.None? ==> r == Some(companies)
    ensures r.Some? ==> r.value.Keys == companies.Keys
    ensures r.Some? ==> forall id :: id in companies && Some(id) != branch ==> r.value[id] == companies[id]
  {
    if branch.None? then Some(companies)
    else
      var c := if branch.value in companies then companies[branch.value] else Company("", "");
      var w := InverseWrites(c, display);
      if w == NoWrite then Some(companies)
      else if branch.value !in companies then None
      else Some(companies[branch.value := Written(c, w)])
  }

  /** The display of a company with stripped registry and name is itself stripped. */
  lemma DisplayIsStripped(c: Company)
    requires Trim(c.registry) == c.registry && c.registry != ""
    requires Trim(c.name) == c.name
    ensures Trim(DisplayOf(c)) == DisplayOf(c)
  {
    assert DisplayOf(c) == c.registry + "-" + c.name;
    DashJoinStripped(c.registry, c.name);
  }

  lemma DashJoinStripped(a: string, b: string)
    requires Trim(a) == a && a != ""
    requires Trim(b) == b
    ensures Trim(a + "-" + b) == a + "-" + b
  {
    assert '-' !in Whitespace;
    DashJoinStrippedOf(a, b, Whitespace);
  }

  lemma DashJoinStrippedOf(a: string, b: string, cs: set<char>)
    requires '-' !in cs
    requires Strip(a, cs) == a && a != ""
    requires Strip(b, cs) == b
    ensures Strip(a + "-" + b, cs) == a + "-" + b
  {
    var d := a + "-" + b;
    StrippedIff(a, cs);
    assert d[0] == a[0];
    if b == "" {
      assert d[|d| - 1] == '-';
    } else {
      StrippedIff(b, cs);
      assert d[|d| - 1] == b[|b| - 1];
    }
    StrippedIff(d, cs);
  }


  /** A computed display reads back as the registry and name it was made of, for a
      company whose fields are stripped and do not confuse the first '-'. */
  lemma ParseOfDisplay(c: Company)
    requires Trim(c.registry) == c.registry && '-' !in c.registry
    requires Trim(c.name) == c.name
    requires c.registry == "" ==> '-' !in c.name
    ensures Trim(DisplayOf(c)) == DisplayOf(c)
    ensures ParseDisplay(DisplayOf(c)) == (c.registry, c.name)
  {
    if c.registry != "" {
      DisplayIsStripped(c);
      BeforeFirstOfConcat(c.registry, c.name);
    }
  }

  /** Saving the display exactly as computed writes nothing, for a company whose registry
      is stripped and has no '-', whose name is stripped, and whose name has no '-' when
      there is no registry. */
  lemma DisplayThenInverseWritesNothing(c: Company)
    requires Trim(c.registry) == c.registry && '-' !in c.registry
    requires Trim(c.name) == c.name
    requires c.registry == "" ==> '-' !in c.name
    ensures InverseWrites(c, Some(DisplayOf(c))) == NoWrite
  {
    ParseOfDisplay(c);
  }

  /** The first '-' of "a-b" is the one after a, when a has none. */
  lemma BeforeFirstOfConcat(a: string, b: string)
    requires '-' !in a
    ensures '-' in a + "-" + b
    ensures BeforeFirst(a + "-" + b, '-') == a
    ensures AfterFirst(a + "-" + b, '-') == b
  {
    var s := a + "-" + b;
    assert s[|a|] == '-';
    assert s[..|a|] == a;
    var k := FirstIndex(s, '-');
    assert k == |a|;
    assert s[..k] == a;
    assert s[k + 1..] == b;
  }

  /** What the inverse leaves in the company: the registry part always, the name part
      when it is non-empty. */
  lemma {:induction false} WrittenByInverse(c: Company, display: string)
    requires Trim(display) != ""
    ensures var parts := ParseDisplay(Trim(display));
      var c2 := Written(c, InverseWrites(c, Some(display)));
      c2.registry == parts.0 && c2.name == (if parts.1 != "" then parts.1 else c.name)
  {
  }

  /** After saving an edited, non-blank value, the branch shows that value with the
      spaces around its first '-' removed: a value without '-' becomes the bare name; a
      value "r-n" with n non-blank becomes "r-n" (just "n" when r is blank). */
  lemma InverseThenDisplay(c: Company, display: string)
    requires Trim(display) != ""
    ensures var v := Trim(display);
      '-' !in v ==> DisplayOf(Written(c, InverseWrites(c, Some(display)))) == v
    ensures var v := Trim(display);
      '-' in v && Trim(AfterFirst(v, '-')) != "" ==>
        var rp := Trim(BeforeFirst(v, '-'));
        var np := Trim(AfterFirst(v, '-'));
        DisplayOf(Written(c, InverseWrites(c, Some(display)))) == if rp == "" then np else rp + "-" + np
  {
    var v := Trim(display);
    var c2 := Written(c, InverseWrites(c, Some(display)));
    WrittenByInverse(c, display);
    if '-' in v {
      StripIdempotent(BeforeFirst(v, '-'), Whitespace);
      assert Trim(c2.registry) == c2.registry;
    } else {
      assert c2.registry == "";
      assert Trim("") == "";
    }
  }

  // ---------------------------------------------------------------------------
  // media preview and counts
  // ---------------------------------------------------------------------------

  /** An `ir.attachment` of a ticket; an unset mimetype is "". */
  datatype Attachment = Attachment(id: int, mimetype: string)

  predicate IsImage(a: Attachment) {
    "image/" <= a.mimetype
  }

  predicate IsVideo(a: Attachment) {
    "video/" <= a.mimetype
  }

  predicate IsMedia(a: Attachment) {
    IsImage(a) || IsVideo(a)
  }

  /** The icons the preview and the counts show, kept as the characters the source holds. */
  const ImageIcon: string := "\U{F8FF}\U{FC}\U{F1}\U{BA}\U{D4}\U{220F}\U{E8}"
  const VideoIcon: string := "\U{F8FF}\U{FC}\U{E9}\U{FB}\U{D4}\U{220F}\U{E8}"

  /** At most this many image cells are shown. */
  const MaxIcons: nat := 3

  /** The images `_compute_media_preview_html` shows: the ticket's own image attachments;
      when it has none and is saved (`ticketId != 0`), `searched`, the result of the
      attachment search. */
  function PreviewImages(atts: seq<Attachment>, ticketId: int, searched: seq<Attachment>): seq<Attachment> {
    var own := Filter(atts, IsImage);
    if own == [] && ticketId != 0 then searched else own
  }

  function MediaUrl(id: int): string {
    "/web/content/" + IntToString(id) + "?download=false"
  }

  function PreviewCell(a: Attachment): string {
    CellOpen + MediaUrl(a.id) + CellClose
  }

  const CellOpen: string := "<span class=\"o_ticket_media_cell\" style=\"margin-right:6px;\" data-media-url=\""
  const CellClose: string := "\" title=\"Preview\">" + ImageIcon + "</span>"

  /** A cell carries its image's URL. */
  lemma CellHasUrl(a: Attachment)
    ensures Contains(PreviewCell(a), MediaUrl(a.id))
  {
    var url := MediaUrl(a.id);
    ContainsInfix(CellOpen, url, CellClose, url) by {
      assert url <= url;
    }
  }

  function ExtraBadge(extra: int): string {
    "<span class=\"text-muted\">+" + IntToString(extra) + "</span>"
  }

  /** The parts of the preview: a cell for each of the first three images, then a badge
      counting the images left over, when there are any. */
  function PreviewParts(images: seq<Attachment>): (parts: seq<string>)
    ensures |parts| == if |images| > MaxIcons then MaxIcons + 1 else |images|
    ensures forall k :: 0 <= k < |images| && k < MaxIcons ==> parts[k] == PreviewCell(images[k])
    ensures |images| > MaxIcons ==> parts[MaxIcons] == ExtraBadge(|images| - MaxIcons)
  {
    var n := if |images| < MaxIcons then |images| else MaxIcons;
    Cells(images, n) + (if |images| > MaxIcons then [ExtraBadge(|images| - MaxIcons)] else [])
  }

  /** A cell for each of the first n images. */
  function Cells(images: seq<Attachment>, n: nat): (cells: seq<string>)
    requires n <= |images|
    ensures |cells| == n && forall k :: 0 <= k < n ==> cells[k] == PreviewCell(images[k])
  {
    seq(n, k requires 0 <= k < n => PreviewCell(images[k]))
  }

  /** The preview HTML; False (None) when there is no image to show. */
  function PreviewHtml(atts: seq<Attachment>, ticketId: int, searched: seq<Attachment>): Option<string> {
    var images := PreviewImages(atts, ticketId, searched);
    if images == [] then None else Some(Join("", PreviewParts(images)))
  }

  /** The image attachments among atts, collected by a loop. */
  method OwnImages(atts: seq<Attachment>) returns (images: seq<Attachment>)
    ensures images == Filter(atts, IsImage)
  {
    images := [];
    for i := 0 to |atts|
      invariant images == Filter(atts[..i], IsImage)
    {
      FilterAppend(atts[..i], atts[i], IsImage);
      assert atts[..i + 1] == atts[..i] + [atts[i]];
      if IsImage(atts[i]) {
        images := images + [atts[i]];
      }
    }
    assert atts[..|atts|] == atts;
  }

  /** The cells and the badge for a non-empty list of images, collected by a loop. */
  method BuildPreviewParts(images: seq<Attachment>) returns (parts: seq<string>)
    ensures parts == PreviewParts(images)
  {
    parts := [];
    var n := if |images| < MaxIcons then |images| else MaxIcons;
    for k := 0 to n
      invariant parts == Cells(images, k)
    {
      parts := parts + [PreviewCell(images[k])];
    }
    var extra := if |images| - MaxIcons > 0 then |images| - MaxIcons else 0;
    if extra != 0 {
      parts := parts + [ExtraBadge(extra)];
    }
  }

  /** `_compute_media_preview_html` for one ticket. */
  method ComputeMediaPreview(atts: seq<Attachment>, ticketId: int, searched: seq<Attachment>)
      returns (html: Option<string>)
    ensures html == PreviewHtml(atts, ticketId, searched)
  {
    var images := OwnImages(atts);
    if images == [] && ticketId != 0 {
      images := searched;
    }
    if images == [] {
      return None;
    }
    var parts := BuildPreviewParts(images);
    html := Some(Join("", parts));
  }

  /** What occurs in something that occurs in s occurs in s. */
  lemma ContainsTrans(s: string, mid: string, sub: string)
    requires Contains(s, mid) && Contains(mid, sub)
    ensures Contains(s, sub)
  {
    ContainsIff(s, mid);
    var i: nat :| OccursAt(s, mid, i);
    assert s == s[..i] + mid + s[i + |mid|..];
    ContainsInfix(s[..i], mid, s[i + |mid|..], sub);
  }

  /** The preview is empty exactly when there is no image; otherwise it links each of the
      first three images and, beyond three, shows how many more there are. */
  lemma PreviewShowsImages(atts: seq<Attachment>, ticketId: int, searched: seq<Attachment>)
    ensures var images := PreviewImages(atts, ticketId, searched);
      PreviewHtml(atts, ticketId, searched).None? <==> images == []
    ensures var images := PreviewImages(atts, ticketId, searched);
      var html := PreviewHtml(atts, ticketId, searched);
      html.Some? ==>
        && (forall k :: 0 <= k < |images| && k < MaxIcons ==> Contains(html.value, MediaUrl(images[k].id)))
        && (|images| > MaxIcons ==> Contains(html.value, ExtraBadge(|images| - MaxIcons)))
  {
    var images := PreviewImages(atts, ticketId, searched);
    var html := PreviewHtml(atts, ticketId, searched);
    if html.Some? {
      var parts := PreviewParts(images);
      assert html.value == Join("", parts);
      forall k | 0 <= k < |images| && k < MaxIcons
        ensures Contains(html.value, MediaUrl(images[k].id))
      {
        JoinHasPart("", parts, k);
        assert parts[k] == PreviewCell(images[k]);
        CellHasUrl(images[k]);
        ContainsTrans(html.value, parts[k], MediaUrl(images[k].id));
      }
      if |images| > MaxIcons {
        JoinHasPart("", parts, MaxIcons);
        assert parts[MaxIcons] == ExtraBadge(|images| - MaxIcons);
      }
    }
  }

  /** The attachments `_compute_media_counts` counts: the ticket's own image and video
      attachments; when it has none and is saved, `searched`. */
  function MediaAttachments(atts: seq<Attachment>, ticketId: int, searched: seq<Attachment>): seq<Attachment> {
    var own := Filter(atts, IsMedia);
    if own == [] && ticketId != 0 then searched else own
  }

  /** The counts text: "<image icon> n" and "<video icon> m", each only when non-zero,
      joined by a space. */
  function CountsText(img: nat, vid: nat): string {
    Join(" ", (if img > 0 then [ImageIcon + " " + IntToString(img)] else [])
              + (if vid > 0 then [VideoIcon + " " + IntToString(vid)] else []))
  }

  /** `_compute_media_counts` for one ticket. */
  function MediaCounts(atts: seq<Attachment>, ticketId: int, searched: seq<Attachment>): string {
    var m := MediaAttachments(atts, ticketId, searched);
    CountsText(|Filter(m, IsImage)|, |Filter(m, IsVideo)|)
  }

  /** One positive count read back from its digits. */
  function ReadCount(w: string): (n: Option<nat>)
    ensures n.Some? ==> n.value > 0
  {
    var i := ParseInt(w);
    if i.Some? && i.value > 0 then Some(i.value) else None
  }

  /** Reads a counts text back into (images, videos); None for text no counts produce. */
  function ReadCounts(s: string): Option<(nat, nat)> {
    var w := Split(s, ' ');
    if w == [""] then Some((0, 0))
    else if |w| == 2 && w[0] == ImageIcon && ReadCount(w[1]).Some? then Some((ReadCount(w[1]).value, 0))
    else if |w| == 2 && w[0] == VideoIcon && ReadCount(w[1]).Some? then Some((0, ReadCount(w[1]).value))
    else if |w| == 4 && w[0] == ImageIcon && w[2] == VideoIcon && ReadCount(w[1]).Some? && ReadCount(w[3]).Some?
    then Some((ReadCount(w[1]).value, ReadCount(w[3]).value))
    else None
  }

  /** A positive count is written without spaces and read back unchanged. */
  lemma CountWordReadsBack(n: nat)
    requires n > 0
    ensures ' ' !in IntToString(n)
    ensures ReadCount(IntToString(n)) == Some(n)
  {
    var d := IntToString(n);
    assert forall i :: 0 <= i < |d| ==> IsDigit(d[i]);
    ParseIntOfIntToString(n);
  }

  lemma IconsDiffer()
    ensures ' ' !in ImageIcon && ' ' !in VideoIcon
    ensures ImageIcon != VideoIcon && ImageIcon != "" && VideoIcon != ""
  {
    assert ImageIcon[2] != VideoIcon[2];
  }

  /** The counts text as space-separated words. */
  function CountWords(img: nat, vid: nat): seq<string> {
    (if img > 0 then [ImageIcon, IntToString(img)] else [])
      + (if vid > 0 then [VideoIcon, IntToString(vid)] else [])
  }

  lemma CountsTextIsJoin(img: nat, vid: nat)
    requires img > 0 || vid > 0
    ensures CountsText(img, vid) == Join([' '], CountWords(img, vid))
  {
    var a, b := IntToString(img), IntToString(vid);
    if img > 0 && vid > 0 {
      var x, y := ImageIcon + " " + a, VideoIcon + " " + b;
      assert CountsText(img, vid) == Join(" ", [x, y]);
      assert [x, y][1..] == [y];
      assert Join(" ", [x, y]) == x + " " + y;
      var ws := [ImageIcon, a, VideoIcon, b];
      assert CountWords(img, vid) == ws;
      assert ws[1..][1..] == [VideoIcon, b];
      assert Join([' '], ws[2..]) == VideoIcon + " " + b;
      assert Join([' '], ws[1..]) == a + " " + (VideoIcon + " " + b);
    } else if img > 0 {
      assert CountWords(img, vid) == [ImageIcon, a];
    } else {
      assert CountWords(img, vid) == [VideoIcon, b];
    }
  }

  /** Splitting a non-empty counts text gives back its words. */
  lemma SplitCountsText(img: nat, vid: nat)
    requires img > 0 || vid > 0
    ensures Split(CountsText(img, vid), ' ') == CountWords(img, vid)
  {
    CountWordsSpaceFree(img, vid);
    CountsTextIsJoin(img, vid);
    JoinSplit(CountWords(img, vid), ' ');
  }

  /** No word of the counts text holds a space. */
  lemma CountWordsSpaceFree(img: nat, vid: nat)
    ensures forall i :: 0 <= i < |CountWords(img, vid)| ==> ' ' !in CountWords(img, vid)[i]
  {
    IconsDiffer();
    var xs := if img > 0 then [ImageIcon, IntToString(img)] else [];
    var ys := if vid > 0 then [VideoIcon, IntToString(vid)] else [];
    CountPairSpaceFree(ImageIcon, img);
    CountPairSpaceFree(VideoIcon, vid);
    assert CountWords(img, vid) == xs + ys;
  }

  lemma CountPairSpaceFree(icon: string, n: nat)
    requires ' ' !in icon
    ensures var xs := if n > 0 then [icon, IntToString(n)] else [];
      forall i :: 0 <= i < |xs| ==> ' ' !in xs[i]
  {
    if n > 0 {
      CountWordReadsBack(n);
    }
  }


  /** Reading the words of the counts gives the counts. */
  lemma ReadCountWords(img: nat, vid: nat, s: string)
    requires img > 0 || vid > 0
    requires Split(s, ' ') == CountWords(img, vid)
    ensures ReadCounts(s) == Some((img, vid))
  {
    IconsDiffer();
    var w := Split(s, ' ');
    if img > 0 && vid > 0 {
      CountWordReadsBack(img);
      CountWordReadsBack(vid);
      assert w == [ImageIcon, IntToString(img), VideoIcon, IntToString(vid)];
    } else if img > 0 {
      CountWordReadsBack(img);
      assert w == [ImageIcon, IntToString(img)];
    } else {
      CountWordReadsBack(vid);
      assert w == [VideoIcon, IntToString(vid)];
    }
  }

  /** The counts text loses nothing: both counts can be read back from it, and it is
      empty exactly when there is no image and no video. */
  lemma {:induction false} CountsTextReadsBack(img: nat, vid: nat)
    ensures ReadCounts(CountsText(img, vid)) == Some((img, vid))
    ensures CountsText(img, vid) == "" <==> img == 0 && vid == 0
  {
    assert Split("", ' ') == [""];
    if img > 0 || vid > 0 {
      SplitCountsText(img, vid);
      ReadCountWords(img, vid, CountsText(img, vid));
      assert |CountWords(img, vid)| >= 2;
    } else {
      assert CountsText(img, vid) == "";
    }
  }

  /** An attachment is never both an image and a video. */
  lemma ImageNotVideo(a: Attachment)
    ensures !(IsImage(a) && IsVideo(a))
  {
    if IsImage(a) {
      assert a.mimetype[0] == 'i';
      assert !IsVideo(a);
    }
  }

  /** The image and video counts split the media attachments between them. */
  lemma {:induction false} CountsPartitionMedia(s: seq<Attachment>)
    ensures |Filter(s, IsImage)| + |Filter(s, IsVideo)| == |Filter(s, IsMedia)|
    decreases |s|
  {
    if |s| > 0 {
      CountsPartitionMedia(s[1..]);
      ImageNotVideo(s[0]);
    }
  }

  /** When the ticket's own attachments are counted, the two counts add up to its media
      attachments; with or without the fallback, to no more than what was counted. */
  lemma MediaCountsCover(atts: seq<Attachment>, ticketId: int, searched: seq<Attachment>)
    ensures var m := MediaAttachments(atts, ticketId, searched);
      |Filter(m, IsImage)| + |Filter(m, IsVideo)| <= |m|
    ensures Filter(atts, IsMedia) != [] ==>
      var m := MediaAttachments(atts, ticketId, searched);
      |Filter(m, IsImage)| + |Filter(m, IsVideo)| == |m| == |Filter(atts, IsMedia)|
    ensures ReadCounts(MediaCounts(atts, ticketId, searched)) ==
      var m := MediaAttachments(atts, ticketId, searched);
      Some((|Filter(m, IsImage)|, |Filter(m, IsVideo)|))
  {
    var m := MediaAttachments(atts, ticketId, searched);
    CountsPartitionMedia(m);
    CountsTextReadsBack(|Filter(m, IsImage)|, |Filter(m, IsVideo)|);
    if Filter(atts, IsMedia) != [] {
      FilterAllTrue(m, IsMedia);
    }
  }

  // ---------------------------------------------------------------------------
  // constraints
  // ---------------------------------------------------------------------------

  const AssigneeMessage := "Assign To must be a member of the selected Helpdesk Team."
  const BranchMessage := "Branch must be a child company of the selected Company."

  /** `_check_assignee_is_team_member` for one ticket: with a team and an assignee, the
      assignee is one of the team's members (a team id naming no team has none). */
  predicate AssigneeOk(teams: Teams, t: TicketRec) {
    t.team.Some? && t.user.Some? ==> t.team.value in teams && t.user.value in teams[t.team.value].members
  }

  /** `_check_assignee_is_team_member` over a recordset: the error it raises, if any. */
  method CheckAssigneeIsTeamMember(teams: Teams, tickets: seq<TicketRec>) returns (error: Option<string>)
    ensures error.None? <==> forall i :: 0 <= i < |tickets| ==> AssigneeOk(teams, tickets[i])
    ensures error.Some? ==> error.value == AssigneeMessage
  {
    for i := 0 to |tickets|
      invariant forall j :: 0 <= j < i ==> AssigneeOk(teams, tickets[j])
    {
      var t := tickets[i];
      if t.team.Some? && t.user.Some? && (t.team.value !in teams || t.user.value !in teams[t.team.value].members) {
        return Some(AssigneeMessage);
      }
    }
    return None;
  }

  /** The category onchange leaves a ticket that passes the assignee check whenever the
      team it ends with assigns by category. */
  lemma OnchangeSatisfiesAssigneeCheck(db: Db, rank: map<int, nat>, r: TicketRec, defaultSla: Option<int>)
    requires Ranked(db.categories, rank)
    requires r.category.Some?
    requires var t := OnchangeState(db, rank, r, defaultSla).team;
      t.Some? && t.value in db.teams && AssignsByCategory(db.teams[t.value])
    ensures AssigneeOk(db.teams, OnchangeState(db, rank, r, defaultSla))
  {
  }

  /** `_check_branch_is_child_of_company` for one ticket: with a company and a branch, the
      branch is the company or one of its descendants. `childOf(b, c)` is the company
      search `id child_of c and id = b`. */
  predicate BranchOk(childOf: (int, int) -> bool, t: TicketRec) {
    t.company.Some? && t.branch.Some? ==> childOf(t.branch.value, t.company.value)
  }

  /** `_check_branch_is_child_of_company` over a recordset: the error it raises, if any. */
  method CheckBranchIsChildOfCompany(childOf: (int, int) -> bool, tickets: seq<TicketRec>)
      returns (error: Option<string>)
    ensures error.None? <==> forall i :: 0 <= i < |tickets| ==> BranchOk(childOf, tickets[i])
    ensures error.Some? ==> error.value == BranchMessage
  {
    for i := 0 to |tickets|
      invariant forall j :: 0 <= j < i ==> BranchOk(childOf, tickets[j])
    {
      var t := tickets[i];
      if t.company.Some? && t.branch.Some? {
        var ok := childOf(t.branch.value, t.company.value);
        if !ok {
          return Some(BranchMessage);
        }
      }
    }
    return None;
  }
}
