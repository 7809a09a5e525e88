/**
 The synchroniser of team_group_sync.py: one group per team, its members made equal to the team's roster.
 The tables are the fields of a session; `directory` stands for what `get_or_register` can find or create.
 */
module TeamGroupSync {
  import opened Options
  import opened TeamNames

  type Membership = (int, int)   // group id, user id

  datatype Tables = Tables(groups: seq<Group>, members: set<Membership>, users: map<string, int>, nextId: int)

  datatype TeamPlan = TeamPlan(
    team: string, teamName: string, groupName: string, groupId: Option<int>, created: bool,
    renamedFrom: Option<string>, add: set<string>, remove: set<string>, keep: nat)

  /** Every user is known to the directory, under the same id. */
  ghost predicate Known(users: map<string, int>, directory: map<string, int>) {
    forall e :: e in users ==> e in directory && directory[e] == users[e]
  }

  /** Ids are unique, and the sequence is past them. */
  ghost predicate FreshIds(groups: seq<Group>, nextId: int) {
    (forall i :: 0 <= i < |groups| ==> groups[i].id < nextId) &&
    (forall i, j :: 0 <= i < j < |groups| ==> groups[i].id != groups[j].id)
  }

  /** What the schema and `get_or_register` guarantee about the tables. */
  ghost predicate Sound(t: Tables, directory: map<string, int>) {
    && FreshIds(t.groups, t.nextId)
    && DistinctNames(t.groups)
    && (forall p :: p in t.members ==> p.0 < t.nextId && p.1 in t.users.Values)
    && Known(t.users, directory)
    && (forall e, f :: e in directory && f in directory && directory[e] == directory[f] ==> e == f)
  }

  lemma SoundTables(t: Tables, directory: map<string, int>)
    requires Sound(t, directory)
    ensures Known(t.users, directory) && DistinctNames(t.groups)
  {}

  /** `current_members` of one group: employee number to user id. */
  function Current(t: Tables, gid: int): map<string, int> {
    map e | e in t.users && (gid, t.users[e]) in t.members :: t.users[e]
  }

  function CurrentOf(t: Tables, own: Option<nat>): map<string, int>
    requires own.Some? ==> own.value < |t.groups|
  {
    if own.Some? then Current(t, t.groups[own.value].id) else map[]
  }

  function LoadedNames(t: Tables): Naming {
    Loaded(t.groups, t.nextId)
  }

  /** The group id team `k` ends up with: its own group's, or the next free one. */
  function TeamGroupId(org: Org, t: Tables, teams: seq<string>, k: nat): int
    requires k < |teams|
  {
    match OwnIndex(t.groups, teams[k])
    case Some(i) => t.groups[i].id
    case None => NameTeams(org, LoadedNames(t), teams[..k]).nextId
  }

  /** The group rows after one team's INSERT, or its UPDATE of the name. */
  function Written(groups: seq<Group>, own: Option<nat>, team: string, chosen: string, nextId: int): seq<Group>
    requires own.Some? ==> own.value < |groups|
  {
    match own
    case Some(i) => groups[i := groups[i].(name := chosen)]
    case None => groups + [Group(nextId, chosen, Some(team))]
  }

  /** No team meets all its candidates held by other groups. */
  ghost predicate Uncrowded(org: Org, t: Tables, teams: seq<string>) {
    forall k :: 0 <= k < |teams| ==> !CrowdedAt(org, LoadedNames(t), teams, k)
  }

  /** The plan entry of one team: the name it chooses, and the difference between its roster and its members. */
  function PlanFor(org: Org, t: Tables, roster: set<string>,
      team: string, own: Option<nat>, taken: set<string>): TeamPlan
    requires own.Some? ==> own.value < |t.groups|
  {
    var name := if own.Some? then Some(t.groups[own.value].name) else None;
    var chosen := Chosen(org, team, taken - if name.Some? then {name.value} else {});
    var current := CurrentOf(t, own).Keys;
    TeamPlan(team, DeptName(org, team), chosen, if own.Some? then Some(t.groups[own.value].id) else None, own.None?,
             if name.Some? && name.value != chosen then name else None,
             roster - current, current - roster, |roster * current|)
  }

  /** The plan entry of team `k`, from the rows loaded at the start and the names taken so far. */
  function PlanAt(org: Org, t: Tables, rosters: map<string, set<string>>, teams: seq<string>, k: nat): TeamPlan
    requires k < |teams| && teams[k] in rosters
  {
    PlanFor(org, t, rosters[teams[k]], teams[k], OwnIndex(t.groups, teams[k]),
            NameTeams(org, LoadedNames(t), teams[..k]).taken)
  }

  /** The plan entry as returned: an applied plan also names the groups it created. */
  function Entry(org: Org, t: Tables, rosters: map<string, set<string>>,
      teams: seq<string>, k: nat, apply: bool): TeamPlan
    requires k < |teams| && teams[k] in rosters
  {
    var planned := PlanAt(org, t, rosters, teams, k);
    if apply then planned.(groupId := Some(TeamGroupId(org, t, teams, k))) else planned
  }

  // ---------------------------------------------------------------- membership after a sync

  function Joined(gid: int, add: set<string>, directory: map<string, int>): set<Membership> {
    set e | e in add && e in directory :: (gid, directory[e])
  }

  function Left(gid: int, remove: set<string>, current: map<string, int>): set<Membership> {
    set e | e in remove && e in current :: (gid, current[e])
  }

  function Registered(add: set<string>, directory: map<string, int>): map<string, int> {
    map e | e in add && e in directory :: directory[e]
  }

  lemma OneMore(gid: int, done: set<string>, e: string, directory: map<string, int>)
    ensures Joined(gid, done + {e}, directory) == Joined(gid, done, directory) + Joined(gid, {e}, directory)
    ensures Registered(done + {e}, directory) == Registered(done, directory) + Registered({e}, directory)
    ensures Joined(gid, {}, directory) == {} && Registered({}, directory) == map[]
  {}

  lemma UnionsRegroup(a: set<Membership>, b: set<Membership>, c: set<Membership>,
      x: map<string, int>, y: map<string, int>, z: map<string, int>)
    ensures a + (b + c) == (a + b) + c && x + (y + z) == (x + y) + z
  {}

  datatype Enrolment = Enrolment(members: set<Membership>, users: map<string, int>)

  /** Membership and user rows after the loop has applied `teams`. */
  function Enrol(org: Org, t: Tables, directory: map<string, int>,
      rosters: map<string, set<string>>, teams: seq<string>): Enrolment
    requires forall x :: x in teams ==> x in rosters
  {
    if teams == [] then Enrolment(t.members, t.users)
    else
      var n := |teams| - 1;
      var before, team := Enrol(org, t, directory, rosters, teams[..n]), teams[n];
      var current := CurrentOf(t, OwnIndex(t.groups, team));
      var gid := TeamGroupId(org, t, teams, n);
      var add, remove := rosters[team] - current.Keys, current.Keys - rosters[team];
      Enrolment(before.members + Joined(gid, add, directory) - Left(gid, remove, current),
                before.users + Registered(add, directory))
  }

  /** The tables an applied sync leaves behind. */
  function Synced(org: Org, t: Tables, directory: map<string, int>,
      rosters: map<string, set<string>>, teams: seq<string>): Tables
    requires forall x :: x in teams ==> x in rosters
  {
    var names, enrolled := NameTeams(org, LoadedNames(t), teams), Enrol(org, t, directory, rosters, teams);
    Tables(names.groups, enrolled.members, enrolled.users, names.nextId)
  }

  /** What serving team `k` adds to the tables left by the teams before it. */
  lemma SyncedUnrolls(org: Org, t: Tables, directory: map<string, int>,
      rosters: map<string, set<string>>, teams: seq<string>, k: nat)
    requires k < |teams| && Distinct(teams) && forall x :: x in teams ==> x in rosters
    ensures var s, own := Synced(org, t, directory, rosters, teams[..k]), OwnIndex(t.groups, teams[k]);
            own.Some? ==> own.value < |s.groups| && s.groups[own.value] == t.groups[own.value]
    ensures var s, plan := Synced(org, t, directory, rosters, teams[..k]), PlanAt(org, t, rosters, teams, k);
            var own, gid := OwnIndex(t.groups, teams[k]), TeamGroupId(org, t, teams, k);
            var current := CurrentOf(t, own);
            gid == (match own case Some(i) => s.groups[i].id case None => s.nextId) &&
            Synced(org, t, directory, rosters, teams[..k + 1]) == Tables(
              Written(s.groups, own, teams[k], plan.groupName, s.nextId),
              s.members + Joined(gid, plan.add, directory) - Left(gid, plan.remove, current),
              s.users + Registered(plan.add, directory),
              s.nextId + if own.None? then 1 else 0)
    ensures var names, plan := NameTeams(org, LoadedNames(t), teams[..k]), PlanAt(org, t, rosters, teams, k);
            var own := OwnIndex(t.groups, teams[k]);
            NameTeams(org, LoadedNames(t), teams[..k + 1]).taken
            == names.taken - (if own.Some? then {t.groups[own.value].name} else {}) + {plan.groupName}
  {
    hide Chosen, OwnIndex, NamesOf, Joined, Left, Registered, DeptName, Distinct, Current;
    NamingFrame(org, LoadedNames(t), teams[..k]);
    if OwnIndex(t.groups, teams[k]).Some? { NotOwned(t.groups, teams, k); }
    PassUnrolls(org, LoadedNames(t), teams, k);
    assert teams[..k + 1][..k] == teams[..k];
    var own := OwnIndex(t.groups, teams[k]);
    EnrolUnrolls(org, t, directory, rosters, teams, k);
  }

  lemma EnrolUnrolls(org: Org, t: Tables, directory: map<string, int>,
      rosters: map<string, set<string>>, teams: seq<string>, k: nat)
    requires k < |teams| && forall x :: x in teams ==> x in rosters
    ensures var before, plan := Enrol(org, t, directory, rosters, teams[..k]), PlanAt(org, t, rosters, teams, k);
            var gid, current := TeamGroupId(org, t, teams, k), CurrentOf(t, OwnIndex(t.groups, teams[k]));
            Enrol(org, t, directory, rosters, teams[..k + 1]) == Enrolment(
              before.members + Joined(gid, plan.add, directory) - Left(gid, plan.remove, current),
              before.users + Registered(plan.add, directory))
  {
    hide Chosen, OwnIndex, NamesOf, Joined, Left, Registered, DeptName, Current, NameTeams;
    var upTo := teams[..k + 1];
    assert upTo[..k] == teams[..k] && upTo[k] == teams[k];
    assert TeamGroupId(org, t, upTo, k) == TeamGroupId(org, t, teams, k);
  }

  /** While no team was crowded before it, a team's row repeats a name exactly when the team is crowded. */
  lemma CrowdedRowClashes(org: Org, t: Tables, directory: map<string, int>,
      rosters: map<string, set<string>>, teams: seq<string>, k: nat)
    requires k < |teams| && Distinct(teams) && (forall x :: x in teams ==> x in rosters) && DistinctNames(t.groups)
    requires forall j :: 0 <= j < k ==> !CrowdedAt(org, LoadedNames(t), teams, j)
    ensures var s, own := Synced(org, t, directory, rosters, teams[..k]), OwnIndex(t.groups, teams[k]);
            (own.Some? ==> own.value < |s.groups|) &&
            (DistinctNames(Written(s.groups, own, teams[k], PlanAt(org, t, rosters, teams, k).groupName, s.nextId))
             <==> !CrowdedAt(org, LoadedNames(t), teams, k))
  {
    hide Chosen, OwnIndex, NamesOf, Joined, Left, Registered, DeptName, DistinctNames,
      Crowded, Distinct, TeamGroupId, CurrentOf, PlanFor, Written, NameTeams, Enrol;
    SyncedUnrolls(org, t, directory, rosters, teams, k);
    var s0 := LoadedNames(t);
    DistinctWhileUncrowded(org, s0, teams, k);
    PassUnrolls(org, s0, teams, k);
    NamingStepDistinct(org, NameTeams(org, s0, teams[..k]), OwnIndex(t.groups, teams[k]), teams[k]);
  }

  // ---------------------------------------------------------------- the session

  datatype Totals = Totals(created: nat, added: nat, removed: nat)

  /** The counters after one more team. */
  function Counted(totals: Totals, item: TeamPlan): Totals {
    Totals(totals.created + (if item.created then 1 else 0), totals.added + |item.add|, totals.removed + |item.remove|)
  }

  function TotalsOf(plan: seq<TeamPlan>): Totals {
    if plan == [] then Totals(0, 0, 0) else Counted(TotalsOf(plan[..|plan| - 1]), plan[|plan| - 1])
  }

  lemma NoTotals()
    ensures TotalsOf([]) == Totals(0, 0, 0)
  {}

  lemma TotalsGrow(plan: seq<TeamPlan>, item: TeamPlan)
    ensures TotalsOf(plan + [item]) == Counted(TotalsOf(plan), item)
  {
    assert (plan + [item])[..|plan|] == plan;
  }

  lemma {:induction false} PairsGrow(pairs: set<(int, string)>, n: int, more: set<string>)
    requires forall p :: p in pairs ==> p.0 < n
    ensures |pairs + set e | e in more :: (n, e)| == |pairs| + |more|
    decreases |more|
  {
    if more == {} {
      assert pairs + (set e | e in more :: (n, e)) == pairs;
    } else {
      var e :| e in more;
      PairsGrow(pairs, n, more - {e});
      assert pairs + (set x | x in more :: (n, x)) == (pairs + set x | x in more - {e} :: (n, x)) + {(n, e)};
      assert (n, e) !in pairs + set x | x in more - {e} :: (n, x);
    }
  }

  /** The places and elements of a list of sets. */
  function Pairs(sets: seq<set<string>>): set<(int, string)> {
    set k, e | 0 <= k < |sets| && e in sets[k] :: (k, e)
  }

  lemma PairsSnoc(front: seq<set<string>>, last: set<string>)
    ensures |Pairs(front + [last])| == |Pairs(front)| + |last|
  {
    var more := set e | e in last :: (|front|, e);
    forall p ensures p in Pairs(front + [last]) <==> p in Pairs(front) + more {}
    assert Pairs(front + [last]) == Pairs(front) + more;
    PairsGrow(Pairs(front), |front|, last);
  }

  function Adds(plan: seq<TeamPlan>): seq<set<string>> {
    seq(|plan|, k requires 0 <= k < |plan| => plan[k].add)
  }

  function Removes(plan: seq<TeamPlan>): seq<set<string>> {
    seq(|plan|, k requires 0 <= k < |plan| => plan[k].remove)
  }

  lemma {:induction false} PairsCount(plan: seq<TeamPlan>)
    ensures TotalsOf(plan).added == |Pairs(Adds(plan))| && TotalsOf(plan).removed == |Pairs(Removes(plan))|
    decreases |plan|
  {
    if plan == [] {
      assert Pairs(Adds(plan)) == {} && Pairs(Removes(plan)) == {};
    } else {
      hide Pairs;
      var front, last := plan[..|plan| - 1], plan[|plan| - 1];
      PairsCount(front);
      PairsSnoc(Adds(front), last.add);
      PairsSnoc(Removes(front), last.remove);
      assert Adds(plan) == Adds(front) + [last.add] && Removes(plan) == Removes(front) + [last.remove];
    }
  }

  lemma AddedCount(plan: seq<TeamPlan>)
    ensures TotalsOf(plan).added == |set k, e | 0 <= k < |plan| && e in plan[k].add :: (k, e)|
  {
    PairsCount(plan);
    hide TotalsOf;
    assert Pairs(Adds(plan)) == set k, e | 0 <= k < |plan| && e in plan[k].add :: (k, e);
  }

  lemma RemovedCount(plan: seq<TeamPlan>)
    ensures TotalsOf(plan).removed == |set k, e | 0 <= k < |plan| && e in plan[k].remove :: (k, e)|
  {
    PairsCount(plan);
    hide TotalsOf;
    assert Pairs(Removes(plan)) == set k, e | 0 <= k < |plan| && e in plan[k].remove :: (k, e);
  }

  function Creations(plan: seq<TeamPlan>): set<int> {
    set k | 0 <= k < |plan| && plan[k].created
  }

  lemma CreationsSnoc(front: seq<TeamPlan>, last: TeamPlan)
    ensures |Creations(front + [last])| == |Creations(front)| + if last.created then 1 else 0
  {
    var more := if last.created then {|front|} else {};
    assert Creations(front + [last]) == Creations(front) + more;
    assert Creations(front) !! more;
  }

  lemma {:induction false} CreatedCount(plan: seq<TeamPlan>)
    ensures TotalsOf(plan).created == |set k | 0 <= k < |plan| && plan[k].created|
    decreases |plan|
  {
    if plan == [] {
      assert Creations(plan) == {};
    } else {
      var front, last := plan[..|plan| - 1], plan[|plan| - 1];
      CreatedCount(front);
      assert plan == front + [last];
      CreationsSnoc(front, last);
    }
    assert Creations(plan) == set k | 0 <= k < |plan| && plan[k].created;
  }

  /** `all_emp_nos` */
  function Everyone(rosters: map<string, set<string>>, teams: seq<string>): set<string>
    requires forall x :: x in teams ==> x in rosters
  {
    set x, e | x in teams && e in rosters[x] :: e
  }

  /** A previewed and an applied plan entry agree but for the id of a group that had yet to be created. */
  predicate SamePlan(preview: TeamPlan, applied: TeamPlan) {
    && preview == applied.(groupId := preview.groupId) && applied.groupId.Some?
    && (if preview.created then preview.groupId.None? else preview == applied)
  }

  lemma PreviewIsThePlan(org: Org, t: Tables, rosters: map<string, set<string>>, teams: seq<string>, k: nat)
    requires k < |teams| && teams[k] in rosters
    ensures SamePlan(Entry(org, t, rosters, teams, k, false), Entry(org, t, rosters, teams, k, true))
  {
    hide Chosen, OwnIndex, NameTeams, CurrentOf, DeptName;
  }

  lemma {:induction false} SameTotals(preview: seq<TeamPlan>, applied: seq<TeamPlan>)
    requires |preview| == |applied| && forall k :: 0 <= k < |preview| ==> SamePlan(preview[k], applied[k])
    ensures TotalsOf(preview) == TotalsOf(applied)
    decreases |preview|
  {
    if preview != [] {
      SameTotals(preview[..|preview| - 1], applied[..|preview| - 1]);
    }
  }

  class Session {
    var groups: seq<Group>
    var members: set<Membership>
    var users: map<string, int>
    var nextId: int
    const directory: map<string, int>

    constructor (t: Tables, directory: map<string, int>)
      ensures Rows() == t && this.directory == directory
    {
      groups, members, users, nextId := t.groups, t.members, t.users, t.nextId;
      this.directory := directory;
    }

    ghost function Rows(): Tables
      reads this
    {
      Tables(groups, members, users, nextId)
    }

    /** `user_admin.get_or_register` */
    method GetOrRegister(employee: string) returns (user: Option<int>)
      requires Known(users, directory)
      modifies this`users
      ensures user == (if employee in directory then Some(directory[employee]) else None)
      ensures users == old(users) + Registered({employee}, directory)
      ensures Known(users, directory)
    {
      if employee in users { return Some(users[employee]); }
      if employee !in directory { return None; }
      users := users[employee := directory[employee]];
      return Some(users[employee]);
    }

    /** One pass of the registration loop. */
    method AddMember(gid: int, e: string)
      requires Known(users, directory)
      modifies this`users, this`members
      ensures members == old(members) + Joined(gid, {e}, directory)
      ensures users == old(users) + Registered({e}, directory)
      ensures Known(users, directory)
    {
      var user := GetOrRegister(e);
      if user.Some? {
        members := members + {(gid, user.value)};
      }
    }

    method AddMembers(gid: int, add: set<string>)
      requires Known(users, directory)
      modifies this`users, this`members
      ensures members == old(members) + Joined(gid, add, directory)
      ensures users == old(users) + Registered(add, directory)
      ensures Known(users, directory)
    {
      hide Joined, Registered, Known;
      var rest := add;
      ghost var done := {};
      OneMore(gid, {}, "", directory);
      while rest != {}
        invariant rest + done == add
        invariant members == old(members) + Joined(gid, done, directory)
        invariant users == old(users) + Registered(done, directory)
        invariant Known(users, directory)
        decreases |rest|
      {
        var e :| e in rest;
        OneMore(gid, done, e, directory);
        UnionsRegroup(old(members), Joined(gid, done, directory), Joined(gid, {e}, directory),
                      old(users), Registered(done, directory), Registered({e}, directory));
        AddMember(gid, e);
        rest := rest - {e};
        done := done + {e};
      }
    }

    /**
     * The part of an iteration that runs only when the plan is applied.  The flush raises, here as `!ok`, when the
     * team's row would repeat the name of another group.
     */
    method ApplyTeam(own: Option<nat>, team: string, chosen: string,
        add: set<string>, remove: set<string>, current: map<string, int>)
      returns (ok: bool, gid: int)
      requires own.Some? ==> own.value < |groups|
      requires Known(users, directory)
      modifies this
      ensures ok <==> DistinctNames(Written(old(groups), own, team, chosen, old(nextId)))
      ensures !ok ==> Rows() == old(Rows())
      ensures gid == match own case Some(i) => old(groups)[i].id case None => old(nextId)
      ensures ok ==> groups == Written(old(groups), own, team, chosen, old(nextId))
      ensures ok ==> nextId == old(nextId) + (if own.None? then 1 else 0)
      ensures ok ==> members == old(members) + Joined(gid, add, directory) - Left(gid, remove, current)
      ensures ok ==> users == old(users) + Registered(add, directory)
      ensures Known(users, directory)
    {
      hide Joined, Registered, Left, DistinctNames, Written;
      gid := if own.None? then nextId else groups[own.value].id;
      var written := Written(groups, own, team, chosen, nextId);
      ok := DistinctNames(written);
      if !ok { return; }
      groups := written;
      if own.None? { nextId := nextId + 1; }
      AddMembers(gid, add);
      members := members - Left(gid, remove, current);
    }

    /** The tables after the loop has served the first `k` teams. */
    ghost predicate Reached(org: Org, t: Tables, rosters: map<string, set<string>>,
        ordered: seq<string>, k: nat, apply: bool)
      requires k <= |ordered| && forall x :: x in ordered ==> x in rosters
      reads this
    {
      && Known(users, directory)
      && Rows() == if apply then Synced(org, t, directory, rosters, ordered[..k]) else t
    }

    /** One iteration of the team loop; applied, it fails exactly when the team finds every candidate held. */
    method SyncTeam(ghost t: Tables, loaded: Tables, org: Org, rosters: map<string, set<string>>,
        ordered: seq<string>, k: nat, taken: set<string>, apply: bool)
      returns (ok: bool, taken': set<string>, item: TeamPlan)
      requires k < |ordered| && Distinct(ordered) && forall x :: x in ordered ==> x in rosters
      requires loaded == t && Reached(org, t, rosters, ordered, k, apply) && DistinctNames(t.groups)
      requires apply ==> forall j :: 0 <= j < k ==> !CrowdedAt(org, LoadedNames(t), ordered, j)
      requires taken == NameTeams(org, LoadedNames(t), ordered[..k]).taken
      modifies this
      ensures ok <==> apply ==> !CrowdedAt(org, LoadedNames(t), ordered, k)
      ensures !ok ==> Rows() == old(Rows())
      ensures ok ==> Reached(org, t, rosters, ordered, k + 1, apply)
      ensures taken' == NameTeams(org, LoadedNames(t), ordered[..k + 1]).taken
      ensures ok ==> item == Entry(org, t, rosters, ordered, k, apply)
    {
      hide Chosen, OwnIndex, NamesOf, Joined, Left, Registered, DeptName, Known, DistinctNames,
        CrowdedAt, Distinct, Synced, TeamGroupId, NameTeams, CurrentOf, PlanFor, Written;
      var team := ordered[k];
      var own := OwnIndex(loaded.groups, team);
      SyncedUnrolls(org, t, directory, rosters, ordered, k);
      item := PlanFor(org, loaded, rosters[team], team, own, taken);
      taken' := taken - (if own.Some? then {loaded.groups[own.value].name} else {}) + {item.groupName};
      ok := true;
      if apply {
        CrowdedRowClashes(org, t, directory, rosters, ordered, k);
        var gid;
        ok, gid := ApplyTeam(own, team, item.groupName, item.add, item.remove, CurrentOf(loaded, own));
        item := item.(groupId := Some(gid));
      }
    }

    /**
     * `sync_team_groups`, for the teams in display order.  An applied run that raises is rolled back, since only its
     * caller commits.
     */
    method SyncTeamGroups(org: Org, rosters: map<string, set<string>>, ordered: seq<string>, apply: bool)
      returns (ok: bool, plan: seq<TeamPlan>, totals: Totals, toRegister: nat)
      requires Sound(Rows(), directory)
      requires Distinct(ordered) && forall x :: x in ordered ==> x in rosters
      modifies this
      ensures ok <==> apply ==> Uncrowded(org, old(Rows()), ordered)
      ensures Rows() == if apply && ok then Synced(org, old(Rows()), directory, rosters, ordered) else old(Rows())
      ensures ok ==> |plan| == |ordered| && totals == TotalsOf(plan)
      ensures ok ==> totals.created == |set k | 0 <= k < |plan| && plan[k].created|
      ensures ok ==> totals.added == |set k, e | 0 <= k < |plan| && e in plan[k].add :: (k, e)|
      ensures ok ==> totals.removed == |set k, e | 0 <= k < |plan| && e in plan[k].remove :: (k, e)|
      ensures toRegister == |Everyone(rosters, ordered) - old(users).Keys|
      ensures ok ==> forall k :: 0 <= k < |plan| ==> plan[k] == Entry(org, old(Rows()), rosters, ordered, k, apply)
    {
      hide Chosen, OwnIndex, NamesOf, Synced, Entry, NameTeams, Distinct,
        CrowdedAt, DistinctNames, Known, Sound, Everyone, TotalsOf, Counted;
      ghost var t := Rows();
      SoundTables(t, directory);
      assert ordered[..0] == [];
      NothingSynced(org, t, directory, rosters);
      var loaded := Tables(groups, members, users, nextId);
      toRegister := |Everyone(rosters, ordered) - users.Keys|;
      var taken := NamesOf(groups);
      ok, plan, totals := true, [], Totals(0, 0, 0);
      assert totals == TotalsOf(plan) by { NoTotals(); }
      for k := 0 to |ordered|
        invariant ok && Reached(org, t, rosters, ordered, k, apply)
        invariant apply ==> forall j :: 0 <= j < k ==> !CrowdedAt(org, LoadedNames(t), ordered, j)
        invariant taken == NameTeams(org, LoadedNames(t), ordered[..k]).taken
        invariant |plan| == k && totals == TotalsOf(plan)
        invariant forall j :: 0 <= j < k ==> plan[j] == Entry(org, t, rosters, ordered, j, apply)
      {
        var item;
        ok, taken, item := SyncTeam(t, loaded, org, rosters, ordered, k, taken, apply);
        if !ok {
          groups, members, users, nextId := loaded.groups, loaded.members, loaded.users, loaded.nextId;
          return;
        }
        TotalsGrow(plan, item);
        plan, totals := plan + [item], Counted(totals, item);
      }
      assert ordered[..|ordered|] == ordered;
      CreatedCount(plan);
      AddedCount(plan);
      RemovedCount(plan);
    }

    /** A preview and then the sync itself, as an operator runs them: if it goes through, it is what was shown. */
    method PreviewThenApply(org: Org, rosters: map<string, set<string>>, ordered: seq<string>)
      returns (ok: bool, preview: seq<TeamPlan>, applied: seq<TeamPlan>)
      requires Sound(Rows(), directory)
      requires Distinct(ordered) && forall x :: x in ordered ==> x in rosters
      modifies this
      ensures ok <==> Uncrowded(org, old(Rows()), ordered)
      ensures Rows() == if ok then Synced(org, old(Rows()), directory, rosters, ordered) else old(Rows())
      ensures |preview| == |ordered|
      ensures ok ==> |applied| == |ordered| && TotalsOf(preview) == TotalsOf(applied)
      ensures ok ==> forall k :: 0 <= k < |ordered| ==> SamePlan(preview[k], applied[k])
    {
      hide Sound, Distinct, Synced, Entry, SamePlan, Uncrowded;
      ghost var t := Rows();
      var shown, foreseen, done, toRegister, left;
      shown, preview, foreseen, toRegister := SyncTeamGroups(org, rosters, ordered, false);
      ok, applied, done, left := SyncTeamGroups(org, rosters, ordered, true);
      if ok {
        forall k | 0 <= k < |ordered| ensures SamePlan(preview[k], applied[k]) {
          PreviewIsThePlan(org, t, rosters, ordered, k);
        }
        SameTotals(preview, applied);
      }
    }
  }

  lemma NothingSynced(org: Org, t: Tables, directory: map<string, int>, rosters: map<string, set<string>>)
    ensures Synced(org, t, directory, rosters, []) == t && NameTeams(org, LoadedNames(t), []).taken == NamesOf(t.groups)
  {}
}
