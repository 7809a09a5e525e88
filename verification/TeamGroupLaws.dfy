/** What an applied team-group sync achieves, for any tables the schema allows and any organisation. */
module TeamGroupLaws {
  import opened Options
  import opened TeamNames
  import opened TeamGroupSync

  type Rosters = map<string, set<string>>

  ghost predicate Covers(rosters: Rosters, teams: seq<string>) {
    forall x :: x in teams ==> x in rosters
  }

  // ---------------------------------------------------------------- whose group is whose

  lemma {:induction false} NextIdsGrow(org: Org, s0: Naming, teams: seq<string>, j: nat, k: nat)
    requires j <= k <= |teams|
    ensures NameTeams(org, s0, teams[..j]).nextId <= NameTeams(org, s0, teams[..k]).nextId
    ensures j < k && OwnIndex(s0.groups, teams[j]).None? ==>
              NameTeams(org, s0, teams[..j]).nextId < NameTeams(org, s0, teams[..k]).nextId
    decreases k - j
  {
    hide NameTeam, OwnIndex;
    if j < k {
      PassUnrolls(org, s0, teams, j);
      OneStepId(org, NameTeams(org, s0, teams[..j]), OwnIndex(s0.groups, teams[j]), teams[j], s0);
      NextIdsGrow(org, s0, teams, j + 1, k);
    }
  }

  lemma OneStepId(org: Org, s: Naming, own: Option<nat>, team: string, s0: Naming)
    requires own.Some? ==> own.value < |s.groups|
    ensures NameTeam(org, s, own, team).nextId == s.nextId + if own.None? then 1 else 0
  {}

  /** Different teams never share a group. */
  lemma TeamGroupsDiffer(org: Org, t: Tables, directory: map<string, int>, teams: seq<string>, j: nat, k: nat)
    requires Sound(t, directory) && Distinct(teams) && j < k < |teams|
    ensures TeamGroupId(org, t, teams, j) != TeamGroupId(org, t, teams, k)
  {
    hide NameTeams, OwnIndex, NamesOf;
    NextIdsGrow(org, LoadedNames(t), teams, 0, j);
    NextIdsGrow(org, LoadedNames(t), teams, j, k);
    StartsAtNextId(org, t, teams);
    var a, b := OwnIndex(t.groups, teams[j]), OwnIndex(t.groups, teams[k]);
    if a.Some? && b.Some? {
      assert a.value != b.value;
    }
  }

  lemma StartsAtNextId(org: Org, t: Tables, teams: seq<string>)
    ensures NameTeams(org, LoadedNames(t), teams[..0]).nextId == t.nextId
  {}

  // ---------------------------------------------------------------- membership

  /** Exactly the registrable employees of `roster` belong to the group. */
  ghost predicate HoldsRoster(members: set<Membership>, gid: int, roster: set<string>, directory: map<string, int>) {
    forall u :: (gid, u) in members <==> exists e :: e in roster && e in directory && directory[e] == u
  }

  ghost predicate SameMembers(before: set<Membership>, after: set<Membership>, gid: int) {
    forall u :: (gid, u) in before <==> (gid, u) in after
  }

  /** `current` lists exactly the members of the group, by user id. */
  ghost predicate Lists(current: map<string, int>, members: set<Membership>, gid: int, directory: map<string, int>) {
    && (forall u :: (gid, u) in members <==> exists e :: e in current && current[e] == u)
    && (forall e :: e in current ==> e in directory && directory[e] == current[e])
  }

  lemma CurrentIsFaithful(t: Tables, directory: map<string, int>, gid: int)
    requires Sound(t, directory)
    ensures Lists(Current(t, gid), t.members, gid, directory)
  {
    forall u | (gid, u) in t.members ensures exists e :: e in Current(t, gid) && Current(t, gid)[e] == u {
      assert (gid, u).1 in t.users.Values;
      var e :| e in t.users && t.users[e] == u;
      assert e in Current(t, gid);
    }
  }

  /** Adding who is missing and removing who left makes the members the roster. */
  lemma DifferenceMakesRoster(members: set<Membership>, gid: int,
      current: map<string, int>, roster: set<string>, directory: map<string, int>)
    requires Lists(current, members, gid, directory)
    requires forall e, f :: e in directory && f in directory && directory[e] == directory[f] ==> e == f
    ensures var add, remove := roster - current.Keys, current.Keys - roster;
            HoldsRoster(members + Joined(gid, add, directory) - Left(gid, remove, current), gid, roster, directory)
  {
    var add, remove := roster - current.Keys, current.Keys - roster;
    var after := members + Joined(gid, add, directory) - Left(gid, remove, current);
    forall u ensures (gid, u) in after <==> exists e :: e in roster && e in directory && directory[e] == u {
      assert (gid, u) in Left(gid, remove, current) <==> exists e :: e in remove && e in current && current[e] == u;
      assert (gid, u) in Joined(gid, add, directory) <==> exists e :: e in add && e in directory && directory[e] == u;
      if e :| e in roster && e in directory && directory[e] == u {
        if e in current { assert current[e] == u; } else { assert e in add; }
      }
    }
  }

  lemma OtherGroupsKeep(members: set<Membership>, gid: int, other: int, add: set<string>,
      remove: set<string>, current: map<string, int>, directory: map<string, int>)
    requires other != gid
    ensures SameMembers(members, members + Joined(gid, add, directory) - Left(gid, remove, current), other)
  {}

  /** A group that belongs to none of the teams keeps its members. */
  lemma {:induction false} UnrelatedGroupKept(org: Org, t: Tables,
      directory: map<string, int>, rosters: Rosters, teams: seq<string>, n: nat, other: int)
    requires n <= |teams| && Covers(rosters, teams)
    requires forall k :: 0 <= k < n ==> TeamGroupId(org, t, teams, k) != other
    ensures SameMembers(t.members, Enrol(org, t, directory, rosters, teams[..n]).members, other)
    decreases n
  {
    hide PlanAt, TeamGroupId, Joined, Left, Registered, CurrentOf;
    if n > 0 {
      UnrelatedGroupKept(org, t, directory, rosters, teams, n - 1, other);
      EnrolUnrolls(org, t, directory, rosters, teams, n - 1);
      var plan := PlanAt(org, t, rosters, teams, n - 1);
      var members := Enrol(org, t, directory, rosters, teams[..n - 1]).members;
      OtherGroupsKeep(members, TeamGroupId(org, t, teams, n - 1), other, plan.add, plan.remove,
                      CurrentOf(t, OwnIndex(t.groups, teams[n - 1])), directory);
    }
  }

  /** What the loop loads as a team's members is what its group holds; a group yet to be created holds nobody. */
  lemma LoadedMembersAreFaithful(org: Org, t: Tables, directory: map<string, int>, teams: seq<string>, k: nat)
    requires Sound(t, directory) && k < |teams|
    ensures Lists(CurrentOf(t, OwnIndex(t.groups, teams[k])), t.members, TeamGroupId(org, t, teams, k), directory)
  {
    hide NameTeams, OwnIndex, NamesOf, Current;
    var own, gid := OwnIndex(t.groups, teams[k]), TeamGroupId(org, t, teams, k);
    if own.Some? {
      CurrentIsFaithful(t, directory, gid);
      assert CurrentOf(t, own) == Current(t, gid);
    } else {
      StartsAtNextId(org, t, teams);
      NextIdsGrow(org, LoadedNames(t), teams, 0, k);
      forall u ensures (gid, u) !in t.members {
        assert (gid, u) in t.members ==> (gid, u).0 < t.nextId;
      }
    }
  }

  /** After an applied sync every team's group holds its roster, minus the employees nobody can register. */
  lemma TeamHoldsRoster(org: Org, t: Tables, directory: map<string, int>, rosters: Rosters, teams: seq<string>, k: nat)
    requires Sound(t, directory)
    requires Distinct(teams) && Covers(rosters, teams) && k < |teams|
    ensures HoldsRoster(Synced(org, t, directory, rosters, teams).members, TeamGroupId(org, t, teams, k),
                        rosters[teams[k]], directory)
  {
    hide TeamGroupId, Joined, Left, Registered, CurrentOf, OwnIndex, Sound, NameTeams, Chosen, DeptName;
    var gid, current := TeamGroupId(org, t, teams, k), CurrentOf(t, OwnIndex(t.groups, teams[k]));
    forall j | 0 <= j < k ensures TeamGroupId(org, t, teams, j) != gid {
      TeamGroupsDiffer(org, t, directory, teams, j, k);
    }
    UnrelatedGroupKept(org, t, directory, rosters, teams, k, gid);
    LoadedMembersAreFaithful(org, t, directory, teams, k);
    EnrolUnrolls(org, t, directory, rosters, teams, k);
    var before := Enrol(org, t, directory, rosters, teams[..k]).members;
    assert forall u :: (gid, u) in before <==> (gid, u) in t.members;
    SoundIsInjective(t, directory);
    DifferenceMakesRoster(before, gid, current, rosters[teams[k]], directory);
    RosterKept(org, t, directory, rosters, teams, k, |teams|);
    assert teams[..|teams|] == teams;
  }

  lemma SoundIsInjective(t: Tables, directory: map<string, int>)
    requires Sound(t, directory)
    ensures forall e, f :: e in directory && f in directory && directory[e] == directory[f] ==> e == f
  {}

  /** Serving later teams does not touch the group of team `k`. */
  lemma {:induction false} RosterKept(org: Org, t: Tables, directory: map<string, int>,
      rosters: Rosters, teams: seq<string>, k: nat, n: nat)
    requires Sound(t, directory) && Distinct(teams) && Covers(rosters, teams) && k < n <= |teams|
    requires HoldsRoster(Enrol(org, t, directory, rosters, teams[..k + 1]).members, TeamGroupId(org, t, teams, k),
                         rosters[teams[k]], directory)
    ensures HoldsRoster(Enrol(org, t, directory, rosters, teams[..n]).members, TeamGroupId(org, t, teams, k),
                        rosters[teams[k]], directory)
    decreases n
  {
    hide PlanAt, TeamGroupId, Joined, Left, Registered, CurrentOf, OwnIndex, Enrol, Sound;
    if n > k + 1 {
      RosterKept(org, t, directory, rosters, teams, k, n - 1);
      TeamGroupsDiffer(org, t, directory, teams, k, n - 1);
      EnrolUnrolls(org, t, directory, rosters, teams, n - 1);
      var plan := PlanAt(org, t, rosters, teams, n - 1);
      OtherGroupsKeep(Enrol(org, t, directory, rosters, teams[..n - 1]).members, TeamGroupId(org, t, teams, n - 1),
                      TeamGroupId(org, t, teams, k), plan.add, plan.remove,
                      CurrentOf(t, OwnIndex(t.groups, teams[n - 1])), directory);
    }
  }

  /** Groups of no team, manual ones among them, keep their row and their members. */
  lemma OtherGroupsUnchanged(org: Org, t: Tables, directory: map<string, int>,
      rosters: Rosters, teams: seq<string>, i: nat)
    requires Sound(t, directory) && Covers(rosters, teams) && i < |t.groups|
    requires forall x :: x in teams ==> t.groups[i].source != Some(x)
    ensures var after := Synced(org, t, directory, rosters, teams);
            i < |after.groups| && after.groups[i] == t.groups[i]
            && SameMembers(t.members, after.members, t.groups[i].id)
  {
    hide NameTeams, OwnIndex, NamesOf, Enrol;
    NamingFrame(org, LoadedNames(t), teams);
    forall k | 0 <= k < |teams| ensures TeamGroupId(org, t, teams, k) != t.groups[i].id {
      StartsAtNextId(org, t, teams);
      NextIdsGrow(org, LoadedNames(t), teams, 0, k);
      assert teams[k] in teams;
    }
    UnrelatedGroupKept(org, t, directory, rosters, teams, |teams|, t.groups[i].id);
    assert teams[..|teams|] == teams;
  }

  /** The group a team had when the sync began holds this employee. */
  predicate WasMember(t: Tables, team: string, e: string) {
    var own := OwnIndex(t.groups, team);
    own.Some? && e in t.users && (t.groups[own.value].id, t.users[e]) in t.members
  }

  /** Who is to be added and removed: the roster without the members, and the members without the roster. */
  lemma EntryCompares(org: Org, t: Tables, rosters: Rosters, teams: seq<string>, k: nat)
    requires k < |teams| && teams[k] in rosters
    ensures var plan, team := PlanAt(org, t, rosters, teams, k), teams[k];
            forall e :: (e in plan.add <==> e in rosters[team] && !WasMember(t, team, e))
                     && (e in plan.remove <==> e !in rosters[team] && WasMember(t, team, e))
  {
    hide Chosen, OwnIndex, NameTeams, DeptName;
  }

  /** What an entry says about the team's group: its id if it has one, and its old name if that is given up. */
  lemma EntryReports(org: Org, t: Tables, rosters: Rosters, teams: seq<string>, k: nat, apply: bool)
    requires k < |teams| && teams[k] in rosters
    ensures var entry, own := Entry(org, t, rosters, teams, k, apply), OwnIndex(t.groups, teams[k]);
            entry.team == teams[k] && entry.teamName == DeptName(org, teams[k]) &&
            if own.Some? then
              var group := t.groups[own.value];
              !entry.created && entry.groupId == Some(group.id) &&
              entry.renamedFrom == if group.name == entry.groupName then None else Some(group.name)
            else
              entry.created && entry.renamedFrom == None && (entry.groupId.Some? <==> apply)
  {
    hide Chosen, OwnIndex, NameTeams, DeptName, CurrentOf;
  }

  /** An applied sync leaves each team the group its entry says, under that id, name and department. */
  lemma EntryIsWritten(org: Org, t: Tables, directory: map<string, int>, rosters: Rosters, teams: seq<string>, k: nat)
    requires Distinct(teams) && "" !in teams && Covers(rosters, teams) && k < |teams|
    ensures var entry := Entry(org, t, rosters, teams, k, true);
            entry.groupId.Some? &&
            Group(entry.groupId.value, entry.groupName, Some(teams[k]))
            in Synced(org, t, directory, rosters, teams).groups
  {
    hide PlanAt, TeamGroupId, NameTeams, Enrol, OwnIndex;
    OwnGroupAfter(org, t, rosters, teams, |teams|, k);
    assert teams[..|teams|] == teams;
  }

  /** keep + add is the roster, keep + remove the old members: the plan accounts for everybody once. */
  lemma PlanAccounts(org: Org, t: Tables, rosters: Rosters, teams: seq<string>, k: nat)
    requires k < |teams| && teams[k] in rosters
    ensures var plan := PlanAt(org, t, rosters, teams, k);
            plan.keep + |plan.add| == |rosters[teams[k]]|
            && plan.keep + |plan.remove| == |CurrentOf(t, OwnIndex(t.groups, teams[k]))|
  {
    hide Chosen, OwnIndex, NameTeams, Current;
    var roster, current := rosters[teams[k]], CurrentOf(t, OwnIndex(t.groups, teams[k])).Keys;
    assert roster == (roster - current) + (roster * current);
    assert current == (current - roster) + (roster * current);
  }

  lemma Unlisted(current: map<string, int>, members: set<Membership>, gid: int, directory: map<string, int>, e: string)
    requires Lists(current, members, gid, directory) && e in directory && e !in current
    requires forall e, f :: e in directory && f in directory && directory[e] == directory[f] ==> e == f
    ensures (gid, directory[e]) !in members
  {
    var u := directory[e];
    assert (gid, u) in members <==> exists f :: f in current && current[f] == u;
  }

  /** No membership row is inserted twice. */
  lemma NothingInsertedTwice(org: Org, t: Tables, directory: map<string, int>,
      rosters: Rosters, teams: seq<string>, k: nat)
    requires Sound(t, directory) && Distinct(teams) && Covers(rosters, teams) && k < |teams|
    ensures Joined(TeamGroupId(org, t, teams, k), PlanAt(org, t, rosters, teams, k).add, directory)
            !! Enrol(org, t, directory, rosters, teams[..k]).members
  {
    hide TeamGroupId, CurrentOf, OwnIndex, Sound, NameTeams, Chosen, DeptName, Enrol;
    var gid, current := TeamGroupId(org, t, teams, k), CurrentOf(t, OwnIndex(t.groups, teams[k]));
    forall j | 0 <= j < k ensures TeamGroupId(org, t, teams, j) != gid {
      TeamGroupsDiffer(org, t, directory, teams, j, k);
    }
    UnrelatedGroupKept(org, t, directory, rosters, teams, k, gid);
    LoadedMembersAreFaithful(org, t, directory, teams, k);
    SoundIsInjective(t, directory);
    var plan, members := PlanAt(org, t, rosters, teams, k), Enrol(org, t, directory, rosters, teams[..k]).members;
    forall e | e in plan.add && e in directory ensures (gid, directory[e]) !in members {
      Unlisted(current, t.members, gid, directory, e);
      var u := directory[e];
      assert (gid, u) in t.members <==> (gid, u) in members;
    }
  }

  // ---------------------------------------------------------------- an immediate second sync

  lemma OwnGroupKept(org: Org, s: Naming, own: Option<nat>, team: string, other: string)
    requires own == OwnIndex(s.groups, team) && other != team && OwnIndex(s.groups, other).Some?
    ensures var after, i := NameTeam(org, s, own, team).groups, OwnIndex(s.groups, other).value;
            OwnIndex(after, other) == Some(i) && after[i] == s.groups[i]
  {
    hide Chosen, OwnIndex;
    var chosen := Chosen(org, team, Others(s, own));
    if own.Some? {
      OwnIndexIgnoresRename(s.groups, own.value, chosen, other);
    } else {
      OwnIndexOfAppended(s.groups, Group(s.nextId, chosen, Some(team)), other);
    }
  }

  lemma OwnGroupServed(org: Org, s: Naming, own: Option<nat>, team: string)
    requires own == OwnIndex(s.groups, team) && team != ""
    ensures var after := NameTeam(org, s, own, team).groups;
            var i, id := OwnIndex(after, team), match own case Some(j) => s.groups[j].id case None => s.nextId;
            i.Some? && after[i.value] == Group(id, Chosen(org, team, Others(s, own)), Some(team))
  {
    hide Chosen, OwnIndex;
    var chosen := Chosen(org, team, Others(s, own));
    if own.Some? {
      OwnIndexIgnoresRename(s.groups, own.value, chosen, team);
    } else {
      OwnIndexOfAppended(s.groups, Group(s.nextId, chosen, Some(team)), team);
    }
  }

  lemma PlannedName(org: Org, t: Tables, rosters: Rosters, teams: seq<string>, k: nat)
    requires Distinct(teams) && k < |teams| && teams[k] in rosters
    ensures var s, own := NameTeams(org, LoadedNames(t), teams[..k]), OwnIndex(t.groups, teams[k]);
            PlanAt(org, t, rosters, teams, k).groupName == Chosen(org, teams[k], Others(s, own))
  {
    hide OwnIndex, NamesOf, NameTeams, Chosen, CurrentOf, DeptName;
    NamingFrame(org, LoadedNames(t), teams[..k]);
    if OwnIndex(t.groups, teams[k]).Some? { NotOwned(t.groups, teams, k); }
  }

  /** A later sync finds each team's group under the id and the name this one gave it. */
  lemma {:induction false} OwnGroupAfter(org: Org, t: Tables, rosters: Rosters, teams: seq<string>, n: nat, k: nat)
    requires Distinct(teams) && "" !in teams && Covers(rosters, teams) && k < n <= |teams|
    ensures var groups := NameTeams(org, LoadedNames(t), teams[..n]).groups;
            var own, planned := OwnIndex(groups, teams[k]), PlanAt(org, t, rosters, teams, k);
            own.Some? &&
            groups[own.value] == Group(TeamGroupId(org, t, teams, k), planned.groupName, Some(teams[k]))
    decreases n
  {
    hide OwnIndex, NamesOf, NameTeam, PlanAt;
    var s0 := LoadedNames(t);
    var s, team := NameTeams(org, s0, teams[..n - 1]), teams[n - 1];
    PassUnrolls(org, s0, teams, n - 1);
    assert team !in teams[..n - 1];
    OwnIndexAfter(org, s0, teams[..n - 1], team);
    if k < n - 1 {
      OwnGroupAfter(org, t, rosters, teams, n - 1, k);
      OwnGroupKept(org, s, OwnIndex(s0.groups, team), team, teams[k]);
    } else {
      OwnGroupServed(org, s, OwnIndex(s0.groups, team), team);
      NamingFrame(org, s0, teams[..n - 1]);
      PlannedName(org, t, rosters, teams, k);
    }
  }

  lemma NotAddedIsUser(org: Org, t: Tables, rosters: Rosters, teams: seq<string>, k: nat, e: string)
    requires k < |teams| && teams[k] in rosters
    ensures e in rosters[teams[k]] && e !in PlanAt(org, t, rosters, teams, k).add ==> e in t.users
  {
    hide OwnIndex, NameTeams, Chosen, DeptName;
  }

  /** Whoever is on a team's roster and can be registered is a user afterwards. */
  lemma {:induction false} RegistersRoster(org: Org, t: Tables,
      directory: map<string, int>, rosters: Rosters, teams: seq<string>, n: nat, e: string)
    requires Covers(rosters, teams) && n <= |teams|
    requires e in t.users || (e in directory && exists k :: 0 <= k < n && e in rosters[teams[k]])
    ensures e in Enrol(org, t, directory, rosters, teams[..n]).users
    decreases n
  {
    hide TeamGroupId, Joined, Left, OwnIndex, NameTeams, Enrol, PlanAt, CurrentOf;
    if n == 0 {
      NobodyEnrolled(org, t, directory, rosters, teams);
    } else {
      EnrolUnrolls(org, t, directory, rosters, teams, n - 1);
      var plan := PlanAt(org, t, rosters, teams, n - 1);
      NotAddedIsUser(org, t, rosters, teams, n - 1, e);
      if e !in plan.add || e !in directory {
        if e !in t.users {
          var k :| 0 <= k < n && e in rosters[teams[k]];
          assert k < n - 1;
        }
        RegistersRoster(org, t, directory, rosters, teams, n - 1, e);
      }
    }
  }

  lemma NobodyEnrolled(org: Org, t: Tables, directory: map<string, int>, rosters: Rosters, teams: seq<string>)
    requires Covers(rosters, teams)
    ensures Enrol(org, t, directory, rosters, teams[..0]) == Enrolment(t.members, t.users)
  {}

  lemma RegisteredAreKnown(users: map<string, int>, add: set<string>, directory: map<string, int>)
    requires Known(users, directory)
    ensures Known(users + Registered(add, directory), directory)
  {}

  lemma {:induction false} UsersStayInDirectory(org: Org, t: Tables,
      directory: map<string, int>, rosters: Rosters, teams: seq<string>, n: nat)
    requires Sound(t, directory) && Covers(rosters, teams) && n <= |teams|
    ensures Known(Enrol(org, t, directory, rosters, teams[..n]).users, directory)
    decreases n
  {
    hide TeamGroupId, Joined, Left, OwnIndex, NameTeams, PlanAt, CurrentOf, Registered, Known, Enrol;
    if n == 0 {
      NobodyEnrolled(org, t, directory, rosters, teams);
    } else {
      EnrolUnrolls(org, t, directory, rosters, teams, n - 1);
      UsersStayInDirectory(org, t, directory, rosters, teams, n - 1);
      var before, plan := Enrol(org, t, directory, rosters, teams[..n - 1]), PlanAt(org, t, rosters, teams, n - 1);
      RegisteredAreKnown(before.users, plan.add, directory);
    }
  }

  /** Run again at once, the sync removes nobody and would add only the employees nobody can register. */
  lemma SecondSyncIsQuiet(org: Org, t: Tables, directory: map<string, int>,
      rosters: Rosters, teams: seq<string>, k: nat)
    requires Sound(t, directory)
    requires Distinct(teams) && "" !in teams && Covers(rosters, teams) && k < |teams|
    ensures var plan := PlanAt(org, Synced(org, t, directory, rosters, teams), rosters, teams, k);
            plan.remove == {} && !plan.created && plan.add == (set e | e in rosters[teams[k]] && e !in directory)
  {
    hide NameTeams, OwnIndex, NamesOf, Enrol, TeamGroupId, Chosen, DeptName, DistinctNames, FreshIds, PlanAt;
    var after, roster := Synced(org, t, directory, rosters, teams), rosters[teams[k]];
    assert teams[..|teams|] == teams;
    OwnGroupAfter(org, t, rosters, teams, |teams|, k);
    EntryCompares(org, after, rosters, teams, k);
    EntryReports(org, after, rosters, teams, k, false);
    TeamHoldsRoster(org, t, directory, rosters, teams, k);
    UsersStayInDirectory(org, t, directory, rosters, teams, |teams|);
    SoundIsInjective(t, directory);
    var gid := TeamGroupId(org, t, teams, k);
    forall e ensures WasMember(after, teams[k], e) <==> e in roster && e in directory {
      if e in roster && e in directory {
        RegistersRoster(org, t, directory, rosters, teams, |teams|, e);
        assert (gid, directory[e]) in after.members;
      }
    }
  }

  /** After an applied sync the employees still to be registered are exactly those nobody can register. */
  lemma OnlyUnregistrableLeft(org: Org, t: Tables, directory: map<string, int>, rosters: Rosters, teams: seq<string>)
    requires Sound(t, directory) && Covers(rosters, teams)
    ensures var users := Synced(org, t, directory, rosters, teams).users;
            Everyone(rosters, teams) - users.Keys == set e | e in Everyone(rosters, teams) && e !in directory
  {
    hide NameTeams, OwnIndex, NamesOf, Enrol;
    assert teams[..|teams|] == teams;
    UsersStayInDirectory(org, t, directory, rosters, teams, |teams|);
    var users := Synced(org, t, directory, rosters, teams).users;
    forall e | e in Everyone(rosters, teams) && e in directory ensures e in users {
      var x :| x in teams && e in rosters[x];
      var k :| 0 <= k < |teams| && teams[k] == x;
      RegistersRoster(org, t, directory, rosters, teams, |teams|, e);
    }
  }

  // ---------------------------------------------------------------- later syncs

  lemma {:induction false} NextIdIrrelevant(org: Org, groups: seq<Group>, teams: seq<string>, a: int, b: int)
    requires forall x :: x in teams ==> OwnIndex(groups, x).Some?
    ensures var s, r := NameTeams(org, Loaded(groups, a), teams), NameTeams(org, Loaded(groups, b), teams);
            s.groups == r.groups && s.taken == r.taken
    decreases |teams|
  {
    hide OwnIndex, Chosen, NamesOf;
    if teams != [] {
      var n := |teams| - 1;
      assert teams == teams[..n] + [teams[n]];
      NextIdIrrelevant(org, groups, teams[..n], a, b);
    }
  }

  /** Once settled, an applied sync changes the group rows as `Resync` says, so all its laws apply to the session. */
  lemma LaterSyncIsResync(org: Org, t: Tables, directory: map<string, int>, rosters: Rosters, teams: seq<string>)
    requires Covers(rosters, teams) && Settled(org, t.groups, teams)
    ensures Synced(org, t, directory, rosters, teams).groups == Resync(org, t.groups, teams)
  {
    hide OwnIndex, NameTeams, Enrol;
    NextIdIrrelevant(org, t.groups, teams, t.nextId, 0);
  }

  /** An applied sync leaves a settled organisation behind, and one that went through distinct names as well. */
  lemma FirstSyncSettles(org: Org, t: Tables, directory: map<string, int>, rosters: Rosters, teams: seq<string>)
    requires Covers(rosters, teams) && Distinct(teams) && "" !in teams
    ensures Settled(org, Synced(org, t, directory, rosters, teams).groups, teams)
    ensures DistinctNames(t.groups) && Uncrowded(org, t, teams) ==>
              DistinctNames(Synced(org, t, directory, rosters, teams).groups)
  {
    hide OwnIndex, NameTeams, Enrol, Settled, DistinctNames, CrowdedAt;
    SyncSettles(org, LoadedNames(t), teams);
    if DistinctNames(t.groups) && Uncrowded(org, t, teams) {
      NamesStayDistinct(org, t.groups, t.nextId, teams);
      assert teams[..|teams|] == teams;
    }
  }

  /**
   * Once a sync has gone through, every later one with the same organisation goes through as well, after any number
   * of syncs in between and in whatever order each of them serves the teams.
   */
  lemma LaterSyncsGoThrough(org: Org, t: Tables, directory: map<string, int>, rosters: Rosters,
      teams: seq<string>, orders: seq<seq<string>>, later: Tables, order: seq<string>)
    requires Covers(rosters, teams) && Distinct(teams) && "" !in teams
    requires DistinctNames(t.groups) && Uncrowded(org, t, teams)
    requires AllServe(orders, teams) && Serves(order, teams)
    requires later.groups == Resyncs(org, Synced(org, t, directory, rosters, teams).groups, orders)
    ensures Uncrowded(org, later, order)
  {
    hide Settled, DistinctNames, CrowdedAt, Synced, Serves;
    FirstSyncSettles(org, t, directory, rosters, teams);
    NoLaterSyncFails(org, Synced(org, t, directory, rosters, teams).groups, teams, orders);
  }

  // ---------------------------------------------------------------- the schema's guarantees

  lemma FreshStep(org: Org, s: Naming, own: Option<nat>, team: string)
    requires own.Some? ==> own.value < |s.groups|
    requires FreshIds(s.groups, s.nextId)
    ensures FreshIds(NameTeam(org, s, own, team).groups, NameTeam(org, s, own, team).nextId)
  {
    hide Chosen;
  }

  lemma {:induction false} IdsStayFresh(org: Org, s0: Naming, teams: seq<string>)
    requires FreshIds(s0.groups, s0.nextId)
    ensures FreshIds(NameTeams(org, s0, teams).groups, NameTeams(org, s0, teams).nextId)
    decreases |teams|
  {
    hide OwnIndex, NameTeam, FreshIds;
    if teams != [] {
      var n := |teams| - 1;
      IdsStayFresh(org, s0, teams[..n]);
      FreshStep(org, NameTeams(org, s0, teams[..n]), OwnIndex(s0.groups, teams[n]), teams[n]);
    }
  }

  /** Every membership row names a group id already given out, and a user. */
  ghost predicate RowsRefer(members: set<Membership>, users: map<string, int>, nextId: int) {
    forall p :: p in members ==> p.0 < nextId && p.1 in users.Values
  }

  lemma EnrolledRefer(members: set<Membership>, users: map<string, int>, directory: map<string, int>,
      gid: int, add: set<string>, left: set<Membership>, nextId: int, nextId': int)
    requires RowsRefer(members, users, nextId) && Known(users, directory) && gid < nextId' && nextId <= nextId'
    ensures RowsRefer(members + Joined(gid, add, directory) - left, users + Registered(add, directory), nextId')
  {
    var users' := users + Registered(add, directory);
    forall u | u in users.Values ensures u in users'.Values {
      var e :| e in users && users[e] == u;
      assert e in users' && users'[e] == u;
    }
    forall p | p in Joined(gid, add, directory) ensures p.1 in users'.Values {
      var e :| e in add && e in directory && p == (gid, directory[e]);
      assert e in users' && users'[e] == p.1;
    }
  }

  lemma TeamGroupIdIsGivenOut(org: Org, t: Tables, directory: map<string, int>, teams: seq<string>, k: nat)
    requires Sound(t, directory) && k < |teams|
    ensures TeamGroupId(org, t, teams, k) < NameTeams(org, LoadedNames(t), teams[..k + 1]).nextId
  {
    hide OwnIndex, NameTeams, NamesOf;
    StartsAtNextId(org, t, teams);
    NextIdsGrow(org, LoadedNames(t), teams, 0, k + 1);
    NextIdsGrow(org, LoadedNames(t), teams, k, k + 1);
  }

  lemma {:induction false} MembersStayReferring(org: Org, t: Tables,
      directory: map<string, int>, rosters: Rosters, teams: seq<string>, n: nat)
    requires Sound(t, directory) && Covers(rosters, teams) && n <= |teams|
    ensures var rows := Enrol(org, t, directory, rosters, teams[..n]);
            RowsRefer(rows.members, rows.users, NameTeams(org, LoadedNames(t), teams[..n]).nextId)
    decreases n
  {
    hide TeamGroupId, Joined, Left, OwnIndex, NameTeams, PlanAt, CurrentOf, Registered, Known, Enrol, RowsRefer;
    if n == 0 {
      LoadedRefer(org, t, directory, rosters, teams);
    } else {
      MembersStayReferring(org, t, directory, rosters, teams, n - 1);
      UsersStayInDirectory(org, t, directory, rosters, teams, n - 1);
      EnrolUnrolls(org, t, directory, rosters, teams, n - 1);
      TeamGroupIdIsGivenOut(org, t, directory, teams, n - 1);
      NextIdsGrow(org, LoadedNames(t), teams, n - 1, n);
      var before, plan := Enrol(org, t, directory, rosters, teams[..n - 1]), PlanAt(org, t, rosters, teams, n - 1);
      var gid, current := TeamGroupId(org, t, teams, n - 1), CurrentOf(t, OwnIndex(t.groups, teams[n - 1]));
      EnrolledRefer(before.members, before.users, directory, gid, plan.add, Left(gid, plan.remove, current),
                    NameTeams(org, LoadedNames(t), teams[..n - 1]).nextId,
                    NameTeams(org, LoadedNames(t), teams[..n]).nextId);
    }
  }

  lemma LoadedRefer(org: Org, t: Tables, directory: map<string, int>, rosters: Rosters, teams: seq<string>)
    requires Sound(t, directory) && Covers(rosters, teams)
    ensures var rows := Enrol(org, t, directory, rosters, teams[..0]);
            RowsRefer(rows.members, rows.users, NameTeams(org, LoadedNames(t), teams[..0]).nextId)
  {
    hide OwnIndex, NamesOf;
  }

  /** A sync that goes through keeps all that the schema and `get_or_register` guarantee, unique names included. */
  lemma SyncKeepsSound(org: Org, t: Tables, directory: map<string, int>, rosters: Rosters, teams: seq<string>)
    requires Sound(t, directory) && Covers(rosters, teams) && Uncrowded(org, t, teams)
    ensures Sound(Synced(org, t, directory, rosters, teams), directory)
  {
    hide OwnIndex, NameTeams, NamesOf, Enrol, DistinctNames, CrowdedAt, Known;
    assert teams[..|teams|] == teams;
    IdsStayFresh(org, LoadedNames(t), teams);
    NamesStayDistinct(org, t.groups, t.nextId, teams);
    UsersStayInDirectory(org, t, directory, rosters, teams, |teams|);
    MembersStayReferring(org, t, directory, rosters, teams, |teams|);
  }

  // ---------------------------------------------------------------- an example

  /** The organisation of `NestedCandidates`. */
  predicate DevBelowPlatform(org: Org) {
    "D1" in org.depts && org.depts["D1"] == Dept(Some("Dev"), Some("D0"), Some("C")) &&
    "D0" in org.depts && org.depts["D0"].name == Some("Platform") &&
    "C" in org.companies && org.companies["C"] == "Acme"
  }

  lemma DevIsHeld(org: Org, nextId: int)
    requires DevBelowPlatform(org)
    ensures Chosen(org, "D1", {"Dev"}) == "Platform · Dev"
    ensures !Crowded(org, Naming([Group(1, "Dev", None)], {"Dev"}, nextId), None, "D1")
  {
    NestedCandidates(org);
    var names := Candidates(org, "D1");
    assert |names[0]| != |names[1]|;
    assert names[1] in names && names[1] !in {"Dev"} && names[0] in {"Dev"};
  }

  function DevMembers(a: string): Tables {
    Tables([Group(1, "Dev", None)], {(1, 10)}, map[a := 10], 2)
  }

  lemma DevTables(org: Org, a: string, b: string)
    requires DevBelowPlatform(org) && a != b
    ensures var t := DevMembers(a);
            Sound(t, map[a := 10, b := 11]) && Uncrowded(org, t, ["D1"]) && OwnIndex(t.groups, "D1") == None
  {
    hide Crowded;
    var t := DevMembers(a);
    DevIsHeld(org, 2);
    assert ["D1"][..0] == [] && NamesOf(t.groups) == {"Dev"};
    assert t.users[a] == 10;
    assert OwnIndex(t.groups, "D1") == None by { OwnIsLast(t.groups, "D1"); }
  }

  lemma DevNaming(org: Org, a: string, rosters: Rosters)
    requires DevBelowPlatform(org) && "D1" in rosters
    ensures var t := DevMembers(a);
            PlanAt(org, t, rosters, ["D1"], 0)
            == TeamPlan("D1", "Dev", "Platform · Dev", None, true, None, rosters["D1"], {}, 0) &&
            NameTeams(org, LoadedNames(t), ["D1"]).groups == t.groups + [Group(2, "Platform · Dev", Some("D1"))] &&
            NameTeams(org, LoadedNames(t), ["D1"]).nextId == 3 && TeamGroupId(org, t, ["D1"], 0) == 2
  {
    hide Chosen, Crowded, OwnIndex;
    var t, team := DevMembers(a), "D1";
    DevIsHeld(org, 2);
    OwnIsLast(t.groups, team);
    assert DeptName(org, team) == "Dev" by { NestedCandidates(org); }
    assert NamesOf(t.groups) == {"Dev"} && {"Dev"} - {} == {"Dev"};
    assert [team][..0] == [];
    var roster, nobody: map<string, int> := rosters[team], map[];
    assert roster - nobody.Keys == roster && nobody.Keys - roster == {} && roster * nobody.Keys == {};
  }

  /**
   * A manual group holds the team's name and one of its members: the team gets a group of its own under the next
   * name, with everybody who can be registered; the manual group and its member stay.
   */
  lemma FirstSyncExample(org: Org, a: string, b: string, c: string)
    requires DevBelowPlatform(org) && a != b && b != c && a != c
    ensures var t := Tables([Group(1, "Dev", None)], {(1, 10)}, map[a := 10], 2);
            var directory, rosters, teams := map[a := 10, b := 11], map["D1" := {a, b, c}], ["D1"];
            && Sound(t, directory) && Distinct(teams) && Uncrowded(org, t, teams)
            && Entry(org, t, rosters, teams, 0, true)
               == TeamPlan("D1", "Dev", "Platform · Dev", Some(2), true, None, {a, b, c}, {}, 0)
            && Synced(org, t, directory, rosters, teams)
               == Tables([Group(1, "Dev", None), Group(2, "Platform · Dev", Some("D1"))],
                         {(1, 10), (2, 10), (2, 11)}, directory, 3)
  {
    hide Sound, Uncrowded, OwnIndex, NameTeams, PlanAt, TeamGroupId, Enrol;
    var t, teams := DevMembers(a), ["D1"];
    var directory, rosters := map[a := 10, b := 11], map["D1" := {a, b, c}];
    DevTables(org, a, b);
    DevNaming(org, a, rosters);
    NobodyEnrolled(org, t, directory, rosters, teams);
    EnrolUnrolls(org, t, directory, rosters, teams, 0);
    assert teams[..0 + 1] == teams;
    var add := rosters["D1"];
    assert a in add && b in add;
    assert Joined(2, add, directory) == {(2, 10), (2, 11)};
    assert Registered(add, directory) == directory;
    var nobody: map<string, int> := map[];
    assert CurrentOf(t, None) == nobody && Left(2, {}, nobody) == {};
    var rows := Enrol(org, t, directory, rosters, teams);
    assert rows.members == {(1, 10)} + {(2, 10), (2, 11)} - {} == {(1, 10), (2, 10), (2, 11)};
    assert rows.users == map[a := 10] + directory == directory;
  }
}
