/** How team_group_sync.py names its groups: ordered candidates, the set of taken names, one pass over the teams. */
module TeamNames {
  import opened Options

  const SEP := " · "

  /** A row of the department view: name, parent department and company may be missing. */
  datatype Dept = Dept(name: Option<string>, up: Option<string>, cmp: Option<string>)

  /** `dept_map` and `companies`. */
  datatype Org = Org(depts: map<string, Dept>, companies: map<string, string>)

  /** A user group; `source` is the department an automatic group was created for. */
  datatype Group = Group(id: int, name: string, source: Option<string>)

  // ---------------------------------------------------------------- candidates

  predicate Truthy(text: Option<string>) {
    text.Some? && text.value != ""
  }

  function DeptName(org: Org, team: string): string {
    match Lookup(org.depts, Some(team))
    case Some(d) => if Truthy(d.name) then d.name.value else team
    case None => team
  }

  function ParentName(org: Org, team: string): Option<string> {
    match Lookup(org.depts, Some(team))
    case None => None
    case Some(d) =>
      if !Truthy(d.up) then None
      else match Lookup(org.depts, d.up) case None => None case Some(parent) => parent.name
  }

  function CompanyName(org: Org, team: string): Option<string> {
    match Lookup(org.depts, Some(team)) case None => None case Some(d) => Lookup(org.companies, d.cmp)
  }

  /** The three names by the rows they come from; a missing department, parent or company gives none. */
  lemma NamesByRows(org: Org, team: string)
    ensures forall name :: ParentName(org, team) == Some(name) <==>
              exists up :: team in org.depts && org.depts[team].up == Some(up) && up != "" && up in org.depts
                && org.depts[up].name == Some(name)
    ensures forall name :: CompanyName(org, team) == Some(name) <==>
              exists company :: team in org.depts && org.depts[team].cmp == Some(company) && company in org.companies
                && org.companies[company] == name
    ensures DeptName(org, team) ==
            if team in org.depts && org.depts[team].name != None && org.depts[team].name != Some("")
            then org.depts[team].name.value else team
  {}

  /** The last resort: the department id is part of the name. */
  function Fallback(org: Org, team: string): string {
    DeptName(org, team) + " (" + team + ")"
  }

  /** `dict.fromkeys`: the first occurrence of every element, in order. */
  function Dedup(names: seq<string>): seq<string> {
    if names == [] then []
    else
      var front, last := names[..|names| - 1], names[|names| - 1];
      Dedup(front) + if last in front then [] else [last]
  }

  function RawCandidates(org: Org, team: string): seq<string> {
    var name, parent, company := DeptName(org, team), ParentName(org, team), CompanyName(org, team);
    [name] +
    (if Truthy(parent) && parent != company then
       [parent.value + SEP + name] +
       if Truthy(company) then [company.value + SEP + parent.value + SEP + name] else []
     else if Truthy(company) then [company.value + SEP + name]
     else []) +
    [Fallback(org, team)]
  }

  function Candidates(org: Org, team: string): seq<string> {
    Dedup(RawCandidates(org, team))
  }

  /** `_name_candidates` */
  method NameCandidates(org: Org, team: string) returns (candidates: seq<string>)
    ensures candidates == Candidates(org, team)
  {
    var name, parent, company := DeptName(org, team), ParentName(org, team), CompanyName(org, team);
    var raw := [name];
    if Truthy(parent) && parent != company {
      raw := raw + [parent.value + SEP + name];
      if Truthy(company) {
        raw := raw + [company.value + SEP + parent.value + SEP + name];
      }
    } else if Truthy(company) {
      raw := raw + [company.value + SEP + name];
    }
    raw := raw + [name + " (" + team + ")"];
    assert raw == RawCandidates(org, team);
    candidates := Dedup(raw);
  }

  lemma {:induction false} DedupKeeps(names: seq<string>)
    ensures forall name :: name in Dedup(names) <==> name in names
    ensures forall i, j :: 0 <= i < j < |Dedup(names)| ==> Dedup(names)[i] != Dedup(names)[j]
    decreases |names|
  {
    if names != [] {
      var front, last := names[..|names| - 1], names[|names| - 1];
      assert names == front + [last];
      DedupKeeps(front);
    }
  }

  lemma CandidatesEndInFallback(org: Org, team: string)
    ensures Fallback(org, team) in Candidates(org, team)
    ensures forall i, j :: 0 <= i < j < |Candidates(org, team)| ==> Candidates(org, team)[i] != Candidates(org, team)[j]
  {
    var raw := RawCandidates(org, team);
    DedupKeeps(raw);
    assert raw[|raw| - 1] == Fallback(org, team);
  }

  lemma {:induction false} DedupIdle(names: seq<string>)
    requires forall i, j :: 0 <= i < j < |names| ==> names[i] != names[j]
    ensures Dedup(names) == names
    decreases |names|
  {
    if names != [] {
      DedupIdle(names[..|names| - 1]);
    }
  }

  /** A team below a department of a company. */
  lemma NestedCandidates(org: Org)
    requires "D1" in org.depts && org.depts["D1"] == Dept(Some("Dev"), Some("D0"), Some("C"))
    requires "D0" in org.depts && org.depts["D0"].name == Some("Platform")
    requires "C" in org.companies && org.companies["C"] == "Acme"
    ensures Candidates(org, "D1") == ["Dev", "Platform · Dev", "Acme · Platform · Dev", "Dev (D1)"]
  {
    RawFromNames(org, "D1", "Dev", Some("Platform"), Some("Acme"));
    hide RawCandidates, DeptName, ParentName, CompanyName, Dedup;
    assert "Platform" + SEP + "Dev" == "Platform · Dev";
    assert "Acme" + SEP + "Platform" + SEP + "Dev" == "Acme · Platform · Dev";
    assert "Dev" + " (" + "D1" + ")" == "Dev (D1)";
    var names := ["Dev", "Platform · Dev", "Acme · Platform · Dev", "Dev (D1)"];
    assert RawCandidates(org, "D1") == names;
    assert |names[0]| == 3 && |names[1]| == 14 && |names[2]| == 21 && |names[3]| == 8;
    DedupIdle(names);
  }

  /** A team directly below the row of its company: the company is named once. */
  lemma TopCandidates(org: Org)
    requires "D2" in org.depts && org.depts["D2"] == Dept(Some("HR"), Some("H"), Some("C"))
    requires "H" in org.depts && org.depts["H"].name == Some("Acme")
    requires "C" in org.companies && org.companies["C"] == "Acme"
    ensures Candidates(org, "D2") == ["HR", "Acme · HR", "HR (D2)"]
  {
    RawFromNames(org, "D2", "HR", Some("Acme"), Some("Acme"));
    hide RawCandidates, DeptName, ParentName, CompanyName, Dedup;
    assert "Acme" + SEP + "HR" == "Acme · HR" && "HR" + " (" + "D2" + ")" == "HR (D2)";
    var names := ["HR", "Acme · HR", "HR (D2)"];
    assert RawCandidates(org, "D2") == names;
    assert |names[0]| == 2 && |names[1]| == 9 && |names[2]| == 7;
    DedupIdle(names);
  }

  /** A team that no department row describes. */
  lemma UnlistedCandidates(org: Org)
    requires "D9" !in org.depts
    ensures Candidates(org, "D9") == ["D9", "D9 (D9)"]
  {
    RawFromNames(org, "D9", "D9", None, None);
    hide RawCandidates, DeptName, ParentName, CompanyName, Dedup;
    assert "D9" + " (" + "D9" + ")" == "D9 (D9)";
    var names := ["D9", "D9 (D9)"];
    assert RawCandidates(org, "D9") == names;
    assert |names[0]| == 2 && |names[1]| == 7;
    DedupIdle(names);
  }

  lemma RawFromNames(org: Org, team: string, name: string, parent: Option<string>, company: Option<string>)
    requires DeptName(org, team) == name && ParentName(org, team) == parent && CompanyName(org, team) == company
    requires parent.Some? ==> parent.value != ""
    requires company.Some? ==> company.value != ""
    ensures RawCandidates(org, team) ==
            [name] +
            (if parent.Some? && parent != company then [parent.value + SEP + name] else []) +
            (if company.None? then []
             else if parent.Some? && parent != company then [company.value + SEP + parent.value + SEP + name]
             else [company.value + SEP + name]) +
            [name + " (" + team + ")"]
  {}

  predicate EndsIn(text: string, part: string) {
    |part| <= |text| && text[|text| - |part|..] == part
  }

  /** Before the last resort, each further candidate only puts more of the organisation in front. */
  lemma CandidatesGrowInFront(org: Org, team: string, i: nat, j: nat)
    requires i <= j < |RawCandidates(org, team)| - 1
    ensures var raw := RawCandidates(org, team);
            EndsIn(raw[j], raw[i]) && EndsIn(raw[i], DeptName(org, team)) && (i < j ==> raw[i] != raw[j])
  {
    hide DeptName, ParentName, CompanyName;
    var name, parent, company := DeptName(org, team), ParentName(org, team), CompanyName(org, team);
    if Truthy(parent) {
      assert parent.value + SEP + name == (parent.value + SEP) + name;
      if Truthy(company) {
        var long := company.value + SEP + parent.value + SEP + name;
        assert long == (company.value + SEP) + (parent.value + SEP + name);
        assert long == (company.value + SEP + parent.value + SEP) + name;
      }
    }
    if Truthy(company) { assert company.value + SEP + name == (company.value + SEP) + name; }
  }

  // ---------------------------------------------------------------- one pass of naming

  /** Position of the first candidate that is free; the number of candidates when none is. */
  function FirstFree(candidates: seq<string>, others: set<string>): (k: nat)
    ensures k <= |candidates| && (k < |candidates| ==> candidates[k] !in others)
    ensures forall j :: 0 <= j < k ==> candidates[j] in others
    decreases |candidates|
  {
    if candidates == [] || candidates[0] !in others then 0
    else
      var k := FirstFree(candidates[1..], others);
      assert forall j :: 1 <= j < k + 1 ==> candidates[j] == candidates[1..][j - 1];
      k + 1
  }

  function Chosen(org: Org, team: string, others: set<string>): string {
    var candidates := Candidates(org, team);
    var k := FirstFree(candidates, others);
    if k < |candidates| then candidates[k] else Fallback(org, team)
  }

  /** The first name that is free. */
  function First(names: seq<string>, others: set<string>): Option<string> {
    if names == [] then None
    else if names[0] !in others then Some(names[0])
    else First(names[1..], others)
  }

  lemma {:induction false} FirstCat(a: seq<string>, b: seq<string>, others: set<string>)
    ensures First(a + b, others) == if First(a, others).Some? then First(a, others) else First(b, others)
    ensures First(a, others).None? <==> forall name :: name in a ==> name in others
    decreases |a|
  {
    if a == [] {
      assert a + b == b;
    } else {
      assert (a + b)[0] == a[0] && (a + b)[1..] == a[1..] + b;
      FirstCat(a[1..], b, others);
    }
  }

  /** Dropping repeated candidates does not change which one is picked. */
  lemma {:induction false} FirstOfDedup(names: seq<string>, others: set<string>)
    ensures First(Dedup(names), others) == First(names, others)
    decreases |names|
  {
    if names != [] {
      var front, last := names[..|names| - 1], names[|names| - 1];
      assert names == front + [last] && [last][1..] == [] && Dedup(front) + [] == Dedup(front);
      FirstOfDedup(front, others);
      FirstCat(front, [last], others);
      FirstCat(Dedup(front), [last], others);
    }
  }

  lemma {:induction false} FirstIsFirstFree(candidates: seq<string>, others: set<string>)
    ensures var k := FirstFree(candidates, others);
            First(candidates, others) == if k < |candidates| then Some(candidates[k]) else None
    decreases |candidates|
  {
    if candidates != [] && candidates[0] in others {
      FirstIsFirstFree(candidates[1..], others);
    }
  }

  /**
   * The level of distinction a team ends with: its plain name if that is free; else with a parent department that
   * is not the company itself; else with the company in front; else with its id, taken or not.
   */
  lemma ChosenByLevel(org: Org, team: string, others: set<string>)
    ensures var name, parent, company := DeptName(org, team), ParentName(org, team), CompanyName(org, team);
            var nested := Truthy(parent) && parent != company;
            var placed := if nested then parent.value + SEP + name else name;
            Chosen(org, team, others) ==
              if name !in others then name
              else if nested && placed !in others then placed
              else if Truthy(company) && company.value + SEP + placed !in others then company.value + SEP + placed
              else Fallback(org, team)
  {
    hide DeptName, ParentName, CompanyName, Dedup, Fallback;
    var raw := RawCandidates(org, team);
    FirstIsFirstFree(Candidates(org, team), others);
    FirstOfDedup(raw, others);
    FirstOfFour(raw, others);
    var name, parent, company := DeptName(org, team), ParentName(org, team), CompanyName(org, team);
    if Truthy(parent) && Truthy(company) {
      assert company.value + SEP + (parent.value + SEP + name) == company.value + SEP + parent.value + SEP + name;
    }
  }

  lemma FirstOfFour(names: seq<string>, others: set<string>)
    requires 2 <= |names| <= 4
    ensures First(names, others) ==
            if names[0] !in others then Some(names[0])
            else if names[1] !in others then Some(names[1])
            else if |names| > 2 && names[2] !in others then Some(names[2])
            else if |names| > 3 && names[3] !in others then Some(names[3])
            else None
  {
    var one := names[1..];
    var two := one[1..];
    assert First(names, others) == if names[0] !in others then Some(names[0]) else First(one, others);
    assert First(one, others) == if one[0] !in others then Some(one[0]) else First(two, others);
    if |names| > 2 {
      var three := two[1..];
      assert First(two, others) == if two[0] !in others then Some(two[0]) else First(three, others);
      if |names| > 3 { assert three[1..] == []; }
    }
  }

  /** `by_source`: the last row with this department as its source; an empty source counts as none. */
  function OwnIndex(groups: seq<Group>, team: string): (own: Option<nat>)
    ensures own.Some? ==> own.value < |groups| && groups[own.value].source == Some(team)
  {
    if groups == [] || team == "" then None
    else
      var n := |groups| - 1;
      if groups[n].source == Some(team) then Some(n) else OwnIndex(groups[..n], team)
  }

  /** The very group a team owns: the last one of its department, if there is any. */
  lemma {:induction false} OwnIsLast(groups: seq<Group>, team: string)
    ensures match OwnIndex(groups, team)
            case Some(i) =>
              team != "" && i < |groups| && groups[i].source == Some(team)
              && forall j :: i < j < |groups| ==> groups[j].source != Some(team)
            case None => team == "" || forall j :: 0 <= j < |groups| ==> groups[j].source != Some(team)
    decreases |groups|
  {
    if groups != [] && team != "" {
      OwnIsLast(groups[..|groups| - 1], team);
    }
  }

  datatype Naming = Naming(groups: seq<Group>, taken: set<string>, nextId: int)

  /** `available`: the names held by other groups. */
  function Others(s: Naming, own: Option<nat>): set<string>
    requires own.Some? ==> own.value < |s.groups|
  {
    s.taken - if own.Some? then {s.groups[own.value].name} else {}
  }

  /** One iteration of the team loop, as far as groups and names go. */
  function NameTeam(org: Org, s: Naming, own: Option<nat>, team: string): Naming
    requires own.Some? ==> own.value < |s.groups|
  {
    var others := Others(s, own);
    var chosen := Chosen(org, team, others);
    match own
    case Some(i) => Naming(s.groups[i := s.groups[i].(name := chosen)], others + {chosen}, s.nextId)
    case None => Naming(s.groups + [Group(s.nextId, chosen, Some(team))], others + {chosen}, s.nextId + 1)
  }

  /** The loop over `teams`; own groups are looked up in the rows loaded before it. */
  function NameTeams(org: Org, s0: Naming, teams: seq<string>): (s: Naming)
    ensures |s0.groups| <= |s.groups| && s0.nextId <= s.nextId
  {
    if teams == [] then s0
    else
      var n := |teams| - 1;
      NameTeam(org, NameTeams(org, s0, teams[..n]), OwnIndex(s0.groups, teams[n]), teams[n])
  }

  function NamesOf(groups: seq<Group>): set<string> {
    set g | g in groups :: g.name
  }

  function Loaded(groups: seq<Group>, nextId: int): Naming {
    Naming(groups, NamesOf(groups), nextId)
  }

  ghost predicate Distinct<T>(s: seq<T>) {
    forall i, j :: 0 <= i < j < |s| ==> s[i] != s[j]
  }

  // ---------------------------------------------------------------- frame

  ghost predicate Owned(groups: seq<Group>, teams: seq<string>, i: nat) {
    exists t :: t in teams && OwnIndex(groups, t) == Some(i)
  }

  /** Same ids and sources in the same places, and the same rows wherever `kept` holds. */
  ghost predicate Renamed(before: seq<Group>, after: seq<Group>, kept: nat -> bool) {
    |before| <= |after| &&
    forall i: nat :: i < |before| ==>
      after[i].id == before[i].id && after[i].source == before[i].source && (kept(i) ==> after[i] == before[i])
  }

  /** The rows a pass has appended: new groups of teams that had none, under fresh ids. */
  ghost predicate Appended(s0: Naming, s: Naming, teams: seq<string>) {
    forall i :: |s0.groups| <= i < |s.groups| ==>
      s.groups[i].source.Some? && s.groups[i].source.value in teams
      && OwnIndex(s0.groups, s.groups[i].source.value).None? && s0.nextId <= s.groups[i].id < s.nextId
  }

  lemma NameTeamFrame(org: Org, s: Naming, own: Option<nat>, team: string)
    requires own.Some? ==> own.value < |s.groups|
    ensures var after := NameTeam(org, s, own, team);
            Renamed(s.groups, after.groups, (i: nat) => own != Some(i)) &&
            if own.Some? then |after.groups| == |s.groups| && after.nextId == s.nextId
            else
              && |after.groups| == |s.groups| + 1 && after.nextId == s.nextId + 1
              && after.groups[|s.groups|].id == s.nextId && after.groups[|s.groups|].source == Some(team)
  {
    hide Chosen;
  }

  /** Only the own groups of the teams are renamed; other rows, and all ids and sources, stay. */
  lemma {:induction false} NamingFrame(org: Org, s0: Naming, teams: seq<string>)
    ensures var s := NameTeams(org, s0, teams);
            Renamed(s0.groups, s.groups, (i: nat) => !Owned(s0.groups, teams, i)) && Appended(s0, s, teams)
    decreases |teams|
  {
    hide NameTeam, OwnIndex;
    if teams != [] {
      var n := |teams| - 1;
      var before, t := NameTeams(org, s0, teams[..n]), teams[n];
      var own := OwnIndex(s0.groups, t);
      NamingFrame(org, s0, teams[..n]);
      NameTeamFrame(org, before, own, t);
      assert forall x :: x in teams <==> x in teams[..n] || x == t;
      forall i: nat | i < |s0.groups| && !Owned(s0.groups, teams, i)
        ensures own != Some(i) && !Owned(s0.groups, teams[..n], i)
      {}
      var after := NameTeam(org, before, own, t);
      if own.Some? {
        assert forall i :: |s0.groups| <= i < |after.groups| ==> after.groups[i] == before.groups[i];
      } else {
        assert forall i :: |s0.groups| <= i < |before.groups| ==> after.groups[i] == before.groups[i];
      }
    }
  }

  lemma NotOwned(groups: seq<Group>, teams: seq<string>, k: nat)
    requires k < |teams| && Distinct(teams) && OwnIndex(groups, teams[k]).Some?
    ensures !Owned(groups, teams[..k], OwnIndex(groups, teams[k]).value)
  {
    hide OwnIndex;
  }

  // ---------------------------------------------------------------- names stay distinct

  /** The unique constraint on the names of user_groups. */
  predicate DistinctNames(groups: seq<Group>) {
    forall i, j :: 0 <= i < j < |groups| ==> groups[i].name != groups[j].name
  }

  /** Every candidate of the team is held by some other group. */
  predicate Crowded(org: Org, s: Naming, own: Option<nat>, team: string)
    requires own.Some? ==> own.value < |s.groups|
  {
    forall c :: c in Candidates(org, team) ==> c in Others(s, own)
  }

  lemma ChosenIsCandidate(org: Org, team: string, others: set<string>)
    ensures Chosen(org, team, others) in Candidates(org, team)
    ensures Chosen(org, team, others) in others <==> forall c :: c in Candidates(org, team) ==> c in others
  {
    hide Candidates, Fallback;
    CandidatesEndInFallback(org, team);
  }

  /** One iteration keeps the names distinct exactly when some candidate is free. */
  lemma NamingStepDistinct(org: Org, s: Naming, own: Option<nat>, team: string)
    requires own.Some? ==> own.value < |s.groups|
    requires s.taken == NamesOf(s.groups) && DistinctNames(s.groups)
    ensures var s' := NameTeam(org, s, own, team);
            (DistinctNames(s'.groups) <==> !Crowded(org, s, own, team)) && s'.taken == NamesOf(s'.groups)
  {
    hide Chosen, Candidates;
    var others := Others(s, own);
    var chosen := Chosen(org, team, others);
    ChosenIsCandidate(org, team, others);
    var s' := NameTeam(org, s, own, team);
    var at := if own.Some? then own.value else |s.groups|;
    assert forall name :: name in others <==> exists i :: 0 <= i < |s.groups| && i != at && s.groups[i].name == name;
    assert forall i :: 0 <= i < |s'.groups| && i != at ==> s'.groups[i] == s.groups[i];
    assert s'.groups[at].name == chosen;
    if chosen in others {
      var i :| 0 <= i < |s.groups| && i != at && s.groups[i].name == chosen;
      assert s'.groups[i].name == s'.groups[at].name;
    }
    forall name ensures name in s'.taken <==> name in NamesOf(s'.groups) {
      if name in others {
        var i :| 0 <= i < |s.groups| && i != at && s.groups[i].name == name;
        assert s'.groups[i] in s'.groups;
      }
      if name == chosen { assert s'.groups[at] in s'.groups; }
    }
  }

  ghost predicate CrowdedAt(org: Org, s0: Naming, teams: seq<string>, k: nat)
    requires k < |teams|
  {
    Crowded(org, NameTeams(org, s0, teams[..k]), OwnIndex(s0.groups, teams[k]), teams[k])
  }

  lemma PassUnrolls(org: Org, s0: Naming, teams: seq<string>, k: nat)
    requires k < |teams|
    ensures NameTeams(org, s0, teams[..k + 1])
            == NameTeam(org, NameTeams(org, s0, teams[..k]), OwnIndex(s0.groups, teams[k]), teams[k])
  {
    assert teams[..k + 1][..k] == teams[..k];
  }

  lemma {:induction false} DistinctWhileUncrowded(org: Org, s0: Naming, teams: seq<string>, n: nat)
    requires n <= |teams| && s0.taken == NamesOf(s0.groups) && DistinctNames(s0.groups)
    requires forall k :: 0 <= k < n ==> !CrowdedAt(org, s0, teams, k)
    ensures var s := NameTeams(org, s0, teams[..n]); DistinctNames(s.groups) && s.taken == NamesOf(s.groups)
    decreases n
  {
    hide DistinctNames, NamesOf, Crowded, NameTeam, OwnIndex;
    if n > 0 {
      DistinctWhileUncrowded(org, s0, teams, n - 1);
      PassUnrolls(org, s0, teams, n - 1);
      assert !CrowdedAt(org, s0, teams, n - 1);
      NamingStepDistinct(org, NameTeams(org, s0, teams[..n - 1]), OwnIndex(s0.groups, teams[n - 1]), teams[n - 1]);
    }
  }

  /** Group names are pairwise distinct after every iteration if and only if no team meets all its candidates taken. */
  lemma NamesStayDistinct(org: Org, groups: seq<Group>, nextId: int, teams: seq<string>)
    requires DistinctNames(groups)
    ensures var s0 := Loaded(groups, nextId);
            (forall n :: 0 <= n <= |teams| ==> DistinctNames(NameTeams(org, s0, teams[..n]).groups)) <==>
            (forall k :: 0 <= k < |teams| ==> !CrowdedAt(org, s0, teams, k))
  {
    hide DistinctNames, NamesOf, Crowded, NameTeam, OwnIndex;
    var s0 := Loaded(groups, nextId);
    if forall k :: 0 <= k < |teams| ==> !CrowdedAt(org, s0, teams, k) {
      forall n | 0 <= n <= |teams| ensures DistinctNames(NameTeams(org, s0, teams[..n]).groups) {
        DistinctWhileUncrowded(org, s0, teams, n);
      }
    } else {
      var k :| 0 <= k < |teams| && CrowdedAt(org, s0, teams, k);
      var first := FirstCrowded(org, s0, teams, k);
      DistinctWhileUncrowded(org, s0, teams, first);
      PassUnrolls(org, s0, teams, first);
      NamingStepDistinct(org, NameTeams(org, s0, teams[..first]), OwnIndex(s0.groups, teams[first]), teams[first]);
      assert !DistinctNames(NameTeams(org, s0, teams[..first + 1]).groups);
    }
  }

  lemma {:induction false} FirstCrowded(org: Org, s0: Naming, teams: seq<string>, k: nat) returns (first: nat)
    requires k < |teams| && CrowdedAt(org, s0, teams, k)
    ensures first <= k && CrowdedAt(org, s0, teams, first)
    ensures forall j :: 0 <= j < first ==> !CrowdedAt(org, s0, teams, j)
    decreases k
  {
    first := k;
    if j :| 0 <= j < k && CrowdedAt(org, s0, teams, j) {
      first := FirstCrowded(org, s0, teams, j);
    }
  }

  lemma DevCandidates(org: Org)
    requires org == Org(map["D1" := Dept(Some("Dev"), None, None)], map[])
    ensures forall c :: c in Candidates(org, "D1") <==> c == "Dev" || c == "Dev (D1)"
  {
    assert "Dev" + " (" + "D1" + ")" == "Dev (D1)";
    assert RawCandidates(org, "D1") == ["Dev", "Dev (D1)"];
    DedupKeeps(RawCandidates(org, "D1"));
  }

  /** It does happen: two manual groups hold both names of the only team, and its row would repeat one of them. */
  lemma NamesCanCollide()
    ensures var org := Org(map["D1" := Dept(Some("Dev"), None, None)], map[]);
            var groups := [Group(1, "Dev", None), Group(2, "Dev (D1)", None)];
            DistinctNames(groups) && CrowdedAt(org, Loaded(groups, 3), ["D1"], 0)
            && !DistinctNames(NameTeams(org, Loaded(groups, 3), ["D1"]).groups)
  {
    hide Candidates, Chosen, NameTeam;
    var org := Org(map["D1" := Dept(Some("Dev"), None, None)], map[]);
    var groups := [Group(1, "Dev", None), Group(2, "Dev (D1)", None)];
    var s0 := Loaded(groups, 3);
    assert |"Dev"| != |"Dev (D1)"|;
    DevCandidates(org);
    assert OwnIndex(groups, "D1") == None;
    assert groups[0].name in s0.taken && groups[1].name in s0.taken;
    assert ["D1"][..0] == [];
    NamingStepDistinct(org, s0, None, "D1");
  }

  /** No foreign group holds a team's last-resort name, and no other team could ask for it. */
  ghost predicate FallbacksReserved(org: Org, groups: seq<Group>, teams: seq<string>) {
    && (forall k, i :: 0 <= k < |teams| && 0 <= i < |groups| && groups[i].name == Fallback(org, teams[k]) ==>
          OwnIndex(groups, teams[k]) == Some(i))
    && (forall j, k :: 0 <= j < |teams| && 0 <= k < |teams| && j != k ==>
          Fallback(org, teams[k]) !in Candidates(org, teams[j]))
  }

  lemma {:induction false} TakenComesFrom(org: Org, s0: Naming, teams: seq<string>, n: nat, name: string)
    requires n <= |teams| && name in NameTeams(org, s0, teams[..n]).taken
    ensures name in s0.taken || exists j :: 0 <= j < n && name in Candidates(org, teams[j])
    decreases n
  {
    hide Chosen, Candidates, OwnIndex;
    if n > 0 {
      PassUnrolls(org, s0, teams, n - 1);
      var s, own := NameTeams(org, s0, teams[..n - 1]), OwnIndex(s0.groups, teams[n - 1]);
      ChosenIsCandidate(org, teams[n - 1], Others(s, own));
      if name in s.taken { TakenComesFrom(org, s0, teams, n - 1, name); }
    }
  }

  /** What a caller can check on the rows loaded: reserved last resorts leave every team a free name. */
  lemma ReservedFallbacksSuffice(org: Org, groups: seq<Group>, nextId: int, teams: seq<string>, k: nat)
    requires Distinct(teams) && FallbacksReserved(org, groups, teams) && k < |teams|
    ensures !CrowdedAt(org, Loaded(groups, nextId), teams, k)
  {
    hide NameTeam, OwnIndex, Candidates, Fallback, Distinct;
    var s0 := Loaded(groups, nextId);
    var s, own, name := NameTeams(org, s0, teams[..k]), OwnIndex(groups, teams[k]), Fallback(org, teams[k]);
    CandidatesEndInFallback(org, teams[k]);
    if name in Others(s, own) {
      TakenComesFrom(org, s0, teams, k, name);
      assert name in s0.taken;
      var i :| 0 <= i < |groups| && groups[i].name == name;
      assert own == Some(i);
      NamingFrame(org, s0, teams[..k]);
      NotOwned(groups, teams, k);
      assert false;
    }
  }

  // ---------------------------------------------------------------- repeated syncs converge

  /** Every team has a group, and its name is one of the team's candidates. */
  ghost predicate Settled(org: Org, groups: seq<Group>, teams: seq<string>) {
    forall t :: t in teams ==>
      OwnIndex(groups, t).Some? && groups[OwnIndex(groups, t).value].name in Candidates(org, t)
  }

  /** Where a name stands among the candidates. */
  function Position(candidates: seq<string>, name: string): (k: nat)
    ensures k <= |candidates| && (name in candidates ==> k < |candidates| && candidates[k] == name)
    ensures forall j :: 0 <= j < k ==> candidates[j] != name
    decreases |candidates|
  {
    if candidates == [] || candidates[0] == name then 0 else 1 + Position(candidates[1..], name)
  }

  lemma OwnIndexIgnoresRename(groups: seq<Group>, i: nat, name: string, team: string)
    requires i < |groups|
    ensures OwnIndex(groups[i := groups[i].(name := name)], team) == OwnIndex(groups, team)
    decreases |groups|
  {
    var renamed := groups[i := groups[i].(name := name)];
    var n := |groups| - 1;
    if i < n {
      assert renamed[..n] == groups[..n][i := groups[..n][i].(name := name)];
      OwnIndexIgnoresRename(groups[..n], i, name, team);
    } else {
      assert renamed[..n] == groups[..n];
    }
  }

  lemma OwnIndexOfAppended(groups: seq<Group>, g: Group, team: string)
    ensures OwnIndex(groups + [g], team)
            == if team != "" && g.source == Some(team) then Some(|groups|) else OwnIndex(groups, team)
  {
    assert (groups + [g])[..|groups|] == groups;
  }

  /** After the pass has served a team, that team has a group, at the place it had before if it had one. */
  lemma {:induction false} OwnIndexAfter(org: Org, s0: Naming, teams: seq<string>, team: string)
    requires Distinct(teams)
    ensures var own := OwnIndex(NameTeams(org, s0, teams).groups, team);
            if OwnIndex(s0.groups, team).Some? || team !in teams then own == OwnIndex(s0.groups, team)
            else own.Some? <==> team != ""
    decreases |teams|
  {
    hide Chosen, OwnIndex;
    if teams != [] {
      var n := |teams| - 1;
      var before, t := NameTeams(org, s0, teams[..n]), teams[n];
      assert teams == teams[..n] + [t];
      OwnIndexAfter(org, s0, teams[..n], team);
      var own := OwnIndex(s0.groups, t);
      var chosen := Chosen(org, t, Others(before, own));
      if own.Some? {
        OwnIndexIgnoresRename(before.groups, own.value, chosen, team);
      } else {
        OwnIndexOfAppended(before.groups, Group(before.nextId, chosen, Some(t)), team);
        OwnIndexOfEmpty(before.groups);
      }
    }
  }

  lemma OwnIndexOfEmpty(groups: seq<Group>)
    ensures OwnIndex(groups, "") == None
  {}

  lemma SettledStep(org: Org, s: Naming, own: Option<nat>, team: string, served: seq<string>)
    requires own.Some? ==> own.value < |s.groups|
    requires own == OwnIndex(s.groups, team) && team != "" && team !in served
    requires Settled(org, s.groups, served)
    ensures Settled(org, NameTeam(org, s, own, team).groups, served + [team])
  {
    hide Candidates, Chosen, OwnIndex;
    var others := Others(s, own);
    var chosen := Chosen(org, team, others);
    ChosenIsCandidate(org, team, others);
    var after := NameTeam(org, s, own, team).groups;
    forall t | t in served + [team]
      ensures OwnIndex(after, t).Some? && after[OwnIndex(after, t).value].name in Candidates(org, t)
    {
      if own.Some? {
        OwnIndexIgnoresRename(s.groups, own.value, chosen, t);
      } else {
        OwnIndexOfAppended(s.groups, Group(s.nextId, chosen, Some(team)), t);
      }
      assert t == team || t in served;
    }
  }

  /** Whatever the groups were called before, the rows of a pass call every team's group by one of its candidates. */
  lemma {:induction false} SyncSettles(org: Org, s0: Naming, teams: seq<string>)
    requires Distinct(teams) && "" !in teams
    ensures Settled(org, NameTeams(org, s0, teams).groups, teams)
    decreases |teams|
  {
    hide Candidates, Chosen, OwnIndex, NameTeam, Settled;
    if teams != [] {
      var n := |teams| - 1;
      assert teams == teams[..n] + [teams[n]];
      SyncSettles(org, s0, teams[..n]);
      OwnIndexAfter(org, s0, teams[..n], teams[n]);
      assert teams[n] !in teams[..n];
      SettledStep(org, NameTeams(org, s0, teams[..n]), OwnIndex(s0.groups, teams[n]), teams[n], teams[..n]);
    } else {
      assert Settled(org, s0.groups, []) by { NothingToSettle(org, s0.groups); }
    }
  }

  lemma NothingToSettle(org: Org, groups: seq<Group>)
    ensures Settled(org, groups, [])
  {}

  /** A further applied sync with the organisation unchanged, as far as the group rows go. */
  function Resync(org: Org, groups: seq<Group>, teams: seq<string>): seq<Group> {
    NameTeams(org, Loaded(groups, 0), teams).groups
  }

  /** A team's own name is free to itself, so a new one stands strictly earlier among the candidates. */
  lemma ChosenStandsNoLater(org: Org, team: string, others: set<string>, name: string)
    requires name in Candidates(org, team) && name !in others
    ensures var chosen, candidates := Chosen(org, team, others), Candidates(org, team);
            chosen in candidates && Position(candidates, chosen) <= Position(candidates, name)
            && (chosen != name ==> Position(candidates, chosen) < Position(candidates, name))
  {
    hide Candidates;
    var candidates := Candidates(org, team);
    var k := FirstFree(candidates, others);
    CandidatesEndInFallback(org, team);
    assert k <= Position(candidates, name);
    assert Position(candidates, candidates[k]) == k;
  }

  ghost predicate NoLater(org: Org, groups: seq<Group>, groups': seq<Group>, team: string) {
    var own, candidates := OwnIndex(groups, team), Candidates(org, team);
    own.Some? && OwnIndex(groups', team) == own && |groups'| == |groups| &&
    var before, after := groups[own.value].name, groups'[own.value].name;
    after in candidates && Position(candidates, after) <= Position(candidates, before)
    && (after != before ==> Position(candidates, after) < Position(candidates, before))
  }

  /** When its turn comes, a team still finds its group as it was loaded. */
  lemma OwnRowWaits(org: Org, groups: seq<Group>, nextId: int, teams: seq<string>, n: nat)
    requires n < |teams| && Distinct(teams) && OwnIndex(groups, teams[n]).Some?
    ensures var s, own := NameTeams(org, Loaded(groups, nextId), teams[..n]), OwnIndex(groups, teams[n]);
            |groups| <= |s.groups| && s.groups[own.value] == groups[own.value] && OwnIndex(s.groups, teams[n]) == own
  {
    hide OwnIndex, NamesOf, NameTeams;
    NamingFrame(org, Loaded(groups, nextId), teams[..n]);
    NotOwned(groups, teams, n);
    OwnIndexAfter(org, Loaded(groups, nextId), teams[..n], teams[n]);
  }

  /** A team that already bears one of its candidates can keep it, so no later sync finds it crowded. */
  lemma SettledIsNeverCrowded(org: Org, groups: seq<Group>, nextId: int, teams: seq<string>, k: nat)
    requires k < |teams| && Distinct(teams) && Settled(org, groups, teams)
    ensures !CrowdedAt(org, Loaded(groups, nextId), teams, k)
  {
    hide OwnIndex, NamesOf, NameTeams, Candidates;
    assert teams[k] in teams;
    OwnRowWaits(org, groups, nextId, teams, k);
    assert groups[OwnIndex(groups, teams[k]).value].name in Candidates(org, teams[k]);
  }

  /** The state of a repeated pass after a prefix of the teams. */
  lemma {:induction false} ResyncPrefix(org: Org, groups: seq<Group>, teams: seq<string>, n: nat)
    requires n <= |teams| && Distinct(teams) && Settled(org, groups, teams)
    ensures var s := NameTeams(org, Loaded(groups, 0), teams[..n]);
            |s.groups| == |groups| && forall k :: 0 <= k < n ==> NoLater(org, groups, s.groups, teams[k])
    decreases n
  {
    hide Candidates, OwnIndex, NoLater, NamesOf, NameTeam, NameTeams;
    if n == 0 {
      NothingNamed(org, Loaded(groups, 0), teams);
    } else {
      var s0, t := Loaded(groups, 0), teams[n - 1];
      var s, own := NameTeams(org, s0, teams[..n - 1]), OwnIndex(groups, t);
      ResyncPrefix(org, groups, teams, n - 1);
      PassUnrolls(org, s0, teams, n - 1);
      assert t in teams;
      OwnRowWaits(org, groups, 0, teams, n - 1);
      NameTeamFrame(org, s, own, t);
      forall k | 0 <= k < n
        ensures NoLater(org, groups, NameTeam(org, s, own, t).groups, teams[k])
      {
        NoLaterStep(org, groups, s, own.value, teams, n - 1, k);
      }
    }
  }

  lemma NothingNamed(org: Org, s0: Naming, teams: seq<string>)
    ensures NameTeams(org, s0, teams[..0]) == s0
  {}

  lemma NoLaterStep(org: Org, groups: seq<Group>, s: Naming, own: nat, teams: seq<string>, n: nat, k: nat)
    requires k <= n < |teams| && Distinct(teams) && |s.groups| == |groups|
    requires OwnIndex(groups, teams[n]) == Some(own)
    requires s.groups[own] == groups[own] && groups[own].name in Candidates(org, teams[n])
    requires k < n ==> NoLater(org, groups, s.groups, teams[k])
    requires OwnIndex(s.groups, teams[n]) == Some(own)
    ensures NoLater(org, groups, NameTeam(org, s, Some(own), teams[n]).groups, teams[k])
  {
    hide Chosen, Candidates, OwnIndex;
    var others := Others(s, Some(own));
    OwnIndexIgnoresRename(s.groups, own, Chosen(org, teams[n], others), teams[k]);
    ChosenStandsNoLater(org, teams[n], others, groups[own].name);
  }

  /**
   * A repeated sync creates nothing, and a team's group is renamed only to a name that stands strictly
   * earlier among its candidates; every other row, and every id and source, is unchanged.
   */
  lemma ResyncOnlyImproves(org: Org, groups: seq<Group>, teams: seq<string>)
    requires Distinct(teams) && Settled(org, groups, teams)
    ensures var after := Resync(org, groups, teams);
            |after| == |groups| && Settled(org, after, teams)
            && (forall t :: t in teams ==> NoLater(org, groups, after, t))
    ensures var after := Resync(org, groups, teams);
            |after| == |groups| && forall i :: 0 <= i < |groups| ==>
              after[i].id == groups[i].id && after[i].source == groups[i].source
              && (Owned(groups, teams, i) || after[i] == groups[i])
  {
    hide Candidates, OwnIndex, NameTeam, NamesOf;
    assert teams[..|teams|] == teams;
    ResyncPrefix(org, groups, teams, |teams|);
    NamingFrame(org, Loaded(groups, 0), teams);
    forall t | t in teams ensures NoLater(org, groups, Resync(org, groups, teams), t) {
      var k :| 0 <= k < |teams| && teams[k] == t;
    }
  }

  /** The sum of the positions of the team groups' names. */
  function Potential(org: Org, groups: seq<Group>, teams: seq<string>): nat
    requires Settled(org, groups, teams)
  {
    if teams == [] then 0
    else
      var n := |teams| - 1;
      var own := OwnIndex(groups, teams[n]);
      Potential(org, groups, teams[..n]) + Position(Candidates(org, teams[n]), groups[own.value].name)
  }

  /** How many of the teams' groups were renamed. */
  function Renames(groups: seq<Group>, after: seq<Group>, teams: seq<string>): nat
    requires |groups| == |after|
  {
    if teams == [] then 0
    else
      var n := |teams| - 1;
      var own := OwnIndex(groups, teams[n]);
      Renames(groups, after, teams[..n]) +
      if own.Some? && groups[own.value].name != after[own.value].name then 1 else 0
  }

  lemma {:induction false} RenamesPay(org: Org, groups: seq<Group>, after: seq<Group>, teams: seq<string>)
    requires |groups| == |after| && Settled(org, groups, teams) && Settled(org, after, teams)
    requires forall t :: t in teams ==> NoLater(org, groups, after, t)
    ensures Potential(org, after, teams) + Renames(groups, after, teams) <= Potential(org, groups, teams)
    decreases |teams|
  {
    hide Candidates, OwnIndex;
    if teams != [] {
      assert teams == teams[..|teams| - 1] + [teams[|teams| - 1]];
      RenamesPay(org, groups, after, teams[..|teams| - 1]);
      assert teams[|teams| - 1] in teams && NoLater(org, groups, after, teams[|teams| - 1]);
    }
  }

  lemma {:induction false} NoRenameNoChange(org: Org, groups: seq<Group>, after: seq<Group>, teams: seq<string>, i: nat)
    requires |groups| == |after| && Renames(groups, after, teams) == 0
    requires i < |groups| && Owned(groups, teams, i)
    ensures groups[i].name == after[i].name
    decreases |teams|
  {
    hide OwnIndex;
    var n := |teams| - 1;
    var t :| t in teams && OwnIndex(groups, t) == Some(i);
    if t != teams[n] {
      assert teams == teams[..n] + [teams[n]];
      NoRenameNoChange(org, groups, after, teams[..n], i);
    }
  }

  /** An order in which the teams can be served: the sort by name leaves teams of the same name in any order. */
  ghost predicate Serves(order: seq<string>, teams: seq<string>) {
    Distinct(order) && forall t :: t in order <==> t in teams
  }

  ghost predicate AllServe(orders: seq<seq<string>>, teams: seq<string>) {
    forall n :: 0 <= n < |orders| ==> Serves(orders[n], teams)
  }

  lemma SettledInAnyOrder(org: Org, groups: seq<Group>, teams: seq<string>, order: seq<string>)
    requires Serves(order, teams)
    ensures Settled(org, groups, order) <==> Settled(org, groups, teams)
  {}

  /** What a repeated sync does, in terms of one listing of the teams. */
  lemma ResyncInAnyOrder(org: Org, groups: seq<Group>, teams: seq<string>, order: seq<string>)
    requires Serves(order, teams) && Settled(org, groups, teams)
    ensures var after := Resync(org, groups, order);
            |after| == |groups| && Settled(org, after, teams)
            && (forall t :: t in teams ==> NoLater(org, groups, after, t))
            && forall i :: 0 <= i < |groups| ==>
              after[i].id == groups[i].id && after[i].source == groups[i].source
              && (Owned(groups, teams, i) || after[i] == groups[i])
  {
    hide Settled, NoLater, Resync, OwnIndex;
    SettledInAnyOrder(org, groups, teams, order);
    ResyncOnlyImproves(org, groups, order);
    SettledInAnyOrder(org, Resync(org, groups, order), teams, order);
  }

  /** The rows after further syncs, one for each order. */
  function Resyncs(org: Org, groups: seq<Group>, orders: seq<seq<string>>): seq<Group>
    decreases |orders|
  {
    if orders == [] then groups else Resyncs(org, Resync(org, groups, orders[0]), orders[1..])
  }

  /** The renames of further syncs, all together. */
  ghost function TotalRenames(org: Org, groups: seq<Group>, teams: seq<string>, orders: seq<seq<string>>): nat
    requires AllServe(orders, teams) && Settled(org, groups, teams)
    decreases |orders|
  {
    if orders == [] then 0
    else
      ResyncInAnyOrder(org, groups, teams, orders[0]);
      var after := Resync(org, groups, orders[0]);
      Renames(groups, after, teams) + TotalRenames(org, after, teams, orders[1..])
  }

  function Budget(org: Org, teams: seq<string>): nat {
    if teams == [] then 0
    else
      var n := |teams| - 1;
      CandidatesEndInFallback(org, teams[n]);
      Budget(org, teams[..n]) + |Candidates(org, teams[n])| - 1
  }

  lemma {:induction false} PotentialWithinBudget(org: Org, groups: seq<Group>, teams: seq<string>)
    requires Settled(org, groups, teams)
    ensures Potential(org, groups, teams) <= Budget(org, teams)
    decreases |teams|
  {
    hide Candidates, OwnIndex;
    if teams != [] {
      assert teams == teams[..|teams| - 1] + [teams[|teams| - 1]];
      PotentialWithinBudget(org, groups, teams[..|teams| - 1]);
    }
  }

  lemma {:induction false} TotalRenamesPay(org: Org, groups: seq<Group>, teams: seq<string>, orders: seq<seq<string>>)
    requires AllServe(orders, teams) && Settled(org, groups, teams)
    ensures TotalRenames(org, groups, teams, orders) <= Potential(org, groups, teams)
    decreases |orders|
  {
    hide Resync, Settled, Potential, Renames, Serves;
    if orders != [] {
      ResyncInAnyOrder(org, groups, teams, orders[0]);
      var after := Resync(org, groups, orders[0]);
      RenamesPay(org, groups, after, teams);
      TotalRenamesPay(org, after, teams, orders[1..]);
    }
  }

  /**
   * With the organisation unchanged, all renames from the second sync on are bounded by the candidate lists, in
   * whatever order each sync serves the teams.
   */
  lemma RenamesAreBounded(org: Org, groups: seq<Group>, teams: seq<string>, orders: seq<seq<string>>)
    requires AllServe(orders, teams) && Settled(org, groups, teams)
    ensures TotalRenames(org, groups, teams, orders) <= Budget(org, teams)
  {
    TotalRenamesPay(org, groups, teams, orders);
    PotentialWithinBudget(org, groups, teams);
  }

  /** No sync changes the rows, whatever the order. */
  ghost predicate Stable(org: Org, groups: seq<Group>, teams: seq<string>) {
    forall order :: Serves(order, teams) ==> Resync(org, groups, order) == groups
  }

  /** Every team would choose the name it has, all other groups keeping theirs. */
  ghost predicate Content(org: Org, groups: seq<Group>, team: string) {
    var own := OwnIndex(groups, team);
    own.Some? && Chosen(org, team, NamesOf(groups) - {groups[own.value].name}) == groups[own.value].name
  }

  lemma ContentStep(org: Org, groups: seq<Group>, team: string)
    requires OwnIndex(groups, team).Some?
    ensures var s := Loaded(groups, 0);
            Content(org, groups, team) <==> NameTeam(org, s, OwnIndex(groups, team), team) == s
  {
    hide OwnIndex, Chosen;
    var own := OwnIndex(groups, team).value;
    assert groups[own] in groups;
    assert groups[own := groups[own]] == groups;
    if Content(org, groups, team) {
      assert NamesOf(groups) - {groups[own].name} + {groups[own].name} == NamesOf(groups);
    }
  }

  /** If all teams are content, a pass changes nothing. */
  lemma {:induction false} ContentPass(org: Org, groups: seq<Group>, order: seq<string>, n: nat)
    requires n <= |order| && forall t :: t in order ==> Content(org, groups, t)
    ensures NameTeams(org, Loaded(groups, 0), order[..n]) == Loaded(groups, 0)
    decreases n
  {
    hide OwnIndex, Chosen, NamesOf, NameTeam, NameTeams;
    var s0 := Loaded(groups, 0);
    if n == 0 {
      NothingNamed(org, s0, order);
    } else {
      assert order[n - 1] in order && Content(org, groups, order[n - 1]);
      ContentPass(org, groups, order, n - 1);
      PassUnrolls(org, s0, order, n - 1);
      ContentStep(org, groups, order[n - 1]);
    }
  }

  /** A pass that ends where it began was there all the time: each row is written once at most. */
  lemma {:induction false} IdleThroughout(org: Org, groups: seq<Group>, order: seq<string>, n: nat)
    requires n <= |order| && Distinct(order) && Settled(org, groups, order)
    requires Resync(org, groups, order) == groups
    ensures NameTeams(org, Loaded(groups, 0), order[..n]).groups == groups
    decreases |order| - n
  {
    hide Chosen, NamesOf, OwnIndex, Candidates, NameTeams;
    if n == |order| {
      assert order[..n] == order;
    } else {
      IdleThroughout(org, groups, order, n + 1);
      PassUnrolls(org, Loaded(groups, 0), order, n);
      assert order[n] in order;
      OwnRowWaits(org, groups, 0, order, n);
      var s, own := NameTeams(org, Loaded(groups, 0), order[..n]), OwnIndex(groups, order[n]).value;
      forall i | 0 <= i < |groups| ensures s.groups[i] == groups[i] {
        assert i != own ==> NameTeam(org, s, Some(own), order[n]).groups[i] == s.groups[i];
      }
    }
  }

  /** If a pass changes nothing, all teams are content. */
  lemma {:induction false} IdleMeansContent(org: Org, groups: seq<Group>, order: seq<string>, n: nat)
    requires n <= |order| && Distinct(order) && Settled(org, groups, order)
    requires Resync(org, groups, order) == groups
    ensures NameTeams(org, Loaded(groups, 0), order[..n]) == Loaded(groups, 0)
    ensures forall k :: 0 <= k < n ==> Content(org, groups, order[k])
    decreases n
  {
    hide Chosen, NamesOf, OwnIndex, Candidates, NameTeams, Content, Resync;
    var s0 := Loaded(groups, 0);
    if n == 0 {
      NothingNamed(org, s0, order);
    } else {
      IdleMeansContent(org, groups, order, n - 1);
      IdleThroughout(org, groups, order, n);
      PassUnrolls(org, s0, order, n - 1);
      var team := order[n - 1];
      assert team in order;
      IdleStep(org, groups, team);
      ContentStep(org, groups, team);
    }
  }

  lemma IdleStep(org: Org, groups: seq<Group>, team: string)
    requires OwnIndex(groups, team).Some?
    requires NameTeam(org, Loaded(groups, 0), OwnIndex(groups, team), team).groups == groups
    ensures Content(org, groups, team)
  {
    hide Chosen, OwnIndex;
    var own := OwnIndex(groups, team).value;
    assert NameTeam(org, Loaded(groups, 0), Some(own), team).groups[own] == groups[own];
  }

  /** Rows that one sync leaves alone are left alone by every sync, in whatever order. */
  lemma IdleOnceIsStable(org: Org, groups: seq<Group>, teams: seq<string>, order: seq<string>)
    requires Serves(order, teams) && Settled(org, groups, teams) && Resync(org, groups, order) == groups
    ensures Stable(org, groups, teams)
  {
    hide Settled, Content, Resync;
    SettledInAnyOrder(org, groups, teams, order);
    IdleMeansContent(org, groups, order, |order|);
    forall other | Serves(other, teams) ensures Resync(org, groups, other) == groups {
      forall t | t in other ensures Content(org, groups, t) {
        var k :| 0 <= k < |order| && order[k] == t;
      }
      ContentPass(org, groups, other, |other|);
      assert other[..|other|] == other;
      ResyncOfAll(org, groups, other);
    }
  }

  lemma ResyncOfAll(org: Org, groups: seq<Group>, order: seq<string>)
    ensures Resync(org, groups, order) == NameTeams(org, Loaded(groups, 0), order).groups
  {}

  lemma ResyncsUnroll(org: Org, groups: seq<Group>, orders: seq<seq<string>>, n: nat)
    requires 0 < n <= |orders|
    ensures Resyncs(org, groups, orders[..n]) == Resyncs(org, Resync(org, groups, orders[0]), orders[1..][..n - 1])
  {
    assert orders[..n][1..] == orders[1..][..n - 1];
  }

  lemma {:induction false} ReachesFixpoint(org: Org, groups: seq<Group>, teams: seq<string>, orders: seq<seq<string>>)
    returns (n: nat)
    requires AllServe(orders, teams) && Settled(org, groups, teams) && Potential(org, groups, teams) < |orders|
    ensures n <= Potential(org, groups, teams)
    ensures Stable(org, Resyncs(org, groups, orders[..n]), teams)
    decreases |orders|
  {
    hide Candidates, OwnIndex, Resync, Settled, Stable, Potential, Serves;
    ResyncInAnyOrder(org, groups, teams, orders[0]);
    var after := Resync(org, groups, orders[0]);
    RenamesPay(org, groups, after, teams);
    if Renames(groups, after, teams) == 0 {
      forall i | 0 <= i < |groups| ensures after[i] == groups[i] {
        if Owned(groups, teams, i) { NoRenameNoChange(org, groups, after, teams, i); }
      }
      assert after == groups;
      IdleOnceIsStable(org, groups, teams, orders[0]);
      n := 0;
    } else {
      n := ReachesFixpoint(org, after, teams, orders[1..]);
      n := n + 1;
      ResyncsUnroll(org, groups, orders, n);
    }
  }

  /**
   * Repeated syncs, each in an order of its own, reach within the same bound a state that no further sync changes
   * in any order.
   */
  lemma SyncsConverge(org: Org, groups: seq<Group>, teams: seq<string>, orders: seq<seq<string>>)
    requires AllServe(orders, teams) && Settled(org, groups, teams) && Budget(org, teams) < |orders|
    ensures exists n: nat :: n <= Budget(org, teams) && Stable(org, Resyncs(org, groups, orders[..n]), teams)
  {
    hide Resync, Budget, Potential, Settled, Stable, AllServe;
    PotentialWithinBudget(org, groups, teams);
    var n := ReachesFixpoint(org, groups, teams, orders);
  }

  /** After one sync that went through, none with the same organisation can fail, in whatever order it serves. */
  lemma {:induction false} NoLaterSyncFails(org: Org, groups: seq<Group>, teams: seq<string>, orders: seq<seq<string>>)
    requires AllServe(orders, teams) && Settled(org, groups, teams) && DistinctNames(groups)
    ensures var after := Resyncs(org, groups, orders);
            Settled(org, after, teams) && DistinctNames(after) &&
            forall order, nextId, k :: Serves(order, teams) && 0 <= k < |order| ==>
              !CrowdedAt(org, Loaded(after, nextId), order, k)
    decreases |orders|
  {
    hide Settled, DistinctNames, Resync, Serves, Loaded, CrowdedAt;
    if orders != [] {
      ResyncInAnyOrder(org, groups, teams, orders[0]);
      ResyncKeepsDistinct(org, groups, teams, orders[0]);
      NoLaterSyncFails(org, Resync(org, groups, orders[0]), teams, orders[1..]);
    } else {
      forall order, nextId, k | Serves(order, teams) && 0 <= k < |order|
        ensures !CrowdedAt(org, Loaded(groups, nextId), order, k)
      {
        ServedIsNeverCrowded(org, groups, teams, nextId, order, k);
      }
    }
  }

  lemma ServedIsNeverCrowded(org: Org, groups: seq<Group>, teams: seq<string>, nextId: int, order: seq<string>, k: nat)
    requires Serves(order, teams) && Settled(org, groups, teams) && k < |order|
    ensures !CrowdedAt(org, Loaded(groups, nextId), order, k)
  {
    hide Settled, CrowdedAt;
    SettledInAnyOrder(org, groups, teams, order);
    SettledIsNeverCrowded(org, groups, nextId, order, k);
  }

  lemma ResyncKeepsDistinct(org: Org, groups: seq<Group>, teams: seq<string>, order: seq<string>)
    requires Serves(order, teams) && Settled(org, groups, teams) && DistinctNames(groups)
    ensures DistinctNames(Resync(org, groups, order))
  {
    hide Settled, DistinctNames, CrowdedAt, NamesOf, NameTeams;
    forall k | 0 <= k < |order| ensures !CrowdedAt(org, Loaded(groups, 0), order, k) {
      ServedIsNeverCrowded(org, groups, teams, 0, order, k);
    }
    NamesStayDistinct(org, groups, 0, order);
    assert order[..|order|] == order;
  }
}
