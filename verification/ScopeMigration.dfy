/**
 Report access by explicit grants (permission_service.py), and the migration that turns the dynamic folder
 scopes of groups into such grants (b1e9f4c6d802).
 */
module ScopeMigration {
  import opened Options
  import opened FolderForest
  import opened CompanyReports

  const VIEW := "VIEW"
  const SYSTEM_OPERATOR := "System_Operator"

  /** A row of report_permissions; the four columns are its unique key. */
  datatype Grant = Grant(report: int, subjectType: string, subject: int, permission: string)

  /** A group's claim on a folder and everything below it: group id, root folder id. */
  type Scope = (int, int)

  /** Who belongs to what: users' roles and codes of roles, users' departments, members of groups. */
  datatype Directory = Directory(
    userRoles: set<(int, int)>, roleCodes: map<int, string>, departments: map<int, Option<int>>,
        groupMembers: set<(int, int)>)

  // ---------------------------------------------------------------- access

  predicate IsOperator(d: Directory, user: int, hint: Option<seq<string>>) {
    (hint.Some? && SYSTEM_OPERATOR in hint.value) ||
    exists r :: r in d.userRoles && r.0 == user && r.1 in d.roleCodes && d.roleCodes[r.1] == SYSTEM_OPERATOR
  }

  /** The four-way subject test of the access query. */
  predicate Addresses(g: Grant, d: Directory, user: int) {
    || (g.subjectType == "user" && g.subject == user)
    || (g.subjectType == "role" && (user, g.subject) in d.userRoles)
    || (g.subjectType == "dept" && user in d.departments && d.departments[user] == Some(g.subject))
    || (g.subjectType == "group" && (g.subject, user) in d.groupMembers)
  }

  /** `accessible_report_ids` */
  function AccessibleReportIds(reports: seq<Report>, grants: set<Grant>,
      d: Directory, user: int, action: string, hint: Option<seq<string>>): set<int>
  {
    if IsOperator(d, user, hint) then set r | r in reports :: r.id
    else set g | g in grants && g.permission == action && Addresses(g, d, user) :: g.report
  }

  /** Operators, by the code of one of their roles. */
  lemma OperatorsByRole(d: Directory, user: int, hint: Option<seq<string>>)
    ensures IsOperator(d, user, hint) <==>
            (hint.Some? && "System_Operator" in hint.value) ||
            exists role :: (user, role) in d.userRoles && role in d.roleCodes && d.roleCodes[role] == "System_Operator"
  {
    if r :| r in d.userRoles && r.0 == user && r.1 in d.roleCodes && d.roleCodes[r.1] == SYSTEM_OPERATOR {
      var role := r.1;
      assert r == (user, role);
      assert (user, role) in d.userRoles && role in d.roleCodes && d.roleCodes[role] == "System_Operator";
    }
    if role :| (user, role) in d.userRoles && role in d.roleCodes && d.roleCodes[role] == "System_Operator" {
      var r := (user, role);
      assert r in d.userRoles && r.0 == user && r.1 in d.roleCodes && d.roleCodes[r.1] == SYSTEM_OPERATOR;
    }
  }

  /** Whose grants count: the user's own, those of their roles, of their department, and of their groups. */
  lemma AccessIsUnionOfFour(reports: seq<Report>, grants: set<Grant>,
      d: Directory, user: int, action: string, hint: Option<seq<string>>)
    ensures var ids := AccessibleReportIds(reports, grants, d, user, action, hint);
            if IsOperator(d, user, hint) then forall id :: id in ids <==> exists r :: r in reports && r.id == id
            else forall id :: id in ids <==>
                   Grant(id, "user", user, action) in grants
                   || (exists role :: (user, role) in d.userRoles && Grant(id, "role", role, action) in grants)
                   || (exists dept :: user in d.departments && d.departments[user] == Some(dept)
                                      && Grant(id, "dept", dept, action) in grants)
                   || (exists group :: (group, user) in d.groupMembers && Grant(id, "group", group, action) in grants)
  {
    hide IsOperator;
    if !IsOperator(d, user, hint) {
      forall id ensures id in AccessibleReportIds(reports, grants, d, user, action, hint) <==>
                        exists g :: g in grants && g.permission == action && Addresses(g, d, user) && g.report == id
      {}
      forall g | g in grants ensures g == Grant(g.report, g.subjectType, g.subject, g.permission) {}
      forall id, kind: string, subject: int
        | Grant(id, kind, subject, action) in grants && Addresses(Grant(id, kind, subject, action), d, user)
        ensures id in AccessibleReportIds(reports, grants, d, user, action, hint)
      {}
    }
  }

  /** A report lies below a folder that one of the user's groups is scoped to. */
  ghost predicate InScope(r: Report, parents: Parents, scopes: set<Scope>, d: Directory, user: int) {
    r.folder.Some? && exists s :: s in scopes && (s.0, user) in d.groupMembers && Above(parents, s.1, r.folder.value)
  }

  /** Access while scopes exist: explicit grants, and VIEW on every report below a scoped folder. */
  ghost function AccessWithScopes(reports: seq<Report>, parents: Parents, grants: set<Grant>,
      scopes: set<Scope>, d: Directory, user: int, action: string, hint: Option<seq<string>>): set<int>
  {
    AccessibleReportIds(reports, grants, d, user, action, hint) +
    if action == VIEW then set r | r in reports && InScope(r, parents, scopes, d, user) :: r.id else {}
  }

  // ---------------------------------------------------------------- the migration

  /** The recursive query's answer: each scoped group with every folder at or below its roots. */
  ghost predicate IsScopeClosure(parents: Parents, scopes: set<Scope>, closure: set<Scope>) {
    forall g, f :: (g, f) in closure <==> f in parents && exists root :: (g, root) in scopes && Above(parents, root, f)
  }

  /** The grants the INSERT adds. */
  function Materialized(reports: seq<Report>, closure: set<Scope>): set<Grant> {
    set r, s | r in reports && s in closure && r.folder == Some(s.1) :: Grant(r.id, "group", s.0, VIEW)
  }

  /** The inserted grants let the groups of the closure view the reports of their folders, and nothing else. */
  lemma MaterializedIs(reports: seq<Report>, closure: set<Scope>, g: Grant)
    ensures g in Materialized(reports, closure) <==>
            exists r, folder :: r in reports && r.folder == Some(folder) && (g.subject, folder) in closure
                                && g == Grant(r.id, "group", g.subject, "VIEW")
  {
    if r, s :| r in reports && s in closure && r.folder == Some(s.1) && g == Grant(r.id, "group", s.0, VIEW) {
      var folder := s.1;
      assert s == (g.subject, folder) && r.folder == Some(folder);
    }
    if r, folder :| r in reports && r.folder == Some(folder) && (g.subject, folder) in closure
                    && g == Grant(r.id, "group", g.subject, "VIEW") {
      var s := (g.subject, folder);
      assert s in closure && r.folder == Some(s.1) && Grant(r.id, "group", s.0, VIEW) == g;
    }
  }

  /** The groups of `s` with the folders directly below: one round of the recursive term. */
  function OneLevelDown(parents: Parents, s: set<Scope>): set<Scope> {
    set f, p | f in parents.Keys && p in s && parents[f] == Some(p.1) :: (p.0, f)
  }

  /** A pair the recursive query may produce. */
  ghost predicate Justified(parents: Parents, scopes: set<Scope>, s: Scope) {
    s.1 in parents && exists root :: (s.0, root) in scopes && Above(parents, root, s.1)
  }

  ghost function Universe(parents: Parents, scopes: set<Scope>): set<Scope> {
    set s, f | s in scopes && f in parents.Keys :: (s.0, f)
  }

  lemma ScopesAreJustified(parents: Parents, scopes: set<Scope>, s: Scope)
    requires s in scopes && s.1 in parents
    ensures Justified(parents, scopes, s) && s in Universe(parents, scopes)
  {
    AboveSelf(parents, s.1);
    assert (s.0, s.1) in scopes;
  }

  lemma RoundIsJustified(parents: Parents, scopes: set<Scope>, working: set<Scope>, s: Scope)
    requires forall p :: p in working ==> Justified(parents, scopes, p)
    requires s in OneLevelDown(parents, working)
    ensures Justified(parents, scopes, s) && s in Universe(parents, scopes)
  {
    hide Above;
    var p :| p in working && parents[s.1] == Some(p.1) && s.0 == p.0;
    var root :| (p.0, root) in scopes && Above(parents, root, p.1);
    AboveParent(parents, root, s.1);
    assert ((p.0, root).0, s.1) in Universe(parents, scopes);
  }

  /** `WITH RECURSIVE scoped_folders`: rounds over a working table until a round adds nothing. */
  method ScopedFolders(parents: Parents, scopes: set<Scope>) returns (closure: set<Scope>)
    requires forall s :: s in scopes ==> s.1 in parents
    ensures IsScopeClosure(parents, scopes, closure)
  {
    hide Above, Justified, Universe, OneLevelDown;
    closure := scopes;
    var working := scopes;
    forall s | s in scopes ensures Justified(parents, scopes, s) && s in Universe(parents, scopes) {
      ScopesAreJustified(parents, scopes, s);
    }
    assert closure - working == {};
    assert OneLevelDown(parents, {}) == {} by { NothingBelowNothing(parents); }
    while working != {}
      invariant scopes <= closure && working <= closure <= Universe(parents, scopes)
      invariant forall s :: s in closure ==> Justified(parents, scopes, s)
      invariant OneLevelDown(parents, closure - working) <= closure
      decreases |Universe(parents, scopes) - closure|, |working|
    {
      var next := OneLevelDown(parents, working) - closure;
      forall s | s in next ensures Justified(parents, scopes, s) && s in Universe(parents, scopes) {
        RoundIsJustified(parents, scopes, working, s);
      }
      RoundCloses(parents, closure, working, next);
      Grows(Universe(parents, scopes), closure, next);
      closure, working := closure + next, next;
    }
    assert closure - {} == closure;
    ClosureIsExact(parents, scopes, closure);
  }

  lemma NothingBelowNothing(parents: Parents)
    ensures OneLevelDown(parents, {}) == {}
  {}

  lemma ClosureIsExact(parents: Parents, scopes: set<Scope>, closure: set<Scope>)
    requires scopes <= closure && OneLevelDown(parents, closure) <= closure
    requires forall s :: s in closure ==> Justified(parents, scopes, s)
    ensures IsScopeClosure(parents, scopes, closure)
  {
    hide Above;
    forall g, f
      ensures (g, f) in closure <==> f in parents && exists root :: (g, root) in scopes && Above(parents, root, f)
    {
      if f in parents && exists root :: (g, root) in scopes && Above(parents, root, f) {
        var root :| (g, root) in scopes && Above(parents, root, f);
        ClosureReaches(parents, closure, g, root, f);
      }
    }
  }

  lemma RoundCloses(parents: Parents, closure: set<Scope>, working: set<Scope>, next: set<Scope>)
    requires working <= closure && OneLevelDown(parents, closure - working) <= closure
    requires next == OneLevelDown(parents, working) - closure
    ensures OneLevelDown(parents, (closure + next) - next) <= closure + next
  {
    forall x | x in OneLevelDown(parents, (closure + next) - next) ensures x in closure + next {
      var p :| p in (closure + next) - next && parents[x.1] == Some(p.1) && x.0 == p.0;
      if p in working {
        assert x in OneLevelDown(parents, working);
      } else {
        assert x in OneLevelDown(parents, closure - working);
      }
    }
  }

  lemma Grows(universe: set<Scope>, closure: set<Scope>, next: set<Scope>)
    requires next <= universe && next !! closure && closure <= universe
    ensures |universe - (closure + next)| == |universe - closure| - |next|
  {
    assert universe - closure == (universe - (closure + next)) + next;
  }

  lemma ClosureReaches(parents: Parents, closure: set<Scope>, g: int, root: int, f: int)
    requires (g, root) in closure && OneLevelDown(parents, closure) <= closure
    requires Above(parents, root, f)
    ensures (g, f) in closure
  {
    var n: nat :| Up(parents, f, n) == Some(root);
    ClosureReachesWithin(parents, closure, g, root, f, n);
  }

  lemma {:induction false} ClosureReachesWithin(parents: Parents,
      closure: set<Scope>, g: int, root: int, f: int, n: nat)
    requires (g, root) in closure && OneLevelDown(parents, closure) <= closure
    requires Up(parents, f, n) == Some(root)
    ensures (g, f) in closure
    decreases n
  {
    if n > 0 {
      ClosureReachesWithin(parents, closure, g, root, parents[f].value, n - 1);
      assert (g, f) in OneLevelDown(parents, closure);
    }
  }

  /** The tables the migration touches. */
  class Database {
    const reports: seq<Report>
    const parents: Parents
    var grants: set<Grant>
    var scopes: set<Scope>

    constructor (reports: seq<Report>, parents: Parents, grants: set<Grant>, scopes: set<Scope>)
      ensures this.reports == reports && this.parents == parents && this.grants == grants && this.scopes == scopes
    {
      this.reports, this.parents, this.grants, this.scopes := reports, parents, grants, scopes;
    }

    /** `upgrade`: expand the scopes, insert the grants that are not there yet, drop the scope table. */
    method Upgrade()
      requires Filed(reports, parents) && forall s :: s in scopes ==> s.1 in parents
      modifies this
      ensures scopes == {}
      ensures exists closure ::
                IsScopeClosure(parents, old(scopes), closure) && grants == old(grants) + Materialized(reports, closure)
      ensures forall d, user, action, hint ::
                AccessWithScopes(reports, parents, grants, scopes, d, user, action, hint)
                == AccessWithScopes(reports, parents, old(grants), old(scopes), d, user, action, hint)
    {
      ghost var before, granted := scopes, grants;
      var closure := ScopedFolders(parents, scopes);
      grants := grants + Materialized(reports, closure);
      scopes := {};
      forall d, user, action, hint {
        AccessIsPreserved(reports, parents, granted, before, closure, d, user, action, hint);
      }
    }

    /** `downgrade`: the scope table comes back empty, the grants stay. */
    method Downgrade()
      requires scopes == {}
      modifies this
      ensures scopes == {} && grants == old(grants)
      ensures forall d, user, action, hint ::
                AccessWithScopes(reports, parents, grants, scopes, d, user, action, hint)
                == AccessWithScopes(reports, parents, old(grants), old(scopes), d, user, action, hint)
    {
      scopes := {};
    }
  }

  /**
   * For every user and action, access by grants and scopes before the migration is access by grants alone
   * after it, whatever the folder pointers look like.
   */
  lemma AccessIsPreserved(reports: seq<Report>, parents: Parents, grants: set<Grant>, scopes: set<Scope>,
      closure: set<Scope>, d: Directory, user: int, action: string, hint: Option<seq<string>>)
    requires Filed(reports, parents) && IsScopeClosure(parents, scopes, closure)
    ensures var after := grants + Materialized(reports, closure);
            AccessWithScopes(reports, parents, after, {}, d, user, action, hint)
            == AccessibleReportIds(reports, after, d, user, action, hint)
            == AccessWithScopes(reports, parents, grants, scopes, d, user, action, hint)
  {
    hide Above, IsOperator;
    var added := Materialized(reports, closure);
    var after := grants + added;
    if IsOperator(d, user, hint) {
      assert AccessWithScopes(reports, parents, grants, scopes, d, user, action, hint) == set r | r in reports :: r.id;
    } else {
      forall id ensures id in AccessibleReportIds(reports, after, d, user, action, hint)
                   <==> id in AccessWithScopes(reports, parents, grants, scopes, d, user, action, hint)
      {
        AddedGrantsAreScopes(reports, parents, scopes, closure, d, user, id);
        assert id in AccessibleReportIds(reports, after, d, user, action, hint)
          <==> id in AccessibleReportIds(reports, grants, d, user, action, hint)
               || (exists g :: g in added && g.permission == action && Addresses(g, d, user) && g.report == id);
      }
    }
  }

  /** A user is addressed by an inserted grant on a report exactly when a scope of one of their groups covers it. */
  lemma AddedGrantsAreScopes(reports: seq<Report>, parents: Parents,
      scopes: set<Scope>, closure: set<Scope>, d: Directory, user: int, id: int)
    requires Filed(reports, parents) && IsScopeClosure(parents, scopes, closure)
    ensures (exists g :: g in Materialized(reports, closure) && Addresses(g, d, user) && g.report == id)
            <==> exists r :: r in reports && r.id == id && InScope(r, parents, scopes, d, user)
  {
    hide Above;
    if g :| g in Materialized(reports, closure) && Addresses(g, d, user) && g.report == id {
      var r, s :| r in reports && s in closure && r.folder == Some(s.1) && g == Grant(r.id, "group", s.0, VIEW);
      assert (s.0, s.1) in closure;
      var root :| (s.0, root) in scopes && Above(parents, root, s.1);
      assert (s.0, root) in scopes && ((s.0, root).0, user) in d.groupMembers;
      assert InScope(r, parents, scopes, d, user);
    }
    if r :| r in reports && r.id == id && InScope(r, parents, scopes, d, user) {
      var s :| s in scopes && (s.0, user) in d.groupMembers && Above(parents, s.1, r.folder.value);
      ClosureHas(parents, scopes, closure, s.0, s.1, r.folder.value);
      assert Grant(r.id, "group", s.0, VIEW) in Materialized(reports, closure);
    }
  }

  lemma ClosureHas(parents: Parents, scopes: set<Scope>, closure: set<Scope>, g: int, root: int, f: int)
    requires IsScopeClosure(parents, scopes, closure) && (g, root) in scopes && f in parents && Above(parents, root, f)
    ensures (g, f) in closure
  {}
}
