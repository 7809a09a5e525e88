/**
 Failure and recovery notices of ops_alert_service.py over a TTL store: one key per component, set when an
 alert goes out and expiring after the resend window.  Any single call to the store may fail.
 */
module OpsAlerts {
  import opened Options

  /** The seven components of COMPONENT_LABELS, in the order they are processed. */
  const COMPONENTS := ["db", "redis", "worker", "scheduler", "powerbi", "smtp", "storage"]

  /** The status fields the alerting looks at; None where the response has no such entry. */
  datatype Status = Status(
    db: Option<string>, redis: Option<string>, worker: Option<string>, scheduler: Option<string>,
    powerbi: Option<string>, smtp: Option<string>, storage: Option<string>)

  /** Whether a check counts a component as failing; what depends on Redis is not judged while Redis is down. */
  predicate Fails(s: Status, component: string) {
    match component
    case "db" => s.db != Some("ok")
    case "redis" => s.redis != Some("ok")
    case "worker" => s.redis == Some("ok") && s.worker != Some("ok")
    case "scheduler" => s.redis == Some("ok") && s.scheduler == Some("unavailable")
    case "powerbi" => s.redis == Some("ok") && s.powerbi == Some("error")
    case "smtp" => s.redis == Some("ok") && s.smtp == Some("error")
    case "storage" => s.storage == Some("error")
    case _ => false
  }

  /** `failing_components`, as the set of the keys it fills; every reason is a non-empty text. */
  method FailingComponents(s: Status) returns (failures: set<string>)
    ensures forall c :: c in failures <==> Fails(s, c)
  {
    failures := {};
    if s.db != Some("ok") { failures := failures + {"db"}; }
    if s.redis != Some("ok") { failures := failures + {"redis"}; }
    if s.redis == Some("ok") {
      if s.worker != Some("ok") { failures := failures + {"worker"}; }
      if s.scheduler == Some("unavailable") { failures := failures + {"scheduler"}; }
      if s.powerbi == Some("error") { failures := failures + {"powerbi"}; }
      if s.smtp == Some("error") { failures := failures + {"smtp"}; }
    }
    if s.storage == Some("error") { failures := failures + {"storage"}; }
  }

  /** What the status reports about the component itself, whatever it says about Redis. */
  predicate OwnFault(s: Status, component: string) {
    match component
    case "db" => s.db != Some("ok")
    case "redis" => s.redis != Some("ok")
    case "worker" => s.worker != Some("ok")
    case "scheduler" => s.scheduler == Some("unavailable")
    case "powerbi" => s.powerbi == Some("error")
    case "smtp" => s.smtp == Some("error")
    case "storage" => s.storage == Some("error")
    case _ => false
  }

  /** The components that are looked at only while Redis is reported ok. */
  const BEHIND_REDIS := {"worker", "scheduler", "powerbi", "smtp"}

  /** Redis is reported down, so a fault of this component goes unseen. */
  predicate Unseen(s: Status, component: string) {
    component in BEHIND_REDIS && s.redis != Some("ok")
  }

  lemma FailsIff(s: Status, component: string)
    ensures Fails(s, component) <==> OwnFault(s, component) && !Unseen(s, component)
  {}

  // ---------------------------------------------------------------- one component

  /** Which calls to the store go through during one check of one component. */
  datatype Store = Store(gets: bool, sets: bool, deletes: bool)

  const WORKING := Store(true, true, true)

  /** One check of one component: when, whether it fails, whether the mail server accepts a notice. */
  datatype Check = Check(now: int, failing: bool, delivers: bool, store: Store)

  datatype Notice = Quiet | Alerted | Recovered

  /** When the component's key expires; None if it was never set or has been deleted. */
  type Key = Option<int>

  predicate Live(key: Key, now: int) {
    key.Some? && now < key.value
  }

  datatype Outcome = Outcome(key: Key, notice: Notice)

  /** The check of one component; a key that cannot be read counts as not set. */
  function Process(key: Key, c: Check, window: int): Outcome {
    var notified := c.store.gets && Live(key, c.now);
    if c.failing then
      if notified || !c.delivers then Outcome(key, Quiet)
      else Outcome(if c.store.sets then Some(c.now + window) else key, Alerted)
    else if notified then Outcome(if c.store.deletes then None else key, if c.delivers then Recovered else Quiet)
    else Outcome(key, Quiet)
  }

  // ---------------------------------------------------------------- one run over all components

  /** One run of `process_alerts`: the sets name the components for which a mail or a store call succeeds. */
  datatype Round = Round(
    now: int, status: Status, delivers: set<string>, gets: set<string>, sets: set<string>, deletes: set<string>)

  /** What a run means for one component. */
  function CheckOf(r: Round, c: string): Check {
    Check(r.now, Fails(r.status, c), c in r.delivers, Store(c in r.gets, c in r.sets, c in r.deletes))
  }

  function ChecksOf(rounds: seq<Round>, c: string): (checks: seq<Check>)
    ensures |checks| == |rounds| && forall k :: 0 <= k < |rounds| ==> checks[k] == CheckOf(rounds[k], c)
  {
    seq(|rounds|, k requires 0 <= k < |rounds| => CheckOf(rounds[k], c))
  }

  datatype Report = Report(alerted: seq<string>, recovered: seq<string>)

  predicate Tells(report: Report, c: string, notice: Notice) {
    (c in report.alerted <==> notice == Alerted) && (c in report.recovered <==> notice == Recovered)
  }

  class Monitor {
    var keys: map<string, int>
    const window: int

    constructor (window: int)
      ensures keys == map[] && this.window == window
    {
      keys := map[];
      this.window := window;
    }

    function KeyOf(component: string): Key
      reads this
    {
      if component in keys then Some(keys[component]) else None
    }

    /** The loop body of `process_alerts`. */
    method ProcessComponent(component: string, c: Check) returns (notice: Notice)
      modifies this`keys
      ensures Outcome(KeyOf(component), notice) == Process(old(KeyOf(component)), c, window)
      ensures forall other :: other != component ==> KeyOf(other) == old(KeyOf(other))
    {
      notice := Quiet;
      var alreadyNotified := c.store.gets && component in keys && c.now < keys[component];
      if c.failing {
        if alreadyNotified { return; }
        if c.delivers {
          notice := Alerted;
          if c.store.sets { keys := keys[component := c.now + window]; }
        }
      } else if alreadyNotified {
        if c.store.deletes { keys := keys - {component}; }
        if c.delivers { notice := Recovered; }
      }
    }

    /** `process_alerts`; switched off by OPS_ALERT_ENABLED it does nothing. */
    method ProcessAlerts(enabled: bool, r: Round) returns (report: Report)
      modifies this`keys
      ensures !enabled ==> report == Report([], []) && forall c :: KeyOf(c) == old(KeyOf(c))
      ensures enabled ==> forall c :: c in COMPONENTS ==>
                var outcome := Process(old(KeyOf(c)), CheckOf(r, c), window);
                KeyOf(c) == outcome.key && (c in report.alerted <==> outcome.notice == Alerted)
                && (c in report.recovered <==> outcome.notice == Recovered)
      ensures forall c :: c !in COMPONENTS ==>
                KeyOf(c) == old(KeyOf(c)) && c !in report.alerted && c !in report.recovered
    {
      hide Fails, Process;
      report := Report([], []);
      if !enabled { return; }
      var failures := FailingComponents(r.status);
      var alerted: seq<string>, recovered: seq<string> := [], [];
      var all := COMPONENTS;
      DistinctComponents();
      for n := 0 to |all|
        invariant forall c :: c !in all[..n] ==>
                    KeyOf(c) == old(KeyOf(c)) && Tells(Report(alerted, recovered), c, Quiet)
        invariant forall k :: 0 <= k < n ==>
                    var outcome := Process(old(KeyOf(all[k])), CheckOf(r, all[k]), window);
                    KeyOf(all[k]) == outcome.key && Tells(Report(alerted, recovered), all[k], outcome.notice)
      {
        var c := all[n];
        assert c !in all[..n];
        var check := Check(r.now, c in failures, c in r.delivers, Store(c in r.gets, c in r.sets, c in r.deletes));
        var notice := ProcessComponent(c, check);
        if notice == Alerted { alerted := alerted + [c]; }
        if notice == Recovered { recovered := recovered + [c]; }
        assert all[..n + 1] == all[..n] + [c];
      }
      report := Report(alerted, recovered);
    }

    /** The periodic check of workers/tasks/ops_alert.py, as often as the scheduler calls it. */
    method ProcessRounds(rounds: seq<Round>) returns (reports: seq<Report>)
      requires keys == map[]
      modifies this`keys
      ensures |reports| == |rounds|
      ensures forall n, c :: 0 <= n < |rounds| && c in COMPONENTS ==>
                var notice := NoticeAt(ChecksOf(rounds, c), window, n);
                (c in reports[n].alerted <==> notice == Alerted) && (c in reports[n].recovered <==> notice == Recovered)
    {
      hide CheckOf, Process;
      reports := [];
      for n := 0 to |rounds|
        invariant |reports| == n
        invariant forall c :: c in COMPONENTS ==> KeyOf(c) == KeyBefore(ChecksOf(rounds, c), window, n)
        invariant forall k, c :: 0 <= k < n && c in COMPONENTS ==>
                    Tells(reports[k], c, NoticeAt(ChecksOf(rounds, c), window, k))
      {
        var report := ProcessAlerts(true, rounds[n]);
        reports := reports + [report];
      }
    }
  }

  lemma DistinctComponents()
    ensures forall i, j :: 0 <= i < j < |COMPONENTS| ==> COMPONENTS[i] != COMPONENTS[j]
  {
    var c := COMPONENTS;
    assert c[0][0] == 'd' && c[1][0] == 'r' && c[2][0] == 'w' && c[3][..2] == "sc" && c[4][0] == 'p'
      && c[5][..2] == "sm" && c[6][..2] == "st";
    assert c[3][1] == 'c' && c[5][1] == 'm' && c[6][1] == 't' && c[3][0] == c[5][0] == c[6][0] == 's';
  }

  /** The seven components, and nothing else ever fails. */
  lemma ComponentsAreAll(s: Status, c: string)
    ensures c in COMPONENTS <==> c in {"db", "redis", "worker", "scheduler", "powerbi", "smtp", "storage"}
    ensures Fails(s, c) ==> c in COMPONENTS
  {
    var all := COMPONENTS;
    assert all[0] in all && all[1] in all && all[2] in all && all[3] in all && all[4] in all && all[5] in all
      && all[6] in all;
  }

  /** Which fault a status reports in sight, field by field. */
  lemma FailsByStatus(s: Status)
    ensures Fails(s, "db") <==> s.db != Some("ok")
    ensures Fails(s, "redis") <==> s.redis != Some("ok")
    ensures Fails(s, "worker") <==> s.redis == Some("ok") && s.worker != Some("ok")
    ensures Fails(s, "scheduler") <==> s.redis == Some("ok") && s.scheduler == Some("unavailable")
    ensures Fails(s, "powerbi") <==> s.redis == Some("ok") && s.powerbi == Some("error")
    ensures Fails(s, "smtp") <==> s.redis == Some("ok") && s.smtp == Some("error")
    ensures Fails(s, "storage") <==> s.storage == Some("error")
  {}

  /**
   * One run for one component: an alert exactly for a fault in sight of which nobody is known to be told, if the mail
   * goes out, and a recovery exactly for a healthy one of which somebody is; the key is set by an alert and deleted
   * by a healthy check, each only if that call to the store goes through, and is otherwise left alone.
   */
  lemma RoundOutcome(r: Round, c: string, key: Key, window: int)
    ensures var after, fails := Process(key, CheckOf(r, c), window), Fails(r.status, c);
            var told := c in r.gets && key.Some? && r.now < key.value;
            (after.notice == Alerted <==> fails && !told && c in r.delivers) &&
            (after.notice == Recovered <==> !fails && told && c in r.delivers) &&
            after.key == if fails && !told && c in r.delivers && c in r.sets then Some(r.now + window)
                         else if !fails && told && c in r.deletes then None
                         else key
  {
    hide Fails;
  }

  // ---------------------------------------------------------------- whole runs

  /** The checks of one component, at times that do not go back, over a store that works. */
  ghost predicate Regular(checks: seq<Check>) {
    (forall i, j :: 0 <= i <= j < |checks| ==> checks[i].now <= checks[j].now) &&
    (forall i :: 0 <= i < |checks| ==> checks[i].store == WORKING)
  }

  function KeyBefore(checks: seq<Check>, window: int, n: nat): Key
    requires n <= |checks|
  {
    if n == 0 then None else Process(KeyBefore(checks, window, n - 1), checks[n - 1], window).key
  }

  function NoticeAt(checks: seq<Check>, window: int, n: nat): Notice
    requires n < |checks|
  {
    Process(KeyBefore(checks, window, n), checks[n], window).notice
  }

  /** Check `i` alerted, and the component has failed at every check since, up to `j`. */
  ghost predicate AlertStands(checks: seq<Check>, window: int, i: nat, j: nat)
    requires i < j <= |checks|
  {
    NoticeAt(checks, window, i) == Alerted && forall k :: i < k < j ==> checks[k].failing
  }

  lemma {:induction false} KeyComesFromAlert(checks: seq<Check>, window: int, n: nat) returns (i: nat)
    requires Regular(checks) && n <= |checks| && KeyBefore(checks, window, n).Some?
    ensures i < n && NoticeAt(checks, window, i) == Alerted
      && KeyBefore(checks, window, n) == Some(checks[i].now + window)
    ensures forall k :: i < k < n ==> checks[k].failing || checks[i].now + window <= checks[k].now
    decreases n
  {
    if NoticeAt(checks, window, n - 1) == Alerted {
      i := n - 1;
    } else {
      i := KeyComesFromAlert(checks, window, n - 1);
    }
  }

  lemma {:induction false} StandingAlertKeepsKey(checks: seq<Check>, window: int, i: nat, n: nat)
    requires Regular(checks) && i < n < |checks| && AlertStands(checks, window, i, n)
    requires checks[n].now < checks[i].now + window
    ensures KeyBefore(checks, window, n) == Some(checks[i].now + window)
    decreases n
  {
    if i < n - 1 {
      assert AlertStands(checks, window, i, n - 1);
      StandingAlertKeepsKey(checks, window, i, n - 1);
    }
  }

  /** The key is live at a check exactly when an alert of less than a window ago still stands. */
  lemma LiveIffAlertStands(checks: seq<Check>, window: int, n: nat)
    requires Regular(checks) && n < |checks|
    ensures Live(KeyBefore(checks, window, n), checks[n].now) <==>
            exists i :: 0 <= i < n && AlertStands(checks, window, i, n) && checks[n].now < checks[i].now + window
  {
    if Live(KeyBefore(checks, window, n), checks[n].now) {
      var i := KeyComesFromAlert(checks, window, n);
      assert AlertStands(checks, window, i, n);
    }
    if i :| 0 <= i < n && AlertStands(checks, window, i, n) && checks[n].now < checks[i].now + window {
      StandingAlertKeepsKey(checks, window, i, n);
    }
  }

  /** Two alerts closer together than the resend window have a healthy check between them. */
  lemma AlertsAreSpaced(checks: seq<Check>, window: int, i: nat, j: nat)
    requires Regular(checks) && i < j < |checks|
    requires NoticeAt(checks, window, i) == NoticeAt(checks, window, j) == Alerted
    requires checks[j].now - checks[i].now < window
    ensures exists k :: i < k < j && !checks[k].failing
  {
    LiveIffAlertStands(checks, window, j);
    if forall k :: i < k < j ==> checks[k].failing {
      assert !AlertStands(checks, window, i, j);
    }
  }

  /** A recovery notice answers an alert of less than a window ago, with no healthy check and no recovery since. */
  lemma RecoveryFollowsAlert(checks: seq<Check>, window: int, j: nat) returns (i: nat)
    requires Regular(checks) && j < |checks| && NoticeAt(checks, window, j) == Recovered
    ensures i < j && NoticeAt(checks, window, i) == Alerted && checks[j].now - checks[i].now < window
    ensures forall k :: i < k < j ==> checks[k].failing && NoticeAt(checks, window, k) != Recovered
  {
    LiveIffAlertStands(checks, window, j);
    i :| 0 <= i < j && AlertStands(checks, window, i, j) && checks[j].now < checks[i].now + window;
  }

  /** A failing check that can deliver alerts unless an alert of less than a window ago still stands: none is missed. */
  lemma AlertIff(checks: seq<Check>, window: int, j: nat)
    requires Regular(checks) && j < |checks| && checks[j].failing && checks[j].delivers
    ensures NoticeAt(checks, window, j) == Alerted <==>
            forall i :: 0 <= i < j && AlertStands(checks, window, i, j) ==> checks[i].now + window <= checks[j].now
  {
    LiveIffAlertStands(checks, window, j);
  }

  /**
   * A healthy check that can deliver announces the recovery if and only if an alert of less than a window ago
   * still stands: one whose window has run out is never followed by a recovery notice.
   */
  lemma RecoveryIff(checks: seq<Check>, window: int, j: nat)
    requires Regular(checks) && j < |checks| && !checks[j].failing && checks[j].delivers
    ensures NoticeAt(checks, window, j) == Recovered <==>
            exists i :: 0 <= i < j && AlertStands(checks, window, i, j) && checks[j].now < checks[i].now + window
  {
    LiveIffAlertStands(checks, window, j);
  }

  /** The missed run: alerted, found healthy for the first time when the window ends, and never told so. */
  lemma RecoveryCanBeMissed(now: int, window: int, later: seq<Check>)
    requires window > 0
    requires forall k :: 0 <= k < |later| ==> !later[k].failing && later[k].delivers && later[k].store == WORKING
    requires forall k :: 0 <= k < |later| ==> now + window <= later[k].now
    ensures var checks := [Check(now, true, true, WORKING)] + later;
            NoticeAt(checks, window, 0) == Alerted &&
            forall k :: 1 <= k < |checks| ==> NoticeAt(checks, window, k) == Quiet
  {
    var checks := [Check(now, true, true, WORKING)] + later;
    forall k | 1 <= k < |checks| ensures NoticeAt(checks, window, k) == Quiet {
      ExpiredKeyStays(checks, window, now + window, k);
    }
  }

  lemma {:induction false} ExpiredKeyStays(checks: seq<Check>, window: int, expiry: int, n: nat)
    requires 1 <= n <= |checks| && KeyBefore(checks, window, 1) == Some(expiry)
    requires forall k :: 1 <= k < |checks| ==> !checks[k].failing && expiry <= checks[k].now
    ensures KeyBefore(checks, window, n) == Some(expiry)
    decreases n
  {
    if n > 1 {
      ExpiredKeyStays(checks, window, expiry, n - 1);
    }
  }

  // ---------------------------------------------------------------- false recoveries

  /**
   * A recovery notice is false, for a component that still has its fault, if and only if the component is one
   * behind Redis, Redis is reported down, and yet the key can be read, is live, and the mail goes out.
   */
  lemma FalseRecoveryIff(r: Round, component: string, key: Key, window: int)
    ensures Process(key, CheckOf(r, component), window).notice == Recovered && OwnFault(r.status, component) <==>
            Unseen(r.status, component) && OwnFault(r.status, component) && Live(key, r.now)
            && component in r.gets && component in r.delivers
  {
    hide Fails, OwnFault;
    FailsIff(r.status, component);
  }

  /** Runs of whole statuses, at times that do not go back, over a store that works for this component. */
  ghost predicate RegularFor(rounds: seq<Round>, c: string) {
    (forall i, j :: 0 <= i <= j < |rounds| ==> rounds[i].now <= rounds[j].now) &&
    (forall i :: 0 <= i < |rounds| ==> c in rounds[i].gets && c in rounds[i].sets && c in rounds[i].deletes)
  }

  /** The component had its fault, in sight, at every check after `i` and before `j`. */
  ghost predicate FaultySince(rounds: seq<Round>, c: string, i: nat, j: nat)
    requires j <= |rounds|
  {
    forall k :: i < k < j ==> OwnFault(rounds[k].status, c) && !Unseen(rounds[k].status, c)
  }

  lemma StandsIff(rounds: seq<Round>, c: string, window: int, i: nat, j: nat)
    requires i < j <= |rounds|
    ensures AlertStands(ChecksOf(rounds, c), window, i, j) <==>
            NoticeAt(ChecksOf(rounds, c), window, i) == Alerted && FaultySince(rounds, c, i, j)
  {
    hide Fails, OwnFault, NoticeAt;
    forall k | 0 <= k < |rounds|
      ensures ChecksOf(rounds, c)[k].failing <==> OwnFault(rounds[k].status, c) && !Unseen(rounds[k].status, c)
    {
      FailsIff(rounds[k].status, c);
    }
  }

  /**
   * Over any run: a component that still has its fault is announced as recovered exactly at a check that reports
   * Redis down while an alert of less than a window ago stands, and the component's fault is hidden behind Redis.
   */
  lemma FalseRecoveryInRun(rounds: seq<Round>, c: string, window: int, j: nat)
    requires RegularFor(rounds, c) && j < |rounds| && OwnFault(rounds[j].status, c)
    ensures NoticeAt(ChecksOf(rounds, c), window, j) == Recovered <==>
            Unseen(rounds[j].status, c) && c in rounds[j].delivers &&
            exists i :: 0 <= i < j && NoticeAt(ChecksOf(rounds, c), window, i) == Alerted
              && FaultySince(rounds, c, i, j) && rounds[j].now - rounds[i].now < window
  {
    hide Process, OwnFault, Fails, KeyBefore, FaultySince, AlertStands;
    var checks := ChecksOf(rounds, c);
    LiveIffAlertStands(checks, window, j);
    FalseRecoveryIff(rounds[j], c, KeyBefore(checks, window, j), window);
    forall i | 0 <= i < j
      ensures AlertStands(checks, window, i, j) <==>
              NoticeAt(checks, window, i) == Alerted && FaultySince(rounds, c, i, j)
    {
      StandsIff(rounds, c, window, i, j);
    }
  }

  /** Alerts closer than the window have between them a check without the fault, or one that could not see it. */
  lemma AlertsAreSpacedByStatus(rounds: seq<Round>, c: string, window: int, i: nat, j: nat)
    requires RegularFor(rounds, c) && i < j < |rounds|
    requires NoticeAt(ChecksOf(rounds, c), window, i) == NoticeAt(ChecksOf(rounds, c), window, j) == Alerted
    requires rounds[j].now - rounds[i].now < window
    ensures exists k :: i < k < j && (!OwnFault(rounds[k].status, c) || Unseen(rounds[k].status, c))
  {
    hide Process, OwnFault, Fails, KeyBefore, NoticeAt;
    AlertsAreSpaced(ChecksOf(rounds, c), window, i, j);
    var k :| i < k < j && !ChecksOf(rounds, c)[k].failing;
    FailsIff(rounds[k].status, c);
  }

  /**
   * A Redis blip reported by the status while the store still answers: the worker never comes back, and yet an
   * alert, a recovery notice and a second alert go out within one window.
   */
  lemma RedisOutageLooksLikeRecovery(s: Status, t0: int, t1: int, t2: int, window: int)
    requires s.redis == Some("ok") && s.worker != Some("ok")
    requires t0 <= t1 <= t2 < t0 + window
    ensures var w := {"worker"};
            var blip := s.(redis := Some("error"));
            var rounds := [Round(t0, s, w, w, w, w), Round(t1, blip, w, w, w, w), Round(t2, s, w, w, w, w)];
            var checks := ChecksOf(rounds, "worker");
            RegularFor(rounds, "worker") && Regular(checks) &&
            (forall k :: 0 <= k < 3 ==> OwnFault(rounds[k].status, "worker")) &&
            NoticeAt(checks, window, 0) == Alerted && NoticeAt(checks, window, 1) == Recovered
            && NoticeAt(checks, window, 2) == Alerted
  {
    var w, blip := {"worker"}, s.(redis := Some("error"));
    var rounds := [Round(t0, s, w, w, w, w), Round(t1, blip, w, w, w, w), Round(t2, s, w, w, w, w)];
    var checks := ChecksOf(rounds, "worker");
    assert checks[0] == Check(t0, true, true, WORKING) && checks[1] == Check(t1, false, true, WORKING)
      && checks[2] == Check(t2, true, true, WORKING);
    assert KeyBefore(checks, window, 1) == Some(t0 + window);
    assert KeyBefore(checks, window, 2) == None;
  }

  /** A store that cannot be read sends no recovery notice, and an alert for every failing check. */
  lemma UnreadableStore(r: Round, component: string, key: Key, window: int)
    requires component !in r.gets
    ensures Process(key, CheckOf(r, component), window).notice
            == if Fails(r.status, component) && component in r.delivers then Alerted else Quiet
  {
    hide Fails;
  }
}
