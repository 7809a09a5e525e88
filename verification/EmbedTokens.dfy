/**
 The embed-token cache of useDisplayEmbedTokens.ts as a protocol: unforced calls on one board, interleaved in
 any order with the fetch loops they start.  A step is what JavaScript runs without interruption.
 */
module EmbedTokens {
  import opened Options

  const REFRESH_MARGIN_MS := 5 * 60_000
  const RETRY_BASE_MS := 2_000
  const RETRY_MAX_MS := 60_000

  datatype Entry = Entry(token: int, expiresAt: Option<int>)

  /** `isFresh` */
  predicate IsFresh(entry: Option<Entry>, now: int) {
    entry.Some? && (entry.value.expiresAt.None? || entry.value.expiresAt.value - now > REFRESH_MARGIN_MS)
  }

  // ---------------------------------------------------------------- backoff

  function Pow2(n: nat): nat {
    if n == 0 then 1 else 2 * Pow2(n - 1)
  }

  /** The delay after the `attempt`-th failure of a loop. */
  function Delay(attempt: nat): int
    requires attempt >= 1
  {
    var raw := RETRY_BASE_MS * Pow2(attempt - 1);
    if raw < RETRY_MAX_MS then raw else RETRY_MAX_MS
  }

  lemma {:induction false} Pow2Grows(m: nat, n: nat)
    requires m <= n
    ensures 1 <= Pow2(m) <= Pow2(n)
    decreases n
  {
    if m < n { Pow2Grows(m, n - 1); } else if n > 0 { Pow2Grows(n - 1, n - 1); }
  }

  /** Delays never shrink, stay within the two bounds, and reach the upper one from the sixth failure on. */
  lemma DelayLaws(m: nat, n: nat)
    requires 1 <= m <= n
    ensures RETRY_BASE_MS <= Delay(m) <= Delay(n) <= RETRY_MAX_MS
    ensures Delay(m) == RETRY_MAX_MS <==> m >= 6
    ensures Delay(1) == 2_000 && Delay(2) == 4_000 && Delay(5) == 32_000 && Delay(6) == 60_000
  {
    Pow2Grows(m - 1, n - 1);
    assert Pow2(5) == 32 by { assert Pow2(3) == 8; }
    assert Pow2(4) == 16 by { assert Pow2(2) == 4; }
    if m >= 6 { Pow2Grows(5, m - 1); } else { Pow2Grows(m - 1, 4); }
  }

  // ---------------------------------------------------------------- the protocol

  /** A fetch loop: requesting, sleeping until a time, or settled with its promise's clean-up still to run. */
  datatype Phase = Requesting | Sleeping(wake: int) | Settled(result: Option<int>)

  datatype Loop = Loop(report: int, phase: Phase, attempt: nat)

  /** `inFlight` maps a report to the loop whose promise is stored for it. */
  datatype State = State(cache: map<int, Entry>, inFlight: map<int, int>, loops: map<int, Loop>, failures: nat,
      nextLoop: int)

  datatype Step =
    | Call(report: int, now: int)
    | Succeed(loop: int, entry: Entry)
    | Fail(loop: int, now: int, permanent: bool)   // permanent: HTTP status 403 or 404
    | Wake(loop: int, now: int)
    | CleanUp(loop: int)
    | Invalidate(report: int)

  const INITIAL := State(map[], map[], map[], 0, 0)

  predicate Enabled(s: State, step: Step) {
    match step
    case Call(_, _) => true
    case Succeed(l, _) => l in s.loops && s.loops[l].phase.Requesting?
    case Fail(l, _, _) => l in s.loops && s.loops[l].phase.Requesting?
    case Wake(l, now) => l in s.loops && s.loops[l].phase.Sleeping? && s.loops[l].phase.wake <= now
    case CleanUp(l) => l in s.loops && s.loops[l].phase.Settled?
    case Invalidate(_) => true
  }

  function CacheOf(s: State, report: int): Option<Entry> {
    if report in s.cache then Some(s.cache[report]) else None
  }

  /** What a call is answered with: a cached token, or the promise of a loop. */
  datatype Answer = Cached(entry: Entry) | Promised(loop: int)

  function AnswerTo(s: State, report: int, now: int): Answer {
    if IsFresh(CacheOf(s, report), now) then Cached(s.cache[report])
    else if report in s.inFlight then Promised(s.inFlight[report])
    else Promised(s.nextLoop)
  }

  function Next(s: State, step: Step): State
    requires Enabled(s, step)
  {
    match step
    case Call(report, now) =>
      if IsFresh(CacheOf(s, report), now) || report in s.inFlight then s
      else s.(inFlight := s.inFlight[report := s.nextLoop],
              loops := s.loops[s.nextLoop := Loop(report, Requesting, 0)], nextLoop := s.nextLoop + 1)
    case Succeed(l, entry) =>
      s.(cache := s.cache[s.loops[l].report := entry], failures := 0,
         loops := s.loops[l := s.loops[l].(phase := Settled(Some(entry.token)))])
    case Fail(l, now, permanent) =>
      var attempt := s.loops[l].attempt + 1;
      s.(failures := s.failures + 1,
         loops := s.loops[l := s.loops[l].(
           attempt := attempt, phase := if permanent then Settled(None) else Sleeping(now + Delay(attempt)))])
    case Wake(l, _) => s.(loops := s.loops[l := s.loops[l].(phase := Requesting)])
    case CleanUp(l) => s.(inFlight := s.inFlight - {s.loops[l].report}, loops := s.loops - {l})
    case Invalidate(report) => s.(cache := s.cache - {report})
  }

  /** The hook's mutable state, and the pieces of code that run between two awaits. */
  class TokenCache {
    var state: State

    constructor ()
      ensures state == INITIAL
    {
      state := INITIAL;
    }

    /** `ensureToken(reportId)`, up to the first await of the loop it may start. */
    method EnsureToken(report: int, now: int) returns (answer: Answer)
      modifies this
      ensures answer == AnswerTo(old(state), report, now)
      ensures state == Next(old(state), Call(report, now))
    {
      var cached := CacheOf(state, report);
      if IsFresh(cached, now) { return Cached(cached.value); }
      if report in state.inFlight { return Promised(state.inFlight[report]); }
      var id := state.nextLoop;
      state := state.(loops := state.loops[id := Loop(report, Requesting, 0)], nextLoop := id + 1);
      state := state.(inFlight := state.inFlight[report := id]);
      return Promised(id);
    }

    /** The rest of the loop body once the request is answered. */
    method Answered(l: int, reply: Option<Entry>, now: int, permanent: bool)
      requires l in state.loops && state.loops[l].phase.Requesting?
      modifies this
      ensures state == Next(old(state), match reply case Some(e) => Succeed(l, e) case None => Fail(l, now, permanent))
    {
      var running := state.loops[l];
      if reply.Some? {
        state := state.(cache := state.cache[running.report := reply.value], failures := 0);
        state := state.(loops := state.loops[l := running.(phase := Settled(Some(reply.value.token)))]);
      } else {
        var attempt := running.attempt + 1;
        state := state.(failures := state.failures + 1);
        var phase := if permanent then Settled(None) else Sleeping(now + Delay(attempt));
        state := state.(loops := state.loops[l := running.(attempt := attempt, phase := phase)]);
      }
    }

    /** The `finally` of the stored promise: it deletes the entry of its report, whichever promise that is. */
    method CleanUpAfter(l: int)
      requires l in state.loops && state.loops[l].phase.Settled?
      modifies this
      ensures state == Next(old(state), CleanUp(l))
    {
      var report := state.loops[l].report;
      state := state.(inFlight := state.inFlight - {report});
      state := state.(loops := state.loops - {l});
    }

    /** `invalidate` */
    method Invalidated(report: int)
      modifies this
      ensures state == Next(old(state), Invalidate(report))
    {
      state := state.(cache := state.cache - {report});
    }
  }

  // ---------------------------------------------------------------- runs

  predicate HoldsEntry(s: State, l: int)
    requires l in s.loops
  {
    s.loops[l].report in s.inFlight && s.inFlight[s.loops[l].report] == l
  }

  /** Every unsettled or uncleaned loop holds the in-flight entry of its report, and every entry is such a loop's. */
  ghost predicate SingleFlight(s: State) {
    && (forall l :: l in s.loops ==> l < s.nextLoop && HoldsEntry(s, l))
    && (forall r :: r in s.inFlight ==> s.inFlight[r] in s.loops && s.loops[s.inFlight[r]].report == r)
  }

  lemma StepKeepsSingleFlight(s: State, step: Step)
    requires SingleFlight(s) && Enabled(s, step)
    ensures SingleFlight(Next(s, step))
  {
    hide IsFresh, Delay;
  }

  /** The states of a run in which every step was enabled when it was taken. */
  ghost predicate IsRun(states: seq<State>, steps: seq<Step>) {
    |states| == |steps| + 1 && states[0] == INITIAL &&
    forall n :: 0 <= n < |steps| ==> Enabled(states[n], steps[n]) && states[n + 1] == Next(states[n], steps[n])
  }

  lemma {:induction false} RunKeepsSingleFlight(states: seq<State>, steps: seq<Step>, n: nat)
    requires IsRun(states, steps) && n < |states|
    ensures SingleFlight(states[n])
    decreases n
  {
    hide Next, Enabled;
    if n > 0 {
      RunKeepsSingleFlight(states, steps, n - 1);
      StepKeepsSingleFlight(states[n - 1], steps[n - 1]);
      assert states[n - 1 + 1] == Next(states[n - 1], steps[n - 1]);
    } else {
      assert SingleFlight(INITIAL);
    }
  }

  /**
   * In every interleaving there is at most one loop per report, until its promise has cleaned up after itself, and
   * it is the one in flight.
   */
  lemma AtMostOneLoop(states: seq<State>, steps: seq<Step>, n: nat, a: int, b: int)
    requires IsRun(states, steps) && n < |states|
    requires a in states[n].loops && b in states[n].loops && states[n].loops[a].report == states[n].loops[b].report
    ensures a == b && states[n].loops[a].report in states[n].inFlight
      && states[n].inFlight[states[n].loops[a].report] == a
  {
    RunKeepsSingleFlight(states, steps, n);
  }

  /** The token the cache holds for a report: that of the last success, unless it has been invalidated since. */
  ghost function LastToken(states: seq<State>, steps: seq<Step>, n: nat, report: int): Option<Entry>
    requires IsRun(states, steps) && n <= |steps|
  {
    if n == 0 then None
    else
      match steps[n - 1]
      case Succeed(l, entry) =>
        if states[n - 1].loops[l].report == report then Some(entry) else LastToken(states, steps, n - 1, report)
      case Invalidate(r) => if r == report then None else LastToken(states, steps, n - 1, report)
      case _ => LastToken(states, steps, n - 1, report)
  }

  lemma {:induction false} CacheHoldsLastToken(states: seq<State>, steps: seq<Step>, n: nat, report: int)
    requires IsRun(states, steps) && n <= |steps|
    ensures CacheOf(states[n], report) == LastToken(states, steps, n, report)
    decreases n
  {
    if n > 0 {
      CacheHoldsLastToken(states, steps, n - 1, report);
      assert states[n - 1 + 1] == Next(states[n - 1], steps[n - 1]);
    }
  }

  /** A token without an expiry, or with more than five minutes left. */
  predicate Usable(entry: Entry, now: int) {
    entry.expiresAt.None? || now + 300_000 < entry.expiresAt.value
  }

  /**
   * A caller gets the last token of the report at once exactly if it is still usable, and otherwise the one loop
   * there is for that report after the call; a new loop only starts when there was none.
   */
  lemma CallerIsServed(states: seq<State>, steps: seq<Step>, n: nat)
    requires IsRun(states, steps) && n < |steps| && steps[n].Call?
    ensures var r, now, after := steps[n].report, steps[n].now, states[n + 1];
            var token := LastToken(states, steps, n, r);
            if token.Some? && Usable(token.value, now) then
              AnswerTo(states[n], r, now) == Cached(token.value) && after == states[n]
            else
              && AnswerTo(states[n], r, now).Promised?
              && var l := AnswerTo(states[n], r, now).loop;
              l in after.loops && after.loops[l].report == r && (r in after.inFlight && after.inFlight[r] == l)
              && (l in states[n].loops ==> after == states[n])
              && (l !in states[n].loops ==> after.loops == states[n].loops[l := Loop(r, Requesting, 0)])
              && (l !in states[n].loops ==> forall k :: k in states[n].loops ==> states[n].loops[k].report != r)
  {
    RunKeepsSingleFlight(states, steps, n);
    RunKeepsSingleFlight(states, steps, n + 1);
    CacheHoldsLastToken(states, steps, n, steps[n].report);
    assert states[n + 1] == Next(states[n], steps[n]);
  }

  /** How often a loop has failed. */
  function FailuresOf(steps: seq<Step>, loop: int): nat {
    if steps == [] then 0
    else
      var last := steps[|steps| - 1];
      FailuresOf(steps[..|steps| - 1], loop) + if last.Fail? && last.loop == loop then 1 else 0
  }

  /** Where a loop stands, told from the last step that concerned it; its waiting time from how often it has failed. */
  function PhaseOf(steps: seq<Step>, loop: int): Phase {
    if steps == [] then Requesting
    else
      var before, last := steps[..|steps| - 1], steps[|steps| - 1];
      match last
      case Succeed(l, entry) => if l == loop then Settled(Some(entry.token)) else PhaseOf(before, loop)
      case Fail(l, now, permanent) =>
        if l != loop then PhaseOf(before, loop)
        else if permanent then Settled(None)
        else
          Sleeping(now + match FailuresOf(steps, loop)
                         case 0 => 0 case 1 => 2_000 case 2 => 4_000 case 3 => 8_000 case 4 => 16_000 case 5 => 32_000
                         case _ => 60_000)
      case Wake(l, _) => if l == loop then Requesting else PhaseOf(before, loop)
      case _ => PhaseOf(before, loop)
  }

  lemma DelayTable(n: nat)
    requires n >= 1
    ensures Delay(n) == match n
                        case 0 => 0 case 1 => 2_000 case 2 => 4_000 case 3 => 8_000 case 4 => 16_000 case 5 => 32_000
                        case _ => 60_000
  {
    DelayLaws(n, n);
    assert Pow2(2) == 4 && Pow2(3) == 8 by { assert Pow2(1) == 2; }
    assert Pow2(4) == 16;
  }

  /** No step speaks of a loop that has not started. */
  lemma {:induction false} UnstartedIsUntouched(states: seq<State>, steps: seq<Step>, n: nat, l: int)
    requires IsRun(states, steps) && n <= |steps| && l >= states[n].nextLoop
    ensures FailuresOf(steps[..n], l) == 0 && PhaseOf(steps[..n], l) == Requesting
    decreases n
  {
    hide Delay, IsFresh;
    if n > 0 {
      assert states[n - 1 + 1] == Next(states[n - 1], steps[n - 1]);
      RunKeepsSingleFlight(states, steps, n - 1);
      assert steps[..n][..n - 1] == steps[..n - 1];
      UnstartedIsUntouched(states, steps, n - 1, l);
    }
  }

  /** Every loop is where its own successes, failures and wake-ups have put it. */
  lemma {:induction false} LoopIsHistory(states: seq<State>, steps: seq<Step>, n: nat, l: int)
    requires IsRun(states, steps) && n <= |steps| && l in states[n].loops
    ensures states[n].loops[l].attempt == FailuresOf(steps[..n], l)
    ensures states[n].loops[l].phase == PhaseOf(steps[..n], l)
    decreases n
  {
    hide Delay, IsFresh, FailuresOf, PhaseOf;
    if n > 0 {
      var s, step := states[n - 1], steps[n - 1];
      assert states[n - 1 + 1] == Next(s, step);
      assert steps[..n] == steps[..n - 1] + [step];
      HistoryStep(steps[..n - 1], step, l);
      RunKeepsSingleFlight(states, steps, n - 1);
      if l in s.loops {
        LoopIsHistory(states, steps, n - 1, l);
      } else {
        UnstartedIsUntouched(states, steps, n - 1, l);
      }
    }
  }

  lemma HistoryStep(before: seq<Step>, step: Step, l: int)
    ensures FailuresOf(before + [step], l) == FailuresOf(before, l) + if step.Fail? && step.loop == l then 1 else 0
    ensures PhaseOf(before + [step], l)
            == if step.Succeed? && step.loop == l then Settled(Some(step.entry.token))
               else if step.Fail? && step.loop == l then
                 (if step.permanent then Settled(None) else Sleeping(step.now + Delay(FailuresOf(before, l) + 1)))
               else if step.Wake? && step.loop == l then Requesting
               else PhaseOf(before, l)
  {
    hide Delay;
    assert (before + [step])[..|before|] == before;
    DelayTable(FailuresOf(before, l) + 1);
  }

  /** The number of failures since the last success, told from the steps alone. */
  function FailuresIn(steps: seq<Step>): nat {
    if steps == [] then 0
    else
      match steps[|steps| - 1]
      case Succeed(_, _) => 0
      case Fail(_, _, _) => FailuresIn(steps[..|steps| - 1]) + 1
      case _ => FailuresIn(steps[..|steps| - 1])
  }

  lemma {:induction false} FailureCountIsExact(states: seq<State>, steps: seq<Step>, n: nat)
    requires IsRun(states, steps) && n < |states|
    ensures states[n].failures == FailuresIn(steps[..n])
    decreases n
  {
    if n > 0 {
      FailureCountIsExact(states, steps, n - 1);
      assert steps[..n][..n - 1] == steps[..n - 1];
      assert states[n - 1 + 1] == Next(states[n - 1], steps[n - 1]);
    }
  }

  /** A loop that failed and may retry requests again no sooner than its delay after the failure. */
  lemma {:induction false} RetryWaits(states: seq<State>, steps: seq<Step>, i: nat, n: nat)
    requires IsRun(states, steps) && i < n < |states|
    requires steps[i].Fail? && !steps[i].permanent
    requires forall k :: i < k < n ==> !(steps[k].Wake? && steps[k].loop == steps[i].loop)
    ensures var l := steps[i].loop;
            l in states[n].loops && states[n].loops[l].attempt >= 1
            && states[n].loops[l].phase == Sleeping(steps[i].now + Delay(states[n].loops[l].attempt))
    decreases n
  {
    hide Delay, IsFresh;
    assert states[n - 1 + 1] == Next(states[n - 1], steps[n - 1]);
    RunKeepsSingleFlight(states, steps, n - 1);
    if i < n - 1 {
      RetryWaits(states, steps, i, n - 1);
    }
  }

  // ---------------------------------------------------------------- runs exist

  function StateAfter(steps: seq<Step>): (s: Option<State>)
  {
    if steps == [] then Some(INITIAL)
    else
      var before, last := StateAfter(steps[..|steps| - 1]), steps[|steps| - 1];
      if before.Some? && Enabled(before.value, last) then Some(Next(before.value, last)) else None
  }

  /** Every sequence of steps that are enabled in turn has its run. */
  lemma {:induction false} RunExists(steps: seq<Step>) returns (states: seq<State>)
    requires StateAfter(steps).Some?
    ensures IsRun(states, steps) && states[|steps|] == StateAfter(steps).value
    decreases |steps|
  {
    hide Next, Enabled;
    if steps == [] {
      states := [INITIAL];
    } else {
      var before, last := steps[..|steps| - 1], steps[|steps| - 1];
      states := RunExists(before);
      states := states + [Next(states[|before|], last)];
    }
  }

  lemma OneStepOn(before: seq<Step>, step: Step)
    requires StateAfter(before).Some? && Enabled(StateAfter(before).value, step)
    ensures StateAfter(before + [step]) == Some(Next(StateAfter(before).value, step))
  {
    assert (before + [step])[..|before|] == before;
  }

  /** A first failure, a retry two seconds later to the millisecond, and a token that serves the next caller. */
  lemma RetriedOnce(entry: Entry)
    requires entry.expiresAt == Some(302_001)
    ensures var steps := [Call(7, 0), Fail(0, 0, false), Wake(0, 2_000), Succeed(0, entry), CleanUp(0)];
            StateAfter(steps) == Some(State(map[7 := entry], map[], map[], 0, 1)) &&
            AnswerTo(StateAfter(steps).value, 7, 2_000) == Cached(entry) &&
            AnswerTo(StateAfter(steps).value, 7, 2_001) == Promised(1)
  {
    hide StateAfter, Delay;
    DelayLaws(1, 1);
    assert StateAfter([]) == Some(INITIAL) by { NoSteps(); }
    var call, fail, wake, succeed := Call(7, 0), Fail(0, 0, false), Wake(0, 2_000), Succeed(0, entry);
    OneStepOn([], call);
    assert [] + [call] == [call];
    OneStepOn([call], fail);
    assert [call] + [fail] == [call, fail];
    OneStepOn([call, fail], wake);
    assert [call, fail] + [wake] == [call, fail, wake];
    OneStepOn([call, fail, wake], succeed);
    assert [call, fail, wake] + [succeed] == [call, fail, wake, succeed];
    OneStepOn([call, fail, wake, succeed], CleanUp(0));
    assert [call, fail, wake, succeed] + [CleanUp(0)] == [call, fail, wake, succeed, CleanUp(0)];
  }

  lemma NoSteps()
    ensures StateAfter([]) == Some(INITIAL)
  {}
}
