/**
 The visible-time reporting of ReportViewPage.tsx: the tab accumulates the time it is visible and posts the
 absolute total; messages may be lost, repeated or overtake each other; the server keeps the maximum.
 All times are whole milliseconds of a clock that does not run backwards.
 */
module VisibleTime {
  import opened Options

  const CAP_SEC := 86_400

  function Min(a: int, b: int): int { if a < b then a else b }
  function Max(a: int, b: int): int { if a > b then a else b }

  /** The closure variables of the effect, and the visibility of the document. */
  datatype Client = Client(visible: bool, since: Option<int>, accumulated: int, acknowledged: int)

  /** Milliseconds running since `since`. */
  function Pending(c: Client, now: int): int {
    match c.since case None => 0 case Some(t) => now - t
  }

  /** The value a flush computes: whole seconds, at most a day. */
  function AbsoluteSec(accumulated: int): int {
    Min(CAP_SEC, accumulated / 1000)
  }

  /** `flush`, without its request. */
  function Flushed(c: Client, now: int, stop: bool): Client {
    c.(accumulated := c.accumulated + Pending(c, now), since := if !stop && c.visible then Some(now) else None)
  }

  /** The value `flush` posts, if any. */
  function Posted(c: Client): Option<int> {
    var value := AbsoluteSec(c.accumulated);
    if value < 1 || value <= c.acknowledged then None else Some(value)
  }

  class DurationEffect {
    var client: Client

    /** The effect starts counting at once if the document is visible. */
    constructor (visible: bool, now: int)
      ensures client == Client(visible, if visible then Some(now) else None, 0, 0)
    {
      client := Client(visible, if visible then Some(now) else None, 0, 0);
    }

    /** `flush` */
    method Flush(stop: bool, now: int) returns (post: Option<int>)
      modifies this
      ensures client == Flushed(old(client), now, stop) && post == Posted(client)
    {
      if client.since.Some? {
        client := client.(accumulated := client.accumulated + (now - client.since.value));
      }
      client := client.(since := if !stop && client.visible then Some(now) else None);
      var value := Min(CAP_SEC, client.accumulated / 1000);
      if value < 1 || value <= client.acknowledged { return None; }
      return Some(value);
    }

    /** The `.then` of a request. */
    method Acknowledge(value: int)
      modifies this
      ensures client == old(client).(acknowledged := Max(old(client).acknowledged, value))
    {
      client := client.(acknowledged := Max(client.acknowledged, value));
    }

    /** `onVisibilityChange`, run as the document's visibility becomes `visible`. */
    method VisibilityChanged(visible: bool, now: int) returns (post: Option<int>)
      modifies this
      ensures client == (if !visible then Flushed(old(client).(visible := false), now, true)
                         else old(client).(visible := true,
                             since := if old(client).since.None? then Some(now) else old(client).since))
      ensures post == if !visible then Posted(client) else None
    {
      client := client.(visible := visible);
      post := None;
      if !visible {
        post := Flush(true, now);
      } else if client.since.None? {
        client := client.(since := Some(now));
      }
    }
  }

  // ---------------------------------------------------------------- the whole system

  /**
   * `sent` and `delivered` are all values ever posted and ever merged; `shown` is the true visible time and
   * `unwatched` the part of it that passed while the effect was not counting.
   */
  datatype World = World(
    client: Client, now: int, sent: set<int>, delivered: set<int>, server: int, shown: int, unwatched: int)

  datatype Step =
    | Tick(ms: nat)
    | Hide
    | Show
    | PageHide            // also the clean-up of the effect
    | Checkpoint
    | Deliver(value: int)  // any posted value, any number of times
    | Acknowledge(value: int)

  function Start(visible: bool): World {
    World(Client(visible, if visible then Some(0) else None, 0, 0), 0, {}, {}, 0, 0, 0)
  }

  predicate Enabled(w: World, step: Step) {
    match step
    case Deliver(v) => v in w.sent
    case Acknowledge(v) => v in w.delivered
    case _ => true
  }

  function AfterFlush(w: World, visible: bool, stop: bool): World {
    var client := Flushed(w.client.(visible := visible), w.now, stop);
    w.(client := client, sent := w.sent + match Posted(client) case None => {} case Some(v) => {v})
  }

  function Next(w: World, step: Step): World {
    match step
    case Tick(ms) =>
      w.(now := w.now + ms, shown := w.shown + (if w.client.visible then ms else 0),
         unwatched := w.unwatched + if w.client.visible && w.client.since.None? then ms else 0)
    case Hide => AfterFlush(w, false, true)
    case Show =>
      w.(client := w.client.(visible := true, since := if w.client.since.None? then Some(w.now) else w.client.since))
    case PageHide => AfterFlush(w, w.client.visible, true)
    case Checkpoint => AfterFlush(w, w.client.visible, false)
    case Deliver(v) => w.(server := Max(w.server, v), delivered := w.delivered + {v})
    case Acknowledge(v) => w.(client := w.client.(acknowledged := Max(w.client.acknowledged, v)))
  }

  /** What every run keeps. */
  ghost predicate Honest(w: World) {
    && (w.client.since.Some? ==> w.client.visible && w.client.since.value <= w.now)
    && 0 <= w.client.accumulated && 0 <= w.unwatched
    && w.client.accumulated + Pending(w.client, w.now) + w.unwatched == w.shown
    && (forall v :: v in w.sent ==> 1 <= v <= AbsoluteSec(w.client.accumulated))
    && w.delivered <= w.sent
    && (forall v :: v in w.delivered ==> v <= w.server)
    && (w.server == 0 || w.server in w.delivered)
    && 0 <= w.client.acknowledged <= w.server
  }

  lemma StepKeepsHonest(w: World, step: Step)
    requires Honest(w) && Enabled(w, step)
    ensures Honest(Next(w, step)) && w.server <= Next(w, step).server && w.sent <= Next(w, step).sent
  {
    if step.Hide? || step.PageHide? || step.Checkpoint? {
      Monotone(w.client.accumulated, w.client.accumulated + Pending(w.client, w.now));
    }
  }

  lemma Monotone(a: int, b: int)
    requires a <= b
    ensures AbsoluteSec(a) <= AbsoluteSec(b)
  {}

  ghost predicate IsRun(worlds: seq<World>, steps: seq<Step>) {
    |worlds| == |steps| + 1 && (worlds[0] == Start(true) || worlds[0] == Start(false)) &&
    forall n :: 0 <= n < |steps| ==> Enabled(worlds[n], steps[n]) && worlds[n + 1] == Next(worlds[n], steps[n])
  }

  lemma {:induction false} RunKeepsHonest(worlds: seq<World>, steps: seq<Step>, n: nat)
    requires IsRun(worlds, steps) && n < |worlds|
    ensures Honest(worlds[n])
    decreases n
  {
    hide Next, Enabled, Honest;
    if n > 0 {
      RunKeepsHonest(worlds, steps, n - 1);
      assert worlds[n - 1 + 1] == Next(worlds[n - 1], steps[n - 1]);
      StepKeepsHonest(worlds[n - 1], steps[n - 1]);
    } else {
      StartIsHonest(true);
      StartIsHonest(false);
    }
  }

  lemma StartIsHonest(visible: bool)
    ensures Honest(Start(visible))
  {}

  /**
   * Whatever is lost, repeated or reordered, the server never holds more than the time the page was really
   * visible, nor more than a day, and never less than what it has acknowledged.
   */
  lemma ServerIsBounded(worlds: seq<World>, steps: seq<Step>, n: nat)
    requires IsRun(worlds, steps) && n < |worlds|
    ensures worlds[n].client.acknowledged <= worlds[n].server <= Min(CAP_SEC, worlds[n].shown / 1000)
  {
    RunKeepsHonest(worlds, steps, n);
    Monotone(worlds[n].client.accumulated, worlds[n].shown);
  }

  /** The server's value never goes down. */
  lemma {:induction false} ServerIsMonotone(worlds: seq<World>, steps: seq<Step>, m: nat, n: nat)
    requires IsRun(worlds, steps) && m <= n < |worlds|
    ensures worlds[m].server <= worlds[n].server && worlds[m].sent <= worlds[n].sent
    decreases n
  {
    hide Next, Enabled;
    if m < n {
      ServerIsMonotone(worlds, steps, m, n - 1);
      RunKeepsHonest(worlds, steps, n - 1);
      assert worlds[n - 1 + 1] == Next(worlds[n - 1], steps[n - 1]);
      StepKeepsHonest(worlds[n - 1], steps[n - 1]);
    }
  }

  /** Once a flush has posted a value, its delivery makes good for everything lost before it. */
  lemma LatestRepairs(worlds: seq<World>, steps: seq<Step>, n: nat, k: nat)
    requires IsRun(worlds, steps) && n < k < |worlds|
    requires steps[n] == Hide || steps[n] == PageHide || steps[n] == Checkpoint
    requires Posted(worlds[n + 1].client).Some? && Posted(worlds[n + 1].client).value in worlds[k].delivered
    ensures var sent, server := worlds[n + 1].sent, worlds[k].server; forall v :: v in sent ==> v <= server
    ensures worlds[k].server >= Min(CAP_SEC, (worlds[n + 1].shown - worlds[n + 1].unwatched) / 1000)
  {
    RunKeepsHonest(worlds, steps, n + 1);
    RunKeepsHonest(worlds, steps, k);
    assert worlds[n + 1] == Next(worlds[n], steps[n]);
    assert Pending(worlds[n + 1].client, worlds[n + 1].now) == 0;
  }

  /** A flush posts nothing only when the server already holds the value, or it is less than a second. */
  lemma SilentFlushLosesNothing(worlds: seq<World>, steps: seq<Step>, n: nat)
    requires IsRun(worlds, steps) && n < |steps|
    requires steps[n] == Hide || steps[n] == PageHide || steps[n] == Checkpoint
    ensures var w := worlds[n + 1];
            var due := Min(CAP_SEC, (w.shown - w.unwatched) / 1000);
            due in w.sent || due <= w.server
  {
    RunKeepsHonest(worlds, steps, n + 1);
    assert worlds[n + 1] == Next(worlds[n], steps[n]);
    assert Pending(worlds[n + 1].client, worlds[n + 1].now) == 0;
  }

  // ---------------------------------------------------------------- the same told from the steps alone

  /** Whether the document is visible after these steps. */
  function IsShown(visible: bool, steps: seq<Step>): bool {
    if steps == [] then visible
    else
      match steps[|steps| - 1]
      case Hide => false
      case Show => true
      case _ => IsShown(visible, steps[..|steps| - 1])
  }

  /** Whether the time is being counted: a PageHide stops it, the next Show or Checkpoint takes it up again. */
  function IsCounted(visible: bool, steps: seq<Step>): bool {
    if steps == [] then visible
    else
      match steps[|steps| - 1]
      case Hide => false
      case PageHide => false
      case Show => true
      case Checkpoint => IsShown(visible, steps[..|steps| - 1])
      case _ => IsCounted(visible, steps[..|steps| - 1])
  }

  /** Milliseconds the document has been visible. */
  function ShownMs(visible: bool, steps: seq<Step>): nat {
    if steps == [] then 0
    else
      var before, last := steps[..|steps| - 1], steps[|steps| - 1];
      ShownMs(visible, before) + if last.Tick? && IsShown(visible, before) then last.ms else 0
  }

  /** Milliseconds that have been counted. */
  function CountedMs(visible: bool, steps: seq<Step>): nat {
    if steps == [] then 0
    else
      var before, last := steps[..|steps| - 1], steps[|steps| - 1];
      CountedMs(visible, before) + if last.Tick? && IsCounted(visible, before) then last.ms else 0
  }

  /** What a flush owes the server: the whole seconds counted, up to the 86 400 of a day. */
  function Due(visible: bool, steps: seq<Step>): nat {
    var seconds := CountedMs(visible, steps) / 1000;
    if seconds > 86_400 then 86_400 else seconds
  }

  /** The largest value the server has confirmed. */
  function Confirmed(steps: seq<Step>): int {
    if steps == [] then 0
    else
      var before, last := Confirmed(steps[..|steps| - 1]), steps[|steps| - 1];
      if last.Acknowledge? && last.value > before then last.value else before
  }

  /** The largest value that has arrived. */
  function Arrived(steps: seq<Step>): int {
    if steps == [] then 0
    else
      var before, last := Arrived(steps[..|steps| - 1]), steps[|steps| - 1];
      if last.Deliver? && last.value > before then last.value else before
  }

  /** Step `k` is one of the three flushes, and the value due then was at least a second and not yet confirmed. */
  ghost predicate PostsAt(visible: bool, steps: seq<Step>, k: nat, value: int)
    requires k < |steps|
  {
    (steps[k] == Hide || steps[k] == PageHide || steps[k] == Checkpoint) &&
    value == Due(visible, steps[..k]) && value >= 1 && value > Confirmed(steps[..k])
  }

  ghost predicate RunsFrom(worlds: seq<World>, steps: seq<Step>, visible: bool) {
    IsRun(worlds, steps) && worlds[0] == Start(visible)
  }

  /** The effect's variables and the true times are what the steps say. */
  ghost predicate Tells(w: World, visible: bool, steps: seq<Step>) {
    && w.client.visible == IsShown(visible, steps)
    && (w.client.since.Some? <==> IsCounted(visible, steps))
    && w.client.accumulated + Pending(w.client, w.now) == CountedMs(visible, steps)
    && w.shown == ShownMs(visible, steps) && w.unwatched == ShownMs(visible, steps) - CountedMs(visible, steps)
    && w.client.acknowledged == Confirmed(steps) && w.server == Arrived(steps)
    && (forall v :: v in w.delivered <==> exists k :: 0 <= k < |steps| && steps[k] == Deliver(v))
  }

  lemma CountedIsShown(visible: bool, steps: seq<Step>)
    ensures IsCounted(visible, steps) ==> IsShown(visible, steps)
  {}

  lemma TellsStep(w: World, visible: bool, before: seq<Step>, step: Step)
    requires Tells(w, visible, before) && Honest(w) && Enabled(w, step)
    ensures Tells(Next(w, step), visible, before + [step])
  {
    var steps := before + [step];
    assert steps[..|steps| - 1] == before && steps[|steps| - 1] == step;
    CountedIsShown(visible, before);
    forall v
      ensures (exists k :: 0 <= k < |steps| && steps[k] == Deliver(v))
              <==> (exists k :: 0 <= k < |before| && before[k] == Deliver(v)) || step == Deliver(v)
    {
      if step == Deliver(v) { assert steps[|before|] == Deliver(v); }
      if k :| 0 <= k < |before| && before[k] == Deliver(v) { assert steps[k] == Deliver(v); }
    }
  }

  /** In every run all of this is exact: what is counted, what is confirmed, what the server holds. */
  lemma {:induction false} RunIsTold(worlds: seq<World>, steps: seq<Step>, visible: bool, n: nat)
    requires RunsFrom(worlds, steps, visible) && n < |worlds|
    ensures Tells(worlds[n], visible, steps[..n])
    decreases n
  {
    hide Next, Enabled, Honest, Tells;
    if n == 0 {
      assert Tells(Start(visible), visible, steps[..0]) by { StartIsTold(visible); }
    } else {
      RunIsTold(worlds, steps, visible, n - 1);
      RunKeepsHonest(worlds, steps, n - 1);
      TellsStep(worlds[n - 1], visible, steps[..n - 1], steps[n - 1]);
      assert steps[..n] == steps[..n - 1] + [steps[n - 1]];
      assert worlds[n - 1 + 1] == Next(worlds[n - 1], steps[n - 1]);
    }
  }

  lemma StartIsTold(visible: bool)
    ensures Tells(Start(visible), visible, [])
  {}

  lemma PostedIsDue(w: World, visible: bool, before: seq<Step>, shown: bool, stop: bool)
    requires Tells(w, visible, before)
    ensures var due := Due(visible, before);
            Posted(Flushed(w.client.(visible := shown), w.now, stop))
            == if due >= 1 && due > Confirmed(before) then Some(due) else None
  {
    hide IsShown, IsCounted, CountedMs, ShownMs, Confirmed, Arrived;
  }

  lemma SentStep(w: World, visible: bool, before: seq<Step>, step: Step, v: int)
    requires Tells(w, visible, before) && Honest(w) && Enabled(w, step)
    ensures v in Next(w, step).sent <==> v in w.sent || PostsAt(visible, before + [step], |before|, v)
  {
    hide Flushed, Posted, Due, Tells, Confirmed, Honest;
    assert (before + [step])[..|before|] == before && (before + [step])[|before|] == step;
    PostedIsDue(w, visible, before, if step.Hide? then false else w.client.visible, !step.Checkpoint?);
  }

  /** What is posted is exactly what is due and unconfirmed at a flush, neither more nor less. */
  lemma {:induction false} PostedIff(worlds: seq<World>, steps: seq<Step>, visible: bool, n: nat, v: int)
    requires RunsFrom(worlds, steps, visible) && n < |worlds|
    ensures v in worlds[n].sent <==> exists k :: 0 <= k < n && PostsAt(visible, steps, k, v)
    decreases n
  {
    hide Next, Enabled, Honest, Tells, PostsAt;
    if n > 0 {
      PostedIff(worlds, steps, visible, n - 1, v);
      RunIsTold(worlds, steps, visible, n - 1);
      RunKeepsHonest(worlds, steps, n - 1);
      SentStep(worlds[n - 1], visible, steps[..n - 1], steps[n - 1], v);
      PostsPrefix(visible, steps, n - 1, v);
      assert worlds[n - 1 + 1] == Next(worlds[n - 1], steps[n - 1]);
    }
  }

  lemma PostsPrefix(visible: bool, steps: seq<Step>, k: nat, v: int)
    requires k < |steps|
    ensures PostsAt(visible, steps[..k] + [steps[k]], k, v) <==> PostsAt(visible, steps, k, v)
  {
    assert (steps[..k] + [steps[k]])[..k] == steps[..k];
  }

  /** Without a PageHide all visible time is counted. */
  lemma {:induction false} AllShownIsCounted(visible: bool, steps: seq<Step>)
    requires PageHide !in steps
    ensures CountedMs(visible, steps) == ShownMs(visible, steps)
    ensures IsCounted(visible, steps) <==> IsShown(visible, steps)
    decreases |steps|
  {
    if steps != [] {
      AllShownIsCounted(visible, steps[..|steps| - 1]);
    }
  }

  /** So every flush leaves the whole seconds of the true visible time posted or on the server, if there are any. */
  lemma FlushReportsShownTime(worlds: seq<World>, steps: seq<Step>, visible: bool, n: nat)
    requires RunsFrom(worlds, steps, visible) && n < |steps| && PageHide !in steps[..n]
    requires steps[n] == Hide || steps[n] == PageHide || steps[n] == Checkpoint
    ensures var seconds := ShownMs(visible, steps[..n]) / 1000;
            var due := if seconds > 86_400 then 86_400 else seconds;
            due in worlds[n + 1].sent || due <= worlds[n + 1].server
  {
    AllShownIsCounted(visible, steps[..n]);
    var due := Due(visible, steps[..n]);
    PostedIff(worlds, steps, visible, n + 1, due);
    RunIsTold(worlds, steps, visible, n);
    ServerIsBounded(worlds, steps, n);
    ServerIsMonotone(worlds, steps, n, n + 1);
    RunKeepsHonest(worlds, steps, n);
    assert worlds[n].client.acknowledged == Confirmed(steps[..n]);
    assert due >= 1 && due > Confirmed(steps[..n]) ==> PostsAt(visible, steps, n, due);
  }

  /** Every message delivered was posted before, and every one confirmed was delivered. */
  predicate Possible(visible: bool, steps: seq<Step>) {
    steps == [] ||
    (Possible(visible, steps[..|steps| - 1])
     && Enabled(WorldAfter(visible, steps[..|steps| - 1]), steps[|steps| - 1]))
  }

  function WorldAfter(visible: bool, steps: seq<Step>): World {
    if steps == [] then Start(visible) else Next(WorldAfter(visible, steps[..|steps| - 1]), steps[|steps| - 1])
  }

  /** Every possible sequence of steps has its run. */
  lemma {:induction false} RunExists(visible: bool, steps: seq<Step>) returns (worlds: seq<World>)
    requires Possible(visible, steps)
    ensures RunsFrom(worlds, steps, visible) && worlds[|steps|] == WorldAfter(visible, steps)
    decreases |steps|
  {
    hide Next, Enabled, Start;
    if steps == [] {
      worlds := [Start(visible)];
      assert visible == true || visible == false;
    } else {
      var before, last := steps[..|steps| - 1], steps[|steps| - 1];
      worlds := RunExists(visible, before);
      worlds := worlds + [Next(worlds[|before|], last)];
    }
  }

  lemma OneStepOn(visible: bool, before: seq<Step>, step: Step)
    ensures WorldAfter(visible, before + [step]) == Next(WorldAfter(visible, before), step)
    ensures Possible(visible, before + [step])
            <==> Possible(visible, before) && Enabled(WorldAfter(visible, before), step)
    ensures WorldAfter(visible, []) == Start(visible) && Possible(visible, [])
  {
    assert (before + [step])[..|before|] == before;
  }

  /** A minute in front of the page: 30 posted at the checkpoint, 60 on hiding, and 60 confirmed in the end. */
  lemma MinuteOfReading()
    ensures var steps := [Tick(30_000), Checkpoint, Tick(30_999), Hide, Deliver(60), Acknowledge(60)];
            Possible(true, steps) &&
            WorldAfter(true, steps) == World(Client(false, None, 60_999, 60), 60_999, {30, 60}, {60}, 60, 60_999, 0)
  {
    hide Next, Enabled, Possible, WorldAfter, Start;
    var s1, s2, s3 := [Tick(30_000)], [Tick(30_000), Checkpoint], [Tick(30_000), Checkpoint, Tick(30_999)];
    var s4 := [Tick(30_000), Checkpoint, Tick(30_999), Hide];
    var s5 := s4 + [Deliver(60)];
    OneStepOn(true, [], Tick(30_000));
    OneStepOn(true, s1, Checkpoint);
    OneStepOn(true, s2, Tick(30_999));
    OneStepOn(true, s3, Hide);
    OneStepOn(true, s4, Deliver(60));
    OneStepOn(true, s5, Acknowledge(60));
    assert [] + [Tick(30_000)] == s1 && s1 + [Checkpoint] == s2 && s2 + [Tick(30_999)] == s3 && s3 + [Hide] == s4;
    assert s5 + [Acknowledge(60)] == [Tick(30_000), Checkpoint, Tick(30_999), Hide, Deliver(60), Acknowledge(60)];
    var w2 := World(Client(true, Some(30_000), 30_000, 0), 30_000, {30}, {}, 0, 30_000, 0);
    FirstHalf(Start(true), World(Client(true, Some(0), 0, 0), 30_000, {}, {}, 0, 30_000, 0), w2);
    SecondHalf(w2, World(Client(true, Some(30_000), 30_000, 0), 60_999, {30}, {}, 0, 60_999, 0),
               World(Client(false, None, 60_999, 0), 60_999, {30, 60}, {}, 0, 60_999, 0));
    LastTwoSteps();
  }

  lemma FirstHalf(w0: World, w1: World, w2: World)
    requires w0 == Start(true) && w1 == World(Client(true, Some(0), 0, 0), 30_000, {}, {}, 0, 30_000, 0)
    requires w2 == World(Client(true, Some(30_000), 30_000, 0), 30_000, {30}, {}, 0, 30_000, 0)
    ensures Next(w0, Tick(30_000)) == w1 && Enabled(w0, Tick(30_000))
    ensures Next(w1, Checkpoint) == w2 && Enabled(w1, Checkpoint)
  {}

  lemma SecondHalf(w2: World, w3: World, w4: World)
    requires w2 == World(Client(true, Some(30_000), 30_000, 0), 30_000, {30}, {}, 0, 30_000, 0)
    requires w3 == World(Client(true, Some(30_000), 30_000, 0), 60_999, {30}, {}, 0, 60_999, 0)
    requires w4 == World(Client(false, None, 60_999, 0), 60_999, {30, 60}, {}, 0, 60_999, 0)
    ensures Next(w2, Tick(30_999)) == w3 && Enabled(w2, Tick(30_999))
    ensures Next(w3, Hide) == w4 && Enabled(w3, Hide)
  {
    assert 60_999 / 1000 == 60;
  }

  lemma LastTwoSteps()
    ensures var w4 := World(Client(false, None, 60_999, 0), 60_999, {30, 60}, {}, 0, 60_999, 0);
            var w5 := World(Client(false, None, 60_999, 0), 60_999, {30, 60}, {60}, 60, 60_999, 0);
            Enabled(w4, Deliver(60)) && Next(w4, Deliver(60)) == w5 && Enabled(w5, Acknowledge(60))
            && Next(w5, Acknowledge(60))
               == World(Client(false, None, 60_999, 60), 60_999, {30, 60}, {60}, 60, 60_999, 0)
  {}
}
