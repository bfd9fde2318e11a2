/**
 Bounded detection: if ticks come at most `bound` apart, a device that stops
 answering is offline within one slow gap, one fast gap for each further failure
 the threshold asks for, and the final tick.
 */
module Detection {
  import opened Basics
  import opened Devices
  import opened History
  import opened Monitor
  import opened Scheduler

  /** One turn of the ping loop; routes run between two rounds. */
  datatype Round = Round(before: Collector, tick: Tick, after: Collector)

  ghost predicate IsTrace(cfg: Settings, hash: Id -> int, bound: int, tr: seq<Round>)
    requires cfg.slowInterval > 0
  {
    && |tr| > 0
    && tr[0].before.plan == Plan(map[], map[])
    && (forall k :: 0 <= k < |tr| ==>
          && ProperTick(AtTickStart(cfg, tr[k].before, hash, tr[k].tick.now).plan, tr[k].tick)
          && tr[k].after == AfterTick(cfg, tr[k].before, hash, tr[k].tick)
          && tr[k].tick.after <= tr[k].tick.now + bound)
    && (forall k :: 0 < k < |tr| ==>
          && tr[k].before.plan == tr[k - 1].after.plan
          && tr[k - 1].tick.after <= tr[k].tick.now <= tr[k - 1].tick.now + bound)
  }

  /** What the steps between two ticks may do to a device that stays down. */
  ghost predicate StillDown(cfg: Settings, s: State, s': State, id: Id) {
    && id in s.devices && id in s'.devices
    && (s.devices[id].enabled ==> s'.devices[id].enabled)
    && Min(s.devices[id].failures, cfg.flapThreshold) <= Min(s'.devices[id].failures, cfg.flapThreshold)
    && (s.devices[id].status == Offline ==> s'.devices[id].status == Offline)
  }

  /** The steps that can hide an outage of id from the scheduler. */
  predicate Revives(op: Op, id: Id) {
    match op
    case Simulate(x, online, _) => x == id && online
    case Check(x, _, _, _) => x == id
    case Delete(x) => x == id
    case Update(x, patch) => x == id && patch.enabled == Given(false)
    case _ => false
  }

  /** Every other route or alert cycle leaves the outage as far along as it was. */
  lemma OthersKeepDown(cfg: Settings, s: State, op: Op, id: Id)
    requires id in s.devices && !Revives(op, id)
    ensures StillDown(cfg, s, Step(cfg, s, op), id)
  {
    hide AfterAlertCycle, ParentVerdict, TakenIp, Serialize, EdgeEvent, StatusAfterCheck;
    if op.AlertCycle? {
      CycleKeepsDown(cfg, s, op.at, id);
    }
  }

  lemma CycleKeepsDown(cfg: Settings, s: State, at: int, id: Id)
    requires id in s.devices
    ensures StillDown(cfg, s, AfterAlertCycle(cfg, s, at), id)
  {
    hide Alerted;
    TurnKeepsShape(cfg, s.devices[id], ParentOffline(s.devices, s.devices[id]), at);
  }

  lemma {:induction false} RunKeepsDown(cfg: Settings, s: State, ops: seq<Op>, id: Id)
    requires id in s.devices && forall k :: 0 <= k < |ops| ==> !Revives(ops[k], id)
    ensures StillDown(cfg, s, Run(cfg, s, ops), id)
  {
    hide Step;
    if ops != [] {
      var init := ops[..|ops| - 1];
      RunKeepsDown(cfg, s, init, id);
      OthersKeepDown(cfg, Run(cfg, s, init), ops[|ops| - 1], id);
    }
  }

  /** A failure counter no probe or simulate call could have driven below its start. */
  predicate CounterSane(cfg: Settings, d: Device) {
    Min(d.failures, cfg.flapThreshold) >= Min(0, cfg.flapThreshold)
  }

  ghost predicate AllSane(cfg: Settings, s: State) {
    forall id :: id in s.devices ==> CounterSane(cfg, s.devices[id])
  }

  lemma StepKeepsSane(cfg: Settings, s: State, op: Op)
    requires AllSane(cfg, s)
    ensures AllSane(cfg, Step(cfg, s, op))
  {
    hide ParentVerdict, TakenIp, Serialize, EdgeEvent, OutageStartedAt;
  }

  lemma {:induction false} RunKeepsSane(cfg: Settings, s: State, ops: seq<Op>)
    requires AllSane(cfg, s)
    ensures AllSane(cfg, Run(cfg, s, ops))
  {
    hide Step, AllSane;
    if ops != [] {
      RunKeepsSane(cfg, s, ops[..|ops| - 1]);
      StepKeepsSane(cfg, Run(cfg, s, ops[..|ops| - 1]), ops[|ops| - 1]);
    }
  }

  /** The tick's check of id gets no reply, and its commit goes through. */
  predicate Fails(t: Tick, id: Id) {
    id in t.results && !t.results[id].alive && t.results[id].committed
  }

  /** From tick i on, id is enabled and every check of it fails. */
  ghost predicate DownFrom(cfg: Settings, tr: seq<Round>, i: nat, id: Id)
    requires i < |tr|
  {
    && (forall k :: i <= k < |tr| ==>
          && id in tr[k].before.state.devices && tr[k].before.state.devices[id].enabled
          && (id in tr[k].tick.order ==> Fails(tr[k].tick, id)))
    && CounterSane(cfg, tr[i].before.state.devices[id])
    && (forall k :: i < k < |tr| ==> StillDown(cfg, tr[k - 1].after.state, tr[k].before.state, id))
  }

  // ---- One tick, seen from one device ----

  lemma {:induction false} ChecksElsewhere(cfg: Settings, c: Collector, order: seq<Id>, results: map<Id, Probe>, id: Id)
    requires id !in order
    ensures var c' := AfterChecks(cfg, c, order, results);
      && (id in c'.state.devices <==> id in c.state.devices)
      && (id in c.state.devices ==> c'.state.devices[id] == c.state.devices[id])
      && (id in c'.plan.volatileUntil <==> id in c.plan.volatileUntil)
      && (id in c.plan.volatileUntil ==> c'.plan.volatileUntil[id] == c.plan.volatileUntil[id])
  {
    if order != [] {
      ChecksElsewhere(cfg, c, order[..|order| - 1], results, id);
    }
  }

  lemma {:induction false} FailedCheck(cfg: Settings, c: Collector, order: seq<Id>, results: map<Id, Probe>, id: Id)
    requires Distinct(order) && id in order
    requires id in c.state.devices && c.state.devices[id].enabled
    requires id in results && !results[id].alive && results[id].committed
    ensures var c', p := AfterChecks(cfg, c, order, results), results[id];
      && id in c'.state.devices
      && c'.state.devices[id] == Checked(cfg, c.state.devices[id], false, p.service, p.at)
      && id in c'.plan.volatileUntil
      && c'.plan.volatileUntil[id] == p.mono + cfg.volatileWindow
  {
    var init, last := order[..|order| - 1], order[|order| - 1];
    if last == id {
      ChecksElsewhere(cfg, c, init, results, id);
    } else {
      FailedCheck(cfg, c, init, results, id);
    }
  }

  /** A device that is down: a due check fails once and is retried at the fast cadence. */
  lemma DownTick(cfg: Settings, c: Collector, hash: Id -> int, t: Tick, bound: int, id: Id)
    requires cfg.slowInterval > 0 && bound < cfg.volatileWindow
    requires id in c.state.devices && c.state.devices[id].enabled
    requires ProperTick(AtTickStart(cfg, c, hash, t.now).plan, t) && t.after <= t.now + bound
    requires id in t.order ==> Fails(t, id)
    ensures var c0, c' := AtTickStart(cfg, c, hash, t.now), AfterTick(cfg, c, hash, t);
      && id in c0.plan.due && id in c'.plan.due && id in c'.state.devices
      && c'.state.devices[id].enabled
      && (c0.plan.due[id] > t.now ==>
            c'.state.devices[id] == c.state.devices[id] && c'.plan.due[id] == c0.plan.due[id])
      && (c0.plan.due[id] <= t.now ==>
            && c'.state.devices[id].failures == c.state.devices[id].failures + 1
            && (c'.state.devices[id].status == Offline <==> c'.state.devices[id].failures >= cfg.flapThreshold)
            && c'.plan.due[id] == t.after + cfg.fastInterval)
  {
    var c0 := AtTickStart(cfg, c, hash, t.now);
    assert id in c0.plan.due;
    assert id in Elements(t.order) <==> c0.plan.due[id] <= t.now;
    ChecksKeepDue(cfg, c0, t.order, t.results);
    if c0.plan.due[id] <= t.now {
      FailedCheck(cfg, c0, t.order, t.results, id);
    } else {
      ChecksElsewhere(cfg, c0, t.order, t.results, id);
    }
  }

  // ---- The schedule never runs ahead ----

  function LongestInterval(cfg: Settings): int {
    Max(cfg.slowInterval, cfg.fastInterval)
  }

  ghost predicate DueWithin(plan: Plan, latest: int) {
    forall id :: id in plan.due ==> plan.due[id] <= latest
  }

  lemma TickKeepsDueWithin(cfg: Settings, c: Collector, hash: Id -> int, t: Tick)
    requires cfg.slowInterval > 0
    requires DueWithin(c.plan, t.now + LongestInterval(cfg)) && t.now <= t.after
    ensures DueWithin(AtTickStart(cfg, c, hash, t.now).plan, t.now + LongestInterval(cfg))
    ensures DueWithin(AfterTick(cfg, c, hash, t).plan, t.after + LongestInterval(cfg))
  {
    ChecksKeepDue(cfg, AtTickStart(cfg, c, hash, t.now), t.order, t.results);
  }

  lemma {:induction false} TraceDueWithin(cfg: Settings, hash: Id -> int, bound: int, tr: seq<Round>, k: nat)
    requires cfg.slowInterval > 0 && IsTrace(cfg, hash, bound, tr) && k < |tr|
    ensures DueWithin(tr[k].before.plan, tr[k].tick.now + LongestInterval(cfg))
  {
    if k > 0 {
      TraceDueWithin(cfg, hash, bound, tr, k - 1);
      TickKeepsDueWithin(cfg, tr[k - 1].before, hash, tr[k - 1].tick);
    }
  }

  // ---- Counting failures against the clock ----

  /** One fast gap: the interval, the tick that notices it, the tick that ran before it. */
  function FastGap(cfg: Settings, bound: int): int {
    cfg.fastInterval + 2 * bound
  }

  /** Latest time at which the check after n failures falls due, for an outage noticed from x on. */
  function DueAfter(cfg: Settings, bound: int, x: int, n: nat): int {
    x + bound + LongestInterval(cfg) + n * FastGap(cfg, bound)
  }

  function Needed(cfg: Settings): int {
    Max(cfg.flapThreshold, 1)
  }

  /** After a tick that started at now: n failures since x, and the next check is not late. */
  ghost predicate Progress(cfg: Settings, bound: int, x: int, c: Collector, id: Id, now: int, n: nat) {
    && id in c.state.devices && c.state.devices[id].enabled && id in c.plan.due
    && now < c.plan.due[id]
    && Min(c.state.devices[id].failures, cfg.flapThreshold) >= Min(n, cfg.flapThreshold)
    && (n >= Needed(cfg) ==> c.state.devices[id].status == Offline)
    && (n < Needed(cfg) ==> c.plan.due[id] <= DueAfter(cfg, bound, x, n))
  }

  lemma NextGap(cfg: Settings, bound: int, x: int, n: nat)
    ensures DueAfter(cfg, bound, x, n + 1) == DueAfter(cfg, bound, x, n) + FastGap(cfg, bound)
  {
    assert (n + 1) * FastGap(cfg, bound) == n * FastGap(cfg, bound) + FastGap(cfg, bound);
  }

  lemma {:induction false} GapsAddUp(cfg: Settings, bound: int, x: int, m: nat, n: nat)
    requires m <= n && FastGap(cfg, bound) >= 0
    ensures DueAfter(cfg, bound, x, m) <= DueAfter(cfg, bound, x, n)
    decreases n
  {
    if m < n {
      GapsAddUp(cfg, bound, x, m, n - 1);
      NextGap(cfg, bound, x, n - 1);
    }
  }

  /** A tick makes progress: either it is not time yet, or one more failure is counted. */
  lemma TickProgress(cfg: Settings, hash: Id -> int, bound: int, x: int, c: Collector, t: Tick, id: Id, n: nat)
    requires cfg.slowInterval > 0 && cfg.fastInterval > 0 && 0 <= bound < cfg.volatileWindow
    requires id in c.state.devices && c.state.devices[id].enabled
    requires ProperTick(AtTickStart(cfg, c, hash, t.now).plan, t) && t.after <= t.now + bound
    requires id in t.order ==> Fails(t, id)
    requires Min(c.state.devices[id].failures, cfg.flapThreshold) >= Min(n, cfg.flapThreshold)
    requires n >= Needed(cfg) ==> c.state.devices[id].status == Offline
    requires id in AtTickStart(cfg, c, hash, t.now).plan.due
    requires n < Needed(cfg) ==>
      && AtTickStart(cfg, c, hash, t.now).plan.due[id] <= DueAfter(cfg, bound, x, n)
      && t.now <= DueAfter(cfg, bound, x, n) + bound
    ensures exists m: nat :: Progress(cfg, bound, x, AfterTick(cfg, c, hash, t), id, t.now, m)
  {
    hide AfterTick, AtTickStart, ProperTick, DueAfter;
    DownTick(cfg, c, hash, t, bound, id);
    var c0, c' := AtTickStart(cfg, c, hash, t.now), AfterTick(cfg, c, hash, t);
    assert t.now <= t.after by { TickEndsLater(cfg, c, hash, t); }
    if c0.plan.due[id] > t.now {
      assert Progress(cfg, bound, x, c', id, t.now, n);
    } else {
      NextGap(cfg, bound, x, n);
      assert Progress(cfg, bound, x, c', id, t.now, n + 1);
    }
  }

  lemma TickEndsLater(cfg: Settings, c: Collector, hash: Id -> int, t: Tick)
    requires cfg.slowInterval > 0 && ProperTick(AtTickStart(cfg, c, hash, t.now).plan, t)
    ensures t.now <= t.after
  {
  }

  lemma KeptDue(cfg: Settings, c: Collector, hash: Id -> int, now: int, id: Id)
    requires cfg.slowInterval > 0
    requires id in c.state.devices && c.state.devices[id].enabled
    ensures id in AtTickStart(cfg, c, hash, now).plan.due
    ensures id in c.plan.due ==> AtTickStart(cfg, c, hash, now).plan.due[id] == c.plan.due[id]
  {
  }

  /** What a trace says about one of its ticks. */
  lemma TraceAt(cfg: Settings, hash: Id -> int, bound: int, tr: seq<Round>, i: nat, id: Id, k: nat)
    requires cfg.slowInterval > 0 && IsTrace(cfg, hash, bound, tr)
    requires i < |tr| && DownFrom(cfg, tr, i, id) && i <= k < |tr|
    ensures ProperTick(AtTickStart(cfg, tr[k].before, hash, tr[k].tick.now).plan, tr[k].tick)
    ensures tr[k].after == AfterTick(cfg, tr[k].before, hash, tr[k].tick)
    ensures tr[k].tick.after <= tr[k].tick.now + bound
    ensures id in tr[k].before.state.devices && tr[k].before.state.devices[id].enabled
    ensures id in tr[k].tick.order ==> Fails(tr[k].tick, id)
    ensures i < k ==>
      && tr[k].before.plan == tr[k - 1].after.plan
      && tr[k].tick.now <= tr[k - 1].tick.now + bound
      && StillDown(cfg, tr[k - 1].after.state, tr[k].before.state, id)
  {
  }

  lemma FirstProgress(cfg: Settings, hash: Id -> int, bound: int, tr: seq<Round>, i: nat, x: int, id: Id)
    requires cfg.slowInterval > 0 && cfg.fastInterval > 0 && 0 <= bound < cfg.volatileWindow
    requires IsTrace(cfg, hash, bound, tr) && i < |tr|
    requires tr[i].tick.now <= x + bound && DownFrom(cfg, tr, i, id)
    ensures exists n: nat :: Progress(cfg, bound, x, tr[i].after, id, tr[i].tick.now, n)
  {
    var c, t := tr[i].before, tr[i].tick;
    TraceAt(cfg, hash, bound, tr, i, id, i);
    TraceDueWithin(cfg, hash, bound, tr, i);
    assert CounterSane(cfg, c.state.devices[id]);
    hide AtTickStart, AfterTick, ProperTick, Distinct, IsTrace, DownFrom, Progress;
    KeptDue(cfg, c, hash, t.now, id);
    TickEndsLater(cfg, c, hash, t);
    TickKeepsDueWithin(cfg, c, hash, t);
    TickProgress(cfg, hash, bound, x, c, t, id, 0);
  }

  lemma NextProgress(cfg: Settings, hash: Id -> int, bound: int, tr: seq<Round>, i: nat, x: int, id: Id, j: nat, n: nat)
    requires cfg.slowInterval > 0 && cfg.fastInterval > 0 && 0 <= bound < cfg.volatileWindow
    requires IsTrace(cfg, hash, bound, tr) && i < j < |tr| && DownFrom(cfg, tr, i, id)
    requires Progress(cfg, bound, x, tr[j - 1].after, id, tr[j - 1].tick.now, n)
    ensures exists m: nat :: Progress(cfg, bound, x, tr[j].after, id, tr[j].tick.now, m)
  {
    var c, t := tr[j].before, tr[j].tick;
    TraceAt(cfg, hash, bound, tr, i, id, j);
    assert Progress(cfg, bound, x, tr[j - 1].after, id, tr[j - 1].tick.now, n);
    hide AtTickStart, AfterTick, ProperTick, Distinct, IsTrace, DownFrom, DueAfter;
    KeptDue(cfg, c, hash, t.now, id);
    TickProgress(cfg, hash, bound, x, c, t, id, n);
  }

  lemma {:induction false} ProgressFrom(cfg: Settings, hash: Id -> int, bound: int, tr: seq<Round>, i: nat, x: int,
                                        id: Id, j: nat)
    requires cfg.slowInterval > 0 && cfg.fastInterval > 0 && 0 <= bound < cfg.volatileWindow
    requires IsTrace(cfg, hash, bound, tr) && i <= j < |tr|
    requires tr[i].tick.now <= x + bound && DownFrom(cfg, tr, i, id)
    ensures exists n: nat :: Progress(cfg, bound, x, tr[j].after, id, tr[j].tick.now, n)
    decreases j
  {
    hide Progress, DownFrom;
    if j == i {
      FirstProgress(cfg, hash, bound, tr, i, x, id);
    } else {
      ProgressFrom(cfg, hash, bound, tr, i, x, id, j - 1);
      var n: nat :| Progress(cfg, bound, x, tr[j - 1].after, id, tr[j - 1].tick.now, n);
      NextProgress(cfg, hash, bound, tr, i, x, id, j, n);
    }
  }

  /** When the last needed failure falls due. */
  function Deadline(cfg: Settings, bound: int, x: int): int {
    DueAfter(cfg, bound, x, Needed(cfg) - 1)
  }

  lemma PastDeadline(cfg: Settings, bound: int, x: int, c: Collector, id: Id, now: int, n: nat)
    requires Progress(cfg, bound, x, c, id, now, n)
    requires FastGap(cfg, bound) >= 0 && now >= Deadline(cfg, bound, x)
    ensures c.state.devices[id].status == Offline
  {
    if n < Needed(cfg) {
      GapsAddUp(cfg, bound, x, n, Needed(cfg) - 1);
    }
  }

  /** Every tick from the deadline on ends with the device offline. */
  lemma BoundedDetection(cfg: Settings, hash: Id -> int, bound: int, tr: seq<Round>, i: nat, x: int, id: Id, j: nat)
    requires cfg.slowInterval > 0 && cfg.fastInterval > 0 && 0 <= bound < cfg.volatileWindow
    requires IsTrace(cfg, hash, bound, tr) && i <= j < |tr|
    requires tr[i].tick.now <= x + bound && DownFrom(cfg, tr, i, id)
    requires tr[j].tick.now >= Deadline(cfg, bound, x)
    ensures id in tr[j].after.state.devices && tr[j].after.state.devices[id].status == Offline
  {
    hide IsTrace, DownFrom, Deadline;
    ProgressFrom(cfg, hash, bound, tr, i, x, id, j);
    var n: nat :| Progress(cfg, bound, x, tr[j].after, id, tr[j].tick.now, n);
    PastDeadline(cfg, bound, x, tr[j].after, id, tr[j].tick.now, n);
  }

  /** The promise in wall-clock terms: one slow gap, threshold - 1 fast gaps, one final tick. */
  lemma DetectedInTime(cfg: Settings, hash: Id -> int, bound: int, tr: seq<Round>, i: nat, x: int, id: Id)
    returns (j: nat)
    requires cfg.slowInterval > 0 && cfg.fastInterval > 0 && 0 <= bound < cfg.volatileWindow
    requires IsTrace(cfg, hash, bound, tr) && i < |tr|
    requires x <= tr[i].tick.now <= x + bound && DownFrom(cfg, tr, i, id)
    requires tr[|tr| - 1].tick.now >= Deadline(cfg, bound, x)
    ensures i <= j < |tr|
    ensures tr[j].tick.after <=
      x + (LongestInterval(cfg) + 2 * bound) + (Needed(cfg) - 1) * FastGap(cfg, bound) + bound
    ensures forall k :: j <= k < |tr| ==>
      id in tr[k].after.state.devices && tr[k].after.state.devices[id].status == Offline
  {
    j := FirstTickAt(cfg, hash, bound, tr, i, Deadline(cfg, bound, x));
    GapsAddUp(cfg, bound, x, 0, Needed(cfg) - 1);
    assert tr[j].tick.after <= tr[j].tick.now + bound;
    hide IsTrace, DownFrom;
    forall k | j <= k < |tr|
      ensures id in tr[k].after.state.devices && tr[k].after.state.devices[id].status == Offline
    {
      TicksInOrder(cfg, hash, bound, tr, j, k);
      BoundedDetection(cfg, hash, bound, tr, i, x, id, k);
    }
  }

  lemma {:induction false} TicksInOrder(cfg: Settings, hash: Id -> int, bound: int, tr: seq<Round>, a: nat, b: nat)
    requires cfg.slowInterval > 0 && IsTrace(cfg, hash, bound, tr) && a <= b < |tr|
    ensures tr[a].tick.now <= tr[b].tick.now
    decreases b
  {
    if a < b {
      TicksInOrder(cfg, hash, bound, tr, a, b - 1);
      TickEndsLater(cfg, tr[b - 1].before, hash, tr[b - 1].tick);
    }
  }

  /** The first tick from i on that starts at or after `time`: at most one tick late, or i itself. */
  lemma {:induction false} FirstTickAt(cfg: Settings, hash: Id -> int, bound: int, tr: seq<Round>, i: nat,
                                       time: int) returns (j: nat)
    requires cfg.slowInterval > 0 && IsTrace(cfg, hash, bound, tr) && i < |tr|
    requires tr[|tr| - 1].tick.now >= time
    ensures i <= j < |tr| && tr[j].tick.now >= time
    ensures j > i ==> tr[j].tick.now <= time + bound
    decreases |tr| - i
  {
    if tr[i].tick.now >= time {
      j := i;
    } else {
      j := FirstTickAt(cfg, hash, bound, tr, i + 1, time);
    }
  }

  // ---- Detection over the routes ----

  /**
   routes[k] are the steps taken before tick k. The first tick starts from a state
   the steps lead to from an empty installation, each later one from where the last
   tick and the steps since have led.
   */
  ghost predicate IsHistory(cfg: Settings, tr: seq<Round>, routes: seq<seq<Op>>) {
    && |routes| == |tr| > 0
    && tr[0].before.state == Run(cfg, EMPTY, routes[0])
    && forall k :: 0 < k < |tr| ==> tr[k].before.state == Run(cfg, tr[k - 1].after.state, routes[k])
  }

  /** From tick i on: id was enabled, no step revives, disables or deletes it, and every check of it fails. */
  ghost predicate Unanswered(tr: seq<Round>, routes: seq<seq<Op>>, i: nat, id: Id)
    requires i < |tr| == |routes|
  {
    && id in tr[i].before.state.devices && tr[i].before.state.devices[id].enabled
    && (forall k :: i <= k < |tr| && id in tr[k].tick.order ==>
          Fails(tr[k].tick, id))
    && (forall k, m :: i < k < |tr| && 0 <= m < |routes[k]| ==> !Revives(routes[k][m], id))
  }

  /** A check a tick commits, as a step. */
  function CheckOf(id: Id, results: map<Id, Probe>): seq<Op> {
    if id in results && results[id].committed then
      [Check(id, results[id].alive, results[id].service, results[id].at)]
    else []
  }

  function ChecksOf(order: seq<Id>, results: map<Id, Probe>): seq<Op> {
    if order == [] then [] else ChecksOf(order[..|order| - 1], results) + CheckOf(order[|order| - 1], results)
  }

  function AfterResult(cfg: Settings, c: Collector, id: Id, results: map<Id, Probe>): Collector {
    if id in results then AfterOneCheck(cfg, c, id, results[id]) else c
  }

  lemma RunAppend(cfg: Settings, s: State, ops: seq<Op>, op: Op)
    ensures Run(cfg, s, ops + [op]) == Step(cfg, Run(cfg, s, ops), op)
  {
    hide Step;
    assert (ops + [op])[..|ops|] == ops;
  }

  lemma ResultIsStep(cfg: Settings, c: Collector, id: Id, results: map<Id, Probe>, s: State, ops: seq<Op>)
    requires c.state == Run(cfg, s, ops)
    ensures AfterResult(cfg, c, id, results).state == Run(cfg, s, ops + CheckOf(id, results))
  {
    hide AfterCheck, Run;
    if id in results && results[id].committed {
      RunAppend(cfg, s, ops, Check(id, results[id].alive, results[id].service, results[id].at));
    } else {
      assert ops + [] == ops;
    }
  }

  lemma {:induction false} TickIsSteps(cfg: Settings, c: Collector, order: seq<Id>, results: map<Id, Probe>)
    ensures AfterChecks(cfg, c, order, results).state == Run(cfg, c.state, ChecksOf(order, results))
  {
    hide AfterOneCheck, CheckOf;
    if order != [] {
      var init, id := order[..|order| - 1], order[|order| - 1];
      TickIsSteps(cfg, c, init, results);
      ResultIsStep(cfg, AfterChecks(cfg, c, init, results), id, results, c.state, ChecksOf(init, results));
      hide Run;
    }
  }

  lemma TickKeepsSane(cfg: Settings, c: Collector, hash: Id -> int, t: Tick)
    requires cfg.slowInterval > 0 && AllSane(cfg, c.state)
    ensures AllSane(cfg, AfterTick(cfg, c, hash, t).state)
  {
    hide AllSane, AfterChecks, Run;
    TickIsSteps(cfg, AtTickStart(cfg, c, hash, t.now), t.order, t.results);
    RunKeepsSane(cfg, c.state, ChecksOf(t.order, t.results));
  }

  /** No tick takes an enabled device away. */
  lemma TickKeepsEnabled(cfg: Settings, c: Collector, hash: Id -> int, t: Tick, id: Id)
    requires cfg.slowInterval > 0 && id in c.state.devices && c.state.devices[id].enabled
    ensures var s' := AfterTick(cfg, c, hash, t).state;
      id in s'.devices && s'.devices[id].enabled
  {
    ChecksKeepDue(cfg, AtTickStart(cfg, c, hash, t.now), t.order, t.results);
  }

  /** How round k starts. */
  lemma HistoryAt(cfg: Settings, hash: Id -> int, bound: int, tr: seq<Round>, routes: seq<seq<Op>>, k: nat)
    requires cfg.slowInterval > 0 && IsTrace(cfg, hash, bound, tr) && IsHistory(cfg, tr, routes) && k < |tr|
    ensures k == 0 ==> tr[0].before.state == Run(cfg, EMPTY, routes[0])
    ensures k > 0 ==>
      && tr[k].before.state == Run(cfg, tr[k - 1].after.state, routes[k])
      && tr[k - 1].after == AfterTick(cfg, tr[k - 1].before, hash, tr[k - 1].tick)
  {
    hide Run, AfterTick, ProperTick, AtTickStart;
  }

  lemma RoundKeepsSane(cfg: Settings, c: Collector, hash: Id -> int, t: Tick, ops: seq<Op>)
    requires cfg.slowInterval > 0 && AllSane(cfg, c.state)
    ensures AllSane(cfg, Run(cfg, AfterTick(cfg, c, hash, t).state, ops))
  {
    hide AllSane, AfterTick, Run;
    TickKeepsSane(cfg, c, hash, t);
    RunKeepsSane(cfg, AfterTick(cfg, c, hash, t).state, ops);
  }

  lemma {:induction false} HistorySane(cfg: Settings, hash: Id -> int, bound: int, tr: seq<Round>,
                                       routes: seq<seq<Op>>, k: nat)
    requires cfg.slowInterval > 0 && IsTrace(cfg, hash, bound, tr) && IsHistory(cfg, tr, routes) && k < |tr|
    ensures AllSane(cfg, tr[k].before.state)
  {
    HistoryAt(cfg, hash, bound, tr, routes, k);
    assert |routes| == |tr|;
    hide AfterTick, Run, IsTrace, IsHistory;
    if k == 0 {
      assert AllSane(cfg, EMPTY);
      hide AllSane;
      RunKeepsSane(cfg, EMPTY, routes[0]);
    } else {
      hide AllSane;
      HistorySane(cfg, hash, bound, tr, routes, k - 1);
      RoundKeepsSane(cfg, tr[k - 1].before, hash, tr[k - 1].tick, routes[k]);
    }
  }

  /** A tick and the steps after it, seen from a device nobody revives. */
  lemma RoundKeepsDown(cfg: Settings, c: Collector, hash: Id -> int, t: Tick, ops: seq<Op>, id: Id)
    requires cfg.slowInterval > 0 && id in c.state.devices && c.state.devices[id].enabled
    requires forall m :: 0 <= m < |ops| ==> !Revives(ops[m], id)
    ensures var s := AfterTick(cfg, c, hash, t).state;
      var s' := Run(cfg, s, ops);
      id in s'.devices && s'.devices[id].enabled && StillDown(cfg, s, s', id)
  {
    TickKeepsEnabled(cfg, c, hash, t, id);
    hide AfterTick, Run;
    RunKeepsDown(cfg, AfterTick(cfg, c, hash, t).state, ops, id);
  }

  lemma {:induction false} HistoryKeepsDown(cfg: Settings, hash: Id -> int, bound: int, tr: seq<Round>,
                                            routes: seq<seq<Op>>, i: nat, id: Id, k: nat)
    requires cfg.slowInterval > 0 && IsTrace(cfg, hash, bound, tr) && IsHistory(cfg, tr, routes)
    requires i <= k < |tr| && Unanswered(tr, routes, i, id)
    ensures id in tr[k].before.state.devices && tr[k].before.state.devices[id].enabled
    ensures i < k ==> StillDown(cfg, tr[k - 1].after.state, tr[k].before.state, id)
    decreases k
  {
    hide IsTrace, StillDown, AfterTick, Run, Revives;
    if i < k {
      HistoryAt(cfg, hash, bound, tr, routes, k);
      HistoryKeepsDown(cfg, hash, bound, tr, routes, i, id, k - 1);
      RoundKeepsDown(cfg, tr[k - 1].before, hash, tr[k - 1].tick, routes[k], id);
    }
  }

  lemma HistoryIsDown(cfg: Settings, hash: Id -> int, bound: int, tr: seq<Round>, routes: seq<seq<Op>>, i: nat, id: Id)
    requires cfg.slowInterval > 0 && IsTrace(cfg, hash, bound, tr) && IsHistory(cfg, tr, routes)
    requires i < |tr| && Unanswered(tr, routes, i, id)
    ensures DownFrom(cfg, tr, i, id)
  {
    HistorySane(cfg, hash, bound, tr, routes, i);
    hide IsTrace, IsHistory, StillDown, CounterSane;
    forall k | i <= k < |tr|
      ensures id in tr[k].before.state.devices && tr[k].before.state.devices[id].enabled
      ensures i < k ==> StillDown(cfg, tr[k - 1].after.state, tr[k].before.state, id)
    {
      HistoryKeepsDown(cfg, hash, bound, tr, routes, i, id, k);
    }
  }

  /**
   From an empty installation on, whatever the routes and alert cycles do between
   ticks: a device that stops answering and that nobody revives, disables or deletes
   is offline in time, and stays so.
   */
  lemma RoutesDetectInTime(cfg: Settings, hash: Id -> int, bound: int, tr: seq<Round>, routes: seq<seq<Op>>,
                           i: nat, x: int, id: Id) returns (j: nat)
    requires cfg.slowInterval > 0 && cfg.fastInterval > 0 && 0 <= bound < cfg.volatileWindow
    requires IsTrace(cfg, hash, bound, tr) && IsHistory(cfg, tr, routes)
    requires i < |tr| && Unanswered(tr, routes, i, id)
    requires x <= tr[i].tick.now <= x + bound
    requires tr[|tr| - 1].tick.now >= Deadline(cfg, bound, x)
    ensures i <= j < |tr|
    ensures tr[j].tick.after <=
      x + (LongestInterval(cfg) + 2 * bound) + (Needed(cfg) - 1) * FastGap(cfg, bound) + bound
    ensures forall k :: j <= k < |tr| ==>
      id in tr[k].after.state.devices && tr[k].after.state.devices[id].status == Offline
  {
    HistoryIsDown(cfg, hash, bound, tr, routes, i, id);
    hide IsTrace, IsHistory, DownFrom, Deadline;
    j := DetectedInTime(cfg, hash, bound, tr, i, x, id);
  }

  // ---- No device starves ----

  /** An enabled device is checked by the first tick that starts once it is due, at most a tick late. */
  lemma {:induction false} NoStarvation(cfg: Settings, hash: Id -> int, bound: int, tr: seq<Round>, i: nat, id: Id,
                                        last: nat) returns (j: nat)
    requires cfg.slowInterval > 0 && cfg.fastInterval > 0
    requires IsTrace(cfg, hash, bound, tr) && i < last < |tr|
    requires id in tr[i].after.plan.due && tr[last].tick.now >= tr[i].after.plan.due[id]
    requires forall k :: i < k <= last ==> id in tr[k].before.state.devices && tr[k].before.state.devices[id].enabled
    ensures i < j <= last && id in tr[j].tick.order
    ensures tr[j].tick.now < tr[i].after.plan.due[id] + bound
    decreases last - i
  {
    hide AfterTick, AtTickStart, ProperTick;
    var k := i + 1;
    DueLater(cfg, tr[i].before, hash, tr[i].tick, id);
    KeptDue(cfg, tr[k].before, hash, tr[k].tick.now, id);
    if tr[k].tick.now >= tr[i].after.plan.due[id] {
      j := k;
      DueIsChecked(cfg, tr[k].before, hash, tr[k].tick, id);
    } else {
      NotDueIsKept(cfg, tr[k].before, hash, tr[k].tick, id);
      j := NoStarvation(cfg, hash, bound, tr, k, id, last);
    }
  }

  lemma DueLater(cfg: Settings, c: Collector, hash: Id -> int, t: Tick, id: Id)
    requires cfg.slowInterval > 0 && cfg.fastInterval > 0
    requires ProperTick(AtTickStart(cfg, c, hash, t.now).plan, t) && id in AfterTick(cfg, c, hash, t).plan.due
    ensures t.now < AfterTick(cfg, c, hash, t).plan.due[id]
  {
    NothingLeftDue(cfg, c, hash, t);
    assert id !in DueSet(AfterTick(cfg, c, hash, t).plan, t.now);
  }

  lemma DueIsChecked(cfg: Settings, c: Collector, hash: Id -> int, t: Tick, id: Id)
    requires cfg.slowInterval > 0 && ProperTick(AtTickStart(cfg, c, hash, t.now).plan, t)
    requires id in AtTickStart(cfg, c, hash, t.now).plan.due && AtTickStart(cfg, c, hash, t.now).plan.due[id] <= t.now
    ensures id in t.order
  {
    assert id in Elements(t.order);
  }

  lemma NotDueIsKept(cfg: Settings, c: Collector, hash: Id -> int, t: Tick, id: Id)
    requires cfg.slowInterval > 0 && ProperTick(AtTickStart(cfg, c, hash, t.now).plan, t)
    requires id in AtTickStart(cfg, c, hash, t.now).plan.due && AtTickStart(cfg, c, hash, t.now).plan.due[id] > t.now
    ensures id in AfterTick(cfg, c, hash, t).plan.due
    ensures AfterTick(cfg, c, hash, t).plan.due[id] == AtTickStart(cfg, c, hash, t.now).plan.due[id]
  {
    ChecksKeepDue(cfg, AtTickStart(cfg, c, hash, t.now), t.order, t.results);
    assert id !in Elements(t.order);
  }
}
