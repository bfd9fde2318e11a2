/**
 From the first unanswered probe to the alarm: if alert cycles come at most `gap`
 apart, a device that stops answering and whose alarm nothing suppresses has been
 announced within the detection bound, the alert delay and one gap.
 */
module Latency {
  import opened Basics
  import opened Devices
  import opened History
  import opened Monitor
  import opened Alarms
  import opened Scheduler
  import opened Detection

  // ---- An outage stays open ----

  /** The outage is in the log, no later than `latest`, and one more failure does not end it. */
  ghost predicate OutageOpen(cfg: Settings, s: State, id: Id, latest: int) {
    && id in s.devices && s.devices[id].enabled && s.devices[id].status == Offline
    && s.devices[id].failures >= cfg.flapThreshold
    && OutageStartedAt(s.devices[id].events).Some? && OutageStartedAt(s.devices[id].events).value <= latest
  }

  /** Nothing that revives, disables or deletes the device; its checks fail. */
  predicate DownStep(op: Op, id: Id) {
    if op.Check? && op.id == id then !op.alive else !Revives(op, id)
  }

  lemma StepKeepsOpen(cfg: Settings, s: State, op: Op, id: Id, latest: int)
    requires OutageOpen(cfg, s, id, latest) && DownStep(op, id)
    ensures OutageOpen(cfg, Step(cfg, s, op), id, latest)
  {
    hide ParentVerdict, TakenIp, Serialize, OutageStartedAt, AfterAlertCycle;
    if op.AlertCycle? {
      CycleKeepsOpen(cfg, s, op.at, id, latest);
    }
  }

  lemma CycleKeepsOpen(cfg: Settings, s: State, at: int, id: Id, latest: int)
    requires OutageOpen(cfg, s, id, latest)
    ensures OutageOpen(cfg, AfterAlertCycle(cfg, s, at), id, latest)
  {
    hide Alerted, OutageStartedAt;
    TurnKeepsShape(cfg, s.devices[id], ParentOffline(s.devices, s.devices[id]), at);
  }

  ghost predicate DownSteps(ops: seq<Op>, id: Id) {
    forall m :: 0 <= m < |ops| ==> DownStep(ops[m], id)
  }

  lemma {:induction false} RunKeepsOpen(cfg: Settings, s: State, ops: seq<Op>, id: Id, latest: int)
    requires OutageOpen(cfg, s, id, latest) && DownSteps(ops, id)
    ensures OutageOpen(cfg, Run(cfg, s, ops), id, latest)
  {
    hide Step, OutageOpen, DownStep;
    if ops != [] {
      RunKeepsOpen(cfg, s, ops[..|ops| - 1], id, latest);
      StepKeepsOpen(cfg, Run(cfg, s, ops[..|ops| - 1]), ops[|ops| - 1], id, latest);
    }
  }

  lemma {:induction false} FailedChecksAreDown(order: seq<Id>, results: map<Id, Probe>, id: Id)
    requires id in order && id in results ==> !results[id].alive
    ensures DownSteps(ChecksOf(order, results), id)
  {
    if order != [] {
      var init, last := order[..|order| - 1], order[|order| - 1];
      assert order == init + [last];
      FailedChecksAreDown(init, results, id);
    }
  }

  /** A tick is a run of its checks. */
  lemma TickIsRun(cfg: Settings, c: Collector, hash: Id -> int, t: Tick)
    requires cfg.slowInterval > 0
    ensures AfterTick(cfg, c, hash, t).state == Run(cfg, c.state, ChecksOf(t.order, t.results))
  {
    hide Run, AfterChecks;
    TickIsSteps(cfg, AtTickStart(cfg, c, hash, t.now), t.order, t.results);
  }

  lemma TickKeepsOpen(cfg: Settings, c: Collector, hash: Id -> int, t: Tick, id: Id, latest: int)
    requires cfg.slowInterval > 0 && OutageOpen(cfg, c.state, id, latest)
    requires id in t.order ==> Fails(t, id)
    ensures OutageOpen(cfg, AfterTick(cfg, c, hash, t).state, id, latest)
  {
    TickIsRun(cfg, c, hash, t);
    FailedChecksAreDown(t.order, t.results, id);
    hide Run, AfterTick, OutageOpen, DownSteps;
    RunKeepsOpen(cfg, c.state, ChecksOf(t.order, t.results), id, latest);
  }

  // ---- One clock ----

  /** When the steps before tick k begin. */
  function StartOf(tr: seq<Round>, clock: int, k: nat): int
    requires k < |tr|
  {
    if k == 0 then clock else tr[k - 1].tick.after
  }

  /** Stamps and ticks are read from clocks that run together and never go back. */
  ghost predicate OnOneClock(tr: seq<Round>, routes: seq<seq<Op>>, clock: int)
    requires |routes| == |tr|
  {
    forall k :: 0 <= k < |tr| ==>
      && Timed(StartOf(tr, clock, k), routes[k])
      && ClockAfter(StartOf(tr, clock, k), routes[k]) <= tr[k].tick.now
      && Timed(tr[k].tick.now, ChecksOf(tr[k].tick.order, tr[k].tick.results))
      && ClockAfter(tr[k].tick.now, ChecksOf(tr[k].tick.order, tr[k].tick.results)) <= tr[k].tick.after
  }

  lemma InvLater(cfg: Settings, s: State, clock: int, now: int)
    requires Inv(cfg, s, clock) && clock <= now
    ensures Inv(cfg, s, now)
  {
    hide Consistent;
    forall id | id in s.devices
      ensures Consistent(cfg, s.devices[id], now)
    {
      ConsistentLater(cfg, s.devices[id], clock, now);
    }
  }

  lemma RunKeepsInvUntil(cfg: Settings, s: State, ops: seq<Op>, clock: int, end: int)
    requires Inv(cfg, s, clock) && Timed(clock, ops) && ClockAfter(clock, ops) <= end
    ensures Inv(cfg, Run(cfg, s, ops), end)
  {
    hide Inv, Run, Timed;
    RunKeepsInv(cfg, s, ops, clock);
    InvLater(cfg, Run(cfg, s, ops), ClockAfter(clock, ops), end);
  }

  lemma {:induction false} HistoryInv(cfg: Settings, hash: Id -> int, bound: int, tr: seq<Round>,
                                      routes: seq<seq<Op>>, clock: int, k: nat)
    requires cfg.slowInterval > 0 && IsTrace(cfg, hash, bound, tr) && IsHistory(cfg, tr, routes) && k < |tr|
    requires |routes| == |tr| && OnOneClock(tr, routes, clock)
    ensures Inv(cfg, if k == 0 then EMPTY else tr[k - 1].after.state, StartOf(tr, clock, k))
    ensures Inv(cfg, tr[k].before.state, tr[k].tick.now)
    ensures Inv(cfg, tr[k].after.state, tr[k].tick.after)
  {
    hide IsTrace, IsHistory, OnOneClock, Inv, Run, Timed, AfterTick;
    var c, t := tr[k].before, tr[k].tick;
    HistoryAt(cfg, hash, bound, tr, routes, k);
    RoundIsTick(cfg, hash, bound, tr, k);
    ClockAt(tr, routes, clock, k);
    if k == 0 {
      EmptyInv(cfg, clock);
    } else {
      HistoryInv(cfg, hash, bound, tr, routes, clock, k - 1);
    }
    RunKeepsInvUntil(cfg, if k == 0 then EMPTY else tr[k - 1].after.state, routes[k], StartOf(tr, clock, k), t.now);
    TickIsRun(cfg, c, hash, t);
    RunKeepsInvUntil(cfg, c.state, ChecksOf(t.order, t.results), t.now, t.after);
  }

  /** What the clock says about round k. */
  lemma ClockAt(tr: seq<Round>, routes: seq<seq<Op>>, clock: int, k: nat)
    requires k < |tr| == |routes| && OnOneClock(tr, routes, clock)
    ensures Timed(StartOf(tr, clock, k), routes[k])
    ensures ClockAfter(StartOf(tr, clock, k), routes[k]) <= tr[k].tick.now
    ensures Timed(tr[k].tick.now, ChecksOf(tr[k].tick.order, tr[k].tick.results))
    ensures ClockAfter(tr[k].tick.now, ChecksOf(tr[k].tick.order, tr[k].tick.results)) <= tr[k].tick.after
  {
    hide Timed, ClockAfter, ChecksOf;
  }

  // ---- From detection to the alarm ----

  lemma OutageIsOpen(cfg: Settings, s: State, id: Id, clock: int)
    requires Inv(cfg, s, clock) && id in s.devices && s.devices[id].enabled && s.devices[id].status == Offline
    ensures OutageOpen(cfg, s, id, clock)
  {
    var d := s.devices[id];
    assert Consistent(cfg, d, clock);
    LogFindsOutageStart(cfg, d.outcomes);
    EventStampsBounded(cfg, d.outcomes, clock);
    OfflineMeansFull(cfg, d.outcomes);
    hide EventsOf, OutageStart, OutageStartedAt, Streak, StatusOf;
  }

  lemma OfflineMeansFull(cfg: Settings, o: seq<Outcome>)
    requires StatusOf(cfg, o) == Offline
    ensures Streak(cfg, o) >= cfg.flapThreshold
  {
  }

  lemma UnansweredIsDown(tr: seq<Round>, routes: seq<seq<Op>>, i: nat, id: Id, k: nat)
    requires i < k < |tr| == |routes| && Unanswered(tr, routes, i, id)
    ensures DownSteps(routes[k], id) && (id in tr[k].tick.order ==> Fails(tr[k].tick, id))
  {
    forall m | 0 <= m < |routes[k]|
      ensures DownStep(routes[k][m], id)
    {
      assert !Revives(routes[k][m], id);
    }
  }

  lemma RoundKeepsOpen(cfg: Settings, hash: Id -> int, s: State, ops: seq<Op>, c: Collector, t: Tick, id: Id,
                       latest: int)
    requires cfg.slowInterval > 0 && c.state == Run(cfg, s, ops)
    requires OutageOpen(cfg, s, id, latest) && DownSteps(ops, id) && (id in t.order ==> Fails(t, id))
    ensures OutageOpen(cfg, AfterTick(cfg, c, hash, t).state, id, latest)
  {
    hide OutageOpen, DownSteps, Run, AfterTick, Fails;
    RunKeepsOpen(cfg, s, ops, id, latest);
    TickKeepsOpen(cfg, c, hash, t, id, latest);
  }

  /** Once detected, the outage is open at the end of every later round. */
  lemma {:induction false} OpenSince(cfg: Settings, hash: Id -> int, bound: int, tr: seq<Round>,
                                     routes: seq<seq<Op>>, i: nat, id: Id, j: nat, latest: int, k: nat)
    requires cfg.slowInterval > 0 && IsTrace(cfg, hash, bound, tr) && IsHistory(cfg, tr, routes)
    requires i <= j <= k < |tr| && Unanswered(tr, routes, i, id)
    requires OutageOpen(cfg, tr[j].after.state, id, latest)
    ensures OutageOpen(cfg, tr[k].after.state, id, latest)
    decreases k
  {
    hide IsTrace, IsHistory, Unanswered, OutageOpen, DownSteps, Run, AfterTick, Fails;
    LengthsMatch(cfg, tr, routes);
    if j < k {
      OpenSince(cfg, hash, bound, tr, routes, i, id, j, latest, k - 1);
      HistoryAt(cfg, hash, bound, tr, routes, k);
      UnansweredIsDown(tr, routes, i, id, k);
      RoundIsTick(cfg, hash, bound, tr, k);
      RoundKeepsOpen(cfg, hash, tr[k - 1].after.state, routes[k], tr[k].before, tr[k].tick, id, latest);
    }
  }

  lemma LengthsMatch(cfg: Settings, tr: seq<Round>, routes: seq<seq<Op>>)
    requires IsHistory(cfg, tr, routes)
    ensures |routes| == |tr| > 0
  {
    hide Run;
  }

  lemma RoundIsTick(cfg: Settings, hash: Id -> int, bound: int, tr: seq<Round>, k: nat)
    requires cfg.slowInterval > 0 && IsTrace(cfg, hash, bound, tr) && k < |tr|
    ensures tr[k].after == AfterTick(cfg, tr[k].before, hash, tr[k].tick)
    ensures tr[k].tick.now <= tr[k].tick.after
  {
    hide AfterTick, AtTickStart;
  }

  /** An alert cycle starts in the gap that follows this time. */
  ghost predicate CycleAfter(routes: seq<seq<Op>>, time: int, gap: int) {
    exists k, m :: 0 <= k < |routes| && 0 <= m < |routes[k]| && IsCycleIn(routes[k][m], time, gap)
  }

  predicate IsCycleIn(op: Op, time: int, gap: int) {
    op.AlertCycle? && time < op.at <= time + gap
  }

  /** Alert cycles come at most gap apart, for as long as the trace lasts. */
  ghost predicate CyclesEvery(tr: seq<Round>, routes: seq<seq<Op>>, gap: int)
    requires |tr| > 0
  {
    forall time :: tr[0].tick.now <= time && time + gap <= tr[|tr| - 1].tick.now ==> CycleAfter(routes, time, gap)
  }

  /** The state in which step m before tick k is taken. */
  ghost function StateAt(cfg: Settings, tr: seq<Round>, routes: seq<seq<Op>>, k: nat, m: nat): State
    requires 0 < k < |tr| == |routes| && m <= |routes[k]|
  {
    Run(cfg, tr[k - 1].after.state, routes[k][..m])
  }

  /** From tick i on, no alert cycle finds the device suppressed: muted, in maintenance, below an offline parent. */
  ghost predicate Unsuppressed(cfg: Settings, tr: seq<Round>, routes: seq<seq<Op>>, i: nat, id: Id)
    requires |tr| == |routes|
  {
    forall k, m :: i < k < |tr| && 0 <= m < |routes[k]| && routes[k][m].AlertCycle? ==>
      var devices := StateAt(cfg, tr, routes, k, m).devices;
      id in devices ==> !Suppressed(cfg, devices, devices[id], routes[k][m].at)
  }

  lemma CycleAnnounces(cfg: Settings, s: State, id: Id, at: int, latest: int)
    requires OutageOpen(cfg, s, id, latest) && !Suppressed(cfg, s.devices, s.devices[id], at)
    requires at - latest >= cfg.alertAfter
    ensures AfterAlertCycle(cfg, s, at).devices[id].notifiedAt.Some?
  {
  }

  /** When an outage that began at x is detected, at the latest. */
  function DetectedBy(cfg: Settings, bound: int, x: int): int {
    x + (LongestInterval(cfg) + 2 * bound) + (Needed(cfg) - 1) * FastGap(cfg, bound) + bound
  }

  /** From when on it is old enough for an alarm, at the latest. */
  function RipeBy(cfg: Settings, bound: int, x: int): int {
    DetectedBy(cfg, bound, x) + Max(cfg.alertAfter, 0)
  }

  lemma {:induction false} StampBeforeClock(clock: int, ops: seq<Op>, m: nat)
    requires Timed(clock, ops) && m < |ops| && ops[m].AlertCycle?
    ensures Timed(clock, ops[..m + 1]) && ops[m].at == ClockAfter(clock, ops[..m + 1]) <= ClockAfter(clock, ops)
    decreases |ops|
  {
    var init := ops[..|ops| - 1];
    if m == |ops| - 1 {
      assert ops[..m + 1] == ops;
    } else {
      StampBeforeClock(clock, init, m);
      assert init[..m + 1] == ops[..m + 1];
    }
  }

  /** A cycle stamped after tick j ended was taken after that tick. */
  lemma CycleIsLater(cfg: Settings, hash: Id -> int, bound: int, tr: seq<Round>, routes: seq<seq<Op>>,
                     clock: int, j: nat, k: nat, m: nat)
    requires cfg.slowInterval > 0 && IsTrace(cfg, hash, bound, tr) && |routes| == |tr| && OnOneClock(tr, routes, clock)
    requires j < |tr| && k < |tr| && m < |routes[k]|
    requires routes[k][m].AlertCycle? && tr[j].tick.after < routes[k][m].at
    ensures j < k
  {
    StampBeforeClock(StartOf(tr, clock, k), routes[k], m);
    if k <= j {
      TicksInOrder(cfg, hash, bound, tr, k, j);
      RoundIsTick(cfg, hash, bound, tr, j);
    }
  }

  /** When the last tick of the detection bound ends, the outage is open. */
  lemma DetectedIsOpen(cfg: Settings, hash: Id -> int, bound: int, tr: seq<Round>, routes: seq<seq<Op>>,
                       clock: int, i: nat, id: Id, j: nat)
    requires cfg.slowInterval > 0 && IsTrace(cfg, hash, bound, tr) && IsHistory(cfg, tr, routes)
    requires OnOneClock(tr, routes, clock) && i <= j < |tr| && Unanswered(tr, routes, i, id)
    requires id in tr[j].after.state.devices && tr[j].after.state.devices[id].status == Offline
    ensures OutageOpen(cfg, tr[j].after.state, id, tr[j].tick.after)
  {
    HistoryKeepsDown(cfg, hash, bound, tr, routes, i, id, j);
    HistoryInv(cfg, hash, bound, tr, routes, clock, j);
    RoundIsTick(cfg, hash, bound, tr, j);
    hide IsTrace, IsHistory, Unanswered, OutageOpen, Inv, AfterTick;
    TickKeepsEnabled(cfg, tr[j].before, hash, tr[j].tick, id);
    OutageIsOpen(cfg, tr[j].after.state, id, tr[j].tick.after);
  }

  /** The device stands announced: the last notice about it is an alarm, sent by then. */
  ghost predicate Announced(s: State, id: Id, at: int) {
    && id in s.devices && s.devices[id].notifiedAt.Some?
    && var n := s.devices[id].notices;
       n != [] && n[|n| - 1].Alarm? && n[|n| - 1].at <= at
  }

  lemma NotifiedIsAnnounced(cfg: Settings, s: State, id: Id, clock: int)
    requires Inv(cfg, s, clock) && id in s.devices && s.devices[id].notifiedAt.Some?
    ensures Announced(s, id, clock)
  {
    hide Grounded, EventsOf, StatusOf, Streak, CacheAgrees, AddressesUnique;
    assert Consistent(cfg, s.devices[id], clock);
  }

  /** A cycle that meets an open outage, ripe and not suppressed, leaves it announced. */
  lemma OpenIsAnnounced(cfg: Settings, s: State, at: int, id: Id, latest: int)
    requires OutageOpen(cfg, s, id, latest) && at - latest >= cfg.alertAfter
    requires !Suppressed(cfg, s.devices, s.devices[id], at)
    requires Inv(cfg, AfterAlertCycle(cfg, s, at), at)
    ensures Announced(AfterAlertCycle(cfg, s, at), id, at)
  {
    hide Inv, Suppressed, AfterAlertCycle, Announced;
    CycleAnnounces(cfg, s, id, at, latest);
    CycleKeepsOpen(cfg, s, at, id, latest);
    NotifiedIsAnnounced(cfg, AfterAlertCycle(cfg, s, at), id, at);
  }

  lemma DownBefore(ops: seq<Op>, m: nat, id: Id)
    requires DownSteps(ops, id) && m <= |ops|
    ensures DownSteps(ops[..m], id)
  {
    hide DownStep;
  }

  /** The state before a cycle among these steps, and what the invariant says of the one after it. */
  lemma CycleInRun(cfg: Settings, s: State, ops: seq<Op>, m: nat, clock: int, id: Id, latest: int)
    requires Inv(cfg, s, clock) && Timed(clock, ops) && m < |ops| && ops[m].AlertCycle?
    requires OutageOpen(cfg, s, id, latest) && DownSteps(ops, id)
    ensures OutageOpen(cfg, Run(cfg, s, ops[..m]), id, latest)
    ensures Run(cfg, s, ops[..m + 1]) == AfterAlertCycle(cfg, Run(cfg, s, ops[..m]), ops[m].at)
    ensures Inv(cfg, Run(cfg, s, ops[..m + 1]), ops[m].at)
  {
    hide Run, Inv, Timed, DownSteps, OutageOpen, AfterAlertCycle;
    DownBefore(ops, m, id);
    assert ops[..m + 1] == ops[..m] + [ops[m]];
    StampBeforeClock(clock, ops, m);
    RunAppend(cfg, s, ops[..m], ops[m]);
    RunKeepsOpen(cfg, s, ops[..m], id, latest);
    RunKeepsInvUntil(cfg, s, ops[..m + 1], clock, ops[m].at);
  }

  lemma UnsuppressedAt(cfg: Settings, tr: seq<Round>, routes: seq<seq<Op>>, i: nat, id: Id, k: nat, m: nat)
    requires |routes| == |tr| && Unsuppressed(cfg, tr, routes, i, id)
    requires i < k < |tr| && m < |routes[k]| && routes[k][m].AlertCycle?
    ensures var devices := StateAt(cfg, tr, routes, k, m).devices;
      id in devices ==> !Suppressed(cfg, devices, devices[id], routes[k][m].at)
  {
    hide Suppressed, StateAt;
  }

  /** What a trace and its history say about the first cycle that finds the outage ripe. */
  lemma RipeIsAnnounced(cfg: Settings, hash: Id -> int, bound: int, tr: seq<Round>, routes: seq<seq<Op>>,
                        clock: int, i: nat, id: Id, j: nat, k: nat, m: nat)
    requires cfg.slowInterval > 0 && IsTrace(cfg, hash, bound, tr) && IsHistory(cfg, tr, routes)
    requires OnOneClock(tr, routes, clock) && i <= j < k < |tr|
    requires Unanswered(tr, routes, i, id) && Unsuppressed(cfg, tr, routes, i, id)
    requires OutageOpen(cfg, tr[j].after.state, id, tr[j].tick.after)
    requires m < |routes[k]| && routes[k][m].AlertCycle? && routes[k][m].at - tr[j].tick.after >= cfg.alertAfter
    ensures Announced(StateAt(cfg, tr, routes, k, m + 1), id, routes[k][m].at)
  {
    hide IsTrace, IsHistory, OnOneClock, Unanswered, Unsuppressed, OutageOpen, Inv, DownSteps, Suppressed, Run, Timed;
    LengthsMatch(cfg, tr, routes);
    var s, ops, latest, at := tr[k - 1].after.state, routes[k], tr[j].tick.after, routes[k][m].at;
    var t := StateAt(cfg, tr, routes, k, m);
    ClockAt(tr, routes, clock, k);
    UnsuppressedAt(cfg, tr, routes, i, id, k, m);
    OpenSince(cfg, hash, bound, tr, routes, i, id, j, latest, k - 1);
    HistoryInv(cfg, hash, bound, tr, routes, clock, k - 1);
    UnansweredIsDown(tr, routes, i, id, k);
    CycleInRun(cfg, s, ops, m, tr[k - 1].tick.after, id, latest);
    assert id in t.devices by { OpenIsKnown(cfg, t, id, latest); }
    OpenIsAnnounced(cfg, t, at, id, latest);
  }

  lemma OpenIsKnown(cfg: Settings, s: State, id: Id, latest: int)
    requires OutageOpen(cfg, s, id, latest)
    ensures id in s.devices
  {
  }

  // ---- The alarm is a new one ----

  /** The device is still there, with all its notices. */
  ghost predicate Grown(s: State, s': State, id: Id) {
    id in s.devices && id in s'.devices && s.devices[id].notices <= s'.devices[id].notices
  }

  lemma GrownOn(s: State, t: State, u: State, id: Id)
    requires Grown(s, t, id) && Grown(t, u, id)
    ensures Grown(s, u, id)
  {
  }

  lemma DownStepKeepsRow(cfg: Settings, s: State, op: Op, id: Id)
    requires id in s.devices && DownStep(op, id)
    ensures id in Step(cfg, s, op).devices
  {
  }

  lemma {:induction false} RunGrows(cfg: Settings, s: State, ops: seq<Op>, id: Id)
    requires id in s.devices && DownSteps(ops, id)
    ensures Grown(s, Run(cfg, s, ops), id)
  {
    hide Step, DownStep;
    if ops != [] {
      var t, op := Run(cfg, s, ops[..|ops| - 1]), ops[|ops| - 1];
      RunGrows(cfg, s, ops[..|ops| - 1], id);
      DownStepKeepsRow(cfg, t, op, id);
      StepRecoversFirst(cfg, t, op, id);
    }
  }

  lemma TickGrows(cfg: Settings, c: Collector, hash: Id -> int, t: Tick, id: Id)
    requires cfg.slowInterval > 0 && id in c.state.devices && (id in t.order ==> Fails(t, id))
    ensures Grown(c.state, AfterTick(cfg, c, hash, t).state, id)
  {
    hide Run, AfterTick, DownSteps, Grown;
    TickIsRun(cfg, c, hash, t);
    FailedChecksAreDown(t.order, t.results, id);
    RunGrows(cfg, c.state, ChecksOf(t.order, t.results), id);
  }

  lemma FailsAt(tr: seq<Round>, routes: seq<seq<Op>>, i: nat, id: Id, k: nat)
    requires i <= k < |tr| == |routes| && Unanswered(tr, routes, i, id)
    ensures id in tr[k].tick.order ==> Fails(tr[k].tick, id)
    ensures id in tr[i].before.state.devices
  {
    hide Fails, Revives;
  }

  /** From the start of tick i to the end of tick k. */
  lemma {:induction false} HistoryGrows(cfg: Settings, hash: Id -> int, bound: int, tr: seq<Round>,
                                        routes: seq<seq<Op>>, i: nat, id: Id, k: nat)
    requires cfg.slowInterval > 0 && IsTrace(cfg, hash, bound, tr) && IsHistory(cfg, tr, routes)
    requires i <= k < |tr| && Unanswered(tr, routes, i, id)
    ensures Grown(tr[i].before.state, tr[k].after.state, id)
    decreases k
  {
    hide IsTrace, IsHistory, Unanswered, DownSteps, Run, AfterTick, Fails;
    LengthsMatch(cfg, tr, routes);
    RoundIsTick(cfg, hash, bound, tr, k);
    FailsAt(tr, routes, i, id, k);
    if i < k {
      HistoryGrows(cfg, hash, bound, tr, routes, i, id, k - 1);
      HistoryAt(cfg, hash, bound, tr, routes, k);
      UnansweredIsDown(tr, routes, i, id, k);
      RunGrows(cfg, tr[k - 1].after.state, routes[k], id);
    }
    TickGrows(cfg, tr[k].before, hash, tr[k].tick, id);
  }

  /** Notices alternate: unannounced first and announced later, there is one more. */
  lemma AnnouncedIsNew(cfg: Settings, s: State, clock: int, s': State, id: Id, at: int)
    requires Inv(cfg, s, clock) && Grown(s, s', id) && s.devices[id].notifiedAt.None?
    requires Inv(cfg, s', at) && Announced(s', id, at)
    ensures |s.devices[id].notices| < |s'.devices[id].notices|
  {
    hide Grounded, EventsOf, StatusOf, Streak, CacheAgrees, AddressesUnique;
    assert Consistent(cfg, s.devices[id], clock) && Consistent(cfg, s'.devices[id], at);
  }

  /** The steps before tick k, up to a cycle among them, seen from tick i. */
  lemma CycleGrows(cfg: Settings, hash: Id -> int, bound: int, tr: seq<Round>, routes: seq<seq<Op>>,
                   clock: int, i: nat, id: Id, k: nat, m: nat)
    requires cfg.slowInterval > 0 && IsTrace(cfg, hash, bound, tr) && IsHistory(cfg, tr, routes)
    requires i < k < |tr| == |routes| && m < |routes[k]| && routes[k][m].AlertCycle?
    requires OnOneClock(tr, routes, clock) && Unanswered(tr, routes, i, id)
    ensures Inv(cfg, tr[i].before.state, tr[i].tick.now)
    ensures Grown(tr[i].before.state, StateAt(cfg, tr, routes, k, m + 1), id)
    ensures Inv(cfg, StateAt(cfg, tr, routes, k, m + 1), routes[k][m].at)
  {
    hide IsTrace, IsHistory, OnOneClock, Unanswered, Inv, DownSteps, Run, Timed, Grown;
    var s, ops := tr[k - 1].after.state, routes[k];
    HistoryInv(cfg, hash, bound, tr, routes, clock, i);
    HistoryInv(cfg, hash, bound, tr, routes, clock, k - 1);
    ClockAt(tr, routes, clock, k);
    StampBeforeClock(tr[k - 1].tick.after, ops, m);
    RunKeepsInvUntil(cfg, s, ops[..m + 1], tr[k - 1].tick.after, ops[m].at);
    HistoryGrows(cfg, hash, bound, tr, routes, i, id, k - 1);
    UnansweredIsDown(tr, routes, i, id, k);
    DownBefore(ops, m + 1, id);
    GrownIsKnown(tr[i].before.state, s, id);
    RunGrows(cfg, s, ops[..m + 1], id);
    GrownOn(tr[i].before.state, s, StateAt(cfg, tr, routes, k, m + 1), id);
  }

  lemma GrownIsKnown(s: State, s': State, id: Id)
    requires Grown(s, s', id)
    ensures id in s.devices && id in s'.devices
  {
  }

  /**
   From an empty installation on: a device that stops answering, is not revived,
   disabled, deleted or suppressed, stands announced at the latest one gap between
   alert cycles after its outage, detected in time, is old enough for an alarm. If it
   did not stand announced before, that alarm is a new one.
   */
  lemma AlarmInTime(cfg: Settings, hash: Id -> int, bound: int, tr: seq<Round>, routes: seq<seq<Op>>,
                    clock: int, i: nat, x: int, id: Id, gap: int) returns (k: nat, m: nat)
    requires cfg.slowInterval > 0 && cfg.fastInterval > 0 && 0 <= bound < cfg.volatileWindow && 0 <= gap
    requires IsTrace(cfg, hash, bound, tr) && IsHistory(cfg, tr, routes)
    requires OnOneClock(tr, routes, clock) && CyclesEvery(tr, routes, gap)
    requires i < |tr| && Unanswered(tr, routes, i, id) && Unsuppressed(cfg, tr, routes, i, id)
    requires x <= tr[i].tick.now <= x + bound
    requires tr[|tr| - 1].tick.now >= RipeBy(cfg, bound, x) + gap
    ensures i < k < |tr| && m < |routes[k]| && routes[k][m].AlertCycle?
    ensures routes[k][m].at <= RipeBy(cfg, bound, x) + gap
    ensures Announced(StateAt(cfg, tr, routes, k, m + 1), id, routes[k][m].at)
    ensures Grown(tr[i].before.state, StateAt(cfg, tr, routes, k, m + 1), id)
    ensures var d, d' := tr[i].before.state.devices[id], StateAt(cfg, tr, routes, k, m + 1).devices[id];
      d.notifiedAt.None? ==> |d.notices| < |d'.notices|
  {
    hide IsTrace, IsHistory, OnOneClock, Unanswered, Unsuppressed, OutageOpen, StateAt, Deadline, CyclesEvery;
    hide Inv, Announced;
    LengthsMatch(cfg, tr, routes);
    var ripe := RipeBy(cfg, bound, x);
    BoundsInOrder(cfg, bound, x);
    TicksInOrder(cfg, hash, bound, tr, 0, i);
    var j := RoutesDetectInTime(cfg, hash, bound, tr, routes, i, x, id);
    DetectedIsOpen(cfg, hash, bound, tr, routes, clock, i, id, j);
    k, m := SomeCycle(tr, routes, ripe, gap);
    CycleIsLater(cfg, hash, bound, tr, routes, clock, j, k, m);
    RipeIsAnnounced(cfg, hash, bound, tr, routes, clock, i, id, j, k, m);
    CycleGrows(cfg, hash, bound, tr, routes, clock, i, id, k, m);
    var s, s' := tr[i].before.state, StateAt(cfg, tr, routes, k, m + 1);
    if s.devices[id].notifiedAt.None? {
      AnnouncedIsNew(cfg, s, tr[i].tick.now, s', id, routes[k][m].at);
    }
  }

  lemma SomeCycle(tr: seq<Round>, routes: seq<seq<Op>>, time: int, gap: int) returns (k: nat, m: nat)
    requires |tr| > 0 && CyclesEvery(tr, routes, gap)
    requires tr[0].tick.now <= time && time + gap <= tr[|tr| - 1].tick.now
    ensures k < |routes| && m < |routes[k]| && IsCycleIn(routes[k][m], time, gap)
  {
    assert CycleAfter(routes, time, gap);
    k, m :| 0 <= k < |routes| && 0 <= m < |routes[k]| && IsCycleIn(routes[k][m], time, gap);
  }

  lemma BoundsInOrder(cfg: Settings, bound: int, x: int)
    requires cfg.slowInterval > 0 && cfg.fastInterval > 0 && 0 <= bound
    ensures x + bound <= DetectedBy(cfg, bound, x) <= RipeBy(cfg, bound, x)
    ensures Deadline(cfg, bound, x) <= DetectedBy(cfg, bound, x)
  {
    GapsAddUp(cfg, bound, x, 0, Needed(cfg) - 1);
  }
}
