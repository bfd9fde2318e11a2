/**
 What alarms mean over whole runs: they follow the outcome history, each outage
 is announced once, and a root cause is never lost to dependency suppression.
 */
module Alarms {
  import opened Basics
  import opened Forest
  import opened Devices
  import opened History
  import opened Monitor

  // ---- Status, events and notices as functions of what was observed ----

  /** What an operation makes known about a device. */
  function Heard(s: State, op: Op, id: Id): seq<Outcome>
    requires id in s.devices
  {
    match op
    case Check(x, alive, _, at) =>
      if x == id && s.devices[id].enabled then [if alive then Reply(at) else Miss(at)] else []
    case Simulate(x, online, at) =>
      if x == id then [if online then ForcedOnline(at) else ForcedOffline(at)] else []
    case _ => []
  }

  /** The recorded history is exactly what checks and simulate calls reported. */
  lemma HistoryIsWhatWasHeard(cfg: Settings, s: State, op: Op, id: Id)
    requires id in s.devices && id in Step(cfg, s, op).devices
    ensures Step(cfg, s, op).devices[id].outcomes == s.devices[id].outcomes + Heard(s, op, id)
  {
    hide AlertedIn, AfterAlertCycle, ParentVerdict, TakenIp, Serialize, EdgeEvent;
    if op.AlertCycle? {
      CycleKeepsShape(cfg, s, op.at);
    }
    var d' := Step(cfg, s, op).devices[id];
    assert Heard(s, op, id) == [] ==> d'.outcomes == s.devices[id].outcomes;
  }

  /**
   Besides its outcome a check leaves its service verdict, its time and, if it was
   answered, no acknowledgement; a simulate call leaves its time. Neither touches any
   setting, mark or notice, nor another row.
   */
  lemma CheckStores(cfg: Settings, s: State, id: Id, alive: bool, service: Option<bool>, at: int)
    requires id in s.devices && s.devices[id].enabled
    ensures var d, devices' := s.devices[id], Step(cfg, s, Check(id, alive, service, at)).devices;
      && id in devices' && devices' - {id} == s.devices - {id}
      && devices'[id].serviceOk == service && devices'[id].lastCheckedAt == Some(at)
      && devices'[id].ackedAt == (if alive then None else d.ackedAt)
      && SameSettings(d, devices'[id])
  {
    hide Serialize, EdgeEvent;
  }

  lemma SimulateStores(cfg: Settings, s: State, id: Id, online: bool, at: int)
    requires id in s.devices
    ensures var d, devices' := s.devices[id], Step(cfg, s, Simulate(id, online, at)).devices;
      && id in devices' && devices' - {id} == s.devices - {id}
      && devices'[id].serviceOk == d.serviceOk && devices'[id].lastCheckedAt == Some(at)
      && devices'[id].ackedAt == d.ackedAt
      && SameSettings(d, devices'[id])
  {
    hide Serialize, EdgeEvent;
  }

  /** What users and the alert engine decide about a row. */
  predicate SameSettings(d: Device, d': Device) {
    && d'.ip == d.ip && d'.parent == d.parent && d'.enabled == d.enabled && d'.critical == d.critical
    && d'.muted == d.muted && d'.maintenanceUntil == d.maintenanceUntil
    && d'.notifiedAt == d.notifiedAt && d'.notices == d.notices
  }

  /** In every reachable state, everything shown about a device follows from its history. */
  lemma StatusIsHistory(cfg: Settings, ops: seq<Op>, clock: int, id: Id)
    requires Timed(clock, ops) && id in Run(cfg, EMPTY, ops).devices
    ensures var d := Run(cfg, EMPTY, ops).devices[id];
      && d.status == StatusOf(cfg, d.outcomes)
      && Min(d.failures, cfg.flapThreshold) == Min(Streak(cfg, d.outcomes), cfg.flapThreshold)
      && d.events == EventsOf(cfg, d.outcomes)
      && d.lastCheckedAt == LastHeard(d.outcomes)
      && OutagesSeparated(d.events)
      && (d.status == Offline <==> |d.events| > 0 && d.events[|d.events| - 1].kind == WentOffline)
      && (d.status == Offline ==> OutageStartedAt(d.events) == Some(OutageStart(cfg, d.outcomes)))
  {
    ReachableConsistent(cfg, ops, clock, id);
    hide Run, OutagesSeparated, Streak, StatusOf, EventsOf, OutageStart, OutageStartedAt;
    EventsTellOutages(cfg, Run(cfg, EMPTY, ops).devices[id].outcomes);
  }

  lemma EventsTellOutages(cfg: Settings, o: seq<Outcome>)
    requires Chronological(o)
    ensures var e := EventsOf(cfg, o);
      && OutagesSeparated(e)
      && (StatusOf(cfg, o) == Offline <==> |e| > 0 && e[|e| - 1].kind == WentOffline)
      && (StatusOf(cfg, o) == Offline ==> OutageStartedAt(e) == Some(OutageStart(cfg, o)))
  {
    OutagesAreSeparated(cfg, o);
    LastEventIffOffline(cfg, o);
    if StatusOf(cfg, o) == Offline {
      LogFindsOutageStart(cfg, o);
    }
  }

  /** Alarms and recoveries alternate, and each was justified by what was known when it went out. */
  lemma NoticesAreGrounded(cfg: Settings, ops: seq<Op>, clock: int, id: Id)
    requires Timed(clock, ops) && id in Run(cfg, EMPTY, ops).devices
    ensures var d := Run(cfg, EMPTY, ops).devices[id];
      && NoticesAlternate(d)
      && forall i :: 0 <= i < |d.notices| ==>
           d.notices[i].at <= ClockAfter(clock, ops) && Grounded(cfg, d.outcomes, d.notices[i])
  {
    ReachableConsistent(cfg, ops, clock, id);
  }

  // ---- One alarm per outage ----

  ghost predicate InAlarmThroughout(cfg: Settings, s: State, ops: seq<Op>, id: Id) {
    forall k :: 0 <= k <= |ops| ==>
      var t := Run(cfg, s, ops[..k]);
      id in t.devices && InAlarm(t.devices[id])
  }

  /** A device in alarm is announced once and then left alone. */
  ghost predicate AnnouncedOnce(before: Device, after: Device) {
    if after.notices == before.notices then after.notifiedAt == before.notifiedAt
    else
      && before.notifiedAt.None? && after.notifiedAt.Some?
      && |after.notices| == |before.notices| + 1
      && after.notices[..|before.notices|] == before.notices
      && after.notices[|before.notices|].Alarm?
  }

  /** Notices go out in alert cycles only. */
  lemma OnlyCyclesNotify(cfg: Settings, s: State, op: Op, id: Id)
    requires id in s.devices && id in Step(cfg, s, op).devices
    ensures var d, d' := s.devices[id], Step(cfg, s, op).devices[id];
      if op.AlertCycle? then d' == AlertedIn(cfg, s.devices, id, op.at)
      else d'.notices == d.notices && d'.notifiedAt == d.notifiedAt
  {
    hide AlertedIn;
  }

  lemma StepAnnouncesOnce(cfg: Settings, s: State, op: Op, id: Id)
    requires id in s.devices && id in Step(cfg, s, op).devices && InAlarm(s.devices[id])
    ensures AnnouncedOnce(s.devices[id], Step(cfg, s, op).devices[id])
  {
    OnlyCyclesNotify(cfg, s, op, id);
    hide Step, OutageStartedAt;
  }

  /** However many cycles run while a device stays in alarm, at most one alarm goes out. */
  lemma {:induction false} OneAlarmPerOutage(cfg: Settings, s: State, ops: seq<Op>, id: Id)
    requires InAlarmThroughout(cfg, s, ops, id)
    ensures id in s.devices && id in Run(cfg, s, ops).devices
    ensures AnnouncedOnce(s.devices[id], Run(cfg, s, ops).devices[id])
  {
    hide Step;
    assert ops[..0] == [] && ops[..|ops|] == ops;
    if ops != [] {
      var init := ops[..|ops| - 1];
      forall k | 0 <= k <= |init|
        ensures init[..k] == ops[..k]
      {
      }
      OneAlarmPerOutage(cfg, s, init, id);
      StepAnnouncesOnce(cfg, Run(cfg, s, init), ops[|ops| - 1], id);
    }
  }

  /** The device is in the table in every state of the run. */
  ghost predicate PresentThroughout(cfg: Settings, s: State, ops: seq<Op>, id: Id) {
    id in Run(cfg, s, ops).devices && (ops != [] ==> PresentThroughout(cfg, s, ops[..|ops| - 1], id))
  }

  predicate FindsAlarm(s: State, op: Op, id: Id) {
    op.AlertCycle? && id in s.devices ==> InAlarm(s.devices[id]) || !s.devices[id].enabled
  }

  /** Every alert cycle of the run finds the device in alarm, or disabled. */
  ghost predicate CyclesFindAlarm(cfg: Settings, s: State, ops: seq<Op>, id: Id) {
    ops != [] ==>
      var init := ops[..|ops| - 1];
      CyclesFindAlarm(cfg, s, init, id) && FindsAlarm(Run(cfg, s, init), ops[|ops| - 1], id)
  }

  /** An announced device: the next notice, if there is one, takes the announcement back. */
  ghost predicate RecoversFirst(before: Device, after: Device) {
    && before.notices <= after.notices
    && (if after.notices == before.notices then after.notifiedAt.Some?
        else after.notices[|before.notices|].Recovered?)
  }

  lemma StepRecoversFirst(cfg: Settings, s: State, op: Op, id: Id)
    requires id in s.devices && id in Step(cfg, s, op).devices
    ensures var d, d' := s.devices[id], Step(cfg, s, op).devices[id];
      && d.notices <= d'.notices
      && (d.notifiedAt.Some? ==> RecoversFirst(d, d'))
      && (d.notifiedAt.Some? ==>
            (d'.notices == d.notices <==> FindsAlarm(s, op, id)))
  {
    OnlyCyclesNotify(cfg, s, op, id);
    hide Step, OutageStartedAt;
  }

  /**
   When an announced device hears nothing more: exactly if every alert cycle finds it
   in alarm or disabled, however many outages its log opened and closed in between.
   Otherwise the announcement is taken back first, and a later outage can be announced.
   */
  lemma {:induction false} SilentIffCyclesFindAlarm(cfg: Settings, s: State, ops: seq<Op>, id: Id)
    requires PresentThroughout(cfg, s, ops, id)
    requires id in s.devices && s.devices[id].notifiedAt.Some?
    ensures id in Run(cfg, s, ops).devices
    ensures RecoversFirst(s.devices[id], Run(cfg, s, ops).devices[id])
    ensures Run(cfg, s, ops).devices[id].notices == s.devices[id].notices <==> CyclesFindAlarm(cfg, s, ops, id)
  {
    if ops != [] {
      hide Step, FindsAlarm;
      var init := ops[..|ops| - 1];
      SilentIffCyclesFindAlarm(cfg, s, init, id);
      StepRecoversFirst(cfg, Run(cfg, s, init), ops[|ops| - 1], id);
    }
  }

  /** So "one alarm per outage" fails: this run opens a second outage that its cycle leaves silent. */
  lemma SecondOutageIsSilent(cfg: Settings, s: State, id: Id, service: Option<bool>, t1: int, t2: int, t3: int)
    requires id in s.devices && s.devices[id].enabled
    requires s.devices[id].status == Offline && s.devices[id].notifiedAt.Some?
    ensures var ops := [Check(id, true, service, t1), Simulate(id, false, t2), AlertCycle(t3)];
      var d, s' := s.devices[id], Run(cfg, s, ops);
      && id in s'.devices && s'.devices[id].notices == d.notices
      && s'.devices[id].events == d.events + [Event(CameOnline, t1), Event(WentOffline, t2)]
  {
    var ops := [Check(id, true, service, t1), Simulate(id, false, t2), AlertCycle(t3)];
    var down := RestartedOutage(cfg, s, id, service, t1, t2);
    hide AfterCheck, AfterSimulate, AlertedIn, Run;
    RunThree(cfg, s, ops[0], ops[1], ops[2]);
    AnnouncedStaysQuiet(cfg, down.devices, id, t3);
  }

  lemma RestartedOutage(cfg: Settings, s: State, id: Id, service: Option<bool>, t1: int, t2: int) returns (down: State)
    requires id in s.devices && s.devices[id].enabled && s.devices[id].status == Offline
    ensures down == AfterSimulate(cfg, AfterCheck(cfg, s, id, true, service, t1), id, false, t2).0
    ensures id in down.devices
    ensures var d, d' := s.devices[id], down.devices[id];
      && d'.status == Offline && d'.notifiedAt == d.notifiedAt && d'.notices == d.notices
      && d'.events == d.events + [Event(CameOnline, t1), Event(WentOffline, t2)]
  {
    down := AfterSimulate(cfg, AfterCheck(cfg, s, id, true, service, t1), id, false, t2).0;
    var d := Checked(cfg, s.devices[id], true, service, t1);
    assert d.events == s.devices[id].events + [Event(CameOnline, t1)];
    hide Serialize;
    assert down.devices[id] == Forced(cfg, d, false, t2);
  }

  lemma AnnouncedStaysQuiet(cfg: Settings, devices: map<Id, Device>, id: Id, at: int)
    requires id in devices && InAlarm(devices[id]) && devices[id].notifiedAt.Some?
    ensures AlertedIn(cfg, devices, id, at) == devices[id]
  {
  }

  lemma RunThree(cfg: Settings, s: State, a: Op, b: Op, c: Op)
    ensures Run(cfg, s, [a, b, c]) == Step(cfg, Step(cfg, Step(cfg, s, a), b), c)
  {
    hide Step;
    assert [a, b, c][..2] == [a, b] && [a, b][..1] == [a] && [a][..0] == [];
    assert Run(cfg, s, [a]) == Step(cfg, s, a);
    assert Run(cfg, s, [a, b]) == Step(cfg, Step(cfg, s, a), b);
  }

  // ---- Root causes ----

  /** From id, n steps up, every device on the way is known and offline. */
  ghost predicate OfflineChain(devices: map<Id, Device>, id: Id, n: nat) {
    forall i :: 0 <= i <= n ==>
      var x := Up(ParentsOf(devices), id, i);
      x.Some? && x.value in devices && devices[x.value].status == Offline
  }

  /** root is where the offline chain of id stops. */
  ghost predicate IsRootCause(devices: map<Id, Device>, id: Id, root: Id) {
    && root in devices && !ParentOffline(devices, devices[root])
    && exists n: nat :: OfflineChain(devices, id, n) && Up(ParentsOf(devices), id, n) == Some(root)
  }

  lemma {:induction false} ExtendChain(devices: map<Id, Device>, id: Id, n: nat)
    requires OfflineChain(devices, id, n)
    requires ParentOffline(devices, devices[Up(ParentsOf(devices), id, n).value])
    ensures OfflineChain(devices, id, n + 1)
  {
    var g := ParentsOf(devices);
    UpAdd(g, id, n, 1);
    var x := Up(g, id, n).value;
    assert Up(g, x, 1) == Some(devices[x].parent.value);
  }

  /** Walking up offline parents ends, because parent chains end. */
  lemma {:induction false} RootCauseExists(devices: map<Id, Device>, id: Id, n: nat) returns (root: Id)
    requires IsForest(ParentsOf(devices)) && OfflineChain(devices, id, n)
    ensures IsRootCause(devices, id, root)
    decreases |devices| + 1 - n
  {
    var g := ParentsOf(devices);
    assert g.Keys == devices.Keys && |g| == |g.Keys| && |devices| == |devices.Keys|;
    if n > |devices| {
      assert n >= |g| + 1;
      ChainsEnd(g, id);
      assert false;
    }
    root := Up(g, id, n).value;
    if ParentOffline(devices, devices[root]) {
      ExtendChain(devices, id, n);
      root := RootCauseExists(devices, id, n + 1);
    }
  }

  /** A cycle announces a root cause exactly when its own settings allow it. */
  lemma RootCauseAlerted(cfg: Settings, devices: map<Id, Device>, id: Id, at: int) returns (root: Id)
    requires IsForest(ParentsOf(devices)) && id in devices && devices[id].status == Offline
    ensures IsRootCause(devices, id, root)
    ensures AlertedIn(cfg, devices, root, at).notifiedAt.Some?
      <==> devices[root].notifiedAt.Some? || Alertable(cfg, devices[root], at)
  {
    assert Up(ParentsOf(devices), id, 0) == Some(id);
    assert OfflineChain(devices, id, 0);
    root := RootCauseExists(devices, id, 0);
  }

  /** Suppression never swallows an outage: it or an offline ancestor is announced. */
  lemma NeverSwallowed(cfg: Settings, devices: map<Id, Device>, at: int)
    requires IsForest(ParentsOf(devices))
    requires forall x :: x in devices && devices[x].status == Offline ==>
               devices[x].notifiedAt.Some? || Alertable(cfg, devices[x], at)
    ensures forall id :: id in devices && devices[id].status == Offline ==>
              exists root :: IsRootCause(devices, id, root) && AlertedIn(cfg, devices, root, at).notifiedAt.Some?
  {
    forall id | id in devices && devices[id].status == Offline
      ensures exists root :: IsRootCause(devices, id, root) && AlertedIn(cfg, devices, root, at).notifiedAt.Some?
    {
      var root := RootCauseAlerted(cfg, devices, id, at);
      var n: nat :| OfflineChain(devices, id, n) && Up(ParentsOf(devices), id, n) == Some(root);
      assert devices[root].status == Offline;
    }
  }

  /** In every reachable state: the parent check on the routes is what makes suppression safe. */
  lemma ReachableNeverSwallowed(cfg: Settings, ops: seq<Op>, clock: int, at: int)
    requires Timed(clock, ops)
    requires var devices := Run(cfg, EMPTY, ops).devices;
      forall x :: x in devices && devices[x].status == Offline ==>
        devices[x].notifiedAt.Some? || Alertable(cfg, devices[x], at)
    ensures var devices := Run(cfg, EMPTY, ops).devices;
      forall id :: id in devices && devices[id].status == Offline ==>
        exists root :: IsRootCause(devices, id, root) && AlertedIn(cfg, devices, root, at).notifiedAt.Some?
  {
    ForestAndSnapshot(cfg, ops, clock);
    NeverSwallowed(cfg, Run(cfg, EMPTY, ops).devices, at);
  }

  /** The four suppression rules, and disabled devices: no alarm goes out. */
  predicate Suppressed(cfg: Settings, devices: map<Id, Device>, d: Device, at: int) {
    || !d.enabled || d.muted || InMaintenance(d, at)
    || (cfg.criticalOnly && !d.critical)
    || ParentOffline(devices, d)
  }

  /** A suppressed device, a child of an offline parent among them, is never newly announced. */
  lemma SuppressedStaysQuiet(cfg: Settings, devices: map<Id, Device>, id: Id, at: int)
    requires id in devices && Suppressed(cfg, devices, devices[id], at)
    ensures var d, d' := devices[id], AlertedIn(cfg, devices, id, at);
      |d'.notices| <= |d.notices| + 1
      && forall i :: |d.notices| <= i < |d'.notices| ==> d'.notices[i].Recovered?
  {
  }

  // ---- Exactly when a notice goes out ----

  /**
   What the documentation asks of an alarm: the device is enabled, not muted, not in
   maintenance, critical if only those count, and not below an offline parent; its
   service check fails or it is offline, and then the outage is old enough.
   */
  ghost predicate AlarmDue(cfg: Settings, devices: map<Id, Device>, d: Device, at: int) {
    && d.enabled && !d.muted
    && (d.maintenanceUntil.Some? ==> d.maintenanceUntil.value <= at)
    && (cfg.criticalOnly ==> d.critical)
    && (d.parent.Some? && d.parent.value in devices ==> devices[d.parent.value].status != Offline)
    && if StatusOf(cfg, d.outcomes) == Offline then at - OutageStart(cfg, d.outcomes) >= cfg.alertAfter
       else d.serviceOk == Some(false)
  }

  /** The device is neither offline nor failing its service check. */
  predicate AllClear(d: Device) {
    d.enabled && d.status != Offline && d.serviceOk != Some(false)
  }

  /** The age of the outage an alarm names; none for an alarm about the service alone. */
  ghost function DownFor(cfg: Settings, d: Device, at: int): Option<int> {
    if StatusOf(cfg, d.outcomes) == Offline then Some(at - OutageStart(cfg, d.outcomes)) else None
  }

  /** Unannounced and an alarm is due: one alarm. Announced and all is clear: one recovery. Otherwise nothing. */
  ghost function RowAfterCycle(cfg: Settings, devices: map<Id, Device>, d: Device, at: int): Device {
    if d.notifiedAt.None? && AlarmDue(cfg, devices, d, at) then
      d.(notifiedAt := Some(at), notices := d.notices + [Alarm(at, DownFor(cfg, d, at))])
    else if d.notifiedAt.Some? && AllClear(d) then
      d.(notifiedAt := None, notices := d.notices + [Recovered(at)])
    else d
  }

  lemma LogTellsOutage(cfg: Settings, d: Device, clock: int)
    requires Consistent(cfg, d, clock)
    ensures d.status == StatusOf(cfg, d.outcomes)
    ensures d.status == Offline ==> OutageStartedAt(d.events) == Some(OutageStart(cfg, d.outcomes))
  {
    hide Streak, OutageStartedAt, Grounded, NoticesAlternate;
    if StatusOf(cfg, d.outcomes) == Offline {
      LogFindsOutageStart(cfg, d.outcomes);
    }
  }

  lemma TurnNotifies(cfg: Settings, devices: map<Id, Device>, d: Device, clock: int, at: int)
    requires Consistent(cfg, d, clock)
    ensures Alerted(cfg, d, ParentOffline(devices, d), at) == RowAfterCycle(cfg, devices, d, at)
  {
    hide Consistent, StatusOf, OutageStart, OutageStartedAt;
    LogTellsOutage(cfg, d, clock);
  }

  /** A cycle does exactly that to a row that is consistent with its history. */
  lemma CycleNotifiesExactly(cfg: Settings, s: State, id: Id, clock: int, at: int)
    requires id in s.devices && Consistent(cfg, s.devices[id], clock)
    ensures AfterAlertCycle(cfg, s, at).devices[id] == RowAfterCycle(cfg, s.devices, s.devices[id], at)
  {
    hide Consistent, Alerted, RowAfterCycle, ParentOffline;
    TurnNotifies(cfg, s.devices, s.devices[id], clock, at);
  }

  /** So in every reachable state: this is what alarms and recoveries mean. */
  lemma ReachableNotifiesExactly(cfg: Settings, ops: seq<Op>, clock: int, id: Id, at: int)
    requires Timed(clock, ops) && id in Run(cfg, EMPTY, ops).devices
    ensures var s := Run(cfg, EMPTY, ops);
      AfterAlertCycle(cfg, s, at).devices[id] == RowAfterCycle(cfg, s.devices, s.devices[id], at)
  {
    hide Run, Timed, AfterAlertCycle, Consistent, RowAfterCycle;
    ReachableConsistent(cfg, ops, clock, id);
    CycleNotifiesExactly(cfg, Run(cfg, EMPTY, ops), id, ClockAfter(clock, ops), at);
  }

  // ---- The switches over runs ----

  /** The routes set what they are asked to and nothing else of any row. */
  lemma MuteSwitches(cfg: Settings, s: State, id: Id, muted: bool)
    requires id in s.devices
    ensures Step(cfg, s, Mute(id, muted)).devices == s.devices[id := s.devices[id].(muted := muted)]
  {
  }

  lemma MaintainSwitches(cfg: Settings, s: State, id: Id, minutes: Option<int>, at: int)
    requires id in s.devices
    ensures Step(cfg, s, Maintain(id, minutes, at)).devices == s.devices[id := s.devices[id].(maintenanceUntil :=
      if minutes.Some? && minutes.value > 0 then Some(at + 60000 * minutes.value) else None)]
  {
  }

  lemma AckSwitches(cfg: Settings, s: State, id: Id, at: int)
    requires id in s.devices
    ensures Step(cfg, s, Ack(id, at)).devices == s.devices[id := s.devices[id].(ackedAt := Some(at))]
  {
  }

  /** Muted, or in a maintenance window that ends then. */
  predicate Hushed(d: Device, until: Option<int>) {
    if until.None? then d.muted else d.maintenanceUntil == until
  }

  /** The step neither lifts that nor outlasts the window. */
  predicate LeavesHush(op: Op, id: Id, until: Option<int>) {
    && !(op.Delete? && op.id == id)
    && if until.None? then !(op.Mute? && op.id == id)
       else !(op.Maintain? && op.id == id) && (op.AlertCycle? ==> op.at < until.value)
  }

  /** The notices grew by recoveries only. */
  ghost predicate NoNewAlarm(before: Device, after: Device) {
    && before.notices <= after.notices
    && forall i :: |before.notices| <= i < |after.notices| ==> after.notices[i].Recovered?
  }

  lemma QuietOn(a: Device, b: Device, c: Device)
    requires NoNewAlarm(a, b) && NoNewAlarm(b, c)
    ensures NoNewAlarm(a, c)
  {
  }

  lemma StepKeepsHushed(cfg: Settings, s: State, op: Op, id: Id, until: Option<int>)
    requires id in s.devices && Hushed(s.devices[id], until) && LeavesHush(op, id, until)
    ensures id in Step(cfg, s, op).devices && Hushed(Step(cfg, s, op).devices[id], until)
  {
    hide Alerted, ParentVerdict, TakenIp, Serialize, StatusAfterCheck, EdgeEvent;
    if op.AlertCycle? {
      TurnKeepsShape(cfg, s.devices[id], ParentOffline(s.devices, s.devices[id]), op.at);
    }
  }

  lemma HushedTurn(cfg: Settings, d: Device, until: Option<int>, parentOffline: bool, at: int)
    requires Hushed(d, until) && (until.Some? ==> at < until.value)
    ensures NoNewAlarm(d, Alerted(cfg, d, parentOffline, at))
  {
    hide OutageStartedAt;
  }

  lemma StepKeepsHush(cfg: Settings, s: State, op: Op, id: Id, until: Option<int>)
    requires id in s.devices && Hushed(s.devices[id], until) && LeavesHush(op, id, until)
    ensures id in Step(cfg, s, op).devices && Hushed(Step(cfg, s, op).devices[id], until)
    ensures NoNewAlarm(s.devices[id], Step(cfg, s, op).devices[id])
  {
    hide Step, Alerted, Hushed;
    StepKeepsHushed(cfg, s, op, id, until);
    OnlyCyclesNotify(cfg, s, op, id);
    if op.AlertCycle? {
      HushedTurn(cfg, s.devices[id], until, ParentOffline(s.devices, s.devices[id]), op.at);
    }
  }

  lemma {:induction false} HushedStaysQuiet(cfg: Settings, s: State, ops: seq<Op>, id: Id, until: Option<int>)
    requires id in s.devices && Hushed(s.devices[id], until)
    requires forall k :: 0 <= k < |ops| ==> LeavesHush(ops[k], id, until)
    ensures var t := Run(cfg, s, ops);
      id in t.devices && Hushed(t.devices[id], until) && NoNewAlarm(s.devices[id], t.devices[id])
  {
    if ops != [] {
      hide Step, LeavesHush, Hushed, NoNewAlarm;
      var t, op := Run(cfg, s, ops[..|ops| - 1]), ops[|ops| - 1];
      HushedStaysQuiet(cfg, s, ops[..|ops| - 1], id, until);
      StepKeepsHush(cfg, t, op, id, until);
      QuietOn(s.devices[id], t.devices[id], Step(cfg, t, op).devices[id]);
    }
  }

  /** Once muted, a device gets no alarm over any run that does not unmute it. */
  lemma MutedStaysQuiet(cfg: Settings, s: State, ops: seq<Op>, id: Id)
    requires id in s.devices && forall k :: 0 <= k < |ops| ==> LeavesHush(ops[k], id, None)
    ensures var t := Run(cfg, Step(cfg, s, Mute(id, true)), ops);
      id in t.devices && t.devices[id].muted && NoNewAlarm(s.devices[id], t.devices[id])
  {
    hide Step, Run, LeavesHush;
    MuteSwitches(cfg, s, id, true);
    HushedStaysQuiet(cfg, Step(cfg, s, Mute(id, true)), ops, id, None);
  }

  /** Put in maintenance for some minutes, it gets none from any cycle before they are over. */
  lemma MaintenanceStaysQuiet(cfg: Settings, s: State, ops: seq<Op>, id: Id, minutes: int, at: int)
    requires id in s.devices && minutes > 0
    requires forall k :: 0 <= k < |ops| ==> LeavesHush(ops[k], id, Some(at + 60000 * minutes))
    ensures var t := Run(cfg, Step(cfg, s, Maintain(id, Some(minutes), at)), ops);
      id in t.devices && NoNewAlarm(s.devices[id], t.devices[id])
  {
    hide Step, Run, LeavesHush;
    MaintainSwitches(cfg, s, id, Some(minutes), at);
    HushedStaysQuiet(cfg, Step(cfg, s, Maintain(id, Some(minutes), at)), ops, id, Some(at + 60000 * minutes));
  }

  // ---- Acknowledgements ----

  /**
   A device that comes back online loses its acknowledgement exactly if a check saw it, not if the
   simulate route did it.
   */
  lemma RecoveryClearsAckIffChecked(cfg: Settings, s: State, op: Op, id: Id)
    requires id in s.devices && id in Step(cfg, s, op).devices
    requires s.devices[id].ackedAt.Some? && s.devices[id].status != Online
    requires Step(cfg, s, op).devices[id].status == Online
    ensures op.Check? || op.Simulate?
    ensures Step(cfg, s, op).devices[id].ackedAt.None? <==> op.Check?
  {
    if !op.Check? && !op.Simulate? {
      OtherStepsKeepAlarm(cfg, s, op, id);
    }
    hide AfterAlertCycle, AfterCreate, AfterUpdate, AfterDelete, AfterSwitch, EdgeEvent;
  }

  /** Neither the alarm nor, without the ack route, the acknowledgement changes. */
  lemma OtherStepsKeepAlarm(cfg: Settings, s: State, op: Op, id: Id)
    requires id in s.devices && id in Step(cfg, s, op).devices && !op.Check? && !op.Simulate?
    ensures var d, d' := s.devices[id], Step(cfg, s, op).devices[id];
      && d'.status == d.status && d'.serviceOk == d.serviceOk
      && (d.ackedAt.Some? ==> d'.ackedAt.Some?) && (d'.ackedAt != d.ackedAt ==> op.Ack? && op.id == id)
  {
    hide AfterAlertCycle, ParentVerdict, TakenIp, Serialize;
    if op.AlertCycle? {
      CycleKeepsShape(cfg, s, op.at);
    }
  }

  /**
   The steps after which the acknowledgement of a device in alarm still tells the
   truth. A check with a reply drops it, so the service must be right too; one without
   must leave the device in alarm; the simulate route keeps it, so the service must
   still be failing.
   */
  predicate AckStaysTrue(cfg: Settings, d: Device, op: Op, id: Id) {
    match op
    case Check(x, alive, service, _) =>
      x == id && d.enabled ==>
        if alive then service != Some(false)
        else d.failures + 1 >= cfg.flapThreshold || service == Some(false)
    case Simulate(x, online, _) => x == id && online ==> d.serviceOk == Some(false)
    case _ => true
  }

  /** An acknowledgement is kept for as long as the alarm and no longer: exactly over these steps. */
  lemma AckFollowsAlarmIff(cfg: Settings, s: State, op: Op, id: Id)
    requires id in s.devices && id in Step(cfg, s, op).devices
    requires s.devices[id].ackedAt.Some? && InAlarm(s.devices[id])
    ensures var d' := Step(cfg, s, op).devices[id];
      (d'.ackedAt.Some? <==> InAlarm(d')) <==> AckStaysTrue(cfg, s.devices[id], op, id)
  {
    if op.Check? || op.Simulate? {
      hide ParentVerdict, TakenIp, Serialize, EdgeEvent;
    } else {
      OtherStepsKeepAlarm(cfg, s, op, id);
      hide Step;
    }
  }

  /** An alarm that a check leaves on the service alone loses its acknowledgement. */
  lemma ServiceAlarmLosesAck(cfg: Settings, d: Device, at: int)
    requires InAlarm(d) && d.ackedAt.Some?
    ensures var d' := Checked(cfg, d, true, Some(false), at);
      InAlarm(d') && d'.ackedAt.None?
  {
  }

  /** A service alarm that ends while a ping is missed keeps it. */
  lemma MissedPingKeepsAck(cfg: Settings, d: Device, at: int)
    requires d.status == Online && d.serviceOk == Some(false) && d.ackedAt.Some?
    requires d.failures + 1 < cfg.flapThreshold
    ensures var d' := Checked(cfg, d, false, Some(true), at);
      InAlarm(d) && !InAlarm(d') && d'.ackedAt == d.ackedAt
  {
  }

  /** So does an outage that the simulate route ends. */
  lemma ForcedRecoveryKeepsAck(cfg: Settings, d: Device, at: int)
    requires d.status == Offline && d.serviceOk != Some(false) && d.ackedAt.Some?
    ensures var d' := Forced(cfg, d, true, at);
      InAlarm(d) && !InAlarm(d') && d'.ackedAt == d.ackedAt
  {
  }

  /** No applied check of the device in this run got a reply. */
  ghost predicate NoReply(cfg: Settings, s: State, ops: seq<Op>, id: Id) {
    ops != [] ==>
      var init, op := ops[..|ops| - 1], ops[|ops| - 1];
      var t := Run(cfg, s, init);
      && NoReply(cfg, s, init, id)
      && !(op.Check? && op.id == id && op.alive && id in t.devices && t.devices[id].enabled)
  }

  lemma StepDropsAckIff(cfg: Settings, s: State, op: Op, id: Id)
    requires id in s.devices && id in Step(cfg, s, op).devices && !(op.Ack? && op.id == id)
    ensures Step(cfg, s, op).devices[id].ackedAt.Some? <==>
      s.devices[id].ackedAt.Some? && !(op.Check? && op.id == id && op.alive && s.devices[id].enabled)
  {
    if op.Check? || op.Simulate? {
      hide ParentVerdict, TakenIp, Serialize, EdgeEvent;
    } else {
      OtherStepsKeepAlarm(cfg, s, op, id);
      hide Step;
    }
  }

  /**
   Over a run, until it is given again: an acknowledgement outlives everything but an answered
   check, alarm or not.
   */
  lemma {:induction false} AckHeldIffNoReply(cfg: Settings, s: State, ops: seq<Op>, id: Id)
    requires PresentThroughout(cfg, s, ops, id) && id in s.devices && s.devices[id].ackedAt.Some?
    requires forall k :: 0 <= k < |ops| ==> !(ops[k].Ack? && ops[k].id == id)
    ensures id in Run(cfg, s, ops).devices
    ensures Run(cfg, s, ops).devices[id].ackedAt.Some? <==> NoReply(cfg, s, ops, id)
  {
    hide Step;
    if ops != [] {
      AckHeldIffNoReply(cfg, s, ops[..|ops| - 1], id);
      StepDropsAckIff(cfg, Run(cfg, s, ops[..|ops| - 1]), ops[|ops| - 1], id);
    }
  }

  // ---- Why the forest matters ----

  /** A device on a dependency cycle all of whose members are down. */
  ghost predicate OnDeadCycle(devices: map<Id, Device>, id: Id) {
    exists n: nat :: n > 0 && OfflineChain(devices, id, n) && Up(ParentsOf(devices), id, n) == Some(id)
  }

  lemma DeadCycleIsCollateral(devices: map<Id, Device>, id: Id)
    requires OnDeadCycle(devices, id)
    ensures id in devices && devices[id].status == Offline && ParentOffline(devices, devices[id])
  {
    var n: nat :| n > 0 && OfflineChain(devices, id, n) && Up(ParentsOf(devices), id, n) == Some(id);
    var g := ParentsOf(devices);
    var p := Up(g, id, 1);
    assert Up(g, id, 0) == Some(id);
    assert g[id].Some? && Up(g, g[id].value, 0) == g[id];
    assert p == g[id];
  }

  ghost function CyclesOnly(cfg: Settings, s: State, ticks: seq<int>): State {
    if ticks == [] then s
    else AfterAlertCycle(cfg, CyclesOnly(cfg, s, ticks[..|ticks| - 1]), ticks[|ticks| - 1])
  }

  lemma CollateralUnchanged(cfg: Settings, s: State, id: Id, at: int)
    requires id in s.devices && s.devices[id].status == Offline && ParentOffline(s.devices, s.devices[id])
    ensures AfterAlertCycle(cfg, s, at).devices[id] == s.devices[id]
  {
  }

  /** Without the parent check, such a device would never be announced, at any time. */
  lemma {:induction false} DeadCycleIsSilent(cfg: Settings, s: State, ticks: seq<int>, id: Id)
    requires OnDeadCycle(s.devices, id)
    ensures var s' := CyclesOnly(cfg, s, ticks);
      && s'.devices.Keys == s.devices.Keys
      && (forall x :: x in s.devices ==> s'.devices[x].status == s.devices[x].status)
      && id in s.devices && s'.devices[id] == s.devices[id]
  {
    hide AfterAlertCycle;
    DeadCycleIsCollateral(s.devices, id);
    if ticks != [] {
      var init, at := ticks[..|ticks| - 1], ticks[|ticks| - 1];
      DeadCycleIsSilent(cfg, s, init, id);
      var t := CyclesOnly(cfg, s, init);
      CycleKeepsShape(cfg, t, at);
      CollateralUnchanged(cfg, t, id, at);
    }
  }
}
