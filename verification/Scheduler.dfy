/**
 The staggered, adaptive probe scheduler: which device is due when, and what one
 tick of the ping loop does to the schedule and to the devices.
 */
module Scheduler {
  import opened Basics
  import opened Devices
  import opened Monitor
  import opened Backend

  /** Next-check times and volatile deadlines, on the monotonic clock. */
  datatype Plan = Plan(due: map<Id, int>, volatileUntil: map<Id, int>)

  datatype Collector = Collector(state: State, plan: Plan)

  /** What one check brought: its result, when phase 3 ran, and whether its commit went through. */
  datatype Probe = Probe(alive: bool, service: Option<bool>, at: int, mono: int, committed: bool)

  /** A tick: its start, the order in which checks committed, their results, its end. */
  datatype Tick = Tick(now: int, order: seq<Id>, results: map<Id, Probe>, after: int)

  function EnabledIds(devices: map<Id, Device>): set<Id> {
    set id | id in devices && devices[id].enabled
  }

  function DueSet(plan: Plan, now: int): set<Id> {
    set id | id in plan.due && plan.due[id] <= now
  }

  function NextInterval(cfg: Settings, volatileUntil: map<Id, int>, id: Id, now: int): int {
    if now < (if id in volatileUntil then volatileUntil[id] else 0) then cfg.fastInterval else cfg.slowInterval
  }

  /** A stable offset in [0, slowInterval) spreads first checks out. */
  function Refreshed(cfg: Settings, plan: Plan, enabled: set<Id>, hash: Id -> int, now: int): Plan
    requires cfg.slowInterval > 0
  {
    Plan(map id | id in enabled :: if id in plan.due then plan.due[id] else now + hash(id) % cfg.slowInterval,
         plan.volatileUntil - (plan.due.Keys - enabled))
  }

  /**
   Before its commit, phase 3 marks a device that is not, or was not, online as volatile: also if
   the commit raises.
   */
  function AfterOneCheck(cfg: Settings, c: Collector, id: Id, p: Probe): Collector {
    var s, s' := c.state, AfterCheck(cfg, c.state, id, p.alive, p.service, p.at);
    var unsettled := id in s.devices && s.devices[id].enabled
                     && (s'.devices[id].status != Online || s.devices[id].status != Online);
    Collector(if p.committed then s' else s,
              if unsettled then c.plan.(volatileUntil := c.plan.volatileUntil[id := p.mono + cfg.volatileWindow])
              else c.plan)
  }

  /** A check without a result raised before phase 3; it changes nothing. */
  function AfterChecks(cfg: Settings, c: Collector, order: seq<Id>, results: map<Id, Probe>): Collector {
    if order == [] then c
    else
      var c', id := AfterChecks(cfg, c, order[..|order| - 1], results), order[|order| - 1];
      if id in results then AfterOneCheck(cfg, c', id, results[id]) else c'
  }

  function Rescheduled(cfg: Settings, plan: Plan, checked: set<Id>, after: int): Plan {
    plan.(due := map id | id in plan.due.Keys + checked ::
                   if id in checked then after + NextInterval(cfg, plan.volatileUntil, id, after) else plan.due[id])
  }

  function AfterRunDue(cfg: Settings, c: Collector, t: Tick): Collector {
    var c' := AfterChecks(cfg, c, t.order, t.results);
    c'.(plan := Rescheduled(cfg, c'.plan, Elements(t.order), t.after))
  }

  function AtTickStart(cfg: Settings, c: Collector, hash: Id -> int, now: int): Collector
    requires cfg.slowInterval > 0
  {
    c.(plan := Refreshed(cfg, c.plan, EnabledIds(c.state.devices), hash, now))
  }

  function AfterTick(cfg: Settings, c: Collector, hash: Id -> int, t: Tick): Collector
    requires cfg.slowInterval > 0
  {
    AfterRunDue(cfg, AtTickStart(cfg, c, hash, t.now), t)
  }

  /** Exactly the due devices are checked, once each, within the tick. */
  ghost predicate ProperTick(plan: Plan, t: Tick) {
    && Distinct(t.order) && Elements(t.order) == DueSet(plan, t.now)
    && t.now <= t.after
    && forall id :: id in t.results ==> t.now <= t.results[id].mono <= t.after
  }

  // ---- What a tick promises ----

  lemma OneCheckKeepsDue(cfg: Settings, c: Collector, id: Id, p: Probe)
    ensures var c' := AfterOneCheck(cfg, c, id, p);
      && c'.plan.due == c.plan.due
      && c'.state.devices.Keys == c.state.devices.Keys
      && c'.plan.volatileUntil.Keys <= c.plan.volatileUntil.Keys + {id}
      && forall id :: id in c.state.devices ==> c'.state.devices[id].enabled == c.state.devices[id].enabled
  {
  }

  lemma {:induction false} ChecksKeepDue(cfg: Settings, c: Collector, order: seq<Id>, results: map<Id, Probe>)
    ensures var c' := AfterChecks(cfg, c, order, results);
      && c'.plan.due == c.plan.due
      && c'.state.devices.Keys == c.state.devices.Keys
      && c'.plan.volatileUntil.Keys <= c.plan.volatileUntil.Keys + Elements(order)
      && forall id :: id in c.state.devices ==> c'.state.devices[id].enabled == c.state.devices[id].enabled
  {
    if order != [] {
      var init, id := order[..|order| - 1], order[|order| - 1];
      ChecksKeepDue(cfg, c, init, results);
      hide AfterOneCheck;
      if id in results {
        OneCheckKeepsDue(cfg, AfterChecks(cfg, c, init, results), id, results[id]);
      }
    }
  }

  /** After a refresh the enabled devices are scheduled, and only they can be volatile. */
  lemma RefreshSchedulesEnabled(cfg: Settings, c: Collector, hash: Id -> int, now: int)
    requires cfg.slowInterval > 0
    requires c.plan.volatileUntil.Keys <= c.plan.due.Keys
    ensures var plan := AtTickStart(cfg, c, hash, now).plan;
      && plan.due.Keys == EnabledIds(c.state.devices)
      && plan.volatileUntil.Keys <= plan.due.Keys
  {
  }

  /** A tick leaves nothing due at its start time. */
  lemma NothingLeftDue(cfg: Settings, c: Collector, hash: Id -> int, t: Tick)
    requires cfg.slowInterval > 0 && cfg.fastInterval > 0
    requires ProperTick(AtTickStart(cfg, c, hash, t.now).plan, t)
    ensures DueSet(AfterTick(cfg, c, hash, t).plan, t.now) == {}
  {
    var c0 := AtTickStart(cfg, c, hash, t.now);
    ChecksKeepDue(cfg, c0, t.order, t.results);
    forall id | id in AfterTick(cfg, c, hash, t).plan.due
      ensures AfterTick(cfg, c, hash, t).plan.due[id] > t.now
    {
      assert id in DueSet(c0.plan, t.now) <==> id in Elements(t.order);
    }
  }

  /** Over every tick the enabled devices stay scheduled, and only they can be volatile. */
  lemma TickSchedulesEnabled(cfg: Settings, c: Collector, hash: Id -> int, t: Tick)
    requires cfg.slowInterval > 0 && c.plan.volatileUntil.Keys <= c.plan.due.Keys
    requires ProperTick(AtTickStart(cfg, c, hash, t.now).plan, t)
    ensures var plan := AfterTick(cfg, c, hash, t).plan;
      plan.due.Keys == EnabledIds(c.state.devices) && plan.volatileUntil.Keys <= plan.due.Keys
  {
    RefreshSchedulesEnabled(cfg, c, hash, t.now);
    ChecksKeepDue(cfg, AtTickStart(cfg, c, hash, t.now), t.order, t.results);
  }

  // ---- The running scheduler ----

  class PingLoop {
    const cfg: Settings
    const db: Database
    var schedule: map<Id, int>
    var volatileUntil: map<Id, int>

    constructor (db: Database)
      ensures this.db == db && cfg == db.cfg
      ensures schedule == map[] && volatileUntil == map[]
    {
      this.db, cfg := db, db.cfg;
      schedule, volatileUntil := map[], map[];
    }

    ghost predicate Valid() {
      cfg == db.cfg
    }

    function Contents(): Collector
      reads this, db
    {
      Collector(db.Contents(), Plan(schedule, volatileUntil))
    }

    /** Drop what is gone or disabled, spread newcomers over the slow interval. */
    method RefreshSchedule(hash: Id -> int, now: int)
      requires cfg.slowInterval > 0
      modifies this
      ensures Contents() == AtTickStart(cfg, old(Contents()), hash, now)
    {
      var ids := EnabledIds(db.devices);
      ghost var due0, vol0 := schedule, volatileUntil;
      var todo := schedule.Keys - ids;
      while todo != {}
        invariant todo <= due0.Keys - ids
        invariant schedule == due0 - (due0.Keys - ids - todo)
        invariant volatileUntil == vol0 - (due0.Keys - ids - todo)
      {
        var did :| did in todo;
        todo := todo - {did};
        schedule := schedule - {did};
        volatileUntil := volatileUntil - {did};
      }
      ghost var kept := schedule;
      todo := ids - schedule.Keys;
      while todo != {}
        invariant todo <= ids - kept.Keys
        invariant volatileUntil == vol0 - (due0.Keys - ids)
        invariant schedule.Keys == ids - todo
        invariant forall id :: id in schedule ==>
                    schedule[id] == if id in due0 then due0[id] else now + hash(id) % cfg.slowInterval
      {
        var did :| did in todo;
        todo := todo - {did};
        schedule := schedule[did := now + hash(did) % cfg.slowInterval];
      }
      assert schedule == Refreshed(cfg, Plan(due0, vol0), ids, hash, now).due;
    }

    /** One device's check; without a result the check raised before phase 3 and was only logged. */
    method CheckOne(id: Id, result: Option<Probe>)
      requires Valid()
      modifies this`volatileUntil, db
      ensures Contents() == match result
              case None => old(Contents())
              case Some(p) => AfterOneCheck(cfg, old(Contents()), id, p)
    {
      if result.Some? {
        var p := result.value;
        var unsettled := false;
        if p.committed {
          unsettled := db.CommitCheck(id, p.alive, p.service, p.at);
        } else if id in db.devices && db.devices[id].enabled {
          var device := Database.ApplyResult(cfg, db.devices[id], p.alive, p.service, p.at);
          unsettled := device.status != Online || device.status != db.devices[id].status;
        }
        if unsettled {
          volatileUntil := volatileUntil[id := p.mono + cfg.volatileWindow];
        }
      }
    }

    /** Check everything that is due, then give each device its own next time. */
    method RunDue(t: Tick)
      requires Valid()
      requires ProperTick(Contents().plan, t)
      modifies this, db
      ensures Contents() == AfterRunDue(cfg, old(Contents()), t)
    {
      CheckAll(t);
      Reschedule(t.order, t.after);
    }

    method CheckAll(t: Tick)
      requires Valid()
      modifies this`volatileUntil, db
      ensures Contents() == AfterChecks(cfg, old(Contents()), t.order, t.results)
    {
      hide AfterOneCheck;
      ghost var c := Contents();
      for i := 0 to |t.order|
        invariant Contents() == AfterChecks(cfg, c, t.order[..i], t.results)
      {
        assert t.order[..i + 1][..i] == t.order[..i];
        CheckOne(t.order[i], if t.order[i] in t.results then Some(t.results[t.order[i]]) else None);
      }
      assert t.order[..|t.order|] == t.order;
    }

    method Reschedule(order: seq<Id>, after: int)
      modifies this`schedule
      ensures Plan(schedule, volatileUntil)
              == Rescheduled(cfg, old(Plan(schedule, volatileUntil)), Elements(order), after)
    {
      ghost var plan := Plan(schedule, volatileUntil);
      for i := 0 to |order|
        invariant schedule == Rescheduled(cfg, plan, Elements(order[..i]), after).due
      {
        assert Elements(order[..i + 1]) == Elements(order[..i]) + {order[i]};
        schedule := schedule[order[i] := after + NextInterval(cfg, volatileUntil, order[i], after)];
      }
      assert order[..|order|] == order;
    }
  }
}
