/**
 The adaptive cadence: a device that is, or was, not online when a check commits is
 probed fast for a volatile window, every other one slowly. The volatile deadlines of
 the running loop are compared with the marks a trace of its ticks shows.
 */
module Cadence {
  import opened Basics
  import opened Devices
  import opened Monitor
  import opened Scheduler
  import opened Detection

  // ---- The first check ----

  /** A new row is scheduled by the next refresh exactly if it is enabled, within one slow interval. */
  lemma CreatedIsScheduledIff(cfg: Settings, c: Collector, hash: Id -> int, now: int, id: Id, host: Host,
                              parent: Option<Id>, enabled: bool, critical: bool)
    requires cfg.slowInterval > 0 && id !in c.plan.due
    requires AfterCreate(c.state, id, host, parent, enabled, critical).1 == Done
    ensures var c' := c.(state := AfterCreate(c.state, id, host, parent, enabled, critical).0);
      var due := AtTickStart(cfg, c', hash, now).plan.due;
      && (id in due <==> enabled)
      && (enabled ==> now <= due[id] < now + cfg.slowInterval && due[id] == now + hash(id) % cfg.slowInterval)
  {
    hide ParentVerdict, TakenIp;
  }

  /** A refresh keeps the time of a device that stays enabled, and drops one that does not. */
  lemma RefreshKeepsTimes(cfg: Settings, c: Collector, hash: Id -> int, now: int, id: Id)
    requires cfg.slowInterval > 0 && id in c.plan.due
    ensures var due := AtTickStart(cfg, c, hash, now).plan.due;
      && (id in due <==> id in c.state.devices && c.state.devices[id].enabled)
      && (id in due ==> due[id] == c.plan.due[id])
  {
  }

  // ---- Marks ----

  /** The tick checked the device, and it is or was not online. */
  predicate Marks(r: Round, id: Id) {
    && id in r.before.state.devices && r.before.state.devices[id].enabled
    && id in r.tick.order && id in r.tick.results
    && (!r.tick.results[id].alive || r.before.state.devices[id].status != Online)
  }

  /** When the device was last marked, for as long as it has been scheduled without a break. */
  ghost function LastMark(tr: seq<Round>, k: nat, id: Id): Option<int>
    requires k < |tr|
    decreases k
  {
    var devices := tr[k].before.state.devices;
    if id !in devices || !devices[id].enabled then None
    else if Marks(tr[k], id) then Some(tr[k].tick.results[id].mono)
    else if k == 0 then None
    else LastMark(tr, k - 1, id)
  }

  /** What all checks of a tick do to one deadline. */
  lemma {:induction false} CheckedOnce(cfg: Settings, c: Collector, order: seq<Id>, results: map<Id, Probe>, id: Id)
    requires Distinct(order) && id in order && id in c.state.devices && c.state.devices[id].enabled
    ensures var v, v' := c.plan.volatileUntil, AfterChecks(cfg, c, order, results).plan.volatileUntil;
      if id in results && (!results[id].alive || c.state.devices[id].status != Online)
      then id in v' && v'[id] == results[id].mono + cfg.volatileWindow
      else (id in v' <==> id in v) && (id in v ==> v'[id] == v[id])
  {
    var init, last := order[..|order| - 1], order[|order| - 1];
    if last == id {
      ChecksElsewhere(cfg, c, init, results, id);
    } else {
      CheckedOnce(cfg, c, init, results, id);
    }
  }

  /** What a tick does to one deadline. */
  lemma TickMarks(cfg: Settings, r: Round, hash: Id -> int, id: Id)
    requires cfg.slowInterval > 0 && r.before.plan.volatileUntil.Keys <= r.before.plan.due.Keys
    requires ProperTick(AtTickStart(cfg, r.before, hash, r.tick.now).plan, r.tick)
    ensures var v, v' := r.before.plan.volatileUntil, AfterTick(cfg, r.before, hash, r.tick).plan.volatileUntil;
      var devices := r.before.state.devices;
      if id !in devices || !devices[id].enabled then id !in v'
      else if Marks(r, id) then id in v' && v'[id] == r.tick.results[id].mono + cfg.volatileWindow
      else (id in v' <==> id in v) && (id in v ==> v'[id] == v[id])
  {
    hide AfterChecks, NextInterval;
    var c := AtTickStart(cfg, r.before, hash, r.tick.now);
    if id in r.tick.order {
      OrderIsEnabled(cfg, r, hash, id);
      CheckedOnce(cfg, c, r.tick.order, r.tick.results, id);
    } else {
      ChecksElsewhere(cfg, c, r.tick.order, r.tick.results, id);
    }
  }

  lemma OrderIsEnabled(cfg: Settings, r: Round, hash: Id -> int, id: Id)
    requires cfg.slowInterval > 0
    requires ProperTick(AtTickStart(cfg, r.before, hash, r.tick.now).plan, r.tick) && id in r.tick.order
    ensures id in r.before.state.devices && r.before.state.devices[id].enabled
  {
    assert id in Elements(r.tick.order);
  }

  lemma RoundOf(cfg: Settings, hash: Id -> int, bound: int, tr: seq<Round>, k: nat)
    requires cfg.slowInterval > 0 && IsTrace(cfg, hash, bound, tr) && k < |tr|
    ensures ProperTick(AtTickStart(cfg, tr[k].before, hash, tr[k].tick.now).plan, tr[k].tick)
    ensures tr[k].after == AfterTick(cfg, tr[k].before, hash, tr[k].tick)
    ensures k == 0 ==> tr[k].before.plan == Plan(map[], map[])
    ensures k > 0 ==> tr[k].before.plan == tr[k - 1].after.plan && tr[k - 1].tick.after <= tr[k].tick.now
  {
    hide ProperTick, AfterTick, AtTickStart;
  }

  /** The deadline table holds exactly the last marks, each a window later. */
  lemma {:induction false} DeadlinesAreMarks(cfg: Settings, hash: Id -> int, bound: int, tr: seq<Round>, k: nat, id: Id)
    requires cfg.slowInterval > 0 && IsTrace(cfg, hash, bound, tr) && k < |tr|
    ensures var v := tr[k].after.plan.volatileUntil;
      && v.Keys <= tr[k].after.plan.due.Keys
      && (id in v <==> LastMark(tr, k, id).Some?)
      && (id in v ==> v[id] == LastMark(tr, k, id).value + cfg.volatileWindow)
    decreases k
  {
    hide IsTrace, ProperTick, AtTickStart, AfterTick, Marks;
    RoundOf(cfg, hash, bound, tr, k);
    if k > 0 {
      DeadlinesAreMarks(cfg, hash, bound, tr, k - 1, id);
    }
    TickSchedulesEnabled(cfg, tr[k].before, hash, tr[k].tick);
    TickMarks(cfg, tr[k], hash, id);
  }

  // ---- The cadence ----

  lemma CheckedIsDue(cfg: Settings, c: Collector, hash: Id -> int, t: Tick, id: Id)
    requires cfg.slowInterval > 0 && id in t.order
    ensures var plan := AfterTick(cfg, c, hash, t).plan;
      id in plan.due && plan.due[id] == t.after + NextInterval(cfg, plan.volatileUntil, id, t.after)
  {
    hide AfterChecks, NextInterval;
    assert id in Elements(t.order);
  }

  /**
   A device that a tick has checked is due again exactly one fast interval after the
   end of the tick if it was last marked less than a volatile window before, and
   exactly one slow interval after it otherwise.
   */
  lemma NextCheckExactly(cfg: Settings, hash: Id -> int, bound: int, tr: seq<Round>, k: nat, id: Id)
    requires cfg.slowInterval > 0 && IsTrace(cfg, hash, bound, tr) && k < |tr|
    requires id in tr[k].tick.order && 0 <= tr[k].tick.after
    ensures var mark, after, due := LastMark(tr, k, id), tr[k].tick.after, tr[k].after.plan.due;
      && id in due
      && due[id] == after + if mark.Some? && after - mark.value < cfg.volatileWindow then cfg.fastInterval
                            else cfg.slowInterval
  {
    hide IsTrace, ProperTick, AtTickStart, AfterTick, LastMark;
    RoundOf(cfg, hash, bound, tr, k);
    DeadlinesAreMarks(cfg, hash, bound, tr, k, id);
    CheckedIsDue(cfg, tr[k].before, hash, tr[k].tick, id);
  }

  // ---- A device that answers relaxes ----

  /** From tick m to tick k the device was found enabled and online, and answered whenever it was checked. */
  ghost predicate Answering(tr: seq<Round>, m: nat, k: nat, id: Id)
    requires k < |tr|
  {
    forall h :: m <= h <= k ==>
      && id in tr[h].before.state.devices && tr[h].before.state.devices[id].enabled
      && tr[h].before.state.devices[id].status == Online
      && (id in tr[h].tick.order && id in tr[h].tick.results ==> tr[h].tick.results[id].alive)
  }

  lemma MarkIsEarlier(cfg: Settings, hash: Id -> int, bound: int, tr: seq<Round>, k: nat, id: Id)
    requires cfg.slowInterval > 0 && IsTrace(cfg, hash, bound, tr) && k < |tr|
    ensures Marks(tr[k], id) ==> tr[k].tick.results[id].mono <= tr[k].tick.after
    ensures tr[k].tick.now <= tr[k].tick.after
  {
    RoundOf(cfg, hash, bound, tr, k);
  }

  /** A mark is no later than the tick that made it. */
  lemma {:induction false} LastMarkBefore(cfg: Settings, hash: Id -> int, bound: int, tr: seq<Round>, k: nat, id: Id)
    requires cfg.slowInterval > 0 && IsTrace(cfg, hash, bound, tr) && k < |tr|
    ensures LastMark(tr, k, id).Some? ==> LastMark(tr, k, id).value <= tr[k].tick.after
    decreases k
  {
    hide IsTrace, Marks, ProperTick, AfterTick, AtTickStart;
    MarkIsEarlier(cfg, hash, bound, tr, k, id);
    RoundOf(cfg, hash, bound, tr, k);
    if k > 0 {
      LastMarkBefore(cfg, hash, bound, tr, k - 1, id);
    }
  }

  /** While it answers it is not marked again. */
  lemma {:induction false} AnsweringIsUnmarked(cfg: Settings, hash: Id -> int, bound: int, tr: seq<Round>,
                                               m: nat, k: nat, id: Id)
    requires cfg.slowInterval > 0 && IsTrace(cfg, hash, bound, tr) && m <= k < |tr| && Answering(tr, m, k, id)
    ensures LastMark(tr, k, id).Some? ==> LastMark(tr, k, id).value <= tr[m].tick.now
    decreases k
  {
    hide IsTrace, ProperTick, AfterTick, AtTickStart;
    assert !Marks(tr[k], id);
    if m < k {
      AnsweringIsUnmarked(cfg, hash, bound, tr, m, k - 1, id);
    } else if k > 0 {
      RoundOf(cfg, hash, bound, tr, k);
      LastMarkBefore(cfg, hash, bound, tr, k - 1, id);
    }
  }

  /** A device that has answered for a volatile window is next due a slow interval after the tick that checks it. */
  lemma AnsweringRelaxes(cfg: Settings, hash: Id -> int, bound: int, tr: seq<Round>, m: nat, k: nat, id: Id)
    requires cfg.slowInterval > 0 && IsTrace(cfg, hash, bound, tr) && m <= k < |tr| && Answering(tr, m, k, id)
    requires tr[k].tick.after - tr[m].tick.now >= cfg.volatileWindow
    requires id in tr[k].tick.order && 0 <= tr[k].tick.after
    ensures id in tr[k].after.plan.due && tr[k].after.plan.due[id] == tr[k].tick.after + cfg.slowInterval
  {
    hide IsTrace, LastMark, Answering;
    AnsweringIsUnmarked(cfg, hash, bound, tr, m, k, id);
    NextCheckExactly(cfg, hash, bound, tr, k, id);
  }

  /** No check comes before the time the plan chose, while the device stays enabled. */
  lemma {:induction false} NotBeforeDue(cfg: Settings, hash: Id -> int, bound: int, tr: seq<Round>, k: nat, j: nat,
                                        id: Id)
    requires cfg.slowInterval > 0 && IsTrace(cfg, hash, bound, tr) && k < j < |tr|
    requires id in tr[k].after.plan.due && id in tr[j].tick.order
    requires forall h :: k < h <= j ==>
      id in tr[h].before.state.devices && tr[h].before.state.devices[id].enabled
    ensures tr[j].tick.now >= tr[k].after.plan.due[id]
    decreases j - k
  {
    hide IsTrace, AfterTick, AtTickStart;
    var n := k + 1;
    RoundOf(cfg, hash, bound, tr, n);
    KeptDue(cfg, tr[n].before, hash, tr[n].tick.now, id);
    if id in tr[n].tick.order {
      OrderIsDue(cfg, tr[n], hash, id);
      TicksInOrder(cfg, hash, bound, tr, n, j);
    } else {
      NotCheckedIsKept(cfg, tr[n], hash, id);
      NotBeforeDue(cfg, hash, bound, tr, n, j, id);
    }
  }

  lemma OrderIsDue(cfg: Settings, r: Round, hash: Id -> int, id: Id)
    requires cfg.slowInterval > 0
    requires ProperTick(AtTickStart(cfg, r.before, hash, r.tick.now).plan, r.tick) && id in r.tick.order
    ensures var due := AtTickStart(cfg, r.before, hash, r.tick.now).plan.due;
      id in due && due[id] <= r.tick.now
  {
    assert id in Elements(r.tick.order);
  }

  lemma NotCheckedIsKept(cfg: Settings, r: Round, hash: Id -> int, id: Id)
    requires cfg.slowInterval > 0 && id !in r.tick.order
    requires id in AtTickStart(cfg, r.before, hash, r.tick.now).plan.due
    ensures var due, due' := AtTickStart(cfg, r.before, hash, r.tick.now).plan.due,
                             AfterTick(cfg, r.before, hash, r.tick).plan.due;
      id in due' && due'[id] == due[id]
  {
    hide AfterChecks, NextInterval;
    ChecksKeepDue(cfg, AtTickStart(cfg, r.before, hash, r.tick.now), r.tick.order, r.tick.results);
  }

  /** So two checks of a device that has answered that long are at least a slow interval apart. */
  lemma SlowApart(cfg: Settings, hash: Id -> int, bound: int, tr: seq<Round>, m: nat, k: nat, j: nat, id: Id)
    requires cfg.slowInterval > 0 && IsTrace(cfg, hash, bound, tr) && m <= k < j < |tr| && Answering(tr, m, k, id)
    requires tr[k].tick.after - tr[m].tick.now >= cfg.volatileWindow && 0 <= tr[k].tick.after
    requires id in tr[k].tick.order && id in tr[j].tick.order
    requires forall h :: k < h <= j ==>
      id in tr[h].before.state.devices && tr[h].before.state.devices[id].enabled
    ensures tr[j].tick.now >= tr[k].tick.after + cfg.slowInterval
  {
    hide IsTrace, Answering;
    AnsweringRelaxes(cfg, hash, bound, tr, m, k, id);
    NotBeforeDue(cfg, hash, bound, tr, k, j, id);
  }
}
