/**
 The routes, phase 3 of a check and the alert cycle as they run: each changes the
 device table, the Redis snapshot and the status channel in place, and is proved
 equal to one step of the Monitor specification.
 */
module Backend {
  import opened Basics
  import opened Forest
  import opened Devices
  import opened Monitor

  // ---- An alert cycle in progress ----

  function AfterAlertOne(cfg: Settings, s: State, id: Id, at: int): State
    requires id in s.devices
  {
    var d := AlertedIn(cfg, s.devices, id, at);
    if d == s.devices[id] then s else Put(s, id, d)
  }

  /** Between s and the end of the cycle t: the devices in done have had their turn. */
  ghost function PartialCycle(s: State, t: State, done: set<Id>): (p: State)
    requires s.devices.Keys == t.devices.Keys == s.cache.Keys == t.cache.Keys
    ensures p.devices.Keys == s.devices.Keys && p.published == s.published
  {
    s.(devices := map id | id in s.devices :: if id in done then t.devices[id] else s.devices[id],
       cache := map id | id in s.cache :: if id in done then t.cache[id] else s.cache[id])
  }

  lemma CycleKeys(cfg: Settings, s: State, at: int)
    requires s.cache.Keys == s.devices.Keys
    ensures var t := AfterAlertCycle(cfg, s, at);
      t.devices.Keys == t.cache.Keys == s.devices.Keys && t.published == s.published
  {
  }

  /** A device's turn does not depend on who went before it. */
  lemma TurnIsIndependent(cfg: Settings, s: State, done: set<Id>, id: Id, at: int)
    requires s.cache.Keys == s.devices.Keys && AfterAlertCycle(cfg, s, at).devices.Keys == s.devices.Keys
    requires AfterAlertCycle(cfg, s, at).cache.Keys == s.devices.Keys
    requires id in s.devices && id !in done
    ensures AlertedIn(cfg, PartialCycle(s, AfterAlertCycle(cfg, s, at), done).devices, id, at)
            == AlertedIn(cfg, s.devices, id, at)
  {
    hide Alerted;
    var t := PartialCycle(s, AfterAlertCycle(cfg, s, at), done);
    if s.devices[id].parent.Some? && s.devices[id].parent.value in s.devices {
      var p := s.devices[id].parent.value;
      TurnKeepsShape(cfg, s.devices[p], ParentOffline(s.devices, s.devices[p]), at);
    }
    assert t.devices[id] == s.devices[id];
  }

  /** Writing one finished row moves the cycle one device on. */
  lemma PartialCycleStep(s: State, t: State, done: set<Id>, id: Id)
    requires s.devices.Keys == t.devices.Keys == s.cache.Keys == t.cache.Keys
    requires id in s.devices && id !in done
    ensures var p, q := PartialCycle(s, t, done), PartialCycle(s, t, done + {id});
      && q.devices == p.devices[id := t.devices[id]]
      && q.cache == p.cache[id := t.cache[id]]
  {
  }

  lemma PartialCycleEnds(s: State, t: State)
    requires s.devices.Keys == t.devices.Keys == s.cache.Keys == t.cache.Keys && s.published == t.published
    ensures PartialCycle(s, t, {}) == s && PartialCycle(s, t, s.devices.Keys) == t
  {
    assert PartialCycle(s, t, s.devices.Keys).devices == t.devices;
    assert PartialCycle(s, t, s.devices.Keys).cache == t.cache;
  }

  lemma TurnMovesCycle(cfg: Settings, s: State, done: set<Id>, id: Id, at: int)
    requires s.cache.Keys == s.devices.Keys && AfterAlertCycle(cfg, s, at).devices.Keys == s.devices.Keys
    requires AfterAlertCycle(cfg, s, at).cache.Keys == s.devices.Keys
    requires id in s.devices && id !in done
    ensures var t := AfterAlertCycle(cfg, s, at);
      && id in PartialCycle(s, t, done).devices
      && AfterAlertOne(cfg, PartialCycle(s, t, done), id, at) == PartialCycle(s, t, done + {id})
  {
    var t := AfterAlertCycle(cfg, s, at);
    TurnIsIndependent(cfg, s, done, id, at);
    PartialCycleStep(s, t, done, id);
    var p, q := PartialCycle(s, t, done), PartialCycle(s, t, done + {id});
    assert t.devices[id] == AlertedIn(cfg, p.devices, id, at);
    assert p.devices[id] == s.devices[id] && p.cache[id] == s.cache[id];
    assert t.cache[id] == if t.devices[id] == s.devices[id] then s.cache[id] else Serialize(t.devices[id]);
    SameValueAgain(p.devices, id);
    SameValueAgain(p.cache, id);
    hide AlertedIn, Serialize, PartialCycle, AfterAlertCycle;
  }

  lemma SameValueAgain<V>(m: map<Id, V>, id: Id)
    requires id in m
    ensures m[id := m[id]] == m
  {
  }

  // ---- Walking up ----

  lemma UpNone(g: Parents, p: Id)
    ensures Up(g, p, 0) == Some(p)
  {
  }

  lemma UpNext(g: Parents, p: Id, n: nat)
    requires Up(g, p, n).Some?
    ensures Up(g, p, n + 1) == Next(g, Up(g, p, n).value)
  {
    var x := Up(g, p, n).value;
    UpAdd(g, p, n, 1);
    assert Up(g, x, 1) == match Next(g, x) { case None => None case Some(q) => Up(g, q, 0) };
  }

  lemma UpReaches(g: Parents, p: Id, n: nat, y: Id)
    requires Up(g, p, n) == Some(y)
    ensures Reaches(g, p, y)
  {
  }

  /** A set that holds p and is closed under "parent of" holds every ancestor of p. */
  lemma TrapExcludes(g: Parents, trap: set<Id>, p: Id, y: Id)
    requires p in trap && y !in trap
    requires forall x :: x in trap && Next(g, x).Some? ==> Next(g, x).value in trap
    ensures !Reaches(g, p, y)
  {
    forall n: nat
      ensures Up(g, p, n) != Some(y)
    {
      ClosedSetTraps(g, trap, p, n);
    }
  }

  class Database {
    const cfg: Settings
    var devices: map<Id, Device>
    var cache: map<Id, Snapshot>
    var published: seq<Change>

    constructor (cfg: Settings)
      ensures this.cfg == cfg && Contents() == EMPTY
    {
      this.cfg := cfg;
      devices, cache, published := map[], map[], [];
    }

    function Contents(): State
      reads this
    {
      State(devices, cache, published)
    }

    // ---- The Redis side ----

    method UpsertDevice(id: Id)
      requires id in devices
      modifies this`cache
      ensures cache == old(cache)[id := Serialize(devices[id])]
    {
      cache := cache[id := Serialize(devices[id])];
    }

    method RemoveDevice(id: Id)
      modifies this`cache
      ensures cache == old(cache) - {id}
    {
      cache := cache - {id};
    }

    method UpdateAndPublish(id: Id, status: Status, at: int)
      requires id in devices
      modifies this`cache, this`published
      ensures cache == old(cache)[id := Serialize(devices[id])]
      ensures published == old(published) + [Change(id, status, at)]
    {
      UpsertDevice(id);
      published := published + [Change(id, status, at)];
    }

    /** Replaces the whole snapshot by the rows of a table scan. */
    method WarmDevices(rows: seq<Id>)
      requires Elements(rows) == devices.Keys
      modifies this`cache
      ensures cache.Keys == devices.Keys
      ensures forall id :: id in devices ==> cache[id] == Serialize(devices[id])
      ensures CacheAgrees(Contents())
    {
      cache := map[];
      for i := 0 to |rows|
        invariant cache.Keys == Elements(rows[..i]) <= devices.Keys
        invariant forall id :: id in cache ==> cache[id] == Serialize(devices[id])
      {
        assert rows[i] in Elements(rows);
        assert Elements(rows[..i + 1]) == Elements(rows[..i]) + {rows[i]};
        cache := cache[rows[i] := Serialize(devices[rows[i]])];
      }
      assert rows[..|rows|] == rows;
    }

    // ---- The dependency check ----

    /**
     Walks the ancestor chain of a proposed parent. Ends on every table, cyclic
     ones included, and refuses exactly the device itself, a missing parent, and a
     parent below the device.
     */
    method ValidateParent(id: Option<Id>, parent: Option<Id>) returns (verdict: Option<ParentError>)
      ensures verdict == ParentVerdict(ParentsOf(devices), id, parent)
    {
      hide Up, Reaches;
      if parent.None? {
        return None;
      }
      if id.Some? && parent == id {
        return Some(SelfParent);
      }
      ghost var g, p := ParentsOf(devices), parent.value;
      var seen: set<Id> := {};
      var current := parent;
      UpNone(g, p);
      while current.Some?
        invariant seen <= devices.Keys
        invariant current == Up(g, p, |seen|)
        invariant id.Some? ==> id.value !in seen
        invariant if seen == {} then current == parent else p in seen
        invariant forall x :: x in seen && Next(g, x).Some? ==>
                    Next(g, x).value in seen || Next(g, x) == current
        decreases devices.Keys - seen
      {
        if id.Some? && current == id {
          UpReaches(g, p, |seen|, id.value);
          assert p in g;
          return Some(DependencyCycle);
        }
        if current.value in seen {
          break;
        }
        if current.value !in devices {
          if current == parent {
            return Some(ParentNotFound);
          }
          break;
        }
        UpNext(g, p, |seen|);
        seen, current := seen + {current.value}, devices[current.value].parent;
      }
      if id.Some? {
        TrapExcludes(g, seen + if current.Some? then {current.value} else {}, p, id.value);
      }
      return None;
    }

    // ---- Routes ----

    method CreateDevice(id: Id, host: Host, parent: Option<Id>, enabled: bool, critical: bool) returns (reply: Reply)
      modifies this
      ensures (Contents(), reply) == AfterCreate(old(Contents()), id, host, parent, enabled, critical)
    {
      var verdict := ValidateParent(None, parent);
      if verdict.Some? {
        return BadParent(verdict.value);
      }
      if host.Unresolvable? {
        return BadHost;
      }
      if id in devices || TakenIp(devices, host.ip, id) {
        return Conflict;
      }
      devices := devices[id := NewDevice(host.ip, parent, enabled, critical)];
      UpsertDevice(id);
      return Done;
    }

    method UpdateDevice(id: Id, patch: Patch) returns (reply: Reply)
      modifies this
      ensures (Contents(), reply) == AfterUpdate(old(Contents()), id, patch)
    {
      if id !in devices {
        return NotFound;
      }
      if patch.parent.Given? {
        var verdict := ValidateParent(Some(id), Some(patch.parent.value));
        if verdict.Some? {
          return BadParent(verdict.value);
        }
      }
      if patch.host.Given? && patch.host.value.Unresolvable? {
        return BadHost;
      }
      var device := SetFields(devices[id], patch);
      if Refused(devices, id, patch) {
        return Conflict;
      }
      devices := devices[id := device];
      UpsertDevice(id);
      return Done;
    }

    /** The setattr loop over the fields a PATCH body gave. */
    static method SetFields(d: Device, patch: Patch) returns (device: Device)
      requires patch.host.Given? ==> patch.host.value.Resolved?
      ensures device == Patched(d, patch)
    {
      device := d;
      if patch.host.Given? {
        device := device.(ip := patch.host.value.ip);
      }
      if !patch.parent.Absent? {
        device := device.(parent := if patch.parent.Null? then None else Some(patch.parent.value));
      }
      if patch.enabled.Given? {
        device := device.(enabled := patch.enabled.value);
      }
      if patch.critical.Given? {
        device := device.(critical := patch.critical.value);
      }
    }

    method DeleteDevice(id: Id) returns (reply: Reply)
      modifies this
      ensures (Contents(), reply) == AfterDelete(old(Contents()), id)
    {
      if id !in devices {
        return NotFound;
      }
      devices := map x | x in devices && x != id :: Orphaned(devices[x], id);
      RemoveDevice(id);
      return Done;
    }

    method SimulateDeviceStatus(id: Id, online: bool, at: int) returns (reply: Reply)
      modifies this
      ensures (Contents(), reply) == AfterSimulate(cfg, old(Contents()), id, online, at)
    {
      if id !in devices {
        return NotFound;
      }
      var device := devices[id];
      var newStatus, prevStatus := if online then Online else Offline, device.status;
      device := device.(lastCheckedAt := Some(at), status := newStatus);
      device := device.(failures := if newStatus == Online then 0 else cfg.flapThreshold,
                        outcomes := device.outcomes + [if online then ForcedOnline(at) else ForcedOffline(at)]);
      if newStatus != prevStatus {
        device := device.(events := device.events
                          + [Event(if newStatus == Online then CameOnline else WentOffline, at)]);
      }
      devices := devices[id := device];
      if newStatus != prevStatus {
        UpdateAndPublish(id, newStatus, at);
      } else {
        UpsertDevice(id);
      }
      return Done;
    }

    method AckDevice(id: Id, at: int) returns (reply: Reply)
      modifies this
      ensures (Contents(), reply) == AfterSwitch(old(Contents()), Ack(id, at))
    {
      if id !in devices {
        return NotFound;
      }
      devices := devices[id := devices[id].(ackedAt := Some(at))];
      UpsertDevice(id);
      return Done;
    }

    method MuteDevice(id: Id, muted: bool) returns (reply: Reply)
      modifies this
      ensures (Contents(), reply) == AfterSwitch(old(Contents()), Mute(id, muted))
    {
      if id !in devices {
        return NotFound;
      }
      devices := devices[id := devices[id].(muted := muted)];
      UpsertDevice(id);
      return Done;
    }

    method MaintenanceDevice(id: Id, minutes: Option<int>, at: int) returns (reply: Reply)
      modifies this
      ensures (Contents(), reply) == AfterSwitch(old(Contents()), Maintain(id, minutes, at))
    {
      if id !in devices {
        return NotFound;
      }
      var until := None;
      if minutes.Some? && minutes.value > 0 {
        until := Some(at + minutes.value * 60000);
      }
      devices := devices[id := devices[id].(maintenanceUntil := until)];
      UpsertDevice(id);
      return Done;
    }

    // ---- Collector ----

    /** Phase 3 of a check; tells the scheduler whether the device is unsettled. */
    method CommitCheck(id: Id, alive: bool, service: Option<bool>, at: int) returns (unsettled: bool)
      modifies this
      ensures Contents() == AfterCheck(cfg, old(Contents()), id, alive, service, at)
      ensures unsettled <==>
        id in old(devices) && old(devices)[id].enabled
        && (devices[id].status != Online || old(devices)[id].status != Online)
    {
      if id !in devices || !devices[id].enabled {
        return false;
      }
      var prevStatus, prevServiceOk := devices[id].status, devices[id].serviceOk;
      var device := ApplyResult(cfg, devices[id], alive, service, at);
      hide Checked, Serialize;
      devices := devices[id := device];
      unsettled := device.status != Online || device.status != prevStatus;
      if device.status != prevStatus {
        UpdateAndPublish(id, device.status, at);
      } else if device.serviceOk != prevServiceOk {
        UpsertDevice(id);
      }
    }

    /** The row's own part of phase 3: counter, service result, acknowledgement, status and edge row. */
    static method ApplyResult(cfg: Settings, d: Device, alive: bool, service: Option<bool>, at: int)
      returns (device: Device)
      ensures device == Checked(cfg, d, alive, service, at)
    {
      device := d.(lastCheckedAt := Some(at),
                   outcomes := d.outcomes + [if alive then Devices.Outcome.Reply(at) else Miss(at)]);
      var newStatus;
      if alive {
        device := device.(failures := 0);
        newStatus := Online;
      } else {
        device := device.(failures := device.failures + 1);
        newStatus := if device.failures >= cfg.flapThreshold then Offline else Unknown;
      }
      device := device.(serviceOk := service);
      if newStatus == Online && device.ackedAt.Some? {
        device := device.(ackedAt := None);
      }
      if newStatus != d.status {
        device := device.(status := newStatus);
        if newStatus == Online {
          device := device.(events := device.events + [Event(CameOnline, at)]);
        } else if newStatus == Offline {
          device := device.(events := device.events + [Event(WentOffline, at)]);
        } else {
          assert device.events == device.events + EdgeEvent(Unknown, at);
        }
      }
    }

    /** One alert cycle over the rows of a table scan, whatever their order. */
    method AlertTick(rows: seq<Id>, now: int)
      requires Distinct(rows) && Elements(rows) == devices.Keys
      requires cache.Keys == devices.Keys
      modifies this
      ensures Contents() == AfterAlertCycle(cfg, old(Contents()), now)
    {
      hide AfterAlertOne, AfterAlertCycle, PartialCycle;
      ghost var s, t := Contents(), AfterAlertCycle(cfg, Contents(), now);
      CycleKeys(cfg, s, now);
      PartialCycleEnds(s, t);
      assert Elements(rows[..0]) == {} && rows[..|rows|] == rows;
      for i := 0 to |rows|
        invariant Contents() == PartialCycle(s, t, Elements(rows[..i]))
      {
        assert rows[i] in Elements(rows) && rows[i] !in Elements(rows[..i]);
        assert Elements(rows[..i + 1]) == Elements(rows[..i]) + {rows[i]};
        TurnMovesCycle(cfg, s, Elements(rows[..i]), rows[i], now);
        AlertOne(rows[i], now);
      }
    }

    /** One device's turn. */
    method AlertOne(id: Id, now: int)
      requires id in devices
      modifies this
      ensures Contents() == AfterAlertOne(cfg, old(Contents()), id, now)
    {
      var d := devices[id];
      if !d.enabled {
        return;
      }
      if !InAlarm(d) && d.notifiedAt.Some? {
        d := d.(notifiedAt := None, notices := d.notices + [Recovered(now)]);
        devices := devices[id := d];
        UpsertDevice(id);
        return;
      }
      if !InAlarm(d) || d.notifiedAt.Some? {
        return;
      }
      if d.muted || InMaintenance(d, now) {
        return;
      }
      if cfg.criticalOnly && !d.critical {
        return;
      }
      if d.parent.Some? && d.parent.value in devices && devices[d.parent.value].status == Offline {
        return;
      }
      var downFor: Option<int> := None;
      if d.status == Offline {
        var started := OutageStartedAt(d.events);
        if started.None? || now - started.value < cfg.alertAfter {
          return;
        }
        downFor := Some(now - started.value);
      }
      d := d.(notifiedAt := Some(now), notices := d.notices + [Alarm(now, downFor)]);
      devices := devices[id := d];
      UpsertDevice(id);
    }
  }
}
