/**
 One device row and what the probe, the routes and the alert engine do to it.
 The rows other tables hold about a device (event_logs, the probe and simulate
 history, the alert audit) are kept with it as sequences in commit order.
 Times are integers in milliseconds.
 */
module Devices {
  import opened Basics

  datatype Status = Online | Unknown | Offline

  datatype EventKind = CameOnline | WentOffline

  datatype Event = Event(kind: EventKind, at: int)

  /** What one committed check or one simulate call said about the device. */
  datatype Outcome = Reply(at: int) | Miss(at: int) | ForcedOnline(at: int) | ForcedOffline(at: int)

  /** A notification that went out; downFor is absent for a service-only alarm. */
  datatype Notice = Alarm(at: int, downFor: Option<int>) | Recovered(at: int)

  datatype Device = Device(
    ip: string,
    parent: Option<Id>,
    enabled: bool,
    critical: bool,
    muted: bool,
    maintenanceUntil: Option<int>,
    ackedAt: Option<int>,
    notifiedAt: Option<int>,
    status: Status,
    failures: int,
    serviceOk: Option<bool>,
    lastCheckedAt: Option<int>,
    events: seq<Event>,
    outcomes: seq<Outcome>,
    notices: seq<Notice>)

  datatype Settings = Settings(
    flapThreshold: int,
    slowInterval: int,
    fastInterval: int,
    volatileWindow: int,
    alertAfter: int,
    criticalOnly: bool)

  function NewDevice(ip: string, parent: Option<Id>, enabled: bool, critical: bool): Device {
    Device(ip, parent, enabled, critical, false, None, None, None, Unknown, 0, None, None, [], [], [])
  }

  // ---- The status machine ----

  /** The event row written on a change to this status, if any. */
  function EdgeEvent(status: Status, at: int): seq<Event> {
    match status
    case Online => [Event(CameOnline, at)]
    case Offline => [Event(WentOffline, at)]
    case Unknown => []
  }

  function StatusAfterCheck(cfg: Settings, failures: int, alive: bool): Status {
    if alive then Online
    else if failures >= cfg.flapThreshold then Offline
    else Unknown
  }

  /** Phase 3 of a check: what is committed for an enabled device. */
  function Checked(cfg: Settings, d: Device, alive: bool, service: Option<bool>, now: int): Device {
    var failures := if alive then 0 else d.failures + 1;
    var status := StatusAfterCheck(cfg, failures, alive);
    d.(lastCheckedAt := Some(now),
       failures := failures,
       serviceOk := service,
       ackedAt := if status == Online then None else d.ackedAt,
       status := status,
       events := if status == d.status then d.events else d.events + EdgeEvent(status, now),
       outcomes := d.outcomes + [if alive then Reply(now) else Miss(now)])
  }

  /** The manual up/down switch. */
  function Forced(cfg: Settings, d: Device, online: bool, now: int): Device {
    var status := if online then Online else Offline;
    d.(lastCheckedAt := Some(now),
       failures := if online then 0 else cfg.flapThreshold,
       status := status,
       events := if status == d.status then d.events else d.events + EdgeEvent(status, now),
       outcomes := d.outcomes + [if online then ForcedOnline(now) else ForcedOffline(now)])
  }

  // ---- The alert engine, for one device ----

  predicate InAlarm(d: Device) {
    d.status == Offline || d.serviceOk == Some(false)
  }

  predicate InMaintenance(d: Device, now: int) {
    d.maintenanceUntil.Some? && now < d.maintenanceUntil.value
  }

  /** Latest went_offline row: ORDER BY created_at DESC LIMIT 1. */
  function OutageStartedAt(events: seq<Event>): Option<int> {
    if events == [] then None
    else
      var e, earlier := events[|events| - 1], OutageStartedAt(events[..|events| - 1]);
      if e.kind != WentOffline then earlier
      else Some(if earlier.Some? then Max(earlier.value, e.at) else e.at)
  }

  /** The engine would send this device's alarm if its parent let it. */
  predicate Alertable(cfg: Settings, d: Device, now: int) {
    && d.enabled && InAlarm(d) && d.notifiedAt.None?
    && !d.muted && !InMaintenance(d, now)
    && (cfg.criticalOnly ==> d.critical)
    && (d.status == Offline ==>
          OutageStartedAt(d.events).Some? && now - OutageStartedAt(d.events).value >= cfg.alertAfter)
  }

  /** One device's turn in an alert cycle. */
  function Alerted(cfg: Settings, d: Device, parentOffline: bool, now: int): Device {
    if d.enabled && !InAlarm(d) && d.notifiedAt.Some? then
      d.(notifiedAt := None, notices := d.notices + [Recovered(now)])
    else if Alertable(cfg, d, now) && !parentOffline then
      var downFor := if d.status == Offline then Some(now - OutageStartedAt(d.events).value) else None;
      d.(notifiedAt := Some(now), notices := d.notices + [Alarm(now, downFor)])
    else d
  }
}
