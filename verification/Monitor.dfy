/**
 The shared state of the monitor (device table, Redis snapshot, status channel),
 one atomic step per commit with the cache write that follows it, and the
 invariant every run keeps.
 */
module Monitor {
  import opened Basics
  import opened Forest
  import opened Devices
  import opened History

  /** The cached DeviceRead shape, as far as it is modelled. */
  datatype Snapshot = Snapshot(
    ip: string, parent: Option<Id>, enabled: bool, critical: bool, muted: bool,
    maintenanceUntil: Option<int>, ackedAt: Option<int>, status: Status,
    serviceOk: Option<bool>, lastCheckedAt: Option<int>)

  datatype Change = Change(id: Id, status: Status, at: int)

  datatype State = State(devices: map<Id, Device>, cache: map<Id, Snapshot>, published: seq<Change>)

  datatype ParentError = SelfParent | ParentNotFound | DependencyCycle

  datatype Reply = Done | NotFound | BadParent(reason: ParentError) | BadHost | Conflict

  /** A host name after DNS resolution, which happens outside the model. */
  datatype Host = Resolved(ip: string) | Unresolvable

  /** One field of a PATCH body: left out, explicit null, or a value. */
  datatype Field<+T> = Absent | Null | Given(value: T)

  datatype Patch = Patch(host: Field<Host>, parent: Field<Id>, enabled: Field<bool>, critical: Field<bool>)

  datatype Op =
    | Create(id: Id, host: Host, parent: Option<Id>, enabled: bool, critical: bool)
    | Update(id: Id, patch: Patch)
    | Delete(id: Id)
    | Simulate(id: Id, online: bool, at: int)
    | Ack(id: Id, at: int)
    | Mute(id: Id, muted: bool)
    | Maintain(id: Id, minutes: Option<int>, at: int)
    | Check(id: Id, alive: bool, service: Option<bool>, at: int)
    | AlertCycle(at: int)

  function Serialize(d: Device): Snapshot {
    Snapshot(d.ip, d.parent, d.enabled, d.critical, d.muted, d.maintenanceUntil,
             d.ackedAt, d.status, d.serviceOk, d.lastCheckedAt)
  }

  function ParentsOf(devices: map<Id, Device>): Parents {
    map id | id in devices :: devices[id].parent
  }

  predicate TakenIp(devices: map<Id, Device>, ip: string, id: Id) {
    exists other :: other in devices && other != id && devices[other].ip == ip
  }

  predicate ParentOffline(devices: map<Id, Device>, d: Device) {
    d.parent.Some? && d.parent.value in devices && devices[d.parent.value].status == Offline
  }

  // ---- One step ----

  /** A parent is refused when it is the device, missing, or below the device. */
  ghost function ParentVerdict(g: Parents, id: Option<Id>, parent: Option<Id>): Option<ParentError> {
    if parent.None? then None
    else if id == parent then Some(SelfParent)
    else if parent.value !in g then Some(ParentNotFound)
    else if id.Some? && Reaches(g, parent.value, id.value) then Some(DependencyCycle)
    else None
  }

  /** Commit one row and replace its snapshot entry. */
  function Put(s: State, id: Id, d: Device): State {
    s.(devices := s.devices[id := d], cache := s.cache[id := Serialize(d)])
  }

  function Publish(s: State, id: Id, status: Status, at: int): State {
    s.(published := s.published + [Change(id, status, at)])
  }

  ghost function AfterCreate(s: State, id: Id, host: Host, parent: Option<Id>, enabled: bool,
                             critical: bool): (State, Reply)
  {
    var verdict := ParentVerdict(ParentsOf(s.devices), None, parent);
    if verdict.Some? then (s, BadParent(verdict.value))
    else if host.Unresolvable? then (s, BadHost)
    else if id in s.devices || TakenIp(s.devices, host.ip, id) then (s, Conflict)
    else (Put(s, id, NewDevice(host.ip, parent, enabled, critical)), Done)
  }

  /** Null in a NOT NULL column, or an address another row has, fails the commit. */
  predicate Refused(devices: map<Id, Device>, id: Id, p: Patch) {
    p.host.Null? || p.enabled.Null? || p.critical.Null?
    || (p.host.Given? && p.host.value.Resolved? && TakenIp(devices, p.host.value.ip, id))
  }

  function Patched(d: Device, p: Patch): Device {
    d.(ip := if p.host.Given? && p.host.value.Resolved? then p.host.value.ip else d.ip,
       parent := match p.parent { case Absent => d.parent case Null => None case Given(q) => Some(q) },
       enabled := if p.enabled.Given? then p.enabled.value else d.enabled,
       critical := if p.critical.Given? then p.critical.value else d.critical)
  }

  ghost function AfterUpdate(s: State, id: Id, p: Patch): (State, Reply) {
    if id !in s.devices then (s, NotFound)
    else
      var verdict :=
        if p.parent.Given? then ParentVerdict(ParentsOf(s.devices), Some(id), Some(p.parent.value)) else None;
      if verdict.Some? then (s, BadParent(verdict.value))
      else if p.host.Given? && p.host.value.Unresolvable? then (s, BadHost)
      else if Refused(s.devices, id, p) then (s, Conflict)
      else (Put(s, id, Patched(s.devices[id], p)), Done)
  }

  function Orphaned(d: Device, parent: Id): Device {
    if d.parent == Some(parent) then d.(parent := None) else d
  }

  function AfterDelete(s: State, id: Id): (State, Reply) {
    if id !in s.devices then (s, NotFound)
    else
      (s.(devices := map x | x in s.devices && x != id :: Orphaned(s.devices[x], id),
          cache := s.cache - {id}), Done)
  }

  function AfterSimulate(cfg: Settings, s: State, id: Id, online: bool, at: int): (State, Reply) {
    if id !in s.devices then (s, NotFound)
    else
      var d := Forced(cfg, s.devices[id], online, at);
      var s' := Put(s, id, d);
      (if d.status != s.devices[id].status then Publish(s', id, d.status, at) else s', Done)
  }

  /** The three switches a user flips on a device. */
  function Switched(d: Device, op: Op): Device
    requires op.Ack? || op.Mute? || op.Maintain?
  {
    match op
    case Ack(_, at) => d.(ackedAt := Some(at))
    case Mute(_, muted) => d.(muted := muted)
    case Maintain(_, minutes, at) =>
      d.(maintenanceUntil := if minutes.GetOr(0) > 0 then Some(at + minutes.value * 60000) else None)
  }

  function AfterSwitch(s: State, op: Op): (State, Reply)
    requires op.Ack? || op.Mute? || op.Maintain?
  {
    if op.id !in s.devices then (s, NotFound)
    else (Put(s, op.id, Switched(s.devices[op.id], op)), Done)
  }

  function AfterCheck(cfg: Settings, s: State, id: Id, alive: bool, service: Option<bool>, at: int): State {
    if id !in s.devices || !s.devices[id].enabled then s
    else
      var d, d' := s.devices[id], Checked(cfg, s.devices[id], alive, service, at);
      if d'.status != d.status then Publish(Put(s, id, d'), id, d'.status, at)
      else if d'.serviceOk != d.serviceOk then Put(s, id, d')
      else s.(devices := s.devices[id := d'])
  }

  function AlertedIn(cfg: Settings, devices: map<Id, Device>, id: Id, at: int): Device
    requires id in devices
  {
    Alerted(cfg, devices[id], ParentOffline(devices, devices[id]), at)
  }

  function AfterAlertCycle(cfg: Settings, s: State, at: int): State {
    var touched := set id | id in s.devices && AlertedIn(cfg, s.devices, id, at) != s.devices[id];
    s.(devices := map id | id in s.devices :: AlertedIn(cfg, s.devices, id, at),
       cache := map id | id in s.cache.Keys + touched ::
                  if id in touched then Serialize(AlertedIn(cfg, s.devices, id, at)) else s.cache[id])
  }

  ghost function Step(cfg: Settings, s: State, op: Op): State {
    match op
    case Create(id, host, parent, enabled, critical) => AfterCreate(s, id, host, parent, enabled, critical).0
    case Update(id, patch) => AfterUpdate(s, id, patch).0
    case Delete(id) => AfterDelete(s, id).0
    case Simulate(id, online, at) => AfterSimulate(cfg, s, id, online, at).0
    case Ack(_, _) => AfterSwitch(s, op).0
    case Mute(_, _) => AfterSwitch(s, op).0
    case Maintain(_, _, _) => AfterSwitch(s, op).0
    case Check(id, alive, service, at) => AfterCheck(cfg, s, id, alive, service, at)
    case AlertCycle(at) => AfterAlertCycle(cfg, s, at)
  }

  ghost function Run(cfg: Settings, s: State, ops: seq<Op>): State {
    if ops == [] then s else Step(cfg, Run(cfg, s, ops[..|ops| - 1]), ops[|ops| - 1])
  }

  /** The stamp an operation writes, if it writes one that history depends on. */
  function Stamp(op: Op, clock: int): int {
    match op
    case Simulate(_, _, at) => at
    case Check(_, _, _, at) => at
    case AlertCycle(at) => at
    case _ => clock
  }

  function ClockAfter(clock: int, ops: seq<Op>): int {
    if ops == [] then clock else Stamp(ops[|ops| - 1], ClockAfter(clock, ops[..|ops| - 1]))
  }

  /** The wall clock does not run backwards. */
  ghost predicate Timed(clock: int, ops: seq<Op>) {
    ops != [] ==>
      && Timed(clock, ops[..|ops| - 1])
      && ClockAfter(clock, ops[..|ops| - 1]) <= ClockAfter(clock, ops)
  }

  // ---- The invariant ----

  /** The snapshot fields the dashboard relies on between reloads. */
  predicate Agrees(c: Snapshot, d: Device) {
    && c.ip == d.ip && c.status == d.status && c.serviceOk == d.serviceOk
    && c.muted == d.muted && c.maintenanceUntil == d.maintenanceUntil
    && c.enabled == d.enabled && c.critical == d.critical
  }

  ghost predicate CacheAgrees(s: State) {
    && s.cache.Keys == s.devices.Keys
    && forall id :: id in s.devices ==> Agrees(s.cache[id], s.devices[id])
  }

  ghost predicate AddressesUnique(devices: map<Id, Device>) {
    forall x, y :: x in devices && y in devices && x != y ==> devices[x].ip != devices[y].ip
  }

  ghost predicate AllConsistent(cfg: Settings, devices: map<Id, Device>, clock: int) {
    forall id :: id in devices ==> Consistent(cfg, devices[id], clock)
  }

  ghost predicate Inv(cfg: Settings, s: State, clock: int) {
    && IsForest(ParentsOf(s.devices))
    && CacheAgrees(s)
    && AddressesUnique(s.devices)
    && AllConsistent(cfg, s.devices, clock)
  }

  const EMPTY := State(map[], map[], [])

  // ---- What create and patch store ----

  /** A row nothing has happened to yet, with these columns. */
  ghost predicate IsFresh(d: Device, ip: string, parent: Option<Id>, enabled: bool, critical: bool) {
    && d.ip == ip && d.parent == parent && d.enabled == enabled && d.critical == critical
    && !d.muted && d.maintenanceUntil.None? && d.ackedAt.None? && d.notifiedAt.None?
    && d.status == Unknown && d.failures == 0 && d.serviceOk.None? && d.lastCheckedAt.None?
    && d.events == [] && d.outcomes == [] && d.notices == []
  }

  /** The snapshot shows every cached column of the row. */
  ghost predicate ShowsRow(c: Snapshot, d: Device) {
    && c.ip == d.ip && c.parent == d.parent && c.enabled == d.enabled && c.critical == d.critical
    && c.muted == d.muted && c.maintenanceUntil == d.maintenanceUntil && c.ackedAt == d.ackedAt
    && c.status == d.status && c.serviceOk == d.serviceOk && c.lastCheckedAt == d.lastCheckedAt
  }

  /**
   Create is answered Done exactly for an existing or absent parent, a host that
   resolves, and an id and address no row has; then it adds that one row and its
   snapshot. Refused, it changes nothing, and the first reason in that order is given.
   */
  lemma CreateAnswers(s: State, id: Id, host: Host, parent: Option<Id>, enabled: bool, critical: bool)
    ensures var (s', r) := AfterCreate(s, id, host, parent, enabled, critical);
      && (r == Done <==>
            && (parent.Some? ==> parent.value in s.devices) && host.Resolved? && id !in s.devices
            && forall x :: x in s.devices ==> s.devices[x].ip != host.ip)
      && (r == Done ==>
            && id in s'.devices && IsFresh(s'.devices[id], host.ip, parent, enabled, critical)
            && id in s'.cache && ShowsRow(s'.cache[id], s'.devices[id])
            && s'.devices - {id} == s.devices - {id} && s'.cache - {id} == s.cache - {id}
            && s'.published == s.published)
      && (r != Done ==> s' == s)
      && (r == BadParent(ParentNotFound) <==> parent.Some? && parent.value !in s.devices)
      && (r == BadHost <==> (parent.Some? ==> parent.value in s.devices) && host.Unresolvable?)
      && r in {Done, BadParent(ParentNotFound), BadHost, Conflict}
  {
    assert ParentsOf(s.devices).Keys == s.devices.Keys;
  }

  /** Each column given is stored, a null parent clears it, every other column keeps its value. */
  ghost predicate IsPatched(d: Device, d': Device, p: Patch) {
    && d'.ip == (if p.host.Given? && p.host.value.Resolved? then p.host.value.ip else d.ip)
    && d'.parent == (if p.parent.Null? then None else if p.parent.Given? then Some(p.parent.value) else d.parent)
    && d'.enabled == (if p.enabled.Given? then p.enabled.value else d.enabled)
    && d'.critical == (if p.critical.Given? then p.critical.value else d.critical)
    && d'.(ip := d.ip, parent := d.parent, enabled := d.enabled, critical := d.critical) == d
  }

  /**
   Patch is answered Done exactly for a known device, a parent that exists and is not
   the device or below it, a host that resolves to an address no other row has, and no
   null in a column that must not be null. Then the row is patched and its snapshot
   shows it. Refused, it changes nothing.
   */
  lemma UpdateAnswers(s: State, id: Id, p: Patch)
    ensures var (s', r) := AfterUpdate(s, id, p);
      && (r == Done <==>
            && id in s.devices
            && (p.parent.Given? ==> p.parent.value != id && p.parent.value in s.devices
                                    && !Reaches(ParentsOf(s.devices), p.parent.value, id))
            && !p.host.Null? && !p.enabled.Null? && !p.critical.Null?
            && (p.host.Given? ==>
                  && p.host.value.Resolved?
                  && forall x :: x in s.devices && x != id ==> s.devices[x].ip != p.host.value.ip))
      && (r == Done ==>
            && s'.devices.Keys == s.devices.Keys && s'.devices - {id} == s.devices - {id}
            && IsPatched(s.devices[id], s'.devices[id], p)
            && id in s'.cache && ShowsRow(s'.cache[id], s'.devices[id]) && s'.cache - {id} == s.cache - {id}
            && s'.published == s.published)
      && (r != Done ==> s' == s)
      && (r == NotFound <==> id !in s.devices)
  {
    assert ParentsOf(s.devices).Keys == s.devices.Keys;
  }

  /** A refused patch of a known device is told the first reason in this order. */
  lemma UpdateRefusals(s: State, id: Id, p: Patch)
    requires id in s.devices
    ensures var r := AfterUpdate(s, id, p).1;
      if p.parent.Given? && p.parent.value == id then r == BadParent(SelfParent)
      else if p.parent.Given? && p.parent.value !in s.devices then r == BadParent(ParentNotFound)
      else if p.parent.Given? && Reaches(ParentsOf(s.devices), p.parent.value, id) then r == BadParent(DependencyCycle)
      else if p.host.Given? && p.host.value.Unresolvable? then r == BadHost
      else r == Done || r == Conflict
  {
    assert ParentsOf(s.devices).Keys == s.devices.Keys;
  }

  /** The other routes answer Done exactly for a known device, and change nothing for an unknown one. */
  lemma OthersAnswer(cfg: Settings, s: State, id: Id, online: bool, at: int, op: Op)
    requires (op.Ack? || op.Mute? || op.Maintain?) && op.id == id
    ensures AnswersKnown(s, id, AfterDelete(s, id)) && AnswersKnown(s, id, AfterSwitch(s, op))
    ensures AnswersKnown(s, id, AfterSimulate(cfg, s, id, online, at))
  {
  }

  ghost predicate AnswersKnown(s: State, id: Id, answer: (State, Reply)) {
    if id in s.devices then answer.1 == Done else answer == (s, NotFound)
  }

  // ---- Dependency forest ----

  lemma CreateKeepsForest(s: State, id: Id, host: Host, parent: Option<Id>, enabled: bool, critical: bool)
    requires IsForest(ParentsOf(s.devices))
    ensures IsForest(ParentsOf(AfterCreate(s, id, host, parent, enabled, critical).0.devices))
  {
    var (s', r) := AfterCreate(s, id, host, parent, enabled, critical);
    if r == Done {
      assert ParentsOf(s'.devices) == ParentsOf(s.devices)[id := parent];
      AttachNew(ParentsOf(s.devices), id, parent);
    }
  }

  lemma UpdateKeepsForest(s: State, id: Id, p: Patch)
    requires IsForest(ParentsOf(s.devices))
    ensures IsForest(ParentsOf(AfterUpdate(s, id, p).0.devices))
  {
    var g := ParentsOf(s.devices);
    var (s', r) := AfterUpdate(s, id, p);
    if r == Done {
      assert ParentsOf(s'.devices) == g[id := Patched(s.devices[id], p).parent];
      match p.parent {
        case Absent => assert g[id := s.devices[id].parent] == g;
        case Null => DetachKeepsForest(g, id);
        case Given(q) => AttachSafeIff(g, id, q);
      }
    }
  }

  lemma DeleteKeepsForest(s: State, id: Id)
    requires IsForest(ParentsOf(s.devices))
    ensures IsForest(ParentsOf(AfterDelete(s, id).0.devices))
  {
    if id in s.devices {
      assert ParentsOf(AfterDelete(s, id).0.devices) == Without(ParentsOf(s.devices), id);
      WithoutKeepsForest(ParentsOf(s.devices), id);
    }
  }

  /** A device's turn in an alert cycle only touches its notices. */
  lemma TurnKeepsShape(cfg: Settings, d: Device, parentOffline: bool, at: int)
    ensures var d' := Alerted(cfg, d, parentOffline, at);
      d' == d.(notifiedAt := d'.notifiedAt, notices := d'.notices)
  {
  }

  lemma CycleKeepsShape(cfg: Settings, s: State, at: int)
    ensures var s' := AfterAlertCycle(cfg, s, at);
      && ParentsOf(s'.devices) == ParentsOf(s.devices) && s'.published == s.published
      && s'.devices.Keys == s.devices.Keys
      && forall x :: x in s.devices ==>
           && s'.devices[x].status == s.devices[x].status && s'.devices[x].ip == s.devices[x].ip
           && s'.devices[x].parent == s.devices[x].parent && s'.devices[x].outcomes == s.devices[x].outcomes
           && s'.devices[x].ackedAt == s.devices[x].ackedAt && s'.devices[x].serviceOk == s.devices[x].serviceOk
  {
    hide Alerted;
    forall x | x in s.devices
      ensures var d, d' := s.devices[x], AfterAlertCycle(cfg, s, at).devices[x];
        d' == d.(notifiedAt := d'.notifiedAt, notices := d'.notices)
    {
      TurnKeepsShape(cfg, s.devices[x], ParentOffline(s.devices, s.devices[x]), at);
    }
  }

  lemma RowEditKeepsParents(devices: map<Id, Device>, id: Id, d: Device)
    requires id in devices && d.parent == devices[id].parent
    ensures ParentsOf(devices[id := d]) == ParentsOf(devices)
  {
  }

  lemma OthersKeepParents(cfg: Settings, s: State, op: Op)
    requires !op.Create? && !op.Update? && !op.Delete?
    ensures ParentsOf(Step(cfg, s, op).devices) == ParentsOf(s.devices)
  {
    hide AfterAlertCycle, ParentsOf;
    if op.AlertCycle? {
      CycleKeepsShape(cfg, s, op.at);
    } else if op.id in s.devices {
      var d := s.devices[op.id];
      RowEditKeepsParents(s.devices, op.id,
        if op.Check? then Checked(cfg, d, op.alive, op.service, op.at)
        else if op.Simulate? then Forced(cfg, d, op.online, op.at)
        else Switched(d, op));
    }
  }

  lemma StepKeepsForest(cfg: Settings, s: State, op: Op)
    requires IsForest(ParentsOf(s.devices))
    ensures IsForest(ParentsOf(Step(cfg, s, op).devices))
  {
    match op {
      case Create(id, host, parent, enabled, critical) => CreateKeepsForest(s, id, host, parent, enabled, critical);
      case Update(id, patch) => UpdateKeepsForest(s, id, patch);
      case Delete(id) => DeleteKeepsForest(s, id);
      case _ => OthersKeepParents(cfg, s, op);
    }
  }

  /** A row nobody points at may hang under any existing row. */
  lemma AttachNew(g: Parents, id: Id, parent: Option<Id>)
    requires IsForest(g) && id !in g && (parent.Some? ==> parent.value in g)
    ensures IsForest(g[id := parent])
  {
    if parent.Some? {
      forall n: nat
        ensures Up(g, parent.value, n) != Some(id)
      {
        ClosedSetTraps(g, g.Keys, parent.value, n);
      }
      AttachSafeIff(g, id, parent.value);
    } else {
      DetachKeepsForest(g, id);
    }
  }

  // ---- Snapshot ----

  lemma PutKeepsCache(s: State, id: Id, d: Device)
    requires CacheAgrees(s)
    ensures CacheAgrees(Put(s, id, d))
  {
  }

  lemma CycleKeepsCache(cfg: Settings, s: State, at: int)
    requires CacheAgrees(s)
    ensures CacheAgrees(AfterAlertCycle(cfg, s, at))
  {
    hide AlertedIn;
  }

  /** Checks skip the cache write unless the status or the service result changed. */
  lemma CheckKeepsCache(cfg: Settings, s: State, id: Id, alive: bool, service: Option<bool>, at: int)
    requires CacheAgrees(s)
    ensures CacheAgrees(AfterCheck(cfg, s, id, alive, service, at))
  {
    if id in s.devices {
      PutKeepsCache(s, id, Checked(cfg, s.devices[id], alive, service, at));
    }
  }

  lemma SimulateKeepsCache(cfg: Settings, s: State, id: Id, online: bool, at: int)
    requires CacheAgrees(s)
    ensures CacheAgrees(AfterSimulate(cfg, s, id, online, at).0)
  {
    if id in s.devices {
      PutKeepsCache(s, id, Forced(cfg, s.devices[id], online, at));
    }
  }

  /** The snapshot follows the table through every step, fields that lag apart. */
  lemma StepKeepsCache(cfg: Settings, s: State, op: Op)
    requires CacheAgrees(s)
    ensures CacheAgrees(Step(cfg, s, op))
  {
    hide AfterAlertCycle, AfterCheck, AfterSimulate, Agrees, ParentVerdict, Serialize;
    match op {
      case AlertCycle(at) => CycleKeepsCache(cfg, s, at);
      case Check(id, alive, service, at) => CheckKeepsCache(cfg, s, id, alive, service, at);
      case Simulate(id, online, at) => SimulateKeepsCache(cfg, s, id, online, at);
      case Create(id, host, parent, enabled, critical) =>
        if host.Resolved? {
          PutKeepsCache(s, id, NewDevice(host.ip, parent, enabled, critical));
        }
      case Update(id, patch) =>
        if id in s.devices {
          PutKeepsCache(s, id, Patched(s.devices[id], patch));
        }
      case Delete(id) => DeleteKeepsCache(s, id);
      case _ =>
        if op.id in s.devices {
          PutKeepsCache(s, op.id, Switched(s.devices[op.id], op));
        }
    }
  }

  lemma DeleteKeepsCache(s: State, id: Id)
    requires CacheAgrees(s)
    ensures CacheAgrees(AfterDelete(s, id).0)
  {
  }

  /** Why the parent column is not in Agrees: deleting a parent nulls the rows below it, not their snapshots. */
  lemma SnapshotParentLags(s: State, child: Id, parent: Id)
    requires CacheAgrees(s) && child in s.devices && parent in s.devices && child != parent
    requires s.devices[child].parent == Some(parent) && s.cache[child].parent == Some(parent)
    ensures var s' := AfterDelete(s, parent).0;
      && child in s'.devices && child in s'.cache
      && s'.devices[child].parent == None && s'.cache[child].parent == Some(parent)
  {
  }

  ghost predicate ParentsAgree(s: State) {
    && s.cache.Keys == s.devices.Keys
    && forall id :: id in s.devices ==> s.cache[id].parent == s.devices[id].parent
  }

  /** The step deletes a row that others hang under. */
  predicate Orphans(devices: map<Id, Device>, op: Op) {
    op.Delete? && op.id in devices && exists x :: x in devices && devices[x].parent == Some(op.id)
  }

  lemma RowEditKeepsParentsAgree(s: State, s': State, id: Id, d: Device)
    requires ParentsAgree(s) && s'.devices == s.devices[id := d]
    requires s'.cache == s.cache[id := Serialize(d)]
             || (s'.cache == s.cache && id in s.devices && d.parent == s.devices[id].parent)
    ensures ParentsAgree(s')
  {
  }

  lemma CycleKeepsParentsAgree(cfg: Settings, s: State, at: int)
    requires ParentsAgree(s)
    ensures ParentsAgree(AfterAlertCycle(cfg, s, at))
  {
    hide Alerted;
    forall x | x in s.devices
      ensures AlertedIn(cfg, s.devices, x, at).parent == s.devices[x].parent
    {
      TurnKeepsShape(cfg, s.devices[x], ParentOffline(s.devices, s.devices[x]), at);
    }
  }

  lemma OtherStepsKeepParentsAgree(cfg: Settings, s: State, op: Op)
    requires ParentsAgree(s) && !op.Delete?
    ensures ParentsAgree(Step(cfg, s, op))
  {
    hide AfterAlertCycle, ParentVerdict, TakenIp, EdgeEvent, ParentsAgree, Serialize;
    var s' := Step(cfg, s, op);
    if op.AlertCycle? {
      CycleKeepsParentsAgree(cfg, s, op.at);
    } else if s' != s {
      RowEditKeepsParentsAgree(s, s', op.id, s'.devices[op.id]);
    }
  }

  /** A step leaves the cached parents right exactly if it orphans nobody. */
  lemma ParentsAgreeAfterIff(cfg: Settings, s: State, op: Op)
    requires ParentsAgree(s) && NoCycle(ParentsOf(s.devices))
    ensures ParentsAgree(Step(cfg, s, op)) <==> !Orphans(s.devices, op)
  {
    if !op.Delete? {
      OtherStepsKeepParentsAgree(cfg, s, op);
    } else if x :| x in s.devices && s.devices[x].parent == Some(op.id) && op.id in s.devices {
      assert Up(ParentsOf(s.devices), x, 1) == Up(ParentsOf(s.devices), op.id, 0) == Some(op.id);
      assert x != op.id;
      assert Step(cfg, s, op).devices[x].parent == None && Step(cfg, s, op).cache[x].parent == Some(op.id);
    }
  }

  lemma {:induction false} RunKeepsForest(cfg: Settings, s: State, ops: seq<Op>)
    requires IsForest(ParentsOf(s.devices))
    ensures IsForest(ParentsOf(Run(cfg, s, ops).devices))
  {
    hide Step, IsForest, ParentsOf;
    if ops != [] {
      RunKeepsForest(cfg, s, ops[..|ops| - 1]);
      StepKeepsForest(cfg, Run(cfg, s, ops[..|ops| - 1]), ops[|ops| - 1]);
    }
  }

  ghost predicate ParentsAgreeThroughout(cfg: Settings, s: State, ops: seq<Op>) {
    && ParentsAgree(Run(cfg, s, ops))
    && (ops != [] ==> ParentsAgreeThroughout(cfg, s, ops[..|ops| - 1]))
  }

  ghost predicate NobodyOrphaned(cfg: Settings, s: State, ops: seq<Op>) {
    ops != [] ==>
      var init := ops[..|ops| - 1];
      NobodyOrphaned(cfg, s, init) && !Orphans(Run(cfg, s, init).devices, ops[|ops| - 1])
  }

  /** Over a run they are right in every state exactly if no deletion orphans anybody. */
  lemma {:induction false} ParentsAgreeThroughoutIff(cfg: Settings, s: State, ops: seq<Op>)
    requires ParentsAgree(s) && IsForest(ParentsOf(s.devices))
    ensures ParentsAgreeThroughout(cfg, s, ops) <==> NobodyOrphaned(cfg, s, ops)
  {
    hide Step, ParentsAgree, ParentsOf, Orphans;
    if ops != [] {
      var init := ops[..|ops| - 1];
      ParentsAgreeThroughoutIff(cfg, s, init);
      RunKeepsForest(cfg, s, init);
      if ParentsAgree(Run(cfg, s, init)) {
        ParentsAgreeAfterIff(cfg, Run(cfg, s, init), ops[|ops| - 1]);
      }
    }
  }

  // ---- The whole snapshot entry ----

  /** The check found neither the status nor the service result changed; it writes no snapshot. */
  predicate Unremarkable(op: Op, id: Id, d: Device, d': Device) {
    op.Check? && op.id == id && d.enabled && d'.status == d.status && op.service == d.serviceOk
  }

  ghost predicate EntryShows(s: State, id: Id) {
    id in s.devices && id in s.cache && ShowsRow(s.cache[id], s.devices[id])
  }

  lemma CycleKeepsEntry(cfg: Settings, s: State, at: int, id: Id)
    requires EntryShows(s, id)
    ensures EntryShows(AfterAlertCycle(cfg, s, at), id)
  {
    hide Alerted;
    TurnKeepsShape(cfg, s.devices[id], ParentOffline(s.devices, s.devices[id]), at);
  }

  /** A row written with its snapshot shows in it, and the other entries are left alone. */
  lemma WriteKeepsEntry(s: State, s': State, x: Id, d: Device, id: Id)
    requires EntryShows(s, id)
    requires s'.devices == s.devices[x := d] && s'.cache == s.cache[x := Serialize(d)]
    ensures EntryShows(s', id)
  {
  }

  lemma DeleteKeepsEntryIff(s: State, x: Id, id: Id)
    requires EntryShows(s, id) && x != id
    ensures var s' := AfterDelete(s, x).0;
      && id in s'.devices && id in s'.cache
      && (EntryShows(s', id) <==> !(x in s.devices && s.devices[id].parent == Some(x)))
  {
  }

  lemma SkippedKeepsEntryIff(s: State, d': Device, id: Id, at: int)
    requires EntryShows(s, id)
    requires var d := s.devices[id];
      d' == d.(lastCheckedAt := Some(at), ackedAt := d'.ackedAt, failures := d'.failures,
               events := d'.events, outcomes := d'.outcomes)
    ensures var d := s.devices[id];
      EntryShows(s.(devices := s.devices[id := d']), id) <==> d.lastCheckedAt == Some(at) && d'.ackedAt == d.ackedAt
  {
  }

  lemma CheckKeepsEntryIff(cfg: Settings, s: State, x: Id, alive: bool, service: Option<bool>, at: int, id: Id)
    requires EntryShows(s, id) && id in s.devices && id in s.cache
    ensures var s' := AfterCheck(cfg, s, x, alive, service, at);
      && id in s'.devices && id in s'.cache
      && var d := s.devices[id];
         EntryShows(s', id) <==> (Unremarkable(Check(x, alive, service, at), id, d, s'.devices[id]) ==>
                                    d.lastCheckedAt == Some(at) && (alive ==> d.ackedAt.None?))
  {
    hide EntryShows, Serialize, EdgeEvent;
    if x in s.devices && s.devices[x].enabled {
      var d := Checked(cfg, s.devices[x], alive, service, at);
      if d.status != s.devices[x].status || d.serviceOk != s.devices[x].serviceOk {
        WriteKeepsEntry(s, AfterCheck(cfg, s, x, alive, service, at), x, d, id);
      } else if x == id {
        SkippedKeepsEntryIff(s, d, id, at);
      } else {
        OtherRowKeepsEntry(s, x, d, id);
      }
    }
  }

  lemma OtherRowKeepsEntry(s: State, x: Id, d: Device, id: Id)
    requires EntryShows(s, id) && x != id
    ensures EntryShows(s.(devices := s.devices[x := d]), id)
  {
  }

  lemma OthersKeepEntryIff(cfg: Settings, s: State, op: Op, id: Id)
    requires EntryShows(s, id) && id in s.devices && id in s.cache
    requires id in Step(cfg, s, op).devices && !op.Check? && !op.AlertCycle?
    ensures id in Step(cfg, s, op).cache
    ensures EntryShows(Step(cfg, s, op), id) <==>
      !(op.Delete? && op.id in s.devices && s.devices[id].parent == Some(op.id))
  {
    hide EntryShows, Serialize, ParentVerdict, TakenIp, EdgeEvent;
    var s' := Step(cfg, s, op);
    if op.Delete? {
      DeleteKeepsEntryIff(s, op.id, id);
    } else if s' != s {
      WriteKeepsEntry(s, s', op.id, s'.devices[op.id], id);
    }
  }

  /**
   A snapshot entry that showed its row goes on showing it, every cached column, unless
   the row lost its parent to a deletion, or an unremarkable check moved the time of the
   last check or cleared an acknowledgement.
   */
  lemma EntryShowsRowIff(cfg: Settings, s: State, op: Op, id: Id)
    requires EntryShows(s, id) && id in s.devices && id in s.cache && id in Step(cfg, s, op).devices
    ensures var d, d' := s.devices[id], Step(cfg, s, op).devices[id];
      EntryShows(Step(cfg, s, op), id) <==>
        && !(op.Delete? && op.id in s.devices && d.parent == Some(op.id))
        && (Unremarkable(op, id, d, d') ==> d.lastCheckedAt == Some(op.at) && (op.alive ==> d.ackedAt.None?))
  {
    hide EntryShows, AfterAlertCycle, AfterCheck, AfterCreate, AfterUpdate, AfterDelete, AfterSimulate, AfterSwitch;
    match op {
      case AlertCycle(at) => CycleKeepsEntry(cfg, s, at, id);
      case Check(x, alive, service, at) => CheckKeepsEntryIff(cfg, s, x, alive, service, at, id);
      case _ => OthersKeepEntryIff(cfg, s, op, id);
    }
  }

  // ---- Addresses ----

  lemma CheckKeepsAddress(cfg: Settings, s: State, id: Id, alive: bool, service: Option<bool>, at: int, x: Id)
    requires x in AfterCheck(cfg, s, id, alive, service, at).devices
    ensures x in s.devices && AfterCheck(cfg, s, id, alive, service, at).devices[x].ip == s.devices[x].ip
  {
    hide Serialize, EdgeEvent, StatusAfterCheck;
  }

  lemma OthersKeepAddresses(cfg: Settings, s: State, op: Op, x: Id)
    requires !op.Create? && !op.Update? && x in Step(cfg, s, op).devices
    ensures x in s.devices && Step(cfg, s, op).devices[x].ip == s.devices[x].ip
  {
    hide AfterAlertCycle, AfterCheck, Serialize, EdgeEvent;
    if op.AlertCycle? {
      CycleKeepsShape(cfg, s, op.at);
    } else if op.Check? {
      CheckKeepsAddress(cfg, s, op.id, op.alive, op.service, op.at, x);
    }
  }

  lemma StepKeepsAddresses(cfg: Settings, s: State, op: Op)
    requires AddressesUnique(s.devices)
    ensures AddressesUnique(Step(cfg, s, op).devices)
  {
    if !op.Create? && !op.Update? {
      hide Step;
      forall x | x in Step(cfg, s, op).devices
        ensures x in s.devices && Step(cfg, s, op).devices[x].ip == s.devices[x].ip
      {
        OthersKeepAddresses(cfg, s, op, x);
      }
    }
  }

  // ---- Status, events and notices ----

  lemma RowStepConsistent(cfg: Settings, s: State, op: Op, clock: int, x: Id)
    requires clock <= Stamp(op, clock)
    requires x in s.devices && x in Step(cfg, s, op).devices
    requires Consistent(cfg, s.devices[x], clock)
    ensures Consistent(cfg, Step(cfg, s, op).devices[x], Stamp(op, clock))
  {
    hide Consistent;
    var d := s.devices[x];
    ConsistentLater(cfg, d, clock, Stamp(op, clock));
    match op {
      case AlertCycle(at) => AlertedConsistent(cfg, d, ParentOffline(s.devices, d), clock, at);
      case Check(id, alive, service, at) => CheckedConsistent(cfg, d, alive, service, clock, at);
      case Simulate(id, online, at) => ForcedConsistent(cfg, d, online, clock, at);
      case Update(id, patch) => EditConsistent(cfg, d, Patched(d, patch), clock);
      case Delete(id) => EditConsistent(cfg, d, Orphaned(d, id), clock);
      case Create(_, _, _, _, _) =>
      case _ => EditConsistent(cfg, d, Switched(d, op), clock);
    }
  }

  /** Edits of the other columns do not touch what history determines. */
  lemma EditConsistent(cfg: Settings, d: Device, d': Device, clock: int)
    requires Consistent(cfg, d, clock)
    requires d'.outcomes == d.outcomes && d'.status == d.status && d'.failures == d.failures
    requires d'.events == d.events && d'.notices == d.notices && d'.notifiedAt == d.notifiedAt
    requires d'.lastCheckedAt == d.lastCheckedAt
    ensures Consistent(cfg, d', clock)
  {
  }

  lemma StepKeepsConsistent(cfg: Settings, s: State, op: Op, clock: int)
    requires AllConsistent(cfg, s.devices, clock) && clock <= Stamp(op, clock)
    ensures AllConsistent(cfg, Step(cfg, s, op).devices, Stamp(op, clock))
  {
    hide Consistent;
    var s' := Step(cfg, s, op);
    forall x | x in s'.devices
      ensures Consistent(cfg, s'.devices[x], Stamp(op, clock))
    {
      if x in s.devices {
        RowStepConsistent(cfg, s, op, clock, x);
      } else {
        NewDeviceConsistent(cfg, op.host.ip, op.parent, op.enabled, op.critical, clock);
      }
    }
  }

  // ---- Whole runs ----

  lemma StepKeepsInv(cfg: Settings, s: State, op: Op, clock: int)
    requires Inv(cfg, s, clock) && clock <= Stamp(op, clock)
    ensures Inv(cfg, Step(cfg, s, op), Stamp(op, clock))
  {
    hide IsForest, CacheAgrees, AddressesUnique, AllConsistent, Step;
    StepKeepsForest(cfg, s, op);
    StepKeepsCache(cfg, s, op);
    StepKeepsAddresses(cfg, s, op);
    StepKeepsConsistent(cfg, s, op, clock);
  }

  /** Every run keeps the invariant. */
  lemma {:induction false} RunKeepsInv(cfg: Settings, s: State, ops: seq<Op>, clock: int)
    requires Inv(cfg, s, clock) && Timed(clock, ops)
    ensures Inv(cfg, Run(cfg, s, ops), ClockAfter(clock, ops))
  {
    hide Inv, Step;
    if ops != [] {
      var init, last := ops[..|ops| - 1], ops[|ops| - 1];
      RunKeepsInv(cfg, s, init, clock);
      StepKeepsInv(cfg, Run(cfg, s, init), last, ClockAfter(clock, init));
    }
  }

  lemma EmptyInv(cfg: Settings, clock: int)
    ensures Inv(cfg, EMPTY, clock)
  {
    RankedHasNoCycle(ParentsOf(EMPTY.devices), map[]);
  }

  lemma ReachableConsistent(cfg: Settings, ops: seq<Op>, clock: int, id: Id)
    requires Timed(clock, ops) && id in Run(cfg, EMPTY, ops).devices
    ensures Consistent(cfg, Run(cfg, EMPTY, ops).devices[id], ClockAfter(clock, ops))
  {
    hide Consistent;
    EmptyInv(cfg, clock);
    RunKeepsInv(cfg, EMPTY, ops, clock);
  }

  /** From an empty installation on: dependency chains end and the snapshot is right. */
  lemma ForestAndSnapshot(cfg: Settings, ops: seq<Op>, clock: int)
    requires Timed(clock, ops)
    ensures var s := Run(cfg, EMPTY, ops);
      && IsForest(ParentsOf(s.devices))
      && CacheAgrees(s)
      && AddressesUnique(s.devices)
  {
    EmptyInv(cfg, clock);
    RunKeepsInv(cfg, EMPTY, ops, clock);
  }
}
