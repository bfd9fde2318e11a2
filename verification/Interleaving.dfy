/**
 Alert cycles as they run beside everything else: a cycle loads all rows once, then
 gives each device its turn, one commit at a time, while checks and routes commit in
 between. A turn decides on the loaded row and the outage start now in the log, and
 writes only the announcement.
 */
module Interleaving {
  import opened Basics
  import opened Devices
  import opened History
  import opened Monitor
  import opened Alarms
  import opened Backend
  import opened Detection

  /** The cycle in progress: when it began, the rows it loaded, the devices whose turn is still to come. */
  datatype Cycle = Cycle(at: int, loaded: map<Id, Device>, pending: set<Id>)

  datatype World = World(state: State, cycle: Cycle)

  /** A check or a route, the start of a cycle, or one device's turn in it. */
  datatype Move = Whole(op: Op) | Load(at: int) | Turn(id: Id)

  /** What the turn decides on: the loaded row, and the event log as it is now. */
  function Seen(w: World, id: Id): Device
    requires id in w.cycle.loaded
  {
    w.cycle.loaded[id].(events := if id in w.state.devices then w.state.devices[id].events else [])
  }

  function Decided(cfg: Settings, w: World, id: Id): Device
    requires id in w.cycle.loaded
  {
    Alerted(cfg, Seen(w, id), ParentOffline(w.cycle.loaded, w.cycle.loaded[id]), w.cycle.at)
  }

  /** The columns a turn writes, on the row as it is now. */
  function Announce(row: Device, notifiedAt: Option<int>, n: Notice): Device {
    row.(notifiedAt := notifiedAt, notices := row.notices + [n])
  }

  /** A written row is read again; writing to a deleted one raises and ends the cycle. */
  function AfterTurn(cfg: Settings, w: World, id: Id): World {
    if id !in w.cycle.pending || id !in w.cycle.loaded then w
    else
      var seen, d := Seen(w, id), Decided(cfg, w, id);
      if d == seen then w.(cycle := w.cycle.(pending := w.cycle.pending - {id}))
      else if id !in w.state.devices then w.(cycle := w.cycle.(pending := {}))
      else
        var row := Announce(w.state.devices[id], d.notifiedAt, d.notices[|seen.notices|]);
        World(Put(w.state, id, row),
              w.cycle.(pending := w.cycle.pending - {id}, loaded := w.cycle.loaded[id := row]))
  }

  ghost function After(cfg: Settings, w: World, x: Move): World {
    match x
    case Whole(op) => w.(state := Step(cfg, w.state, op))
    case Load(at) => w.(cycle := Cycle(at, w.state.devices, w.state.devices.Keys))
    case Turn(id) => AfterTurn(cfg, w, id)
  }

  ghost function AfterAll(cfg: Settings, w: World, xs: seq<Move>): World {
    if xs == [] then w else After(cfg, AfterAll(cfg, w, xs[..|xs| - 1]), xs[|xs| - 1])
  }

  function ClockOf(x: Move, clock: int): int {
    match x
    case Whole(op) => Stamp(op, clock)
    case Load(at) => at
    case Turn(_) => clock
  }

  function ClockAll(clock: int, xs: seq<Move>): int {
    if xs == [] then clock else ClockOf(xs[|xs| - 1], ClockAll(clock, xs[..|xs| - 1]))
  }

  /** Cycles go through loads and turns, and a new device gets an id no loaded row has. */
  predicate Allowed(w: World, x: Move) {
    x.Whole? ==> !x.op.AlertCycle? && (x.op.Create? ==> x.op.id !in w.cycle.loaded)
  }

  /** Such moves, on a clock that does not go back. */
  ghost predicate ProperMoves(cfg: Settings, w: World, xs: seq<Move>, clock: int) {
    xs != [] ==>
      var init, x := xs[..|xs| - 1], xs[|xs| - 1];
      && ProperMoves(cfg, w, init, clock)
      && Allowed(AfterAll(cfg, w, init), x) && ClockAll(clock, init) <= ClockAll(clock, xs)
  }

  const NO_CYCLE := Cycle(0, map[], {})

  // ---- What a loaded row still says ----

  /** The row has only heard more since it was loaded as d at that time; its notices are the same. */
  ghost predicate Since(d: Device, row: Device, at: int) {
    && d.outcomes <= row.outcomes
    && (forall i :: |d.outcomes| <= i < |row.outcomes| ==> at <= row.outcomes[i].at)
    && row.notices == d.notices && row.notifiedAt == d.notifiedAt
  }

  ghost predicate LoadedInv(cfg: Settings, w: World) {
    && w.cycle.pending <= w.cycle.loaded.Keys
    && forall id :: id in w.cycle.pending ==>
         && Consistent(cfg, w.cycle.loaded[id], w.cycle.at)
         && (id in w.state.devices ==> Since(w.cycle.loaded[id], w.state.devices[id], w.cycle.at))
  }

  ghost predicate WorldInv(cfg: Settings, w: World, clock: int) {
    && Inv(cfg, w.state, clock) && LoadedInv(cfg, w)
    && (w.cycle.pending != {} ==> w.cycle.at <= clock)
  }

  // ---- A notice decided on a loaded row ----

  lemma KnownAtLoad(d: Device, row: Device, at: int, cfg: Settings)
    requires Consistent(cfg, d, at) && Since(d, row, at)
    ensures KnownAt(row.outcomes, at, |d.outcomes|) && row.outcomes[..|d.outcomes|] == d.outcomes
  {
    hide EventsOf, StatusOf, Streak, Grounded, NoticesAlternate;
  }

  lemma GroundedAtLoad(cfg: Settings, d: Device, row: Device, n: Notice)
    requires Consistent(cfg, d, n.at) && Since(d, row, n.at) && Justified(cfg, d.outcomes, n)
    ensures Grounded(cfg, row.outcomes, n)
  {
    hide Consistent, Since, Justified;
    KnownAtLoad(d, row, n.at, cfg);
  }

  /** An outage that begins after the load is too young for an alarm, unless it begins with it. */
  lemma NewOutageIsGrounded(cfg: Settings, o: seq<Outcome>, at: int, started: int)
    requires cfg.alertAfter >= 0 && Chronological(o) && o != [] && at <= o[|o| - 1].at
    requires StatusOf(cfg, o) == Offline && StatusOf(cfg, o[..|o| - 1]) != Offline
    requires OutageStartedAt(EventsOf(cfg, o)) == Some(started) && at - started >= cfg.alertAfter
    ensures Grounded(cfg, o, Alarm(at, Some(at - started)))
  {
    hide Streak, StatusOf, OutageStartedAt, EventsOf, Grounded;
    LogFindsOutageStart(cfg, o);
    assert started == OutageStart(cfg, o) == o[|o| - 1].at == at;
    JustifiedNow(cfg, o, Alarm(at, Some(at - started)));
  }

  /** An outcome that opens no outage leaves the log query's answer alone. */
  lemma OldOutageIsFound(cfg: Settings, o: seq<Outcome>)
    requires o != [] && !(StatusOf(cfg, o) == Offline && StatusOf(cfg, o[..|o| - 1]) != Offline)
    ensures OutageStartedAt(EventsOf(cfg, o)) == OutageStartedAt(EventsOf(cfg, o[..|o| - 1]))
  {
    hide Streak, StatusOf, OutageStartedAt;
    var init := o[..|o| - 1];
    OutageOfLonger(EventsOf(cfg, init),
      if StatusOf(cfg, o) == StatusOf(cfg, init) then [] else EdgeEvent(StatusOf(cfg, o), o[|o| - 1].at));
  }

  /**
   The log query runs after the load. An outage that has begun since is too young for
   an alarm, so what the query finds is the outage the loaded row was in.
   */
  lemma {:induction false} LiveStartIsGrounded(cfg: Settings, known: seq<Outcome>, o: seq<Outcome>, at: int,
                                               started: int)
    requires cfg.alertAfter >= 0 && Chronological(o) && known <= o && StatusOf(cfg, known) == Offline
    requires forall i :: 0 <= i < |known| ==> o[i].at <= at
    requires forall i :: |known| <= i < |o| ==> at <= o[i].at
    requires OutageStartedAt(EventsOf(cfg, o)) == Some(started) && at - started >= cfg.alertAfter
    ensures Grounded(cfg, o, Alarm(at, Some(at - started)))
    decreases |o|
  {
    hide Streak, StatusOf, OutageStartedAt, EventsOf, Grounded;
    var n := Alarm(at, Some(at - started));
    if |o| == |known| {
      assert o == known;
      LogFindsOutageStart(cfg, o);
      JustifiedNow(cfg, o, n);
    } else {
      var init := o[..|o| - 1];
      if StatusOf(cfg, o) == Offline && StatusOf(cfg, init) != Offline {
        NewOutageIsGrounded(cfg, o, at, started);
      } else {
        OldOutageIsFound(cfg, o);
        LiveStartIsGrounded(cfg, known, init, at, started);
        GroundedGrows(cfg, init, o[|o| - 1], n);
        assert init + [o[|o| - 1]] == o;
      }
    }
  }

  // ---- Moves keep the invariant ----

  /** The notice a turn sends fits what was known at the load, and it is the right kind's turn. */
  lemma DecisionIsGrounded(cfg: Settings, d: Device, row: Device, parentOffline: bool, at: int, clock: int)
    requires cfg.alertAfter >= 0 && at <= clock
    requires Consistent(cfg, d, at) && Consistent(cfg, row, clock) && Since(d, row, at)
    requires Alerted(cfg, d.(events := row.events), parentOffline, at) != d.(events := row.events)
    ensures var after := Alerted(cfg, d.(events := row.events), parentOffline, at);
      && |after.notices| == |d.notices| + 1
      && var n := after.notices[|d.notices|];
         && n.at == at && Grounded(cfg, row.outcomes, n)
         && (n.Alarm? <==> row.notifiedAt.None?) && (n.Alarm? <==> after.notifiedAt.Some?)
  {
    hide Streak, StatusOf, OutageStartedAt, EventsOf, Grounded, OutageStart, NoticesAlternate;
    var seen := d.(events := row.events);
    var after := Alerted(cfg, seen, parentOffline, at);
    var n := after.notices[|d.notices|];
    if n.Alarm? && d.status == Offline {
      KnownAtLoad(d, row, at, cfg);
      LiveStartIsGrounded(cfg, d.outcomes, row.outcomes, at, OutageStartedAt(row.events).value);
    } else {
      GroundedAtLoad(cfg, d, row, n);
    }
  }

  lemma HeardKeepsSince(d: Device, row: Device, row': Device, at: int, heard: seq<Outcome>)
    requires Since(d, row, at) && row'.outcomes == row.outcomes + heard
    requires forall i :: 0 <= i < |heard| ==> at <= heard[i].at
    requires row'.notices == row.notices && row'.notifiedAt == row.notifiedAt
    ensures Since(d, row', at)
  {
  }

  lemma StepKeepsSince(cfg: Settings, s: State, op: Op, id: Id, d: Device, at: int, clock: int)
    requires id in s.devices && id in Step(cfg, s, op).devices && Since(d, s.devices[id], at)
    requires !op.AlertCycle? && at <= clock <= Stamp(op, clock)
    ensures Since(d, Step(cfg, s, op).devices[id], at)
  {
    hide Step, Since;
    HistoryIsWhatWasHeard(cfg, s, op, id);
    OnlyCyclesNotify(cfg, s, op, id);
    HeardKeepsSince(d, s.devices[id], Step(cfg, s, op).devices[id], at, Heard(s, op, id));
  }

  lemma OnlyCreateAdds(cfg: Settings, s: State, op: Op, id: Id)
    requires id !in s.devices && id in Step(cfg, s, op).devices
    ensures op.Create? && op.id == id
  {
    hide AfterAlertCycle, ParentVerdict, TakenIp, Serialize, EdgeEvent;
    if op.AlertCycle? {
      CycleKeepsShape(cfg, s, op.at);
    }
  }

  lemma WholeKeepsWorld(cfg: Settings, w: World, op: Op, clock: int)
    requires WorldInv(cfg, w, clock) && Allowed(w, Whole(op)) && clock <= Stamp(op, clock)
    ensures WorldInv(cfg, After(cfg, w, Whole(op)), Stamp(op, clock))
  {
    hide Inv, Step, Since, Consistent;
    StepKeepsInv(cfg, w.state, op, clock);
    var s' := Step(cfg, w.state, op);
    forall id | id in w.cycle.pending && id in s'.devices
      ensures Since(w.cycle.loaded[id], s'.devices[id], w.cycle.at)
    {
      if id in w.state.devices {
        StepKeepsSince(cfg, w.state, op, id, w.cycle.loaded[id], w.cycle.at, clock);
      } else {
        OnlyCreateAdds(cfg, w.state, op, id);
      }
    }
  }

  lemma LoadKeepsWorld(cfg: Settings, w: World, at: int, clock: int)
    requires WorldInv(cfg, w, clock) && clock <= at
    ensures WorldInv(cfg, After(cfg, w, Load(at)), at)
  {
    hide Consistent, CacheAgrees, AddressesUnique;
    forall id | id in w.state.devices
      ensures Consistent(cfg, w.state.devices[id], at)
    {
      ConsistentLater(cfg, w.state.devices[id], clock, at);
    }
  }

  /** Announcing a device touches nothing that the invariant says about the others. */
  lemma PutAnnouncedKeepsInv(cfg: Settings, s: State, id: Id, row: Device, clock: int)
    requires Inv(cfg, s, clock) && id in s.devices && Consistent(cfg, row, clock)
    requires row.parent == s.devices[id].parent && row.ip == s.devices[id].ip
    ensures Inv(cfg, Put(s, id, row), clock)
  {
    hide Consistent, CacheAgrees, Serialize, ParentsOf;
    RowEditKeepsParents(s.devices, id, row);
    PutKeepsCache(s, id, row);
  }

  lemma AnnounceIsConsistent(cfg: Settings, row: Device, notifiedAt: Option<int>, n: Notice, clock: int)
    requires Consistent(cfg, row, clock) && Grounded(cfg, row.outcomes, n) && n.at <= clock
    requires (n.Alarm? <==> row.notifiedAt.None?) && (n.Alarm? <==> notifiedAt.Some?)
    ensures Consistent(cfg, Announce(row, notifiedAt, n), clock)
  {
    hide Consistent, Grounded;
    NoticeKeepsConsistent(cfg, row, n, Announce(row, notifiedAt, n), clock);
  }

  lemma WorldRow(cfg: Settings, w: World, id: Id, clock: int)
    requires WorldInv(cfg, w, clock) && id in w.cycle.pending && id in w.state.devices
    ensures id in w.cycle.loaded && w.cycle.at <= clock
    ensures Consistent(cfg, w.cycle.loaded[id], w.cycle.at) && Consistent(cfg, w.state.devices[id], clock)
    ensures Since(w.cycle.loaded[id], w.state.devices[id], w.cycle.at)
  {
    hide Consistent, Since, CacheAgrees, AddressesUnique;
  }

  /** The row a turn writes keeps the invariant, and so does everything it leaves alone. */
  lemma WrittenKeepsWorld(cfg: Settings, w: World, id: Id, clock: int)
    requires WorldInv(cfg, w, clock) && id in w.cycle.pending && id in w.cycle.loaded && id in w.state.devices
    requires Decided(cfg, w, id) != Seen(w, id) && cfg.alertAfter >= 0
    ensures WorldInv(cfg, AfterTurn(cfg, w, id), clock)
  {
    hide Inv, LoadedInv, Consistent, Since, Grounded, Alerted, Put, ParentOffline;
    WorldRow(cfg, w, id, clock);
    var d, row := w.cycle.loaded[id], w.state.devices[id];
    DecisionIsGrounded(cfg, d, row, ParentOffline(w.cycle.loaded, d), w.cycle.at, clock);
    var after := Decided(cfg, w, id);
    var row' := Announce(row, after.notifiedAt, after.notices[|d.notices|]);
    AnnounceIsConsistent(cfg, row, after.notifiedAt, after.notices[|d.notices|], clock);
    PutAnnouncedKeepsInv(cfg, w.state, id, row', clock);
    OthersStayLoaded(cfg, w, id, row');
  }

  lemma OthersStayLoaded(cfg: Settings, w: World, id: Id, row: Device)
    requires LoadedInv(cfg, w) && id in w.cycle.loaded
    ensures LoadedInv(cfg, World(Put(w.state, id, row),
      w.cycle.(pending := w.cycle.pending - {id}, loaded := w.cycle.loaded[id := row])))
  {
    hide Consistent, Since, Serialize;
  }

  lemma TurnKeepsWorld(cfg: Settings, w: World, id: Id, clock: int)
    requires WorldInv(cfg, w, clock) && cfg.alertAfter >= 0
    ensures WorldInv(cfg, AfterTurn(cfg, w, id), clock)
  {
    hide Inv, Consistent, Since, Alerted, ParentOffline;
    if id in w.cycle.pending && id in w.cycle.loaded && id in w.state.devices && Decided(cfg, w, id) != Seen(w, id) {
      WrittenKeepsWorld(cfg, w, id, clock);
    }
  }

  lemma MoveKeepsWorld(cfg: Settings, w: World, x: Move, clock: int)
    requires WorldInv(cfg, w, clock) && Allowed(w, x) && clock <= ClockOf(x, clock) && cfg.alertAfter >= 0
    ensures WorldInv(cfg, After(cfg, w, x), ClockOf(x, clock))
  {
    hide WorldInv, Step, AfterTurn;
    match x {
      case Whole(op) => WholeKeepsWorld(cfg, w, op, clock);
      case Load(at) => LoadKeepsWorld(cfg, w, at, clock);
      case Turn(id) => TurnKeepsWorld(cfg, w, id, clock);
    }
  }

  /** However turns, checks and routes interleave. */
  lemma {:induction false} MovesKeepWorld(cfg: Settings, w: World, xs: seq<Move>, clock: int)
    requires WorldInv(cfg, w, clock) && ProperMoves(cfg, w, xs, clock) && cfg.alertAfter >= 0
    ensures WorldInv(cfg, AfterAll(cfg, w, xs), ClockAll(clock, xs))
  {
    hide WorldInv, After, Allowed;
    if xs != [] {
      var init := xs[..|xs| - 1];
      MovesKeepWorld(cfg, w, init, clock);
      MoveKeepsWorld(cfg, AfterAll(cfg, w, init), xs[|xs| - 1], ClockAll(clock, init));
    }
  }

  /**
   From an empty installation on, in every interleaving: dependency chains end, the
   snapshot is right, statuses and events follow from what was heard, and every notice
   was justified by what was known when its cycle loaded the rows.
   */
  lemma InterleavedInv(cfg: Settings, xs: seq<Move>, clock: int)
    requires ProperMoves(cfg, World(EMPTY, NO_CYCLE), xs, clock) && cfg.alertAfter >= 0
    ensures Inv(cfg, AfterAll(cfg, World(EMPTY, NO_CYCLE), xs).state, ClockAll(clock, xs))
  {
    hide Inv, AfterAll, ProperMoves;
    EmptyInv(cfg, clock);
    MovesKeepWorld(cfg, World(EMPTY, NO_CYCLE), xs, clock);
  }

  // ---- Left alone, a cycle is the atomic step ----

  lemma FreshTurn(cfg: Settings, w: World, id: Id)
    requires w.cycle.loaded == w.state.devices && id in w.cycle.pending && id in w.state.devices
    ensures var w' := AfterTurn(cfg, w, id);
      && w'.state == AfterAlertOne(cfg, w.state, id, w.cycle.at)
      && w'.cycle == Cycle(w.cycle.at, w'.state.devices, w.cycle.pending - {id})
  {
    var d := w.state.devices[id];
    assert Seen(w, id) == d;
    hide ParentOffline, OutageStartedAt, Serialize;
  }

  function Turns(rows: seq<Id>): seq<Move> {
    if rows == [] then [] else Turns(rows[..|rows| - 1]) + [Turn(rows[|rows| - 1])]
  }

  lemma {:induction false} AfterAllConcat(cfg: Settings, w: World, xs: seq<Move>, ys: seq<Move>)
    ensures AfterAll(cfg, w, xs + ys) == AfterAll(cfg, AfterAll(cfg, w, xs), ys)
    decreases |ys|
  {
    hide After;
    if ys == [] {
      assert xs + [] == xs;
    } else {
      AfterAllConcat(cfg, w, xs, ys[..|ys| - 1]);
      assert (xs + ys)[..|xs + ys| - 1] == xs + ys[..|ys| - 1];
    }
  }

  lemma OneMove(cfg: Settings, w: World, x: Move)
    ensures AfterAll(cfg, w, [x]) == After(cfg, w, x)
  {
    hide After;
    assert [x][..0] == [];
  }

  lemma RowsSoFar(rows: seq<Id>)
    requires Distinct(rows) && rows != []
    ensures var init, id := rows[..|rows| - 1], rows[|rows| - 1];
      Distinct(init) && id !in Elements(init) && Elements(rows) == Elements(init) + {id}
  {
    assert rows == rows[..|rows| - 1] + [rows[|rows| - 1]];
  }

  /** The rows that had their turn in an undisturbed cycle stand where the atomic step would leave them. */
  lemma {:induction false} TurnsAreCycle(cfg: Settings, s: State, at: int, rows: seq<Id>)
    requires s.cache.Keys == s.devices.Keys
    requires Distinct(rows) && Elements(rows) <= s.devices.Keys
    requires AfterAlertCycle(cfg, s, at).devices.Keys == s.devices.Keys
    requires AfterAlertCycle(cfg, s, at).cache.Keys == s.devices.Keys
    ensures var w := AfterAll(cfg, World(s, Cycle(at, s.devices, s.devices.Keys)), Turns(rows));
      && w.state == PartialCycle(s, AfterAlertCycle(cfg, s, at), Elements(rows))
      && w.cycle == Cycle(at, w.state.devices, s.devices.Keys - Elements(rows))
  {
    hide AfterAlertCycle, AfterTurn, AfterAlertOne, PartialCycle, Elements, Distinct;
    var w0, t := World(s, Cycle(at, s.devices, s.devices.Keys)), AfterAlertCycle(cfg, s, at);
    if rows == [] {
      NoRows();
      CycleKeys(cfg, s, at);
      PartialCycleEnds(s, t);
    } else {
      var init, id := rows[..|rows| - 1], rows[|rows| - 1];
      RowsSoFar(rows);
      TurnsAreCycle(cfg, s, at, init);
      AfterAllConcat(cfg, w0, Turns(init), [Turn(id)]);
      OneMove(cfg, AfterAll(cfg, w0, Turns(init)), Turn(id));
      FreshTurn(cfg, AfterAll(cfg, w0, Turns(init)), id);
      TurnMovesCycle(cfg, s, Elements(init), id, at);
    }
  }

  lemma NoRows()
    ensures Elements<Id>([]) == {}
  {
  }

  /** A cycle that nothing interrupts is the atomic step, whatever the order of the rows. */
  lemma UninterruptedCycle(cfg: Settings, w: World, at: int, rows: seq<Id>)
    requires w.state.cache.Keys == w.state.devices.Keys
    requires Distinct(rows) && Elements(rows) == w.state.devices.Keys
    ensures AfterAll(cfg, w, [Load(at)] + Turns(rows)).state == AfterAlertCycle(cfg, w.state, at)
  {
    hide AfterAlertCycle, PartialCycle, Elements, Distinct;
    CycleKeys(cfg, w.state, at);
    AfterAllConcat(cfg, w, [Load(at)], Turns(rows));
    OneMove(cfg, w, Load(at));
    TurnsAreCycle(cfg, w.state, at, rows);
    PartialCycleEnds(w.state, AfterAlertCycle(cfg, w.state, at));
  }

  // ---- What an interleaved cycle can get wrong ----

  /** A device that answers after its row was loaded is announced all the same. */
  lemma StaleAlarm(cfg: Settings, s: State, id: Id, service: Option<bool>, at: int, answered: int)
    requires id in s.devices && s.devices[id].status == Offline && s.devices[id].notifiedAt.None?
    requires Alertable(cfg, s.devices[id], at) && !ParentOffline(s.devices, s.devices[id])
    requires service != Some(false)
    ensures var w := AfterAll(cfg, World(s, NO_CYCLE),
                              [Load(at), Whole(Check(id, true, service, answered)), Turn(id)]);
      && id in w.state.devices && w.state.devices[id].status == Online
      && w.state.devices[id].notifiedAt == Some(at)
  {
    hide After, AfterAll;
    var w0, check := World(s, NO_CYCLE), Check(id, true, service, answered);
    ThreeMoves(cfg, w0, Load(at), Whole(check), Turn(id));
    AnsweredIsSeenDown(cfg, s, id, service, at, answered);
  }

  lemma {:induction false} NobodyPending(cfg: Settings, w: World, rows: seq<Id>)
    requires w.cycle.pending == {}
    ensures AfterAll(cfg, w, Turns(rows)) == w
  {
    if rows != [] {
      NobodyPending(cfg, w, rows[..|rows| - 1]);
    }
  }

  /** A device deleted before the turn that would write its row silences the rest of the cycle. */
  lemma DeletedRowEndsCycle(cfg: Settings, w: World, id: Id, rows: seq<Id>)
    requires id in w.cycle.pending && id in w.cycle.loaded && id !in w.state.devices
    requires Decided(cfg, w, id) != Seen(w, id)
    ensures AfterAll(cfg, w, [Turn(id)] + Turns(rows)).state == w.state
  {
    hide AfterAll, Decided, Seen;
    AfterAllConcat(cfg, w, [Turn(id)], Turns(rows));
    OneMove(cfg, w, Turn(id));
    NobodyPending(cfg, After(cfg, w, Turn(id)), rows);
  }

  lemma ThreeMoves(cfg: Settings, w: World, x: Move, y: Move, z: Move)
    ensures AfterAll(cfg, w, [x, y, z]) == After(cfg, After(cfg, After(cfg, w, x), y), z)
  {
    hide After;
    OneMove(cfg, w, x);
    AfterAllConcat(cfg, w, [x], [y]);
    OneMove(cfg, After(cfg, w, x), y);
    AfterAllConcat(cfg, w, [x] + [y], [z]);
    OneMove(cfg, After(cfg, After(cfg, w, x), y), z);
    assert [x] + [y] + [z] == [x, y, z];
  }

  lemma AnsweredIsSeenDown(cfg: Settings, s: State, id: Id, service: Option<bool>, at: int, answered: int)
    requires id in s.devices && s.devices[id].status == Offline && s.devices[id].notifiedAt.None?
    requires Alertable(cfg, s.devices[id], at) && !ParentOffline(s.devices, s.devices[id])
    ensures var check := Check(id, true, service, answered);
      var w1 := After(cfg, World(s, NO_CYCLE), Load(at));
      var w := After(cfg, After(cfg, w1, Whole(check)), Turn(id));
      && id in w.state.devices && w.state.devices[id].status == Online
      && w.state.devices[id].notifiedAt == Some(at)
  {
    hide OutageStartedAt, ParentOffline, Serialize;
    OutageOfLonger(s.devices[id].events, [Event(CameOnline, answered)]);
  }
}
