/**
 Reference semantics of a device: status, event log and outage start as functions
 of the outcomes alone, and the proof that the incremental fields agree with them.
 */
module History {
  import opened Basics
  import opened Devices

  /** Length of the trailing run of failures; a forced outage counts as a full threshold. */
  ghost function Streak(cfg: Settings, o: seq<Outcome>): nat {
    if o == [] then 0
    else match o[|o| - 1]
      case Reply(_) => 0
      case ForcedOnline(_) => 0
      case Miss(_) => 1 + Streak(cfg, o[..|o| - 1])
      case ForcedOffline(_) => Max(cfg.flapThreshold, 0) + Streak(cfg, o[..|o| - 1])
  }

  ghost function StatusOf(cfg: Settings, o: seq<Outcome>): Status {
    if o == [] then Unknown
    else match o[|o| - 1]
      case Reply(_) => Online
      case ForcedOnline(_) => Online
      case ForcedOffline(_) => Offline
      case Miss(_) => if Streak(cfg, o) >= cfg.flapThreshold then Offline else Unknown
  }

  /** With a real threshold the streak alone decides. */
  lemma StatusByStreak(cfg: Settings, o: seq<Outcome>)
    requires cfg.flapThreshold >= 1
    ensures StatusOf(cfg, o) == Offline <==> Streak(cfg, o) >= cfg.flapThreshold
    ensures StatusOf(cfg, o) == Online <==> o != [] && Streak(cfg, o) == 0
  {
    if o != [] && o[|o| - 1].Miss? {
      assert Streak(cfg, o) == 1 + Streak(cfg, o[..|o| - 1]);
    }
  }

  /** The hard online/offline edges of the status, in order. */
  ghost function EventsOf(cfg: Settings, o: seq<Outcome>): seq<Event> {
    if o == [] then []
    else
      var init := o[..|o| - 1];
      EventsOf(cfg, init)
      + if StatusOf(cfg, o) == StatusOf(cfg, init) then [] else EdgeEvent(StatusOf(cfg, o), o[|o| - 1].at)
  }

  ghost predicate Chronological(o: seq<Outcome>) {
    forall i, j :: 0 <= i <= j < |o| ==> o[i].at <= o[j].at
  }

  /** An outage is never left through the warning state. */
  lemma OfflineStaysOnMiss(cfg: Settings, o: seq<Outcome>)
    requires |o| > 0 && o[|o| - 1].Miss? && StatusOf(cfg, o[..|o| - 1]) == Offline
    ensures StatusOf(cfg, o) == Offline
  {
    var init := o[..|o| - 1];
    assert Streak(cfg, init) >= cfg.flapThreshold;
  }

  /** The last row is went_offline exactly while the device is offline. */
  lemma {:induction false} LastEventIffOffline(cfg: Settings, o: seq<Outcome>)
    ensures var e := EventsOf(cfg, o);
      StatusOf(cfg, o) == Offline <==> |e| > 0 && e[|e| - 1].kind == WentOffline
  {
    if o != [] {
      var init := o[..|o| - 1];
      LastEventIffOffline(cfg, init);
      if StatusOf(cfg, init) == Offline && o[|o| - 1].Miss? {
        OfflineStaysOnMiss(cfg, o);
      }
    }
  }

  /** Two outages always have a recovery row between them. */
  ghost predicate OutagesSeparated(e: seq<Event>) {
    forall i, j :: 0 <= i < j < |e| && e[i].kind == WentOffline && e[j].kind == WentOffline
      ==> exists k :: i < k < j && e[k].kind == CameOnline
  }

  lemma {:induction false} OutagesAreSeparated(cfg: Settings, o: seq<Outcome>)
    ensures OutagesSeparated(EventsOf(cfg, o))
  {
    if o != [] {
      var init := o[..|o| - 1];
      var e0, e := EventsOf(cfg, init), EventsOf(cfg, o);
      OutagesAreSeparated(cfg, init);
      LastEventIffOffline(cfg, init);
      forall i, j | 0 <= i < j < |e| && e[i].kind == WentOffline && e[j].kind == WentOffline
        ensures exists k :: i < k < j && e[k].kind == CameOnline
      {
        if j < |e0| {
          assert e0[i] == e[i] && e0[j] == e[j];
          var k :| i < k < j && e0[k].kind == CameOnline;
          assert e[k].kind == CameOnline;
        } else {
          var k := |e0| - 1;
          assert e[k] == e0[k] && e0[k].kind == CameOnline;
          assert i != k;
        }
      }
    }
  }

  // ---- The outage start ----

  /** When the current outage began: the first outcome of the trailing offline stretch. */
  ghost function OutageStart(cfg: Settings, o: seq<Outcome>): int
    requires StatusOf(cfg, o) == Offline
  {
    var init := o[..|o| - 1];
    if StatusOf(cfg, init) == Offline then OutageStart(cfg, init) else o[|o| - 1].at
  }

  /** OutageStart is the edge into the stretch: not offline before it, offline ever since. */
  lemma {:induction false} OutageStartIsEdge(cfg: Settings, o: seq<Outcome>) returns (i: nat)
    requires StatusOf(cfg, o) == Offline
    ensures i < |o| && o[i].at == OutageStart(cfg, o)
    ensures StatusOf(cfg, o[..i]) != Offline
    ensures forall n :: i < n <= |o| ==> StatusOf(cfg, o[..n]) == Offline
    decreases |o|
  {
    var init := o[..|o| - 1];
    assert o[..|o|] == o;
    if StatusOf(cfg, init) == Offline {
      i := OutageStartIsEdge(cfg, init);
      assert init[..i] == o[..i];
      forall n | i < n <= |o|
        ensures StatusOf(cfg, o[..n]) == Offline
      {
        if n < |o| {
          assert init[..n] == o[..n];
        }
      }
    } else {
      i := |o| - 1;
    }
  }

  lemma OutageOfLonger(e: seq<Event>, more: seq<Event>)
    requires |more| <= 1
    ensures OutageStartedAt(e + more) ==
      if more == [] || more[0].kind != WentOffline then OutageStartedAt(e)
      else if OutageStartedAt(e).None? then Some(more[0].at)
      else Some(Max(OutageStartedAt(e).value, more[0].at))
  {
    if more != [] {
      assert (e + more)[..|e + more| - 1] == e;
    } else {
      assert e + more == e;
    }
  }

  lemma {:induction false} EventStampsBounded(cfg: Settings, o: seq<Outcome>, clock: int)
    requires forall i :: 0 <= i < |o| ==> o[i].at <= clock
    ensures OutageStartedAt(EventsOf(cfg, o)).Some? ==> OutageStartedAt(EventsOf(cfg, o)).value <= clock
  {
    if o != [] {
      var init := o[..|o| - 1];
      EventStampsBounded(cfg, init, clock);
      hide OutageStartedAt, StatusOf;
      OutageOfLonger(EventsOf(cfg, init),
        if StatusOf(cfg, o) == StatusOf(cfg, init) then [] else EdgeEvent(StatusOf(cfg, o), o[|o| - 1].at));
    }
  }

  /** The log query returns the start of the current outage. */
  lemma {:induction false} LogFindsOutageStart(cfg: Settings, o: seq<Outcome>)
    requires Chronological(o) && StatusOf(cfg, o) == Offline
    ensures OutageStartedAt(EventsOf(cfg, o)) == Some(OutageStart(cfg, o))
  {
    var init, at := o[..|o| - 1], o[|o| - 1].at;
    if StatusOf(cfg, init) == Offline {
      LogFindsOutageStart(cfg, init);
      assert EventsOf(cfg, o) == EventsOf(cfg, init);
    } else {
      EventStampsBounded(cfg, init, at);
      OutageOfLonger(EventsOf(cfg, init), [Event(WentOffline, at)]);
    }
  }

  // ---- The invariant tying a row to its history ----

  /** The first k outcomes were known at that time, the rest came later. */
  ghost predicate KnownAt(o: seq<Outcome>, at: int, k: int) {
    && 0 <= k <= |o|
    && (forall i :: 0 <= i < k ==> o[i].at <= at)
    && (forall i :: k <= i < |o| ==> at <= o[i].at)
  }

  /**
   What a notice may say, given what was known: while the device was offline it can
   only be an alarm, it names the start of the outage then under way, and that
   outage was old enough; otherwise it is a recovery or an alarm about the service.
   */
  ghost predicate Justified(cfg: Settings, known: seq<Outcome>, n: Notice) {
    if StatusOf(cfg, known) == Offline then
      && n.Alarm? && n.downFor == Some(n.at - OutageStart(cfg, known))
      && n.downFor.value >= cfg.alertAfter
    else n.Recovered? || n.downFor.None?
  }

  /** The notice was justified by what was known when it went out. */
  ghost predicate Grounded(cfg: Settings, o: seq<Outcome>, n: Notice) {
    exists k :: KnownAt(o, n.at, k) && Justified(cfg, o[..k], n)
  }

  ghost predicate NoticesAlternate(d: Device) {
    && (forall i :: 0 <= i < |d.notices| ==> (d.notices[i].Alarm? <==> i % 2 == 0))
    && (d.notifiedAt.Some? <==> |d.notices| % 2 == 1)
  }

  /** When a device was last heard of. */
  ghost function LastHeard(o: seq<Outcome>): Option<int> {
    if o == [] then None else Some(o[|o| - 1].at)
  }

  ghost predicate Consistent(cfg: Settings, d: Device, clock: int) {
    && Chronological(d.outcomes)
    && (forall i :: 0 <= i < |d.outcomes| ==> d.outcomes[i].at <= clock)
    && d.status == StatusOf(cfg, d.outcomes)
    && Min(d.failures, cfg.flapThreshold) == Min(Streak(cfg, d.outcomes), cfg.flapThreshold)
    && d.events == EventsOf(cfg, d.outcomes)
    && d.lastCheckedAt == LastHeard(d.outcomes)
    && NoticesAlternate(d)
    && forall i :: 0 <= i < |d.notices| ==>
         d.notices[i].at <= clock && Grounded(cfg, d.outcomes, d.notices[i])
  }

  lemma NewDeviceConsistent(cfg: Settings, ip: string, parent: Option<Id>, enabled: bool, critical: bool, clock: int)
    ensures Consistent(cfg, NewDevice(ip, parent, enabled, critical), clock)
  {
  }

  lemma GroundedGrows(cfg: Settings, o: seq<Outcome>, x: Outcome, n: Notice)
    requires Grounded(cfg, o, n) && n.at <= x.at
    ensures Grounded(cfg, o + [x], n)
  {
    var k :| KnownAt(o, n.at, k) && Justified(cfg, o[..k], n);
    assert (o + [x])[..k] == o[..k] && KnownAt(o + [x], n.at, k);
  }

  /** What both status writers have in common: one more outcome, one edge row at most. */
  lemma OutcomeKeepsConsistent(cfg: Settings, d: Device, x: Outcome, d': Device, clock: int)
    requires Consistent(cfg, d, clock) && clock <= x.at
    requires d'.outcomes == d.outcomes + [x]
    requires d'.status == StatusOf(cfg, d'.outcomes)
    requires Min(d'.failures, cfg.flapThreshold) == Min(Streak(cfg, d'.outcomes), cfg.flapThreshold)
    requires d'.events == d.events + if d'.status == d.status then [] else EdgeEvent(d'.status, x.at)
    requires d'.lastCheckedAt == Some(x.at) && d'.notices == d.notices && d'.notifiedAt == d.notifiedAt
    ensures Consistent(cfg, d', x.at)
  {
    assert d'.outcomes[..|d'.outcomes| - 1] == d.outcomes;
    assert d'.events == EventsOf(cfg, d'.outcomes);
    hide Streak, StatusOf, EventsOf, Grounded;
    forall i | 0 <= i < |d'.notices|
      ensures Grounded(cfg, d'.outcomes, d'.notices[i])
    {
      GroundedGrows(cfg, d.outcomes, x, d.notices[i]);
    }
  }

  lemma CheckedConsistent(cfg: Settings, d: Device, alive: bool, service: Option<bool>, clock: int, now: int)
    requires Consistent(cfg, d, clock) && clock <= now
    ensures Consistent(cfg, Checked(cfg, d, alive, service, now), now)
  {
    var d' := Checked(cfg, d, alive, service, now);
    var x := if alive then Reply(now) else Miss(now);
    assert d'.outcomes[..|d'.outcomes| - 1] == d.outcomes;
    OutcomeKeepsConsistent(cfg, d, x, d', clock);
  }

  lemma ForcedConsistent(cfg: Settings, d: Device, online: bool, clock: int, now: int)
    requires Consistent(cfg, d, clock) && clock <= now
    ensures Consistent(cfg, Forced(cfg, d, online, now), now)
  {
    var d' := Forced(cfg, d, online, now);
    var x := if online then ForcedOnline(now) else ForcedOffline(now);
    assert d'.outcomes[..|d'.outcomes| - 1] == d.outcomes;
    OutcomeKeepsConsistent(cfg, d, x, d', clock);
  }

  lemma ConsistentLater(cfg: Settings, d: Device, clock: int, now: int)
    requires Consistent(cfg, d, clock) && clock <= now
    ensures Consistent(cfg, d, now)
  {
  }

  /** One more notice, of the kind whose turn it is. */
  lemma NoticeKeepsConsistent(cfg: Settings, d: Device, n: Notice, d': Device, clock: int)
    requires Consistent(cfg, d, clock) && Grounded(cfg, d.outcomes, n) && n.at <= clock
    requires n.Alarm? <==> d.notifiedAt.None?
    requires d' == d.(notices := d.notices + [n], notifiedAt := d'.notifiedAt)
    requires d'.notifiedAt.Some? <==> n.Alarm?
    ensures Consistent(cfg, d', clock)
  {
    hide Streak, StatusOf, EventsOf, Grounded, Chronological;
    forall i | 0 <= i < |d'.notices|
      ensures d'.notices[i].Alarm? <==> i % 2 == 0
      ensures d'.notices[i].at <= clock && Grounded(cfg, d'.outcomes, d'.notices[i])
    {
      if i < |d.notices| {
        assert d'.notices[i] == d.notices[i];
      }
    }
  }

  /** A notice sent now is judged by the whole history. */
  lemma JustifiedNow(cfg: Settings, o: seq<Outcome>, n: Notice)
    requires (forall i :: 0 <= i < |o| ==> o[i].at <= n.at) && Justified(cfg, o, n)
    ensures Grounded(cfg, o, n)
  {
    assert o[..|o|] == o && KnownAt(o, n.at, |o|);
  }

  lemma AlertedConsistent(cfg: Settings, d: Device, parentOffline: bool, clock: int, now: int)
    requires Consistent(cfg, d, clock) && clock <= now
    ensures Consistent(cfg, Alerted(cfg, d, parentOffline, now), now)
  {
    hide Streak, EventsOf, StatusOf, OutageStartedAt, OutageStart, Grounded, Chronological;
    var d' := Alerted(cfg, d, parentOffline, now);
    ConsistentLater(cfg, d, clock, now);
    if d' != d {
      if d.status == Offline {
        LogFindsOutageStart(cfg, d.outcomes);
      }
      JustifiedNow(cfg, d.outcomes, d'.notices[|d.notices|]);
      NoticeKeepsConsistent(cfg, d, d'.notices[|d.notices|], d', now);
    }
  }
}
