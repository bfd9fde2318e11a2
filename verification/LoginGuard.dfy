/**
 The login brute-force guard: a deque of failure times per client address, pruned
 at its head, against the full record of what that client did.
 */
module LoginGuard {
  import opened Basics

  datatype Limits = Limits(maxFailures: int, window: int) {
    predicate Enabled() {
      maxFailures > 0 && window > 0
    }
  }

  datatype Entry = Failure(at: int) | Success | Alert(at: int)

  /** One client: its deque, its last alert, and its whole record. */
  datatype Client = Client(queue: seq<int>, alertedAt: Option<int>, record: seq<Entry>)

  const NEW_CLIENT := Client([], None, [])

  // ---- The guard, per client ----

  function DropExpired(q: seq<int>, now: int, window: int): seq<int> {
    if q != [] && now - q[0] > window then DropExpired(q[1..], now, window) else q
  }

  function AfterQuery(l: Limits, c: Client, now: int): Client {
    if !l.Enabled() then c else c.(queue := DropExpired(c.queue, now, l.window))
  }

  predicate Blocked(l: Limits, c: Client, now: int) {
    l.Enabled() && |DropExpired(c.queue, now, l.window)| >= l.maxFailures
  }

  /** The code tests the stored time for truth, so a stored 0 counts as no alert. */
  predicate RecentlyAlerted(l: Limits, alertedAt: Option<int>, now: int) {
    alertedAt.Some? && alertedAt.value != 0 && now - alertedAt.value < l.window
  }

  function AfterFailure(l: Limits, c: Client, now: int): Client {
    if !l.Enabled() then c.(record := c.record + [Failure(now)])
    else
      var q := DropExpired(c.queue, now, l.window) + [now];
      if |q| < l.maxFailures || RecentlyAlerted(l, c.alertedAt, now) then
        c.(queue := q, record := c.record + [Failure(now)])
      else Client(q, Some(now), c.record + [Failure(now), Alert(now)])
  }

  function AfterSuccess(c: Client): Client {
    Client([], None, c.record + [Success])
  }

  // ---- The reference: filters over the whole record ----

  function FailuresSince(record: seq<Entry>): seq<int> {
    if record == [] then []
    else
      var init, last := record[..|record| - 1], record[|record| - 1];
      match last
      case Success => []
      case Failure(at) => FailuresSince(init) + [at]
      case Alert(_) => FailuresSince(init)
  }

  function AlertsSince(record: seq<Entry>): seq<int> {
    if record == [] then []
    else
      var init, last := record[..|record| - 1], record[|record| - 1];
      match last
      case Success => []
      case Failure(_) => AlertsSince(init)
      case Alert(at) => AlertsSince(init) + [at]
  }

  /** The failures that are at most a window old. */
  function Recent(times: seq<int>, now: int, window: int): seq<int> {
    if times == [] then []
    else (if now - times[0] <= window then [times[0]] else []) + Recent(times[1..], now, window)
  }

  ghost predicate Ordered(times: seq<int>, clock: int) {
    && (forall i, j :: 0 <= i <= j < |times| ==> times[i] <= times[j])
    && (forall i :: 0 <= i < |times| ==> times[i] <= clock)
  }

  lemma {:induction false} RecentOfFresh(times: seq<int>, now: int, window: int)
    requires forall i :: 0 <= i < |times| ==> now - times[i] <= window
    ensures Recent(times, now, window) == times
  {
    if times != [] {
      RecentOfFresh(times[1..], now, window);
    }
  }

  /** On an ordered list, popping the head while it is too old is the filter. */
  lemma {:induction false} PruneIsFilter(times: seq<int>, now: int, window: int, clock: int)
    requires Ordered(times, clock)
    ensures DropExpired(times, now, window) == Recent(times, now, window)
  {
    if times != [] {
      if now - times[0] > window {
        PruneIsFilter(times[1..], now, window, clock);
      } else {
        RecentOfFresh(times, now, window);
      }
    }
  }

  /** What was popped before is not recent now either. */
  lemma {:induction false} DroppedStayOut(times: seq<int>, k: nat, now: int, window: int)
    requires k <= |times| && forall i :: 0 <= i < k ==> now - times[i] > window
    ensures Recent(times, now, window) == Recent(times[k..], now, window)
    decreases k
  {
    if k > 0 {
      DroppedStayOut(times[1..], k - 1, now, window);
      assert times[1..][k - 1..] == times[k..];
    }
  }

  lemma {:induction false} DropIsSuffix(q: seq<int>, now: int, window: int) returns (k: nat)
    ensures k <= |q| && DropExpired(q, now, window) == q[k..]
    ensures forall i :: 0 <= i < k ==> now - q[i] > window
    ensures k < |q| ==> now - q[k] <= window
  {
    if q != [] && now - q[0] > window {
      k := DropIsSuffix(q[1..], now, window);
      k := k + 1;
      assert forall i :: 1 <= i < k ==> q[1..][i - 1] == q[i];
    } else {
      k := 0;
    }
  }

  // ---- The invariant of a run ----

  /** The deque is what is left of the failures since the last success. */
  ghost predicate Tracks(l: Limits, c: Client, clock: int) {
    Ordered(FailuresSince(c.record), clock) && LeftOf(FailuresSince(c.record), c.queue, l.window, clock)
  }

  /** q is f without a head of expired times. */
  ghost predicate LeftOf(f: seq<int>, q: seq<int>, window: int, clock: int) {
    exists k :: 0 <= k <= |f| && q == f[k..] && ExpiredBefore(f, k, window, clock)
  }

  ghost predicate ExpiredBefore(f: seq<int>, k: int, window: int, clock: int) {
    forall i :: 0 <= i < k <= |f| ==> clock - f[i] > window
  }

  /** Alerts since the last success are at least a window apart. */
  ghost predicate AlertsSpaced(l: Limits, c: Client, clock: int) {
    var a := AlertsSince(c.record);
    && (c.alertedAt == if a == [] then None else Some(a[|a| - 1]))
    && (forall i :: 0 <= i < |a| ==> 0 < a[i] <= clock)
    && (forall i, j :: 0 <= i < j < |a| ==> a[j] - a[i] >= l.window)
  }

  datatype Action = Query(at: int) | Fail(at: int) | Succeed

  function Act(l: Limits, c: Client, x: Action): Client {
    match x
    case Query(at) => AfterQuery(l, c, at)
    case Fail(at) => AfterFailure(l, c, at)
    case Succeed => AfterSuccess(c)
  }

  function ActAll(l: Limits, c: Client, xs: seq<Action>): Client {
    if xs == [] then c else Act(l, ActAll(l, c, xs[..|xs| - 1]), xs[|xs| - 1])
  }

  function ClockOf(x: Action, clock: int): int {
    if x.Succeed? then clock else x.at
  }

  function ClockAll(clock: int, xs: seq<Action>): int {
    if xs == [] then clock else ClockOf(xs[|xs| - 1], ClockAll(clock, xs[..|xs| - 1]))
  }

  /** The monotonic clock starts positive and does not run backwards. */
  ghost predicate Monotonic(clock: int, xs: seq<Action>) {
    if xs == [] then clock > 0
    else
      var init := xs[..|xs| - 1];
      Monotonic(clock, init) && ClockAll(clock, init) <= ClockAll(clock, xs)
  }

  lemma FailuresSinceAppend(record: seq<Entry>, e: Entry)
    ensures FailuresSince(record + [e]) ==
      if e.Success? then [] else FailuresSince(record) + if e.Failure? then [e.at] else []
    ensures AlertsSince(record + [e]) ==
      if e.Success? then [] else AlertsSince(record) + if e.Alert? then [e.at] else []
  {
    assert (record + [e])[..|record|] == record;
  }

  /** What a recorded failure adds, and when it adds an alert. */
  lemma FailureRecorded(l: Limits, c: Client, now: int)
    ensures var c' := AfterFailure(l, c, now);
      && FailuresSince(c'.record) == FailuresSince(c.record) + [now]
      && (l.Enabled() ==> c'.queue == DropExpired(c.queue, now, l.window) + [now])
      && (if c'.alertedAt == c.alertedAt && AlertsSince(c'.record) == AlertsSince(c.record) then true
          else
            && AlertsSince(c'.record) == AlertsSince(c.record) + [now]
            && c'.alertedAt == Some(now) && !RecentlyAlerted(l, c.alertedAt, now))
  {
    FailuresSinceAppend(c.record, Failure(now));
    FailuresSinceAppend(c.record + [Failure(now)], Alert(now));
    assert c.record + [Failure(now)] + [Alert(now)] == c.record + [Failure(now), Alert(now)];
    hide FailuresSince, AlertsSince, DropExpired;
  }

  lemma PruneLeaves(f: seq<int>, q: seq<int>, window: int, clock: int, now: int)
    requires LeftOf(f, q, window, clock) && clock <= now
    ensures LeftOf(f, DropExpired(q, now, window), window, now)
  {
    var k :| 0 <= k <= |f| && q == f[k..] && ExpiredBefore(f, k, window, clock);
    hide DropExpired;
    var m := DropIsSuffix(q, now, window);
    assert q[m..] == f[k + m..];
    forall i | 0 <= i < k + m
      ensures now - f[i] > window
    {
      if i >= k {
        assert q[i - k] == f[i] && now - q[i - k] > window;
      }
    }
    assert ExpiredBefore(f, k + m, window, now);
  }

  lemma LeftLater(f: seq<int>, q: seq<int>, window: int, clock: int, now: int)
    requires LeftOf(f, q, window, clock) && clock <= now
    ensures LeftOf(f, q, window, now)
  {
    var k :| 0 <= k <= |f| && q == f[k..] && ExpiredBefore(f, k, window, clock);
    assert ExpiredBefore(f, k, window, now);
  }

  lemma AppendLeft(f: seq<int>, q: seq<int>, window: int, now: int)
    requires LeftOf(f, q, window, now)
    ensures LeftOf(f + [now], q + [now], window, now)
  {
    var k :| 0 <= k <= |f| && q == f[k..] && ExpiredBefore(f, k, window, now);
    assert (f + [now])[k..] == q + [now];
    assert ExpiredBefore(f + [now], k, window, now);
  }

  lemma NothingLeft(window: int, clock: int)
    ensures LeftOf([], [], window, clock)
  {
    var none: seq<int> := [];
    assert none == none[0..] && ExpiredBefore(none, 0, window, clock);
  }

  lemma QueryTracks(l: Limits, c: Client, clock: int, now: int)
    requires Tracks(l, c, clock) && clock <= now
    ensures Tracks(l, AfterQuery(l, c, now), now)
  {
    hide FailuresSince, LeftOf, DropExpired;
    PruneLeaves(FailuresSince(c.record), c.queue, l.window, clock, now);
    LeftLater(FailuresSince(c.record), c.queue, l.window, clock, now);
  }

  lemma FailureTracks(l: Limits, c: Client, clock: int, now: int)
    requires l.Enabled() && Tracks(l, c, clock) && clock <= now
    ensures Tracks(l, AfterFailure(l, c, now), now)
  {
    hide FailuresSince, DropExpired, LeftOf, AfterFailure;
    QueryTracks(l, c, clock, now);
    FailureRecorded(l, c, now);
    AppendLeft(FailuresSince(c.record), AfterQuery(l, c, now).queue, l.window, now);
    OrderedAppend(FailuresSince(c.record), clock, now);
  }

  lemma OrderedAppend(f: seq<int>, clock: int, now: int)
    requires Ordered(f, clock) && clock <= now
    ensures Ordered(f + [now], now)
  {
  }

  lemma FailureSpacesAlerts(l: Limits, c: Client, clock: int, now: int)
    requires l.Enabled() && AlertsSpaced(l, c, clock) && clock <= now && 0 < now
    ensures AlertsSpaced(l, AfterFailure(l, c, now), now)
  {
    hide AlertsSince, FailuresSince, AfterFailure;
    FailureRecorded(l, c, now);
    var a, a' := AlertsSince(c.record), AlertsSince(AfterFailure(l, c, now).record);
    if a' == a + [now] && a != [] {
      forall i | 0 <= i < |a|
        ensures now - a[i] >= l.window
      {
        assert i < |a| - 1 ==> a[|a| - 1] - a[i] >= l.window;
      }
      var last := |a| - 1;
      assert c.alertedAt == Some(a[last]) && 0 < a[last];
      assert RecentlyAlerted(l, c.alertedAt, now) <==> now - a[last] < l.window;
    }
  }

  /** Every run keeps the deque in step with the record and the alerts apart. */
  lemma {:induction false} RunTracks(l: Limits, clock: int, xs: seq<Action>)
    requires l.Enabled() && Monotonic(clock, xs)
    ensures var c, now := ActAll(l, NEW_CLIENT, xs), ClockAll(clock, xs);
      Tracks(l, c, now) && AlertsSpaced(l, c, now) && now > 0
  {
    if xs == [] {
      NothingLeft(l.window, clock);
    } else {
      var init, x := xs[..|xs| - 1], xs[|xs| - 1];
      RunTracks(l, clock, init);
      var c, now := ActAll(l, NEW_CLIENT, init), ClockAll(clock, init);
      match x {
        case Query(at) => QueryTracks(l, c, now, at);
        case Fail(at) =>
          FailureTracks(l, c, now, at);
          FailureSpacesAlerts(l, c, now, at);
        case Succeed =>
          FailuresSinceAppend(c.record, Success);
          NothingLeft(l.window, now);
      }
    }
  }

  /** A client is turned away exactly when the window holds enough failures since its last success. */
  lemma BlockedIffWindowFull(l: Limits, clock: int, xs: seq<Action>, now: int)
    requires l.maxFailures > 0 && l.window > 0 && Monotonic(clock, xs) && ClockAll(clock, xs) <= now
    ensures var c := ActAll(l, NEW_CLIENT, xs);
      && DropExpired(c.queue, now, l.window) == Recent(FailuresSince(c.record), now, l.window)
      && (Blocked(l, c, now) <==> |Recent(FailuresSince(c.record), now, l.window)| >= l.maxFailures)
  {
    RunTracks(l, clock, xs);
    var c, t := ActAll(l, NEW_CLIENT, xs), ClockAll(clock, xs);
    var f := FailuresSince(c.record);
    hide ActAll, FailuresSince, AlertsSpaced;
    LeftFilters(f, c.queue, l.window, t, now);
  }

  lemma LeftFilters(f: seq<int>, q: seq<int>, window: int, clock: int, now: int)
    requires Ordered(f, clock) && LeftOf(f, q, window, clock) && clock <= now
    ensures DropExpired(q, now, window) == Recent(f, now, window)
  {
    hide DropExpired, Recent;
    var k :| 0 <= k <= |f| && q == f[k..] && ExpiredBefore(f, k, window, clock);
    DroppedStayOut(f, k, now, window);
    PruneIsFilter(q, now, window, clock);
  }

  // ---- Exactly when an alert goes out ----

  lemma {:induction false} RecentConcat(a: seq<int>, b: seq<int>, now: int, window: int)
    ensures Recent(a + b, now, window) == Recent(a, now, window) + Recent(b, now, window)
  {
    hide Recent;
    RecentHead(a, now, window);
    RecentHead(a + b, now, window);
    if a == [] {
      assert a + b == b;
    } else {
      RecentConcat(a[1..], b, now, window);
      assert (a + b)[1..] == a[1..] + b;
    }
  }

  lemma RecentHead(times: seq<int>, now: int, window: int)
    ensures Recent(times, now, window) ==
      if times == [] then []
      else (if now - times[0] <= window then [times[0]] else []) + Recent(times[1..], now, window)
  {
  }

  lemma RecentAppend(times: seq<int>, now: int, window: int)
    requires 0 <= window
    ensures Recent(times + [now], now, window) == Recent(times, now, window) + [now]
  {
    RecentConcat(times, [now], now, window);
    assert [now][1..] == [] && Recent([], now, window) == [];
  }

  predicate AllOld(times: seq<int>, now: int, window: int) {
    forall i :: 0 <= i < |times| ==> now - times[i] >= window
  }

  /** A failure now would fill the window, and no alert since the last success is still within it. */
  predicate AlertDue(l: Limits, record: seq<Entry>, now: int) {
    && |Recent(FailuresSince(record) + [now], now, l.window)| >= l.maxFailures
    && AllOld(AlertsSince(record), now, l.window)
  }

  lemma LastAlertDecides(l: Limits, c: Client, clock: int, now: int)
    requires l.Enabled() && AlertsSpaced(l, c, clock)
    ensures !RecentlyAlerted(l, c.alertedAt, now) <==> AllOld(AlertsSince(c.record), now, l.window)
  {
    hide AlertsSince;
    var a := AlertsSince(c.record);
    if a != [] {
      forall i | 0 <= i < |a|
        ensures a[i] <= a[|a| - 1]
      {
        assert i < |a| - 1 ==> a[|a| - 1] - a[i] >= l.window;
      }
      var last := |a| - 1;
      assert c.alertedAt == Some(a[last]) && 0 < a[last];
      assert RecentlyAlerted(l, c.alertedAt, now) <==> now - a[last] < l.window;
    }
  }

  lemma QueueIsRecent(l: Limits, c: Client, clock: int, now: int)
    requires l.Enabled() && Tracks(l, c, clock) && clock <= now
    ensures DropExpired(c.queue, now, l.window) + [now] == Recent(FailuresSince(c.record) + [now], now, l.window)
  {
    hide FailuresSince, Recent, DropExpired;
    LeftFilters(FailuresSince(c.record), c.queue, l.window, clock, now);
    RecentAppend(FailuresSince(c.record), now, l.window);
  }

  lemma FailureAlertsIff(l: Limits, c: Client, clock: int, now: int)
    requires l.Enabled() && Tracks(l, c, clock) && AlertsSpaced(l, c, clock) && clock <= now
    ensures var c' := AfterFailure(l, c, now);
      && c'.record == c.record + [Failure(now)] + (if AlertDue(l, c.record, now) then [Alert(now)] else [])
      && c'.alertedAt == if AlertDue(l, c.record, now) then Some(now) else c.alertedAt
  {
    hide FailuresSince, AlertsSince, Recent, DropExpired, Tracks, AlertsSpaced, RecentlyAlerted, AllOld;
    QueueIsRecent(l, c, clock, now);
    LastAlertDecides(l, c, clock, now);
    var q := DropExpired(c.queue, now, l.window) + [now];
    assert AlertDue(l, c.record, now) <==> !(|q| < l.maxFailures || RecentlyAlerted(l, c.alertedAt, now));
    assert c.record + [Failure(now)] + [] == c.record + [Failure(now)];
    assert c.record + [Failure(now)] + [Alert(now)] == c.record + [Failure(now), Alert(now)];
  }

  /** Over every run: a recorded failure raises the alert exactly if one is due. */
  lemma AlertsExactly(l: Limits, clock: int, xs: seq<Action>, now: int)
    requires l.maxFailures > 0 && l.window > 0 && Monotonic(clock, xs) && ClockAll(clock, xs) <= now
    ensures var c := ActAll(l, NEW_CLIENT, xs);
      var c' := AfterFailure(l, c, now);
      && c'.record == c.record + [Failure(now)] + (if AlertDue(l, c.record, now) then [Alert(now)] else [])
      && c'.alertedAt == if AlertDue(l, c.record, now) then Some(now) else c.alertedAt
  {
    hide ActAll, Tracks, AlertsSpaced, AfterFailure, AlertDue;
    RunTracks(l, clock, xs);
    FailureAlertsIff(l, ActAll(l, NEW_CLIENT, xs), ClockAll(clock, xs), now);
  }

  /** Without a limit or a window the guard never turns anybody away and never alerts. */
  lemma {:induction false} DisabledNeverActs(l: Limits, xs: seq<Action>, now: int)
    requires l.maxFailures <= 0 || l.window <= 0
    ensures var c := ActAll(l, NEW_CLIENT, xs);
      !Blocked(l, c, now) && c.alertedAt.None? && forall i :: 0 <= i < |c.record| ==> !c.record[i].Alert?
  {
    if xs != [] {
      DisabledNeverActs(l, xs[..|xs| - 1], now);
    }
  }

  // ---- Sequential logins ----

  /** A login request: the check at `asked`, the verdict on the password at `decided`. */
  datatype Login = Login(asked: int, ok: bool, decided: int)

  function AfterLogin(l: Limits, c: Client, r: Login): Client {
    var c' := AfterQuery(l, c, r.asked);
    if Blocked(l, c, r.asked) then c'
    else if r.ok then AfterSuccess(c')
    else AfterFailure(l, c', r.decided)
  }

  function AfterLogins(l: Limits, c: Client, rs: seq<Login>): Client {
    if rs == [] then c else AfterLogin(l, AfterLogins(l, c, rs[..|rs| - 1]), rs[|rs| - 1])
  }

  /** One request after the other. */
  ghost predicate Sequential(clock: int, rs: seq<Login>) {
    && (forall i :: 0 <= i < |rs| ==> clock <= rs[i].asked <= rs[i].decided)
    && (forall i, j :: 0 <= i < j < |rs| ==> rs[i].decided <= rs[j].asked)
  }

  /** No window holds more than maxFailures of these times. */
  ghost predicate WindowsBounded(l: Limits, f: seq<int>) {
    forall i, j :: 0 <= i <= j < |f| && f[j] - f[i] <= l.window ==> j - i + 1 <= l.maxFailures
  }

  lemma AdmittedFailureBounded(l: Limits, c: Client, clock: int, r: Login)
    requires l.Enabled() && Tracks(l, c, clock) && clock <= r.asked <= r.decided
    requires WindowsBounded(l, FailuresSince(c.record)) && !Blocked(l, c, r.asked)
    ensures WindowsBounded(l, FailuresSince(c.record) + [r.decided])
  {
    QueryTracks(l, c, clock, r.asked);
    var f, q := FailuresSince(c.record), AfterQuery(l, c, r.asked).queue;
    var k :| 0 <= k <= |f| && q == f[k..] && ExpiredBefore(f, k, l.window, r.asked);
    var f' := f + [r.decided];
    forall i, j | 0 <= i <= j < |f'| && f'[j] - f'[i] <= l.window
      ensures j - i + 1 <= l.maxFailures
    {
      if j < |f| {
        assert f[j] == f'[j] && f[i] == f'[i];
      } else if i < |f| {
        assert i >= k;
      }
    }
  }

  /** Handled one after the other, logins never put more failures than the limit in a window. */
  lemma {:induction false} SequentialLoginsBounded(l: Limits, clock: int, rs: seq<Login>, end: int)
    requires l.maxFailures > 0 && l.window > 0 && clock > 0 && Sequential(clock, rs)
    requires clock <= end && forall i :: 0 <= i < |rs| ==> rs[i].decided <= end
    ensures Tracks(l, AfterLogins(l, NEW_CLIENT, rs), end)
    ensures WindowsBounded(l, FailuresSince(AfterLogins(l, NEW_CLIENT, rs).record))
  {
    if rs == [] {
      NothingLeft(l.window, end);
    } else {
      var init, r := rs[..|rs| - 1], rs[|rs| - 1];
      SequentialLoginsBounded(l, clock, init, r.asked);
      var c := AfterLogins(l, NEW_CLIENT, init);
      var c' := AfterQuery(l, c, r.asked);
      QueryTracks(l, c, r.asked, r.asked);
      if Blocked(l, c, r.asked) {
        TracksLater(l, c', r.asked, end);
      } else if r.ok {
        FailuresSinceAppend(c'.record, Success);
        NothingLeft(l.window, end);
      } else {
        AdmittedFailureBounded(l, c, r.asked, r);
        FailureTracks(l, c', r.asked, r.decided);
        FailureRecorded(l, c', r.decided);
        TracksLater(l, AfterFailure(l, c', r.decided), r.decided, end);
      }
    }
  }

  lemma TracksLater(l: Limits, c: Client, clock: int, now: int)
    requires Tracks(l, c, clock) && clock <= now
    ensures Tracks(l, c, now)
  {
    LeftLater(FailuresSince(c.record), c.queue, l.window, clock, now);
  }

  // ---- Overlapping logins ----

  /** Recording a failure keeps every window within the limit exactly if the client was not blocked at that moment. */
  lemma FailureBoundedIff(l: Limits, c: Client, clock: int, now: int)
    requires l.Enabled() && Tracks(l, c, clock) && clock <= now
    requires WindowsBounded(l, FailuresSince(c.record))
    ensures WindowsBounded(l, FailuresSince(c.record) + [now]) <==> !Blocked(l, c, now)
  {
    if !Blocked(l, c, now) {
      AdmittedFailureBounded(l, c, clock, Login(now, false, now));
    } else {
      hide WindowsBounded, Tracks;
      BlockedFailureExceeds(l, c, clock, now);
    }
  }

  lemma BlockedFailureExceeds(l: Limits, c: Client, clock: int, now: int)
    requires l.Enabled() && Tracks(l, c, clock) && clock <= now && Blocked(l, c, now)
    ensures !WindowsBounded(l, FailuresSince(c.record) + [now])
  {
    hide DropExpired, FailuresSince, WindowsBounded, LeftOf, Ordered;
    var f, q := FailuresSince(c.record), DropExpired(c.queue, now, l.window);
    PruneLeaves(f, c.queue, l.window, clock, now);
    PrunedHead(c.queue, now, l.window);
    FullQueueExceeds(l, f, q, now);
  }

  lemma PrunedHead(q: seq<int>, now: int, window: int)
    ensures var p := DropExpired(q, now, window); p != [] ==> now - p[0] <= window
  {
    hide DropExpired;
    var k := DropIsSuffix(q, now, window);
  }

  lemma FullQueueExceeds(l: Limits, f: seq<int>, q: seq<int>, now: int)
    requires LeftOf(f, q, l.window, now) && |q| >= l.maxFailures && q != [] && now - q[0] <= l.window
    ensures !WindowsBounded(l, f + [now])
  {
    hide WindowsBounded, ExpiredBefore;
    var k :| 0 <= k <= |f| && q == f[k..] && ExpiredBefore(f, k, l.window, now);
    FullWindowExceeds(l, f, k, now);
  }

  lemma FullWindowExceeds(l: Limits, f: seq<int>, k: nat, now: int)
    requires k < |f| && now - f[k] <= l.window && |f| - k >= l.maxFailures
    ensures !WindowsBounded(l, f + [now])
  {
    var f' := f + [now];
    assert f'[|f|] - f'[k] <= l.window;
  }

  ghost predicate BoundedThroughout(l: Limits, xs: seq<Action>) {
    && WindowsBounded(l, FailuresSince(ActAll(l, NEW_CLIENT, xs).record))
    && (xs != [] ==> BoundedThroughout(l, xs[..|xs| - 1]))
  }

  /** No failure of the run was recorded while its client would have been turned away. */
  predicate NoFailureWhileBlocked(l: Limits, xs: seq<Action>) {
    xs != [] ==>
      var init, x := xs[..|xs| - 1], xs[|xs| - 1];
      NoFailureWhileBlocked(l, init) && !(x.Fail? && Blocked(l, ActAll(l, NEW_CLIENT, init), x.at))
  }

  /** However checks and verdicts of different requests interleave: that is exactly when no window exceeds the limit. */
  lemma {:induction false} BoundedThroughoutIff(l: Limits, clock: int, xs: seq<Action>)
    requires l.maxFailures > 0 && l.window > 0 && Monotonic(clock, xs)
    ensures BoundedThroughout(l, xs) <==> NoFailureWhileBlocked(l, xs)
  {
    if xs != [] {
      hide WindowsBounded, FailuresSince, Blocked, Tracks, AlertsSpaced, Act;
      var init, x := xs[..|xs| - 1], xs[|xs| - 1];
      BoundedThroughoutIff(l, clock, init);
      RunTracks(l, clock, init);
      if BoundedThroughout(l, init) {
        ActBoundedIff(l, ActAll(l, NEW_CLIENT, init), ClockAll(clock, init), x);
      }
    }
  }

  lemma ActBoundedIff(l: Limits, c: Client, clock: int, x: Action)
    requires l.Enabled() && Tracks(l, c, clock) && clock <= ClockOf(x, clock)
    requires WindowsBounded(l, FailuresSince(c.record))
    ensures WindowsBounded(l, FailuresSince(Act(l, c, x).record)) <==> !(x.Fail? && Blocked(l, c, x.at))
  {
    hide FailuresSince, Tracks, AfterFailure, Blocked;
    match x {
      case Query(_) =>
      case Fail(at) =>
        FailureRecorded(l, c, at);
        FailureBoundedIff(l, c, clock, at);
      case Succeed =>
        FailuresSinceAppend(c.record, Success);
        assert WindowsBounded(l, []);
    }
  }

  /** That many requests passed their check before the first verdict, then that many failures were recorded. */
  function Overlap(passed: nat, failed: nat, t: int): seq<Action>
    decreases failed, passed
  {
    if failed > 0 then Overlap(passed, failed - 1, t) + [Fail(t)]
    else if passed > 0 then Overlap(passed - 1, 0, t) + [Query(t)]
    else []
  }

  lemma LastAct(l: Limits, xs: seq<Action>, x: Action)
    ensures ActAll(l, NEW_CLIENT, xs + [x]) == Act(l, ActAll(l, NEW_CLIENT, xs), x)
  {
    assert (xs + [x])[..|xs|] == xs;
  }

  lemma {:induction false} ChecksChangeNothing(l: Limits, passed: nat, t: int)
    ensures ActAll(l, NEW_CLIENT, Overlap(passed, 0, t)) == NEW_CLIENT
  {
    if passed > 0 {
      ChecksChangeNothing(l, passed - 1, t);
      LastAct(l, Overlap(passed - 1, 0, t), Query(t));
    }
  }

  ghost predicate AllAt(times: seq<int>, n: nat, t: int) {
    |times| == n && forall i :: 0 <= i < n ==> times[i] == t
  }

  lemma AllAtAppend(times: seq<int>, n: nat, t: int)
    requires AllAt(times, n, t)
    ensures AllAt(times + [t], n + 1, t)
  {
  }

  lemma {:induction false} OverlapRecords(l: Limits, passed: nat, failed: nat, t: int)
    ensures AllAt(FailuresSince(ActAll(l, NEW_CLIENT, Overlap(passed, failed, t)).record), failed, t)
    decreases failed
  {
    if failed == 0 {
      hide ActAll;
      ChecksChangeNothing(l, passed, t);
    } else {
      var c := ActAll(l, NEW_CLIENT, Overlap(passed, failed - 1, t));
      OverlapRecords(l, passed, failed - 1, t);
      LastAct(l, Overlap(passed, failed - 1, t), Fail(t));
      hide FailuresSince, AfterFailure, ActAll, AllAt;
      FailureRecorded(l, c, t);
      AllAtAppend(FailuresSince(c.record), failed - 1, t);
    }
  }

  /** For every limit, one request more than the limit can pass the check at once and exceed it. */
  lemma OverlappingLoginsExceed(l: Limits, t: int)
    requires l.maxFailures > 0 && l.window > 0
    ensures var n := l.maxFailures + 1;
      && (forall k :: 0 <= k < n ==> !Blocked(l, ActAll(l, NEW_CLIENT, Overlap(k, 0, t)), t))
      && !WindowsBounded(l, FailuresSince(ActAll(l, NEW_CLIENT, Overlap(n, n, t)).record))
  {
    var n := l.maxFailures + 1;
    forall k | 0 <= k < n
      ensures !Blocked(l, ActAll(l, NEW_CLIENT, Overlap(k, 0, t)), t)
    {
      ChecksChangeNothing(l, k, t);
    }
    OverlapRecords(l, n, n, t);
    var f := FailuresSince(ActAll(l, NEW_CLIENT, Overlap(n, n, t)).record);
    assert f[n - 1] - f[0] <= l.window;
  }

  // ---- The running guard ----

  datatype LoginReply = TooManyRequests | Unauthorized | Token

  class Guard {
    const limits: Limits
    var failures: map<string, seq<int>>
    var alertedAt: map<string, int>
    ghost var records: map<string, seq<Entry>>

    constructor (limits: Limits)
      ensures this.limits == limits && Valid()
      ensures forall ip :: ClientOf(ip) == NEW_CLIENT
    {
      this.limits := limits;
      failures, alertedAt, records := map[], map[], map[];
    }

    /** No stored deque is empty. */
    ghost predicate Valid()
      reads this
    {
      forall ip :: ip in failures ==> failures[ip] != []
    }

    ghost function ClientOf(ip: string): Client
      reads this
    {
      Client(if ip in failures then failures[ip] else [],
             if ip in alertedAt then Some(alertedAt[ip]) else None,
             if ip in records then records[ip] else [])
    }

    /** Pops expired failures from the head of the deque; an emptied deque is removed. */
    method Prune(ip: string, now: int) returns (q: seq<int>)
      requires Valid()
      modifies this`failures
      ensures Valid()
      ensures q == DropExpired(old(ClientOf(ip)).queue, now, limits.window)
      ensures ClientOf(ip) == old(ClientOf(ip)).(queue := q)
      ensures forall other :: other != ip ==> ClientOf(other) == old(ClientOf(other))
    {
      q := if ip in failures then failures[ip] else [];
      while q != [] && now - q[0] > limits.window
        invariant DropExpired(q, now, limits.window) == DropExpired(old(ClientOf(ip)).queue, now, limits.window)
        decreases |q|
      {
        q := q[1..];
      }
      failures := if q == [] then failures - {ip} else failures[ip := q];
    }

    method IsBlocked(ip: string, now: int) returns (blocked: bool)
      requires Valid()
      modifies this`failures
      ensures Valid() && blocked == Blocked(limits, old(ClientOf(ip)), now)
      ensures ClientOf(ip) == AfterQuery(limits, old(ClientOf(ip)), now)
      ensures forall other :: other != ip ==> ClientOf(other) == old(ClientOf(other))
    {
      if !limits.Enabled() {
        return false;
      }
      var q := Prune(ip, now);
      blocked := |q| >= limits.maxFailures;
    }

    method RegisterFailure(ip: string, now: int)
      requires Valid()
      modifies this
      ensures Valid() && ClientOf(ip) == AfterFailure(limits, old(ClientOf(ip)), now)
      ensures forall other :: other != ip ==> ClientOf(other) == old(ClientOf(other))
    {
      ghost var c := ClientOf(ip);
      if !limits.Enabled() {
        records := records[ip := c.record + [Failure(now)]];
        return;
      }
      var q := Prune(ip, now);
      records := records[ip := c.record + [Failure(now)]];
      q := q + [now];
      failures := failures[ip := q];
      if |q| < limits.maxFailures {
        return;
      }
      if ip in alertedAt && alertedAt[ip] != 0 && now - alertedAt[ip] < limits.window {
        return;
      }
      alertedAt := alertedAt[ip := now];
      records := records[ip := c.record + [Failure(now), Alert(now)]];
    }

    method RegisterSuccess(ip: string)
      requires Valid()
      modifies this
      ensures Valid() && ClientOf(ip) == AfterSuccess(old(ClientOf(ip)))
      ensures forall other :: other != ip ==> ClientOf(other) == old(ClientOf(other))
    {
      ghost var c := ClientOf(ip);
      failures, alertedAt := failures - {ip}, alertedAt - {ip};
      records := records[ip := c.record + [Success]];
    }

    /** The login route around the guard. */
    method HandleLogin(ip: string, r: Login) returns (reply: LoginReply)
      requires Valid()
      modifies this
      ensures Valid() && ClientOf(ip) == AfterLogin(limits, old(ClientOf(ip)), r)
      ensures reply == TooManyRequests <==> Blocked(limits, old(ClientOf(ip)), r.asked)
      ensures reply == Token <==> !Blocked(limits, old(ClientOf(ip)), r.asked) && r.ok
      ensures forall other :: other != ip ==> ClientOf(other) == old(ClientOf(other))
    {
      var blocked := IsBlocked(ip, r.asked);
      if blocked {
        return TooManyRequests;
      }
      if !r.ok {
        RegisterFailure(ip, r.decided);
        return Unauthorized;
      }
      RegisterSuccess(ip);
      return Token;
    }
  }
}
