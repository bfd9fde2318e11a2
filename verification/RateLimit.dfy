/**
 Rate limiting of alerts per source host: a table of last alert times that is
 pruned before each batch, against a table that remembers every host forever.
 */
module RateLimit {
  import opened Basics
  import Ingest

  const ALERTED_MAX := 4096

  type Table = map<string, int>

  datatype Sent = Sent(host: string, at: int)

  /** The code tests the stored time for truth, so a stored 0 counts as never. */
  predicate Limited(t: Table, host: string, now: int, cooldown: int) {
    host in t && t[host] != 0 && now - t[host] < cooldown
  }

  /** Rows that are severe enough, in order, against a table: the new table and the alerts sent. */
  function AlertRows(t: Table, hosts: seq<string>, now: int, cooldown: int): (Table, seq<Sent>) {
    if hosts == [] then (t, [])
    else
      var (t', sent) := AlertRows(t, hosts[..|hosts| - 1], now, cooldown);
      var host := hosts[|hosts| - 1];
      if Limited(t', host, now, cooldown) then (t', sent) else (t'[host := now], sent + [Sent(host, now)])
  }

  /** The entries still inside their cooldown. */
  function Live(t: Table, now: int, cooldown: int): Table {
    map host | host in t && now - t[host] < cooldown :: t[host]
  }

  /** What pruning may leave: the live entries, or the newest 4096 of them. */
  ghost predicate PrunedTo(t: Table, now: int, cooldown: int, t': Table) {
    NewestOf(Live(t, now, cooldown), t')
  }

  ghost predicate NewestOf(live: Table, t': Table) {
    && t'.Keys <= live.Keys && (forall host :: host in t' ==> t'[host] == live[host])
    && |t'| == Min(|live|, ALERTED_MAX)
    && (forall gone, kept :: gone in live && gone !in t' && kept in t' ==> live[gone] <= t'[kept])
  }

  lemma NoEviction(t: Table, now: int, cooldown: int, t': Table)
    requires PrunedTo(t, now, cooldown, t') && |Live(t, now, cooldown)| <= 4096
    ensures t' == Live(t, now, cooldown)
  {
    var live := Live(t, now, cooldown);
    assert |t'| == |t'.Keys| && |live| == |live.Keys|;
    if t'.Keys < live.Keys {
      SmallerKeys(t'.Keys, live.Keys);
      assert false;
    }
    assert t'.Keys == live.Keys;
  }

  lemma SmallerKeys(a: set<string>, b: set<string>)
    requires a < b
    ensures |a| < |b|
  {
    var x :| x in b && x !in a;
    SubsetCardinality(a, b - {x});
    assert |b - {x}| == |b| - 1;
  }

  // ---- Pruning is transparent ----

  /** Two tables that make the same decisions from now on. */
  ghost predicate SameLive(a: Table, b: Table, now: int, cooldown: int) {
    Live(a, now, cooldown) == Live(b, now, cooldown)
  }

  lemma SameLiveLater(a: Table, b: Table, now: int, later: int, cooldown: int)
    requires SameLive(a, b, now, cooldown) && now <= later
    ensures SameLive(a, b, later, cooldown)
  {
    forall host | host in Live(a, later, cooldown) || host in Live(b, later, cooldown)
      ensures host in Live(a, later, cooldown) && host in Live(b, later, cooldown) && a[host] == b[host]
    {
      assert host in Live(a, now, cooldown) || host in Live(b, now, cooldown);
      assert host in Live(a, now, cooldown) && host in Live(b, now, cooldown);
      assert Live(a, now, cooldown)[host] == Live(b, now, cooldown)[host];
    }
  }

  lemma SameDecision(a: Table, b: Table, host: string, now: int, cooldown: int)
    requires SameLive(a, b, now, cooldown)
    ensures Limited(a, host, now, cooldown) == Limited(b, host, now, cooldown)
    ensures SameLive(a[host := now], b[host := now], now, cooldown)
  {
    assert host in Live(a, now, cooldown) <==> host in Live(b, now, cooldown);
    assert Limited(a, host, now, cooldown) ==> Live(a, now, cooldown)[host] == a[host];
    assert Limited(b, host, now, cooldown) ==> Live(b, now, cooldown)[host] == b[host];
    SameLiveUpdate(a, host, now, cooldown);
    SameLiveUpdate(b, host, now, cooldown);
  }

  lemma SameLiveUpdate(t: Table, host: string, now: int, cooldown: int)
    ensures Live(t[host := now], now, cooldown) ==
      if 0 < cooldown then Live(t, now, cooldown)[host := now] else Live(t, now, cooldown) - {host}
  {
  }

  /** Two runs of batches: one pruned before each batch, one never. */
  datatype Round = Round(now: int, hosts: seq<string>, pruned: Table)

  /** The table and all alerts after a run of rounds whose prunings ended in the recorded tables. */
  function RunPruned(t: Table, rounds: seq<Round>, cooldown: int): (Table, seq<Sent>) {
    if rounds == [] then (t, [])
    else
      var before, r := RunPruned(t, rounds[..|rounds| - 1], cooldown), rounds[|rounds| - 1];
      var (t', sent) := AlertRows(r.pruned, r.hosts, r.now, cooldown);
      (t', before.1 + sent)
  }

  function RunForever(t: Table, rounds: seq<Round>, cooldown: int): (Table, seq<Sent>) {
    if rounds == [] then (t, [])
    else
      var before, r := RunForever(t, rounds[..|rounds| - 1], cooldown), rounds[|rounds| - 1];
      var (t', sent) := AlertRows(before.0, r.hosts, r.now, cooldown);
      (t', before.1 + sent)
  }

  function LastNow(start: int, rounds: seq<Round>): int {
    if rounds == [] then start else rounds[|rounds| - 1].now
  }

  /** Each round prunes the table the last one left, on a clock that starts positive and never goes back. */
  ghost predicate ProperRounds(start: int, rounds: seq<Round>, cooldown: int) {
    if rounds == [] then start > 0
    else
      var init, r := rounds[..|rounds| - 1], rounds[|rounds| - 1];
      && ProperRounds(start, init, cooldown) && LastNow(start, init) <= r.now
      && PrunedTo(RunPruned(map[], init, cooldown).0, r.now, cooldown, r.pruned)
  }

  /** The cap never had to evict a live entry. */
  ghost predicate NeverFull(rounds: seq<Round>, cooldown: int) {
    forall k :: 0 <= k < |rounds| ==>
      |Live(RunPruned(map[], rounds[..k], cooldown).0, rounds[k].now, cooldown)| <= 4096
  }

  lemma {:induction false} SameAlerts(a: Table, b: Table, hosts: seq<string>, now: int, cooldown: int)
    requires SameLive(a, b, now, cooldown)
    ensures var x, y := AlertRows(a, hosts, now, cooldown), AlertRows(b, hosts, now, cooldown);
      x.1 == y.1 && SameLive(x.0, y.0, now, cooldown)
  {
    hide SameLive, Limited;
    if hosts != [] {
      var init, host := hosts[..|hosts| - 1], hosts[|hosts| - 1];
      SameAlerts(a, b, init, now, cooldown);
      SameDecision(AlertRows(a, init, now, cooldown).0, AlertRows(b, init, now, cooldown).0, host, now, cooldown);
    }
  }

  lemma PruneKeepsLive(t: Table, now: int, cooldown: int)
    ensures SameLive(Live(t, now, cooldown), t, now, cooldown)
  {
  }

  /** While the cap never evicts, forgetting expired hosts changes no decision. */
  lemma {:induction false} PruningIsTransparent(start: int, rounds: seq<Round>, cooldown: int)
    requires ProperRounds(start, rounds, cooldown) && NeverFull(rounds, cooldown)
    ensures var p, f := RunPruned(map[], rounds, cooldown), RunForever(map[], rounds, cooldown);
      p.1 == f.1 && SameLive(p.0, f.0, LastNow(start, rounds), cooldown)
  {
    if rounds != [] {
      var init, r := rounds[..|rounds| - 1], rounds[|rounds| - 1];
      NeverFullBefore(rounds, cooldown);
      PruningIsTransparent(start, init, cooldown);
      var p, f := RunPruned(map[], init, cooldown).0, RunForever(map[], init, cooldown).0;
      NoEviction(p, r.now, cooldown, r.pruned);
      hide SameLive, Live, PrunedTo, NeverFull, AlertRows;
      SameLiveLater(p, f, LastNow(start, init), r.now, cooldown);
      PruneKeepsLive(p, r.now, cooldown);
      SameLiveTrans(r.pruned, p, f, r.now, cooldown);
      SameAlerts(r.pruned, f, r.hosts, r.now, cooldown);
    }
  }

  lemma SameLiveTrans(a: Table, b: Table, c: Table, now: int, cooldown: int)
    requires SameLive(a, b, now, cooldown) && SameLive(b, c, now, cooldown)
    ensures SameLive(a, c, now, cooldown)
  {
  }

  lemma NeverFullBefore(rounds: seq<Round>, cooldown: int)
    requires rounds != [] && NeverFull(rounds, cooldown)
    ensures var init := rounds[..|rounds| - 1];
      && NeverFull(init, cooldown)
      && |Live(RunPruned(map[], init, cooldown).0, rounds[|rounds| - 1].now, cooldown)| <= 4096
  {
    var init := rounds[..|rounds| - 1];
    hide RunPruned, Live;
    forall k | 0 <= k < |init|
      ensures init[..k] == rounds[..k] && init[k] == rounds[k]
    {
    }
  }

  // ---- Alerts are a cooldown apart ----

  ghost predicate SpacedPerHost(sent: seq<Sent>, cooldown: int) {
    forall i, j :: 0 <= i < j < |sent| && sent[i].host == sent[j].host ==> sent[j].at - sent[i].at >= cooldown
  }

  /** The never-pruned table holds each host's last alert. */
  ghost predicate HoldsLast(t: Table, sent: seq<Sent>, now: int) {
    forall i :: 0 <= i < |sent| ==> sent[i].host in t && 0 < sent[i].at <= t[sent[i].host] <= now
  }

  lemma {:induction false} AlertRowsSpaced(t: Table, earlier: seq<Sent>, hosts: seq<string>, now: int, cooldown: int)
    requires 0 < now && HoldsLast(t, earlier, now) && SpacedPerHost(earlier, cooldown)
    ensures var (t', sent) := AlertRows(t, hosts, now, cooldown);
      HoldsLast(t', earlier + sent, now) && SpacedPerHost(earlier + sent, cooldown)
  {
    if hosts == [] {
      assert earlier + [] == earlier;
    } else {
      var init, host := hosts[..|hosts| - 1], hosts[|hosts| - 1];
      AlertRowsSpaced(t, earlier, init, now, cooldown);
      var (t', sent) := AlertRows(t, init, now, cooldown);
      if !Limited(t', host, now, cooldown) {
        AppendSpaced(t', earlier + sent, host, now, cooldown);
        assert earlier + (sent + [Sent(host, now)]) == earlier + sent + [Sent(host, now)];
      }
    }
  }

  lemma AppendSpaced(t: Table, sent: seq<Sent>, host: string, now: int, cooldown: int)
    requires 0 < now && HoldsLast(t, sent, now) && SpacedPerHost(sent, cooldown) && !Limited(t, host, now, cooldown)
    ensures HoldsLast(t[host := now], sent + [Sent(host, now)], now)
    ensures SpacedPerHost(sent + [Sent(host, now)], cooldown)
  {
  }

  lemma {:induction false} ForeverSpaced(start: int, rounds: seq<Round>, cooldown: int)
    requires ProperRounds(start, rounds, cooldown)
    ensures var (t, sent) := RunForever(map[], rounds, cooldown);
      LastNow(start, rounds) > 0 && HoldsLast(t, sent, LastNow(start, rounds)) && SpacedPerHost(sent, cooldown)
  {
    if rounds != [] {
      var init, r := rounds[..|rounds| - 1], rounds[|rounds| - 1];
      ForeverSpaced(start, init, cooldown);
      var (t, sent) := RunForever(map[], init, cooldown);
      hide AlertRows, PrunedTo, SpacedPerHost;
      assert HoldsLast(t, sent, r.now);
      AlertRowsSpaced(t, sent, r.hosts, r.now, cooldown);
    }
  }

  /** One host's alerts are at least a cooldown apart, as long as the cap never evicts. */
  lemma AlertsAreSpaced(start: int, rounds: seq<Round>, cooldown: int)
    requires ProperRounds(start, rounds, cooldown) && NeverFull(rounds, cooldown)
    ensures SpacedPerHost(RunPruned(map[], rounds, cooldown).1, cooldown)
  {
    hide SpacedPerHost;
    PruningIsTransparent(start, rounds, cooldown);
    ForeverSpaced(start, rounds, cooldown);
  }

  // ---- When the cap does evict ----

  /** The table holds, for each of its hosts, the last alert sent. */
  ghost predicate HoldsSent(t: Table, sent: seq<Sent>, now: int) {
    && (forall i :: 0 <= i < |sent| ==> 0 < sent[i].at <= now)
    && (forall host :: host in t ==> Sent(host, t[host]) in sent)
    && (forall i :: 0 <= i < |sent| && sent[i].host in t ==> sent[i].at <= t[sent[i].host])
  }

  /** The host was sent an alert for, less than a cooldown ago. */
  ghost predicate Cooling(sent: seq<Sent>, host: string, now: int, cooldown: int) {
    exists i :: 0 <= i < |sent| && sent[i].host == host && now - sent[i].at < cooldown
  }

  /** The table knows every one of these hosts that is cooling. */
  ghost predicate KnowsCooling(t: Table, sent: seq<Sent>, hosts: seq<string>, now: int, cooldown: int) {
    forall host :: host in hosts && Cooling(sent, host, now, cooldown) ==> host in t
  }

  /** No round has a severe row of a host that is cooling but was evicted. */
  ghost predicate NobodyForgotten(rounds: seq<Round>, cooldown: int) {
    rounds != [] ==>
      var init, r := rounds[..|rounds| - 1], rounds[|rounds| - 1];
      && NobodyForgotten(init, cooldown)
      && KnowsCooling(r.pruned, RunPruned(map[], init, cooldown).1, r.hosts, r.now, cooldown)
  }

  lemma KnownIsSpaced(t: Table, sent: seq<Sent>, host: string, now: int, cooldown: int)
    requires HoldsSent(t, sent, now) && SpacedPerHost(sent, cooldown)
    requires !Limited(t, host, now, cooldown) && (Cooling(sent, host, now, cooldown) ==> host in t)
    ensures SpacedPerHost(sent + [Sent(host, now)], cooldown)
  {
    forall i | 0 <= i < |sent| && sent[i].host == host
      ensures now - sent[i].at >= cooldown
    {
      assert now - sent[i].at < cooldown ==> Cooling(sent, host, now, cooldown);
    }
  }

  lemma AlertHolds(t: Table, sent: seq<Sent>, host: string, now: int)
    requires 0 < now && HoldsSent(t, sent, now)
    ensures HoldsSent(t[host := now], sent + [Sent(host, now)], now)
  {
    var t' := t[host := now];
    forall h | h in t'
      ensures Sent(h, t'[h]) in sent + [Sent(host, now)]
    {
      if h != host {
        assert Sent(h, t[h]) in sent;
      }
    }
  }

  lemma CoolingGrows(sent: seq<Sent>, x: Sent, host: string, now: int, cooldown: int)
    ensures Cooling(sent + [x], host, now, cooldown) ==> Cooling(sent, host, now, cooldown) || x.host == host
    ensures Cooling(sent, host, now, cooldown) ==> Cooling(sent + [x], host, now, cooldown)
  {
    if i :| 0 <= i < |sent| && sent[i].host == host && now - sent[i].at < cooldown {
      assert (sent + [x])[i] == sent[i];
    }
  }

  lemma AlertKnows(t: Table, sent: seq<Sent>, hosts: seq<string>, host: string, now: int, cooldown: int)
    requires KnowsCooling(t, sent, hosts, now, cooldown)
    ensures KnowsCooling(t[host := now], sent + [Sent(host, now)], hosts, now, cooldown)
  {
    hide Cooling;
    forall h | h in hosts && Cooling(sent + [Sent(host, now)], h, now, cooldown)
      ensures h in t[host := now]
    {
      CoolingGrows(sent, Sent(host, now), h, now, cooldown);
    }
  }

  /**
   A batch against a table: what the table holds stays true of the alerts, and with every cooling
   host known they stay apart.
   */
  lemma {:induction false} AlertRowsHold(t: Table, earlier: seq<Sent>, hosts: seq<string>, all: seq<string>,
                                         now: int, cooldown: int)
    requires 0 < now && HoldsSent(t, earlier, now) && hosts <= all
    ensures var (t', sent) := AlertRows(t, hosts, now, cooldown);
      && HoldsSent(t', earlier + sent, now)
      && (SpacedPerHost(earlier, cooldown) && KnowsCooling(t, earlier, all, now, cooldown) ==>
            SpacedPerHost(earlier + sent, cooldown) && KnowsCooling(t', earlier + sent, all, now, cooldown))
  {
    if hosts == [] {
      assert earlier + [] == earlier;
    } else {
      var init, host := hosts[..|hosts| - 1], hosts[|hosts| - 1];
      AlertRowsHold(t, earlier, init, all, now, cooldown);
      var (t', sent) := AlertRows(t, init, now, cooldown);
      assert host == all[|hosts| - 1] && host in all;
      hide HoldsSent, Cooling, SpacedPerHost;
      if !Limited(t', host, now, cooldown) {
        assert earlier + (sent + [Sent(host, now)]) == earlier + sent + [Sent(host, now)];
        AlertHolds(t', earlier + sent, host, now);
        if SpacedPerHost(earlier, cooldown) && KnowsCooling(t, earlier, all, now, cooldown) {
          KnownIsSpaced(t', earlier + sent, host, now, cooldown);
          AlertKnows(t', earlier + sent, all, host, now, cooldown);
        }
      }
    }
  }

  /** A batch alerts for exactly the hosts in it that the table does not limit, and touches no other entry. */
  lemma {:induction false} BatchAlertsIff(t: Table, hosts: seq<string>, now: int, cooldown: int, host: string)
    ensures var (t', sent) := AlertRows(t, hosts, now, cooldown);
      && (Sent(host, now) in sent <==> host in hosts && !Limited(t, host, now, cooldown))
      && (forall i :: 0 <= i < |sent| ==> sent[i].at == now)
      && (host !in hosts || Limited(t, host, now, cooldown) ==>
            (host in t' <==> host in t) && (host in t ==> t'[host] == t[host]))
  {
    if hosts != [] {
      var init, last := hosts[..|hosts| - 1], hosts[|hosts| - 1];
      assert hosts == init + [last];
      BatchAlertsIff(t, init, now, cooldown, host);
    }
  }

  lemma LimitedIffCooling(t: Table, sent: seq<Sent>, host: string, now: int, cooldown: int)
    requires HoldsSent(t, sent, now)
    ensures Limited(t, host, now, cooldown) <==> host in t && Cooling(sent, host, now, cooldown)
  {
    if Limited(t, host, now, cooldown) {
      assert Sent(host, t[host]) in sent;
    }
  }

  /**
   A severe row makes its round send an alert for its host exactly if the host was sent none less
   than a cooldown ago, or was evicted since.
   */
  lemma RoundAlertsIff(start: int, rounds: seq<Round>, cooldown: int, host: string)
    requires ProperRounds(start, rounds, cooldown) && rounds != []
    ensures var r := rounds[|rounds| - 1];
      var before := RunPruned(map[], rounds[..|rounds| - 1], cooldown).1;
      var sent := RunPruned(map[], rounds, cooldown).1;
      && before <= sent && (forall i :: |before| <= i < |sent| ==> sent[i].at == r.now)
      && var told := host in r.hosts && (Cooling(before, host, r.now, cooldown) ==> host !in r.pruned);
      Sent(host, r.now) in sent[|before|..] <==> told
  {
    hide AlertRows, PrunedTo, HoldsSent, Cooling, Limited;
    var init, r := rounds[..|rounds| - 1], rounds[|rounds| - 1];
    var (t, before) := RunPruned(map[], init, cooldown);
    RunHolds(start, init, cooldown);
    PruneHolds(t, before, LastNow(start, init), r.now, cooldown, r.pruned);
    LimitedIffCooling(r.pruned, before, host, r.now, cooldown);
    BatchAlertsIff(r.pruned, r.hosts, r.now, cooldown, host);
    var sent := AlertRows(r.pruned, r.hosts, r.now, cooldown).1;
    assert (before + sent)[|before|..] == sent;
  }

  /** Alerting again while the last alert is cooling breaks the spacing. */
  lemma ForgottenIsNotSpaced(earlier: seq<Sent>, sent: seq<Sent>, host: string, now: int, cooldown: int)
    requires Cooling(earlier, host, now, cooldown) && Sent(host, now) in sent
    ensures !SpacedPerHost(earlier + sent, cooldown)
  {
    var i :| 0 <= i < |earlier| && earlier[i].host == host && now - earlier[i].at < cooldown;
    var j :| 0 <= j < |sent| && sent[j] == Sent(host, now);
    var all := earlier + sent;
    assert all[i] == earlier[i] && all[|earlier| + j] == sent[j];
  }

  lemma EarlierIsSpaced(earlier: seq<Sent>, sent: seq<Sent>, cooldown: int)
    requires SpacedPerHost(earlier + sent, cooldown)
    ensures SpacedPerHost(earlier, cooldown)
  {
    forall i, j | 0 <= i < j < |earlier| && earlier[i].host == earlier[j].host
      ensures earlier[j].at - earlier[i].at >= cooldown
    {
      assert (earlier + sent)[i] == earlier[i] && (earlier + sent)[j] == earlier[j];
    }
  }

  /** One round keeps the alerts apart exactly if the pruned table knows every cooling host of its batch. */
  lemma RoundSpacedIff(t: Table, earlier: seq<Sent>, hosts: seq<string>, now: int, cooldown: int)
    requires 0 < now && HoldsSent(t, earlier, now) && SpacedPerHost(earlier, cooldown)
    ensures SpacedPerHost(earlier + AlertRows(t, hosts, now, cooldown).1, cooldown)
      <==> KnowsCooling(t, earlier, hosts, now, cooldown)
  {
    AlertRowsHold(t, earlier, hosts, hosts, now, cooldown);
    hide HoldsSent, SpacedPerHost, Cooling, AlertRows;
    if host :| host in hosts && Cooling(earlier, host, now, cooldown) && host !in t {
      BatchAlertsIff(t, hosts, now, cooldown, host);
      ForgottenIsNotSpaced(earlier, AlertRows(t, hosts, now, cooldown).1, host, now, cooldown);
    }
  }

  lemma PruneHolds(t: Table, sent: seq<Sent>, clock: int, now: int, cooldown: int, t': Table)
    requires HoldsSent(t, sent, clock) && clock <= now && PrunedTo(t, now, cooldown, t')
    ensures HoldsSent(t', sent, now)
  {
    assert forall host :: host in t' ==> host in t && t'[host] == t[host];
  }

  lemma {:induction false} RunHolds(start: int, rounds: seq<Round>, cooldown: int)
    requires ProperRounds(start, rounds, cooldown)
    ensures var (t, sent) := RunPruned(map[], rounds, cooldown);
      LastNow(start, rounds) > 0 && HoldsSent(t, sent, LastNow(start, rounds))
  {
    if rounds != [] {
      var init, r := rounds[..|rounds| - 1], rounds[|rounds| - 1];
      RunHolds(start, init, cooldown);
      var (t, sent) := RunPruned(map[], init, cooldown);
      hide AlertRows, PrunedTo, HoldsSent;
      PruneHolds(t, sent, LastNow(start, init), r.now, cooldown, r.pruned);
      AlertRowsHold(r.pruned, sent, r.hosts, r.hosts, r.now, cooldown);
    }
  }

  /** Over every run, evictions or not: a host's alerts are a cooldown apart exactly if nobody was forgotten. */
  lemma {:induction false} AlertsSpacedIff(start: int, rounds: seq<Round>, cooldown: int)
    requires ProperRounds(start, rounds, cooldown)
    ensures SpacedPerHost(RunPruned(map[], rounds, cooldown).1, cooldown) <==> NobodyForgotten(rounds, cooldown)
  {
    if rounds != [] {
      var init, r := rounds[..|rounds| - 1], rounds[|rounds| - 1];
      AlertsSpacedIff(start, init, cooldown);
      RunHolds(start, init, cooldown);
      var (t, sent) := RunPruned(map[], init, cooldown);
      var more := AlertRows(r.pruned, r.hosts, r.now, cooldown).1;
      hide AlertRows, PrunedTo, HoldsSent, SpacedPerHost, KnowsCooling;
      PruneHolds(t, sent, LastNow(start, init), r.now, cooldown, r.pruned);
      if SpacedPerHost(sent, cooldown) {
        RoundSpacedIff(r.pruned, sent, r.hosts, r.now, cooldown);
      } else if SpacedPerHost(sent + more, cooldown) {
        EarlierIsSpaced(sent, more, cooldown);
      }
    }
  }

  /** A host name of each length. */
  function Host(n: nat): (host: string)
    ensures |host| == n
  {
    if n == 0 then "" else Host(n - 1) + "h"
  }

  function Hosts(n: nat): seq<string> {
    if n == 0 then [] else Hosts(n - 1) + [Host(n - 1)]
  }

  lemma AlertRowsAppend(t: Table, hosts: seq<string>, host: string, now: int, cooldown: int)
    ensures var (t', sent) := AlertRows(t, hosts, now, cooldown);
      AlertRows(t, hosts + [host], now, cooldown) ==
        if Limited(t', host, now, cooldown) then (t', sent) else (t'[host := now], sent + [Sent(host, now)])
  {
    assert (hosts + [host])[..|hosts|] == hosts;
  }

  /** Different hosts fill an empty table, one entry and one alert each. */
  ghost predicate AllAlerted(n: nat, now: int, r: (Table, seq<Sent>)) {
    && |r.0| == n && (forall host :: host in r.0 ==> r.0[host] == now && |host| < n)
    && (n > 0 ==> Host(0) in r.0 && Sent(Host(0), now) in r.1)
  }

  lemma OneMoreAlerted(n: nat, now: int, t: Table, sent: seq<Sent>)
    requires AllAlerted(n, now, (t, sent))
    ensures Host(n) !in t
    ensures AllAlerted(n + 1, now, (t[Host(n) := now], sent + [Sent(Host(n), now)]))
  {
    assert n == 0 ==> (sent + [Sent(Host(n), now)])[|sent|] == Sent(Host(0), now);
  }

  lemma {:induction false} HostsAlerted(n: nat, now: int, cooldown: int)
    ensures AllAlerted(n, now, AlertRows(map[], Hosts(n), now, cooldown))
  {
    if n > 0 {
      HostsAlerted(n - 1, now, cooldown);
      var (t, sent) := AlertRows(map[], Hosts(n - 1), now, cooldown);
      AlertRowsAppend(map[], Hosts(n - 1), Host(n - 1), now, cooldown);
      OneMoreAlerted(n - 1, now, t, sent);
      hide AlertRows, AllAlerted, Host;
    }
  }

  lemma FirstRound(r: Round, start: int, cooldown: int)
    requires 0 < start <= r.now && r.pruned == map[]
    ensures RunPruned(map[], [r], cooldown) == AlertRows(map[], r.hosts, r.now, cooldown)
    ensures ProperRounds(start, [r], cooldown) && NobodyForgotten([r], cooldown)
  {
    assert [r][..0] == [];
    assert RunPruned(map[], [r][..0], cooldown) == (map[], []);
    hide AlertRows;
    assert Live(map[], r.now, cooldown) == map[];
    var (t, sent) := AlertRows(map[], r.hosts, r.now, cooldown);
    assert [] + sent == sent;
  }

  lemma SecondRound(first: Round, r: Round, start: int, cooldown: int)
    requires ProperRounds(start, [first], cooldown) && first.now <= r.now
    requires PrunedTo(RunPruned(map[], [first], cooldown).0, r.now, cooldown, r.pruned)
    ensures ProperRounds(start, [first, r], cooldown)
    ensures NobodyForgotten([first, r], cooldown) ==>
      KnowsCooling(r.pruned, RunPruned(map[], [first], cooldown).1, r.hosts, r.now, cooldown)
  {
    assert [first, r][..1] == [first];
    hide RunPruned, PrunedTo;
  }

  /** Of one entry too many, all of one time, any one may be evicted. */
  lemma EvictOne(t: Table, host: string, at: int, now: int, cooldown: int)
    requires |t| == ALERTED_MAX + 1 && host in t && (forall h :: h in t ==> t[h] == at) && now - at < cooldown
    ensures PrunedTo(t, now, cooldown, t - {host})
  {
    assert Live(t, now, cooldown) == t;
    RemovedCardinality(t, {host});
  }

  /** A flood of 4097 hosts evicts one of them, and its next row alerts again a moment later. */
  lemma FloodForgets(now: int, cooldown: int) returns (rounds: seq<Round>)
    requires now > 0 && cooldown > 1
    ensures ProperRounds(now, rounds, cooldown) && !SpacedPerHost(RunPruned(map[], rounds, cooldown).1, cooldown)
  {
    var first := Round(now, Hosts(ALERTED_MAX + 1), map[]);
    var (t, sent) := AlertRows(map[], first.hosts, now, cooldown);
    var second := Round(now + 1, [Host(0)], t - {Host(0)});
    rounds := [first, second];
    HostsAlerted(ALERTED_MAX + 1, now, cooldown);
    FirstRound(first, now, cooldown);
    hide AlertRows, Hosts, SpacedPerHost, RunPruned, ProperRounds, PrunedTo, NobodyForgotten;
    EvictOne(t, Host(0), now, now + 1, cooldown);
    SecondRound(first, second, now, cooldown);
    AlertsSpacedIff(now, rounds, cooldown);
    var i :| 0 <= i < |sent| && sent[i] == Sent(Host(0), now);
    assert Cooling(sent, Host(0), now + 1, cooldown);
  }

  // ---- The table stays small ----

  lemma {:induction false} AlertRowsGrowth(t: Table, hosts: seq<string>, now: int, cooldown: int)
    ensures |AlertRows(t, hosts, now, cooldown).0| <= |t| + |hosts|
  {
    if hosts != [] {
      AlertRowsGrowth(t, hosts[..|hosts| - 1], now, cooldown);
    }
  }

  /** At most 4096 hosts after a prune, 4096 and a batch after a batch. */
  lemma TableBounded(start: int, rounds: seq<Round>, cooldown: int)
    requires ProperRounds(start, rounds, cooldown) && rounds != []
    ensures var r := rounds[|rounds| - 1];
      |r.pruned| <= 4096 && |RunPruned(map[], rounds, cooldown).0| <= 4096 + |r.hosts|
  {
    var r := rounds[|rounds| - 1];
    AlertRowsGrowth(r.pruned, r.hosts, r.now, cooldown);
  }

  /** The hosts of the rows severe enough to alert on, in order. */
  function SevereHosts(rows: seq<(string, int)>, maxSeverity: int): seq<string> {
    if rows == [] then []
    else SevereHosts(rows[..|rows| - 1], maxSeverity)
         + if rows[|rows| - 1].1 > maxSeverity then [] else [rows[|rows| - 1].0]
  }

  /** Smaller numbers are more severe. */
  lemma {:induction false} SevereIff(rows: seq<(string, int)>, maxSeverity: int, host: string)
    ensures host in SevereHosts(rows, maxSeverity)
      <==> exists i :: 0 <= i < |rows| && rows[i].0 == host && rows[i].1 <= maxSeverity
  {
    if rows != [] {
      var init := rows[..|rows| - 1];
      SevereIff(init, maxSeverity, host);
      assert forall i :: 0 <= i < |init| ==> init[i] == rows[i];
    }
  }

  lemma {:induction false} SevereHostsAtMost(rows: seq<(string, int)>, maxSeverity: int)
    ensures |SevereHosts(rows, maxSeverity)| <= |rows|
  {
    if rows != [] {
      SevereHostsAtMost(rows[..|rows| - 1], maxSeverity);
    }
  }

  /** Fed with the batches of a receiver, whatever it went through: never more than 4096 and 400 hosts. */
  lemma FloodBounded(start: int, rounds: seq<Round>, cooldown: int, es: seq<Ingest.Event<(string, int)>>, n: nat,
                     maxSeverity: int)
    requires ProperRounds(start, rounds, cooldown) && rounds != []
    requires var batches := Ingest.HandleAll(Ingest.Fresh<(string, int)>(), es).batches;
      n < |batches| && rounds[|rounds| - 1].hosts == SevereHosts(batches[n].rows, maxSeverity)
    ensures |RunPruned(map[], rounds, cooldown).0| <= 4096 + 400
  {
    Ingest.RunConserves(es);
    hide Ingest.HandleAll, RunPruned, ProperRounds;
    TableBounded(start, rounds, cooldown);
    SevereHostsAtMost(Ingest.HandleAll(Ingest.Fresh<(string, int)>(), es).batches[n].rows, maxSeverity);
  }

  // ---- The running limiter ----

  /** Insertion into a list of hosts ordered by their time; equal times keep their order. */
  function InsertByTime(t: Table, host: string, sorted: seq<string>): seq<string>
    requires host in t && forall h :: h in sorted ==> h in t
  {
    if sorted == [] || t[host] < t[sorted[0]] then [host] + sorted
    else [sorted[0]] + InsertByTime(t, host, sorted[1..])
  }

  ghost predicate OrderedByTime(t: Table, hosts: seq<string>)
    requires forall h :: h in hosts ==> h in t
  {
    forall i, j :: 0 <= i <= j < |hosts| ==> t[hosts[i]] <= t[hosts[j]]
  }

  /** sorted(keys, key=table.__getitem__) */
  function SortByTime(t: Table, keys: seq<string>): (sorted: seq<string>)
    requires forall h :: h in keys ==> h in t
    ensures forall h :: h in sorted <==> h in keys
    ensures OrderedByTime(t, sorted)
  {
    if keys == [] then []
    else
      var init, last := keys[..|keys| - 1], keys[|keys| - 1];
      var rest := SortByTime(t, init);
      InsertMembers(t, last, rest);
      InsertOrdered(t, last, rest);
      assert keys == init + [last];
      InsertByTime(t, last, rest)
  }

  lemma {:induction false} InsertMembers(t: Table, host: string, sorted: seq<string>)
    requires host in t && forall h :: h in sorted ==> h in t
    ensures var r := InsertByTime(t, host, sorted);
      |r| == |sorted| + 1 && forall h :: h in r <==> h == host || h in sorted
  {
    if sorted != [] && t[host] >= t[sorted[0]] {
      InsertMembers(t, host, sorted[1..]);
      assert sorted == [sorted[0]] + sorted[1..];
    }
  }

  lemma {:induction false} InsertOrdered(t: Table, host: string, sorted: seq<string>)
    requires host in t && forall h :: h in sorted ==> h in t
    requires OrderedByTime(t, sorted)
    ensures var r := InsertByTime(t, host, sorted);
      (forall h :: h in r ==> h in t) && OrderedByTime(t, r)
  {
    InsertMembers(t, host, sorted);
    if sorted != [] && t[host] >= t[sorted[0]] {
      var first, rest := sorted[0], sorted[1..];
      InsertOrdered(t, host, rest);
      InsertMembers(t, host, rest);
      var r := InsertByTime(t, host, rest);
      forall i | 0 <= i < |r|
        ensures t[first] <= t[r[i]]
      {
        assert r[i] in r && (r[i] == host || r[i] in rest);
      }
      PrependOrdered(t, first, r);
    } else {
      PrependOrdered(t, host, sorted);
    }
  }

  lemma PrependOrdered(t: Table, first: string, rest: seq<string>)
    requires first in t && (forall h :: h in rest ==> h in t) && OrderedByTime(t, rest)
    requires forall i :: 0 <= i < |rest| ==> t[first] <= t[rest[i]]
    ensures (forall h :: h in [first] + rest ==> h in t) && OrderedByTime(t, [first] + rest)
  {
  }

  lemma {:induction false} SortLength(t: Table, keys: seq<string>)
    requires forall h :: h in keys ==> h in t
    ensures |SortByTime(t, keys)| == |keys|
  {
    if keys != [] {
      var init := keys[..|keys| - 1];
      SortLength(t, init);
      InsertMembers(t, keys[|keys| - 1], SortByTime(t, init));
    }
  }

  /** As many positions as different hosts: no host occurs twice. */
  lemma {:induction false} FullMeansDistinct(s: seq<string>)
    requires |Elements(s)| == |s|
    ensures Distinct(s)
  {
    if s != [] {
      var init, last := s[..|s| - 1], s[|s| - 1];
      assert Elements(s) == Elements(init) + {last};
      ElementsAtMost(init);
      assert last !in Elements(init);
      FullMeansDistinct(init);
      forall i, j | 0 <= i < j < |s|
        ensures s[i] != s[j]
      {
        assert s[i] == init[i] && s[i] in Elements(init);
        assert j < |init| ==> s[j] == init[j];
      }
    }
  }

  lemma {:induction false} ElementsAtMost(s: seq<string>)
    ensures |Elements(s)| <= |s|
  {
    if s == [] {
      assert Elements(s) == {};
    } else {
      ElementsAtMost(s[..|s| - 1]);
      assert Elements(s) == Elements(s[..|s| - 1]) + {s[|s| - 1]};
    }
  }

  lemma SortedCovers(t: Table, keys: seq<string>)
    requires Distinct(keys) && Elements(keys) == t.Keys && forall h :: h in keys ==> h in t
    ensures var sorted := SortByTime(t, keys);
      Distinct(sorted) && Elements(sorted) == t.Keys && |sorted| == |t|
  {
    hide SortByTime, OrderedByTime;
    var sorted := SortByTime(t, keys);
    SortLength(t, keys);
    ElementsCardinality(keys);
    assert |t| == |t.Keys|;
    assert Elements(sorted) == Elements(keys);
    FullMeansDistinct(sorted);
  }

  /** In a sorted list everything in the head is at most as recent as everything outside it. */
  lemma HeadIsOldest(t: Table, sorted: seq<string>, n: nat, x: string, y: string)
    requires n <= |sorted| && (forall h :: h in sorted ==> h in t) && OrderedByTime(t, sorted)
    requires x in Elements(sorted[..n]) && y in Elements(sorted) && y !in Elements(sorted[..n])
    ensures x in t && y in t && t[x] <= t[y]
  {
    var i :| 0 <= i < n && sorted[i] == x;
    var j :| 0 <= j < |sorted| && sorted[j] == y;
  }

  lemma HeadElements(sorted: seq<string>, n: nat)
    requires n <= |sorted| && Distinct(sorted)
    ensures Elements(sorted[..n]) <= Elements(sorted) && |Elements(sorted[..n])| == n
  {
    ElementsCardinality(sorted[..n]);
  }

  /** Dropping the head of the sorted hosts leaves the newest ones. */
  lemma EvictionIsPruning(live: Table, sorted: seq<string>, n: nat, t': Table)
    requires |live| > ALERTED_MAX && n == |live| - ALERTED_MAX && |sorted| == |live|
    requires Distinct(sorted) && Elements(sorted) == live.Keys
    requires (forall h :: h in sorted ==> h in live) && OrderedByTime(live, sorted)
    requires t' == live - Elements(sorted[..n])
    ensures NewestOf(live, t')
  {
    HeadElements(sorted, n);
    hide Distinct, Elements;
    RemovedCardinality(live, Elements(sorted[..n]));
    forall gone, kept | gone in live && gone !in t' && kept in t'
      ensures live[gone] <= t'[kept]
    {
      HeadIsOldest(live, sorted, n, gone, kept);
    }
  }

  lemma RemovedCardinality(t: Table, gone: set<string>)
    requires gone <= t.Keys
    ensures |t - gone| == |t| - |gone|
  {
    assert (t - gone).Keys == t.Keys - gone;
    assert |t| == |t.Keys| && |t - gone| == |(t - gone).Keys|;
  }

  lemma NothingEvicted(live: Table)
    requires |live| <= ALERTED_MAX
    ensures NewestOf(live, live)
  {
  }

  class Limiter {
    var alertedAt: Table
    ghost var sent: seq<Sent>

    constructor ()
      ensures alertedAt == map[] && sent == []
    {
      alertedAt, sent := map[], [];
    }

    /** Forget hosts past their cooldown; if a flood still overfills the table, drop the oldest. */
    method PruneAlerted(now: int, cooldown: int)
      modifies this`alertedAt
      ensures PrunedTo(old(alertedAt), now, cooldown, alertedAt)
    {
      hide Live, NewestOf;
      DropExpired(now, cooldown);
      ghost var live := alertedAt;
      if |alertedAt| > ALERTED_MAX {
        var gone := EvictOldest(|alertedAt| - ALERTED_MAX);
        EvictionIsPruning(live, gone, |gone| - ALERTED_MAX, alertedAt);
      } else {
        NothingEvicted(live);
      }
    }

    method DropExpired(now: int, cooldown: int)
      modifies this`alertedAt
      ensures alertedAt == Live(old(alertedAt), now, cooldown)
    {
      ghost var before := alertedAt;
      var todo := set host | host in alertedAt && now - alertedAt[host] >= cooldown;
      ghost var expired := todo;
      while todo != {}
        invariant todo <= expired
        invariant alertedAt == before - (expired - todo)
      {
        var host :| host in todo;
        todo := todo - {host};
        alertedAt := alertedAt - {host};
      }
    }

    /** Deletes the n hosts alerted longest ago; returns all hosts, oldest first. */
    method EvictOldest(n: nat) returns (sorted: seq<string>)
      requires n <= |alertedAt|
      modifies this`alertedAt
      ensures Distinct(sorted) && Elements(sorted) == old(alertedAt).Keys && |sorted| == |old(alertedAt)|
      ensures (forall h :: h in sorted ==> h in old(alertedAt)) && OrderedByTime(old(alertedAt), sorted)
      ensures alertedAt == old(alertedAt) - Elements(sorted[..n])
    {
      var keys := KeysInSomeOrder();
      SortedCovers(alertedAt, keys);
      sorted := SortByTime(alertedAt, keys);
      DeleteAll(sorted[..n]);
    }

    method DeleteAll(hosts: seq<string>)
      modifies this`alertedAt
      ensures alertedAt == old(alertedAt) - Elements(hosts)
    {
      for i := 0 to |hosts|
        invariant alertedAt == old(alertedAt) - Elements(hosts[..i])
      {
        assert Elements(hosts[..i + 1]) == Elements(hosts[..i]) + {hosts[i]};
        alertedAt := alertedAt - {hosts[i]};
      }
      assert hosts[..|hosts|] == hosts;
    }

    /** The dict's keys; their order is left open. */
    method KeysInSomeOrder() returns (keys: seq<string>)
      ensures Distinct(keys) && Elements(keys) == alertedAt.Keys
      ensures forall h :: h in keys ==> h in alertedAt
    {
      keys := [];
      var todo := alertedAt.Keys;
      while todo != {}
        invariant todo <= alertedAt.Keys && Distinct(keys)
        invariant Elements(keys) == alertedAt.Keys - todo
      {
        var h :| h in todo;
        assert h !in Elements(keys);
        assert Elements(keys + [h]) == Elements(keys) + {h};
        todo, keys := todo - {h}, keys + [h];
      }
      assert forall h :: h in keys ==> h in Elements(keys);
    }

    /** Alert for every severe row whose host is not in its cooldown. */
    method MaybeAlert(rows: seq<(string, int)>, maxSeverity: int, now: int, cooldown: int) returns (ghost pruned: Table)
      modifies this
      ensures maxSeverity < 0 ==> alertedAt == old(alertedAt) && sent == old(sent)
      ensures maxSeverity >= 0 ==>
        && PrunedTo(old(alertedAt), now, cooldown, pruned)
        && alertedAt == AlertRows(pruned, SevereHosts(rows, maxSeverity), now, cooldown).0
        && sent == old(sent) + AlertRows(pruned, SevereHosts(rows, maxSeverity), now, cooldown).1
    {
      pruned := alertedAt;
      if maxSeverity < 0 {
        return;
      }
      PruneAlerted(now, cooldown);
      pruned := alertedAt;
      SendAlerts(rows, maxSeverity, now, cooldown);
    }

    method SendAlerts(rows: seq<(string, int)>, maxSeverity: int, now: int, cooldown: int)
      modifies this
      ensures (alertedAt, sent) == After(old(alertedAt), old(sent), rows, maxSeverity, now, cooldown)
    {
      ghost var t, before := alertedAt, sent;
      assert before + [] == before;
      for i := 0 to |rows|
        invariant (alertedAt, sent) == After(t, before, rows[..i], maxSeverity, now, cooldown)
      {
        var (host, severity) := rows[i];
        OneMoreRow(t, before, rows[..i], rows[i], maxSeverity, now, cooldown);
        assert rows[..i + 1] == rows[..i] + [rows[i]];
        hide After;
        if severity > maxSeverity {
          continue;
        }
        if host in alertedAt && alertedAt[host] != 0 && now - alertedAt[host] < cooldown {
          continue;
        }
        alertedAt := alertedAt[host := now];
        sent := sent + [Sent(host, now)];
      }
      assert rows[..|rows|] == rows;
    }
  }

  /** Table and alerts sent, once these rows have been gone through. */
  ghost function After(t: Table, sent: seq<Sent>, rows: seq<(string, int)>, maxSeverity: int, now: int,
                       cooldown: int): (Table, seq<Sent>)
  {
    var (t', more) := AlertRows(t, SevereHosts(rows, maxSeverity), now, cooldown);
    (t', sent + more)
  }

  lemma OneMoreRow(t: Table, sent: seq<Sent>, rows: seq<(string, int)>, row: (string, int), maxSeverity: int,
                   now: int, cooldown: int)
    ensures var (t', sent') := After(t, sent, rows, maxSeverity, now, cooldown);
      After(t, sent, rows + [row], maxSeverity, now, cooldown) ==
        if row.1 > maxSeverity || Limited(t', row.0, now, cooldown) then (t', sent')
        else (t'[row.0 := now], sent' + [Sent(row.0, now)])
  {
    var hosts := SevereHosts(rows, maxSeverity);
    assert (rows + [row])[..|rows|] == rows && hosts + [] == hosts;
    assert (hosts + [row.0])[..|hosts|] == hosts;
    var more := AlertRows(t, hosts, now, cooldown).1;
    assert sent + (more + [Sent(row.0, now)]) == sent + more + [Sent(row.0, now)];
  }
}
