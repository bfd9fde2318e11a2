/**
 SNMP interface counters: rates from deltas modulo the counter width, over two
 chains of samples, one for the background poll and one for live peeks.
 */
module Counters {
  import opened Basics

  /** The octet columns one poll walked: 64-bit, and the 32-bit fallback. */
  datatype Walk = Walk(hcIn: map<nat, nat>, hcOut: map<nat, nat>, in32: map<nat, nat>, out32: map<nat, nat>)

  /** The counters kept from the last poll of a device. */
  datatype Sample = Sample(t: int, hc: bool, octets: map<nat, (nat, nat)>)

  /** Octets in and out since the last sample, over dt milliseconds. */
  datatype Delta = Delta(received: nat, sent: nat, dt: int)

  const HOUR := 3600000

  function Wrap(hc: bool): (w: nat)
    ensures w > 0
  {
    if hc then 0x1_0000_0000_0000_0000 else 0x1_0000_0000
  }

  /** 64-bit counters when the device has any, otherwise the 32-bit ones. */
  function UsesHc(w: Walk): bool {
    w.hcIn != map[]
  }

  function InColumn(w: Walk): map<nat, nat> {
    if UsesHc(w) then w.hcIn else w.in32
  }

  function OutColumn(w: Walk): map<nat, nat> {
    if UsesHc(w) then w.hcOut else w.out32
  }

  function Get(column: map<nat, nat>, idx: nat): nat {
    if idx in column then column[idx] else 0
  }

  function SampleOf(now: int, w: Walk): Sample {
    Sample(now, UsesHc(w), map i | i in InColumn(w) :: (InColumn(w)[i], Get(OutColumn(w), i)))
  }

  /** Python's modulo of a difference: never negative. */
  function Advance(previous: int, current: int, hc: bool): nat {
    (current - previous) % Wrap(hc)
  }

  /** The samples can be compared: same width, and a sane distance apart. */
  predicate Comparable(prev: Option<Sample>, now: int, w: Walk) {
    prev.Some? && prev.value.hc == UsesHc(w) && 0 < now - prev.value.t < HOUR
  }

  function Deltas(prev: Option<Sample>, now: int, w: Walk): map<nat, Delta> {
    if !Comparable(prev, now, w) then map[]
    else map i | i in InColumn(w) && i in prev.value.octets ::
           Delta(Advance(prev.value.octets[i].0, InColumn(w)[i], UsesHc(w)),
                 Advance(prev.value.octets[i].1, Get(OutColumn(w), i), UsesHc(w)),
                 now - prev.value.t)
  }

  // ---- Modular deltas are the traffic ----

  lemma ModOfDifference(a: int, b: int, w: nat)
    requires w > 0
    ensures (a % w - b % w) % w == (a - b) % w
  {
    var qa, qb := a / w, b / w;
    assert a == qa * w + a % w && b == qb * w + b % w;
    SameResidue(a % w - b % w, a - b, qa - qb, w);
  }

  lemma SameResidue(x: int, y: int, k: int, w: nat)
    requires w > 0 && y == x + k * w
    ensures x % w == y % w
  {
    var qx, qy := x / w, y / w;
    assert x == qx * w + x % w && y == qy * w + y % w;
    var d := qy - qx - k;
    assert d * w == x % w - y % w by {
      assert (qy - qx - k) * w == qy * w - qx * w - k * w;
    }
    assert d == 0;
  }

  /**
   A counter that reads `before` and then `after` octets modulo its width: the delta
   is the traffic modulo the width, and the traffic itself exactly when less than
   one wrap went by.
   */
  lemma DeltaIsTraffic(before: int, after: int, hc: bool)
    requires before <= after
    ensures Advance(before % Wrap(hc), after % Wrap(hc), hc) == (after - before) % Wrap(hc)
    ensures Advance(before % Wrap(hc), after % Wrap(hc), hc) == after - before <==> after - before < Wrap(hc)
  {
    ModOfDifference(after, before, Wrap(hc));
  }

  // ---- A run of polls of one device ----

  datatype Poll = Poll(now: int, walk: Walk)

  /** The walk has the received octets of interface idx: in its 64-bit column, or in the 32-bit one without any. */
  predicate HasReceived(w: Walk, idx: nat) {
    if w.hcIn != map[] then idx in w.hcIn else idx in w.in32
  }

  /** Likewise the sent octets; which of the two columns it is, the received ones decide. */
  predicate HasSent(w: Walk, idx: nat) {
    if w.hcIn != map[] then idx in w.hcOut else idx in w.out32
  }

  /** Where the received column is walked, it reads n octets modulo its width. */
  predicate ReadsReceived(w: Walk, idx: nat, n: int) {
    HasReceived(w, idx) ==>
      if w.hcIn != map[] then w.hcIn[idx] == n % 0x1_0000_0000_0000_0000 else w.in32[idx] == n % 0x1_0000_0000
  }

  /** And the sent column. */
  predicate ReadsSent(w: Walk, idx: nat, n: int) {
    HasSent(w, idx) ==>
      if w.hcIn != map[] then w.hcOut[idx] == n % 0x1_0000_0000_0000_0000 else w.out32[idx] == n % 0x1_0000_0000
  }

  /** The columns the collector picks are these. */
  lemma ColumnsRead(w: Walk, idx: nat)
    ensures idx in InColumn(w) <==> HasReceived(w, idx)
    ensures idx in OutColumn(w) <==> HasSent(w, idx)
    ensures forall n: int :: ReadsReceived(w, idx, n) ==>
      idx in InColumn(w) ==> InColumn(w)[idx] == n % Wrap(w.hcIn != map[])
    ensures forall n: int :: ReadsSent(w, idx, n) ==>
      Get(OutColumn(w), idx) == if HasSent(w, idx) then n % Wrap(w.hcIn != map[]) else 0
  {
  }

  /** The polls follow the true octet counts of interface idx, in one counter width. */
  ghost predicate Reports(polls: seq<Poll>, idx: nat, received: seq<int>, sent: seq<int>, hc: bool) {
    && |received| == |sent| == |polls|
    && (forall k :: 0 <= k < |polls| ==>
          var w := polls[k].walk;
          && (w.hcIn != map[]) == hc && HasReceived(w, idx) && HasSent(w, idx)
          && ReadsReceived(w, idx, received[k]) && ReadsSent(w, idx, sent[k]))
    && (forall k :: 0 < k < |polls| ==>
          && 0 < polls[k].now - polls[k - 1].now < HOUR
          && received[k - 1] <= received[k] && sent[k - 1] <= sent[k])
  }

  function SampleBefore(polls: seq<Poll>): Option<Sample> {
    if polls == [] then None else Some(SampleOf(polls[|polls| - 1].now, polls[|polls| - 1].walk))
  }

  /** The sum of the deltas the collector computes for interface idx over the run. */
  function TotalDelta(polls: seq<Poll>, idx: nat): (int, int) {
    if polls == [] then (0, 0)
    else
      var init, last := polls[..|polls| - 1], polls[|polls| - 1];
      var total, deltas := TotalDelta(init, idx), Deltas(SampleBefore(init), last.now, last.walk);
      if idx in deltas then (total.0 + deltas[idx].received, total.1 + deltas[idx].sent) else total
  }

  lemma LastDelta(polls: seq<Poll>, idx: nat, received: seq<int>, sent: seq<int>, hc: bool)
    requires Reports(polls, idx, received, sent, hc) && |polls| > 1
    ensures var n, last := |polls| - 1, polls[|polls| - 1];
      var deltas := Deltas(SampleBefore(polls[..n]), last.now, last.walk);
      && idx in deltas
      && deltas[idx].received == Advance(received[n - 1] % Wrap(hc), received[n] % Wrap(hc), hc)
      && deltas[idx].sent == Advance(sent[n - 1] % Wrap(hc), sent[n] % Wrap(hc), hc)
      && deltas[idx].dt == last.now - polls[n - 1].now
  {
    var n := |polls| - 1;
    assert polls[..n][n - 1] == polls[n - 1];
    ColumnsRead(polls[n - 1].walk, idx);
    ColumnsRead(polls[n].walk, idx);
  }

  /** One more poll adds its two deltas to the totals. */
  lemma TotalStep(polls: seq<Poll>, idx: nat, received: seq<int>, sent: seq<int>, hc: bool)
    requires Reports(polls, idx, received, sent, hc) && |polls| > 1
    ensures var n := |polls| - 1;
      && Reports(polls[..n], idx, received[..n], sent[..n], hc)
      && TotalDelta(polls, idx).0 == TotalDelta(polls[..n], idx).0
           + Advance(received[n - 1] % Wrap(hc), received[n] % Wrap(hc), hc)
      && TotalDelta(polls, idx).1 == TotalDelta(polls[..n], idx).1
           + Advance(sent[n - 1] % Wrap(hc), sent[n] % Wrap(hc), hc)
      && received[n - 1] <= received[n] && sent[n - 1] <= sent[n]
  {
    LastDelta(polls, idx, received, sent, hc);
    ReportsPrefix(polls, idx, received, sent, hc);
    hide Reports, Deltas, Wrap, Advance, SampleBefore;
  }

  lemma ReportsPrefix(polls: seq<Poll>, idx: nat, received: seq<int>, sent: seq<int>, hc: bool)
    requires Reports(polls, idx, received, sent, hc) && polls != []
    ensures var n := |polls| - 1;
      && Reports(polls[..n], idx, received[..n], sent[..n], hc)
      && (n > 0 ==> received[n - 1] <= received[n] && sent[n - 1] <= sent[n])
  {
    hide HasReceived, HasSent, ReadsReceived, ReadsSent;
    var n := |polls| - 1;
    assert forall k :: 0 <= k < n ==>
      polls[..n][k] == polls[k] && received[..n][k] == received[k] && sent[..n][k] == sent[k];
  }

  lemma FirstPoll(polls: seq<Poll>, idx: nat)
    requires |polls| == 1
    ensures TotalDelta(polls, idx) == (0, 0)
  {
    assert TotalDelta(polls[..0], idx) == (0, 0);
    assert Deltas(SampleBefore(polls[..0]), polls[0].now, polls[0].walk) == map[];
  }

  /** Over any run the deltas add up to last minus first, modulo the counter width. */
  lemma {:induction false} DeltasTelescopeModulo(polls: seq<Poll>, idx: nat, received: seq<int>, sent: seq<int>,
                                                 hc: bool)
    requires Reports(polls, idx, received, sent, hc) && |polls| == |received| == |sent| > 0
    ensures Congruent(TotalDelta(polls, idx).0, received[|polls| - 1] - received[0], Wrap(hc))
    ensures Congruent(TotalDelta(polls, idx).1, sent[|polls| - 1] - sent[0], Wrap(hc))
  {
    hide TotalDelta, Wrap, Reports, Advance, Congruent;
    var n := |polls| - 1;
    if n == 0 {
      FirstPoll(polls, idx);
      CongruentSelf(0, Wrap(hc));
    } else {
      TotalStep(polls, idx, received, sent, hc);
      var init := TotalDelta(polls[..n], idx);
      DeltasTelescopeModulo(polls[..n], idx, received[..n], sent[..n], hc);
      AddDelta(init.0, received[0], received[n - 1], received[n], hc);
      AddDelta(init.1, sent[0], sent[n - 1], sent[n], hc);
    }
  }

  predicate Congruent(a: int, b: int, w: nat)
    requires w > 0
  {
    a % w == b % w
  }

  lemma CongruentSelf(a: int, w: nat)
    requires w > 0
    ensures Congruent(a, a, w)
  {
  }

  /** A sum congruent to x - first stays so when the next delta, to y, is added. */
  lemma AddDelta(sum: int, first: int, x: int, y: int, hc: bool)
    requires x <= y && Congruent(sum, x - first, Wrap(hc))
    ensures Congruent(sum + Advance(x % Wrap(hc), y % Wrap(hc), hc), y - first, Wrap(hc))
  {
    DeltaIsTraffic(x, y, hc);
    SumOfResidues(sum, x - first, y - x, Wrap(hc));
  }

  lemma SumOfResidues(t: int, x: int, y: int, w: nat)
    requires w > 0 && t % w == x % w
    ensures (t + y % w) % w == (x + y) % w
  {
    var qt, qx, qy := t / w, x / w, y / w;
    assert t == qt * w + t % w && x == qx * w + x % w && y == qy * w + y % w;
    assert x + y == (t + y % w) + (qx + qy - qt) * w by {
      assert (qx + qy - qt) * w == qx * w + qy * w - qt * w;
    }
    SameResidue(t + y % w, x + y, qx + qy - qt, w);
  }

  predicate WithinOneWrap(before: int, after: int, hc: bool) {
    after - before < Wrap(hc)
  }

  /** Less than one wrap of traffic between any two consecutive polls. */
  ghost predicate NoWrapLost(received: seq<int>, sent: seq<int>, hc: bool)
    requires |received| == |sent|
  {
    forall k :: 0 < k < |received| ==>
      WithinOneWrap(received[k - 1], received[k], hc) && WithinOneWrap(sent[k - 1], sent[k], hc)
  }

  lemma AdvanceAtMost(before: int, after: int, hc: bool)
    requires before <= after
    ensures Advance(before % Wrap(hc), after % Wrap(hc), hc) <= after - before
    ensures Advance(before % Wrap(hc), after % Wrap(hc), hc) == after - before <==> WithinOneWrap(before, after, hc)
  {
    DeltaIsTraffic(before, after, hc);
    var d, w := after - before, Wrap(hc);
    assert d == d / w * w + d % w && d / w >= 0;
  }

  lemma NoWrapLostStep(received: seq<int>, sent: seq<int>, hc: bool)
    requires |received| == |sent| > 1
    ensures var n := |received| - 1;
      NoWrapLost(received, sent, hc) <==>
        && NoWrapLost(received[..n], sent[..n], hc)
        && WithinOneWrap(received[n - 1], received[n], hc) && WithinOneWrap(sent[n - 1], sent[n], hc)
  {
    hide WithinOneWrap;
    var n := |received| - 1;
    assert forall k :: 0 <= k < n ==> received[..n][k] == received[k] && sent[..n][k] == sent[k];
  }

  /**
   The deltas never add up to more than the traffic, and to exactly that if and only if no wrap was
   lost between polls.
   */
  lemma {:induction false} DeltasTelescope(polls: seq<Poll>, idx: nat, received: seq<int>, sent: seq<int>, hc: bool)
    requires Reports(polls, idx, received, sent, hc) && |polls| == |received| == |sent| > 0
    ensures TotalDelta(polls, idx).0 <= received[|polls| - 1] - received[0]
    ensures TotalDelta(polls, idx).1 <= sent[|polls| - 1] - sent[0]
    ensures TotalDelta(polls, idx) == (received[|polls| - 1] - received[0], sent[|polls| - 1] - sent[0])
      <==> NoWrapLost(received, sent, hc)
  {
    var n := |polls| - 1;
    if n == 0 {
      hide TotalDelta, Reports;
      FirstPoll(polls, idx);
    } else {
      hide TotalDelta, Wrap, Reports, Advance, NoWrapLost, WithinOneWrap;
      TotalStep(polls, idx, received, sent, hc);
      DeltasTelescope(polls[..n], idx, received[..n], sent[..n], hc);
      AdvanceAtMost(received[n - 1], received[n], hc);
      AdvanceAtMost(sent[n - 1], sent[n], hc);
      NoWrapLostStep(received, sent, hc);
    }
  }

  // ---- When the sent column is missing ----

  /** What the collector does not see of n octets: nothing, or all of the counter where the column is missing. */
  function Unseen(w: Walk, idx: nat, n: int): int {
    if HasSent(w, idx) then 0 else n % Wrap(w.hcIn != map[])
  }

  /** Two polls of an interface, close enough to be compared. */
  predicate Consecutive(first: Poll, second: Poll, idx: nat) {
    && (first.walk.hcIn != map[]) == (second.walk.hcIn != map[])
    && HasReceived(first.walk, idx) && HasReceived(second.walk, idx)
    && 0 < second.now - first.now < 3600000
  }

  /** The second poll reports an interface exactly if it is comparable with the first, over the time in between. */
  lemma ReportedIffConsecutive(first: Poll, second: Poll, idx: nat)
    ensures var deltas := Deltas(Some(SampleOf(first.now, first.walk)), second.now, second.walk);
      && (idx in deltas <==> Consecutive(first, second, idx))
      && (idx in deltas ==> deltas[idx].dt == second.now - first.now)
    ensures Deltas(None, second.now, second.walk) == map[]
  {
    ColumnsRead(first.walk, idx);
    ColumnsRead(second.walk, idx);
  }

  function SentBetween(first: Poll, second: Poll, idx: nat): nat
    requires Consecutive(first, second, idx)
  {
    assert idx in InColumn(first.walk) && idx in InColumn(second.walk);
    Deltas(Some(SampleOf(first.now, first.walk)), second.now, second.walk)[idx].sent
  }

  lemma SentIsAdvance(first: Poll, second: Poll, idx: nat, before: int, after: int)
    requires Consecutive(first, second, idx)
    requires ReadsSent(first.walk, idx, before) && ReadsSent(second.walk, idx, after)
    ensures var w := Wrap(second.walk.hcIn != map[]);
      var u, v := Unseen(first.walk, idx, before), Unseen(second.walk, idx, after);
      SentBetween(first, second, idx) == (after % w - v - (before % w - u)) % w
  {
    hide Wrap;
    ColumnsRead(first.walk, idx);
    ColumnsRead(second.walk, idx);
  }

  /**
   The sent delta of two polls less than a wrap apart is the traffic exactly if the
   second poll misses as much of the counter as the first one did.
   */
  lemma SentExactIff(first: Poll, second: Poll, idx: nat, before: int, after: int)
    requires Consecutive(first, second, idx)
    requires ReadsSent(first.walk, idx, before) && ReadsSent(second.walk, idx, after)
    requires 0 <= after - before < Wrap(second.walk.hcIn != map[])
    ensures SentBetween(first, second, idx) == after - before
      <==> Unseen(first.walk, idx, before) == Unseen(second.walk, idx, after)
  {
    var w, u, v := Wrap(second.walk.hcIn != map[]), Unseen(first.walk, idx, before), Unseen(second.walk, idx, after);
    SentIsAdvance(first, second, idx, before, after);
    hide SentBetween, ReadsSent, Consecutive;
    assert 0 <= u < w && 0 <= v < w;
    hide Unseen, Wrap;
    OffsetResidue(before, after, u, v, w);
  }

  /** A difference less than w survives the modulus with an offset exactly if the offset is nil. */
  lemma OffsetResidue(before: int, after: int, u: int, v: int, w: nat)
    requires w > 0 && 0 <= after - before < w && 0 <= u < w && 0 <= v < w
    ensures (after % w - v - (before % w - u)) % w == after - before <==> u == v
  {
    var d, r := after - before, (after % w - v - (before % w - u)) % w;
    var qa, qb, q := after / w, before / w, (after % w - v - (before % w - u)) / w;
    assert after == qa * w + after % w && before == qb * w + before % w;
    assert after % w - v - (before % w - u) == q * w + r;
    var k := q + qa - qb;
    assert r - d == u - v - k * w by {
      assert (q + qa - qb) * w == q * w + qa * w - qb * w;
    }
    if r == d {
      assert k == 0 by { SmallMultiple(u - v, k, w); }
    } else if u == v {
      SmallMultiple(r - d, -k, w);
    }
  }

  lemma SmallMultiple(x: int, k: int, w: nat)
    requires x == k * w && 0 - w < x < w
    ensures k == 0
  {
  }

  lemma NegativeResidue(r: nat, w: nat)
    requires r < w
    ensures (0 - r) % w == if r == 0 then 0 else w - r
  {
    SameResidue(0 - r, w - r, 1, w);
  }

  /** A column that goes missing reads as a huge jump, unless the counter stands at a whole wrap. */
  lemma MissingColumnInventsTraffic(first: Poll, second: Poll, idx: nat, before: int, after: int)
    requires Consecutive(first, second, idx)
    requires HasSent(first.walk, idx) && !HasSent(second.walk, idx)
    requires ReadsSent(first.walk, idx, before) && 0 <= after - before < Wrap(second.walk.hcIn != map[])
    ensures var w := Wrap(second.walk.hcIn != map[]);
      && SentBetween(first, second, idx) == (if before % w == 0 then 0 else w - before % w)
      && (SentBetween(first, second, idx) == after - before <==> after % w == 0)
  {
    hide SentBetween, Consecutive, Wrap;
    var w := Wrap(second.walk.hcIn != map[]);
    SentExactIff(first, second, idx, before, after);
    SentIsAdvance(first, second, idx, before, after);
    NegativeResidue(before % w, w);
  }

  lemma ResidueOfResidue(x: int, w: nat)
    requires w > 0
    ensures x % w % w == x % w
  {
  }

  /** A column that comes back reads as its whole counter. */
  lemma ReturningColumnReportsCounter(first: Poll, second: Poll, idx: nat, before: int, after: int)
    requires Consecutive(first, second, idx)
    requires !HasSent(first.walk, idx) && HasSent(second.walk, idx)
    requires ReadsSent(second.walk, idx, after) && 0 <= after - before < Wrap(second.walk.hcIn != map[])
    ensures var w := Wrap(second.walk.hcIn != map[]);
      && SentBetween(first, second, idx) == after % w
      && (SentBetween(first, second, idx) == after - before <==> before % w == 0)
  {
    hide SentBetween, Wrap;
    SentExactIff(first, second, idx, before, after);
    SentIsAdvance(first, second, idx, before, after);
    var w := Wrap(second.walk.hcIn != map[]);
    ResidueOfResidue(after, w);
  }

  // ---- Two chains ----

  datatype Chains = Chains(poll: map<Id, Sample>, peek: map<Id, Sample>)

  /** A collection on one of the chains; without a walk it failed before the counters. */
  datatype Collection = Collection(isPeek: bool, id: Id, now: int, walk: Option<Walk>)

  function PreviousOf(chain: map<Id, Sample>, id: Id): Option<Sample> {
    if id in chain then Some(chain[id]) else None
  }

  function ChainAfter(chain: map<Id, Sample>, c: Collection): map<Id, Sample> {
    if c.walk.None? then chain else chain[c.id := SampleOf(c.now, c.walk.value)]
  }

  function ChainRates(chain: map<Id, Sample>, c: Collection): map<nat, Delta> {
    if c.walk.None? then map[] else Deltas(PreviousOf(chain, c.id), c.now, c.walk.value)
  }

  function Collect(s: Chains, c: Collection): Chains {
    if c.isPeek then s.(peek := ChainAfter(s.peek, c)) else s.(poll := ChainAfter(s.poll, c))
  }

  function CollectAll(s: Chains, cs: seq<Collection>): Chains {
    if cs == [] then s else Collect(CollectAll(s, cs[..|cs| - 1]), cs[|cs| - 1])
  }

  /** What the collections on one chain reported, in order. */
  function RatesOn(isPeek: bool, s: Chains, cs: seq<Collection>): seq<map<nat, Delta>> {
    if cs == [] then []
    else
      var init, last := cs[..|cs| - 1], cs[|cs| - 1];
      var before := CollectAll(s, init);
      RatesOn(isPeek, s, init)
      + if last.isPeek == isPeek then [ChainRates(if isPeek then before.peek else before.poll, last)] else []
  }

  /** The last collection of a device on one chain that came as far as its counters. */
  function LastWalk(isPeek: bool, id: Id, cs: seq<Collection>): Option<Poll> {
    if cs == [] then None
    else
      var c := cs[|cs| - 1];
      if c.isPeek == isPeek && c.id == id && c.walk.Some? then Some(Poll(c.now, c.walk.value))
      else LastWalk(isPeek, id, cs[..|cs| - 1])
  }

  /** A chain holds of each device the sample of that collection; failed ones leave it as it is. */
  lemma {:induction false} ChainHoldsLastWalk(isPeek: bool, id: Id, cs: seq<Collection>)
    ensures var s, last := CollectAll(Chains(map[], map[]), cs), LastWalk(isPeek, id, cs);
      var chain := if isPeek then s.peek else s.poll;
      if last.None? then id !in chain
      else id in chain && chain[id] == SampleOf(last.value.now, last.value.walk)
  {
    if cs != [] {
      hide SampleOf;
      ChainHoldsLastWalk(isPeek, id, cs[..|cs| - 1]);
    }
  }

  /** So a collection reports what went by since that collection, and a failed one reports nothing. */
  lemma RatesSinceLastWalk(isPeek: bool, cs: seq<Collection>, c: Collection)
    requires c.isPeek == isPeek
    ensures var last := LastWalk(isPeek, c.id, cs);
      var before := if last.None? then None else Some(SampleOf(last.value.now, last.value.walk));
      RatesOn(isPeek, Chains(map[], map[]), cs + [c]) == RatesOn(isPeek, Chains(map[], map[]), cs)
        + [if c.walk.None? then map[] else Deltas(before, c.now, c.walk.value)]
  {
    hide SampleOf, Deltas, LastWalk;
    assert (cs + [c])[..|cs|] == cs;
    ChainHoldsLastWalk(isPeek, c.id, cs);
  }

  function Only(isPeek: bool, cs: seq<Collection>): seq<Collection> {
    if cs == [] then []
    else Only(isPeek, cs[..|cs| - 1]) + if cs[|cs| - 1].isPeek == isPeek then [cs[|cs| - 1]] else []
  }

  /** Deleting every collection on the other chain changes nothing on this one. */
  lemma {:induction false} ChainsAreIndependent(isPeek: bool, s: Chains, cs: seq<Collection>)
    ensures RatesOn(isPeek, s, cs) == RatesOn(isPeek, s, Only(isPeek, cs))
    ensures isPeek ==> CollectAll(s, cs).peek == CollectAll(s, Only(true, cs)).peek
    ensures !isPeek ==> CollectAll(s, cs).poll == CollectAll(s, Only(false, cs)).poll
  {
    if cs != [] {
      var init, last := cs[..|cs| - 1], cs[|cs| - 1];
      ChainsAreIndependent(isPeek, s, init);
      if last.isPeek == isPeek {
        assert Only(isPeek, cs)[..|Only(isPeek, init)|] == Only(isPeek, init);
      } else {
        assert Only(isPeek, cs) == Only(isPeek, init);
      }
    }
  }

  // ---- The running collector ----

  class SnmpCollector {
    var lastCounters: map<Id, Sample>
    var peekCounters: map<Id, Sample>

    constructor ()
      ensures Contents() == Chains(map[], map[])
    {
      lastCounters, peekCounters := map[], map[];
    }

    function Contents(): Chains
      reads this
    {
      Chains(lastCounters, peekCounters)
    }

    /** Rates from counter deltas, then the new sample replaces the old one. */
    method RunCollection(id: Id, now: int, w: Walk, isPeek: bool) returns (rates: map<nat, Delta>)
      modifies this
      ensures rates == ChainRates(if isPeek then old(peekCounters) else old(lastCounters),
                                  Collection(isPeek, id, now, Some(w)))
      ensures Contents() == Collect(old(Contents()), Collection(isPeek, id, now, Some(w)))
    {
      var counters := if isPeek then peekCounters else lastCounters;
      var hc, inOctets, outOctets := true, w.hcIn, w.hcOut;
      if inOctets == map[] {
        hc, inOctets, outOctets := false, w.in32, w.out32;
      }
      rates := map[];
      if id in counters && counters[id].hc == hc {
        var prev := counters[id];
        var dt := now - prev.t;
        if 0 < dt < HOUR {
          rates := RatesBetween(prev, now, w, inOctets, outOctets, Wrap(hc));
        }
      }
      var sample := Sample(now, hc, map i | i in inOctets :: (inOctets[i], Get(outOctets, i)));
      if isPeek {
        peekCounters := peekCounters[id := sample];
      } else {
        lastCounters := lastCounters[id := sample];
      }
    }

    /** The loop over the walked interfaces that the previous sample also had. */
    static method RatesBetween(prev: Sample, now: int, w: Walk, inOctets: map<nat, nat>, outOctets: map<nat, nat>,
                               wrap: nat)
        returns (rates: map<nat, Delta>)
      requires Comparable(Some(prev), now, w)
      requires inOctets == InColumn(w) && outOctets == OutColumn(w) && wrap == Wrap(prev.hc)
      ensures rates == Deltas(Some(prev), now, w)
    {
      rates := map[];
      var todo := inOctets.Keys;
      ghost var all := Deltas(Some(prev), now, w);
      while todo != {}
        invariant todo <= inOctets.Keys
        invariant rates == map i | i in all && i !in todo :: all[i]
      {
        var idx :| idx in todo;
        todo := todo - {idx};
        if idx in prev.octets {
          var pIn: int, pOut: int := prev.octets[idx].0, prev.octets[idx].1;
          rates := rates[idx := Delta((inOctets[idx] - pIn) % wrap, (Get(outOctets, idx) - pOut) % wrap, now - prev.t)];
        }
      }
    }
  }
}
