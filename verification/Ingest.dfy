/**
 The UDP receivers (syslog and SNMP traps share this machine): a bounded FIFO
 buffer filled by datagrams and drained in batches by the flush loop. Datagrams
 may arrive between any two steps of the loop.
 */
module Ingest {
  import opened Basics

  const BUFFER_HARD_CAP := 10000
  const FLUSH_MAX_ROWS := 200

  /** Where the flush loop is: asleep, about to take a batch, or waiting for its commit. */
  datatype Phase<T> = Asleep | Draining | Committing(rows: seq<T>)

  /** A batch that left the buffer, and whether its commit succeeded. */
  datatype Batch<T> = Batch(rows: seq<T>, persisted: bool)

  /** The receiver, with the record of everything that happened to it. */
  datatype Receiver<T> = Receiver(
    buffer: seq<T>, dropped: nat, phase: Phase<T>,
    accepted: seq<T>, batches: seq<Batch<T>>, rejected: nat, logged: nat)

  /** How a flush ended: before its commit, after it, or after it in the alerts on its rows. */
  datatype Outcome = NotStored | Stored | AlertRaised

  /** A datagram carries a row, or nothing worth keeping. */
  datatype Event<T> = Datagram(row: Option<T>) | Wake | Take | Finish(outcome: Outcome)

  function Fresh<T>(): Receiver<T> {
    Receiver([], 0, Asleep, [], [], 0, 0)
  }

  function Arrive<T>(r: Receiver<T>, row: Option<T>): Receiver<T> {
    if |r.buffer| >= BUFFER_HARD_CAP then r.(dropped := r.dropped + 1, rejected := r.rejected + 1)
    else match row
      case None => r
      case Some(x) => r.(buffer := r.buffer + [x], accepted := r.accepted + [x])
  }

  /** The head of the loop: take the next batch, or report drops and go back to sleep. */
  function TakeNext<T>(r: Receiver<T>): Receiver<T> {
    if r.buffer == [] then r.(phase := Asleep, logged := r.logged + r.dropped, dropped := 0)
    else
      var n := Min(|r.buffer|, FLUSH_MAX_ROWS * 2);
      r.(phase := Committing(r.buffer[..n]), buffer := r.buffer[n..])
  }

  function Handle<T>(r: Receiver<T>, e: Event<T>): Receiver<T> {
    match e
    case Datagram(row) => Arrive(r, row)
    case Wake => if r.phase.Asleep? && r.buffer != [] then r.(phase := Draining) else r
    case Take => if r.phase.Draining? then TakeNext(r) else r
    case Finish(outcome) =>
      if r.phase.Committing? then
        r.(phase := if outcome == Stored then Draining else Asleep,
           batches := r.batches + [Batch(r.phase.rows, outcome != NotStored)])
      else r
  }

  function HandleAll<T>(r: Receiver<T>, es: seq<Event<T>>): Receiver<T> {
    if es == [] then r else Handle(HandleAll(r, es[..|es| - 1]), es[|es| - 1])
  }

  /** All rows that left the buffer in finished batches, in order. */
  function Taken<T>(batches: seq<Batch<T>>): seq<T> {
    if batches == [] then [] else Taken(batches[..|batches| - 1]) + batches[|batches| - 1].rows
  }

  function InFlight<T>(p: Phase<T>): seq<T> {
    if p.Committing? then p.rows else []
  }

  ghost predicate BatchesBounded<T>(batches: seq<Batch<T>>) {
    forall i :: 0 <= i < |batches| ==> 0 < |batches[i].rows| <= FLUSH_MAX_ROWS * 2
  }

  ghost predicate Conserved<T>(r: Receiver<T>) {
    && r.accepted == Taken(r.batches) + InFlight(r.phase) + r.buffer
    && |r.buffer| <= BUFFER_HARD_CAP
    && r.rejected == r.logged + r.dropped
    && BatchesBounded(r.batches)
    && (r.phase.Committing? ==> 0 < |r.phase.rows| <= FLUSH_MAX_ROWS * 2)
  }

  lemma ArriveConserves<T>(r: Receiver<T>, row: Option<T>)
    requires Conserved(r)
    ensures Conserved(Arrive(r, row))
  {
    hide BatchesBounded, Taken, InFlight;
    if row.Some? {
      var gone := Taken(r.batches) + InFlight(r.phase);
      assert gone + r.buffer + [row.value] == gone + (r.buffer + [row.value]);
    }
  }

  lemma TakeConserves<T>(r: Receiver<T>)
    requires Conserved(r) && r.phase.Draining?
    ensures Conserved(TakeNext(r))
  {
    hide BatchesBounded, Taken;
    if r.buffer != [] {
      var n := Min(|r.buffer|, FLUSH_MAX_ROWS * 2);
      var done := Taken(r.batches);
      assert done + [] == done && r.buffer == r.buffer[..n] + r.buffer[n..];
      assert done + r.buffer[..n] + r.buffer[n..] == done + (r.buffer[..n] + r.buffer[n..]);
    }
  }

  lemma TakenAppend<T>(batches: seq<Batch<T>>, b: Batch<T>)
    ensures Taken(batches + [b]) == Taken(batches) + b.rows
  {
    assert (batches + [b])[..|batches|] == batches;
  }

  lemma BoundedAppend<T>(batches: seq<Batch<T>>, b: Batch<T>)
    requires BatchesBounded(batches) && 0 < |b.rows| <= FLUSH_MAX_ROWS * 2
    ensures BatchesBounded(batches + [b])
  {
  }

  lemma FinishConserves<T>(r: Receiver<T>, outcome: Outcome)
    requires Conserved(r) && r.phase.Committing?
    ensures Conserved(Handle(r, Finish(outcome)))
  {
    hide Taken, BatchesBounded;
    var b := Batch(r.phase.rows, outcome != NotStored);
    TakenAppend(r.batches, b);
    BoundedAppend(r.batches, b);
    assert Taken(r.batches + [b]) + [] == Taken(r.batches + [b]);
  }

  lemma HandleConserves<T>(r: Receiver<T>, e: Event<T>)
    requires Conserved(r)
    ensures Conserved(Handle(r, e))
  {
    hide Arrive, TakeNext, BatchesBounded, Taken;
    match e {
      case Datagram(row) => ArriveConserves(r, row);
      case Take =>
        if r.phase.Draining? {
          TakeConserves(r);
        }
      case Finish(outcome) =>
        if r.phase.Committing? {
          FinishConserves(r, outcome);
        }
      case Wake =>
    }
  }

  /**
   In every interleaving: the accepted rows are the batches taken, the one being
   committed and the buffer, in order and exactly once; the buffer is bounded; and
   every datagram turned away for space is in a logged count or the live counter.
   */
  lemma {:induction false} RunConserves<T>(es: seq<Event<T>>)
    ensures Conserved(HandleAll(Fresh<T>(), es))
  {
    if es != [] {
      RunConserves(es[..|es| - 1]);
      HandleConserves(HandleAll(Fresh<T>(), es[..|es| - 1]), es[|es| - 1]);
    }
  }

  /** Rows whose batch committed. */
  function Persisted<T>(batches: seq<Batch<T>>): seq<T> {
    if batches == [] then []
    else Persisted(batches[..|batches| - 1])
         + if batches[|batches| - 1].persisted then batches[|batches| - 1].rows else []
  }

  /** A drained receiver has persisted exactly what it accepted if and only if no commit failed. */
  lemma DrainedReceiverLosesNothing<T>(es: seq<Event<T>>)
    requires var r := HandleAll(Fresh<T>(), es); r.buffer == [] && !r.phase.Committing?
    ensures var r := HandleAll(Fresh<T>(), es);
      Persisted(r.batches) == r.accepted <==> forall i :: 0 <= i < |r.batches| ==> r.batches[i].persisted
  {
    RunConserves(es);
    var r := HandleAll(Fresh<T>(), es);
    hide HandleAll, Persisted, Taken;
    assert Taken(r.batches) + [] + [] == Taken(r.batches);
    PersistedIff(r.batches);
  }

  lemma {:induction false} PersistedIff<T>(batches: seq<Batch<T>>)
    requires BatchesBounded(batches)
    ensures |Persisted(batches)| <= |Taken(batches)|
    ensures Persisted(batches) == Taken(batches) <==> forall i :: 0 <= i < |batches| ==> batches[i].persisted
  {
    if batches != [] {
      var init, last := batches[..|batches| - 1], batches[|batches| - 1];
      PersistedIff(init);
      assert 0 < |last.rows|;
      assert Taken(batches)[..|Taken(init)|] == Taken(init);
      if last.persisted && Persisted(batches) == Taken(batches) {
        assert |Persisted(init)| == |Taken(init)|;
        assert Persisted(batches)[..|Persisted(init)|] == Persisted(init);
      }
      assert forall i :: 0 <= i < |init| ==> init[i] == batches[i];
    }
  }

  // ---- What is turned away ----

  /** What the datagrams brought, in order. */
  function Offered<T>(es: seq<Event<T>>): seq<T> {
    if es == [] then []
    else
      var e := es[|es| - 1];
      Offered(es[..|es| - 1]) + if e.Datagram? && e.row.Some? then [e.row.value] else []
  }

  /** Some datagram found 10000 rows in the buffer. */
  ghost predicate EverFull<T>(es: seq<Event<T>>) {
    es != [] &&
    var init, e := es[..|es| - 1], es[|es| - 1];
    EverFull(init) || (e.Datagram? && |HandleAll(Fresh<T>(), init).buffer| >= 10000)
  }

  /** A datagram is turned away only by 10000 rows in the buffer; until then every row is accepted, in order. */
  lemma {:induction false} TurnedAwayIffFull<T>(es: seq<Event<T>>)
    ensures var r := HandleAll(Fresh<T>(), es);
      && (r.rejected > 0 <==> EverFull(es))
      && (!EverFull(es) ==> r.accepted == Offered(es))
  {
    if es != [] {
      TurnedAwayIffFull(es[..|es| - 1]);
    }
  }

  /** The loop: it wakes for rows only, sleeps on an empty buffer, and a flush that fails or raises ends the drain. */
  lemma PhasesFollow<T>(r: Receiver<T>, e: Event<T>)
    ensures var p, q := r.phase, Handle(r, e).phase;
      && (q.Draining? <==>
            (p.Asleep? && e.Wake? && r.buffer != []) || (p.Committing? && e == Finish(Stored))
            || (p.Draining? && !e.Take?))
      && (q.Committing? <==> (p.Draining? && e.Take? && r.buffer != []) || (p.Committing? && !e.Finish?))
      && (p.Draining? && q.Asleep? ==>
            Handle(r, e) == r.(phase := Asleep, logged := r.logged + r.dropped, dropped := 0))
  {
  }

  // ---- A drain gets through ----

  /** The datagrams that arrive while a batch commits, and then before the next one is taken. */
  datatype Round<T> = Round(during: seq<Option<T>>, after: seq<Option<T>>)

  function Datagrams<T>(rows: seq<Option<T>>): seq<Event<T>> {
    seq(|rows|, i requires 0 <= i < |rows| => Datagram(rows[i]))
  }

  /** One pass of the flush loop whose commit succeeds. */
  function RoundEvents<T>(round: Round<T>): seq<Event<T>> {
    [Take] + Datagrams(round.during) + [Finish(Stored)] + Datagrams(round.after)
  }

  function AllRounds<T>(rounds: seq<Round<T>>): seq<Event<T>> {
    if rounds == [] then [] else AllRounds(rounds[..|rounds| - 1]) + RoundEvents(rounds[|rounds| - 1])
  }

  lemma {:induction false} HandleConcat<T>(r: Receiver<T>, a: seq<Event<T>>, b: seq<Event<T>>)
    ensures HandleAll(r, a + b) == HandleAll(HandleAll(r, a), b)
  {
    if b == [] {
      assert a + b == a;
    } else {
      assert (a + b)[..|a + b| - 1] == a + b[..|b| - 1];
      HandleConcat(r, a, b[..|b| - 1]);
    }
  }

  lemma HandleOne<T>(r: Receiver<T>, e: Event<T>)
    ensures HandleAll(r, [e]) == Handle(r, e)
  {
    assert [e][..0] == [] && HandleAll(r, []) == r;
  }

  lemma HandleNothing<T>(r: Receiver<T>)
    ensures HandleAll(r, []) == r
  {
  }

  /** Datagrams change neither the phase nor the batches; the buffer only grows, and not at all without any. */
  lemma {:induction false} ArrivalsOnlyAppend<T>(r: Receiver<T>, rows: seq<Option<T>>)
    ensures var s := HandleAll(r, Datagrams(rows));
      s.phase == r.phase && s.batches == r.batches && r.buffer <= s.buffer && (rows == [] ==> s == r)
  {
    if rows != [] {
      var init := rows[..|rows| - 1];
      ArrivalsOnlyAppend(r, init);
      assert Datagrams(rows)[..|rows| - 1] == Datagrams(init);
    }
  }

  lemma RoundInParts<T>(r: Receiver<T>, round: Round<T>)
    ensures HandleAll(r, RoundEvents(round)) ==
      HandleAll(Handle(HandleAll(Handle(r, Take), Datagrams(round.during)), Finish(Stored)), Datagrams(round.after))
  {
    hide HandleAll, Handle, Datagrams;
    HandleConcat(r, [Take] + Datagrams(round.during) + [Finish(Stored)], Datagrams(round.after));
    HandleConcat(r, [Take] + Datagrams(round.during), [Finish(Stored)]);
    HandleConcat(r, [Take], Datagrams(round.during));
    HandleOne(r, Take);
    HandleOne(HandleAll(Handle(r, Take), Datagrams(round.during)), Finish(Stored));
  }

  /** A round stores the oldest 400 rows, or all there are, as one batch. */
  lemma RoundStores<T>(r: Receiver<T>, round: Round<T>)
    requires r.phase.Draining? && r.buffer != []
    ensures var s, n := HandleAll(r, RoundEvents(round)), if |r.buffer| <= 400 then |r.buffer| else 400;
      && s.phase.Draining? && s.batches == r.batches + [Batch(r.buffer[..n], true)]
      && r.buffer[n..] <= s.buffer
      && (round == Round([], []) ==> s.buffer == r.buffer[n..] && s.dropped == r.dropped && s.logged == r.logged)
  {
    hide HandleAll, Datagrams, RoundEvents;
    RoundInParts(r, round);
    var taken := Handle(r, Take);
    ArrivalsOnlyAppend(taken, round.during);
    var stored := Handle(HandleAll(taken, Datagrams(round.during)), Finish(Stored));
    ArrivalsOnlyAppend(stored, round.after);
  }

  lemma PersistedAppend<T>(batches: seq<Batch<T>>, rows: seq<T>)
    ensures Persisted(batches + [Batch(rows, true)]) == Persisted(batches) + rows
  {
    assert (batches + [Batch(rows, true)])[..|batches|] == batches;
  }

  /** Nothing arrives. */
  ghost predicate Quiet<T>(rounds: seq<Round<T>>) {
    forall k :: 0 <= k < |rounds| ==> rounds[k] == Round([], [])
  }

  lemma QuietRounds<T>(rounds: seq<Round<T>>)
    requires rounds != []
    ensures Quiet(rounds) ==> Quiet(rounds[..|rounds| - 1]) && rounds[|rounds| - 1] == Round([], [])
  {
  }

  /**
   After k rounds the oldest 400 * k rows of the buffer are stored, in order, whatever
   arrived meanwhile; the rest still stand at its head.
   */
  lemma {:induction false} RoundsStore<T>(r: Receiver<T>, rounds: seq<Round<T>>)
    requires r.phase.Draining? && 400 * |rounds| < |r.buffer| + 400
    ensures var s, n := HandleAll(r, AllRounds(rounds)), Min(|r.buffer|, 400 * |rounds|);
      && s.phase.Draining? && |s.batches| == |r.batches| + |rounds|
      && Persisted(r.batches) + r.buffer[..n] <= Persisted(s.batches) && r.buffer[n..] <= s.buffer
      && (400 * |rounds| <= |r.buffer| || Quiet(rounds) ==>
            Persisted(s.batches) == Persisted(r.batches) + r.buffer[..n])
      && (Quiet(rounds) ==> s.buffer == r.buffer[n..] && s.dropped == r.dropped && s.logged == r.logged)
  {
    hide HandleAll, Persisted, RoundEvents, Quiet;
    if rounds == [] {
      HandleNothing(r);
    } else {
      var k := |rounds| - 1;
      RoundsStore(r, rounds[..k]);
      QuietRounds(rounds);
      var s := HandleAll(r, AllRounds(rounds[..k]));
      HandleConcat(r, AllRounds(rounds[..k]), RoundEvents(rounds[k]));
      RoundStores(s, rounds[k]);
      LastRound(Persisted(r.batches), Persisted(s.batches), r.buffer, 400 * k, s.buffer);
      PersistedAppend(s.batches, s.buffer[..Min(|s.buffer|, 400)]);
    }
  }

  lemma LastRound<T>(before: seq<T>, stored: seq<T>, buffer: seq<T>, n: nat, now: seq<T>)
    requires n < |buffer| && buffer[n..] <= now && stored == before + buffer[..n]
    ensures var m, k := Min(|now|, 400), Min(|buffer|, n + 400);
      && before + buffer[..k] <= stored + now[..m]
      && buffer[k..] <= now[m..]
      && (n + 400 <= |buffer| || now == buffer[n..] ==> before + buffer[..k] == stored + now[..m])
      && (now == buffer[n..] ==> now[m..] == buffer[k..])
  {
  }

  /**
   A receiver that wakes up with a row in its buffer stores every row it holds within
   one batch per 400 of them, in order, while datagrams keep arriving; if none do, the
   next look at the buffer puts it back to sleep with its drops logged.
   */
  lemma DrainGetsThrough<T>(r: Receiver<T>, rounds: seq<Round<T>>)
    requires r.phase.Asleep? && r.buffer != [] && 400 * (|rounds| - 1) < |r.buffer| <= 400 * |rounds|
    ensures Persisted(r.batches) + r.buffer
            <= Persisted(HandleAll(r, [Wake] + AllRounds(rounds)).batches)
    ensures Quiet(rounds) ==>
      var s := HandleAll(r, [Wake] + AllRounds(rounds) + [Take]);
      && s.phase == Asleep && s.buffer == [] && Persisted(s.batches) == Persisted(r.batches) + r.buffer
      && s.dropped == 0 && s.logged == r.logged + r.dropped
  {
    var awake := Handle(r, Wake);
    HandleOne(r, Wake);
    hide HandleAll, Persisted, AllRounds;
    HandleConcat(r, [Wake], AllRounds(rounds));
    RoundsStore(awake, rounds);
    assert r.buffer[..|r.buffer|] == r.buffer;
    HandleConcat(r, [Wake] + AllRounds(rounds), [Take]);
    HandleOne(HandleAll(r, [Wake] + AllRounds(rounds)), Take);
  }

  // ---- The running receiver ----

  class Listener<T> {
    var buffer: seq<T>
    var dropped: nat
    var phase: Phase<T>
    ghost var accepted: seq<T>
    ghost var batches: seq<Batch<T>>
    ghost var rejected: nat
    ghost var logged: nat

    constructor ()
      ensures Contents() == Fresh<T>()
    {
      buffer, dropped, phase := [], 0, Asleep;
      accepted, batches, rejected, logged := [], [], 0, 0;
    }

    ghost function Contents(): Receiver<T>
      reads this
    {
      Receiver(buffer, dropped, phase, accepted, batches, rejected, logged)
    }

    method DatagramReceived(row: Option<T>)
      modifies this
      ensures Contents() == Handle(old(Contents()), Datagram(row))
    {
      if |buffer| >= BUFFER_HARD_CAP {
        dropped, rejected := dropped + 1, rejected + 1;
        return;
      }
      if row.None? {
        return;
      }
      buffer, accepted := buffer + [row.value], accepted + [row.value];
    }

    /** The sleep is over; an empty buffer means another sleep. */
    method WakeUp()
      modifies this
      ensures Contents() == Handle(old(Contents()), Wake)
    {
      if phase.Asleep? && buffer != [] {
        phase := Draining;
      }
    }

    /** `while buffer`: the first half of a flush, up to its commit, or the end of the loop. */
    method TakeBatch()
      modifies this
      ensures Contents() == Handle(old(Contents()), Take)
    {
      if !phase.Draining? {
        return;
      }
      if buffer == [] {
        if dropped != 0 {
          logged := logged + dropped;
          dropped := 0;
        }
        phase := Asleep;
        return;
      }
      var n := Min(|buffer|, FLUSH_MAX_ROWS * 2);
      phase, buffer := Committing(buffer[..n]), buffer[n..];
    }

    /** The flush came back; one that raised ends this drain, and loses the batch if it was not stored yet. */
    method FinishFlush(outcome: Outcome)
      modifies this
      ensures Contents() == Handle(old(Contents()), Finish(outcome))
    {
      if phase.Committing? {
        batches := batches + [Batch(phase.rows, outcome != NotStored)];
        phase := if outcome == Stored then Draining else Asleep;
      }
    }
  }
}
