/**
 Status changes on their way to a dashboard: the gateway coalesces them into
 batches, latest change per device, and the client reduces each batch.
 */
module StatusBus {
  import opened Basics
  import opened Devices
  import opened Monitor

  // ---- The client ----

  /** A row of the device list; everything a status change does not touch is in details. */
  datatype Row = Row(id: Id, status: Status, lastCheckedAt: Option<int>, details: string)

  datatype Toast = Down(id: Id) | BackUp(id: Id)

  /** new Map(changes.map(...)): a later entry for the same device wins. */
  function Lookup(changes: seq<Change>, id: Id): Option<Change> {
    if changes == [] then None
    else if changes[|changes| - 1].id == id then Some(changes[|changes| - 1])
    else Lookup(changes[..|changes| - 1], id)
  }

  function ReduceRow(r: Row, changes: seq<Change>): Row {
    match Lookup(changes, r.id)
    case None => r
    case Some(c) => r.(status := c.status, lastCheckedAt := Some(c.at))
  }

  function Reduce(rows: seq<Row>, changes: seq<Change>): seq<Row> {
    seq(|rows|, i requires 0 <= i < |rows| => ReduceRow(rows[i], changes))
  }

  function ReduceFrames(rows: seq<Row>, frames: seq<seq<Change>>): seq<Row> {
    if frames == [] then rows else Reduce(ReduceFrames(rows, frames[..|frames| - 1]), frames[|frames| - 1])
  }

  /** The same list without any coalescing: every change on its own. */
  function ReduceRaw(rows: seq<Row>, changes: seq<Change>): seq<Row> {
    if changes == [] then rows
    else Reduce(ReduceRaw(rows, changes[..|changes| - 1]), [changes[|changes| - 1]])
  }

  function Remember(last: map<Id, Status>, changes: seq<Change>): map<Id, Status> {
    if changes == [] then last
    else Remember(last, changes[..|changes| - 1])[changes[|changes| - 1].id := changes[|changes| - 1].status]
  }

  predicate Listed(rows: seq<Row>, id: Id) {
    exists i :: 0 <= i < |rows| && rows[i].id == id
  }

  function ToastFor(rows: seq<Row>, last: map<Id, Status>, c: Change): seq<Toast> {
    if !Listed(rows, c.id) || c.id !in last || last[c.id] == c.status then []
    else match c.status
      case Offline => [Down(c.id)]
      case Online => [BackUp(c.id)]
      case Unknown => []
  }

  function ToastsOf(rows: seq<Row>, last: map<Id, Status>, changes: seq<Change>): seq<Toast> {
    if changes == [] then []
    else
      var init := changes[..|changes| - 1];
      ToastsOf(rows, last, init) + ToastFor(rows, Remember(last, init), changes[|changes| - 1])
  }

  // ---- The gateway ----

  /** The pending dict in insertion order, and the frames sent so far. */
  datatype Bus = Bus(pending: seq<Change>, frames: seq<seq<Change>>)

  datatype BusOp = Receive(change: Change) | Flush

  function IndexOf(p: seq<Change>, id: Id): (i: nat)
    ensures i <= |p| && (i < |p| ==> p[i].id == id)
    ensures forall j :: 0 <= j < i ==> p[j].id != id
  {
    if p == [] || p[0].id == id then 0 else 1 + IndexOf(p[1..], id)
  }

  /** pending[c.id] = c: an existing key keeps its place. */
  function SetEntry(p: seq<Change>, c: Change): seq<Change> {
    var i := IndexOf(p, c.id);
    if i < |p| then p[i := c] else p + [c]
  }

  function BusStep(b: Bus, op: BusOp): Bus {
    match op
    case Receive(c) => b.(pending := SetEntry(b.pending, c))
    case Flush => if b.pending == [] then b else Bus([], b.frames + [b.pending])
  }

  function BusRun(b: Bus, ops: seq<BusOp>): Bus {
    if ops == [] then b else BusStep(BusRun(b, ops[..|ops| - 1]), ops[|ops| - 1])
  }

  function Received(ops: seq<BusOp>): seq<Change> {
    if ops == [] then []
    else Received(ops[..|ops| - 1])
         + match ops[|ops| - 1] { case Receive(c) => [c] case Flush => [] }
  }

  /** At most one change per device. */
  ghost predicate OnePerDevice(changes: seq<Change>) {
    forall i, j :: 0 <= i < j < |changes| ==> changes[i].id != changes[j].id
  }

  ghost predicate ProperFrames(frames: seq<seq<Change>>) {
    forall k :: 0 <= k < |frames| ==> frames[k] != [] && OnePerDevice(frames[k])
  }

  // ---- Coalescing preserves meaning ----

  lemma {:induction false} LookupAt(p: seq<Change>, i: nat)
    requires OnePerDevice(p) && i < |p|
    ensures Lookup(p, p[i].id) == Some(p[i])
  {
    if i < |p| - 1 {
      LookupAt(p[..|p| - 1], i);
    }
  }

  lemma {:induction false} LookupAbsent(p: seq<Change>, id: Id)
    ensures Lookup(p, id).None? <==> forall i :: 0 <= i < |p| ==> p[i].id != id
  {
    if p != [] {
      LookupAbsent(p[..|p| - 1], id);
    }
  }

  lemma SetEntryKeepsOnePerDevice(p: seq<Change>, c: Change)
    requires OnePerDevice(p)
    ensures OnePerDevice(SetEntry(p, c))
  {
  }

  lemma LookupSetEntry(p: seq<Change>, c: Change, id: Id)
    requires OnePerDevice(p)
    ensures Lookup(SetEntry(p, c), id) == if id == c.id then Some(c) else Lookup(p, id)
  {
    SetEntryKeepsOnePerDevice(p, c);
    var q, i := SetEntry(p, c), IndexOf(p, c.id);
    if id == c.id {
      LookupAt(q, i);
    } else {
      LookupAbsent(p, id);
      LookupAbsent(q, id);
      if j :| 0 <= j < |p| && p[j].id == id {
        LookupAt(p, j);
        LookupAt(q, j);
      } else {
        assert forall j :: 0 <= j < |q| ==> q[j].id != id;
      }
    }
  }

  lemma ReduceSetEntry(rows: seq<Row>, p: seq<Change>, c: Change)
    requires OnePerDevice(p)
    ensures Reduce(rows, SetEntry(p, c)) == Reduce(Reduce(rows, p), [c])
  {
    forall i | 0 <= i < |rows|
      ensures ReduceRow(rows[i], SetEntry(p, c)) == ReduceRow(ReduceRow(rows[i], p), [c])
    {
      LookupSetEntry(p, c, rows[i].id);
      assert Lookup([c], rows[i].id) == if rows[i].id == c.id then Some(c) else Lookup([c][..0], rows[i].id);
    }
  }

  /** What the gateway received since it last flushed. */
  function SinceFlush(ops: seq<BusOp>): seq<Change> {
    if ops == [] || ops[|ops| - 1].Flush? then []
    else SinceFlush(ops[..|ops| - 1]) + [ops[|ops| - 1].change]
  }

  /** The window holds, for each device, the latest change received since the last flush, and nothing older. */
  lemma {:induction false} PendingIsSinceFlush(ops: seq<BusOp>, id: Id)
    ensures Lookup(BusRun(Bus([], []), ops).pending, id) == Lookup(SinceFlush(ops), id)
  {
    if ops != [] {
      var init, op := ops[..|ops| - 1], ops[|ops| - 1];
      PendingIsSinceFlush(init, id);
      FramesAreProper(init);
      if op.Receive? {
        LookupSetEntry(BusRun(Bus([], []), init).pending, op.change, id);
        assert SinceFlush(ops)[..|SinceFlush(init)|] == SinceFlush(init);
      }
    }
  }

  /** A flush sends them as one frame, if there are any. */
  lemma FlushSendsWindow(ops: seq<BusOp>)
    ensures var b, b' := BusRun(Bus([], []), ops), BusRun(Bus([], []), ops + [Flush]);
      && (b.pending == [] <==> SinceFlush(ops) == [])
      && b'.frames == b.frames + (if SinceFlush(ops) == [] then [] else [b.pending]) && b'.pending == []
  {
    assert (ops + [Flush])[..|ops|] == ops;
    WindowIsEmpty(ops);
  }

  lemma {:induction false} WindowIsEmpty(ops: seq<BusOp>)
    ensures BusRun(Bus([], []), ops).pending == [] <==> SinceFlush(ops) == []
  {
    if ops != [] {
      WindowIsEmpty(ops[..|ops| - 1]);
    }
  }

  lemma ReduceNothing(rows: seq<Row>)
    ensures Reduce(rows, []) == rows
  {
  }

  /** What a dashboard would show if everything the gateway holds were flushed now. */
  function Meaning(rows: seq<Row>, b: Bus): seq<Row> {
    Reduce(ReduceFrames(rows, b.frames), b.pending)
  }

  lemma StepMeaning(rows: seq<Row>, b: Bus, op: BusOp)
    requires OnePerDevice(b.pending)
    ensures Meaning(rows, BusStep(b, op)) ==
      match op { case Receive(c) => Reduce(Meaning(rows, b), [c]) case Flush => Meaning(rows, b) }
  {
    match op {
      case Receive(c) => ReduceSetEntry(ReduceFrames(rows, b.frames), b.pending, c);
      case Flush =>
        if b.pending != [] {
          assert (b.frames + [b.pending])[..|b.frames|] == b.frames;
          ReduceNothing(ReduceFrames(rows, b.frames + [b.pending]));
        }
    }
  }

  /** Frames are never empty and name a device at most once. */
  lemma {:induction false} FramesAreProper(ops: seq<BusOp>)
    ensures var b := BusRun(Bus([], []), ops);
      OnePerDevice(b.pending) && ProperFrames(b.frames)
  {
    if ops != [] {
      FramesAreProper(ops[..|ops| - 1]);
      if ops[|ops| - 1].Receive? {
        SetEntryKeepsOnePerDevice(BusRun(Bus([], []), ops[..|ops| - 1]).pending, ops[|ops| - 1].change);
      }
    }
  }

  /**
   For every interleaving of receives and flushes: the frames sent, and then what
   is pending, give the dashboard the list every single change would have given.
   */
  lemma {:induction false} CoalescingPreservesMeaning(rows: seq<Row>, ops: seq<BusOp>)
    ensures Meaning(rows, BusRun(Bus([], []), ops)) == ReduceRaw(rows, Received(ops))
  {
    if ops == [] {
      ReduceNothing(rows);
    } else {
      var init, op := ops[..|ops| - 1], ops[|ops| - 1];
      CoalescingPreservesMeaning(rows, init);
      FramesAreProper(init);
      hide Meaning, Reduce, BusStep;
      StepMeaning(rows, BusRun(Bus([], []), init), op);
      assert op.Receive? ==> Received(ops)[..|Received(init)|] == Received(init);
      assert op.Flush? ==> Received(ops) == Received(init);
    }
  }

  /** Change k is the last one about this device. */
  predicate IsLatest(changes: seq<Change>, k: int, id: Id) {
    && 0 <= k < |changes| && changes[k].id == id
    && forall j :: k < j < |changes| ==> changes[j].id != id
  }

  lemma ReduceOne(r: Row, c: Change)
    ensures ReduceRow(r, [c]) == if c.id == r.id then Row(r.id, c.status, Some(c.at), r.details) else r
  {
    assert [c][|[c]| - 1] == c && [c][..|[c]| - 1] == [];
    assert Lookup([], r.id) == None;
  }

  lemma LastChange(rows: seq<Row>, changes: seq<Change>, i: nat)
    requires changes != []
    ensures var init, c := changes[..|changes| - 1], changes[|changes| - 1];
      var before, after := ReduceRaw(rows, init), ReduceRaw(rows, changes);
      && |after| == |before|
      && (i < |before| ==>
            var r := before[i];
            after[i] == if c.id == r.id then Row(r.id, c.status, Some(c.at), r.details) else r)
  {
    hide ReduceRow;
    var before := ReduceRaw(rows, changes[..|changes| - 1]);
    if i < |before| {
      ReduceOne(before[i], changes[|changes| - 1]);
    }
  }

  lemma LatestBefore(changes: seq<Change>, id: Id)
    ensures var n := |changes| - 1;
      forall k :: IsLatest(changes, k, id) ==>
        && 0 <= k <= n
        && if changes[n].id == id then k == n else IsLatest(changes[..n], k, id) && changes[..n][k] == changes[k]
  {
  }

  /** A list fed every change shows in each row the latest one about its device, and nothing else changes. */
  lemma {:induction false} RowShowsLatest(rows: seq<Row>, changes: seq<Change>, i: nat)
    requires i < |rows|
    ensures var after, id := ReduceRaw(rows, changes), rows[i].id;
      && |after| == |rows| && after[i].id == id && after[i].details == rows[i].details
      && ((forall k :: 0 <= k < |changes| ==> changes[k].id != id) ==> after[i] == rows[i])
      && (forall k :: IsLatest(changes, k, id) ==>
            after[i].status == changes[k].status && after[i].lastCheckedAt == Some(changes[k].at))
  {
    hide Reduce, ReduceRow, Lookup, IsLatest;
    LatestBefore(changes, rows[i].id);
    if changes != [] {
      RowShowsLatest(rows, changes[..|changes| - 1], i);
      LastChange(rows, changes, i);
    }
  }

  lemma {:induction false} RememberLookup(last: map<Id, Status>, changes: seq<Change>, id: Id)
    ensures var m := Remember(last, changes);
      match Lookup(changes, id)
      case Some(c) => id in m && m[id] == c.status
      case None => (id in m <==> id in last) && (id in last ==> m[id] == last[id])
  {
    if changes != [] {
      RememberLookup(last, changes[..|changes| - 1], id);
    }
  }

  /** A batch shows a toast exactly for the devices whose status is news. */
  lemma {:induction false} ToastIffNews(rows: seq<Row>, last: map<Id, Status>, frame: seq<Change>, id: Id)
    requires OnePerDevice(frame)
    ensures var c, toasts := Lookup(frame, id), ToastsOf(rows, last, frame);
      && (Down(id) in toasts <==>
            c.Some? && c.value.status == Offline && Listed(rows, id) && id in last && last[id] != Offline)
      && (BackUp(id) in toasts <==>
            c.Some? && c.value.status == Online && Listed(rows, id) && id in last && last[id] != Online)
  {
    if frame != [] {
      var init, c := frame[..|frame| - 1], frame[|frame| - 1];
      ToastIffNews(rows, last, init, id);
      RememberLookup(last, init, c.id);
      LookupAbsent(init, c.id);
    }
  }

  lemma {:induction false} RememberTwoFrames(last: map<Id, Status>, a: seq<Change>, b: seq<Change>)
    ensures Remember(last, a + b) == Remember(Remember(last, a), b)
  {
    if b == [] {
      assert a + b == a;
    } else {
      RememberTwoFrames(last, a, b[..|b| - 1]);
      assert (a + b)[..|a + b| - 1] == a + b[..|b| - 1];
    }
  }

  lemma LastToast(rows: seq<Row>, last: map<Id, Status>, changes: seq<Change>)
    requires changes != []
    ensures var init := changes[..|changes| - 1];
      ToastsOf(rows, last, changes)
      == ToastsOf(rows, last, init) + ToastFor(rows, Remember(last, init), changes[|changes| - 1])
  {
    hide ToastFor, Remember;
  }

  /** Cutting a batch in two shows the same toasts. */
  lemma {:induction false} ToastsOfTwoFrames(rows: seq<Row>, last: map<Id, Status>, a: seq<Change>, b: seq<Change>)
    ensures ToastsOf(rows, last, a + b) == ToastsOf(rows, last, a) + ToastsOf(rows, Remember(last, a), b)
    decreases |b|
  {
    hide ToastFor, Remember, ToastsOf;
    if b == [] {
      assert a + b == a;
      NoToasts(rows, Remember(last, a));
    } else {
      var init := b[..|b| - 1];
      ToastsOfTwoFrames(rows, last, a, init);
      RememberTwoFrames(last, a, init);
      assert (a + b)[..|a + b| - 1] == a + init && (a + b)[|a + b| - 1] == b[|b| - 1];
      LastToast(rows, last, a + b);
      LastToast(rows, Remember(last, a), b);
    }
  }

  lemma NoToasts(rows: seq<Row>, last: map<Id, Status>)
    ensures ToastsOf(rows, last, []) == []
  {
  }

  function ToastsAbout(toasts: seq<Toast>, id: Id): nat {
    multiset(toasts)[Down(id)] + multiset(toasts)[BackUp(id)]
  }

  lemma ToastsAddUp(a: seq<Toast>, b: seq<Toast>, id: Id)
    ensures ToastsAbout(a + b, id) == ToastsAbout(a, id) + ToastsAbout(b, id)
    ensures ToastsAbout(a, id) == 0 <==> Down(id) !in a && BackUp(id) !in a
  {
  }

  lemma OneToastForAChange(rows: seq<Row>, last: map<Id, Status>, c: Change, id: Id)
    ensures ToastsAbout(ToastFor(rows, last, c), id) <= if c.id == id then 1 else 0
  {
    hide Listed;
  }

  /** And at most one toast for each of them. */
  lemma {:induction false} OneToastPerDevice(rows: seq<Row>, last: map<Id, Status>, frame: seq<Change>, id: Id)
    requires OnePerDevice(frame)
    ensures ToastsAbout(ToastsOf(rows, last, frame), id) <= 1
  {
    if frame != [] {
      var init, c := frame[..|frame| - 1], frame[|frame| - 1];
      var earlier, more := ToastsOf(rows, last, init), ToastFor(rows, Remember(last, init), c);
      OneToastPerDevice(rows, last, init, id);
      ToastIffNews(rows, last, init, id);
      LookupAbsent(init, id);
      OneToastForAChange(rows, Remember(last, init), c, id);
      ToastsAddUp(earlier, more, id);
      hide Lookup, Listed, Remember, ToastFor, ToastsAbout;
    }
  }

  // ---- From the database to the screen ----

  lemma OtherStepsPublishNothing(cfg: Settings, s: State, op: Op)
    requires !op.Check? && !op.Simulate?
    ensures Step(cfg, s, op).published == s.published
    ensures forall id :: id in s.devices && id in Step(cfg, s, op).devices ==>
              Step(cfg, s, op).devices[id].status == s.devices[id].status
  {
    hide AfterAlertCycle, ParentVerdict, TakenIp, Serialize;
    if op.AlertCycle? {
      CycleKeepsShape(cfg, s, op.at);
    }
  }

  /** Every status change is published once, and nothing else is. */
  lemma StepPublishes(cfg: Settings, s: State, op: Op) returns (more: seq<Change>)
    ensures Step(cfg, s, op).published == s.published + more && |more| <= 1
    ensures forall id :: id in s.devices && id in Step(cfg, s, op).devices ==>
              Step(cfg, s, op).devices[id].status ==
                if more != [] && more[0].id == id then more[0].status else s.devices[id].status
    ensures more != [] ==> more[0].id in s.devices && more[0].status != s.devices[more[0].id].status
    ensures more != [] ==> more[0].id in Step(cfg, s, op).devices
                           && Step(cfg, s, op).devices[more[0].id].lastCheckedAt == Some(more[0].at)
  {
    if op.Check? || op.Simulate? {
      hide Serialize, EdgeEvent, StatusAfterCheck;
      more := Step(cfg, s, op).published[|s.published|..];
    } else {
      hide Step;
      OtherStepsPublishNothing(cfg, s, op);
      more := [];
    }
  }

  /** The rows show the statuses of the devices in ids. */
  ghost predicate Shows(rows: seq<Row>, devices: map<Id, Device>, ids: set<Id>) {
    forall i :: 0 <= i < |rows| && rows[i].id in ids && rows[i].id in devices ==>
      rows[i].status == devices[rows[i].id].status
  }

  /** The devices that are in the table in every state of the run. */
  ghost function Lasting(cfg: Settings, s: State, ops: seq<Op>): set<Id> {
    if ops == [] then s.devices.Keys
    else Lasting(cfg, s, ops[..|ops| - 1]) * Run(cfg, s, ops).devices.Keys
  }

  lemma {:induction false} LastingAtEnd(cfg: Settings, s: State, ops: seq<Op>)
    ensures Lasting(cfg, s, ops) <= Run(cfg, s, ops).devices.Keys
  {
  }

  lemma ReduceOneShows(rows: seq<Row>, before: map<Id, Device>, after: map<Id, Device>, ids: set<Id>, c: Change)
    requires ids <= before.Keys && ids <= after.Keys && Shows(rows, before, ids)
    requires forall id :: id in ids ==> after[id].status == if c.id == id then c.status else before[id].status
    ensures Shows(Reduce(rows, [c]), after, ids)
  {
    forall i | 0 <= i < |rows|
      ensures Lookup([c], rows[i].id) == if rows[i].id == c.id then Some(c) else None
    {
      assert [c][..0] == [];
    }
  }

  /** A list that was right stays right when every published change is applied to it. */
  lemma {:induction false} PublishedChangesSuffice(cfg: Settings, s: State, ops: seq<Op>, rows: seq<Row>)
    returns (news: seq<Change>)
    requires Shows(rows, s.devices, s.devices.Keys)
    ensures Run(cfg, s, ops).published == s.published + news
    ensures Shows(ReduceRaw(rows, news), Run(cfg, s, ops).devices, Lasting(cfg, s, ops))
  {
    if ops == [] {
      news := [];
    } else {
      var init := ops[..|ops| - 1];
      news := PublishedChangesSuffice(cfg, s, init, rows);
      LastingAtEnd(cfg, s, init);
      LastingAtEnd(cfg, s, ops);
      var t, t', ids := Run(cfg, s, init), Run(cfg, s, ops), Lasting(cfg, s, ops);
      var more := StepPublishes(cfg, t, ops[|ops| - 1]);
      hide Step;
      if more != [] {
        ReduceOneShows(ReduceRaw(rows, news), t.devices, t'.devices, ids, more[0]);
        assert (news + more)[..|news|] == news && more == [more[0]];
      } else {
        assert news + more == news;
      }
      news := news + more;
    }
  }

  /**
   End to end: a dashboard seeded with a right list, fed the frames of a gateway
   that received everything published since, shows the database's statuses once
   what is pending is flushed.
   */
  lemma DashboardFollows(cfg: Settings, s: State, ops: seq<Op>, rows: seq<Row>, bus: seq<BusOp>)
    requires Shows(rows, s.devices, s.devices.Keys)
    requires Run(cfg, s, ops).published == s.published + Received(bus)
    ensures Shows(Meaning(rows, BusRun(Bus([], []), bus)), Run(cfg, s, ops).devices, Lasting(cfg, s, ops))
  {
    var news := PublishedChangesSuffice(cfg, s, ops, rows);
    assert (s.published + news)[|s.published|..] == news;
    assert (s.published + Received(bus))[|s.published|..] == Received(bus);
    CoalescingPreservesMeaning(rows, bus);
  }

  // ---- The running gateway and dashboard ----

  /** The values of a dict whose keys were inserted in this order. */
  function ValuesOf(keys: seq<Id>, pending: map<Id, Change>): seq<Change>
    requires forall id :: id in keys ==> id in pending
  {
    seq(|keys|, i requires 0 <= i < |keys| => pending[keys[i]])
  }

  ghost predicate KeysInOrder(keys: seq<Id>, pending: map<Id, Change>) {
    && Distinct(keys)
    && (forall id :: id in keys <==> id in pending)
    && (forall id :: id in pending ==> pending[id].id == id)
  }

  lemma OverwriteEntry(keys: seq<Id>, pending: map<Id, Change>, c: Change)
    requires KeysInOrder(keys, pending) && c.id in pending
    ensures KeysInOrder(keys, pending[c.id := c])
    ensures ValuesOf(keys, pending[c.id := c]) == SetEntry(ValuesOf(keys, pending), c)
  {
    hide IndexOf;
    var values, k := ValuesOf(keys, pending), IndexOf(ValuesOf(keys, pending), c.id);
    var j :| 0 <= j < |keys| && keys[j] == c.id;
    assert values[j].id == c.id && k <= j;
    assert values[k].id == keys[k];
  }

  lemma InsertEntry(keys: seq<Id>, pending: map<Id, Change>, c: Change)
    requires KeysInOrder(keys, pending) && c.id !in pending
    ensures KeysInOrder(keys + [c.id], pending[c.id := c])
    ensures ValuesOf(keys + [c.id], pending[c.id := c]) == SetEntry(ValuesOf(keys, pending), c)
  {
    hide IndexOf;
    var values, k := ValuesOf(keys, pending), IndexOf(ValuesOf(keys, pending), c.id);
    assert forall i :: 0 <= i < |keys| ==> values[i].id == keys[i] && keys[i] in keys;
    assert k == |keys|;
  }

  class Gateway {
    var keys: seq<Id>
    var pending: map<Id, Change>
    var frames: seq<seq<Change>>

    constructor ()
      ensures Valid() && Contents() == Bus([], [])
    {
      keys, pending, frames := [], map[], [];
    }

    /** keys lists the dict's keys in insertion order. */
    ghost predicate Valid()
      reads this
    {
      KeysInOrder(keys, pending)
    }

    ghost function Contents(): Bus
      requires Valid()
      reads this
    {
      Bus(ValuesOf(keys, pending), frames)
    }

    /** A message arrives: latest wins per device. */
    method OnMessage(c: Change)
      requires Valid()
      modifies this
      ensures Valid() && Contents() == BusStep(old(Contents()), Receive(c))
    {
      if c.id !in pending {
        InsertEntry(keys, pending, c);
        keys := keys + [c.id];
      } else {
        OverwriteEntry(keys, pending, c);
      }
      pending := pending[c.id := c];
    }

    /** The flusher wakes up; an empty window sends nothing. */
    method FlushPending()
      requires Valid()
      modifies this
      ensures Valid() && Contents() == BusStep(old(Contents()), Flush)
    {
      assert keys == [] || keys[0] in keys;
      if pending == map[] {
        return;
      }
      frames := frames + [ValuesOf(keys, pending)];
      keys, pending := [], map[];
    }
  }

  class Dashboard {
    var rows: seq<Row>
    var lastStatus: map<Id, Status>
    var toasts: seq<Toast>

    /** One frame: toasts against the last known statuses, then one update of the list. */
    method HandleWs(changes: seq<Change>)
      modifies this
      ensures rows == Reduce(old(rows), changes)
      ensures lastStatus == Remember(old(lastStatus), changes)
      ensures toasts == old(toasts) + ToastsOf(old(rows), old(lastStatus), changes)
    {
      if |changes| == 0 {
        ReduceNothing(rows);
        return;
      }
      NoteTransitions(changes);
      rows := seq(|rows|, i requires 0 <= i < |rows| reads this => ReduceRow(rows[i], changes));
    }

    method NoteTransitions(changes: seq<Change>)
      modifies this`lastStatus, this`toasts
      ensures lastStatus == Remember(old(lastStatus), changes)
      ensures toasts == old(toasts) + ToastsOf(rows, old(lastStatus), changes)
    {
      hide Listed;
      for i := 0 to |changes|
        invariant lastStatus == Remember(old(lastStatus), changes[..i])
        invariant toasts == old(toasts) + ToastsOf(rows, old(lastStatus), changes[..i])
      {
        var c := changes[i];
        assert changes[..i + 1][..i] == changes[..i];
        var known := c.id in lastStatus;
        var prevStatus := if known then lastStatus[c.id] else Unknown;
        lastStatus := lastStatus[c.id := c.status];
        if Listed(rows, c.id) && known && prevStatus != c.status {
          if c.status == Offline {
            toasts := toasts + [Down(c.id)];
          } else if c.status == Online {
            toasts := toasts + [BackUp(c.id)];
          }
        }
      }
      assert changes[..|changes|] == changes;
    }
  }
}
