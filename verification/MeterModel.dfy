/**
 Usage metering (tunnel/server/metering.go) together with the lossy link and the
 deduplicating control plane, as steps over one state, and the books every run keeps.
 */
module MeterModel {
  import opened Totals

  type Account = string

  datatype Delta = Delta(bytes: nat, sessions: nat)

  const ZERO := Delta(0, 0)

  type Items = map<Account, Delta>

  /** A drained batch with its stable report id. */
  datatype Report = Report(id: nat, items: Items)

  datatype Metric = Bytes | Sessions

  /**
   The meter (pending, retry, seqNo, and a flush's batches and failed), the environment
   (wire: requests that may still arrive; cp: what the control plane applied, by id), and
   the history the claims are about.
   */
  datatype World = World(
    pending: map<Account, Delta>,
    retry: seq<Report>,
    seqNo: nat,
    batches: seq<Report>,
    failed: seq<Report>,
    wire: set<Report>,
    cp: map<nat, Items>,
    issued: map<nat, Items>,
    dropped: set<nat>,
    recorded: map<Account, Delta>)

  const START := World(map[], [], 0, [], [], {}, map[], map[], {}, map[])

  // ------------------------------------------------------------------------ amounts

  function Lookup(m: map<Account, Delta>, a: Account): Delta {
    if a in m then m[a] else ZERO
  }

  function Amount(d: Delta, metric: Metric): nat {
    if metric == Bytes then d.bytes else d.sessions
  }

  function Plus(x: Delta, y: Delta): Delta {
    Delta(x.bytes + y.bytes, x.sessions + y.sessions)
  }

  /** One account's amount in each batch. */
  function Shares(batches: map<nat, Items>, a: Account, metric: Metric): map<nat, nat> {
    map id | id in batches :: Amount(Lookup(batches[id], a), metric)
  }

  /** The batches among ids. */
  ghost function Only(batches: map<nat, Items>, ids: set<nat>): map<nat, Items> {
    map id | id in batches && id in ids :: batches[id]
  }

  /** One account's amount over the batches among ids. */
  ghost function Owed(batches: map<nat, Items>, ids: set<nat>, a: Account, metric: Metric): nat {
    Total(Shares(Only(batches, ids), a, metric))
  }

  // ---------------------------------------------------------------------- invariants

  /** The queue of a flush in progress, oldest first; between flushes, the retry list. */
  function Queue(w: World): seq<Report> {
    w.retry + w.failed + w.batches
  }

  function Ids(q: seq<Report>): set<nat> {
    set r | r in q :: r.id
  }

  predicate Increasing(q: seq<Report>) {
    forall i, j :: 0 <= i < j < |q| ==> q[i].id < q[j].id
  }

  /** Everything ever recorded is pending or was issued in exactly one batch. */
  ghost predicate Ledger(recorded: map<Account, Delta>, pending: map<Account, Delta>, issued: map<nat, Items>) {
    forall a, metric ::
      Amount(Lookup(recorded, a), metric)
      == Amount(Lookup(pending, a), metric) + Total(Shares(issued, a, metric))
  }

  /** Reports carry what was issued under their ids. */
  ghost predicate Stable(issued: map<nat, Items>, reports: set<Report>) {
    forall r :: r in reports ==> r.id in issued && issued[r.id] == r.items
  }

  /** What the control plane applied was issued. */
  ghost predicate Genuine(issued: map<nat, Items>, cp: map<nat, Items>) {
    forall id :: id in cp ==> id in issued && cp[id] == issued[id]
  }

  /** Ids are handed out in order and never reused. */
  ghost predicate Numbered(issued: map<nat, Items>, seqNo: nat) {
    forall id :: id in issued ==> 1 <= id <= seqNo
  }

  /** The queue is in id order, carries what was issued, and is younger than anything shed. */
  ghost predicate InOrder(q: seq<Report>, issued: map<nat, Items>, dropped: set<nat>) {
    && Increasing(q)
    && Stable(issued, set r | r in q)
    && forall id, r :: id in dropped && r in q ==> id < r.id
  }

  ghost predicate Inv(w: World) {
    && Ledger(w.recorded, w.pending, w.issued)
    && Numbered(w.issued, w.seqNo)
    && InOrder(Queue(w), w.issued, w.dropped)
    && Stable(w.issued, w.wire)
    && Genuine(w.issued, w.cp)
    && w.issued.Keys == w.cp.Keys + Ids(Queue(w)) + w.dropped
  }

  // --------------------------------------------------------------------------- steps

  datatype Event =
    | Record(account: Account, delta: Delta)   // addBytes or addSession
    | Deliver(report: Report)                  // a request arrives, late or twice
    | TakeRetry
    | DrainBatch
    | Ack                                      // the first batch is applied and answered
    | Fail                                     // its response is lost; the request may yet arrive
    | Requeue

  datatype Bounds = Bounds(maxAccounts: nat, maxRetryBatches: nat)

  /** The control plane applies a report id once. */
  function Applied(cp: map<nat, Items>, r: Report): map<nat, Items> {
    if r.id in cp then cp else cp[r.id := r.items]
  }

  function Recorded(w: World, a: Account, d: Delta, maxAccounts: nat): World {
    if a !in w.pending && |w.pending| >= maxAccounts then w
    else w.(pending := w.pending[a := Plus(Lookup(w.pending, a), d)],
            recorded := w.recorded[a := Plus(Lookup(w.recorded, a), d)])
  }

  /**
   Usage in numbers, of an account that can be metered: its bytes and its sessions rise by what
   is recorded, pending and in all, and no other account changes.
   */
  lemma OneRecorded(w: World, a: Account, d: Delta, maxAccounts: nat)
    requires a in w.pending || |w.pending| < maxAccounts
    ensures var t := Recorded(w, a, d, maxAccounts);
            && t.pending.Keys == w.pending.Keys + {a} && t.recorded.Keys == w.recorded.Keys + {a}
            && t.pending[a].bytes == (if a in w.pending then w.pending[a].bytes else 0) + d.bytes
            && t.pending[a].sessions == (if a in w.pending then w.pending[a].sessions else 0) + d.sessions
            && t.recorded[a].bytes == (if a in w.recorded then w.recorded[a].bytes else 0) + d.bytes
            && t.recorded[a].sessions == (if a in w.recorded then w.recorded[a].sessions else 0) + d.sessions
    ensures var t := Recorded(w, a, d, maxAccounts);
            && (forall b :: b != a && b in w.pending ==> b in t.pending && t.pending[b] == w.pending[b])
            && (forall b :: b != a && b in w.recorded ==> b in t.recorded && t.recorded[b] == w.recorded[b])
  {
  }

  function NonZero(pending: map<Account, Delta>): Items {
    map a | a in pending && pending[a] != ZERO :: pending[a]
  }

  function Drained(w: World): World {
    var items := NonZero(w.pending);
    if items == map[] then w.(pending := map[])
    else
      var id := w.seqNo + 1;
      w.(pending := map[], seqNo := id, batches := w.batches + [Report(id, items)], issued := w.issued[id := items])
  }

  /** The reports a requeue sheds: the oldest, down to the bound. */
  function Shed(queue: seq<Report>, max: nat): nat {
    if |queue| > max then |queue| - max else 0
  }

  /** As many are kept as may be, and they are the newest. */
  lemma ShedMeans(queue: seq<Report>, max: nat)
    ensures var kept := queue[Shed(queue, max)..];
            && |kept| == (if |queue| <= max then |queue| else max)
            && forall i :: 0 <= i < |queue| && |queue| - i <= max ==> queue[i] in kept
  {
  }

  function Requeued(w: World, max: nat): World {
    var all := w.retry + w.failed;
    var n := Shed(all, max);
    w.(retry := all[n..], failed := [], dropped := w.dropped + Ids(all[..n]))
  }

  /** Whether an event can happen now. */
  predicate Enabled(w: World, e: Event) {
    match e
    case Record(_, _) => true
    case Deliver(r) => r in w.wire
    case TakeRetry => w.batches == [] && w.failed == []
    case DrainBatch => w.retry == []
    case Ack => w.batches != []
    case Fail => w.batches != []
    case Requeue => w.batches == []
  }

  function Step(w: World, e: Event, b: Bounds): World
    requires Enabled(w, e)
  {
    match e
    case Record(a, d) => Recorded(w, a, d, b.maxAccounts)
    case Deliver(r) => w.(cp := Applied(w.cp, r))
    case TakeRetry => w.(batches := w.retry, retry := [])
    case DrainBatch => Drained(w)
    case Ack => w.(batches := w.batches[1..], cp := Applied(w.cp, w.batches[0]))
    case Fail => w.(batches := w.batches[1..], failed := w.failed + [w.batches[0]], wire := w.wire + {w.batches[0]})
    case Requeue => Requeued(w, b.maxRetryBatches)
  }

  // ------------------------------------------------------------------- preservation

  lemma StepRequeue(w: World, b: Bounds)
    requires Enabled(w, Requeue)
    ensures Step(w, Requeue, b) == Requeued(w, b.maxRetryBatches)
  {
  }

  /** What is pending and what was ever recorded rise by the same. */
  lemma RisesAlike(w: World, a: Account, d: Delta, maxAccounts: nat, b: Account, metric: Metric)
    ensures var t := Recorded(w, a, d, maxAccounts);
            && t.issued == w.issued
            && Amount(Lookup(t.recorded, b), metric) - Amount(Lookup(w.recorded, b), metric)
               == Amount(Lookup(t.pending, b), metric) - Amount(Lookup(w.pending, b), metric)
  {
  }

  lemma RecordLedger(w: World, a: Account, d: Delta, maxAccounts: nat)
    requires Ledger(w.recorded, w.pending, w.issued)
    ensures var t := Recorded(w, a, d, maxAccounts); Ledger(t.recorded, t.pending, t.issued)
  {
    hide Total, Shares, Recorded;
    var t := Recorded(w, a, d, maxAccounts);
    forall b, metric
      ensures Amount(Lookup(t.recorded, b), metric)
              == Amount(Lookup(t.pending, b), metric) + Total(Shares(t.issued, b, metric))
    {
      RisesAlike(w, a, d, maxAccounts, b, metric);
      assert Amount(Lookup(w.recorded, b), metric)
             == Amount(Lookup(w.pending, b), metric) + Total(Shares(w.issued, b, metric));
    }
  }

  lemma RecordKeeps(w: World, a: Account, d: Delta, maxAccounts: nat)
    requires Inv(w)
    ensures Inv(Recorded(w, a, d, maxAccounts))
  {
    hide Ledger, InOrder, Stable, Genuine, Ids, Numbered;
    RecordLedger(w, a, d, maxAccounts);
  }

  lemma DeliverKeeps(w: World, r: Report)
    requires Inv(w) && r in w.wire
    ensures Inv(w.(cp := Applied(w.cp, r)))
  {
    hide Ledger, InOrder, Ids;
  }

  lemma TakeRetryKeeps(w: World)
    requires Inv(w) && w.batches == [] && w.failed == []
    ensures Inv(w.(batches := w.retry, retry := []))
  {
    hide Ledger, InOrder, Stable, Genuine, Ids;
    var t := w.(batches := w.retry, retry := []);
    assert Queue(w) == w.retry && Queue(t) == w.retry;
  }

  lemma SharesMore(issued: map<nat, Items>, id: nat, items: Items, a: Account, metric: Metric)
    requires id !in issued
    ensures Total(Shares(issued[id := items], a, metric)) ==
            Total(Shares(issued, a, metric)) + Amount(Lookup(items, a), metric)
  {
    hide Total;
    assert Shares(issued[id := items], a, metric) == Shares(issued, a, metric)[id := Amount(Lookup(items, a), metric)];
    TotalAdd(Shares(issued, a, metric), id, Amount(Lookup(items, a), metric));
  }

  lemma DrainLedger(w: World)
    requires Ledger(w.recorded, w.pending, w.issued) && w.seqNo + 1 !in w.issued
    ensures var t := Drained(w); Ledger(t.recorded, t.pending, t.issued)
  {
    hide Total, Shares;
    var t, items := Drained(w), NonZero(w.pending);
    forall a, metric
      ensures Amount(Lookup(t.recorded, a), metric)
              == Amount(Lookup(t.pending, a), metric) + Total(Shares(t.issued, a, metric))
    {
      assert Lookup(items, a) == Lookup(w.pending, a);
      if items != map[] {
        SharesMore(w.issued, w.seqNo + 1, items, a, metric);
      } else {
        assert a !in items;
      }
    }
  }

  /** A fresh id disturbs nothing issued before. */
  lemma IssueMore(issued: map<nat, Items>, wire: set<Report>, cp: map<nat, Items>, seqNo: nat, items: Items)
    requires Numbered(issued, seqNo) && Stable(issued, wire) && Genuine(issued, cp)
    ensures var more := issued[seqNo + 1 := items];
            && seqNo + 1 !in issued && Numbered(more, seqNo + 1) && Stable(more, wire) && Genuine(more, cp)
            && more.Keys == issued.Keys + {seqNo + 1}
  {
  }

  /** Applying what was issued, once or again. */
  lemma ApplyKeeps(issued: map<nat, Items>, cp: map<nat, Items>, r: Report)
    requires Genuine(issued, cp) && r.id in issued && issued[r.id] == r.items
    ensures Genuine(issued, Applied(cp, r)) && Applied(cp, r).Keys == cp.Keys + {r.id}
  {
  }

  lemma DrainKeeps(w: World)
    requires Inv(w) && w.retry == []
    ensures Inv(Drained(w))
  {
    hide Ledger, InOrder, Ids, Stable, Genuine, Numbered, NonZero;
    var t, items := Drained(w), NonZero(w.pending);
    IssueMore(w.issued, w.wire, w.cp, w.seqNo, items);
    DrainLedger(w);
    if items == map[] {
      assert Queue(t) == Queue(w);
    } else {
      var r := Report(w.seqNo + 1, items);
      assert Queue(t) == Queue(w) + [r];
      QueueGrows(Queue(w), r, w.issued, w.dropped, w.seqNo);
    }
  }

  /** A freshly numbered batch goes to the young end of the queue. */
  lemma QueueGrows(q: seq<Report>, r: Report, issued: map<nat, Items>, dropped: set<nat>, seqNo: nat)
    requires InOrder(q, issued, dropped) && Numbered(issued, seqNo) && dropped <= issued.Keys && r.id == seqNo + 1
    ensures InOrder(q + [r], issued[r.id := r.items], dropped)
    ensures Ids(q + [r]) == Ids(q) + {r.id}
  {
  }

  lemma InOrderPart(q: seq<Report>, part: seq<Report>, issued: map<nat, Items>, dropped: set<nat>)
    requires InOrder(q, issued, dropped) && Increasing(part) && forall r :: r in part ==> r in q
    ensures InOrder(part, issued, dropped)
  {
    hide Increasing;
  }

  lemma IdsSplit(q: seq<Report>, n: nat)
    requires n <= |q|
    ensures Ids(q) == Ids(q[..n]) + Ids(q[n..])
  {
    assert q == q[..n] + q[n..];
    assert forall r :: r in q <==> r in q[..n] || r in q[n..];
  }

  /** Taking the report at n out of the queue. */
  lemma QueueShrinks(q: seq<Report>, n: nat, issued: map<nat, Items>, dropped: set<nat>)
    requires n < |q| && InOrder(q, issued, dropped)
    ensures InOrder(q[..n] + q[n + 1..], issued, dropped)
    ensures Ids(q) == Ids(q[..n] + q[n + 1..]) + {q[n].id}
    ensures q[n].id in issued && issued[q[n].id] == q[n].items
  {
    var t := q[..n] + q[n + 1..];
    assert Increasing(t) && q[n].id in issued && issued[q[n].id] == q[n].items;
    hide InOrder, Increasing, Ids;
    assert forall r :: r in t ==> r in q;
    InOrderPart(q, t, issued, dropped);
    IdsSplit(q, n);
    IdsSplit(q[n..], 1);
    IdsSplit(t, n);
    assert q[n..][1..] == q[n + 1..] && t[..n] == q[..n] && t[n..] == q[n + 1..];
    IdsOne(q[n..][..1]);
  }

  lemma IdsOne(q: seq<Report>)
    requires |q| == 1
    ensures Ids(q) == {q[0].id}
  {
    assert q == [q[0]];
  }

  lemma AckKeeps(w: World)
    requires Inv(w) && w.batches != []
    ensures Inv(w.(batches := w.batches[1..], cp := Applied(w.cp, w.batches[0])))
  {
    hide Ledger, InOrder, Ids, Stable, Genuine, Numbered, Applied;
    var r := w.batches[0];
    var t := w.(batches := w.batches[1..], cp := Applied(w.cp, r));
    var n := |w.retry + w.failed|;
    assert Queue(w)[n] == r && Queue(t) == Queue(w)[..n] + Queue(w)[n + 1..];
    QueueShrinks(Queue(w), n, w.issued, w.dropped);
    ApplyKeeps(w.issued, w.cp, r);
  }

  lemma FailKeeps(w: World, b: Bounds)
    requires Inv(w) && w.batches != []
    ensures Inv(Step(w, Fail, b))
  {
    hide Ledger, InOrder, Ids, Genuine, Numbered;
    var t := Step(w, Fail, b);
    assert w.batches == [w.batches[0]] + w.batches[1..];
    assert Queue(t) == Queue(w);
    QueueShrinks(Queue(w), |w.retry + w.failed|, w.issued, w.dropped);
  }

  lemma OlderThanRest(q: seq<Report>, n: nat)
    requires n <= |q| && Increasing(q)
    ensures forall id, r :: id in Ids(q[..n]) && r in q[n..] ==> id < r.id
  {
    forall id, r | id in Ids(q[..n]) && r in q[n..]
      ensures id < r.id
    {
      var x :| x in q[..n] && x.id == id;
      var i :| 0 <= i < n && q[i] == x;
      var j :| n <= j < |q| && q[j] == r;
    }
  }

  /** The oldest n reports shed. */
  lemma QueueSheds(q: seq<Report>, n: nat, issued: map<nat, Items>, dropped: set<nat>)
    requires n <= |q| && InOrder(q, issued, dropped)
    ensures InOrder(q[n..], issued, dropped + Ids(q[..n]))
    ensures forall id, r :: id in Ids(q[..n]) && r in q[n..] ==> id < r.id
  {
    OlderThanRest(q, n);
    hide Ids;
    assert forall r :: r in q[n..] ==> r in q;
  }

  lemma RequeueKeeps(w: World, max: nat)
    requires Inv(w) && w.batches == []
    ensures Inv(Requeued(w, max)) && |Requeued(w, max).retry| <= max
    ensures forall id, r :: id in Requeued(w, max).dropped - w.dropped && r in Requeued(w, max).retry ==> id < r.id
  {
    hide Ledger, InOrder, Stable, Genuine, Numbered;
    var t := Requeued(w, max);
    var all := w.retry + w.failed;
    var n := Shed(all, max);
    assert Queue(w) == all && Queue(t) == all[n..];
    QueueSheds(all, n, w.issued, w.dropped);
    IdsSplit(all, n);
    assert t.dropped == w.dropped + Ids(all[..n]);
  }

  /** Every step of meter, link and control plane keeps the books. */
  lemma StepKeeps(w: World, e: Event, b: Bounds)
    requires Inv(w) && Enabled(w, e)
    ensures Inv(Step(w, e, b))
  {
    hide Inv, Recorded, Drained, Requeued;
    match e {
      case Record(a, d) => RecordKeeps(w, a, d, b.maxAccounts);
      case Deliver(r) => DeliverKeeps(w, r);
      case TakeRetry => TakeRetryKeeps(w);
      case DrainBatch => DrainKeeps(w);
      case Ack => AckKeeps(w);
      case Fail => FailKeeps(w, b);
      case Requeue => RequeueKeeps(w, b.maxRetryBatches);
    }
  }

  // ------------------------------------------------------------------------ whole runs

  /** A run: events that cannot happen when their turn comes are skipped. */
  function Run(w: World, es: seq<Event>, b: Bounds): World
    decreases |es|
  {
    if |es| == 0 then w
    else Run(if Enabled(w, es[0]) then Step(w, es[0], b) else w, es[1..], b)
  }

  lemma {:induction false} RunKeeps(w: World, es: seq<Event>, b: Bounds)
    requires Inv(w)
    ensures Inv(Run(w, es, b))
    decreases |es|
  {
    hide Inv, Step;
    if |es| > 0 {
      if Enabled(w, es[0]) {
        StepKeeps(w, es[0], b);
        RunKeeps(Step(w, es[0], b), es[1..], b);
      } else {
        RunKeeps(w, es[1..], b);
      }
    }
  }

  lemma {:induction false} RunAppend(w: World, es: seq<Event>, fs: seq<Event>, b: Bounds)
    ensures Run(w, es + fs, b) == Run(Run(w, es, b), fs, b)
    decreases |es|
  {
    hide Step, Enabled;
    if |es| == 0 {
      assert es + fs == fs;
    } else {
      assert (es + fs)[1..] == es[1..] + fs;
      RunAppend(if Enabled(w, es[0]) then Step(w, es[0], b) else w, es[1..], fs, b);
    }
  }

  lemma StartInv()
    ensures Inv(START)
  {
    forall a, metric
      ensures Total(Shares(START.issued, a, metric)) == 0
    {
      assert Shares(START.issued, a, metric).Keys == {};
    }
    assert Queue(START) == [];
  }

  /** The shares of two disjoint sets of batches add up. */
  lemma OwedSplit(batches: map<nat, Items>, x: set<nat>, y: set<nat>, a: Account, metric: Metric)
    requires x !! y
    ensures Owed(batches, x + y, a, metric) == Owed(batches, x, a, metric) + Owed(batches, y, a, metric)
  {
    hide Total;
    var m, n := Shares(Only(batches, x), a, metric), Shares(Only(batches, y), a, metric);
    assert Shares(Only(batches, x + y), a, metric) == m + n;
    TotalDisjoint(m, n);
  }

  lemma OwedAll(batches: map<nat, Items>, a: Account, metric: Metric)
    ensures Owed(batches, batches.Keys, a, metric) == Total(Shares(batches, a, metric))
  {
    assert Only(batches, batches.Keys) == batches;
  }

  /** What the control plane has applied for an account, counted from its own records. */
  ghost function Billed(w: World, a: Account, metric: Metric): nat {
    Total(Shares(w.cp, a, metric))
  }

  /** Queued and not yet applied; shed and never applied. */
  ghost function Waiting(w: World, a: Account, metric: Metric): nat {
    Owed(w.issued, Ids(Queue(w)) - w.cp.Keys, a, metric)
  }

  ghost function Lost(w: World, a: Account, metric: Metric): nat {
    Owed(w.issued, w.dropped - w.cp.Keys, a, metric)
  }

  /**
   Exactly-once billing: each account's recorded usage is what is pending, what is
   queued but unapplied, what was applied, and what overflow shed unapplied.
   */
  lemma Conservation(w: World, a: Account, metric: Metric)
    requires Inv(w)
    ensures Amount(Lookup(w.recorded, a), metric)
            == Amount(Lookup(w.pending, a), metric) + Waiting(w, a, metric) + Billed(w, a, metric) + Lost(w, a, metric)
    ensures Billed(w, a, metric) <= Amount(Lookup(w.recorded, a), metric)
  {
    hide Total, Shares, Owed, Ids, Stable, InOrder, Increasing, Genuine, Numbered;
    var queued, lost := Ids(Queue(w)) - w.cp.Keys, w.dropped - w.cp.Keys;
    DroppedNotQueued(Queue(w), w.issued, w.dropped);
    assert w.issued.Keys == w.cp.Keys + (queued + lost);
    OwedSplit(w.issued, w.cp.Keys, queued + lost, a, metric);
    OwedSplit(w.issued, queued, lost, a, metric);
    OwedAll(w.issued, a, metric);
    BilledIsOwed(w, a, metric);
  }

  lemma DroppedNotQueued(q: seq<Report>, issued: map<nat, Items>, dropped: set<nat>)
    requires InOrder(q, issued, dropped)
    ensures Ids(q) !! dropped
  {
  }

  lemma BilledIsOwed(w: World, a: Account, metric: Metric)
    requires Genuine(w.issued, w.cp)
    ensures Billed(w, a, metric) == Owed(w.issued, w.cp.Keys, a, metric)
  {
    assert Only(w.issued, w.cp.Keys) == w.cp;
  }

  /** The same at every point of every run from a fresh meter. */
  lemma EveryRunConserves(es: seq<Event>, b: Bounds, a: Account, metric: Metric)
    ensures var w := Run(START, es, b);
            && Amount(Lookup(w.recorded, a), metric)
               == Amount(Lookup(w.pending, a), metric) + Waiting(w, a, metric) + Billed(w, a, metric) + Lost(w, a, metric)
            && Billed(w, a, metric) <= Amount(Lookup(w.recorded, a), metric)
  {
    hide Inv, Run, Waiting, Billed, Lost;
    StartInv();
    RunKeeps(START, es, b);
    Conservation(Run(START, es, b), a, metric);
  }

  /** With nothing pending, queued or shed, every account is billed exactly what it used. */
  lemma QuietIsFullyBilled(w: World, a: Account, metric: Metric)
    requires Inv(w) && w.pending == map[] && Queue(w) == [] && w.dropped <= w.cp.Keys
    ensures Billed(w, a, metric) == Amount(Lookup(w.recorded, a), metric)
  {
    hide Inv;
    Conservation(w, a, metric);
    assert Ids(Queue(w)) - w.cp.Keys == {} && w.dropped - w.cp.Keys == {};
    assert Shares(Only(w.issued, {}), a, metric).Keys == {};
  }
}
