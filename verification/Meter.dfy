/**
 The usage meter as it runs (tunnel/server/metering.go). Each method is a run of the
 steps of MeterModel, and says which.
 */
module Meter {
  import opened MeterModel

  /** How one report's request ends: answered, or its response never comes. */
  datatype Fate = Answered | Unanswered

  /** The traffic and late deliveries met between the steps of a flush, and each request's fate. */
  datatype Net = Net(meanwhile: nat -> seq<Event>, fate: nat -> Fate)

  /** Events other threads or the link may cause at any time. */
  predicate Outside(es: seq<Event>) {
    forall e :: e in es ==> e.Record? || e.Deliver?
  }

  /** What a flush does with its first n batches from request i on. */
  function SendTrace(net: Net, i: nat, n: nat): seq<Event>
    decreases n
  {
    if n == 0 then []
    else net.meanwhile(i) + [if net.fate(i) == Answered then Ack else Fail] + SendTrace(net, i + 1, n - 1)
  }

  /** The steps of a flush before anything is sent. */
  function GatherTrace(net: Net): seq<Event> {
    [TakeRetry] + net.meanwhile(0) + [DrainBatch]
  }

  /** All the steps of a flush of n batches. */
  function FlushTrace(net: Net, n: nat): seq<Event> {
    GatherTrace(net) + if n == 0 then [] else SendTrace(net, 1, n) + [MeterModel.Requeue]
  }

  /** The batches whose requests, from request i on, go unanswered. */
  function Unsent(batches: seq<Report>, net: Net, i: nat): seq<Report>
    decreases |batches|
  {
    if |batches| == 0 then []
    else (if net.fate(i) == Unanswered then [batches[0]] else []) + Unsent(batches[1..], net, i + 1)
  }

  class Meter {
    const maxAccounts: nat
    const maxRetryBatches: nat
    const hasControlPlane: bool

    var pending: map<Account, Delta>
    var retry: seq<Report>
    var seqNo: nat

    // A flush in progress, the link and the control plane, and the history.
    var batches: seq<Report>
    var failed: seq<Report>
    ghost var wire: set<Report>
    ghost var cp: map<nat, Items>
    ghost var issued: map<nat, Items>
    ghost var dropped: set<nat>
    ghost var recorded: map<Account, Delta>

    constructor (maxAccounts: nat, maxRetryBatches: nat, hasControlPlane: bool)
      ensures State() == START && Inv(State())
      ensures this.maxAccounts == maxAccounts && this.maxRetryBatches == maxRetryBatches
    {
      this.maxAccounts, this.maxRetryBatches, this.hasControlPlane := maxAccounts, maxRetryBatches, hasControlPlane;
      pending, retry, seqNo, batches, failed := map[], [], 0, [], [];
      wire, cp, issued, dropped, recorded := {}, map[], map[], {}, map[];
      StartInv();
    }

    ghost function State(): World
      reads this
    {
      World(pending, retry, seqNo, batches, failed, wire, cp, issued, dropped, recorded)
    }

    ghost function Limits(): Bounds {
      Bounds(maxAccounts, maxRetryBatches)
    }

    /** Adds to an account's pending delta; a new account beyond the bound is not metered. */
    method Add(account: Account, delta: Delta)
      modifies this`pending, this`recorded
      ensures State() == Recorded(old(State()), account, delta, maxAccounts)
      ensures forall a :: a != account && a in old(pending) ==> a in pending && pending[a] == old(pending)[a]
      ensures forall a :: a != account && a in old(recorded) ==> a in recorded && recorded[a] == old(recorded)[a]
      ensures account in old(pending) || |old(pending)| < maxAccounts ==>
                var was := if account in old(pending) then old(pending)[account] else Delta(0, 0);
                var all := if account in old(recorded) then old(recorded)[account] else Delta(0, 0);
                && pending.Keys == old(pending).Keys + {account}
                && pending[account].bytes == was.bytes + delta.bytes
                && pending[account].sessions == was.sessions + delta.sessions
                && recorded.Keys == old(recorded).Keys + {account}
                && recorded[account].bytes == all.bytes + delta.bytes
                && recorded[account].sessions == all.sessions + delta.sessions
      ensures account !in old(pending) && |old(pending)| >= maxAccounts ==>
                pending == old(pending) && recorded == old(recorded)
    {
      if account !in pending {
        if |pending| >= maxAccounts {
          return;
        }
        pending := pending[account := ZERO];
      }
      recorded := recorded[account := Plus(Lookup(recorded, account), delta)];
      pending := pending[account := Plus(pending[account], delta)];
      assert State() == Recorded(old(State()), account, delta, maxAccounts);
      hide Recorded;
      OneRecorded(old(State()), account, delta, maxAccounts);
    }

    method AddBytes(account: Account, n: int)
      modifies this`pending, this`recorded
      ensures State() == if account == "" || n <= 0 then old(State())
                         else Recorded(old(State()), account, Delta(n, 0), maxAccounts)
      ensures forall a :: a != account && a in old(pending) ==> a in pending && pending[a] == old(pending)[a]
      ensures forall a :: a != account && a in old(recorded) ==> a in recorded && recorded[a] == old(recorded)[a]
      ensures account != "" && n > 0 && (account in old(pending) || |old(pending)| < maxAccounts) ==>
                var was := if account in old(pending) then old(pending)[account] else Delta(0, 0);
                var all := if account in old(recorded) then old(recorded)[account] else Delta(0, 0);
                && pending.Keys == old(pending).Keys + {account}
                && pending[account].bytes == was.bytes + n && pending[account].sessions == was.sessions
                && recorded.Keys == old(recorded).Keys + {account}
                && recorded[account].bytes == all.bytes + n && recorded[account].sessions == all.sessions
      ensures account == "" || n <= 0 || (account !in old(pending) && |old(pending)| >= maxAccounts) ==>
                pending == old(pending) && recorded == old(recorded)
    {
      hide Recorded;
      if account == "" || n <= 0 {
        return;
      }
      Add(account, Delta(n, 0));
    }

    method AddSession(account: Account)
      modifies this`pending, this`recorded
      ensures State() == if account == "" then old(State())
                         else Recorded(old(State()), account, Delta(0, 1), maxAccounts)
      ensures forall a :: a != account && a in old(pending) ==> a in pending && pending[a] == old(pending)[a]
      ensures forall a :: a != account && a in old(recorded) ==> a in recorded && recorded[a] == old(recorded)[a]
      ensures account != "" && (account in old(pending) || |old(pending)| < maxAccounts) ==>
                var was := if account in old(pending) then old(pending)[account] else Delta(0, 0);
                var all := if account in old(recorded) then old(recorded)[account] else Delta(0, 0);
                && pending.Keys == old(pending).Keys + {account}
                && pending[account].bytes == was.bytes && pending[account].sessions == was.sessions + 1
                && recorded.Keys == old(recorded).Keys + {account}
                && recorded[account].bytes == all.bytes && recorded[account].sessions == all.sessions + 1
      ensures account == "" || (account !in old(pending) && |old(pending)| >= maxAccounts) ==>
                pending == old(pending) && recorded == old(recorded)
    {
      hide Recorded;
      if account == "" {
        return;
      }
      Add(account, Delta(0, 1));
    }

    /** Removes and returns the pending deltas. */
    method Drain() returns (items: Items)
      modifies this`pending
      ensures pending == map[] && items == NonZero(old(pending))
      ensures forall a :: a in items <==> a in old(pending) && (old(pending)[a].bytes > 0 || old(pending)[a].sessions > 0)
      ensures forall a :: a in items ==> items[a] == old(pending)[a]
    {
      items := map a | a in pending && pending[a] != ZERO :: pending[a];
      pending := map[];
    }

    method NextReportId() returns (id: nat)
      modifies this`seqNo
      ensures id == seqNo == old(seqNo) + 1
    {
      seqNo := seqNo + 1;
      id := seqNo;
    }

    method TakeRetryBatches()
      requires batches == [] && failed == []
      modifies this`retry, this`batches
      ensures State() == Step(old(State()), TakeRetry, Limits())
      ensures batches == old(retry) && retry == []
    {
      batches := retry;
      retry := [];
    }

    /** Drains the pending usage into a fresh batch, if there is any. */
    method DrainIntoBatch()
      requires retry == []
      modifies this`pending, this`seqNo, this`batches, this`issued
      ensures State() == Step(old(State()), DrainBatch, Limits())
      ensures pending == map[]
      ensures if exists a :: a in old(pending) && (old(pending)[a].bytes > 0 || old(pending)[a].sessions > 0) then
                seqNo == old(seqNo) + 1 && |batches| == |old(batches)| + 1 && batches[..|old(batches)|] == old(batches)
                && batches[|old(batches)|].id == seqNo
                && forall a :: a in batches[|old(batches)|].items <==>
                                 a in old(pending) && (old(pending)[a].bytes > 0 || old(pending)[a].sessions > 0)
              else batches == old(batches) && seqNo == old(seqNo)
    {
      var items := Drain();
      if |items| > 0 {
        var id := NextReportId();
        batches := batches + [Report(id, items)];
        issued := issued[id := items];
      }
    }

    /** One report sent. A failed send keeps the batch, with its id. */
    method ReportUsage(fate: Fate)
      requires batches != []
      modifies this`batches, this`failed, this`wire, this`cp
      ensures State() == Step(old(State()), if fate == Answered then Ack else Fail, Limits())
      ensures batches == old(batches)[1..]
      ensures fate == Answered ==>
                && failed == old(failed) && wire == old(wire)
                && cp == if old(batches)[0].id in old(cp) then old(cp) else old(cp)[old(batches)[0].id := old(batches)[0].items]
      ensures fate == Unanswered ==>
                failed == old(failed) + [old(batches)[0]] && wire == old(wire) + {old(batches)[0]} && cp == old(cp)
    {
      var b := batches[0];
      batches := batches[1..];
      if fate == Unanswered {
        wire := wire + {b};
        failed := failed + [b];
      } else {
        cp := Applied(cp, b);
      }
    }

    /** Puts failed batches back, shedding the oldest beyond the bound. */
    method RequeueFailed()
      requires batches == [] && |retry| <= maxRetryBatches
      modifies this`retry, this`failed, this`dropped
      ensures State() == Step(old(State()), Requeue, Limits())
      ensures failed == [] && |retry| <= maxRetryBatches
      ensures retry == (old(retry) + old(failed))[Shed(old(retry) + old(failed), maxRetryBatches)..]
      ensures var all := old(retry) + old(failed);
              retry == if |all| <= maxRetryBatches then all else all[|all| - maxRetryBatches..]
    {
      ghost var all := retry + failed;
      StepRequeue(State(), Limits());
      hide Step, Ids;
      dropped := dropped + Ids(all[..Shed(all, maxRetryBatches)]);
      if |failed| == 0 {
        assert all == retry && all[0..] == retry;
        failed := [];
        return;
      }
      retry := retry + failed;
      if |retry| > maxRetryBatches {
        var drop := |retry| - maxRetryBatches;
        retry := retry[drop..];
      }
      failed := [];
    }

    /** What traffic and the link do in between: new usage, and late arrivals. */
    method Meanwhile(es: seq<Event>)
      requires Outside(es)
      modifies this`pending, this`recorded, this`cp
      ensures State() == Run(old(State()), es, Limits())
      ensures batches == old(batches) && failed == old(failed) && retry == old(retry)
    {
      hide Recorded, Applied;
      var i := 0;
      while i < |es|
        invariant 0 <= i <= |es|
        invariant Run(old(State()), es, Limits()) == Run(State(), es[i..], Limits())
        invariant batches == old(batches) && failed == old(failed) && retry == old(retry)
      {
        assert es[i..][0] == es[i] && es[i..][1..] == es[i + 1..];
        match es[i] {
          case Record(account, delta) =>
            Add(account, delta);
          case Deliver(report) =>
            if report in wire {
              cp := Applied(cp, report);
            }
          case _ =>
            assert false;
        }
        i := i + 1;
      }
    }

    /**
     Sends the batches that failed before, under the ids they already have, then a fresh
     batch; whatever goes unanswered is queued again. The whole flush, with everything
     that happened in between, is a run of the steps, so it keeps the books.
     */
    method FlushOnce(net: Net) returns (ghost trace: seq<Event>)
      requires batches == [] && failed == [] && |retry| <= maxRetryBatches
      requires forall i :: Outside(net.meanwhile(i))
      modifies this
      ensures State() == Run(old(State()), trace, Limits())
      ensures !hasControlPlane ==> trace == []
      ensures hasControlPlane ==>
                var sent := Run(old(State()), GatherTrace(net), Limits()).batches;
                && trace == FlushTrace(net, |sent|)
                && retry == Unsent(sent, net, 1)[Shed(Unsent(sent, net, 1), maxRetryBatches)..]
      ensures batches == [] && failed == [] && |retry| <= maxRetryBatches
      ensures old(Inv(State())) ==> Inv(State())
    {
      hide Recorded, Drained, Inv, Requeued, Run, Outside, Queue, SendTrace, Unsent, Step;
      ghost var w := State();
      trace := [];
      RunNothing(w);
      if !hasControlPlane {
        return;
      }
      trace := Gather(net, w);
      ghost var sent := batches;
      UnsentNothing(net);
      if |batches| > 0 {
        trace := SendAll(net, w, trace);
        RequeueFailed();
        trace := After(w, trace, State(), MeterModel.Requeue);
      }
      KeptByRun(w, trace);
    }

    /** The steps of a flush before anything is sent. */
    method Gather(net: Net, ghost w: World) returns (ghost trace: seq<Event>)
      requires batches == [] && failed == [] && State() == w && Run(w, [], Limits()) == w
      requires Outside(net.meanwhile(0))
      modifies this
      ensures trace == GatherTrace(net) && State() == Run(w, trace, Limits())
      ensures retry == [] && failed == []
    {
      hide Run, Outside, Step;
      TakeRetryBatches();
      trace := After(w, [], State(), TakeRetry);
      trace := Pause(net, 0, w, trace);
      DrainIntoBatch();
      trace := After(w, trace, State(), DrainBatch);
    }

    lemma UnsentNothing(net: Net)
      ensures Unsent([], net, 1) == []
    {
    }

    lemma RunNothing(w: World)
      ensures Run(w, [], Limits()) == w
    {
    }

    /** A point between two steps of a flush. */
    method Pause(net: Net, i: nat, ghost w: World, ghost before: seq<Event>) returns (ghost trace: seq<Event>)
      requires Outside(net.meanwhile(i)) && State() == Run(w, before, Limits())
      modifies this`pending, this`recorded, this`cp
      ensures State() == Run(w, trace, Limits()) && trace == before + net.meanwhile(i)
      ensures batches == old(batches) && failed == old(failed) && retry == old(retry)
    {
      hide Run, Outside;
      Meanwhile(net.meanwhile(i));
      trace := AfterRun(w, before, old(State()), net.meanwhile(i), State());
    }

    /** Sends each batch in turn, collecting the ones that go unanswered. */
    method SendAll(net: Net, ghost w: World, ghost before: seq<Event>) returns (ghost trace: seq<Event>)
      requires State() == Run(w, before, Limits()) && retry == []
      requires forall i :: Outside(net.meanwhile(i))
      modifies this
      ensures State() == Run(w, trace, Limits()) && retry == [] && batches == []
      ensures trace == before + SendTrace(net, 1, old(|batches|))
      ensures failed == old(failed) + Unsent(old(batches), net, 1)
    {
      hide Run, Outside, Applied, SendTrace, Unsent;
      trace := before;
      var i := 1;
      assert before + SendTrace(net, 1, |batches|) == trace + SendTrace(net, i, |batches|);
      while |batches| > 0
        invariant retry == [] && State() == Run(w, trace, Limits())
        invariant before + SendTrace(net, 1, old(|batches|)) == trace + SendTrace(net, i, |batches|)
        invariant old(failed) + Unsent(old(batches), net, 1) == failed + Unsent(batches, net, i)
        decreases |batches|
      {
        SendUnfold(net, i, batches, trace, failed);
        trace := Pause(net, i, w, trace);
        var fate := net.fate(i);
        ReportUsage(fate);
        trace := After(w, trace, State(), if fate == Answered then Ack else Fail);
        i := i + 1;
      }
      SendNothing(net, i, trace, failed);
    }

    lemma SendUnfold(net: Net, i: nat, batches: seq<Report>, trace: seq<Event>, failed: seq<Report>)
      requires |batches| > 0
      ensures trace + SendTrace(net, i, |batches|) ==
              trace + net.meanwhile(i) + [if net.fate(i) == Answered then Ack else Fail]
              + SendTrace(net, i + 1, |batches| - 1)
      ensures failed + Unsent(batches, net, i) ==
              (if net.fate(i) == Unanswered then failed + [batches[0]] else failed) + Unsent(batches[1..], net, i + 1)
    {
    }

    lemma SendNothing(net: Net, i: nat, trace: seq<Event>, failed: seq<Report>)
      ensures trace + SendTrace(net, i, 0) == trace && failed + Unsent([], net, i) == failed
    {
    }

    /** A run extended by one step that was enabled. */
    lemma After(w: World, trace: seq<Event>, now: World, e: Event) returns (longer: seq<Event>)
      requires Enabled(Run(w, trace, Limits()), e)
      requires now == Step(Run(w, trace, Limits()), e, Limits())
      ensures longer == trace + [e]
      ensures now == Run(w, longer, Limits())
    {
      hide Step, Enabled;
      longer := trace + [e];
      RunAppend(w, trace, [e], Limits());
      assert [e][1..] == [];
    }

    lemma AfterRun(w: World, trace: seq<Event>, before: World, es: seq<Event>, now: World) returns (longer: seq<Event>)
      requires before == Run(w, trace, Limits()) && now == Run(before, es, Limits())
      ensures longer == trace + es
      ensures now == Run(w, longer, Limits())
    {
      longer := trace + es;
      RunAppend(w, trace, es, Limits());
    }

    lemma KeptByRun(w: World, trace: seq<Event>)
      ensures Inv(w) ==> Inv(Run(w, trace, Limits()))
    {
      if Inv(w) {
        RunKeeps(w, trace, Limits());
      }
    }
  }
}
