/**
 The result queue as the program runs it: the two submit calls, the drain on the event loop, and
 a baton's work and completion. Each call, uninterrupted, is one particular run of the protocol's
 steps, so what holds over all runs of the protocol holds of the code.
 */
module JobQueue {
  import opened Bytes
  import C = ResultCheck
  import opened P = JobPipeline

  // ---------------------------------------------------------------------------
  // What each call does, and which steps it consists of
  // ---------------------------------------------------------------------------

  function Submitted(s: State, item: Item): State {
    match item
    case Cpu(r) => s.(results := s.results + [r], submittedResults := s.submittedResults + [r], pending := true)
    case Gpu(b) => s.(bundles := s.bundles + [b], submittedBundles := s.submittedBundles + [b], pending := true)
  }

  function FromCpus(results: seq<CpuResult>): (log: seq<Delivery>)
    ensures |log| == |results|
  {
    seq(|results|, i requires 0 <= i < |results| => FromCpu(results[i]))
  }

  function Drained(s: State): State {
    var t := s.(pending := false, results := [], bundles := [], delivered := s.delivered + FromCpus(s.results));
    if s.bundles == [] then t else t.(batons := s.batons + [Baton(s.bundles, [], [], 0, false)])
  }

  /** Nothing is under way: no thread is inside a call and the loop waits. */
  predicate Calm(s: State) {
    s.mutex.Free? && s.loop.Waiting? && forall p :: 0 <= p < |s.producers| ==> s.producers[p].Idle?
  }

  function SubmitSteps(p: nat, item: Item): seq<Step> {
    [Lock(p, item), Push(p), Send(p), Unlock(p)]
  }

  function Deliveries(n: nat): seq<Step> {
    if n == 0 then [] else [DeliverCpu] + Deliveries(n - 1)
  }

  function DrainSteps(n: nat): seq<Step> {
    [Wake] + ([LoopLock] + ([SwapBundles] + ([SwapResults] + ([LoopUnlock] + (Deliveries(n) + [EndDrain])))))
  }

  /** One step, then the rest. */
  lemma Then(s: State, e: Step, rest: seq<Step>)
    requires Enabled(s, e) && Legal(Next(s, e), rest)
    ensures Legal(s, [e] + rest) && After(s, [e] + rest) == After(Next(s, e), rest)
  {
  }

  lemma SubmitIsSteps(s: State, p: nat, item: Item)
    requires Calm(s) && p < |s.producers|
    ensures Legal(s, SubmitSteps(p, item)) && After(s, SubmitSteps(p, item)) == Submitted(s, item)
  {
    hide Legal, After;
    var s1 := Next(s, Lock(p, item));
    var s2 := Next(s1, Push(p));
    var s3 := Next(s2, Send(p));
    var s4 := Next(s3, Unlock(p));
    assert s4 == Submitted(s, item) by { assert s4.producers == s.producers; }
    Nothing(s4);
    Then(s3, Unlock(p), []);
    Then(s2, Send(p), [Unlock(p)] + []);
    Then(s1, Push(p), [Send(p)] + ([Unlock(p)] + []));
    Then(s, Lock(p, item), [Push(p)] + ([Send(p)] + ([Unlock(p)] + [])));
    assert SubmitSteps(p, item) == [Lock(p, item)] + ([Push(p)] + ([Send(p)] + ([Unlock(p)] + [])));
  }

  lemma Nothing(s: State)
    ensures Legal(s, []) && After(s, []) == s
  {
  }

  /** The drain from where it has swapped both lists. */
  lemma {:induction false} DeliveriesAreSteps(s: State, bundles: seq<Bundle>, results: seq<CpuResult>)
    requires s.loop == Delivering(bundles, results)
    ensures Legal(s, Deliveries(|results|) + [EndDrain])
    ensures After(s, Deliveries(|results|) + [EndDrain]) ==
      (var t := s.(loop := Waiting, delivered := s.delivered + FromCpus(results));
       if bundles == [] then t else t.(batons := s.batons + [Baton(bundles, [], [], 0, false)]))
    decreases |results|
  {
    hide Legal, After;
    if results == [] {
      Nothing(Next(s, EndDrain));
      Then(s, EndDrain, []);
      assert [EndDrain] + [] == Deliveries(0) + [EndDrain];
      assert s.delivered + FromCpus(results) == s.delivered;
    } else {
      var t := Next(s, DeliverCpu);
      DeliveriesAreSteps(t, bundles, results[1..]);
      Then(s, DeliverCpu, Deliveries(|results| - 1) + [EndDrain]);
      assert [DeliverCpu] + (Deliveries(|results| - 1) + [EndDrain]) == Deliveries(|results|) + [EndDrain];
      assert s.delivered + FromCpus(results) == s.delivered + [FromCpu(results[0])] + FromCpus(results[1..]);
    }
  }

  lemma DrainIsSteps(s: State)
    requires Calm(s) && s.pending
    ensures Legal(s, DrainSteps(|s.results|)) && After(s, DrainSteps(|s.results|)) == Drained(s)
  {
    hide Legal, After, Deliveries, FromCpus;
    var n := |s.results|;
    var s1 := Next(s, Wake);
    var s2 := Next(s1, LoopLock);
    var s3 := Next(s2, SwapBundles);
    var s4 := Next(s3, SwapResults);
    var s5 := Next(s4, LoopUnlock);
    var r5 := Deliveries(n) + [EndDrain];
    DeliveriesAreSteps(s5, s.bundles, s.results);
    Then(s4, LoopUnlock, r5);
    Then(s3, SwapResults, [LoopUnlock] + r5);
    Then(s2, SwapBundles, [SwapResults] + ([LoopUnlock] + r5));
    Then(s1, LoopLock, [SwapBundles] + ([SwapResults] + ([LoopUnlock] + r5)));
    Then(s, Wake, [LoopLock] + ([SwapBundles] + ([SwapResults] + ([LoopUnlock] + r5))));
  }

  // ---------------------------------------------------------------------------
  // Batons
  // ---------------------------------------------------------------------------

  /** What the re-check of the bundles still to do adds, given how each nonce fares. */
  function Worked(t: Baton, outcomes: seq<seq<bool>>): Baton
    requires |t.outcomes| + |outcomes| == |t.bundles|
    requires forall i :: 0 <= i < |outcomes| ==> |outcomes[i]| == |t.bundles[|t.outcomes| + i].nonces|
    decreases |outcomes|
  {
    if outcomes == [] then t else Worked(WorkedOne(t, outcomes[0]), outcomes[1..])
  }

  function WorkedOne(t: Baton, outcome: seq<bool>): Baton
    requires |t.outcomes| < |t.bundles| && |outcome| == |t.bundles[|t.outcomes|].nonces|
  {
    var found := Survivors(t.bundles[|t.outcomes|], outcome);
    t.(outcomes := t.outcomes + [outcome], results := t.results + found, errors := t.errors + |outcome| - |found|)
  }

  function WorkSteps(b: nat, outcomes: seq<seq<bool>>): seq<Step> {
    if outcomes == [] then [] else [Work(b, outcomes[0])] + WorkSteps(b, outcomes[1..])
  }

  /** The work callback of a baton is a run of work steps, whatever else happens in between. */
  lemma {:induction false} WorkIsSteps(s: State, b: nat, outcomes: seq<seq<bool>>)
    requires b < |s.batons| && |s.batons[b].outcomes| + |outcomes| == |s.batons[b].bundles|
    requires forall i :: 0 <= i < |outcomes| ==> |outcomes[i]| == |s.batons[b].bundles[|s.batons[b].outcomes| + i].nonces|
    ensures Legal(s, WorkSteps(b, outcomes))
    ensures After(s, WorkSteps(b, outcomes)) == s.(batons := s.batons[b := Worked(s.batons[b], outcomes)])
    decreases |outcomes|
  {
    hide Legal, After, Survivors;
    if outcomes == [] {
      Nothing(s);
      assert s.batons[b := s.batons[b]] == s.batons;
    } else {
      var t := Next(s, Work(b, outcomes[0]));
      assert t.batons[b] == WorkedOne(s.batons[b], outcomes[0]);
      WorkIsSteps(t, b, outcomes[1..]);
      Then(s, Work(b, outcomes[0]), WorkSteps(b, outcomes[1..]));
      assert t.batons[b := Worked(t.batons[b], outcomes[1..])] == s.batons[b := Worked(t.batons[b], outcomes[1..])];
    }
  }

  /** How the re-check of one bundle comes out: which of its nonces the hash of their blob accepts. */
  function Outcome(f: C.Family, hs: C.Hashers, blob: seq<Byte>, size: nat, target: nat, nonces: seq<C.Nonce>): (outcome: seq<bool>)
    requires |blob| == C.MAX_BLOB_SIZE && size <= C.MAX_BLOB_SIZE
    ensures |outcome| == |nonces|
  {
    seq(|nonces|, i requires 0 <= i < |nonces| => C.Accepts(f, hs, blob, size, target, nonces[i]))
  }

  function Tagged(ticket: nat, nonces: seq<C.Nonce>): (found: seq<GpuResult>)
    ensures |found| == |nonces|
  {
    seq(|nonces|, i requires 0 <= i < |nonces| => GpuResult(ticket, nonces[i]))
  }

  lemma {:induction false} SurvivorsAreAccepted(ticket: nat, f: C.Family, hs: C.Hashers, blob: seq<Byte>, size: nat, target: nat,
                                                nonces: seq<C.Nonce>, k: nat)
    requires |blob| == C.MAX_BLOB_SIZE && size <= C.MAX_BLOB_SIZE && k <= |nonces|
    ensures Survivors(Bundle(ticket, nonces[..k]), Outcome(f, hs, blob, size, target, nonces)[..k])
         == Tagged(ticket, C.Filter(C.Test(f, hs, blob, size, target), nonces, k))
  {
    if k > 0 {
      hide C.Accepts;
      var outcome := Outcome(f, hs, blob, size, target, nonces);
      SurvivorsAreAccepted(ticket, f, hs, blob, size, target, nonces, k - 1);
      assert nonces[..k][..k - 1] == nonces[..k - 1] && outcome[..k][..k - 1] == outcome[..k - 1];
    }
  }

  /**
   The pipeline's re-check is the one the worker performs: with the outcome of hashing, the survivors
   of a bundle are its results, in order, each under the nonce it was found with.
   */
  lemma SurvivorsAreResults(ticket: nat, f: C.Family, hs: C.Hashers, blob: seq<Byte>, size: nat, target: nat, nonces: seq<C.Nonce>)
    requires |blob| == C.MAX_BLOB_SIZE && size <= C.MAX_BLOB_SIZE
    ensures Survivors(Bundle(ticket, nonces), Outcome(f, hs, blob, size, target, nonces))
         == Tagged(ticket, C.NoncesOf(C.Results(f, hs, blob, size, target, nonces, |nonces|)))
  {
    hide Survivors, Outcome, C.Results, C.Filter, C.Test;
    SurvivorsAreAccepted(ticket, f, hs, blob, size, target, nonces, |nonces|);
    C.ResultsCarryAccepted(f, hs, blob, size, target, nonces);
    assert nonces[..|nonces|] == nonces;
    var outcome := Outcome(f, hs, blob, size, target, nonces);
    assert outcome[..|nonces|] == outcome;
  }

  function FromBatons(b: nat, results: seq<GpuResult>): (log: seq<Delivery>)
    ensures |log| == |results|
  {
    seq(|results|, i requires 0 <= i < |results| => FromBaton(b, results[i]))
  }

  function GpuDeliveries(n: nat): seq<Step> {
    if n == 0 then [] else [DeliverGpu] + GpuDeliveries(n - 1)
  }

  function Closed(s: State, b: nat): State
    requires b < |s.batons|
  {
    s.(batons := s.batons[b := s.batons[b].(closed := true)], delivered := s.delivered + FromBatons(b, s.batons[b].results))
  }

  lemma {:induction false} GpuDeliveriesAreSteps(s: State, b: nat, sent: nat)
    requires b < |s.batons| && sent <= |s.batons[b].results| && s.loop == Finishing(b, sent)
    ensures var steps := GpuDeliveries(|s.batons[b].results| - sent) + [CloseBaton];
      && Legal(s, steps)
      && After(s, steps) == s.(loop := Waiting, delivered := s.delivered + FromBatons(b, s.batons[b].results[sent..]))
    decreases |s.batons[b].results| - sent
  {
    hide Legal, After;
    var results := s.batons[b].results;
    if sent == |results| {
      Nothing(Next(s, CloseBaton));
      Then(s, CloseBaton, []);
      assert [CloseBaton] + [] == GpuDeliveries(0) + [CloseBaton];
      assert s.delivered + FromBatons(b, results[sent..]) == s.delivered;
    } else {
      var t := Next(s, DeliverGpu);
      GpuDeliveriesAreSteps(t, b, sent + 1);
      Then(s, DeliverGpu, GpuDeliveries(|results| - sent - 1) + [CloseBaton]);
      assert [DeliverGpu] + (GpuDeliveries(|results| - sent - 1) + [CloseBaton]) == GpuDeliveries(|results| - sent) + [CloseBaton];
      assert s.delivered + FromBatons(b, results[sent..]) == s.delivered + [FromBaton(b, results[sent])] + FromBatons(b, results[sent + 1..]);
    }
  }

  function DoneSteps(b: nat, n: nat): seq<Step> {
    [WorkDone(b)] + (GpuDeliveries(n) + [CloseBaton])
  }

  lemma DoneIsSteps(s: State, b: nat)
    requires b < |s.batons| && Calm(s) && !s.batons[b].closed && |s.batons[b].outcomes| == |s.batons[b].bundles|
    ensures Legal(s, DoneSteps(b, |s.batons[b].results|)) && After(s, DoneSteps(b, |s.batons[b].results|)) == Closed(s, b)
  {
    hide Legal, After, GpuDeliveries, FromBatons;
    var t := Next(s, WorkDone(b));
    GpuDeliveriesAreSteps(t, b, 0);
    assert t.batons[b].results[0..] == s.batons[b].results;
    Then(s, WorkDone(b), GpuDeliveries(|s.batons[b].results|) + [CloseBaton]);
  }

  // ---------------------------------------------------------------------------
  // The queue, as it works
  // ---------------------------------------------------------------------------

  class JobResults {
    const threads: nat
    var results: seq<CpuResult>
    var bundles: seq<Bundle>
    var pending: bool
    var batons: seq<Baton>
    var delivered: seq<Delivery>
    // history
    var submittedResults: seq<CpuResult>
    var submittedBundles: seq<Bundle>

    /** Between calls: no thread inside one, the loop waiting. */
    function Value(): State
      reads this
    {
      State(Free, seq(threads, i => Idle), results, bundles, pending, Waiting, batons, delivered, submittedResults, submittedBundles)
    }

    constructor (threads: nat)
      ensures this.threads == threads && Value() == Initial(threads)
    {
      this.threads := threads;
      results, bundles, pending, batons, delivered := [], [], false, [], [];
      submittedResults, submittedBundles := [], [];
    }

    method SubmitResult(p: nat, result: CpuResult)
      requires p < threads
      modifies this
      ensures Legal(old(Value()), SubmitSteps(p, Cpu(result)))
      ensures Value() == After(old(Value()), SubmitSteps(p, Cpu(result)))
      ensures Value() == Submitted(old(Value()), Cpu(result))
    {
      hide Legal, After;
      SubmitIsSteps(Value(), p, Cpu(result));
      results := results + [result];
      submittedResults := submittedResults + [result];
      pending := true;
    }

    method SubmitBundle(p: nat, bundle: Bundle)
      requires p < threads
      modifies this
      ensures Legal(old(Value()), SubmitSteps(p, Gpu(bundle)))
      ensures Value() == After(old(Value()), SubmitSteps(p, Gpu(bundle)))
      ensures Value() == Submitted(old(Value()), Gpu(bundle))
    {
      hide Legal, After;
      SubmitIsSteps(Value(), p, Gpu(bundle));
      bundles := bundles + [bundle];
      submittedBundles := submittedBundles + [bundle];
      pending := true;
    }

    method DeliverAll(list: seq<CpuResult>)
      modifies this`delivered
      ensures delivered == old(delivered) + FromCpus(list)
    {
      for i := 0 to |list|
        invariant delivered == old(delivered) + FromCpus(list[..i])
      {
        delivered := delivered + [FromCpu(list[i])];
        assert FromCpus(list[..i + 1]) == FromCpus(list[..i]) + [FromCpu(list[i])];
      }
      assert list[..|list|] == list;
    }

    /** The callback of the signal: swap both lists out, deliver the results, queue one baton. */
    method OnAsync()
      requires pending
      modifies this
      ensures Legal(old(Value()), DrainSteps(|old(results)|))
      ensures Value() == After(old(Value()), DrainSteps(|old(results)|))
      ensures Value() == Drained(old(Value()))
    {
      hide Legal, After, DrainSteps, FromCpus;
      DrainIsSteps(Value());
      pending := false;
      var drainedBundles, drainedResults := bundles, results;
      bundles, results := [], [];
      DeliverAll(drainedResults);
      if drainedBundles == [] {
        return;
      }
      batons := batons + [Baton(drainedBundles, [], [], 0, false)];
    }

    /** The work callback: every bundle is re-checked; `outcomes` tells how each nonce fares. */
    method BatonWork(b: nat, outcomes: seq<seq<bool>>)
      requires b < |batons| && |batons[b].outcomes| + |outcomes| == |batons[b].bundles|
      requires forall i :: 0 <= i < |outcomes| ==> |outcomes[i]| == |batons[b].bundles[|batons[b].outcomes| + i].nonces|
      modifies this`batons
      ensures Legal(old(Value()), WorkSteps(b, outcomes))
      ensures Value() == After(old(Value()), WorkSteps(b, outcomes))
      ensures batons == old(batons)[b := Worked(old(batons)[b], outcomes)]
    {
      hide Legal, After, Survivors;
      WorkIsSteps(Value(), b, outcomes);
      var t := batons[b];
      ghost var t0 := t;
      assert outcomes[0..] == outcomes;
      for i := 0 to |outcomes|
        invariant batons == old(batons)
        invariant t.bundles == t0.bundles && |t.outcomes| == |t0.outcomes| + i
        invariant Worked(t, outcomes[i..]) == Worked(t0, outcomes)
      {
        assert outcomes[i..][1..] == outcomes[i + 1..];
        t := WorkedOne(t, outcomes[i]);
      }
      assert outcomes[|outcomes|..] == [];
      batons := batons[b := t];
    }

    /** The completion callback: the surviving results are delivered and the baton goes. */
    method BatonDone(b: nat)
      requires b < |batons| && !batons[b].closed && |batons[b].outcomes| == |batons[b].bundles|
      modifies this
      ensures Legal(old(Value()), DoneSteps(b, |old(batons)[b].results|))
      ensures Value() == After(old(Value()), DoneSteps(b, |old(batons)[b].results|))
      ensures Value() == Closed(old(Value()), b)
    {
      hide Legal, After, DoneSteps;
      DoneIsSteps(Value(), b);
      var list := batons[b].results;
      for i := 0 to |list|
        invariant delivered == old(delivered) + FromBatons(b, list[..i])
        invariant batons == old(batons) && results == old(results) && bundles == old(bundles) && pending == old(pending)
        invariant submittedResults == old(submittedResults) && submittedBundles == old(submittedBundles)
      {
        delivered := delivered + [FromBaton(b, list[i])];
        assert FromBatons(b, list[..i + 1]) == FromBatons(b, list[..i]) + [FromBaton(b, list[i])];
      }
      assert list[..|list|] == list;
      batons := batons[b := batons[b].(closed := true)];
    }
  }
}
