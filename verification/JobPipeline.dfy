/**
 The result pipeline as interleaved steps. Which nonces survive the re-check, and the
 interleaving itself, are arbitrary.
 */
module JobPipeline {
  // Mining threads push results and GPU bundles under a mutex and wake the event loop through a
  // coalescing signal. The loop swaps both lists out, delivers the CPU results itself and hands the
  // bundles to a baton, whose worker re-checks every nonce and whose completion callback delivers
  // what survived.

  /** A CPU result; the ticket stands for its contents. */
  datatype CpuResult = CpuResult(ticket: nat)

  /** Candidate nonces found by one GPU device for one job. */
  datatype Bundle = Bundle(ticket: nat, nonces: seq<nat>)

  /** A nonce that survived the re-check, with the job it belongs to. */
  datatype GpuResult = GpuResult(ticket: nat, nonce: nat)

  datatype Item = Cpu(result: CpuResult) | Gpu(bundle: Bundle)

  /** What a producer thread is about to do inside the submit call. */
  datatype Producer = Idle | Locked(item: Item) | Pushed | Sent

  /** What the event loop is about to do. */
  datatype Loop =
    | Waiting
    | Woken
    | Holding
    | SwappedBundles(bundles: seq<Bundle>)
    | SwappedBoth(bundles: seq<Bundle>, results: seq<CpuResult>)
    | Delivering(bundles: seq<Bundle>, results: seq<CpuResult>)
    | Finishing(baton: nat, sent: nat)

  datatype Owner = Free | Thread(p: nat) | EventLoop

  /** A unit of worker-pool work; `outcomes` records the re-check of the bundles done so far. */
  datatype Baton = Baton(bundles: seq<Bundle>, outcomes: seq<seq<bool>>, results: seq<GpuResult>, errors: nat, closed: bool)

  datatype Delivery = FromCpu(result: CpuResult) | FromBaton(baton: nat, gpu: GpuResult)

  datatype State = State(
    mutex: Owner,
    producers: seq<Producer>,
    results: seq<CpuResult>,
    bundles: seq<Bundle>,
    pending: bool,
    loop: Loop,
    batons: seq<Baton>,
    delivered: seq<Delivery>,
    // history of submissions in lock-acquisition order
    submittedResults: seq<CpuResult>,
    submittedBundles: seq<Bundle>)

  function Initial(threads: nat): State {
    State(Free, seq(threads, i => Idle), [], [], false, Waiting, [], [], [], [])
  }

  // ---------------------------------------------------------------------------
  // Steps
  // ---------------------------------------------------------------------------

  datatype Step =
    | Lock(p: nat, item: Item)       // a producer enters submit and obtains the mutex
    | Push(p: nat)                   // m_results.push_back or m_bundles.emplace_back
    | Send(p: nat)                   // m_async->send(), which coalesces
    | Unlock(p: nat)                 // the lock guard goes out of scope
    | Wake                           // the loop drains the signal and enters the callback
    | LoopLock
    | SwapBundles
    | SwapResults
    | LoopUnlock
    | DeliverCpu                     // one onJobResult call of the drain
    | EndDrain                       // return, or queue one baton with all bundles
    | Work(b: nat, outcome: seq<bool>) // getResults for the next bundle of a baton
    | WorkDone(b: nat)               // the after-work callback starts on the loop
    | DeliverGpu                     // one onJobResult call of that callback
    | CloseBaton                     // delete baton

  /** The nonces of a bundle whose re-check succeeded, in order. */
  function Survivors(b: Bundle, outcome: seq<bool>): (found: seq<GpuResult>)
    requires |outcome| == |b.nonces|
    ensures |found| <= |outcome|
    decreases |outcome|
  {
    if outcome == [] then []
    else
      var n := |outcome| - 1;
      Survivors(b.(nonces := b.nonces[..n]), outcome[..n]) +
      (if outcome[n] then [GpuResult(b.ticket, b.nonces[n])] else [])
  }

  predicate Enabled(s: State, e: Step) {
    match e
    case Lock(p, item) => p < |s.producers| && s.producers[p].Idle? && s.mutex.Free?
    case Push(p) => p < |s.producers| && s.producers[p].Locked?
    case Send(p) => p < |s.producers| && s.producers[p].Pushed?
    case Unlock(p) => p < |s.producers| && s.producers[p].Sent?
    case Wake => s.pending && s.loop.Waiting?
    case LoopLock => s.loop.Woken? && s.mutex.Free?
    case SwapBundles => s.loop.Holding?
    case SwapResults => s.loop.SwappedBundles?
    case LoopUnlock => s.loop.SwappedBoth?
    case DeliverCpu => s.loop.Delivering? && s.loop.results != []
    case EndDrain => s.loop.Delivering? && s.loop.results == []
    case Work(b, outcome) =>
      && b < |s.batons|
      && |s.batons[b].outcomes| < |s.batons[b].bundles|
      && |outcome| == |s.batons[b].bundles[|s.batons[b].outcomes|].nonces|
    case WorkDone(b) =>
      && b < |s.batons| && s.loop.Waiting?
      && |s.batons[b].outcomes| == |s.batons[b].bundles| && !s.batons[b].closed
    case DeliverGpu =>
      s.loop.Finishing? && s.loop.baton < |s.batons| && s.loop.sent < |s.batons[s.loop.baton].results|
    case CloseBaton =>
      s.loop.Finishing? && s.loop.baton < |s.batons| && s.loop.sent == |s.batons[s.loop.baton].results|
  }

  function Next(s: State, e: Step): State
    requires Enabled(s, e)
  {
    match e
    case Lock(p, item) =>
      s.(mutex := Thread(p), producers := s.producers[p := Locked(item)])
    case Push(p) =>
      var s' := s.(producers := s.producers[p := Pushed]);
      (match s.producers[p].item
       case Cpu(r) => s'.(results := s.results + [r], submittedResults := s.submittedResults + [r])
       case Gpu(b) => s'.(bundles := s.bundles + [b], submittedBundles := s.submittedBundles + [b]))
    case Send(p) =>
      s.(pending := true, producers := s.producers[p := Sent])
    case Unlock(p) =>
      s.(mutex := Free, producers := s.producers[p := Idle])
    case Wake =>
      s.(pending := false, loop := Woken)
    case LoopLock =>
      s.(mutex := EventLoop, loop := Holding)
    case SwapBundles =>
      s.(bundles := [], loop := SwappedBundles(s.bundles))
    case SwapResults =>
      s.(results := [], loop := SwappedBoth(s.loop.bundles, s.results))
    case LoopUnlock =>
      s.(mutex := Free, loop := Delivering(s.loop.bundles, s.loop.results))
    case DeliverCpu =>
      s.(delivered := s.delivered + [FromCpu(s.loop.results[0])],
         loop := Delivering(s.loop.bundles, s.loop.results[1..]))
    case EndDrain =>
      if s.loop.bundles == [] then s.(loop := Waiting)
      else s.(loop := Waiting, batons := s.batons + [Baton(s.loop.bundles, [], [], 0, false)])
    case Work(b, outcome) =>
      var t := s.batons[b];
      var found := Survivors(t.bundles[|t.outcomes|], outcome);
      s.(batons := s.batons[b := t.(outcomes := t.outcomes + [outcome],
                                    results := t.results + found,
                                    errors := t.errors + |outcome| - |found|)])
    case WorkDone(b) =>
      s.(loop := Finishing(b, 0), batons := s.batons[b := s.batons[b].(closed := true)])
    case DeliverGpu =>
      s.(delivered := s.delivered + [FromBaton(s.loop.baton, s.batons[s.loop.baton].results[s.loop.sent])],
         loop := s.loop.(sent := s.loop.sent + 1))
    case CloseBaton =>
      s.(loop := Waiting)
  }

  /** The steps can be taken in this order from s. */
  predicate Legal(s: State, steps: seq<Step>)
    decreases |steps|
  {
    steps == [] || (Enabled(s, steps[0]) && Legal(Next(s, steps[0]), steps[1..]))
  }

  function After(s: State, steps: seq<Step>): State
    requires Legal(s, steps)
    decreases |steps|
  {
    if steps == [] then s else After(Next(s, steps[0]), steps[1..])
  }

  // ---------------------------------------------------------------------------
  // Where everything is
  // ---------------------------------------------------------------------------

  function LoopBundles(l: Loop): seq<Bundle> {
    if l.SwappedBundles? || l.SwappedBoth? || l.Delivering? then l.bundles else []
  }

  function LoopResults(l: Loop): seq<CpuResult> {
    if l.SwappedBoth? || l.Delivering? then l.results else []
  }

  function BatonBundles(batons: seq<Baton>): seq<Bundle> {
    if batons == [] then []
    else BatonBundles(batons[..|batons| - 1]) + batons[|batons| - 1].bundles
  }

  /** The CPU results among the deliveries, in delivery order. */
  function CpuDelivered(log: seq<Delivery>): seq<CpuResult> {
    if log == [] then []
    else
      CpuDelivered(log[..|log| - 1]) +
      (if log[|log| - 1].FromCpu? then [log[|log| - 1].result] else [])
  }

  /** The deliveries made on behalf of one baton, in delivery order. */
  function BatonDelivered(log: seq<Delivery>, b: nat): seq<GpuResult> {
    if log == [] then []
    else
      BatonDelivered(log[..|log| - 1], b) +
      (if log[|log| - 1].FromBaton? && log[|log| - 1].baton == b then [log[|log| - 1].gpu] else [])
  }

  /** What a baton's callback has to deliver after the first k bundles were re-checked. */
  function Found(bundles: seq<Bundle>, outcomes: seq<seq<bool>>): seq<GpuResult>
    requires WellChecked(bundles, outcomes)
  {
    if outcomes == [] then []
    else
      var k := |outcomes| - 1;
      Found(bundles, outcomes[..k]) + Survivors(bundles[k], outcomes[k])
  }

  predicate WellChecked(bundles: seq<Bundle>, outcomes: seq<seq<bool>>) {
    && |outcomes| <= |bundles|
    && forall i :: 0 <= i < |outcomes| ==> |outcomes[i]| == |bundles[i].nonces|
  }

  function NonceCount(bundles: seq<Bundle>): nat {
    if bundles == [] then 0
    else NonceCount(bundles[..|bundles| - 1]) + |bundles[|bundles| - 1].nonces|
  }

  // ---------------------------------------------------------------------------
  // Invariants
  // ---------------------------------------------------------------------------

  predicate LoopOwnsMutex(l: Loop) {
    l.Holding? || l.SwappedBundles? || l.SwappedBoth?
  }

  /** The mutex is held by whoever is inside a critical section, and by nobody else. */
  predicate MutexInv(s: State) {
    && (forall p: nat :: p < |s.producers| ==> (s.producers[p].Idle? <==> s.mutex != Thread(p)))
    && (s.mutex.Thread? ==> s.mutex.p < |s.producers|)
    && (s.mutex.EventLoop? <==> LoopOwnsMutex(s.loop))
    && (s.loop.SwappedBundles? || s.loop.SwappedBoth? ==> s.bundles == [])
    && (s.loop.SwappedBoth? ==> s.results == [])
  }

  /** A producer that pushed and has not sent yet. */
  predicate SendDue(s: State) {
    s.mutex.Thread? && s.mutex.p < |s.producers| && s.producers[s.mutex.p].Pushed?
  }

  /** A callback that has still to swap. */
  predicate SwapDue(l: Loop) {
    l.Woken? || l.Holding? || l.SwappedBundles?
  }

  /** No lost wakeup. */
  predicate WakeInv(s: State) {
    s.results != [] || s.bundles != [] ==> s.pending || SendDue(s) || SwapDue(s.loop)
  }

  /** Results: delivered, then drained, then queued, each once and in submission order. */
  predicate ResultsInv(s: State) {
    s.submittedResults == CpuDelivered(s.delivered) + LoopResults(s.loop) + s.results
  }

  /** Bundles: in exactly one baton, or drained, or queued, in submission order. */
  predicate BundlesInv(s: State) {
    s.submittedBundles == BatonBundles(s.batons) + LoopBundles(s.loop) + s.bundles
  }

  predicate BatonOk(t: Baton) {
    && WellChecked(t.bundles, t.outcomes)
    && t.results == Found(t.bundles, t.outcomes)
    && |t.results| + t.errors == NonceCount(t.bundles[..|t.outcomes|])
    && (t.closed ==> |t.outcomes| == |t.bundles|)
  }

  /** How many of a baton's results its callback has delivered. */
  function SentOf(s: State, b: nat): nat
    requires b < |s.batons|
  {
    if s.loop.Finishing? && s.loop.baton == b then s.loop.sent
    else if s.batons[b].closed then |s.batons[b].results|
    else 0
  }

  predicate BatonsInv(s: State) {
    && (forall b: nat :: b < |s.batons| ==> BatonOk(s.batons[b]))
    && (s.loop.Finishing? ==> s.loop.baton < |s.batons| && s.batons[s.loop.baton].closed)
  }

  /** Each baton has delivered a prefix of its results, once; nobody else delivers for it. */
  ghost predicate DeliveryInv(s: State) {
    && (forall b: nat :: b < |s.batons| ==>
         SentOf(s, b) <= |s.batons[b].results| && BatonDelivered(s.delivered, b) == s.batons[b].results[..SentOf(s, b)])
    && (forall b: nat :: b >= |s.batons| ==> BatonDelivered(s.delivered, b) == [])
  }

  ghost predicate Inv(s: State) {
    MutexInv(s) && WakeInv(s) && ResultsInv(s) && BundlesInv(s) && BatonsInv(s) && DeliveryInv(s)
  }

  lemma InitialInv(threads: nat)
    ensures Inv(Initial(threads))
  {
    var s := Initial(threads);
    assert MutexInv(s) && WakeInv(s);
    hide MutexInv, WakeInv;
    assert BatonsInv(s) && DeliveryInv(s);
    hide BatonsInv, DeliveryInv;
    assert ResultsInv(s) && BundlesInv(s);
  }

  lemma MutexStep(s: State, e: Step)
    requires MutexInv(s) && Enabled(s, e)
    ensures MutexInv(Next(s, e))
  {
  }

  lemma WakeStep(s: State, e: Step)
    requires MutexInv(s) && WakeInv(s) && Enabled(s, e)
    ensures WakeInv(Next(s, e))
  {
  }

  lemma CpuDeliveredSnoc(log: seq<Delivery>, d: Delivery)
    ensures CpuDelivered(log + [d]) == CpuDelivered(log) + (if d.FromCpu? then [d.result] else [])
  {
  }

  lemma BatonDeliveredSnoc(log: seq<Delivery>, d: Delivery, b: nat)
    ensures BatonDelivered(log + [d], b)
         == BatonDelivered(log, b) + (if d.FromBaton? && d.baton == b then [d.gpu] else [])
  {
  }

  lemma MoveHead<T>(a: seq<T>, b: seq<T>, c: seq<T>)
    requires b != []
    ensures a + b + c == (a + [b[0]]) + b[1..] + c
  {
  }

  lemma AppendTail<T>(a: seq<T>, b: seq<T>, c: seq<T>, d: seq<T>)
    ensures a + b + c + d == a + b + (c + d)
    ensures a + [] + c == a + c + []
  {
  }

  lemma DeliverKeepsResults(s: State, e: Step)
    requires ResultsInv(s) && Enabled(s, e) && (e.DeliverCpu? || e.DeliverGpu?)
    ensures ResultsInv(Next(s, e))
  {
    hide CpuDelivered;
    var d := CpuDelivered(s.delivered);
    if e.DeliverCpu? {
      CpuDeliveredSnoc(s.delivered, FromCpu(s.loop.results[0]));
      MoveHead(d, s.loop.results, s.results);
    } else {
      CpuDeliveredSnoc(s.delivered, FromBaton(s.loop.baton, s.batons[s.loop.baton].results[s.loop.sent]));
    }
  }

  lemma ResultsStep(s: State, e: Step)
    requires MutexInv(s) && ResultsInv(s) && Enabled(s, e)
    ensures ResultsInv(Next(s, e))
  {
    var d := CpuDelivered(s.delivered);
    if e.DeliverCpu? || e.DeliverGpu? {
      DeliverKeepsResults(s, e);
    } else if e.Push? && s.producers[e.p].item.Cpu? {
      AppendTail(d, LoopResults(s.loop), s.results, [s.producers[e.p].item.result]);
    } else if e.SwapResults? {
      AppendTail(d, [], s.results, []);
    }
  }

  lemma {:induction false} BatonBundlesUpdate(batons: seq<Baton>, b: nat, t: Baton)
    requires b < |batons| && t.bundles == batons[b].bundles
    ensures BatonBundles(batons[b := t]) == BatonBundles(batons)
  {
    var n := |batons| - 1;
    if b == n {
      assert batons[b := t][..n] == batons[..n];
    } else {
      BatonBundlesUpdate(batons[..n], b, t);
      assert batons[b := t][..n] == batons[..n][b := t];
    }
  }

  lemma BatonBundlesSnoc(batons: seq<Baton>, t: Baton)
    ensures BatonBundles(batons + [t]) == BatonBundles(batons) + t.bundles
  {
  }

  lemma BundlesStep(s: State, e: Step)
    requires MutexInv(s) && BundlesInv(s) && Enabled(s, e)
    ensures BundlesInv(Next(s, e))
  {
    var d := BatonBundles(s.batons);
    match e
    case Push(p) =>
      if s.producers[p].item.Gpu? {
        AppendTail(d, LoopBundles(s.loop), s.bundles, [s.producers[p].item.bundle]);
      }
    case SwapBundles =>
      AppendTail(d, [], s.bundles, []);
    case EndDrain =>
      BatonBundlesSnoc(s.batons, Baton(s.loop.bundles, [], [], 0, false));
      AppendTail(d, s.loop.bundles, s.bundles, []);
    case Work(b, outcome) =>
      BatonBundlesUpdate(s.batons, b, Next(s, e).batons[b]);
    case WorkDone(b) =>
      BatonBundlesUpdate(s.batons, b, Next(s, e).batons[b]);
    case _ =>
  }

  lemma WorkKeepsBaton(t: Baton, outcome: seq<bool>, t': Baton)
    requires BatonOk(t) && |t.outcomes| < |t.bundles|
    requires |outcome| == |t.bundles[|t.outcomes|].nonces|
    requires var found := Survivors(t.bundles[|t.outcomes|], outcome);
      t' == t.(outcomes := t.outcomes + [outcome], results := t.results + found,
               errors := t.errors + |outcome| - |found|)
    ensures BatonOk(t')
  {
    var k := |t.outcomes|;
    assert t'.outcomes[..k] == t.outcomes;
    assert t.bundles[..k + 1][..k] == t.bundles[..k];
  }

  lemma BatonsStep(s: State, e: Step)
    requires BatonsInv(s) && Enabled(s, e)
    ensures BatonsInv(Next(s, e))
  {
    match e
    case Work(b, outcome) =>
      WorkKeepsBaton(s.batons[b], outcome, Next(s, e).batons[b]);
    case _ =>
  }

  lemma DeliverCpuKeepsDelivery(s: State)
    requires DeliveryInv(s) && Enabled(s, DeliverCpu)
    ensures DeliveryInv(Next(s, DeliverCpu))
  {
  }

  lemma DeliverGpuKeepsDelivery(s: State)
    requires BatonsInv(s) && DeliveryInv(s) && Enabled(s, DeliverGpu)
    ensures DeliveryInv(Next(s, DeliverGpu))
  {
    var t, n := s.batons[s.loop.baton], s.loop.sent;
    forall b: nat {
      BatonDeliveredSnoc(s.delivered, FromBaton(s.loop.baton, t.results[n]), b);
    }
    assert t.results[..n + 1] == t.results[..n] + [t.results[n]];
  }

  lemma EndDrainKeepsDelivery(s: State)
    requires BatonsInv(s) && DeliveryInv(s) && Enabled(s, EndDrain)
    ensures DeliveryInv(Next(s, EndDrain))
  {
    hide BatonOk, BatonDelivered;
  }

  lemma WorkKeepsDelivery(s: State, e: Step)
    requires BatonsInv(s) && DeliveryInv(s) && e.Work? && Enabled(s, e)
    ensures DeliveryInv(Next(s, e))
  {
    hide BatonDelivered, Found, NonceCount, WellChecked, Survivors;
  }

  lemma CallbackKeepsDelivery(s: State, e: Step)
    requires BatonsInv(s) && DeliveryInv(s) && (e.WorkDone? || e.CloseBaton?) && Enabled(s, e)
    ensures DeliveryInv(Next(s, e))
  {
    hide BatonOk, BatonDelivered;
  }

  /** Nothing delivered and no baton touched. */
  lemma SameDelivery(s: State, t: State)
    requires DeliveryInv(s) && s.batons == t.batons && s.delivered == t.delivered
    requires s.loop.Finishing? || t.loop.Finishing? ==> s.loop == t.loop
    ensures DeliveryInv(t)
  {
    hide BatonDelivered;
  }

  lemma DeliveryStep(s: State, e: Step)
    requires BatonsInv(s) && DeliveryInv(s) && Enabled(s, e)
    ensures DeliveryInv(Next(s, e))
  {
    match e
    case DeliverCpu =>
      DeliverCpuKeepsDelivery(s);
    case DeliverGpu =>
      DeliverGpuKeepsDelivery(s);
    case EndDrain =>
      EndDrainKeepsDelivery(s);
    case Work(_, _) =>
      WorkKeepsDelivery(s, e);
    case WorkDone(_) =>
      CallbackKeepsDelivery(s, e);
    case CloseBaton =>
      CallbackKeepsDelivery(s, e);
    case _ =>
      hide BatonOk, BatonDelivered, DeliveryInv;
      SameDelivery(s, Next(s, e));
  }

  /** Every step of every thread keeps all the invariants. */
  lemma {:induction false} StepKeepsInv(s: State, e: Step)
    requires Inv(s) && Enabled(s, e)
    ensures Inv(Next(s, e))
  {
    MutexStep(s, e);
    WakeStep(s, e);
    ResultsStep(s, e);
    BundlesStep(s, e);
    BatonsStep(s, e);
    DeliveryStep(s, e);
  }

  /** The invariants hold after every interleaving. */
  lemma {:induction false} RunKeepsInv(s: State, steps: seq<Step>)
    requires Inv(s) && Legal(s, steps)
    ensures Inv(After(s, steps))
    decreases |steps|
  {
    if steps != [] {
      StepKeepsInv(s, steps[0]);
      RunKeepsInv(Next(s, steps[0]), steps[1..]);
    }
  }

  // ---------------------------------------------------------------------------
  // Main results, over every interleaving
  // ---------------------------------------------------------------------------

  /**
   No lost wakeup: whenever something is queued, a signal is pending, or the producer that
   queued it has still to send one, or a callback that will swap the queues is under way.
   */
  lemma NoLostWakeup(threads: nat, steps: seq<Step>)
    requires Legal(Initial(threads), steps)
    ensures var s := After(Initial(threads), steps);
      s.results != [] || s.bundles != [] ==> s.pending || SendDue(s) || SwapDue(s.loop)
  {
    InitialInv(threads);
    RunKeepsInv(Initial(threads), steps);
  }

  /**
   CPU results are delivered in lock-acquisition order and at most once; what is not yet
   delivered is drained or queued, in that order, and nothing is anywhere else.
   */
  lemma ResultsDeliveredInOrder(threads: nat, steps: seq<Step>)
    requires Legal(Initial(threads), steps)
    ensures var s := After(Initial(threads), steps);
      && CpuDelivered(s.delivered) <= s.submittedResults
      && s.submittedResults[|CpuDelivered(s.delivered)|..] == LoopResults(s.loop) + s.results
  {
    InitialInv(threads);
    RunKeepsInv(Initial(threads), steps);
    var s := After(Initial(threads), steps);
    var d := CpuDelivered(s.delivered);
    assert s.submittedResults == d + (LoopResults(s.loop) + s.results);
  }

  /** Nonces of a baton that its worker has not reached. */
  function Unchecked(t: Baton): nat
    requires |t.outcomes| <= |t.bundles|
  {
    NonceCount(t.bundles[|t.outcomes|..])
  }

  lemma {:induction false} NonceCountConcat(a: seq<Bundle>, b: seq<Bundle>)
    ensures NonceCount(a + b) == NonceCount(a) + NonceCount(b)
  {
    if b == [] {
      assert a + b == a;
    } else {
      assert (a + b)[..|a + b| - 1] == a + b[..|b| - 1];
      NonceCountConcat(a, b[..|b| - 1]);
    }
  }

  /**
   Every bundle enters exactly one baton, in submission order; within a baton every nonce is
   unchecked, a result or a counted error; and the results delivered for a baton are a
   prefix of the surviving nonces of its bundles, all of them once its callback is over.
   */
  lemma BundlesAccountedFor(threads: nat, steps: seq<Step>, b: nat)
    requires Legal(Initial(threads), steps) && b < |After(Initial(threads), steps).batons|
    ensures var s := After(Initial(threads), steps);
      var t := s.batons[b];
      && s.submittedBundles == BatonBundles(s.batons) + LoopBundles(s.loop) + s.bundles
      && WellChecked(t.bundles, t.outcomes)
      && Unchecked(t) + |t.results| + t.errors == NonceCount(t.bundles)
      && BatonDelivered(s.delivered, b) <= t.results
      && t.results == Found(t.bundles, t.outcomes)
      && (t.closed && !(s.loop.Finishing? && s.loop.baton == b) ==>
            |t.outcomes| == |t.bundles| && BatonDelivered(s.delivered, b) == t.results)
  {
    InitialInv(threads);
    RunKeepsInv(Initial(threads), steps);
    var t := After(Initial(threads), steps).batons[b];
    assert t.bundles == t.bundles[..|t.outcomes|] + t.bundles[|t.outcomes|..];
    NonceCountConcat(t.bundles[..|t.outcomes|], t.bundles[|t.outcomes|..]);
  }

  // ---------------------------------------------------------------------------
  // Once submissions stop, everything is delivered
  // ---------------------------------------------------------------------------

  /** Nothing is left to do: every thread is idle and every baton has been closed. */
  predicate Quiescent(s: State) {
    && (forall p :: 0 <= p < |s.producers| ==> s.producers[p].Idle?)
    && !s.pending && s.loop.Waiting?
    && (forall b :: 0 <= b < |s.batons| ==> s.batons[b].closed)
  }

  /** In a quiescent state everything submitted was delivered or counted as an error. */
  lemma QuiescentMeansDelivered(threads: nat, steps: seq<Step>)
    requires Legal(Initial(threads), steps) && Quiescent(After(Initial(threads), steps))
    ensures var s := After(Initial(threads), steps);
      && CpuDelivered(s.delivered) == s.submittedResults
      && BatonBundles(s.batons) == s.submittedBundles
      && forall b :: 0 <= b < |s.batons| ==>
           && BatonDelivered(s.delivered, b) == s.batons[b].results
           && |s.batons[b].results| + s.batons[b].errors == NonceCount(s.batons[b].bundles)
  {
    InitialInv(threads);
    RunKeepsInv(Initial(threads), steps);
    var s := After(Initial(threads), steps);
    forall b | 0 <= b < |s.batons|
      ensures BatonDelivered(s.delivered, b) == s.batons[b].results
      ensures |s.batons[b].results| + s.batons[b].errors == NonceCount(s.batons[b].bundles)
    {
      var t := s.batons[b];
      assert BatonOk(t) && t.bundles[..|t.outcomes|] == t.bundles;
      assert SentOf(s, b) == |t.results| && t.results[..|t.results|] == t.results;
    }
  }

  /** The steps the program takes on its own, that is all but a new submission. */
  predicate Internal(e: Step) {
    !e.Lock?
  }

  /** No deadlock: in a reachable state that is not quiescent some internal step is enabled. */
  lemma Progress(s: State) returns (e: Step)
    requires MutexInv(s) && BatonsInv(s) && DeliveryInv(s) && !Quiescent(s)
    ensures Internal(e) && Enabled(s, e)
  {
    if s.mutex.Thread? {
      var p := s.mutex.p;
      e := if s.producers[p].Locked? then Push(p) else if s.producers[p].Pushed? then Send(p) else Unlock(p);
      return;
    }
    match s.loop
    case Woken => e := LoopLock;
    case Holding => e := SwapBundles;
    case SwappedBundles(_) => e := SwapResults;
    case SwappedBoth(_, _) => e := LoopUnlock;
    case Delivering(_, results) => e := if results != [] then DeliverCpu else EndDrain;
    case Finishing(b, sent) =>
      assert sent == SentOf(s, b) <= |s.batons[b].results|;
      e := if sent < |s.batons[b].results| then DeliverGpu else CloseBaton;
    case Waiting =>
      if s.pending {
        e := Wake;
      } else {
        assert forall p :: 0 <= p < |s.producers| ==> s.producers[p].Idle?;
        var b: nat :| b < |s.batons| && !s.batons[b].closed;
        var t := s.batons[b];
        assert BatonOk(t);
        if |t.outcomes| == |t.bundles| {
          e := WorkDone(b);
        } else {
          e := Work(b, seq(|t.bundles[|t.outcomes|].nonces|, i => false));
        }
      }
  }

  // A measure that every internal step decreases.

  function ProducerWork(q: Producer): nat {
    match q
    case Idle => 0
    case Locked(item) => if item.Cpu? then 12 else 12 + |item.bundle.nonces|
    case Pushed => 10
    case Sent => 1
  }

  function ProducersWork(qs: seq<Producer>): nat {
    if qs == [] then 0 else ProducersWork(qs[..|qs| - 1]) + ProducerWork(qs[|qs| - 1])
  }

  function BundlesWork(bs: seq<Bundle>): nat {
    |bs| + NonceCount(bs)
  }

  function BatonWork(t: Baton): nat {
    if t.closed || |t.outcomes| > |t.bundles| then 0
    else 2 + BundlesWork(t.bundles[|t.outcomes|..]) + |t.results|
  }

  function BatonsWork(ts: seq<Baton>): nat {
    if ts == [] then 0 else BatonsWork(ts[..|ts| - 1]) + BatonWork(ts[|ts| - 1])
  }

  function LoopWork(s: State): int {
    match s.loop
    case Waiting => 0
    case Woken => 7
    case Holding => 6
    case SwappedBundles(bundles) => 5 + BundlesWork(bundles)
    case SwappedBoth(bundles, results) => 4 + BundlesWork(bundles) + |results|
    case Delivering(bundles, results) => 3 + BundlesWork(bundles) + |results|
    case Finishing(b, sent) => if b < |s.batons| then 1 + |s.batons[b].results| - sent else 0
  }

  /** An upper bound on the number of internal steps left. */
  function WorkLeft(s: State): int {
    ProducersWork(s.producers) + (if s.pending then 8 else 0) + LoopWork(s)
      + |s.results| + BundlesWork(s.bundles) + BatonsWork(s.batons)
  }

  lemma {:induction false} ProducersWorkUpdate(qs: seq<Producer>, p: nat, q: Producer)
    requires p < |qs|
    ensures ProducersWork(qs[p := q]) == ProducersWork(qs) - ProducerWork(qs[p]) + ProducerWork(q)
  {
    var n := |qs| - 1;
    if p == n {
      assert qs[p := q][..n] == qs[..n];
    } else {
      ProducersWorkUpdate(qs[..n], p, q);
      assert qs[p := q][..n] == qs[..n][p := q];
    }
  }

  lemma {:induction false} BatonsWorkUpdate(ts: seq<Baton>, b: nat, t: Baton)
    requires b < |ts|
    ensures BatonsWork(ts[b := t]) == BatonsWork(ts) - BatonWork(ts[b]) + BatonWork(t)
  {
    var n := |ts| - 1;
    if b == n {
      assert ts[b := t][..n] == ts[..n];
    } else {
      BatonsWorkUpdate(ts[..n], b, t);
      assert ts[b := t][..n] == ts[..n][b := t];
    }
  }

  lemma CheckedBundle(t: Baton, outcome: seq<bool>)
    requires |t.outcomes| < |t.bundles|
    ensures BundlesWork(t.bundles[|t.outcomes|..])
         == 1 + |t.bundles[|t.outcomes|].nonces| + BundlesWork(t.bundles[|t.outcomes| + 1..])
  {
    var k := |t.outcomes|;
    assert t.bundles[k..] == [t.bundles[k]] + t.bundles[k + 1..];
    NonceCountConcat([t.bundles[k]], t.bundles[k + 1..]);
    assert [t.bundles[k]][..0] == [];
  }

  lemma LoopStepWork(s: State, e: Step)
    requires Enabled(s, e)
    requires e.Wake? || e.LoopLock? || e.SwapBundles? || e.SwapResults? || e.LoopUnlock? || e.DeliverCpu? || e.DeliverGpu? || e.CloseBaton?
    ensures WorkLeft(Next(s, e)) < WorkLeft(s)
  {
  }

  lemma EndDrainWork(s: State)
    requires Enabled(s, EndDrain)
    ensures WorkLeft(Next(s, EndDrain)) < WorkLeft(s)
  {
  }

  lemma BundlesWorkSnoc(bs: seq<Bundle>, b: Bundle)
    ensures BundlesWork(bs + [b]) == BundlesWork(bs) + 1 + |b.nonces|
  {
  }

  lemma PushWork(s: State, p: nat)
    requires Enabled(s, Push(p))
    ensures WorkLeft(Next(s, Push(p))) < WorkLeft(s)
  {
    ProducersWorkUpdate(s.producers, p, Pushed);
    if s.producers[p].item.Gpu? {
      BundlesWorkSnoc(s.bundles, s.producers[p].item.bundle);
    }
  }

  lemma SendOrUnlockWork(s: State, e: Step)
    requires Enabled(s, e) && (e.Send? || e.Unlock?)
    ensures WorkLeft(Next(s, e)) < WorkLeft(s)
  {
    ProducersWorkUpdate(s.producers, e.p, if e.Send? then Sent else Idle);
  }

  lemma CheckedBatonWork(t: Baton, outcome: seq<bool>, t': Baton)
    requires |t.outcomes| < |t.bundles| && |outcome| == |t.bundles[|t.outcomes|].nonces| && !t.closed
    requires t'.bundles == t.bundles && t'.outcomes == t.outcomes + [outcome] && !t'.closed
    requires |t'.results| <= |t.results| + |outcome|
    ensures BatonWork(t') < BatonWork(t)
  {
    CheckedBundle(t, outcome);
  }

  lemma WorkWork(s: State, b: nat, outcome: seq<bool>)
    requires BatonsInv(s) && Enabled(s, Work(b, outcome))
    ensures WorkLeft(Next(s, Work(b, outcome))) < WorkLeft(s)
  {
    var t, t' := s.batons[b], Next(s, Work(b, outcome)).batons[b];
    assert BatonOk(t);
    CheckedBatonWork(t, outcome, t');
    BatonsWorkUpdate(s.batons, b, t');
  }

  lemma WorkDoneWork(s: State, b: nat)
    requires BatonsInv(s) && Enabled(s, WorkDone(b))
    ensures WorkLeft(Next(s, WorkDone(b))) < WorkLeft(s)
  {
    hide BatonsWork, ProducersWork, BundlesWork;
    BatonsWorkUpdate(s.batons, b, s.batons[b].(closed := true));
  }

  lemma WorkLeftNonNegative(s: State)
    requires BatonsInv(s) && DeliveryInv(s)
    ensures WorkLeft(s) >= 0
  {
  }

  /**
   After the last submission only boundedly many steps remain, so by Progress every
   uninterrupted run reaches a quiescent state, where everything has been delivered.
   */
  lemma {:induction false} InternalRunBounded(s: State, steps: seq<Step>)
    requires Inv(s) && Legal(s, steps) && forall i :: 0 <= i < |steps| ==> Internal(steps[i])
    ensures |steps| <= WorkLeft(s)
    decreases |steps|
  {
    if steps == [] {
      WorkLeftNonNegative(s);
    } else {
      var e := steps[0];
      StepKeepsInv(s, e);
      match e {
        case Push(p) => PushWork(s, p);
        case Send(_) => SendOrUnlockWork(s, e);
        case Unlock(_) => SendOrUnlockWork(s, e);
        case EndDrain => EndDrainWork(s);
        case Work(b, outcome) => WorkWork(s, b, outcome);
        case WorkDone(b) => WorkDoneWork(s, b);
        case _ => LoopStepWork(s, e);
      }
      InternalRunBounded(Next(s, e), steps[1..]);
    }
  }

  /**
   Liveness: a run that has taken as many internal steps as it can since the last submission
   ends with every submitted result delivered and every bundle re-checked and delivered.
   */
  lemma StuckMeansDelivered(threads: nat, steps: seq<Step>)
    requires Legal(Initial(threads), steps)
    requires forall e :: Enabled(After(Initial(threads), steps), e) ==> !Internal(e)
    ensures var s := After(Initial(threads), steps);
      && CpuDelivered(s.delivered) == s.submittedResults
      && BatonBundles(s.batons) == s.submittedBundles
      && forall b :: 0 <= b < |s.batons| ==>
           && BatonDelivered(s.delivered, b) == s.batons[b].results
           && |s.batons[b].results| + s.batons[b].errors == NonceCount(s.batons[b].bundles)
  {
    InitialInv(threads);
    RunKeepsInv(Initial(threads), steps);
    if !Quiescent(After(Initial(threads), steps)) {
      var e := Progress(After(Initial(threads), steps));
    }
    QuiescentMeansDelivered(threads, steps);
  }
}
