/**
 The network side of mining control. Strategies are identities; their answers are inputs.
 */
module Network {
  import opened Wrappers
  import M = Miner

  // Jobs arrive from the user's strategy or the donate strategy and are installed on the miner;
  // workers copy the miner's job at any time; results come back at any later time, after any number
  // of job switches and strategy replacements, and are submitted to a strategy.

  /** What a worker reports: the fields copied from the job it worked on. */
  datatype Result = Result(jobId: Option<string>, nonce: nat, index: nat, origin: M.Origin)

  function ResultOf(job: M.Job, nonce: nat): Result {
    Result(job.id, nonce, job.index, job.origin)
  }

  /** Calls made on strategies, in order. */
  datatype Call =
    | CreateCall(strategy: nat)
    | ConnectCall(strategy: nat)
    | ResumeCall(strategy: nat)
    | StopCall(strategy: nat)
    | DeleteCall(strategy: nat)
    | SetAlgoCall(strategy: nat, family: M.Family)
    | SubmitCall(strategy: nat, result: Result)

  /** The network object together with the miner it drives; `created` numbers the strategies. */
  datatype Core = Core(miner: M.State, donate: Option<nat>, strategy: nat, created: nat, calls: seq<Call>)

  /** A job as it arrives, with the dataset readiness found while it is installed. */
  datatype Arrival = Arrival(job: M.Job, readyBefore: bool, readyAfter: bool)

  function InitialCore(miner: M.State, donating: bool): Core {
    if donating then Core(miner, Some(1), 0, 2, [CreateCall(0), CreateCall(1)])
    else Core(miner, None, 0, 1, [CreateCall(0)])
  }

  function Log(c: Core, calls: seq<Call>): Core {
    c.(calls := c.calls + calls)
  }

  /** The job as seen by history: where it came from. */
  function Stamped(job: M.Job, donate: bool): M.Job {
    job.(origin := if donate then M.DonateStrategy else M.UserStrategy)
  }

  function SetJob(c: Core, a: Arrival, donate: bool): Core {
    var d := if !donate && c.donate.Some? then Log(c, [SetAlgoCall(c.donate.value, a.job.family)]) else c;
    d.(miner := M.SetJob(c.miner, Stamped(a.job, donate), donate, a.readyBefore, a.readyAfter))
  }

  function OnJob(c: Core, strategy: nat, a: Arrival, donateActive: bool): Core {
    if c.donate.Some? && donateActive && c.donate.value != strategy then c
    else SetJob(c, a, c.donate == Some(strategy))
  }

  function OnJobResult(c: Core, r: Result): Core {
    Log(c, [SubmitCall(if r.index == 1 && c.donate.Some? then c.donate.value else c.strategy, r)])
  }

  /** Resuming the user's strategy may deliver its current job before the call returns. */
  function Resume(c: Core, resumed: Option<Arrival>, donateActive: bool): Core {
    var d := Log(c, [ResumeCall(c.strategy)]);
    if resumed.Some? then OnJob(d, c.strategy, resumed.value, donateActive) else d
  }

  function OnPause(c: Core, strategy: nat, strategyActive: bool, resumed: Option<Arrival>, donateActive: bool): Core {
    var d := if c.donate == Some(strategy) then Resume(c, resumed, donateActive) else c;
    if strategyActive then d else d.(miner := M.PauseMining(d.miner))
  }

  function OnConfigChanged(c: Core, poolsChanged: bool, poolsActive: bool): Core {
    if !poolsChanged || !poolsActive then c
    else
      Log(c, [StopCall(c.strategy), DeleteCall(c.strategy), CreateCall(c.created), ConnectCall(c.created)]).(
        strategy := c.created, created := c.created + 1)
  }

  // ---------------------------------------------------------------------------
  // The network object, as it works
  // ---------------------------------------------------------------------------

  class Network {
    const miner: M.Miner
    const donate: Option<nat>
    var strategy: nat
    var created: nat
    var calls: seq<Call>

    function Value(): Core
      reads this, miner
    {
      Core(miner.Value(), donate, strategy, created, calls)
    }

    constructor (miner: M.Miner, donateLevel: nat)
      ensures this.miner == miner
      ensures Value() == InitialCore(miner.Value(), donateLevel > 0)
    {
      this.miner := miner;
      strategy := 0;
      if donateLevel > 0 {
        donate, created, calls := Some(1), 2, [CreateCall(0), CreateCall(1)];
      } else {
        donate, created, calls := None, 1, [CreateCall(0)];
      }
    }

    method DoSetJob(a: Arrival, fromDonate: bool)
      modifies this`calls, miner
      ensures Value() == SetJob(old(Value()), a, fromDonate)
    {
      hide M.SetJob;
      if !fromDonate && donate.Some? {
        calls := calls + [SetAlgoCall(donate.value, a.job.family)];
      }
      miner.DoSetJob(Stamped(a.job, fromDonate), fromDonate, a.readyBefore, a.readyAfter);
    }

    method DoOnJob(from: nat, a: Arrival, donateActive: bool)
      modifies this`calls, miner
      ensures Value() == OnJob(old(Value()), from, a, donateActive)
    {
      hide SetJob;
      if donate.Some? && donateActive && donate.value != from {
        return;
      }
      DoSetJob(a, donate == Some(from));
    }

    method DoOnJobResult(r: Result)
      modifies this`calls
      ensures Value() == OnJobResult(old(Value()), r)
    {
      if r.index == 1 && donate.Some? {
        calls := calls + [SubmitCall(donate.value, r)];
        return;
      }
      calls := calls + [SubmitCall(strategy, r)];
    }

    method DoOnPause(from: nat, strategyActive: bool, resumed: Option<Arrival>, donateActive: bool)
      modifies this`calls, miner
      ensures Value() == OnPause(old(Value()), from, strategyActive, resumed, donateActive)
    {
      hide OnJob;
      if donate == Some(from) {
        calls := calls + [ResumeCall(strategy)];
        if resumed.Some? {
          DoOnJob(strategy, resumed.value, donateActive);
        }
      }
      if !strategyActive {
        miner.DoPause();
      }
    }

    method DoOnConfigChanged(poolsChanged: bool, poolsActive: bool)
      modifies this`strategy, this`created, this`calls
      ensures Value() == OnConfigChanged(old(Value()), poolsChanged, poolsActive)
    {
      if !poolsChanged || !poolsActive {
        return;
      }
      calls := calls + [StopCall(strategy)];
      calls := calls + [DeleteCall(strategy)];
      strategy, created := created, created + 1;
      calls := calls + [CreateCall(strategy)];
      calls := calls + [ConnectCall(strategy)];
      assert calls == old(calls) + [StopCall(old(strategy)), DeleteCall(old(strategy)), CreateCall(strategy), ConnectCall(strategy)];
    }
  }

  // ---------------------------------------------------------------------------
  // Logging in: the preferred algorithm goes first
  // ---------------------------------------------------------------------------

  method FindFirst(list: seq<nat>, a: nat) returns (index: nat)
    ensures index <= |list|
    ensures index < |list| ==> list[index] == a
    ensures a !in list[..index]
  {
    index := 0;
    while index < |list| && list[index] != a
      invariant index <= |list|
      invariant a !in list[..index]
    {
      index := index + 1;
    }
  }

  /**
   The list sent to the pool: every algorithm the miner can run, as often as before, with the
   pool's own algorithm first when the miner can run it, and at most that swap.
   */
  method LoginAlgorithms(algorithms: seq<nat>, preferred: Option<nat>) returns (list: seq<nat>)
    ensures multiset(list) == multiset(algorithms) && |list| == |algorithms|
    ensures preferred.Some? && preferred.value in algorithms ==> list[0] == preferred.value
    ensures preferred.None? || preferred.value !in algorithms ==> list == algorithms
    ensures preferred.Some? ==> forall i :: 0 < i < |list| && algorithms[i] != preferred.value ==> list[i] == algorithms[i]
  {
    list := algorithms;
    if preferred.Some? {
      var index := FindFirst(list, preferred.value);
      if 0 < index < |list| {
        list := list[0 := list[index]][index := list[0]];
      }
    }
  }

  // ---------------------------------------------------------------------------
  // Runs: callbacks, workers and deliveries in any order
  // ---------------------------------------------------------------------------

  datatype State = State(core: Core, workers: seq<M.Job>, inFlight: seq<Result>, found: seq<Result>)

  datatype Step =
    | JobStep(strategy: nat, arrival: Arrival, donateActive: bool)
    | PauseStep(strategy: nat, strategyActive: bool, resumed: Option<Arrival>, donateActive: bool)
    | ConfigStep(poolsChanged: bool, poolsActive: bool)
    | MinerStep(event: M.Event)              // any callback of the miner that sets no job
    | ConsumeStep(worker: nat)               // a worker copies the miner's job
    | FoundStep(worker: nat, nonce: nat)     // a worker reports a nonce
    | DeliverStep(i: nat)                    // any reported result reaches onJobResult

  predicate Enabled(s: State, e: Step) {
    match e
    case MinerStep(event) => !event.SetJobEvent?
    case ConsumeStep(w) => w < |s.workers|
    case FoundStep(w, _) => w < |s.workers|
    case DeliverStep(i) => i < |s.inFlight|
    case _ => true
  }

  function NextCore(c: Core, e: Step): Core {
    match e
    case JobStep(strategy, a, donateActive) => OnJob(c, strategy, a, donateActive)
    case PauseStep(strategy, active, resumed, donateActive) => OnPause(c, strategy, active, resumed, donateActive)
    case ConfigStep(changed, active) => OnConfigChanged(c, changed, active)
    case MinerStep(event) => c.(miner := M.Next(c.miner, event))
    case _ => c
  }

  /** A step that is not enabled leaves everything as it is. */
  function Next(s: State, e: Step): State {
    if !Enabled(s, e) then s
    else
      match e
      case ConsumeStep(w) => s.(workers := s.workers[w := s.core.miner.job])
      case FoundStep(w, nonce) =>
        var r := ResultOf(s.workers[w], nonce);
        s.(inFlight := s.inFlight + [r], found := s.found + [r])
      case DeliverStep(i) =>
        s.(core := OnJobResult(s.core, s.inFlight[i]), inFlight := s.inFlight[..i] + s.inFlight[i + 1..])
      case _ => s.(core := NextCore(s.core, e))
  }

  function Initial(backends: nat, workers: nat, donating: bool): State {
    State(InitialCore(M.Initial(backends), donating), seq(workers, i => M.DEFAULT_JOB), [], [])
  }

  /** The state after the first k steps of a run. */
  function After(s: State, steps: seq<Step>, k: nat): State
    requires k <= |steps|
  {
    if k == 0 then s else Next(After(s, steps, k - 1), steps[k - 1])
  }

  // ---------------------------------------------------------------------------
  // Results go home
  // ---------------------------------------------------------------------------

  /** The index tells the origin, and donate jobs exist only if there is a donate strategy. */
  predicate Homed(index: nat, origin: M.Origin, donate: Option<nat>) {
    && index == (if origin.DonateStrategy? then 1 else 0)
    && (origin.DonateStrategy? ==> donate.Some?)
  }

  /** The strategy created last among the first k calls, the donate strategy apart. */
  function LastCreated(calls: seq<Call>, donate: Option<nat>, k: nat): Option<nat>
    requires k <= |calls|
  {
    if k == 0 then None
    else if calls[k - 1].CreateCall? && Some(calls[k - 1].strategy) != donate then Some(calls[k - 1].strategy)
    else LastCreated(calls, donate, k - 1)
  }

  lemma {:induction false} LastCreatedPrefix(calls: seq<Call>, more: seq<Call>, donate: Option<nat>, k: nat)
    requires k <= |calls|
    ensures LastCreated(calls + more, donate, k) == LastCreated(calls, donate, k)
  {
    if k > 0 {
      LastCreatedPrefix(calls, more, donate, k - 1);
    }
  }

  /** Call i, if it submits a result, submits it to the strategy the result's job came from. */
  predicate HomeAt(calls: seq<Call>, donate: Option<nat>, i: nat)
    requires i < |calls|
  {
    calls[i].SubmitCall? ==>
      Some(calls[i].strategy) ==
        if calls[i].result.origin.DonateStrategy? then donate else LastCreated(calls, donate, i)
  }

  ghost predicate AllHome(c: Core) {
    forall i :: 0 <= i < |c.calls| ==> HomeAt(c.calls, c.donate, i)
  }

  /** Strategies are created in order, and only the last one and the donate strategy are alive. */
  ghost predicate StrategiesOk(c: Core) {
    && c.strategy < c.created
    && (c.donate.Some? ==> c.donate.value < c.created && c.donate.value != c.strategy)
    && LastCreated(c.calls, c.donate, |c.calls|) == Some(c.strategy)
  }

  ghost predicate JobsOk(s: State) {
    && Homed(s.core.miner.job.index, s.core.miner.job.origin, s.core.donate)
    && (forall w :: 0 <= w < |s.workers| ==> Homed(s.workers[w].index, s.workers[w].origin, s.core.donate))
    && (forall i :: 0 <= i < |s.inFlight| ==> Homed(s.inFlight[i].index, s.inFlight[i].origin, s.core.donate))
  }

  ghost predicate Inv(s: State) {
    AllHome(s.core) && StrategiesOk(s.core) && JobsOk(s)
  }

  lemma AppendHome(c: Core, call: Call)
    requires AllHome(c)
    requires call.SubmitCall? ==>
      (Some(call.strategy) == if call.result.origin.DonateStrategy? then c.donate else LastCreated(c.calls, c.donate, |c.calls|))
    ensures AllHome(Log(c, [call]))
    ensures LastCreated(Log(c, [call]).calls, c.donate, |c.calls| + 1) ==
      if call.CreateCall? && Some(call.strategy) != c.donate then Some(call.strategy)
      else LastCreated(c.calls, c.donate, |c.calls|)
  {
    forall i | 0 <= i <= |c.calls| ensures HomeAt(c.calls + [call], c.donate, i) {
      LastCreatedPrefix(c.calls, [call], c.donate, i);
      assert i < |c.calls| ==> HomeAt(c.calls, c.donate, i);
    }
    LastCreatedPrefix(c.calls, [call], c.donate, |c.calls|);
  }

  ghost predicate CoreOk(c: Core) {
    AllHome(c) && StrategiesOk(c)
  }

  /** What a core step leaves alone: the donate strategy, and the origin of the miner's job. */
  ghost predicate Good(c: Core, d: Core) {
    && CoreOk(d) && d.donate == c.donate
    && Homed(d.miner.job.index, d.miner.job.origin, d.donate)
  }

  lemma SetJobGood(c: Core, a: Arrival, donate: bool)
    requires CoreOk(c) && (donate ==> c.donate.Some?)
    ensures Good(c, SetJob(c, a, donate))
  {
    hide M.SetJob, AllHome, LastCreated;
    M.SetJobJobs(c.miner, Stamped(a.job, donate), donate, a.readyBefore, a.readyAfter);
    if !donate && c.donate.Some? {
      AppendHome(c, SetAlgoCall(c.donate.value, a.job.family));
    }
    var d := if !donate && c.donate.Some? then Log(c, [SetAlgoCall(c.donate.value, a.job.family)]) else c;
    MinerKeepsCoreOk(d, M.SetJob(c.miner, Stamped(a.job, donate), donate, a.readyBefore, a.readyAfter));
  }

  lemma MinerKeepsCoreOk(c: Core, miner: M.State)
    requires CoreOk(c)
    ensures CoreOk(c.(miner := miner))
  {
  }

  lemma OnJobGood(c: Core, strategy: nat, a: Arrival, donateActive: bool)
    requires Good(c, c)
    ensures Good(c, OnJob(c, strategy, a, donateActive))
  {
    hide SetJob, CoreOk;
    SetJobGood(c, a, c.donate == Some(strategy));
  }

  lemma ResumeGood(c: Core, resumed: Option<Arrival>, donateActive: bool)
    requires Good(c, c)
    ensures Good(c, Resume(c, resumed, donateActive))
  {
    hide OnJob, LastCreated;
    AppendHome(c, ResumeCall(c.strategy));
    if resumed.Some? {
      OnJobGood(Log(c, [ResumeCall(c.strategy)]), c.strategy, resumed.value, donateActive);
    }
  }

  lemma OnPauseGood(c: Core, strategy: nat, strategyActive: bool, resumed: Option<Arrival>, donateActive: bool)
    requires Good(c, c)
    ensures Good(c, OnPause(c, strategy, strategyActive, resumed, donateActive))
  {
    hide Resume, CoreOk;
    ResumeGood(c, resumed, donateActive);
    var d := if c.donate == Some(strategy) then Resume(c, resumed, donateActive) else c;
    MinerKeepsCoreOk(d, M.PauseMining(d.miner));
  }

  lemma ConfigGood(c: Core, poolsChanged: bool, poolsActive: bool)
    requires Good(c, c)
    ensures Good(c, OnConfigChanged(c, poolsChanged, poolsActive))
  {
    hide AllHome, LastCreated;
    if poolsChanged && poolsActive {
      var c1 := Log(c, [StopCall(c.strategy)]);
      var c2 := Log(c1, [DeleteCall(c.strategy)]);
      var c3 := Log(c2, [CreateCall(c.created)]);
      var c4 := Log(c3, [ConnectCall(c.created)]);
      AppendHome(c, StopCall(c.strategy));
      AppendHome(c1, DeleteCall(c.strategy));
      AppendHome(c2, CreateCall(c.created));
      AppendHome(c3, ConnectCall(c.created));
      assert c4.calls == OnConfigChanged(c, poolsChanged, poolsActive).calls;
      SameCallsHome(c4, OnConfigChanged(c, poolsChanged, poolsActive));
    }
  }

  lemma SameCallsHome(c: Core, d: Core)
    requires c.calls == d.calls && c.donate == d.donate && AllHome(c)
    ensures AllHome(d)
  {
  }

  lemma DeliverGood(c: Core, r: Result)
    requires Good(c, c) && Homed(r.index, r.origin, c.donate)
    ensures Good(c, OnJobResult(c, r))
  {
    AppendHome(c, SubmitCall(if r.index == 1 && c.donate.Some? then c.donate.value else c.strategy, r));
  }

  lemma CoreStepGood(s: State, e: Step)
    requires Inv(s) && Enabled(s, e) && !e.DeliverStep?
    ensures Good(s.core, NextCore(s.core, e))
  {
    hide M.Next, OnJob, OnPause, OnConfigChanged, CoreOk;
    assert Good(s.core, s.core) by { CoreOkFromInv(s); }
    match e
    case JobStep(strategy, a, donateActive) => OnJobGood(s.core, strategy, a, donateActive);
    case PauseStep(strategy, active, resumed, donateActive) => OnPauseGood(s.core, strategy, active, resumed, donateActive);
    case ConfigStep(changed, active) => ConfigGood(s.core, changed, active);
    case MinerStep(event) =>
      M.NextJobs(s.core.miner, event);
      MinerKeepsCoreOk(s.core, M.Next(s.core.miner, event));
    case _ =>
  }

  lemma CoreOkFromInv(s: State)
    requires Inv(s)
    ensures CoreOk(s.core)
  {
  }

  lemma StepKeepsInv(s: State, e: Step)
    requires Inv(s)
    ensures Inv(Next(s, e)) && Next(s, e).core.donate == s.core.donate
  {
    hide NextCore, OnJobResult, AllHome, StrategiesOk;
    if Enabled(s, e) {
      if e.DeliverStep? {
        DeliverGood(s.core, s.inFlight[e.i]);
      } else {
        CoreStepGood(s, e);
      }
    }
  }

  lemma InitialInv(backends: nat, workers: nat, donating: bool)
    ensures Inv(Initial(backends, workers, donating))
  {
  }

  lemma {:induction false} RunKeepsInv(backends: nat, workers: nat, donating: bool, steps: seq<Step>, k: nat)
    requires k <= |steps|
    ensures Inv(After(Initial(backends, workers, donating), steps, k))
    ensures After(Initial(backends, workers, donating), steps, k).core.donate == if donating then Some(1) else None
  {
    hide Inv, Next;
    InitialInv(backends, workers, donating);
    if k > 0 {
      RunKeepsInv(backends, workers, donating, steps, k - 1);
      StepKeepsInv(After(Initial(backends, workers, donating), steps, k - 1), steps[k - 1]);
    }
  }

  /**
   In every run, a result computed from a donate job is submitted to the donate strategy, and one
   computed from a user job to the user's strategy in place when it is delivered, however many jobs
   and strategies came and went while it was on its way.
   */
  lemma ResultsGoHome(backends: nat, workers: nat, donating: bool, steps: seq<Step>, i: nat)
    requires var calls := After(Initial(backends, workers, donating), steps, |steps|).core.calls;
      i < |calls| && calls[i].SubmitCall?
    ensures var calls := After(Initial(backends, workers, donating), steps, |steps|).core.calls;
      && (calls[i].result.origin.DonateStrategy? ==> donating && calls[i].strategy == 1)
      && (calls[i].result.origin.UserStrategy? ==>
            Some(calls[i].strategy) == LastCreated(calls, if donating then Some(1) else None, i))
  {
    RunKeepsInv(backends, workers, donating, steps, |steps|);
    var c := After(Initial(backends, workers, donating), steps, |steps|).core;
    assert HomeAt(c.calls, c.donate, i);
  }

  // ---------------------------------------------------------------------------
  // No call on a strategy that was deleted
  // ---------------------------------------------------------------------------

  ghost predicate DeletedBefore(calls: seq<Call>, k: nat, strategy: nat)
    requires k <= |calls|
  {
    exists i :: 0 <= i < k && calls[i] == DeleteCall(strategy)
  }

  /** Deleted strategies are never called, and never alive again. */
  ghost predicate NoneRevived(c: Core) {
    && (forall i :: 0 <= i < |c.calls| ==> !DeletedBefore(c.calls, i, c.calls[i].strategy))
    && (forall x: nat :: DeletedBefore(c.calls, |c.calls|, x) ==> x < c.created && x != c.strategy && Some(x) != c.donate)
  }

  lemma AppendNotRevived(c: Core, call: Call, d: Core)
    requires NoneRevived(c) && d.calls == c.calls + [call]
    requires call.strategy == c.strategy || Some(call.strategy) == c.donate || call.strategy == c.created
    requires d.donate == c.donate && d.created >= c.created
    requires d.strategy == c.strategy || (d.strategy == c.created && (d.donate.Some? ==> d.donate.value < c.created))
    requires call.DeleteCall? ==> call.strategy < d.created && call.strategy != d.strategy && Some(call.strategy) != d.donate
    ensures NoneRevived(d)
  {
    forall i | 0 <= i < |d.calls| ensures !DeletedBefore(d.calls, i, d.calls[i].strategy) {
      if DeletedBefore(d.calls, i, d.calls[i].strategy) {
        assert i < |c.calls| ==> DeletedBefore(c.calls, i, c.calls[i].strategy);
        assert DeletedBefore(c.calls, |c.calls|, call.strategy);
      }
    }
    forall x: nat | DeletedBefore(d.calls, |d.calls|, x)
      ensures x < d.created && x != d.strategy && Some(x) != d.donate
    {
      assert x != call.strategy || !call.DeleteCall? ==> DeletedBefore(c.calls, |c.calls|, x);
    }
  }

  lemma SetJobNotRevived(c: Core, a: Arrival, donate: bool)
    requires NoneRevived(c)
    ensures NoneRevived(SetJob(c, a, donate))
  {
    hide M.SetJob, NoneRevived;
    if !donate && c.donate.Some? {
      AppendNotRevived(c, SetAlgoCall(c.donate.value, a.job.family), SetJob(c, a, donate));
    } else {
      SameCallsNotRevived(c, SetJob(c, a, donate));
    }
  }

  lemma SameCallsNotRevived(c: Core, d: Core)
    requires NoneRevived(c) && d == c.(miner := d.miner)
    ensures NoneRevived(d)
  {
  }

  lemma OnJobNotRevived(c: Core, strategy: nat, a: Arrival, donateActive: bool)
    requires NoneRevived(c)
    ensures NoneRevived(OnJob(c, strategy, a, donateActive))
  {
    hide SetJob, NoneRevived;
    SetJobNotRevived(c, a, c.donate == Some(strategy));
  }

  lemma OnPauseNotRevived(c: Core, strategy: nat, strategyActive: bool, resumed: Option<Arrival>, donateActive: bool)
    requires NoneRevived(c)
    ensures NoneRevived(OnPause(c, strategy, strategyActive, resumed, donateActive))
  {
    hide OnJob, NoneRevived;
    var r := Log(c, [ResumeCall(c.strategy)]);
    AppendNotRevived(c, ResumeCall(c.strategy), r);
    if resumed.Some? {
      OnJobNotRevived(r, c.strategy, resumed.value, donateActive);
    }
    var d := if c.donate == Some(strategy) then Resume(c, resumed, donateActive) else c;
    SameCallsNotRevived(d, d.(miner := M.PauseMining(d.miner)));
  }

  lemma ConfigNotRevived(c: Core, poolsChanged: bool, poolsActive: bool)
    requires NoneRevived(c) && StrategiesOk(c)
    ensures NoneRevived(OnConfigChanged(c, poolsChanged, poolsActive))
  {
    hide NoneRevived, LastCreated;
    if poolsChanged && poolsActive {
      var d := OnConfigChanged(c, poolsChanged, poolsActive);
      var c1 := Log(c, [StopCall(c.strategy)]);
      var c2 := Log(c1, [DeleteCall(c.strategy)]).(strategy := c.created, created := c.created + 1);
      AppendNotRevived(c, StopCall(c.strategy), c1);
      AppendNotRevived(c1, DeleteCall(c.strategy), c2);
      var c3 := Log(c2, [CreateCall(c.created)]);
      AppendNotRevived(c2, CreateCall(c.created), c3);
      AppendNotRevived(c3, ConnectCall(c.created), d);
    }
  }

  lemma StepNotRevived(s: State, e: Step)
    requires Inv(s) && NoneRevived(s.core)
    ensures NoneRevived(Next(s, e).core)
  {
    hide M.Next, OnJob, OnPause, OnConfigChanged, NoneRevived;
    match e
    case JobStep(strategy, a, donateActive) => OnJobNotRevived(s.core, strategy, a, donateActive);
    case PauseStep(strategy, active, resumed, donateActive) => OnPauseNotRevived(s.core, strategy, active, resumed, donateActive);
    case ConfigStep(changed, active) => ConfigNotRevived(s.core, changed, active);
    case MinerStep(event) => SameCallsNotRevived(s.core, s.core.(miner := M.Next(s.core.miner, event)));
    case DeliverStep(i) =>
      if i < |s.inFlight| {
        var r := s.inFlight[i];
        AppendNotRevived(s.core, SubmitCall(if r.index == 1 && s.core.donate.Some? then s.core.donate.value else s.core.strategy, r),
                         OnJobResult(s.core, r));
      }
    case _ =>
  }

  /** In every run no strategy is called after it was deleted, late results included. */
  lemma {:induction false} NoCallAfterDelete(backends: nat, workers: nat, donating: bool, steps: seq<Step>, k: nat)
    requires k <= |steps|
    ensures NoneRevived(After(Initial(backends, workers, donating), steps, k).core)
  {
    hide Next, Inv;
    if k > 0 {
      NoCallAfterDelete(backends, workers, donating, steps, k - 1);
      RunKeepsInv(backends, workers, donating, steps, k - 1);
      StepNotRevived(After(Initial(backends, workers, donating), steps, k - 1), steps[k - 1]);
    }
  }

  // ---------------------------------------------------------------------------
  // Every result is submitted at most once
  // ---------------------------------------------------------------------------

  function Submitted(calls: seq<Call>, k: nat): multiset<Result>
    requires k <= |calls|
  {
    if k == 0 then multiset{}
    else Submitted(calls, k - 1) + (if calls[k - 1].SubmitCall? then multiset{calls[k - 1].result} else multiset{})
  }

  lemma {:induction false} SubmittedPrefix(calls: seq<Call>, more: seq<Call>, k: nat)
    requires k <= |calls|
    ensures Submitted(calls + more, k) == Submitted(calls, k)
  {
    if k > 0 {
      SubmittedPrefix(calls, more, k - 1);
    }
  }

  /** Appending calls that submit nothing. */
  lemma {:induction false} SubmittedQuiet(calls: seq<Call>, more: seq<Call>, k: nat)
    requires k <= |more| && forall i :: 0 <= i < |more| ==> !more[i].SubmitCall?
    ensures Submitted(calls + more, |calls| + k) == Submitted(calls, |calls|)
  {
    if k == 0 {
      SubmittedPrefix(calls, more, |calls|);
    } else {
      SubmittedQuiet(calls, more, k - 1);
    }
  }

  lemma SubmittedOne(calls: seq<Call>, call: Call)
    requires call.SubmitCall?
    ensures Submitted(calls + [call], |calls| + 1) == Submitted(calls, |calls|) + multiset{call.result}
  {
    SubmittedPrefix(calls, [call], |calls|);
  }

  /** All but deliveries only append calls that submit nothing. */
  ghost predicate Quiet(c: Core, d: Core) {
    exists more: seq<Call> :: QuietBy(c, d, more)
  }

  ghost predicate QuietBy(c: Core, d: Core, more: seq<Call>) {
    d.calls == c.calls + more && forall i :: 0 <= i < |more| ==> !more[i].SubmitCall?
  }

  lemma NoCallsQuiet(c: Core, d: Core)
    requires d.calls == c.calls
    ensures Quiet(c, d)
  {
    assert QuietBy(c, d, []);
  }

  lemma QuietTrans(c: Core, d: Core, e: Core)
    requires Quiet(c, d) && Quiet(d, e)
    ensures Quiet(c, e)
  {
    var m :| QuietBy(c, d, m);
    var n :| QuietBy(d, e, n);
    assert QuietBy(c, e, m + n);
  }

  lemma OnJobQuiet(c: Core, strategy: nat, a: Arrival, donateActive: bool)
    ensures Quiet(c, OnJob(c, strategy, a, donateActive))
  {
    hide M.SetJob;
    var d := OnJob(c, strategy, a, donateActive);
    if d.calls == c.calls {
      NoCallsQuiet(c, d);
    } else {
      assert QuietBy(c, d, [SetAlgoCall(c.donate.value, a.job.family)]);
    }
  }

  lemma ResumeQuiet(c: Core)
    ensures Quiet(c, Log(c, [ResumeCall(c.strategy)]))
  {
    assert QuietBy(c, Log(c, [ResumeCall(c.strategy)]), [ResumeCall(c.strategy)]);
  }

  lemma OnPauseQuiet(c: Core, strategy: nat, strategyActive: bool, resumed: Option<Arrival>, donateActive: bool)
    ensures Quiet(c, OnPause(c, strategy, strategyActive, resumed, donateActive))
  {
    hide OnJob, Quiet;
    var r := Log(c, [ResumeCall(c.strategy)]);
    ResumeQuiet(c);
    OnJobQuiet(r, c.strategy, if resumed.Some? then resumed.value else Arrival(M.DEFAULT_JOB, false, false), donateActive);
    if resumed.Some? {
      QuietTrans(c, r, Resume(c, resumed, donateActive));
    }
    NoCallsQuiet(c, c);
    var d := if c.donate == Some(strategy) then Resume(c, resumed, donateActive) else c;
    NoCallsQuiet(d, OnPause(c, strategy, strategyActive, resumed, donateActive));
    QuietTrans(c, d, OnPause(c, strategy, strategyActive, resumed, donateActive));
  }

  lemma ConfigQuiet(c: Core, poolsChanged: bool, poolsActive: bool)
    ensures Quiet(c, OnConfigChanged(c, poolsChanged, poolsActive))
  {
    var d := OnConfigChanged(c, poolsChanged, poolsActive);
    if poolsChanged && poolsActive {
      assert QuietBy(c, d, [StopCall(c.strategy), DeleteCall(c.strategy), CreateCall(c.created), ConnectCall(c.created)]);
    } else {
      NoCallsQuiet(c, d);
    }
  }

  lemma CoreStepQuiet(c: Core, e: Step)
    requires !e.DeliverStep?
    ensures Quiet(c, NextCore(c, e))
  {
    hide M.Next, OnJob, OnPause, OnConfigChanged, Quiet;
    match e
    case JobStep(strategy, a, donateActive) => OnJobQuiet(c, strategy, a, donateActive);
    case PauseStep(strategy, active, resumed, donateActive) => OnPauseQuiet(c, strategy, active, resumed, donateActive);
    case ConfigStep(changed, active) => ConfigQuiet(c, changed, active);
    case _ => NoCallsQuiet(c, NextCore(c, e));
  }

  ghost predicate Accounted(s: State) {
    multiset(s.found) == multiset(s.inFlight) + Submitted(s.core.calls, |s.core.calls|)
  }

  lemma MoveOne(found: seq<Result>, inFlight: seq<Result>, i: nat, submitted: multiset<Result>)
    requires i < |inFlight| && multiset(found) == multiset(inFlight) + submitted
    ensures multiset(found) == multiset(inFlight[..i] + inFlight[i + 1..]) + (submitted + multiset{inFlight[i]})
  {
    assert inFlight == inFlight[..i] + [inFlight[i]] + inFlight[i + 1..];
  }

  lemma DeliverAccounted(s: State, i: nat)
    requires Accounted(s) && i < |s.inFlight|
    ensures Accounted(Next(s, DeliverStep(i)))
  {
    hide Submitted;
    var calls := s.core.calls;
    var call := OnJobResult(s.core, s.inFlight[i]).calls[|calls|];
    SubmittedOne(calls, call);
    MoveOne(s.found, s.inFlight, i, Submitted(calls, |calls|));
  }

  lemma StepAccounted(s: State, e: Step)
    requires Accounted(s)
    ensures Accounted(Next(s, e))
  {
    hide NextCore, Submitted;
    if Enabled(s, e) {
      if e.DeliverStep? {
        DeliverAccounted(s, e.i);
      } else {
        CoreStepQuiet(s.core, e);
        var more :| QuietBy(s.core, NextCore(s.core, e), more);
        SubmittedQuiet(s.core.calls, more, |more|);
      }
    }
  }

  /** In every run each reported result is either still on its way or was submitted exactly once. */
  lemma {:induction false} ResultsAccountedFor(backends: nat, workers: nat, donating: bool, steps: seq<Step>, k: nat)
    requires k <= |steps|
    ensures Accounted(After(Initial(backends, workers, donating), steps, k))
  {
    if k == 0 {
      assert Submitted(InitialCore(M.Initial(backends), donating).calls, 1) == multiset{};
    } else {
      hide Next, Accounted;
      ResultsAccountedFor(backends, workers, donating, steps, k - 1);
      StepAccounted(After(Initial(backends, workers, donating), steps, k - 1), steps[k - 1]);
    }
  }

  // ---------------------------------------------------------------------------
  // The miner underneath
  // ---------------------------------------------------------------------------

  function JobEvents(c: Core, strategy: nat, a: Arrival, donateActive: bool): seq<M.Event> {
    if c.donate.Some? && donateActive && c.donate.value != strategy then []
    else
      var donate := c.donate == Some(strategy);
      [M.SetJobEvent(Stamped(a.job, donate), donate, a.readyBefore, a.readyAfter)]
  }

  function PauseEvents(c: Core, strategy: nat, strategyActive: bool, resumed: Option<Arrival>, donateActive: bool): seq<M.Event> {
    (if c.donate == Some(strategy) && resumed.Some? then JobEvents(c, c.strategy, resumed.value, donateActive) else []) +
    (if strategyActive then [] else [M.PauseEvent])
  }

  /** The callbacks of the miner one step of the network makes, in order. */
  function MinerEvents(s: State, e: Step): (events: seq<M.Event>)
    ensures |events| <= 2
  {
    if !Enabled(s, e) then []
    else
      match e
      case JobStep(strategy, a, donateActive) => JobEvents(s.core, strategy, a, donateActive)
      case PauseStep(strategy, active, resumed, donateActive) => PauseEvents(s.core, strategy, active, resumed, donateActive)
      case MinerStep(event) => [event]
      case _ => []
  }

  function Feed(m: M.State, events: seq<M.Event>): M.State
    requires |events| <= 2
  {
    if events == [] then m
    else if |events| == 1 then M.Next(m, events[0])
    else M.Next(M.Next(m, events[0]), events[1])
  }

  lemma StepFeedsMiner(s: State, e: Step)
    ensures Next(s, e).core.miner == Feed(s.core.miner, MinerEvents(s, e))
  {
  }

  /** All the callbacks of the miner in the first k steps. */
  function EventsOf(s: State, steps: seq<Step>, k: nat): seq<M.Event>
    requires k <= |steps|
  {
    if k == 0 then [] else EventsOf(s, steps, k - 1) + MinerEvents(After(s, steps, k - 1), steps[k - 1])
  }

  lemma {:induction false} AfterPrefix(backends: nat, events: seq<M.Event>, more: seq<M.Event>, k: nat)
    requires k <= |events|
    ensures M.After(backends, events + more, k) == M.After(backends, events, k)
  {
    hide M.Next;
    if k > 0 {
      AfterPrefix(backends, events, more, k - 1);
    }
  }

  lemma FeedExtends(backends: nat, events: seq<M.Event>, more: seq<M.Event>)
    requires |more| <= 2
    ensures M.After(backends, events + more, |events| + |more|) == Feed(M.After(backends, events, |events|), more)
  {
    hide M.Next;
    AfterPrefix(backends, events, more, |events|);
    if |more| == 2 {
      assert M.After(backends, events + more, |events| + 1) == M.Next(M.After(backends, events, |events|), more[0]);
    }
  }

  lemma MinerStepUnderneath(backends: nat, s: State, e: Step, events: seq<M.Event>)
    ensures s.core.miner == M.After(backends, events, |events|) ==>
      Next(s, e).core.miner == M.After(backends, events + MinerEvents(s, e), |events| + |MinerEvents(s, e)|)
  {
    hide *;
    StepFeedsMiner(s, e);
    FeedExtends(backends, events, MinerEvents(s, e));
  }

  lemma RunStep(s: State, steps: seq<Step>, k: nat)
    requires 0 < k <= |steps|
    ensures After(s, steps, k) == Next(After(s, steps, k - 1), steps[k - 1])
    ensures EventsOf(s, steps, k) == EventsOf(s, steps, k - 1) + MinerEvents(After(s, steps, k - 1), steps[k - 1])
  {
    hide Next, MinerEvents;
  }

  lemma NoStepNoEvent(backends: nat, workers: nat, donating: bool, steps: seq<Step>)
    ensures var s := Initial(backends, workers, donating);
      After(s, steps, 0).core.miner == M.After(backends, EventsOf(s, steps, 0), |EventsOf(s, steps, 0)|)
  {
  }

  /** Every run of the network drives the miner through a run of its own, so all its theorems apply. */
  lemma {:induction false} MinerRunsUnderneath(backends: nat, workers: nat, donating: bool, steps: seq<Step>, k: nat)
    requires k <= |steps|
    ensures var s := Initial(backends, workers, donating);
      After(s, steps, k).core.miner == M.After(backends, EventsOf(s, steps, k), |EventsOf(s, steps, k)|)
  {
    hide *;
    if k == 0 {
      NoStepNoEvent(backends, workers, donating, steps);
    } else {
      var s := Initial(backends, workers, donating);
      MinerRunsUnderneath(backends, workers, donating, steps, k - 1);
      RunStep(s, steps, k);
      MinerStepUnderneath(backends, After(s, steps, k - 1), steps[k - 1], EventsOf(s, steps, k - 1));
    }
  }

  /** So whatever the pools do, mining is asked for only while active and enabled, and never on battery. */
  lemma {:induction false} NetworkMinesSafely(backends: nat, workers: nat, donating: bool, steps: seq<Step>, k: nat)
    requires k <= |steps|
    ensures var m := After(Initial(backends, workers, donating), steps, k).core.miner;
      && M.CommandOk(m) && M.AutoPauseOk(m)
      && (m.batteryPower ==> M.LastPause(m.log))
  {
    hide Next, EventsOf;
    var events := EventsOf(Initial(backends, workers, donating), steps, k);
    MinerRunsUnderneath(backends, workers, donating, steps, k);
    M.GoOnlyWhenMining(backends, events, |events|);
    M.AutoPauseCountsFlags(backends, events, |events|);
  }
}
