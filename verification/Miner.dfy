/**
 The mining control state machine: enabling and pausing, battery and user activity,
 dataset readiness, and switching between user and donate jobs.
 */
module Miner {
  import opened Wrappers

  // Callbacks are atomic steps; the nonce counter is a log of the commands it receives; dataset
  // readiness, power and activity readings and backend ticks are arbitrary inputs.

  datatype Family = RandomX | OtherFamily

  /** Which strategy a job came from: history, never read by the program. */
  datatype Origin = UserStrategy | DonateStrategy

  datatype Job = Job(id: Option<string>, family: Family, index: nat, origin: Origin)

  const DEFAULT_JOB := Job(None, OtherFamily, 0, UserStrategy)

  /** Commands to the nonce counter. */
  datatype Command = Pause(paused: bool) | Reset(index: nat) | Touch | StopAll

  datatype State = State(
    active: bool,
    enabled: bool,
    batteryPower: bool,
    userActive: bool,
    autoPause: int,
    reset: bool,
    job: Job,
    userJobId: Option<string>,
    ticks: nat,
    timerStarts: nat,
    backends: seq<Option<Job>>,  // the job each backend works on, if any
    log: seq<Command>)

  function Initial(backends: nat): State {
    State(false, true, false, false, 0, true, DEFAULT_JOB, None, 0, 0, seq(backends, i => None), [])
  }

  // ---------------------------------------------------------------------------
  // What each callback does to the state
  // ---------------------------------------------------------------------------

  function Log(s: State, commands: seq<Command>): State {
    s.(log := s.log + commands)
  }

  function AllBackends(s: State, job: Option<Job>): State {
    s.(backends := seq(|s.backends|, i => job))
  }

  function BeforeJobChange(enabled: bool, reset: bool, index: nat): seq<Command> {
    (if enabled then [] else [Pause(true)]) + (if reset then [Reset(index)] else [])
  }

  function AfterJobChange(mining: bool): seq<Command> {
    if mining then [Touch, Pause(false)] else [Touch]
  }

  function HandleJobChange(s: State): State {
    var t := AllBackends(Log(s, BeforeJobChange(s.enabled, s.reset, s.job.index)), Some(s.job));
    var u := Log(t, AfterJobChange(s.active && s.enabled));
    if s.ticks == 0 then u.(ticks := 1, timerStarts := s.timerStarts + 1) else u
  }

  function PauseMining(s: State): State {
    Log(s.(active := false), [Pause(true), Touch])
  }

  function SetEnabled(s: State, enabled: bool): State {
    if s.enabled == enabled || (s.batteryPower && enabled) then s
    else
      var t := s.(enabled := enabled);
      if s.active then Log(t, [Pause(!enabled), Touch]) else t
  }

  function Stop(s: State): State {
    AllBackends(Log(s, [StopAll]), None)
  }

  /** Storing a job: the nonce is kept only on a return from donation to the user job left behind. */
  function Install(s: State, job: Job, donate: bool): State {
    var index := if donate then 1 else 0;
    s.(reset := !(s.job.index == 1 && index == 0 && s.userJobId == job.id),
       job := job.(index := index),
       userJobId := if index == 0 then job.id else s.userJobId,
       active := true)
  }

  predicate Late(job: Job, ready: bool) { job.family.RandomX? && !ready }

  function SetJob(s: State, job: Job, donate: bool, readyBefore: bool, readyAfter: bool): State {
    var t := Install(if Late(job, readyBefore) then Stop(s) else s, job, donate);
    if Late(job, readyAfter) then t else HandleJobChange(t)
  }

  function AutoPauseBattery(s: State, pause: bool): State {
    if s.batteryPower == pause then s
    else
      var n := s.autoPause + (if pause then 1 else -1);
      SetEnabled(s.(batteryPower := pause, autoPause := n), n == 0)
  }

  function AutoPauseActive(s: State, pause: bool): State {
    if s.userActive == pause then s
    else
      var n := s.autoPause + (if pause then 1 else -1);
      SetEnabled(s.(userActive := pause, autoPause := n), n == 0)
  }

  /** The readings a timer tick takes. */
  datatype Reading = Reading(pauseOnBattery: bool, pauseOnActive: bool, onBattery: bool, isActive: bool, stopMiner: bool)

  function BatteryPart(s: State, r: Reading): State {
    if r.pauseOnBattery then AutoPauseBattery(s, r.onBattery) else s
  }

  function ActivePart(s: State, r: Reading): State {
    if r.pauseOnActive then AutoPauseActive(s, r.isActive) else s
  }

  function AutoPause(s: State, r: Reading): State {
    ActivePart(BatteryPart(s.(ticks := s.ticks + 1), r), r)
  }

  function OnTimer(s: State, r: Reading): State {
    if r.stopMiner then Stop(AutoPause(s, r)) else AutoPause(s, r)
  }

  function OnDatasetReady(s: State, ready: bool): State {
    if ready then HandleJobChange(s) else s
  }

  function OnConfigChanged(s: State, poolsChanged: bool, poolsActive: bool): State {
    if poolsChanged && poolsActive then s else AllBackends(s, Some(s.job))
  }

  // ---------------------------------------------------------------------------
  // The miner, as it works
  // ---------------------------------------------------------------------------

  class Miner {
    var active: bool
    var enabled: bool
    var batteryPower: bool
    var userActive: bool
    var autoPause: int
    var reset: bool
    var job: Job
    var userJobId: Option<string>
    var ticks: nat
    var timerStarts: nat
    var backends: seq<Option<Job>>
    var algorithms: seq<nat>
    var log: seq<Command>

    function Value(): State
      reads this
    {
      State(active, enabled, batteryPower, userActive, autoPause, reset, job, userJobId, ticks, timerStarts, backends, log)
    }

    constructor (backendCount: nat)
      ensures Value() == Initial(backendCount)
    {
      active, enabled, batteryPower, userActive, autoPause, reset := false, true, false, false, 0, true;
      job, userJobId, ticks, timerStarts := DEFAULT_JOB, None, 0, 0;
      backends, algorithms, log := seq(backendCount, i => None), [], [];
    }

    method Nonce(c: Command)
      modifies this`log
      ensures log == old(log) + [c]
    {
      log := log + [c];
    }

    /** Gives every backend a job, or stops every backend. */
    method EachBackend(job: Option<Job>)
      modifies this`backends
      ensures backends == seq(|old(backends)|, i => job)
    {
      for i := 0 to |backends|
        invariant |backends| == |old(backends)|
        invariant forall j :: 0 <= j < i ==> backends[j] == job
      {
        backends := backends[i := job];
      }
    }

    method CommandsBefore()
      modifies this`log
      ensures log == old(log) + BeforeJobChange(enabled, reset, job.index)
    {
      if !enabled {
        Nonce(Pause(true));
      }
      if reset {
        Nonce(Reset(job.index));
      }
    }

    method CommandsAfter()
      modifies this`log
      ensures log == old(log) + AfterJobChange(active && enabled)
    {
      Nonce(Touch);
      if active && enabled {
        Nonce(Pause(false));
      }
    }

    method DoHandleJobChange()
      modifies this`backends, this`ticks, this`timerStarts, this`log
      ensures Value() == HandleJobChange(old(Value()))
    {
      CommandsBefore();
      EachBackend(Some(job));
      CommandsAfter();
      if ticks == 0 {
        ticks := ticks + 1;
        timerStarts := timerStarts + 1;
      }
    }

    method DoPause()
      modifies this`active, this`log
      ensures Value() == PauseMining(old(Value()))
    {
      active := false;
      Nonce(Pause(true));
      Nonce(Touch);
    }

    method DoSetEnabled(enabled: bool)
      modifies this`enabled, this`log
      ensures Value() == SetEnabled(old(Value()), enabled)
    {
      if this.enabled == enabled {
        return;
      }
      if batteryPower && enabled {
        return;
      }
      this.enabled := enabled;
      if !active {
        return;
      }
      Nonce(Pause(!enabled));
      Nonce(Touch);
    }

    method DoStop()
      modifies this`backends, this`log
      ensures Value() == Stop(old(Value()))
    {
      Nonce(StopAll);
      EachBackend(None);
    }

    /** Installs a job; readiness is read before and after the job is stored. */
    method DoSetJob(job: Job, donate: bool, readyBefore: bool, readyAfter: bool)
      modifies this
      ensures Value() == SetJob(old(Value()), job, donate, readyBefore, readyAfter)
      ensures algorithms == old(algorithms)
    {
      hide HandleJobChange, Stop;
      if job.family.RandomX? && !readyBefore {
        DoStop();
      }
      var index := if donate then 1 else 0;
      reset := !(this.job.index == 1 && index == 0 && userJobId == job.id);
      this.job := job.(index := index);
      if index == 0 {
        userJobId := job.id;
      }
      var ready := !job.family.RandomX? || readyAfter;
      active := true;
      if ready {
        DoHandleJobChange();
      }
    }

    /** The body both automatic pauses share, for the battery flag. */
    method DoAutoPauseBattery(pause: bool)
      modifies this`batteryPower, this`autoPause, this`enabled, this`log
      ensures Value() == AutoPauseBattery(old(Value()), pause)
    {
      if (pause && !batteryPower) || (!pause && batteryPower) {
        batteryPower := pause;
        autoPause := autoPause + (if pause then 1 else -1);
        DoSetEnabled(autoPause == 0);
      }
    }

    /** The body both automatic pauses share, for the activity flag. */
    method DoAutoPauseActive(pause: bool)
      modifies this`userActive, this`autoPause, this`enabled, this`log
      ensures Value() == AutoPauseActive(old(Value()), pause)
    {
      if (pause && !userActive) || (!pause && userActive) {
        userActive := pause;
        autoPause := autoPause + (if pause then 1 else -1);
        DoSetEnabled(autoPause == 0);
      }
    }

    method DoAutoPause(r: Reading)
      modifies this`ticks, this`batteryPower, this`userActive, this`autoPause, this`enabled, this`log
      ensures Value() == AutoPause(old(Value()), r)
    {
      ticks := ticks + 1;
      if r.pauseOnBattery {
        DoAutoPauseBattery(r.onBattery);
      }
      if r.pauseOnActive {
        DoAutoPauseActive(r.isActive);
      }
    }

    /** Ticks every backend: does any of them ask to stop? */
    method AnyTickFailed(tickOk: seq<bool>) returns (stopMiner: bool)
      ensures stopMiner == (false in tickOk)
    {
      stopMiner := false;
      for i := 0 to |tickOk|
        invariant stopMiner <==> exists j :: 0 <= j < i && !tickOk[j]
      {
        if !tickOk[i] {
          stopMiner := true;
        }
      }
    }

    /** One timer tick; `tickOk` is what each backend's tick returned. */
    method DoOnTimer(tickOk: seq<bool>, pauseOnBattery: bool, pauseOnActive: bool, onBattery: bool, isActive: bool)
      modifies this`ticks, this`batteryPower, this`userActive, this`autoPause, this`enabled, this`log, this`backends
      ensures Value() == OnTimer(old(Value()), Reading(pauseOnBattery, pauseOnActive, onBattery, isActive, false in tickOk))
    {
      var stopMiner := AnyTickFailed(tickOk);
      DoAutoPause(Reading(pauseOnBattery, pauseOnActive, onBattery, isActive, stopMiner));
      if stopMiner {
        DoStop();
      }
    }

    method DoOnDatasetReady(ready: bool)
      modifies this
      ensures Value() == OnDatasetReady(old(Value()), ready)
      ensures algorithms == old(algorithms)
    {
      if !ready {
        return;
      }
      DoHandleJobChange();
    }

    /** Rebuilds the list of algorithms some enabled backend can run, in identifier order. */
    method Rebuild(max: nat, usable: nat -> bool)
      modifies this`algorithms
      ensures algorithms == Usable(max, usable)
    {
      algorithms := [];
      for i := 0 to max
        invariant algorithms == Usable(i, usable)
      {
        if usable(i) {
          algorithms := algorithms + [i];
        }
      }
    }

    method DoOnConfigChanged(max: nat, usable: nat -> bool, poolsChanged: bool, poolsActive: bool)
      modifies this
      ensures Value() == OnConfigChanged(old(Value()), poolsChanged, poolsActive)
      ensures algorithms == Usable(max, usable)
    {
      Rebuild(max, usable);
      if poolsChanged && poolsActive {
        return;
      }
      EachBackend(Some(job));
    }
  }

  // ---------------------------------------------------------------------------
  // Runs: every interleaving of callbacks and commands
  // ---------------------------------------------------------------------------

  datatype Event =
    | SetJobEvent(newJob: Job, donate: bool, readyBefore: bool, readyAfter: bool)
    | PauseEvent                                     // no active pools
    | SetEnabledEvent(enable: bool)                  // the pause and resume commands
    | TimerEvent(reading: Reading)
    | DatasetEvent(ready: bool)
    | ConfigEvent(poolsChanged: bool, poolsActive: bool)
    | StopEvent                                      // the API's stop command
    | ExhaustedEvent                                 // a worker used up the nonce range

  function Next(s: State, e: Event): State {
    match e
    case SetJobEvent(job, donate, before, after) => SetJob(s, job, donate, before, after)
    case PauseEvent => PauseMining(s)
    case SetEnabledEvent(enable) => SetEnabled(s, enable)
    case TimerEvent(r) => OnTimer(s, r)
    case DatasetEvent(ready) => OnDatasetReady(s, ready)
    case ConfigEvent(changed, active) => OnConfigChanged(s, changed, active)
    case StopEvent => Stop(s)
    case ExhaustedEvent => Log(s, [Pause(true)])
  }

  /** The state after the first k events of a run. */
  function After(backends: nat, events: seq<Event>, k: nat): State
    requires k <= |events|
  {
    if k == 0 then Initial(backends) else Next(After(backends, events, k - 1), events[k - 1])
  }

  // ---------------------------------------------------------------------------
  // Automatic pausing
  // ---------------------------------------------------------------------------

  function Count(flag: bool): nat { if flag then 1 else 0 }

  /** The counter is the number of raised flags, and on battery the miner is never enabled. */
  predicate AutoPauseOk(s: State) {
    && s.autoPause == Count(s.batteryPower) + Count(s.userActive)
    && (s.batteryPower ==> !s.enabled)
  }

  lemma AutoPauseKeepsOk(s: State, r: Reading)
    requires AutoPauseOk(s)
    ensures AutoPauseOk(AutoPause(s, r))
  {
  }

  lemma JobChangeKeepsPauseFields(s: State)
    ensures var t := HandleJobChange(s);
      t.autoPause == s.autoPause && t.batteryPower == s.batteryPower && t.userActive == s.userActive && t.enabled == s.enabled
  {
  }

  lemma SetJobKeepsPauseFields(s: State, job: Job, donate: bool, readyBefore: bool, readyAfter: bool)
    ensures var t := SetJob(s, job, donate, readyBefore, readyAfter);
      t.autoPause == s.autoPause && t.batteryPower == s.batteryPower && t.userActive == s.userActive && t.enabled == s.enabled
  {
    hide HandleJobChange;
    JobChangeKeepsPauseFields(Install(if Late(job, readyBefore) then Stop(s) else s, job, donate));
  }

  lemma NextKeepsAutoPauseOk(s: State, e: Event)
    requires AutoPauseOk(s)
    ensures AutoPauseOk(Next(s, e))
  {
    match e
    case SetJobEvent(job, donate, before, after) => SetJobKeepsPauseFields(s, job, donate, before, after);
    case TimerEvent(r) => AutoPauseKeepsOk(s, r);
    case _ =>
  }

  /** In every reachable state, whatever commands are interleaved and however the config changes. */
  lemma {:induction false} AutoPauseCountsFlags(backends: nat, events: seq<Event>, k: nat)
    requires k <= |events|
    ensures AutoPauseOk(After(backends, events, k))
  {
    if k > 0 {
      AutoPauseCountsFlags(backends, events, k - 1);
      NextKeepsAutoPauseOk(After(backends, events, k - 1), events[k - 1]);
    }
  }

  /** What the last tick that looked read about battery power, among the first k events. */
  function LastBatteryReading(events: seq<Event>, k: nat): bool
    requires k <= |events|
  {
    if k == 0 then false
    else
      match events[k - 1]
      case TimerEvent(r) => if r.pauseOnBattery then r.onBattery else LastBatteryReading(events, k - 1)
      case _ => LastBatteryReading(events, k - 1)
  }

  lemma BatteryStep(s: State, e: Event)
    ensures Next(s, e).batteryPower ==
      if e.TimerEvent? && e.reading.pauseOnBattery then e.reading.onBattery else s.batteryPower
  {
    hide HandleJobChange, SetJob, AutoPause, SetEnabled;
    match e
    case SetJobEvent(job, donate, before, after) => SetJobKeepsPauseFields(s, job, donate, before, after);
    case SetEnabledEvent(enable) => SetEnabledKeeps(s, enable);
    case TimerEvent(r) => AutoPauseKeeps(s, r);
    case DatasetEvent(_) => JobChangeKeepsPauseFields(s);
    case _ =>
  }

  /** The flag is what the last tick that looked has read, however long ago. */
  lemma {:induction false} BatteryIsLastReading(backends: nat, events: seq<Event>, k: nat)
    requires k <= |events|
    ensures After(backends, events, k).batteryPower == LastBatteryReading(events, k)
  {
    if k > 0 {
      hide Next;
      BatteryIsLastReading(backends, events, k - 1);
      BatteryStep(After(backends, events, k - 1), events[k - 1]);
    }
  }

  lemma ResumeStep(s: State)
    requires AutoPauseOk(s)
    ensures Next(s, SetEnabledEvent(true)).enabled <==> !s.batteryPower
  {
  }

  /** In every reachable state a resume command works if and only if the last tick that looked saw no battery power. */
  lemma {:induction false} ResumeWorksIff(backends: nat, events: seq<Event>, k: nat)
    requires k <= |events|
    ensures Next(After(backends, events, k), SetEnabledEvent(true)).enabled <==> !LastBatteryReading(events, k)
  {
    hide Next, After;
    AutoPauseCountsFlags(backends, events, k);
    BatteryIsLastReading(backends, events, k);
    ResumeStep(After(backends, events, k));
  }

  predicate BatteryCheckOff(events: seq<Event>, from: nat, to: nat)
    requires from <= to <= |events|
  {
    forall i :: from <= i < to && events[i].TimerEvent? ==> !events[i].reading.pauseOnBattery
  }

  /** The tick of event j reads battery power. */
  predicate SeesBattery(events: seq<Event>, j: nat)
    requires j < |events|
  {
    events[j].TimerEvent? && events[j].reading.pauseOnBattery && events[j].reading.onBattery
  }

  lemma {:induction false} LastReadingStays(events: seq<Event>, j: nat, m: nat)
    requires j < m <= |events| && SeesBattery(events, j) && BatteryCheckOff(events, j + 1, m)
    ensures LastBatteryReading(events, m)
    decreases m
  {
    if m > j + 1 {
      LastReadingStays(events, j, m - 1);
    }
  }

  /**
   Once a tick has seen battery power, switching the battery check off in the configuration leaves
   the miner paused for as long as the check stays off: no command resumes it.
   */
  lemma {:induction false} NoResumeWhileBatteryCheckOff(backends: nat, events: seq<Event>, j: nat, m: nat)
    requires j < m <= |events| && SeesBattery(events, j) && BatteryCheckOff(events, j + 1, m)
    ensures After(backends, events, m).batteryPower && !After(backends, events, m).enabled
  {
    hide After, LastBatteryReading;
    LastReadingStays(events, j, m);
    BatteryIsLastReading(backends, events, m);
    AutoPauseCountsFlags(backends, events, m);
  }

  /** One such run: a tick on battery, a tick with the check off and the mains back, a refused resume. */
  lemma BatteryCheckOffRefusesResume()
    ensures var onBattery := TimerEvent(Reading(true, false, true, false, false));
      var checkOff := TimerEvent(Reading(false, false, false, false, false));
      !After(1, [onBattery, checkOff, SetEnabledEvent(true)], 3).enabled
  {
    var events := [TimerEvent(Reading(true, false, true, false, false)),
                   TimerEvent(Reading(false, false, false, false, false)), SetEnabledEvent(true)];
    NoResumeWhileBatteryCheckOff(1, events, 0, 3);
  }

  // ---------------------------------------------------------------------------
  // The timer
  // ---------------------------------------------------------------------------

  /** Does this event handle a job change? */
  predicate ChangesJob(e: Event) {
    || (e.SetJobEvent? && !Late(e.newJob, e.readyAfter))
    || (e.DatasetEvent? && e.ready)
  }

  /** Some event among the first k is a tick. */
  predicate Ticked(events: seq<Event>, k: nat)
    requires k <= |events|
  {
    k > 0 && (events[k - 1].TimerEvent? || Ticked(events, k - 1))
  }

  /** Some event among the first k handles a job change, with no tick before it. */
  predicate Started(events: seq<Event>, k: nat)
    requires k <= |events|
  {
    k > 0 && (Started(events, k - 1) || (ChangesJob(events[k - 1]) && !Ticked(events, k - 1)))
  }

  /** The two fields that decide about the timer. */
  predicate TimerIs(s: State, started: bool, ticked: bool) {
    && s.timerStarts == (if started then 1 else 0)
    && (s.ticks > 0 <==> started || ticked)
  }

  lemma JobChangeTimer(s: State, started: bool, ticked: bool)
    requires TimerIs(s, started, ticked)
    ensures TimerIs(HandleJobChange(s), started || !ticked, ticked)
  {
  }

  lemma SetJobTimer(s: State, e: Event, started: bool, ticked: bool)
    requires e.SetJobEvent? && TimerIs(s, started, ticked)
    ensures TimerIs(Next(s, e), started || (ChangesJob(e) && !ticked), ticked)
  {
    hide HandleJobChange;
    JobChangeTimer(Install(if Late(e.newJob, e.readyBefore) then Stop(s) else s, e.newJob, e.donate), started, ticked);
  }

  lemma NextTimer(s: State, e: Event, started: bool, ticked: bool)
    requires TimerIs(s, started, ticked)
    ensures TimerIs(Next(s, e), started || (ChangesJob(e) && !ticked), ticked || e.TimerEvent?)
  {
    hide HandleJobChange, SetJob, AutoPause, SetEnabled;
    match e
    case SetJobEvent(_, _, _, _) => SetJobTimer(s, e, started, ticked);
    case SetEnabledEvent(enable) => SetEnabledKeeps(s, enable);
    case TimerEvent(r) => AutoPauseKeeps(s, r);
    case DatasetEvent(_) => JobChangeTimer(s, started, ticked);
    case _ =>
  }

  /** In every run the timer is started at most once: by the first job change handled, unless a tick came before. */
  lemma {:induction false} TimerStartsOnce(backends: nat, events: seq<Event>, k: nat)
    requires k <= |events|
    ensures TimerIs(After(backends, events, k), Started(events, k), Ticked(events, k))
  {
    if k > 0 {
      hide Next, TimerIs;
      TimerStartsOnce(backends, events, k - 1);
      NextTimer(After(backends, events, k - 1), events[k - 1], Started(events, k - 1), Ticked(events, k - 1));
    }
  }

  // ---------------------------------------------------------------------------
  // The pause flag
  // ---------------------------------------------------------------------------

  /** The argument of the last pause command; initially true. Stopping is not a pause command. */
  function LastPause(log: seq<Command>): bool {
    if log == [] then true
    else
      var c := log[|log| - 1];
      if c.Pause? then c.paused else LastPause(log[..|log| - 1])
  }

  /** The flag workers read; stopping also clears it. */
  function Paused(log: seq<Command>): bool {
    if log == [] then true
    else
      match log[|log| - 1]
      case Pause(b) => b
      case StopAll => false
      case _ => Paused(log[..|log| - 1])
  }

  /** Both readings of the log after one or two more commands. */
  lemma FlagsOfLog1(log: seq<Command>, c: Command)
    ensures LastPause(log + [c]) == if c.Pause? then c.paused else LastPause(log)
    ensures Paused(log + [c]) == if c.Pause? then c.paused else if c.StopAll? then false else Paused(log)
  {
  }

  lemma FlagsOfLog2(log: seq<Command>, c: Command, d: Command)
    requires d.Pause? || d.Touch? || d.Reset?
    ensures LastPause(log + [c, d]) == LastPause((log + [c]) + [d])
    ensures Paused(log + [c, d]) == Paused((log + [c]) + [d])
  {
    assert log + [c, d] == (log + [c]) + [d];
  }

  predicate Mining(s: State) { s.active && s.enabled }

  lemma FlagsBeforeJobChange(log: seq<Command>, enabled: bool, reset: bool, index: nat)
    ensures LastPause(log + BeforeJobChange(enabled, reset, index)) == (!enabled || LastPause(log))
    ensures Paused(log + BeforeJobChange(enabled, reset, index)) == (!enabled || Paused(log))
  {
    FlagsOfLog1(log, Pause(true));
    FlagsOfLog1(log, Reset(index));
    FlagsOfLog1(log + [Pause(true)], Reset(index));
    FlagsOfLog2(log, Pause(true), Reset(index));
    assert BeforeJobChange(enabled, reset, index) ==
      if enabled then (if reset then [Reset(index)] else [])
      else if reset then [Pause(true), Reset(index)] else [Pause(true)];
    assert log + [] == log;
  }

  lemma FlagsAfterJobChange(log: seq<Command>, mining: bool)
    ensures LastPause(log + AfterJobChange(mining)) == (!mining && LastPause(log))
    ensures Paused(log + AfterJobChange(mining)) == (!mining && Paused(log))
  {
  }

  /** After a job change both readings are: mining clears them, disabled sets them. */
  lemma FlagsOfJobChange(s: State)
    ensures LastPause(HandleJobChange(s).log) == (!Mining(s) && (!s.enabled || LastPause(s.log)))
    ensures Paused(HandleJobChange(s).log) == (!Mining(s) && (!s.enabled || Paused(s.log)))
  {
    FlagsBeforeJobChange(s.log, s.enabled, s.reset, s.job.index);
    FlagsAfterJobChange(s.log + BeforeJobChange(s.enabled, s.reset, s.job.index), Mining(s));
  }

  lemma FlagsOfSetEnabled(s: State, enabled: bool)
    ensures LastPause(SetEnabled(s, enabled).log) ==
      if SetEnabled(s, enabled).enabled != s.enabled && s.active then !enabled else LastPause(s.log)
    ensures Paused(SetEnabled(s, enabled).log) ==
      if SetEnabled(s, enabled).enabled != s.enabled && s.active then !enabled else Paused(s.log)
  {
  }

  lemma FlagsOfPause(s: State)
    ensures LastPause(PauseMining(s).log) && Paused(PauseMining(s).log)
  {
  }

  lemma FlagsOfStop(s: State)
    ensures LastPause(Stop(s).log) == LastPause(s.log)
    ensures !Paused(Stop(s).log)
  {
  }

  /** Hashing is only ever asked for while the miner is active and enabled. */
  predicate CommandOk(s: State) { !LastPause(s.log) ==> Mining(s) }

  /** The same for the flag workers actually read. */
  predicate FlagOk(s: State) { !Paused(s.log) ==> Mining(s) }

  lemma BatteryPartKeepsFlags(s: State, r: Reading)
    ensures CommandOk(s) ==> CommandOk(BatteryPart(s, r))
    ensures FlagOk(s) ==> FlagOk(BatteryPart(s, r))
  {
    if r.pauseOnBattery && s.batteryPower != r.onBattery {
      var n := s.autoPause + (if r.onBattery then 1 else -1);
      FlagsOfSetEnabled(s.(batteryPower := r.onBattery, autoPause := n), n == 0);
    }
  }

  lemma ActivePartKeepsFlags(s: State, r: Reading)
    ensures CommandOk(s) ==> CommandOk(ActivePart(s, r))
    ensures FlagOk(s) ==> FlagOk(ActivePart(s, r))
  {
    if r.pauseOnActive && s.userActive != r.isActive {
      var n := s.autoPause + (if r.isActive then 1 else -1);
      FlagsOfSetEnabled(s.(userActive := r.isActive, autoPause := n), n == 0);
    }
  }

  /** Raising or lowering either flag goes through SetEnabled, so it keeps both properties. */
  lemma BothPartsKeepFlags(t: State, u: State, r: Reading)
    requires u == BatteryPart(t, r)
    ensures CommandOk(t) ==> CommandOk(ActivePart(u, r))
    ensures FlagOk(t) ==> FlagOk(ActivePart(u, r))
  {
    BatteryPartKeepsFlags(t, r);
    ActivePartKeepsFlags(u, r);
  }

  lemma AutoPauseKeepsFlags(s: State, r: Reading)
    ensures CommandOk(s) ==> CommandOk(AutoPause(s, r))
    ensures FlagOk(s) ==> FlagOk(AutoPause(s, r))
  {
    hide BatteryPart, ActivePart, LastPause, Paused;
    var t := s.(ticks := s.ticks + 1);
    BothPartsKeepFlags(t, BatteryPart(t, r), r);
  }

  /** Both readings after a job is set. */
  lemma FlagsOfSetJob(s: State, job: Job, donate: bool, readyBefore: bool, readyAfter: bool)
    ensures var t := SetJob(s, job, donate, readyBefore, readyAfter);
      var stopped, late := Late(job, readyBefore), Late(job, readyAfter);
      && t.active && t.enabled == s.enabled
      && LastPause(t.log) == (if late then LastPause(s.log) else !s.enabled)
      && Paused(t.log) == (if late then !stopped && Paused(s.log) else !s.enabled)
  {
    FlagsOfStop(s);
    FlagsOfJobChange(Install(if Late(job, readyBefore) then Stop(s) else s, job, donate));
  }

  lemma NextKeepsCommandOk(s: State, e: Event)
    requires CommandOk(s)
    ensures CommandOk(Next(s, e))
  {
    match e
    case SetJobEvent(job, donate, before, after) =>
      FlagsOfSetJob(s, job, donate, before, after);
    case PauseEvent => FlagsOfPause(s);
    case SetEnabledEvent(enable) => FlagsOfSetEnabled(s, enable);
    case TimerEvent(r) =>
      AutoPauseKeepsFlags(s, r);
      FlagsOfStop(AutoPause(s, r));
    case DatasetEvent(_) => FlagsOfJobChange(s);
    case ConfigEvent(_, _) =>
    case StopEvent => FlagsOfStop(s);
    case ExhaustedEvent => FlagsOfLog1(s.log, Pause(true));
  }

  /** Over every run, the last pause command is "go" only if the miner is active and enabled. */
  lemma {:induction false} GoOnlyWhenMining(backends: nat, events: seq<Event>, k: nat)
    requires k <= |events|
    ensures CommandOk(After(backends, events, k))
  {
    if k > 0 {
      GoOnlyWhenMining(backends, events, k - 1);
      NextKeepsCommandOk(After(backends, events, k - 1), events[k - 1]);
    }
  }

  predicate BackendsInStep(s: State) {
    forall b :: 0 <= b < |s.backends| ==> s.backends[b] == Some(s.job)
  }

  lemma JobChangeReachesBackends(s: State)
    ensures BackendsInStep(HandleJobChange(s))
  {
  }

  lemma JobChangePutsBackendsInStep(s: State, e: Event)
    requires ChangesJob(e)
    ensures BackendsInStep(Next(s, e))
  {
    match e
    case SetJobEvent(job, donate, before, after) =>
      JobChangeReachesBackends(Install(if Late(job, before) then Stop(s) else s, job, donate));
    case DatasetEvent(_) => JobChangeReachesBackends(s);
  }

  /**
   After every job change the last pause command says exactly whether the miner is active and
   enabled, and every backend holds the current job; a change of job leaves the worker's own
   flag exact as well.
   */
  lemma JobChangeIsExact(backends: nat, events: seq<Event>, k: nat)
    requires k < |events| && ChangesJob(events[k])
    ensures var s := After(backends, events, k + 1);
      && LastPause(s.log) == !Mining(s)
      && BackendsInStep(s)
      && (events[k].SetJobEvent? ==> Paused(s.log) == !Mining(s))
  {
    var s, e := After(backends, events, k), events[k];
    GoOnlyWhenMining(backends, events, k);
    JobChangePutsBackendsInStep(s, e);
    match e
    case SetJobEvent(job, donate, before, after) => FlagsOfSetJob(s, job, donate, before, after);
    case DatasetEvent(_) => FlagsOfJobChange(s);
  }

  /**
   Stopping clears the flag workers read, so for that flag the property fails: a disabled
   miner whose new job's dataset is not ready ends up neither paused nor mining.
   */
  lemma StopUnpauses()
    ensures exists events: seq<Event> :: |events| == 2 && !Paused(After(1, events, 2).log) && !After(1, events, 2).enabled
  {
    var job := Job(None, RandomX, 0, UserStrategy);
    var events := [SetEnabledEvent(false), SetJobEvent(job, false, false, false)];
    var s0 := After(1, events, 0);
    var s1 := After(1, events, 1);
    var s2 := After(1, events, 2);
    assert s1 == SetEnabled(s0, false);
    assert s2.log == [StopAll];
  }

  /** The steps that break it: each stops the nonce counter while the miner should not mine. */
  predicate BreaksFlag(s: State, e: Event) {
    match e
    case StopEvent => !Mining(s)
    case TimerEvent(r) => r.stopMiner && !Mining(AutoPause(s, r))
    case SetJobEvent(job, _, before, after) => Late(job, before) && Late(job, after) && !s.enabled
    case _ => false
  }

  /** Exactly those steps lead from a state where the flag is right to one where it is not. */
  lemma FlagBreaksExactly(s: State, e: Event)
    requires FlagOk(s)
    ensures FlagOk(Next(s, e)) <==> !BreaksFlag(s, e)
  {
    match e
    case SetJobEvent(job, donate, before, after) =>
      FlagsOfSetJob(s, job, donate, before, after);
    case PauseEvent => FlagsOfPause(s);
    case SetEnabledEvent(enable) => FlagsOfSetEnabled(s, enable);
    case TimerEvent(r) =>
      AutoPauseKeepsFlags(s, r);
      FlagsOfStop(AutoPause(s, r));
    case DatasetEvent(_) => FlagsOfJobChange(s);
    case ConfigEvent(_, _) =>
    case StopEvent => FlagsOfStop(s);
    case ExhaustedEvent => FlagsOfLog1(s.log, Pause(true));
  }

  predicate FlagOkAt(backends: nat, events: seq<Event>, k: nat)
    requires k <= |events|
  {
    FlagOk(After(backends, events, k))
  }

  predicate BreaksAt(backends: nat, events: seq<Event>, k: nat)
    requires k < |events|
  {
    BreaksFlag(After(backends, events, k), events[k])
  }

  lemma FlagStep(backends: nat, events: seq<Event>, k: nat)
    requires k < |events| && FlagOkAt(backends, events, k)
    ensures FlagOkAt(backends, events, k + 1) <==> !BreaksAt(backends, events, k)
  {
    FlagBreaksExactly(After(backends, events, k), events[k]);
  }

  lemma FlagOkAtStart(backends: nat, events: seq<Event>)
    ensures FlagOkAt(backends, events, 0)
  {
  }

  /** If each good point is followed by a good one iff the step is not bad, all is good iff no step is bad. */
  lemma {:induction false} GoodIffNoBadStep(good: seq<bool>, bad: seq<bool>, k: nat)
    requires |good| == |bad| + 1 && good[0] && k <= |bad|
    requires forall i :: 0 <= i < |bad| && good[i] ==> (good[i + 1] <==> !bad[i])
    ensures (forall i :: 0 <= i <= k ==> good[i]) <==> (forall i :: 0 <= i < k ==> !bad[i])
  {
    if k > 0 {
      GoodIffNoBadStep(good, bad, k - 1);
      assert good[k - 1] ==> (good[k - 1 + 1] <==> !bad[k - 1]);
    }
  }

  /** So workers are let go only while the miner is mining, all through a run, iff no such step occurs in it. */
  lemma FlagRightIffNeverBroken(backends: nat, events: seq<Event>)
    ensures (forall k :: 0 <= k <= |events| ==> FlagOkAt(backends, events, k))
       <==> (forall k :: 0 <= k < |events| ==> !BreaksAt(backends, events, k))
  {
    hide FlagOkAt, BreaksAt;
    var good := seq(|events| + 1, k requires 0 <= k <= |events| => FlagOkAt(backends, events, k));
    var bad := seq(|events|, k requires 0 <= k < |events| => BreaksAt(backends, events, k));
    forall k | 0 <= k < |bad| && good[k] ensures good[k + 1] <==> !bad[k] {
      FlagStep(backends, events, k);
    }
    FlagOkAtStart(backends, events);
    GoodIffNoBadStep(good, bad, |events|);
    assert forall k :: 0 <= k <= |events| ==> good[k] == FlagOkAt(backends, events, k);
    assert forall k :: 0 <= k < |events| ==> bad[k] == BreaksAt(backends, events, k);
  }

  // ---------------------------------------------------------------------------
  // Keeping the user's nonce across a donation round
  // ---------------------------------------------------------------------------

  /** The last job set among the first k events. */
  function LastSet(events: seq<Event>, k: nat): (i: Option<nat>)
    requires k <= |events|
    ensures i.Some? ==> i.value < k && events[i.value].SetJobEvent?
  {
    if k == 0 then None
    else if events[k - 1].SetJobEvent? then Some(k - 1)
    else LastSet(events, k - 1)
  }

  /** The identifier of the last user job among the first k events. */
  function LastUserId(events: seq<Event>, k: nat): Option<string>
    requires k <= |events|
  {
    if k == 0 then None
    else if events[k - 1].SetJobEvent? && !events[k - 1].donate then events[k - 1].newJob.id
    else LastUserId(events, k - 1)
  }

  /** Event i brings back, right after a donate job, the user job that was last seen. */
  predicate ReturnsFromDonation(events: seq<Event>, i: nat)
    requires i < |events|
  {
    && events[i].SetJobEvent? && !events[i].donate
    && LastSet(events, i).Some? && events[LastSet(events, i).value].donate
    && LastUserId(events, i) == events[i].newJob.id
  }

  function JobOf(events: seq<Event>, last: Option<nat>): Job
    requires last.Some? ==> last.value < |events| && events[last.value].SetJobEvent?
  {
    if last.None? then DEFAULT_JOB
    else events[last.value].newJob.(index := if events[last.value].donate then 1 else 0)
  }

  /** The fields a job switch depends on. */
  datatype Jobs = Jobs(reset: bool, job: Job, userJobId: Option<string>)

  function JobsOf(s: State): Jobs { Jobs(s.reset, s.job, s.userJobId) }

  function InstallJobs(j: Jobs, job: Job, donate: bool): Jobs {
    Jobs(!(j.job.index == 1 && !donate && j.userJobId == job.id),
         job.(index := if donate then 1 else 0),
         if donate then j.userJobId else job.id)
  }

  /** Neither automatic pause touches the jobs, the backends or the timer. */
  predicate SameRest(s: State, t: State) {
    JobsOf(t) == JobsOf(s) && t.backends == s.backends && t.ticks == s.ticks && t.timerStarts == s.timerStarts
  }

  lemma SetEnabledKeeps(s: State, enabled: bool)
    ensures SameRest(s, SetEnabled(s, enabled)) && SetEnabled(s, enabled).batteryPower == s.batteryPower
  {
  }

  lemma BatteryPartKeeps(s: State, r: Reading)
    ensures SameRest(s, BatteryPart(s, r))
    ensures BatteryPart(s, r).batteryPower == if r.pauseOnBattery then r.onBattery else s.batteryPower
  {
    hide SetEnabled;
    var n := s.autoPause + (if r.onBattery then 1 else -1);
    SetEnabledKeeps(s.(batteryPower := r.onBattery, autoPause := n), n == 0);
  }

  lemma ActivePartKeeps(s: State, r: Reading)
    ensures SameRest(s, ActivePart(s, r)) && ActivePart(s, r).batteryPower == s.batteryPower
  {
    hide SetEnabled;
    var n := s.autoPause + (if r.isActive then 1 else -1);
    SetEnabledKeeps(s.(userActive := r.isActive, autoPause := n), n == 0);
  }

  lemma AutoPauseKeeps(s: State, r: Reading)
    ensures SameRest(s.(ticks := s.ticks + 1), AutoPause(s, r))
    ensures AutoPause(s, r).batteryPower == if r.pauseOnBattery then r.onBattery else s.batteryPower
  {
    hide BatteryPart, ActivePart;
    var t := s.(ticks := s.ticks + 1);
    BatteryPartKeeps(t, r);
    ActivePartKeeps(BatteryPart(t, r), r);
  }

  lemma JobChangeJobs(s: State)
    ensures JobsOf(HandleJobChange(s)) == JobsOf(s)
  {
  }

  lemma SetJobJobs(s: State, job: Job, donate: bool, readyBefore: bool, readyAfter: bool)
    ensures JobsOf(SetJob(s, job, donate, readyBefore, readyAfter)) == InstallJobs(JobsOf(s), job, donate)
  {
    hide HandleJobChange;
    JobChangeJobs(Install(if Late(job, readyBefore) then Stop(s) else s, job, donate));
  }

  lemma NextJobs(s: State, e: Event)
    ensures JobsOf(Next(s, e)) == if e.SetJobEvent? then InstallJobs(JobsOf(s), e.newJob, e.donate) else JobsOf(s)
  {
    hide HandleJobChange, SetJob, SetEnabled, AutoPause, InstallJobs;
    match e
    case SetJobEvent(job, donate, before, after) => SetJobJobs(s, job, donate, before, after);
    case SetEnabledEvent(enable) => SetEnabledKeeps(s, enable);
    case TimerEvent(r) => AutoPauseKeeps(s, r);
    case DatasetEvent(_) => JobChangeJobs(s);
    case _ =>
  }

  function HistoryJobs(events: seq<Event>, k: nat): Jobs
    requires k <= |events|
  {
    var last := LastSet(events, k);
    Jobs(!(last.Some? && ReturnsFromDonation(events, last.value)), JobOf(events, last), LastUserId(events, k))
  }

  lemma HistoryJobsStep(events: seq<Event>, k: nat)
    requires k < |events|
    ensures HistoryJobs(events, k + 1) ==
      if events[k].SetJobEvent? then InstallJobs(HistoryJobs(events, k), events[k].newJob, events[k].donate)
      else HistoryJobs(events, k)
  {
  }

  lemma EmptyHistory(events: seq<Event>)
    ensures HistoryJobs(events, 0) == Jobs(true, DEFAULT_JOB, None)
  {
  }

  /**
   In every reachable state the nonce is to be kept exactly when the last job set was the return,
   right after a donate job, of the user job last seen.
   */
  lemma {:induction false} ResetIsHistory(backends: nat, events: seq<Event>, k: nat)
    requires k <= |events|
    ensures JobsOf(After(backends, events, k)) == HistoryJobs(events, k)
  {
    hide Next, HistoryJobs, InstallJobs;
    if k == 0 {
      assert JobsOf(Initial(backends)) == HistoryJobs(events, 0) by { EmptyHistory(events); }
    } else {
      ResetIsHistory(backends, events, k - 1);
      NextJobs(After(backends, events, k - 1), events[k - 1]);
      HistoryJobsStep(events, k - 1);
    }
  }

  /** What was last handed to the backends in the first k events: a job, or nothing since a stop. */
  function Held(events: seq<Event>, k: nat): Option<Job>
    requires k <= |events|
  {
    if k == 0 then None
    else
      var current := Some(JobOf(events, LastSet(events, k)));
      match events[k - 1]
      case SetJobEvent(job, _, before, after) =>
        if !Late(job, after) then current else if Late(job, before) then None else Held(events, k - 1)
      case DatasetEvent(ready) => if ready then current else Held(events, k - 1)
      case ConfigEvent(changed, active) => if changed && active then Held(events, k - 1) else current
      case StopEvent => None
      case TimerEvent(r) => if r.stopMiner then None else Held(events, k - 1)
      case _ => Held(events, k - 1)
  }

  predicate AllHold(s: State, job: Option<Job>) {
    forall b :: 0 <= b < |s.backends| ==> s.backends[b] == job
  }

  lemma SetJobHolds(s: State, e: Event, before: Option<Job>)
    requires e.SetJobEvent? && AllHold(s, before)
    ensures AllHold(Next(s, e),
      if !Late(e.newJob, e.readyAfter) then Some(Next(s, e).job) else if Late(e.newJob, e.readyBefore) then None else before)
  {
    hide HandleJobChange;
    var t := Install(if Late(e.newJob, e.readyBefore) then Stop(s) else s, e.newJob, e.donate);
    JobChangeReachesBackends(t);
    JobChangeJobs(t);
  }

  lemma OtherHolds(s: State, e: Event, before: Option<Job>)
    requires !e.SetJobEvent? && AllHold(s, before)
    ensures AllHold(Next(s, e),
      match e
      case DatasetEvent(ready) => if ready then Some(s.job) else before
      case ConfigEvent(changed, active) => if changed && active then before else Some(s.job)
      case StopEvent => None
      case TimerEvent(r) => if r.stopMiner then None else before
      case _ => before)
  {
    hide HandleJobChange, AutoPause;
    match e
    case DatasetEvent(ready) =>
      JobChangeReachesBackends(s);
      JobChangeJobs(s);
    case TimerEvent(r) => AutoPauseKeeps(s, r);
    case _ =>
  }

  lemma CurrentJob(backends: nat, events: seq<Event>, k: nat)
    requires k <= |events|
    ensures After(backends, events, k).job == JobOf(events, LastSet(events, k))
  {
    hide After, LastSet, JobOf;
    ResetIsHistory(backends, events, k);
  }

  /** In every reachable state all backends hold the same: the job current when last handed over, or nothing since a stop. */
  lemma {:induction false} BackendsHoldLastHandedOver(backends: nat, events: seq<Event>, k: nat)
    requires k <= |events|
    ensures AllHold(After(backends, events, k), Held(events, k))
  {
    if k > 0 {
      hide Next, AllHold, LastSet, JobOf;
      var s, e := After(backends, events, k - 1), events[k - 1];
      BackendsHoldLastHandedOver(backends, events, k - 1);
      CurrentJob(backends, events, k);
      NextJobs(s, e);
      if e.SetJobEvent? {
        SetJobHolds(s, e, Held(events, k - 1));
      } else {
        OtherHolds(s, e, Held(events, k - 1));
      }
    }
  }

  /** `later` extends `log` without restarting the user nonce counter. */
  predicate NoUserReset(log: seq<Command>, later: seq<Command>) {
    log <= later && forall i :: |log| <= i < |later| ==> later[i] != Reset(0)
  }

  lemma NoUserResetTrans(a: seq<Command>, b: seq<Command>, c: seq<Command>)
    requires NoUserReset(a, b) && NoUserReset(b, c)
    ensures NoUserReset(a, c)
  {
  }

  lemma JobChangeNoUserReset(s: State)
    requires s.job.index != 0 || !s.reset
    ensures NoUserReset(s.log, HandleJobChange(s).log)
  {
    hide NoUserReset;
    var before := BeforeJobChange(s.enabled, s.reset, s.job.index);
    NoUserResetTrans(s.log, s.log + before, HandleJobChange(s).log);
  }

  lemma SetJobNoUserReset(s: State, e: Event)
    requires e.SetJobEvent? && (e.donate || !InstallJobs(JobsOf(s), e.newJob, e.donate).reset)
    ensures NoUserReset(s.log, Next(s, e).log)
  {
    var t := Install(if Late(e.newJob, e.readyBefore) then Stop(s) else s, e.newJob, e.donate);
    JobChangeNoUserReset(t);
    NoUserResetTrans(s.log, t.log, HandleJobChange(t).log);
  }

  lemma SetEnabledNoUserReset(s: State, enabled: bool)
    ensures NoUserReset(s.log, SetEnabled(s, enabled).log)
  {
  }

  lemma BatteryPartNoUserReset(s: State, r: Reading)
    ensures NoUserReset(s.log, BatteryPart(s, r).log)
  {
  }

  lemma ActivePartNoUserReset(s: State, r: Reading)
    ensures NoUserReset(s.log, ActivePart(s, r).log)
  {
  }

  lemma AutoPauseNoUserReset(s: State, r: Reading)
    ensures NoUserReset(s.log, AutoPause(s, r).log)
  {
    hide BatteryPart, ActivePart;
    var t := s.(ticks := s.ticks + 1);
    BatteryPartNoUserReset(t, r);
    ActivePartNoUserReset(BatteryPart(t, r), r);
    NoUserResetTrans(s.log, BatteryPart(t, r).log, AutoPause(s, r).log);
  }

  lemma TimerNoUserReset(s: State, r: Reading)
    ensures NoUserReset(s.log, OnTimer(s, r).log)
  {
    hide AutoPause;
    AutoPauseNoUserReset(s, r);
    NoUserResetTrans(s.log, AutoPause(s, r).log, OnTimer(s, r).log);
  }

  lemma OtherNoUserReset(s: State, e: Event)
    requires !e.SetJobEvent? && (s.job.index != 0 || !s.reset)
    ensures NoUserReset(s.log, Next(s, e).log)
  {
    match e
    case SetEnabledEvent(enable) => SetEnabledNoUserReset(s, enable);
    case TimerEvent(r) => TimerNoUserReset(s, r);
    case DatasetEvent(_) => JobChangeNoUserReset(s);
    case _ =>
  }

  /**
   One donation round: the user job set by event a, the first donate job by event d, the return
   of that user job by event b, and no other job up to event m.
   */
  predicate DonationRound(events: seq<Event>, a: nat, d: nat, b: nat, m: nat) {
    && a < d < b < m <= |events|
    && events[a].SetJobEvent? && !events[a].donate
    && events[d].SetJobEvent? && events[d].donate
    && events[b].SetJobEvent? && !events[b].donate && events[b].newJob.id == events[a].newJob.id
    && (forall i :: a < i < b && events[i].SetJobEvent? ==> d <= i && events[i].donate)
    && (forall i :: b < i < m ==> !events[i].SetJobEvent?)
  }

  lemma {:induction false} UserIdStays(events: seq<Event>, a: nat, d: nat, b: nat, m: nat, k: nat)
    requires DonationRound(events, a, d, b, m) && a < k <= b
    ensures LastUserId(events, k) == events[a].newJob.id
  {
    if k > a + 1 {
      UserIdStays(events, a, d, b, m, k - 1);
    }
  }

  lemma {:induction false} LastSetIsDonate(events: seq<Event>, a: nat, d: nat, b: nat, m: nat, k: nat)
    requires DonationRound(events, a, d, b, m) && d < k <= b
    ensures LastSet(events, k).Some? && events[LastSet(events, k).value].donate
  {
    if k > d + 1 {
      LastSetIsDonate(events, a, d, b, m, k - 1);
    }
  }

  lemma {:induction false} LastSetIsReturn(events: seq<Event>, a: nat, d: nat, b: nat, m: nat, k: nat)
    requires DonationRound(events, a, d, b, m) && b < k <= m
    ensures LastSet(events, k) == Some(b)
  {
    if k > b + 1 {
      LastSetIsReturn(events, a, d, b, m, k - 1);
    }
  }

  lemma RoundReturns(events: seq<Event>, a: nat, d: nat, b: nat, m: nat)
    requires DonationRound(events, a, d, b, m)
    ensures ReturnsFromDonation(events, b)
  {
    UserIdStays(events, a, d, b, m, b);
    LastSetIsDonate(events, a, d, b, m, b);
  }

  lemma RoundStep(backends: nat, events: seq<Event>, a: nat, d: nat, b: nat, m: nat, k: nat)
    requires DonationRound(events, a, d, b, m) && d <= k < m
    ensures NoUserReset(After(backends, events, k).log, After(backends, events, k + 1).log)
  {
    hide Next, NoUserReset;
    var s, e := After(backends, events, k), events[k];
    ResetIsHistory(backends, events, k);
    HistoryJobsStep(events, k);
    RoundReturns(events, a, d, b, m);
    if e.SetJobEvent? {
      SetJobNoUserReset(s, e);
    } else {
      if k > b {
        LastSetIsReturn(events, a, d, b, m, k);
      } else {
        LastSetIsDonate(events, a, d, b, m, k);
      }
      OtherNoUserReset(s, e);
    }
  }

  /**
   Across a donation round the user nonce counter is never restarted: from the first donate job
   until the job after the return, whatever dataset callbacks, pauses and ticks occur.
   */
  lemma {:induction false} DonationKeepsUserNonce(backends: nat, events: seq<Event>, a: nat, d: nat, b: nat, m: nat, k: nat)
    requires DonationRound(events, a, d, b, m) && d <= k <= m
    ensures NoUserReset(After(backends, events, d).log, After(backends, events, k).log)
  {
    hide After;
    if k > d {
      DonationKeepsUserNonce(backends, events, a, d, b, m, k - 1);
      RoundStep(backends, events, a, d, b, m, k - 1);
      NoUserResetTrans(After(backends, events, d).log, After(backends, events, k - 1).log, After(backends, events, k).log);
    }
  }

  function Usable(max: nat, usable: nat -> bool): seq<nat> {
    if max == 0 then []
    else Usable(max - 1, usable) + (if usable(max - 1) then [max - 1] else [])
  }

  /** The rebuilt list holds each usable algorithm once, in increasing order, and no other. */
  lemma {:induction false} UsableIsExact(max: nat, usable: nat -> bool)
    ensures forall a: nat :: a in Usable(max, usable) <==> a < max && usable(a)
    ensures forall i, j :: 0 <= i < j < |Usable(max, usable)| ==> Usable(max, usable)[i] < Usable(max, usable)[j]
  {
    if max > 0 {
      UsableIsExact(max - 1, usable);
      var before := Usable(max - 1, usable);
      assert forall i :: 0 <= i < |before| ==> before[i] in before;
    }
  }
}
