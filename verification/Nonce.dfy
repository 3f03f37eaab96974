/** The nonce counter shared by all workers of one job slot. The mask is 2^bits - 1. */
module Nonce {
  import opened Powers
  import opened Wrappers

  // Ranges are reserved with one atomic addition each, a range that would cross a 32-bit boundary is
  // given up and another one taken, and the call that reaches the end of the nonce space pauses mining.

  const TWO32: nat := 0x1_0000_0000

  type Word = w: nat | w < TWO32

  // ---------------------------------------------------------------------------
  // One reservation
  // ---------------------------------------------------------------------------

  /** What a call does with the counter value its addition returned. */
  datatype Decision =
    | Refuse       // beyond the end: false
    | LastRefuse   // the end is inside the range: pause, then false
    | LastGrant    // the range ends exactly at the end: pause, then true
    | Retry        // the low word would overflow inside the range: add again
    | Grant

  function Decide(counter: nat, reserve: nat, mask: nat): Decision
    requires reserve > 0
  {
    if mask < counter then Refuse
    else if mask - counter <= reserve - 1 then
      if mask - counter < reserve - 1 then LastRefuse else LastGrant
    else if TWO32 - 1 - counter % TWO32 < reserve - 1 then Retry
    else Grant
  }

  /** A reserved range and the reset period it belongs to. */
  datatype Range = Range(period: nat, first: nat, count: nat)

  // ---------------------------------------------------------------------------
  // All workers together
  // ---------------------------------------------------------------------------

  datatype Thread = Idle | Adding(reserve: nat) | Pausing(period: nat)

  datatype State = State(
    counter: nat,
    threads: seq<Thread>,
    // history
    period: nat,            // how often the counter was reset
    pausedSince: bool,      // a pause was issued since the last reset
    granted: seq<Range>)    // successful reservations, in the order of their additions

  datatype Step =
    | Call(t: nat, reserve: nat)  // a worker asks for a range
    | Add(t: nat)                 // its atomic addition, and what it decides
    | Pause(t: nat)               // the pause of the call that reached the end
    | Reset                       // the miner resets the counter

  function Initial(threads: nat): State {
    State(0, seq(threads, i => Idle), 0, false, [])
  }

  /** Calls for nothing, or for more than there is, return at once. */
  predicate Askable(reserve: nat, mask: nat) {
    0 < reserve < TWO32 && reserve - 1 <= mask
  }

  function AfterDecision(s: State, t: nat, reserve: nat, d: Decision): State
    requires t < |s.threads|
  {
    match d
    case Refuse => s.(threads := s.threads[t := Idle])
    case LastRefuse => s.(threads := s.threads[t := Pausing(s.period)])
    case LastGrant =>
      s.(threads := s.threads[t := Pausing(s.period)], granted := s.granted + [Range(s.period, s.counter, reserve)])
    case Retry => s
    case Grant => s.(threads := s.threads[t := Idle], granted := s.granted + [Range(s.period, s.counter, reserve)])
  }

  /** One step; a step that is not possible changes nothing. */
  function Next(s: State, e: Step, mask: nat): State {
    match e
    case Call(t, reserve) =>
      if t < |s.threads| && s.threads[t].Idle? && Askable(reserve, mask)
      then s.(threads := s.threads[t := Adding(reserve)]) else s
    case Add(t) =>
      if t < |s.threads| && s.threads[t].Adding? && s.threads[t].reserve > 0 then
        var reserve := s.threads[t].reserve;
        AfterDecision(s, t, reserve, Decide(s.counter, reserve, mask)).(counter := s.counter + reserve)
      else s
    case Pause(t) =>
      if t < |s.threads| && s.threads[t].Pausing? then s.(threads := s.threads[t := Idle], pausedSince := true) else s
    case Reset => s.(counter := 0, period := s.period + 1, pausedSince := false)
  }

  function After(threads: nat, steps: seq<Step>, k: nat, mask: nat): State
    requires k <= |steps|
  {
    if k == 0 then Initial(threads) else Next(After(threads, steps, k - 1, mask), steps[k - 1], mask)
  }

  // ---------------------------------------------------------------------------
  // Invariants
  // ---------------------------------------------------------------------------

  /** The range lies in the nonce space and its low words do not overflow. */
  predicate RangeOk(r: Range, mask: nat) {
    && 0 < r.count && r.first + r.count - 1 <= mask
    && r.first % TWO32 + r.count <= TWO32
  }

  /** Ranges of one period follow one another, and those of the current one lie below the counter. */
  ghost predicate GrantsOk(s: State, mask: nat) {
    && (forall i :: 0 <= i < |s.granted| ==> RangeOk(s.granted[i], mask) && s.granted[i].period <= s.period)
    && (forall i :: 0 <= i < |s.granted| && s.granted[i].period == s.period ==>
          s.granted[i].first + s.granted[i].count <= s.counter)
    && (forall i, j :: 0 <= i < j < |s.granted| && s.granted[i].period == s.granted[j].period ==>
          s.granted[i].first + s.granted[i].count <= s.granted[j].first)
  }

  ghost predicate ThreadsOk(s: State, mask: nat) {
    forall t :: 0 <= t < |s.threads| && s.threads[t].Adding? ==> Askable(s.threads[t].reserve, mask)
  }

  ghost predicate PauseUnderWay(s: State) {
    exists t :: 0 <= t < |s.threads| && s.threads[t] == Pausing(s.period)
  }

  /** Once the counter is beyond the end, mining was paused, or the call that got there is about to. */
  ghost predicate EndPauses(s: State, mask: nat) {
    s.counter > mask ==> s.pausedSince || PauseUnderWay(s)
  }

  /** The end of the space is the end of a 32-bit block, or the space is one. */
  predicate MaskOk(mask: nat) {
    (mask + 1) % TWO32 == 0 || mask < TWO32
  }

  lemma LastGrantFits(counter: nat, reserve: nat, mask: nat)
    requires MaskOk(mask) && 0 < reserve < TWO32 && counter + reserve - 1 == mask
    ensures counter % TWO32 + reserve <= TWO32
  {
    var low, high := counter % TWO32, counter / TWO32;
    if mask >= TWO32 {
      assert (low + reserve + TWO32 * high) % TWO32 == 0;
    }
  }

  lemma DecideGrants(counter: nat, reserve: nat, mask: nat)
    requires MaskOk(mask) && Askable(reserve, mask)
    ensures Decide(counter, reserve, mask).Grant? || Decide(counter, reserve, mask).LastGrant? ==>
      RangeOk(Range(0, counter, reserve), mask)
  {
    if Decide(counter, reserve, mask).LastGrant? {
      LastGrantFits(counter, reserve, mask);
    }
  }

  lemma AddKeepsGrants(s: State, t: nat, mask: nat)
    requires MaskOk(mask) && GrantsOk(s, mask) && ThreadsOk(s, mask)
    ensures GrantsOk(Next(s, Add(t), mask), mask)
  {
    hide Decide;
    if t < |s.threads| && s.threads[t].Adding? {
      DecideGrants(s.counter, s.threads[t].reserve, mask);
    }
  }

  lemma StepKeepsGrants(s: State, e: Step, mask: nat)
    requires MaskOk(mask) && GrantsOk(s, mask) && ThreadsOk(s, mask)
    ensures GrantsOk(Next(s, e, mask), mask)
  {
    match e
    case Add(t) => AddKeepsGrants(s, t, mask);
    case _ =>
  }

  lemma StepKeepsThreads(s: State, e: Step, mask: nat)
    requires ThreadsOk(s, mask)
    ensures ThreadsOk(Next(s, e, mask), mask)
  {
  }

  lemma StepKeepsEndPauses(s: State, e: Step, mask: nat)
    requires EndPauses(s, mask)
    ensures EndPauses(Next(s, e, mask), mask)
  {
    var s' := Next(s, e, mask);
    if PauseUnderWay(s) {
      var t :| 0 <= t < |s.threads| && s.threads[t] == Pausing(s.period);
      if e != Pause(t) && !e.Reset? {
        assert s'.threads[t] == Pausing(s.period);
      }
    }
    if e.Add? && e.t < |s.threads| && s.threads[e.t].Adding? && s.counter <= mask < s'.counter {
      assert s'.threads[e.t] == Pausing(s.period);
    }
  }

  lemma {:induction false} RunKeepsInvariants(threads: nat, steps: seq<Step>, k: nat, mask: nat)
    requires k <= |steps| && MaskOk(mask)
    ensures var s := After(threads, steps, k, mask); GrantsOk(s, mask) && ThreadsOk(s, mask) && EndPauses(s, mask)
  {
    if k > 0 {
      hide Next, GrantsOk, ThreadsOk, EndPauses;
      RunKeepsInvariants(threads, steps, k - 1, mask);
      var s := After(threads, steps, k - 1, mask);
      StepKeepsGrants(s, steps[k - 1], mask);
      StepKeepsThreads(s, steps[k - 1], mask);
      StepKeepsEndPauses(s, steps[k - 1], mask);
    }
  }

  /** Nonce n belongs to range r. */
  predicate Holds(r: Range, n: nat) {
    r.first <= n < r.first + r.count
  }

  /**
   In every interleaving of any number of workers, between two resets no nonce is given out twice,
   every nonce given out is in the nonce space, and counting up a range never leaves its low word.
   */
  lemma NoNonceTwice(threads: nat, steps: seq<Step>, mask: nat, i: nat, j: nat, n: nat)
    requires MaskOk(mask)
    requires var g := After(threads, steps, |steps|, mask).granted; i < |g| && j < |g| && Holds(g[i], n)
    ensures var g := After(threads, steps, |steps|, mask).granted;
      && n <= mask
      && n / TWO32 == g[i].first / TWO32
      && (Holds(g[j], n) && g[i].period == g[j].period ==> i == j)
  {
    hide After;
    RunKeepsInvariants(threads, steps, |steps|, mask);
    var r := After(threads, steps, |steps|, mask).granted[i];
    assert RangeOk(r, mask);
  }

  /** A call is refused for want of nonces only if mining was paused since the last reset, or is about to be. */
  lemma RefusalMeansPause(threads: nat, steps: seq<Step>, mask: nat, t: nat)
    requires MaskOk(mask)
    requires var s := After(threads, steps, |steps|, mask);
      t < |s.threads| && s.threads[t].Adding? && s.threads[t].reserve > 0 && Decide(s.counter, s.threads[t].reserve, mask).Refuse?
    ensures var s := After(threads, steps, |steps|, mask); s.pausedSince || PauseUnderWay(s)
  {
    hide After;
    RunKeepsInvariants(threads, steps, |steps|, mask);
  }

  /** The counter as one call sees it, uninterrupted. */
  class Counter {
    var value: nat
    var paused: bool

    constructor ()
      ensures value == 0 && paused
    {
      value, paused := 0, true;
    }

    /**
     Reserves a range: granted ranges lie in the space, at or behind the old value, and end at the
     new one; a refused call leaves nothing to take; the call that passes the end pauses, no other.
     */
    method NextRange(reserve: nat, mask: nat) returns (first: Option<nat>)
      requires MaskOk(mask) && reserve < TWO32
      modifies this
      ensures first.Some? ==> old(value) <= first.value && value == first.value + reserve && RangeOk(Range(0, first.value, reserve), mask)
      ensures first.None? ==> value == old(value) || value > mask
      ensures !Askable(reserve, mask) ==> first.None? && value == old(value) && paused == old(paused)
      ensures paused == (old(paused) || old(value) <= mask < value)
    {
      if reserve == 0 || mask < reserve - 1 {
        return None;
      }
      var counter := value;
      value := value + reserve;
      while true
        invariant value == counter + reserve && old(value) <= counter && paused == old(paused)
        invariant old(value) == counter || counter <= mask
        decreases mask + 1 - counter
      {
        DecideGrants(counter, reserve, mask);
        if mask < counter {
          return None;
        } else if mask - counter <= reserve - 1 {
          paused := true;
          if mask - counter < reserve - 1 {
            return None;
          }
        } else if TWO32 - 1 - counter % TWO32 < reserve - 1 {
          counter := value;
          value := value + reserve;
          continue;
        }
        return Some(counter);
      }
    }
  }

  // ---------------------------------------------------------------------------
  // Storing the nonce
  // ---------------------------------------------------------------------------

  function Combined(low: Word, high: Word): nat { low + TWO32 * high }

  /** Clearing the low bits of a word. */
  function ClearLow(w: nat, bits: nat): (r: nat)
    ensures r <= w
  {
    RemainderAtMost(w, Pow2(bits));
    w - w % Pow2(bits)
  }

  lemma RemainderAtMost(w: nat, p: int)
    requires p > 0
    ensures 0 <= w % p <= w
  {
  }

  /**
   Writes a counter below 2^bits over the low bits of the two nonce words and leaves the bits
   above, which the pool fixed, as they are.
   */
  method StoreNonce(nonce: array<Word>, counter: nat, bits: nat)
    requires nonce.Length >= 2 && bits <= 63 && counter < Pow2(bits)
    modifies nonce
    ensures Combined(nonce[0], nonce[1]) ==
      old(Combined(nonce[0], nonce[1])) - old(Combined(nonce[0], nonce[1])) % Pow2(bits) + counter
    ensures forall i :: 2 <= i < nonce.Length ==> nonce[i] == old(nonce[i])
  {
    hide Pow2;
    ghost var low, high := nonce[0], nonce[1];
    if bits <= 32 {
      LowStore(low, high, counter, bits);
      nonce[0] := ClearLow(nonce[0], bits) + counter;
    } else {
      HighStore(low, high, counter, bits);
      nonce[0] := counter % TWO32;
      nonce[1] := ClearLow(nonce[1], bits - 32) + counter / TWO32;
    }
  }

  lemma ClearedPlus(w: Word, bits: nat, x: nat)
    requires bits <= 32 && x < Pow2(bits)
    ensures ClearLow(w, bits) + x < TWO32
  {
    hide Pow2;
    var p, q := Pow2(bits), Pow2(32 - bits);
    PowSum(bits, 32 - bits);
    Pow32();
    BlockFits(w, p, q);
  }

  lemma BlockFits(w: nat, p: int, q: int)
    requires p > 0 && w < p * q
    ensures w - w % p + p <= p * q
  {
    var d := w / p;
    assert w == p * d + w % p;
    if d >= q {
      BlockMono(p, q, d);
    } else {
      BlockMono(p, d + 1, q);
      assert p * (d + 1) == p * d + p;
    }
  }

  lemma BlockMono(p: int, a: int, b: int)
    requires p > 0 && a <= b
    ensures p * a <= p * b
  {
  }

  lemma LowStore(low: Word, high: Word, counter: nat, bits: nat)
    requires bits <= 32 && counter < Pow2(bits)
    ensures ClearLow(low, bits) + counter < TWO32
    ensures Combined(low, high) % Pow2(bits) == low % Pow2(bits)
  {
    hide Pow2;
    ClearedPlus(low, bits, counter);
    PowSum(bits, 32 - bits);
    Pow32();
    Reassociate(Pow2(bits), Pow2(32 - bits), high);
    ResidueShift(low, Pow2(bits), Pow2(32 - bits) * high);
  }

  lemma Reassociate(a: int, b: int, c: int)
    ensures (a * b) * c == a * (b * c)
  {
  }

  lemma HighStore(low: Word, high: Word, counter: nat, bits: nat)
    requires 32 < bits <= 63 && counter < Pow2(bits)
    ensures ClearLow(high, bits - 32) + counter / TWO32 < TWO32
    ensures Combined(low, high) % Pow2(bits) == low + TWO32 * (high % Pow2(bits - 32))
    ensures counter == counter % TWO32 + TWO32 * (counter / TWO32)
  {
    hide Pow2;
    var p := Pow2(bits - 32);
    PowSum(32, bits - 32);
    Pow32();
    QuotientBelow(counter, p);
    ClearedPlus(high, bits - 32, counter / TWO32);
    var q, r := high / p, high % p;
    assert high == p * q + r;
    HighParts(low, p, q, r);
    ResidueUnique(Combined(low, high), TWO32 * p, q, low + TWO32 * r);
  }

  lemma QuotientBelow(c: nat, p: int)
    requires c < TWO32 * p
    ensures c / TWO32 < p
  {
  }

  lemma HighParts(low: Word, p: int, q: int, r: int)
    requires 0 <= r < p
    ensures low + TWO32 * (p * q + r) == (TWO32 * p) * q + (low + TWO32 * r)
    ensures 0 <= low + TWO32 * r < TWO32 * p
  {
    Reassociate(TWO32, p, q);
  }

  /** The masks in use: 2^bits - 1, for any number of bits. */
  lemma PowerMaskOk(bits: nat)
    ensures MaskOk(Pow2(bits) - 1)
  {
    hide Pow2;
    Pow32();
    if bits >= 32 {
      PowSum(32, bits - 32);
      ResidueShift(0, TWO32, Pow2(bits - 32));
    } else {
      Pow2Mono(bits, 31);
      Pow2Mono(31, 32);
    }
  }
}
