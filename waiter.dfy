/** `wait_output(expected_value, timeout_cycles)` over an abstract trace of
    the simulation.

    The loop is `for cycle in range(timeout_cycles)`: read the bus directly;
    return if the value equals `expected_value`; otherwise suspend until the
    next rising clock edge.  After the loop one more direct read gives the
    value reported as "stuck at" in the AssertionError.  Read number k thus
    happens after k rising edges since the call, and while the caller is
    suspended on an edge the monitor coroutines handle the bus changes of
    that interval. */
module Waiter {
  import opened Wrappers
  import opened Word32
  import opened Monitor

  /** The default of `timeout_cycles`. */
  const DEFAULT_TIMEOUT_CYCLES: int := 100000

  /** What the simulator shows one call of wait_output.  `sample(k)` is
      `int(la_data_in.value)` at read k (None: the bus holds unresolved
      bits); `during(k)` are the reads the monitor makes, one per change of
      the bus, while the caller waits for edge k + 1. */
  datatype Env = Env(sample: nat -> Option<int>, during: nat -> seq<Option<int>>)

  /** How a call ends: it returns after `edges` rising edges, or raises the
      AssertionError carrying the expected value and the last value read. */
  datatype Outcome = Reached(edges: nat) | Timeout(expected: int, stuckAt: u32)

  /** `range(timeout_cycles)` is empty for a negative count. */
  function Budget(timeout: int): (n: nat)
    ensures timeout >= 0 ==> n == timeout
    ensures timeout <= 0 ==> n == 0
  {
    if timeout < 0 then 0 else timeout
  }

  /** The monitor handles a run of bus changes, in order. */
  function Changes(s: State, raws: seq<Option<int>>): (r: State)
    ensures r.stop == s.stop && r.handle == s.handle && |r.tasks| == |s.tasks|
    decreases |raws|
  {
    if raws == [] then s else Changes(Change(s, raws[0]), raws[1..])
  }

  /** `await RisingEdge(clk)`: the caller yields, the scheduler starts any
      queued monitor, and the monitors handle the changes of the interval. */
  function AwaitEdge(s: State, raws: seq<Option<int>>): (r: State)
    ensures r.stop == s.stop && r.handle == s.handle && |r.tasks| == |s.tasks|
  {
    Changes(Run(s), raws)
  }

  /** The state when read k begins, k rising edges after the call. */
  function StateAt(s0: State, env: Env, k: nat): (r: State)
    ensures r.stop == s0.stop && r.handle == s0.handle && |r.tasks| == |s0.tasks|
  {
    if k == 0 then s0
    else AwaitEdge(Read(StateAt(s0, env, k - 1), env.sample(k - 1)), env.during(k - 1))
  }

  /** The value read_current returns at read k. */
  function Seen(s0: State, env: Env, k: nat): (v: u32)
    ensures env.sample(k).Some? ==> v == Mask32(env.sample(k).value)
    ensures env.sample(k).None? ==> v == StateAt(s0, env, k).cache
  {
    Read(StateAt(s0, env, k), env.sample(k)).cache
  }

  /** The loop from cycle k on, with `budget` cycles in all. */
  function Search(s0: State, env: Env, expected: int, budget: nat, k: nat): (o: Outcome)
    requires k <= budget
    ensures o.Reached? ==> k <= o.edges < budget && Seen(s0, env, o.edges) == expected
    ensures o.Timeout? ==> o == Timeout(expected, Seen(s0, env, budget))
    decreases budget - k
  {
    if k == budget then Timeout(expected, Seen(s0, env, budget))
    else if Seen(s0, env, k) == expected then Reached(k)
    else Search(s0, env, expected, budget, k + 1)
  }

  /** The outcome of `wait_output(expected, timeout)` from state s0. */
  function Wait(s0: State, env: Env, expected: int, timeout: int): (o: Outcome)
    ensures o.Reached? ==> o.edges < Budget(timeout) && Seen(s0, env, o.edges) == expected
    ensures o.Timeout? ==> o.expected == expected && o.stuckAt == Seen(s0, env, Budget(timeout))
  {
    Search(s0, env, expected, Budget(timeout), 0)
  }

  /** The rising edges the call consumes. */
  function Consumed(o: Outcome, timeout: int): nat
  {
    match o
    case Reached(k) => k
    case Timeout(_, _) => Budget(timeout)
  }

  /** The state when the call returns or raises: its last read has been made. */
  function WaitFinal(s0: State, env: Env, expected: int, timeout: int): (r: State)
    ensures Wait(s0, env, expected, timeout).Reached? ==> r.cache == expected
    ensures Wait(s0, env, expected, timeout).Timeout? ==> r.cache == Wait(s0, env, expected, timeout).stuckAt
    ensures r.stop == s0.stop && r.handle == s0.handle && |r.tasks| == |s0.tasks|
  {
    var n := Consumed(Wait(s0, env, expected, timeout), timeout);
    Read(StateAt(s0, env, n), env.sample(n))
  }

  // ---------------------------------------------------------------------
  // The loop

  /** From cycle k, the loop returns after exactly m edges if and only if read
      m is the first read from k on that equals the expected value, within the
      budget. */
  lemma {:induction false} SearchReached(s0: State, env: Env, expected: int, budget: nat, k: nat, m: nat)
    requires k <= budget
    ensures Search(s0, env, expected, budget, k) == Reached(m) <==>
              k <= m < budget && Seen(s0, env, m) == expected &&
              forall j :: k <= j < m ==> Seen(s0, env, j) != expected
    decreases budget - k
  {
    if k < budget && Seen(s0, env, k) != expected {
      SearchReached(s0, env, expected, budget, k + 1, m);
    }
  }

  /** From cycle k, the loop runs out if and only if no read within the
      budget matches, and then it reports the read made after the last edge. */
  lemma {:induction false} SearchTimeout(s0: State, env: Env, expected: int, budget: nat, k: nat)
    requires k <= budget
    ensures Search(s0, env, expected, budget, k).Timeout? <==>
              forall j :: k <= j < budget ==> Seen(s0, env, j) != expected
    ensures Search(s0, env, expected, budget, k).Timeout? ==>
              Search(s0, env, expected, budget, k) == Timeout(expected, Seen(s0, env, budget))
    decreases budget - k
  {
    if k < budget && Seen(s0, env, k) != expected {
      SearchTimeout(s0, env, expected, budget, k + 1);
    }
  }

  /** wait_output returns after exactly k edges if and only if read k matches
      and no earlier read did, with k below the budget. */
  lemma WaitReachedIff(s0: State, env: Env, expected: int, timeout: int, k: nat)
    ensures Wait(s0, env, expected, timeout) == Reached(k) <==>
              k < Budget(timeout) && Seen(s0, env, k) == expected &&
              forall j :: 0 <= j < k ==> Seen(s0, env, j) != expected
  {
    SearchReached(s0, env, expected, Budget(timeout), 0, k);
  }

  /** wait_output raises if and only if no read within the budget matched; the
      error carries the expected value and the read made after the last edge,
      even when that read matches. */
  lemma WaitTimeoutIff(s0: State, env: Env, expected: int, timeout: int)
    ensures Wait(s0, env, expected, timeout).Timeout? <==>
              forall j :: 0 <= j < Budget(timeout) ==> Seen(s0, env, j) != expected
    ensures Wait(s0, env, expected, timeout).Timeout? ==>
              Wait(s0, env, expected, timeout) == Timeout(expected, Seen(s0, env, Budget(timeout)))
  {
    SearchTimeout(s0, env, expected, Budget(timeout), 0);
  }

  /** wait_output never consumes more edges than the budget. */
  lemma WaitBounded(s0: State, env: Env, expected: int, timeout: int)
    ensures Consumed(Wait(s0, env, expected, timeout), timeout) <= Budget(timeout)
  {
  }

  /** A value already there at the call returns with no edge consumed. */
  lemma ImmediateMatch(s0: State, env: Env, expected: int, timeout: int)
    requires timeout > 0 && Seen(s0, env, 0) == expected
    ensures Wait(s0, env, expected, timeout) == Reached(0)
  {
  }

  /** A budget of zero (or less) raises at once, after the one read, with no
      edge consumed, even when that read matches. */
  lemma ZeroBudget(s0: State, env: Env, expected: int, timeout: int)
    requires timeout <= 0
    ensures Wait(s0, env, expected, timeout) == Timeout(expected, Seen(s0, env, 0))
    ensures WaitFinal(s0, env, expected, timeout) == Read(s0, env.sample(0))
  {
  }

  /** If read k matches within the budget, the call returns after k edges at
      the latest. */
  lemma ReachedBy(s0: State, env: Env, expected: int, timeout: int, k: nat)
    requires k < Budget(timeout) && Seen(s0, env, k) == expected
    ensures Wait(s0, env, expected, timeout).Reached?
    ensures Wait(s0, env, expected, timeout).edges <= k
  {
    WaitTimeoutIff(s0, env, expected, timeout);
    var m := Wait(s0, env, expected, timeout).edges;
    WaitReachedIff(s0, env, expected, timeout, m);
  }

  /** The cache holds only 32-bit values, so a value outside [0, 2^32) is
      never reached and the call always raises. */
  lemma OutOfRangeNeverReached(s0: State, env: Env, expected: int, timeout: int)
    requires expected < 0 || expected >= WORD
    ensures Wait(s0, env, expected, timeout).Timeout?
  {
  }

  /** A resolved last read is what the timeout reports as "stuck at". */
  lemma StuckAtLastRead(s0: State, env: Env, expected: int, timeout: int, v: int)
    requires env.sample(Budget(timeout)) == Some(v)
    requires Wait(s0, env, expected, timeout).Timeout?
    ensures Wait(s0, env, expected, timeout).stuckAt == Mask32(v)
  {
  }

  // ---------------------------------------------------------------------
  // The monitor between two edges

  /** While the flag is clear, a coroutine suspended on the bus handles every
      change of a run of resolved changes: it stays suspended, and the cache
      ends as the masked value of the last change.  Applied to each prefix of
      the run, no change is missed. */
  lemma {:induction false} ChangesWhileRunning(s: State, i: nat, raws: seq<Option<int>>)
    requires !s.stop && i < |s.tasks| && s.tasks[i] == Awaiting
    requires raws != [] && forall j :: 0 <= j < |raws| ==> raws[j].Some?
    ensures Changes(s, raws).cache == Mask32(raws[|raws| - 1].value)
    ensures Changes(s, raws).tasks[i] == Awaiting
    decreases |raws|
  {
    ChangeWhileRunning(s, i, raws[0].value);
    if |raws| > 1 {
      ChangesWhileRunning(Change(s, raws[0]), i, raws[1..]);
    }
  }

  /** After `start` with the flag clear, the new monitor caches the last of
      the resolved changes the bus goes through while the caller waits. */
  lemma MonitorTracksBus(s: State, raws: seq<Option<int>>)
    requires Wf(s) && !s.stop
    requires raws != [] && forall j :: 0 <= j < |raws| ==> raws[j].Some?
    ensures AwaitEdge(Start(s), raws).cache == Mask32(raws[|raws| - 1].value)
    ensures AwaitEdge(Start(s), raws).tasks[|s.tasks|] == Awaiting
  {
    StartedMonitorAwaits(s);
    ChangesWhileRunning(Run(Start(s)), |s.tasks|, raws);
  }

  // ---------------------------------------------------------------------
  // Two runs of the handshake

  /** The bus holds 5 throughout: wait_output(2, 200) raises with expected 2
      and stuck at 5. */
  lemma StuckRegisterTimesOut(s0: State, env: Env)
    requires forall k :: env.sample(k) == Some(5)
    ensures Wait(s0, env, 2, 200) == Timeout(2, 5)
  {
  }

  /** The firmware moves the bus from 0 to 2 at edge 50: wait_output(2, 1000)
      returns after exactly 50 edges. */
  lemma MilestoneAtEdgeFifty(s0: State, env: Env)
    requires forall k :: env.sample(k) == Some(if k < 50 then 0 else 2)
    ensures Wait(s0, env, 2, 1000) == Reached(50)
  {
    WaitReachedIff(s0, env, 2, 1000, 50);
  }
}
