/** The state of one VirtualGPIOModel object and of the monitor coroutines its
    `start` has spawned, as pure values and transitions.

    The object's fields are the cached copy `current_value`, the flag `_stop`
    and the handle `monitor_task`.  Every coroutine `start` spawns runs the loop
    of `_monitor`:

        while the stop flag is false:
          suspend until la_data_in changes
          read it; on success cache it masked to 32 bits,
                   on failure warn (only if the flag is false) and leave the loop

    cocotb runs coroutines cooperatively, so each transition below is one
    uninterrupted stretch of one of them:
      `Run`    - the scheduler starts the coroutines `start` queued; each tests
                 the loop condition once and either suspends on a change or ends;
      `Change` - la_data_in changes; every coroutine suspended on it reads the
                 bus (all of them read the same `raw`) and tests the condition;
      `Read`   - `read_current`, from whichever caller;
      `Start`, `Stop` - the two lifecycle calls. */
module Monitor {
  import opened Wrappers
  import opened Word32

  /** Where one monitor coroutine is. */
  datatype Phase =
    | Scheduled  // queued by start(), has not yet tested its loop condition
    | Awaiting   // suspended inside the loop, on a change of la_data_in
    | Finished   // left the loop: the stop flag was set, or a read failed
    | Killed     // cancelled by stop() through the task handle

  /** A coroutine that can still observe the bus. */
  predicate Live(p: Phase)
  {
    p == Scheduled || p == Awaiting
  }

  /** `cache` is `current_value`, `stop` is `_stop`, `handle` is
      `monitor_task` (the index of the task it refers to), and `tasks` lists
      every coroutine `start` has spawned, oldest first. */
  datatype State = State(cache: u32, stop: bool, handle: Option<nat>, tasks: seq<Phase>)

  /** `monitor_task` is unset before the first start() and afterwards refers
      to the coroutine spawned last. */
  predicate Wf(s: State)
  {
    s.handle == if s.tasks == [] then None else Some(|s.tasks| - 1)
  }

  /** No coroutine other than the one the handle refers to can observe the bus. */
  predicate AtMostOneLive(s: State)
  {
    forall i :: 0 <= i < |s.tasks| && Live(s.tasks[i]) ==> s.handle == Some(i)
  }

  /** The stop flag is set and no coroutine is suspended in the loop: no
      change of the bus reaches the cache any more. */
  predicate Quiet(s: State)
  {
    s.stop && Awaiting !in s.tasks
  }

  /** `__init__`: cache 0, no task, flag clear. */
  function Init(): (s: State)
    ensures Wf(s) && AtMostOneLive(s)
  {
    State(0, false, None, [])
  }

  /** `start`: spawn a monitor coroutine and overwrite the handle with it.  A
      coroutine spawned earlier stays where it is: nothing refers to it now. */
  function Start(s: State): (r: State)
    requires Wf(s)
    ensures Wf(r) && |r.tasks| == |s.tasks| + 1
    ensures r.tasks[..|s.tasks|] == s.tasks && r.tasks[|s.tasks|] == Scheduled
    ensures r.cache == s.cache && r.stop == s.stop
  {
    s.(handle := Some(|s.tasks|), tasks := s.tasks + [Scheduled])
  }

  /** `kill()` cancels a task that has not finished and leaves a finished one alone. */
  function Kill(p: Phase): (q: Phase)
    ensures !Live(q)
    ensures !Live(p) ==> q == p
  {
    if Live(p) then Killed else p
  }

  /** `stop`: set the flag; kill the task the handle refers to, if there is one. */
  function Stop(s: State): (r: State)
    requires Wf(s)
    ensures Wf(r) && r.stop && r.cache == s.cache && |r.tasks| == |s.tasks|
    ensures s.handle.Some? ==> !Live(r.tasks[s.handle.value])
    ensures forall i :: 0 <= i < |s.tasks| && s.handle != Some(i) ==> r.tasks[i] == s.tasks[i]
  {
    match s.handle
    case None => s.(stop := true)
    case Some(i) => s.(stop := true, tasks := s.tasks[i := Kill(s.tasks[i])])
  }

  /** A queued coroutine's first test of `while not self._stop`. */
  function Wake(p: Phase, stop: bool): (q: Phase)
    ensures q != Scheduled
    ensures Live(q) <==> p == Awaiting || (p == Scheduled && !stop)
    ensures p != Scheduled ==> q == p
  {
    if p == Scheduled then (if stop then Finished else Awaiting) else p
  }

  /** The scheduler runs every queued coroutine up to its first suspension. */
  function Run(s: State): (r: State)
    ensures r.cache == s.cache && r.stop == s.stop && r.handle == s.handle
    ensures |r.tasks| == |s.tasks| && Scheduled !in r.tasks
    ensures forall i :: 0 <= i < |s.tasks| && s.tasks[i] == Scheduled ==>
              r.tasks[i] == (if s.stop then Finished else Awaiting)
    ensures forall i :: 0 <= i < |s.tasks| && s.tasks[i] != Scheduled ==> r.tasks[i] == s.tasks[i]
  {
    s.(tasks := seq(|s.tasks|, i requires 0 <= i < |s.tasks| => Wake(s.tasks[i], s.stop)))
  }

  /** One pass of the loop body after a change, for a coroutine suspended on
      it: a failed read breaks out of the loop; a successful one is followed by
      the loop test. */
  function Observe(p: Phase, raw: Option<int>, stop: bool): (q: Phase)
    ensures q == Awaiting <==> p == Awaiting && raw.Some? && !stop
    ensures p == Awaiting && q != Awaiting ==> q == Finished
    ensures p != Awaiting ==> q == p
  {
    if p != Awaiting then p
    else if raw.None? || stop then Finished
    else Awaiting
  }

  /** la_data_in changed and `int(la_data_in.value)` gives `raw` (None: the
      bus holds unresolved bits).  The cache takes the masked value when some
      coroutine was suspended on the change and the read succeeded. */
  function Change(s: State, raw: Option<int>): (r: State)
    ensures r.stop == s.stop && r.handle == s.handle && |r.tasks| == |s.tasks|
  {
    s.(cache := if raw.Some? && Awaiting in s.tasks then Mask32(raw.value) else s.cache,
       tasks := seq(|s.tasks|, i requires 0 <= i < |s.tasks| => Observe(s.tasks[i], raw, s.stop)))
  }

  /** The number of "VirtualGPIO monitor error" warnings that change logs:
      one per coroutine whose read failed while the flag was still clear. */
  function Warnings(s: State, raw: Option<int>): (w: nat)
    ensures w > 0 <==> raw.None? && !s.stop && Awaiting in s.tasks
    ensures w <= |s.tasks|
  {
    if raw.None? && !s.stop then multiset(s.tasks)[Awaiting] else 0
  }

  /** `read_current`: refresh the cache from the bus, or keep it when the bus
      does not resolve; the value returned is the new cache. */
  function Read(s: State, raw: Option<int>): (r: State)
    ensures r.stop == s.stop && r.handle == s.handle && r.tasks == s.tasks
  {
    match raw
    case Some(v) => s.(cache := Mask32(v))
    case None => s
  }

  // ---------------------------------------------------------------------
  // Direct read

  /** A successful direct read returns the low 32 bits of the bus, whatever
      the cache held, so the value returned is below 2^32. */
  lemma ReadResolved(s: State, v: int)
    ensures Read(s, Some(v)).cache == Mask32(v) < WORD
    ensures v >= 0 ==> Read(s, Some(v)).cache == AndBits(v, MASK)
  {
    if v >= 0 {
      MaskIsAnd(v);
    }
  }

  /** A failed direct read does not raise: it changes nothing and returns the
      cached value. */
  lemma ReadUnresolved(s: State)
    ensures Read(s, None) == s
  {
  }

  // ---------------------------------------------------------------------
  // One monitor step

  /** While the flag is clear, a coroutine suspended on a change that reads
      the bus successfully caches the masked value and suspends again, so the
      next change is observed too. */
  lemma ChangeWhileRunning(s: State, i: nat, v: int)
    requires !s.stop && i < |s.tasks| && s.tasks[i] == Awaiting
    ensures Change(s, Some(v)).cache == Mask32(v)
    ensures Change(s, Some(v)).tasks[i] == Awaiting
  {
  }

  /** A failed read ends the coroutine's loop with no retry and leaves the
      cache as it was. */
  lemma ChangeReadError(s: State, i: nat)
    requires i < |s.tasks| && s.tasks[i] == Awaiting
    ensures Change(s, None).tasks[i] == Finished
    ensures Change(s, None).cache == s.cache
  {
  }

  /** A coroutine that has left its loop or been killed stays so under every
      transition: observation never restarts in it. */
  lemma EndedStaysEnded(s: State, i: nat, raw: Option<int>)
    requires Wf(s) && i < |s.tasks| && !Live(s.tasks[i])
    ensures Run(s).tasks[i] == s.tasks[i]
    ensures Change(s, raw).tasks[i] == s.tasks[i]
    ensures Read(s, raw).tasks[i] == s.tasks[i]
    ensures Stop(s).tasks[i] == s.tasks[i]
    ensures Start(s).tasks[i] == s.tasks[i]
  {
  }

  // ---------------------------------------------------------------------
  // Lifecycle

  /** `stop` before any `start`: nothing to kill, only the flag is set. */
  lemma StopBeforeStart()
    ensures Stop(Init()) == Init().(stop := true)
  {
  }

  /** A second `stop` changes nothing. */
  lemma StopIdempotent(s: State)
    requires Wf(s)
    ensures Stop(Stop(s)) == Stop(s)
  {
  }

  /** With a single monitor (start called at most once since the last task
      ended), stop leaves nothing that can observe the bus. */
  lemma StopSilencesSingleMonitor(s: State)
    requires Wf(s) && AtMostOneLive(s)
    ensures Quiet(Stop(s)) && AtMostOneLive(Stop(s))
  {
  }

  /** Once the flag is set, every coroutine suspended on the bus leaves the
      loop at the next change, whatever the read gives. */
  lemma ChangeAfterStop(s: State, raw: Option<int>)
    requires s.stop
    ensures Quiet(Change(s, raw))
  {
  }

  /** A coroutine started while the flag is clear passes its first loop
      test and suspends on the bus, ready for the next change. */
  lemma StartedMonitorAwaits(s: State)
    requires Wf(s) && !s.stop
    ensures Run(Start(s)).tasks[|s.tasks|] == Awaiting
    ensures Run(Start(s)).handle == Some(|s.tasks|)
  {
  }

  /** A quiet object stays quiet under every transition, `start` included: a
      coroutine spawned after stop sees the flag at its first test.  Only
      direct reads still refresh the cache. */
  lemma QuietStaysQuiet(s: State, raw: Option<int>)
    requires Wf(s) && Quiet(s)
    ensures Change(s, raw).cache == s.cache
    ensures Quiet(Change(s, raw)) && Quiet(Run(s)) && Quiet(Read(s, raw))
    ensures Quiet(Start(s)) && Quiet(Stop(s))
  {
  }

  /** The single-monitor discipline is kept by every transition except a
      second `start` while a coroutine is live. */
  lemma OneLivePreserved(s: State, raw: Option<int>)
    requires Wf(s) && AtMostOneLive(s)
    ensures AtMostOneLive(Run(s)) && AtMostOneLive(Change(s, raw)) && AtMostOneLive(Read(s, raw))
    ensures AtMostOneLive(Stop(s))
    ensures (forall i :: 0 <= i < |s.tasks| ==> !Live(s.tasks[i])) ==> AtMostOneLive(Start(s))
  {
  }

  /** Calling `start` twice leaks the first coroutine: `stop` kills only the
      second, and the first still caches one more change after the flag is set. */
  lemma DoubleStartOrphan()
    ensures Change(Stop(Run(Start(Start(Init())))), Some(7)).cache == 7
    ensures !Quiet(Stop(Run(Start(Start(Init())))))
  {
  }
}
