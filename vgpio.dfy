/** The VirtualGPIOModel object itself, with the fields its methods update in
    place.  `Abs` reads those fields as a Monitor.State, and every method is
    proved to move that state exactly as the transition of the same name in
    Monitor (and, for WaitOutput, as Waiter.Wait) does. */
module Vgpio {
  import opened Wrappers
  import opened Word32
  import opened Monitor
  import opened Waiter

  class VirtualGpioModel {
    /** `current_value`: the cached copy of the low 32 bits of la_data_in. */
    var currentValue: u32
    /** `_stop`: set by stop, tested at the head of every monitor loop pass. */
    var stopFlag: bool
    /** `monitor_task`: the coroutine spawned by the latest start, if any. */
    var monitorTask: Option<nat>
    /** The monitor coroutines the scheduler holds for this object, oldest first. */
    var tasks: seq<Phase>

    function Abs(): State
      reads this
    {
      State(currentValue, stopFlag, monitorTask, tasks)
    }

    ghost predicate Valid()
      reads this
    {
      Wf(Abs())
    }

    /** `__init__`: cache 0, no monitor task, stop flag clear. */
    constructor ()
      ensures Valid() && Abs() == Init()
      ensures currentValue == 0 && monitorTask == None && !stopFlag
    {
      currentValue := 0;
      monitorTask := None;
      stopFlag := false;
      tasks := [];
    }

    /** `start`: queue a new monitor coroutine and keep its handle. */
    method Start()
      requires Valid()
      modifies this
      ensures Valid() && Abs() == Monitor.Start(old(Abs()))
      ensures monitorTask == Some(|old(tasks)|) && tasks[|old(tasks)|] == Scheduled
    {
      monitorTask := Some(|tasks|);
      tasks := tasks + [Scheduled];
    }

    /** The caller suspends: every queued monitor tests its loop condition. */
    method Resume()
      requires Valid()
      modifies this
      ensures Valid() && Abs() == Run(old(Abs()))
    {
      var queued, stop := tasks, stopFlag;
      tasks := seq(|queued|, i requires 0 <= i < |queued| => Wake(queued[i], stop));
    }

    /** la_data_in changes and reads as `raw`: one pass of the `_monitor`
        loop body in each coroutine suspended on the change.  Returns how
        many of them log "VirtualGPIO monitor error". */
    method OnChange(raw: Option<int>) returns (warnings: nat)
      requires Valid()
      modifies this
      ensures Valid() && Abs() == Change(old(Abs()), raw)
      ensures warnings == Warnings(old(Abs()), raw)
      ensures warnings > 0 <==> raw.None? && !stopFlag && Awaiting in old(tasks)
    {
      warnings := if raw.None? && !stopFlag then multiset(tasks)[Awaiting] else 0;
      if raw.Some? && Awaiting in tasks {
        currentValue := Mask32(raw.value);
      }
      var suspended, stop := tasks, stopFlag;
      tasks := seq(|suspended|, i requires 0 <= i < |suspended| => Observe(suspended[i], raw, stop));
    }

    /** `read_current`: `raw` is what `int(la_data_in.value)` gives now. */
    method ReadCurrent(raw: Option<int>) returns (value: u32)
      requires Valid()
      modifies this
      ensures Valid() && Abs() == Read(old(Abs()), raw)
      ensures value == currentValue
      ensures raw.Some? ==> value == Mask32(raw.value)
      ensures raw.None? ==> value == old(currentValue)
    {
      if raw.Some? {
        currentValue := Mask32(raw.value);
      }
      value := currentValue;
    }

    /** `await RisingEdge(clk)` inside wait_output: other coroutines run until
        the edge, the monitors handling the changes `raws` in order. */
    method AwaitEdge(raws: seq<Option<int>>)
      requires Valid()
      modifies this
      ensures Valid() && Abs() == Waiter.AwaitEdge(old(Abs()), raws)
    {
      Resume();
      var i := 0;
      while i < |raws|
        invariant 0 <= i <= |raws|
        invariant Valid()
        invariant Changes(Abs(), raws[i..]) == Waiter.AwaitEdge(old(Abs()), raws)
      {
        assert raws[i..][1..] == raws[i + 1..];
        var _ := OnChange(raws[i]);
        i := i + 1;
      }
    }

    /** `wait_output(expected_value, timeout_cycles=100000)`: returns Reached(k)
        after k rising edges, or Timeout(expected, stuck-at) where `wait_output`
        raises AssertionError. */
    method WaitOutput(expected: int, env: Env, timeout: int := DEFAULT_TIMEOUT_CYCLES) returns (outcome: Outcome)
      requires Valid()
      modifies this
      ensures Valid()
      ensures outcome == Wait(old(Abs()), env, expected, timeout)
      ensures Abs() == WaitFinal(old(Abs()), env, expected, timeout)
    {
      ghost var s0 := Abs();
      var budget := Budget(timeout);
      var cycle := 0;
      while cycle < budget
        invariant 0 <= cycle <= budget
        invariant Valid() && Abs() == StateAt(s0, env, cycle)
        invariant forall j :: 0 <= j < cycle ==> Seen(s0, env, j) != expected
      {
        var current := ReadCurrent(env.sample(cycle));
        if current == expected {
          WaitReachedIff(s0, env, expected, timeout, cycle);
          return Reached(cycle);
        }
        AwaitEdge(env.during(cycle));
        cycle := cycle + 1;
      }
      WaitTimeoutIff(s0, env, expected, timeout);
      var current := ReadCurrent(env.sample(budget));
      outcome := Timeout(expected, current);
    }

    /** `stop`: set the flag, and kill the monitor task if there is one. */
    method Stop()
      requires Valid()
      modifies this
      ensures Valid() && Abs() == Monitor.Stop(old(Abs()))
      ensures stopFlag && currentValue == old(currentValue)
    {
      stopFlag := true;
      if monitorTask.Some? {
        var i := monitorTask.value;
        tasks := tasks[i := Kill(tasks[i])];
      }
    }
  }
}
