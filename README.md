# VirtualGPIOModel: the firmware-to-testbench milestone handshake

Firmware on the Caravel management SoC signals its progress by writing a
number to the logic-analyser probes (`la_data_in`). On the testbench side,
`VirtualGPIOModel` keeps a cached copy of that number, masked to 32 bits. A
background monitor coroutine refreshes the copy on every change of the bus.
`read_current` refreshes it directly. `wait_output(expected, timeout_cycles)`
samples it once per rising clock edge until it matches or the budget runs out.
`stop` ends the monitoring. Every test script's verdict rests on these calls.

The model has four modules:

- `Word32` (word32.dfy): the 32-bit mask. It is proved equal to a bit-by-bit
  definition of `& 0xFFFFFFFF` on the unsigned values the simulator hands out.
- `Monitor` (monitor.dfy): the object's three fields, plus the monitor
  coroutines its `start` calls have spawned, as one pure state. The
  transitions are `Start`, `Stop`, `Read` (a direct read), `Run` (the
  scheduler lets queued coroutines test their loop condition) and `Change`
  (one pass of the `_monitor` loop body in every coroutine suspended on a
  change of the bus). The lemmas cover one monitor step and the stop lifecycle.
- `Waiter` (waiter.dfy): `wait_output` as a function of an abstract trace.
  `Env.sample(k)` is the result of `int(la_data_in.value)` after k rising
  edges, with `None` for unresolved bits. `Env.during(k)` lists the bus
  changes the monitor handles while the caller waits for edge k + 1. The
  lemmas cover the first match, the timeout, the edge bound and the zero budget.
- `Vgpio` (vgpio.dfy): the class `VirtualGpioModel`, whose fields
  `currentValue`, `stopFlag` and `monitorTask` are updated in place by its
  methods. `WaitOutput` is the counted loop with its early return. Each method
  is proved to move `Abs()` exactly as the matching `Monitor`/`Waiter`
  transition does.

Three behaviours of the code worth knowing:

- `stop` before `start` is not a no-op. It sets the flag, so a coroutine spawned
  by a later `start` leaves its loop at its first test (`QuietStaysQuiet`).
- A second `start` is not refused. The handle is overwritten, and the earlier
  coroutine keeps running, unreachable by `stop`. After `stop` it still caches
  one more change (`DoubleStartOrphan`).
- `wait_output` always reads the bus directly. It falls back to the cached value
  only when that read fails, and then sees whatever the last successful write
  to the cache left there. In the model only the monitor coroutines run while
  `wait_output` waits for an edge, so that is the cache as the earlier reads and
  the monitor left it (`Seen`).

## Model

| member | source | states |
|---|---|---|
| Word32.Mask32 | multi_peripheral_system/verilog/dv/cocotb/VirtualGPIOModel.py:64-65 | the masked value is below 2^32, agrees with the raw value modulo 2^32, and is the raw value itself when that already fits |
| Word32.AndLowOnes | multi_peripheral_system/verilog/dv/cocotb/VirtualGPIOModel.py:65 | AND with n one-bits keeps exactly the remainder modulo 2^n |
| Word32.MaskIsAnd | multi_peripheral_system/verilog/dv/cocotb/VirtualGPIOModel.py:65 | for every unsigned bus value, the mask equals the bitwise `raw & 0xFFFFFFFF` |
| Monitor.Init | multi_peripheral_system/verilog/dv/cocotb/VirtualGPIOModel.py:26-30 | the initial state has no handle and no coroutine, so it is well formed and has at most one live monitor |
| Monitor.Start | multi_peripheral_system/verilog/dv/cocotb/VirtualGPIOModel.py:32-34 | start appends one queued coroutine, points the handle at it, keeps every earlier coroutine, and changes neither cache nor flag |
| Monitor.Kill | multi_peripheral_system/verilog/dv/cocotb/VirtualGPIOModel.py:106 | a killed task can no longer observe the bus; an already finished task is left as it was |
| Monitor.Wake | multi_peripheral_system/verilog/dv/cocotb/VirtualGPIOModel.py:38 | a queued coroutine testing the loop condition for the first time stays live exactly when the flag is clear; any other coroutine is untouched |
| Monitor.Stop | multi_peripheral_system/verilog/dv/cocotb/VirtualGPIOModel.py:102-106 | stop sets the flag, keeps the cache, ends the handle's task if there is one, and touches no other coroutine |
| Monitor.Run | multi_peripheral_system/verilog/dv/cocotb/VirtualGPIOModel.py:36-38 | every queued coroutine takes its first loop test: it suspends on the bus when the flag is clear and ends when it is set; no other coroutine, nor the cache, flag or handle, changes |
| Monitor.Observe | multi_peripheral_system/verilog/dv/cocotb/VirtualGPIOModel.py:43-54 | after a change, a suspended coroutine stays suspended exactly when its read succeeded and the flag is clear, and otherwise leaves the loop; coroutines not suspended are untouched |
| Monitor.Change | multi_peripheral_system/verilog/dv/cocotb/VirtualGPIOModel.py:38-54 | a change of the bus never alters the flag, the handle or the number of coroutines |
| Monitor.Warnings | multi_peripheral_system/verilog/dv/cocotb/VirtualGPIOModel.py:50-54 | a warning is logged exactly when a suspended coroutine's read fails while the flag is still clear, at most one per coroutine |
| Monitor.Read | multi_peripheral_system/verilog/dv/cocotb/VirtualGPIOModel.py:63-68 | a direct read changes only the cache |
| Monitor.ReadResolved | multi_peripheral_system/verilog/dv/cocotb/VirtualGPIOModel.py:63-68 | a successful read returns `raw & 0xFFFFFFFF` whatever the cache held, so the returned value is below 2^32 |
| Monitor.ReadUnresolved | multi_peripheral_system/verilog/dv/cocotb/VirtualGPIOModel.py:66-68 | a failed read does not raise: it changes nothing and returns the cached value |
| Monitor.ChangeWhileRunning | multi_peripheral_system/verilog/dv/cocotb/VirtualGPIOModel.py:38-48 | while the flag is clear, a suspended coroutine that reads successfully caches the masked value and suspends again for the next change |
| Monitor.ChangeReadError | multi_peripheral_system/verilog/dv/cocotb/VirtualGPIOModel.py:50-54 | a failed read ends the coroutine's loop (no retry) and leaves the cache unchanged |
| Monitor.EndedStaysEnded | multi_peripheral_system/verilog/dv/cocotb/VirtualGPIOModel.py:38-54 | a finished or killed coroutine stays so under every transition |
| Monitor.StartedMonitorAwaits | multi_peripheral_system/verilog/dv/cocotb/VirtualGPIOModel.py:32-43 | a coroutine started while the flag is clear passes its first loop test and suspends on the bus, and the handle refers to it |
| Monitor.StopBeforeStart | multi_peripheral_system/verilog/dv/cocotb/VirtualGPIOModel.py:102-106 | stop before start raises nothing and only sets the flag |
| Monitor.StopIdempotent | multi_peripheral_system/verilog/dv/cocotb/VirtualGPIOModel.py:102-106 | a second stop changes nothing |
| Monitor.StopSilencesSingleMonitor | multi_peripheral_system/verilog/dv/cocotb/VirtualGPIOModel.py:102-106 | with a single live monitor, stop leaves no coroutine that can observe the bus |
| Monitor.ChangeAfterStop | multi_peripheral_system/verilog/dv/cocotb/VirtualGPIOModel.py:38-48 | once the flag is set, every suspended coroutine leaves its loop at the next change |
| Monitor.QuietStaysQuiet | multi_peripheral_system/verilog/dv/cocotb/VirtualGPIOModel.py:32-38 | once stopped and silent, no transition (a later start included) resumes observation, and changes of the bus no longer reach the cache |
| Monitor.OneLivePreserved | multi_peripheral_system/verilog/dv/cocotb/VirtualGPIOModel.py:32-38 | every transition (run, change, read, stop) keeps at most one live monitor, and so does a start when none is live; only a start while one is already live breaks it |
| Monitor.DoubleStartOrphan | multi_peripheral_system/verilog/dv/cocotb/VirtualGPIOModel.py:32-34 | after two starts and a stop, the orphaned first coroutine still caches the next change |
| Waiter.Changes | multi_peripheral_system/verilog/dv/cocotb/VirtualGPIOModel.py:43-48 | a run of bus changes never alters the flag, the handle or the number of coroutines |
| Waiter.AwaitEdge | multi_peripheral_system/verilog/dv/cocotb/VirtualGPIOModel.py:89 | waiting for an edge never alters the flag, the handle or the number of coroutines |
| Waiter.StateAt | multi_peripheral_system/verilog/dv/cocotb/VirtualGPIOModel.py:83-89 | through any number of reads and edges the flag, the handle and the number of coroutines stay fixed |
| Waiter.Seen | multi_peripheral_system/verilog/dv/cocotb/VirtualGPIOModel.py:84 | read k returns the masked bus value when it resolves, otherwise the cache as earlier reads and the monitor left it |
| Waiter.Search | multi_peripheral_system/verilog/dv/cocotb/VirtualGPIOModel.py:83-100 | from cycle k, a return happens at an edge count in [k, budget) whose read matches; a timeout carries the expected value and the read made after the last edge |
| Waiter.Wait | multi_peripheral_system/verilog/dv/cocotb/VirtualGPIOModel.py:70-100 | wait_output returns only after fewer edges than the budget and at a matching read; on timeout it reports the expected value and the read made after the loop |
| Waiter.WaitFinal | multi_peripheral_system/verilog/dv/cocotb/VirtualGPIOModel.py:84-92 | when the call ends, the cache holds the expected value after a return and the reported "stuck at" value after a timeout; flag, handle and the number of coroutines are as before |
| Waiter.SearchReached | multi_peripheral_system/verilog/dv/cocotb/VirtualGPIOModel.py:83-89 | from cycle k, the loop returns after m edges exactly when read m is the first matching read from k on, within the budget |
| Waiter.SearchTimeout | multi_peripheral_system/verilog/dv/cocotb/VirtualGPIOModel.py:83-100 | from cycle k, the loop runs out exactly when no read within the budget matches, and then reports the read after the last edge |
| Waiter.WaitReachedIff | multi_peripheral_system/verilog/dv/cocotb/VirtualGPIOModel.py:83-89 | wait_output returns after exactly k edges if and only if k is below the budget, read k matches and no earlier read did |
| Waiter.WaitTimeoutIff | multi_peripheral_system/verilog/dv/cocotb/VirtualGPIOModel.py:91-100 | wait_output raises if and only if no read within the budget matched; the error carries the expected value and the one extra read after the last edge, even if that read matches |
| Waiter.WaitBounded | multi_peripheral_system/verilog/dv/cocotb/VirtualGPIOModel.py:83-100 | wait_output never consumes more rising edges than the budget |
| Waiter.ImmediateMatch | multi_peripheral_system/verilog/dv/cocotb/VirtualGPIOModel.py:83-87 | a value already matching at the call returns with zero edges consumed |
| Waiter.ZeroBudget | multi_peripheral_system/verilog/dv/cocotb/VirtualGPIOModel.py:83-100 | with a budget of zero or less, the call raises at once after one read and no edge, even when that read matches |
| Waiter.ReachedBy | multi_peripheral_system/verilog/dv/cocotb/VirtualGPIOModel.py:83-89 | if read k matches within the budget, the call returns after at most k edges |
| Waiter.OutOfRangeNeverReached | multi_peripheral_system/verilog/dv/cocotb/VirtualGPIOModel.py:85 | an expected value outside [0, 2^32) is never matched, so the call always raises |
| Waiter.StuckAtLastRead | multi_peripheral_system/verilog/dv/cocotb/VirtualGPIOModel.py:92-100 | when the last read resolves, the "stuck at" value is that bus value masked to 32 bits |
| Waiter.ChangesWhileRunning | multi_peripheral_system/verilog/dv/cocotb/VirtualGPIOModel.py:38-48 | while the flag is clear, a suspended coroutine handles every change of a run of resolved changes, stays suspended, and the cache ends as the masked last change |
| Waiter.MonitorTracksBus | multi_peripheral_system/verilog/dv/cocotb/VirtualGPIOModel.py:32-48 | after start with the flag clear, the new monitor caches the last of the resolved changes that happen while the caller waits for an edge |
| Waiter.StuckRegisterTimesOut | multi_peripheral_system/verilog/dv/cocotb/VirtualGPIOModel.py:91-100 | a bus fixed at 5 makes wait_output(2, 200) raise with expected 2 and stuck at 5 |
| Waiter.MilestoneAtEdgeFifty | multi_peripheral_system/verilog/dv/cocotb/VirtualGPIOModel.py:83-89 | a bus that moves from 0 to 2 at edge 50 makes wait_output(2, 1000) return after exactly 50 edges |
| Vgpio.VirtualGpioModel.constructor | multi_peripheral_system/verilog/dv/cocotb/VirtualGPIOModel.py:19-30 | a new object has cache 0, no monitor task and the flag clear |
| Vgpio.VirtualGpioModel.Start | multi_peripheral_system/verilog/dv/cocotb/VirtualGPIOModel.py:32-34 | the fields change as `Monitor.Start` says; the handle refers to the new queued coroutine |
| Vgpio.VirtualGpioModel.Resume | multi_peripheral_system/verilog/dv/cocotb/VirtualGPIOModel.py:36-38 | the fields change as `Monitor.Run` says |
| Vgpio.VirtualGpioModel.OnChange | multi_peripheral_system/verilog/dv/cocotb/VirtualGPIOModel.py:36-54 | the fields change as `Monitor.Change` says; it reports a warning exactly when a read failed while the flag was clear |
| Vgpio.VirtualGpioModel.ReadCurrent | multi_peripheral_system/verilog/dv/cocotb/VirtualGPIOModel.py:56-68 | it returns the new cache: the masked bus value on success, the previous cache on failure |
| Vgpio.VirtualGpioModel.AwaitEdge | multi_peripheral_system/verilog/dv/cocotb/VirtualGPIOModel.py:89 | the fields change as `Waiter.AwaitEdge` says: queued monitors start, then every change of the interval is handled in order |
| Vgpio.VirtualGpioModel.WaitOutput | multi_peripheral_system/verilog/dv/cocotb/VirtualGPIOModel.py:70-100 | its outcome and final fields are those of `Waiter.Wait`, so the first-match, timeout and bound lemmas apply to it |
| Vgpio.VirtualGpioModel.Stop | multi_peripheral_system/verilog/dv/cocotb/VirtualGPIOModel.py:102-106 | the fields change as `Monitor.Stop` says; the flag is set and the cache is kept |

## Left out

- cocotb's scheduler, `cocotb.start_soon`, `Edge`, `RisingEdge` and `kill()` are not modelled as such. They become explicit events: `Resume`/`Run` for queued coroutines, `OnChange`/`Change` for a bus change, and the trace `Env` for the edges inside `wait_output`. When changes and edges happen is an input of the model, not something it computes.
- The model assumes that a coroutine queued by `start` runs up to its first suspension before the simulator delivers the next bus change. In cocotb, simulated time cannot advance until the caller suspends, and queued coroutines run at that point.
- The simulator handles `caravelEnv`, `dut` and `caravelEnv.clk` are replaced by the read results passed in (`raw`, `Env`). Any exception from `int(la_data_in.value)` is modelled as `None`.
- Waiter.StateAt: while `wait_output` waits for an edge, only the monitor coroutines run. Another coroutine calling `read_current`, `start` or `stop` during the wait is not modelled, and no test script does so. This is why the flag and the handle stay fixed for the whole call, and why a failed read returns the cache as earlier reads and the monitor left it.
- Monitor.Wake: a failure of `await Edge(self.dut.uut.mprj.la_data_in)` itself (the signal path not resolving) is not modelled. In the code it is caught by the same `try`, warns when the flag is clear, and ends the coroutine at its first pass. The model always suspends a coroutine whose first loop test passes.
- Logging is left out: the debug and error lines of `wait_output` and the warning text. Only the decision to warn is kept, as the count that `OnChange` returns.
- The timeout is returned as `Timeout(expected, stuckAt)` instead of raising `AssertionError`; its message formatting is left out.
- `expected_value` and `timeout_cycles` are modelled as integers. Other Python types (floats, objects with their own `==`) are not modelled.
- The unused `threading` import has nothing to model.
- The test scripts (`test_*.py`, `cocotb_tests.py`) and the firmware `.c` files are not part of this model. They call the handshake or drive hardware, and contain no logic of their own here.
