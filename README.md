# Counter store with periodic flush, in Dafny

A model of the Go package `counter` (counter.go): an in-process table of
named signed 64-bit accumulators that callers increment (`Incr`), read
(`Get`) and clear (`Reset`), and a background flusher, launched at most once
by `Flush2Broker`, that calls a callback while holding the store's write
lock and clears the table when the callback succeeds. The Go callback takes
no argument. The model calls the table as it stands while the callback
holds the lock "the snapshot": this is the data a callback can flush.

- `int64.dfy`, module `Int64`: Go's `int64` and its wrapping `+`.
- `counter.dfy`, module `Counter`: the `Counter` struct as a class. The Go
  map is `store: Option<map<string, int64>>`, where `None` is a nil map:
  it reads as empty, and writing to it is a panic, so `Incr` requires an
  initialised store. The `sync.Once` guard is the flag `started`. Each
  method is treated as one atomic step. Only `Get`, `Incr` and `Reset`
  are one locked section each in the Go code. `Init` takes no lock.
  `Flush2Broker` is guarded by `once`, not by the lock. `FlushCycle` is
  one iteration of the flusher with its two locked sections joined into
  one. It takes the callback's outcome as a parameter and returns the
  snapshot.
- `history.dfy`, module `History`: histories, i.e. the order in which
  the critical sections of callers and of the flusher take the lock,
  replayed from an initialised store. It states what holds across many
  calls: the table invariant, that a flush loses no increment, and that
  the flusher starts at most once. `Replay` drives a `Counter` object
  through such a history. It ends with the table, the guard, the
  snapshots of successful callbacks and the number of launches that the
  history computes, so these statements hold of the class.
- `counter_test.dfy`, module `CounterTest`: the scenario of
  counter_test.go, with its ten incrementing goroutines run one after the
  other.

Where the code differs from what a reader of the package would expect,
the model follows the code:
- `Get` before `Init` is defined (it returns 0 and `NotFound`), and `Incr`
  before `Init` is a panic.
- `Init` may be called again, and each call empties the table.
- The flush cycle releases the lock between the callback and the reset.
  The comments at counter.go:77 and :83 describe a flush that runs the
  callback under the lock and then resets the counter. An
  increment made between those two steps is lost. See "## Findings".

## Model

| member | source | states |
|---|---|---|
| `Int64.Wrap` | counter.go:65 | the int64 result of an int computation: unchanged when it fits in int64 |
| `Int64.Add` | counter.go:65 | Go int64 `+`: the exact sum when it fits, otherwise the sum minus or plus 2^64 |
| `Int64.WrapPlus` | counter.go:65 | wrapping an intermediate sum changes nothing, so a run of wrapping additions is the wrap of the exact total |
| `Counter.Bump` | counter.go:59-65 | after an increment the key is present, even for delta 0, and holds old value (0 if absent) plus delta, wrapped; no other key appears, disappears or changes |
| `Counter.Counter.constructor` | counter.go:26-28 | NewCounter gives a store with a nil map (uninitialised, reads as empty) and the flusher not started |
| `Counter.Counter.Init` | counter.go:31-35 | installs an empty map, returns no error, does not touch the start guard |
| `Counter.Counter.Get` | counter.go:38-51 | no error exactly when the key is present, returning its value; otherwise 0 with NotFound; a nil map behaves as empty |
| `Counter.Counter.Incr` | counter.go:54-66 | requires an initialised map; the new table is the old one bumped at the key, and every other key keeps its presence and value |
| `Counter.Counter.Reset` | counter.go:69-75 | the table becomes empty (every key absent), the start guard is unchanged |
| `Counter.Counter.FlushCycle` | counter.go:84-92 | the snapshot is the table as it was while the callback held the lock; on success the table ends empty, on failure the store is exactly as before |
| `Counter.Counter.Flush2Broker` | counter.go:96-97 | launches the flusher exactly when it had not been started; afterwards it is started; the table is untouched |
| `History.Apply` | counter.go:54-97 | one atomic step: only a successful callback adds a snapshot, and it is exactly the current table; a failed cycle changes nothing; a Reset or successful atomic cycle empties the table; only Flush2Broker touches the guard, and it launches only when nothing was launched before |
| `History.Replay` | counter.go:54-97 | calling the Counter's methods step by step along a history without split cycles leaves the object's table and guard equal to what `Run` computes for that history, and returns `Run`'s snapshots of successful callbacks and its number of launches |
| `History.StoreIsSumSinceClear` | counter.go:54-75 | after any history, a key is present iff it was incremented since the last Reset or successful flush, and then holds the wrapped sum of those deltas |
| `History.ResetIdempotent` | counter.go:69-75 | a Reset leaves an empty table, and a second Reset straight after it changes nothing |
| `History.FlushLosesNothing` | counter.go:84-92 | over histories of increments, atomic flush cycles and starts only (no explicit Reset, no split cycle), for every key, the snapshots of successful callbacks plus the table equal the sum of all increments (mod 2^64); a failed cycle carries counts over |
| `History.LaunchedAtMostOnce` | counter.go:96-97 | in any history the flusher is started iff Flush2Broker was called, and launched exactly once then, never otherwise |
| `History.CycleAsWrittenAloneIsFlush` | counter.go:84-91 | when no other call takes the lock between them, the callback and the Reset of the cycle as written have the effect of the atomic cycle |
| `History.LostIncrementAsWritten` | counter.go:84-91 | a history in which an increment made between the callback and the Reset is neither in a successful callback's snapshot nor kept |
| `CounterTest.TestCounter` | counter_test.go:11-66 | ten increments of "get.call" by 1 on an initialised store read back 10 with no error; a successful flush cycle's snapshot is exactly that table, and Get then reports NotFound |

## Left out

- Counter.Counter.FlushCycle: runs the callback and the following Reset as one atomic step. In counter.go the lock is released at :86 and taken again by `Reset` at :71, so another call can run between them. The class does not capture that gap. It is modelled only in `History`, by a `Callback` step followed by a separate `ResetAll`.
- `Init` takes no lock in counter.go:31-35. Run beside `Incr` or the flusher it is a data race. The model treats it as one atomic step.
- The `sync.RWMutex` is not modelled. Each method, and each half of a flush cycle, is one atomic step. Concurrency is represented only by the order of these steps in `History`.
- The goroutine, the endless `for` loop and the `time.Sleep(interval)` of the flusher are not modelled. So the `interval` argument of `Flush2Broker` is not modelled either. `FlushCycle` models one iteration, and `History` models any finite sequence of iterations mixed with callers' steps.
- The callback's body is foreign code, and the Go callback takes no argument. It is reduced to a boolean outcome. The snapshot is the table while it holds the lock. A callback that itself calls the store is not modelled. One calling `Get` would deadlock on the read lock (counter.go:41).
- Which callback a later `Flush2Broker` call passes is not modelled. The guard ignores it, and so does the model.
- The `log.Printf` of a failed flush is not modelled. It is output only.
- `Counter.Counter.Init`: returns `Option<Error>` for Go's `error`. It is always `None`, as in the code.
- The test's `sync.WaitGroup`, `atomic.AddInt64`, six-second sleep and "at least five flushes" timing assertion are not modelled. `CounterTest.TestCounter` runs the ten increments one after another and one successful flush cycle.

## Findings

| source | as written | input that shows it | evidently intended | confidence | as-written member | corrected member |
|---|---|---|---|---|---|---|
| counter.go:84-91 | the flusher unlocks after `cb()` and only then calls `Reset()`, which locks again | flusher started; callback succeeds on an empty table; a caller's `Incr("get.call", 1)` takes the lock before the flusher's `Reset`; the `Reset` then clears it, so the increment was in no successful callback's snapshot and is no longer held | callback and reset in one critical section, so every increment is either in the snapshot of a successful callback or still in the table | medium, not executed | `History.LostIncrementAsWritten` | `History.FlushLosesNothing` |
