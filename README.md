# TrafficTester scheduling core in Dafny

TrafficTester is a synthetic-traffic generator written in Go. It downloads from configured URLs, two at a time. Each transfer gets a randomly chosen bandwidth and runs through a token-bucket rate limiter. A semaphore caps how many transfers run at once. The bytes downloaded go into one process-wide counter. Every hour, on the hour, the counter is flushed and a line is appended to a log file, which is rotated once it holds more than 1000 lines. A supervisor restarts the scheduler whenever it ends, after a 30-second pause if it panicked.

This project models the sequential rules of that program (all in `main.go`) and proves their properties. It has one module per component:

- `Stats` (`stats.dfy`): the counter `totalBytes` as the class `ByteCounter`. Each locked section (`add`, `flush`) is one atomic method. Additions wrap modulo 2^64, as a `uint64` does. A ghost field records what was added since the last flush.
- `Download` (`download.dfy`): `rateLimitedReader.Read` and the accounting of `downloadFile`. The network becomes two inputs: the outcome of building and sending the request, and the sequence of `(n, err)` results that the response body's `Read` returns. The rate limiter is kept only as the record of its `WaitN(n)` calls. `io.Copy(io.Discard, r)` is modelled as the loop that `io.Discard` runs: it adds every read's `n`, stops at the first error and reports EOF as success. The supplied reads are the whole body; after them the body answers `(0, EOF)`.
- `LogRotation` (`logrotation.dfy`): `appendLog` over a file store, which is a map from path to bytes. `CountLines` is the counting loop. `AppendStep` is the reference definition of one call. `LogStore.AppendLog` is the call as a state change.
- `Hourly` (`hourly.dfy`): the logger's wake-up time and sleep length, in nanoseconds.
- `Scheduler` (`scheduler.dfy`): `rand.Intn`, the fewer-than-two-URLs guard, the choice of two distinct indices, the randomized pause, the semaphore `sem` as a bounded counter, the transfer goroutine, and one pass of the scheduling loop. Random numbers are a sequence of raw draws, consumed in order. `Intn(n)` of a draw `d` is `d % n`, and it panics when `n <= 0`.
- `Supervisor` (`supervisor.dfy`): how a `runDownloader` invocation ends, and `main`'s restart loop with its 30-second pause after a panic.

Three points where the code is easy to misread:
- The guard checks only that there are at least two URL entries, not two distinct endpoints. Equal URL strings pass it. The two chosen indices always differ, but they may name the same endpoint.
- A failed request (`http.NewRequest` or `client.Do`) returns before `add` is called. Only a transfer that got a response reports its bytes, partial ones included.
- After a successful open, `appendLog` ignores errors from the write, the re-read and the rename. Only a failed open skips the cycle.

## Model

| member | source | states |
|---|---|---|
| `Stats.ByteCounter.constructor` | main.go:45-48 | the counter starts at zero with nothing pending |
| `Stats.ByteCounter.Add` | main.go:94-96 | the counter becomes the old value plus `n` modulo 2^64, and the addition is recorded; the invariant "counter = sum of pending additions mod 2^64" is kept |
| `Stats.ByteCounter.Flush` | main.go:120-123 | returns exactly the wrapped sum of everything added since the previous flush, and leaves the counter at 0 with nothing pending |
| `Stats.AddThenFlushTwice` | main.go:120-123 | after any sequence of `add` calls, a flush returns the wrapped sum of all additions since the previous flush, and a second flush right after returns 0 |
| `Stats.AddWraps` | main.go:95 | adding to a value already reduced modulo 2^64 gives the same result as reducing after the addition |
| `Stats.SumConcat` | main.go:95 | the total added over two stretches of calls is the sum of the two totals |
| `Download.Limit` | main.go:56-62 | the read result passes through unchanged; the limiter is asked for exactly `n` tokens when `n > 0` and is not called otherwise |
| `Download.Reported` | main.go:93 | the copy reports no error exactly when the read that ends it returned EOF |
| `Download.ChargesCoverCopy` | main.go:56-62 | the tokens requested from the limiter add up to exactly the bytes the copy counts, and every request is positive |
| `Download.Copy` | main.go:93 | the copy loop over the rate-limited reader yields the reference byte count and error, and makes exactly the limiter calls the reference lists |
| `Download.Outcome` | main.go:65-105 | a failed `NewRequest` or `Do` adds nothing and returns its own error; after a response, the counter grows by exactly the bytes charged to the limiter, and an error is returned exactly when the copy ended with a non-EOF error |
| `Download.BrokenTransferCounted` | main.go:93-103 | when the body breaks off after some clean reads, every byte read is still counted, the partial last read included, and the wrapped transfer error is returned |
| `Download.DroppedConnectionExample` | main.go:93-103 | a connection that drops after 500 bytes adds exactly 500 and returns the error |
| `Download.DownloadFile` | main.go:65-105 | a failed request leaves the counter unchanged and calls no limiter; otherwise exactly one `add` of the copied byte count happens, and the returned error is the reference error |
| `LogRotation.Digits` | main.go:148 | `%d` of a non-negative number is a non-empty string of decimal digits without leading zeros that reads back as that number |
| `LogRotation.Decimal` | main.go:148 | `%d` of an integer is digits without leading zeros, with a leading `-` exactly when it is negative, and reads back as that integer |
| `LogRotation.RotatedPath` | main.go:148 | the rotated name is the path, a `.` and the decimal rendering of the timestamp, so it never equals the original path |
| `LogRotation.RotatedPathDistinct` | main.go:148 | rotations of one path at different Unix times get different names |
| `LogRotation.Rename` | main.go:149 | the file moves from the old name to the new one, and every other file is untouched |
| `LogRotation.CountLines` | main.go:140-146 | the loop's count equals the number of `'\n'` bytes in the content |
| `LogRotation.AppendStep` | main.go:130-152 | a failed open changes nothing; otherwise the line is appended to the old content (empty if the file is absent); the file stays at `path` iff it has at most 1000 lines, and is otherwise moved whole to the rotated name; after a successful call `path` never holds more than 1000 lines; every other file is untouched, the rotated name included when no rotation happens |
| `LogRotation.LogStore.AppendLog` | main.go:130-152 | the store becomes `AppendStep` of the old store; the open failed iff nothing was appended; the reported line count is the count after the append; rotation is reported iff that count exceeds 1000 |
| `LogRotation.ReplayKeepsBound` | main.go:140-151 | from a file of at most 1000 lines, any series of `appendLog` calls keeps the file at `path` at or below 1000 lines |
| `LogRotation.RotationMovesFullFile` | main.go:140-151 | with one-line entries, rotation happens exactly when the file held 1000 lines, and the rotated file holds 1001 lines |
| `LogRotation.FreshFileAfterRotation` | main.go:147-151 | appending to a full 1000-line file rotates it with all its content; the next append starts a fresh file at `path` holding just the new line |
| `Hourly.NextHour` | main.go:114 | the wake-up time is a multiple of one hour and lies in `(now, now + 1h]` |
| `Hourly.NextHourIsFirst` | main.go:114 | no hour boundary lies strictly between `now` and the wake-up time |
| `Hourly.SleepDuration` | main.go:116 | the sleep lasts between 1 ns and one hour, a full hour exactly when `now` is on a boundary, and it ends on a boundary |
| `Hourly.WakeOnBoundary` | main.go:111-117 | after waking on a boundary, the next cycle sleeps exactly one hour, so the schedule does not drift |
| `Scheduler.Intn` | main.go:175-178 | panics iff the bound is not positive; otherwise the value is below the bound |
| `Scheduler.PickPair` | main.go:175-179 | both indices are in range and distinct; the first comes from the first draw and the second from the first later draw that differs, with every draw in between rejected; no pair exists iff no later draw differs |
| `Scheduler.IntervalSec` | main.go:210 | the pause exists iff `MinIntervalSec <= MaxIntervalSec`, and then lies in that closed range; otherwise `Intn` panics |
| `Scheduler.IntervalCoversRange` | main.go:210 | every length in the configured range can be drawn |
| `Scheduler.Semaphore.constructor` | main.go:167 | a new semaphore holds no slots |
| `Scheduler.Semaphore.Acquire` | main.go:183 | a slot is taken iff fewer than `capacity` are held; `held <= capacity` is kept |
| `Scheduler.Semaphore.Release` | main.go:185 | one held slot is given back; `held <= capacity` is kept |
| `Scheduler.RunTask` | main.go:184-206 | the slot is released on every exit path, a recovered panic included; without a panic the counter and the exit follow `downloadFile` |
| `Scheduler.Iterate` | main.go:169-212 | with fewer than two URLs the pass returns having consumed no draw and taken no slot; otherwise the started indices are in range and distinct, each took one slot, and the semaphore never exceeds its capacity; the pass stops for lack of draws only when it has consumed all of them and no draw but possibly the last could serve as a second index, and it stops at a full semaphore only before both transfers started; once both started and a draw remains, the pause lies in the configured range, or `Intn` panics exactly when the range is empty |
| `Supervisor.RunEnd` | main.go:157-212 | a run returns exactly when the configuration loads, the capacity is not negative and there are fewer than two URLs; it panics exactly when the load fails, the capacity is negative, or there are two URLs or more, a positive capacity and an empty interval range; otherwise it runs forever |
| `Supervisor.RunDownloader` | main.go:154-214 | a failed configuration load or a negative capacity panics before any iteration; a return happens only through the guard, before any slot is taken; no more transfers start than the capacity allows; the exit agrees with `RunEnd` whenever the capacity is at least 2 and either there are fewer than two URLs or some draw other than the first and the last differs from the first modulo the URL count |
| `Supervisor.Backoff` | main.go:220-225 | a pause follows a recovered panic and never a normal return |
| `Supervisor.Supervise` | main.go:217-231 | every run ending is followed by a restart, and the total pause is 30 s per panic and nothing per normal return |

## Left out

- HTTP: building the request, its headers, `client.Do` and the response body are network I/O. They are reduced to a request outcome and a sequence of read results.
- The token bucket of `golang.org/x/time/rate` is a foreign library. The model records only when `WaitN(n)` is called and with which `n`, not how long it waits. `WaitN`'s error is discarded in the source, so the model never looks at it. When a read is larger than the limiter's burst, `WaitN` fails at once and that read is not throttled. This is not modelled, and no rate-shaping guarantee is stated.
- Concurrency: goroutines, `statsLock` and the blocking of channel sends and receives. `add`, `flush`, acquire and release are atomic sequential operations. A send on a full `sem` ends the modelled iteration with `SemaphoreFull` instead of waiting for a transfer to finish.
- `Scheduler.RunTask`: a panic inside the transfer body is modelled only as occurring before the download starts (`faulted`). A panic part-way through the download is not modelled.
- `Scheduler.PickPair`: the retry loop consumes a finite sequence of draws. When no later draw differs, the model reports `NoPair`, where the source would keep drawing.
- `Supervisor.RunDownloader`: only the set-up and the first iteration of the endless loop are modelled. The configuration does not change between iterations, so later iterations repeat the first one's guard and interval outcome. `RunEnd` assumes that every transfer eventually releases its slot. There is no request timeout, so a stalled transfer can hold a slot forever. Agreement with `RunEnd` is not promised when the capacity is 1. The second send then waits for the first transfer to end, which the model does not run. It is also not promised when the supplied draws run out before a pause is sampled.
- `Supervisor.RunDownloader`: each invocation starts another `startLogger` goroutine (main.go:165), and those goroutines never end (main.go:111). After every restart one more logger is left running; on the fewer-than-two-URLs path they pile up with no pause. The model has a single logger. `Stats` and `LogRotation` state their properties for one flusher and one writer. With several loggers, two can append before either renames, and a rotated file can then hold more than 1001 lines.
- Floating point: the speed sample and the Mbps-to-bytes/s conversion (main.go:193-195), and the bytes-to-MB value with `%.2f` in the log line (main.go:121, main.go:125). `appendLog` receives the formatted line as bytes. How the hourly line is formatted from the flushed value is not modelled.
- Timestamp formatting, console printing, `time.Sleep`, `rand.Seed` and real randomness. Clock readings (`now` in nanoseconds, the Unix time of a rotation) and random draws are inputs.
- `loadConfig` and YAML parsing: the model takes the load result as an `Option<Config>`. `os.MkdirAll` in `startLogger` is file-system I/O and is not modelled.
- `appendLog` after a successful open: failures of `WriteString`, `os.ReadFile` and `os.Rename` are ignored by the source and are not modelled. The store always reflects a successful write, read and rename.
- Go's `int` width: `MaxIntervalSec - MinIntervalSec + 1` and the `time.Duration` product could overflow 64 bits. The model uses unbounded integers there. `totalBytes` is modelled modulo 2^64.
- The `MinBytesPerDownload` and `MaxBytesPerDownload` configuration fields are unused by the source and are not part of the model. The speed fields are left out with the float arithmetic.
