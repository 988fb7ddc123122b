/**
 * The scheduling rules of `runDownloader` (main.go:154-214): the fewer-than-two-URLs guard,
 * the choice of two distinct endpoints, the semaphore `sem` that bounds running transfers,
 * the goroutine that runs one transfer, and the randomized pause. The random source is a
 * sequence of raw draws that the model consumes in order.
 */
module Scheduler {
  import opened Common
  import opened Stats
  import opened Download

  /** The configuration fields the scheduling rules read (main.go:20-30). */
  datatype Config = Config(
    urls: seq<string>,
    maxConcurrency: int,
    logFile: string,
    minIntervalSec: int,
    maxIntervalSec: int)

  /** The result of `rand.Intn`: a value, or the panic it raises on a non-positive bound. */
  datatype Drawn = Drawn(v: nat) | IntnPanic

  /** `rand.Intn(n)` applied to one raw draw of the random source. */
  function Intn(n: int, draw: nat): (r: Drawn)
    ensures r.IntnPanic? <==> n <= 0
    ensures r.Drawn? ==> r.v < n
  {
    if n <= 0 then IntnPanic else Drawn(draw % n)
  }

  /** The two chosen indices and how many draws the choice consumed, or the draws ran out first. */
  datatype Pick = Picked(idx1: nat, idx2: nat, used: nat) | NoPair

  /**
   * `idx1 := rand.Intn(count)`, then `idx2` drawn again until it differs from `idx1`.
   * The first index comes from the first draw, the second from the first later draw that
   * differs from it, and every draw in between was rejected because it equalled `idx1`.
   */
  method PickPair(count: nat, draws: seq<nat>) returns (p: Pick)
    requires count >= 2
    ensures p.Picked? ==> p.idx1 < count && p.idx2 < count && p.idx1 != p.idx2
    ensures p.Picked? ==> 2 <= p.used <= |draws|
    ensures p.Picked? ==> p.idx1 == draws[0] % count && p.idx2 == draws[p.used - 1] % count
    ensures p.Picked? ==> forall j :: 1 <= j < p.used - 1 ==> draws[j] % count == p.idx1
    ensures p.NoPair? <==> forall j :: 1 <= j < |draws| ==> draws[j] % count == draws[0] % count
  {
    if |draws| < 2 {
      return NoPair;
    }
    var idx1 := Intn(count, draws[0]).v;
    var idx2 := Intn(count, draws[1]).v;
    var used := 2;
    while idx2 == idx1
      invariant 2 <= used <= |draws|
      invariant idx1 == draws[0] % count && idx2 == draws[used - 1] % count
      invariant forall j :: 1 <= j < used - 1 ==> draws[j] % count == idx1
      decreases |draws| - used
    {
      if used == |draws| {
        return NoPair;
      }
      idx2 := Intn(count, draws[used]).v;
      used := used + 1;
    }
    return Picked(idx1, idx2, used);
  }

  /** `MinIntervalSec + rand.Intn(MaxIntervalSec - MinIntervalSec + 1)`, absent when `Intn` panics. */
  function IntervalSec(min: int, max: int, draw: nat): (r: Option<int>)
    ensures r.Some? <==> min <= max
    ensures r.Some? ==> min <= r.value <= max
  {
    match Intn(max - min + 1, draw)
    case IntnPanic => None
    case Drawn(v) => Some(min + v)
  }

  /** Every length in the configured range is a possible pause. */
  lemma IntervalCoversRange(min: int, max: int, s: int)
    requires min <= s <= max
    ensures IntervalSec(min, max, s - min) == Some(s)
  {
  }

  /** The buffered channel `sem`: `held` is the number of values in it, each one a running transfer. */
  class Semaphore {
    const capacity: nat
    var held: nat

    ghost predicate Valid()
      reads this
    {
      held <= capacity
    }

    /** `make(chan struct{}, capacity)`: an empty channel. */
    constructor (capacity: nat)
      ensures Valid() && this.capacity == capacity && held == 0
    {
      this.capacity := capacity;
      held := 0;
    }

    /** `sem <- struct{}{}`: takes a slot when one is free; on a full channel the send would block, and nothing changes. */
    method Acquire() returns (admitted: bool)
      requires Valid()
      modifies this
      ensures Valid()
      ensures admitted <==> old(held) < capacity
      ensures held == if admitted then old(held) + 1 else old(held)
    {
      admitted := held < capacity;
      if admitted {
        held := held + 1;
      }
    }

    /** `<-sem` in a transfer's deferred function: gives back the slot the transfer holds. */
    method Release()
      requires Valid() && held > 0
      modifies this
      ensures Valid() && held == old(held) - 1
    {
      held := held - 1;
    }
  }

  /** How a transfer goroutine ends: its download succeeded, returned an error, or a panic was recovered. */
  datatype TaskExit = Done | Failed(err: DownloadError) | Recovered

  /**
   * The goroutine launched per endpoint (main.go:184-206). `faulted` stands for a panic
   * raised before the download starts. On every exit path the deferred receive gives the
   * slot back; otherwise the download's accounting is that of `downloadFile`.
   */
  method RunTask(sem: Semaphore, stats: ByteCounter, faulted: bool, request: RequestOutcome, body: seq<ReadResult>)
    returns (exit: TaskExit)
    requires sem.Valid() && sem.held > 0 && stats.Valid()
    modifies sem, stats
    ensures sem.Valid() && sem.held == old(sem.held) - 1
    ensures stats.Valid()
    ensures exit.Recovered? <==> faulted
    ensures !faulted ==> exit == if Outcome(request, body).err.Some? then Failed(Outcome(request, body).err.value) else Done
    ensures faulted || Outcome(request, body).added.None? ==> stats.pending == old(stats.pending) && stats.total == old(stats.total)
    ensures !faulted && Outcome(request, body).added.Some? ==>
      stats.pending == old(stats.pending) + [Outcome(request, body).added.value]
  {
    if faulted {
      exit := Recovered;
    } else {
      var err, _ := DownloadFile(stats, request, body);
      exit := if err.Some? then Failed(err.value) else Done;
    }
    sem.Release();
  }

  /** Why an iteration of the scheduling loop stopped. */
  datatype End =
    | TooFewUrls          // the guard returns from `runDownloader`
    | DrawsExhausted      // the supplied random draws ran out
    | SemaphoreFull       // the send on `sem` blocks until a transfer ends
    | IntervalPanic       // `rand.Intn` panics: the interval range is empty
    | Slept(seconds: int) // the pause before the next iteration

  /** The endpoint indices whose transfers the iteration started, in order, and how it stopped. */
  datatype Iteration = Iteration(started: seq<nat>, end: End)

  /**
   * One pass of the loop in `runDownloader` (main.go:169-212). The guard returns before any
   * draw or slot; otherwise two distinct endpoints get a slot each and a transfer, and the
   * pause lies in the configured range, or `Intn` panics when that range is empty. `used`
   * is the number of draws the pass consumed.
   */
  method Iterate(sem: Semaphore, cfg: Config, draws: seq<nat>) returns (it: Iteration, used: nat)
    requires sem.Valid()
    modifies sem
    ensures sem.Valid() && sem.held == old(sem.held) + |it.started|
    ensures used <= |draws|
    ensures it.end.TooFewUrls? <==> |cfg.urls| < 2
    ensures it.end.TooFewUrls? ==> it.started == [] && used == 0
    ensures |it.started| > 0 ==> used >= 2
    ensures it.end.IntervalPanic? || it.end.Slept? ==> used >= 3
    ensures |it.started| <= 2
    ensures forall i :: 0 <= i < |it.started| ==> it.started[i] < |cfg.urls|
    ensures |it.started| == 2 ==> it.started[0] != it.started[1]
    ensures it.end.SemaphoreFull? ==> sem.held == sem.capacity
    ensures it.end.SemaphoreFull? ==> |it.started| < 2
    ensures it.end.DrawsExhausted? ==>
      used == |draws| && forall j :: 1 <= j < |draws| - 1 ==> draws[j] % |cfg.urls| == draws[0] % |cfg.urls|
    ensures it.end.IntervalPanic? || it.end.Slept? ==> |it.started| == 2
    ensures |it.started| == 2 && !it.end.DrawsExhausted? ==>
      (it.end.IntervalPanic? <==> cfg.maxIntervalSec < cfg.minIntervalSec)
    ensures it.end.Slept? ==> cfg.minIntervalSec <= it.end.seconds <= cfg.maxIntervalSec
  {
    if |cfg.urls| < 2 {
      return Iteration([], TooFewUrls), 0;
    }
    var p := PickPair(|cfg.urls|, draws);
    if p.NoPair? {
      return Iteration([], DrawsExhausted), |draws|;
    }
    used := p.used;
    var picked := [p.idx1, p.idx2];
    var started: seq<nat> := [];
    for k := 0 to |picked|
      invariant started == picked[..k]
      invariant sem.Valid() && sem.held == old(sem.held) + k
    {
      var admitted := sem.Acquire();
      if !admitted {
        return Iteration(started, SemaphoreFull), used;
      }
      started := started + [picked[k]];
    }
    assert started == picked;
    if p.used == |draws| {
      return Iteration(started, DrawsExhausted), used;
    }
    match IntervalSec(cfg.minIntervalSec, cfg.maxIntervalSec, draws[p.used])
    case None =>
      return Iteration(started, IntervalPanic), used + 1;
    case Some(s) =>
      return Iteration(started, Slept(s)), used + 1;
  }
}
