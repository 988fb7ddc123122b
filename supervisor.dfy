/**
 * The top level (main.go:154-167 and 217-231): one `runDownloader` invocation per pass of
 * `main`'s loop, a 30-second pause after a recovered panic and an immediate restart after a
 * normal return.
 */
module Supervisor {
  import opened Common
  import opened Scheduler

  /** The pause, in seconds, after a recovered panic. */
  const BACKOFF_SEC: nat := 30

  /** How a `runDownloader` invocation ends. */
  datatype RunExit = Returned | Panicked

  /**
   * How a `runDownloader` invocation with the given configuration-load result ends, when
   * every started transfer eventually gives its slot back; absent when it runs forever. A
   * failed load panics; a negative capacity makes `make` panic; too few URLs return; a
   * zero capacity blocks the first send for good; an empty interval range makes `Intn`
   * panic in the first iteration; otherwise the loop never ends.
   */
  function RunEnd(loaded: Option<Config>): (e: Option<RunExit>)
    ensures e == Some(Returned) <==> loaded.Some? && loaded.value.maxConcurrency >= 0 && |loaded.value.urls| < 2
    ensures e == Some(Panicked) <==>
      || loaded.None?
      || loaded.value.maxConcurrency < 0
      || (|loaded.value.urls| >= 2 && loaded.value.maxConcurrency > 0 && loaded.value.maxIntervalSec < loaded.value.minIntervalSec)
    ensures e.None? ==> loaded.Some? && |loaded.value.urls| >= 2 && loaded.value.maxConcurrency >= 0
  {
    match loaded
    case None => Some(Panicked)
    case Some(cfg) =>
      if cfg.maxConcurrency < 0 then Some(Panicked)
      else if |cfg.urls| < 2 then Some(Returned)
      else if cfg.maxConcurrency == 0 then None
      else if cfg.maxIntervalSec < cfg.minIntervalSec then Some(Panicked)
      else None
  }

  /**
   * The start of `runDownloader` and its first iteration, on a fresh semaphore. Its exit
   * agrees with `RunEnd` unless the model had to stop the iteration early: the draws ran
   * out, or the semaphore was full and a slot would first have to come back. Neither can
   * happen when the capacity is at least 2 and the draws hold a usable second index.
   */
  method RunDownloader(loaded: Option<Config>, draws: seq<nat>) returns (exit: Option<RunExit>, first: Option<Iteration>)
    ensures loaded.None? || loaded.value.maxConcurrency < 0 ==> first.None? && exit == Some(Panicked)
    ensures first.Some? ==> loaded.Some? && |first.value.started| <= loaded.value.maxConcurrency
    ensures first.Some? && !first.value.end.DrawsExhausted? && !first.value.end.SemaphoreFull? ==>
      exit == RunEnd(loaded)
    ensures exit == Some(Returned) ==> first == Some(Iteration([], TooFewUrls))
    ensures (&& loaded.Some?
             && loaded.value.maxConcurrency >= 2
             && (|loaded.value.urls| < 2 ||
                 exists j :: 1 <= j < |draws| - 1 && draws[j] % |loaded.value.urls| != draws[0] % |loaded.value.urls|))
      ==> exit == RunEnd(loaded)
  {
    if loaded.None? {
      return Some(Panicked), None;
    }
    var cfg := loaded.value;
    if cfg.maxConcurrency < 0 {
      return Some(Panicked), None;
    }
    var sem := new Semaphore(cfg.maxConcurrency);
    var it, _ := Iterate(sem, cfg, draws);
    first := Some(it);
    exit := match it.end
      case TooFewUrls => Some(Returned)
      case IntervalPanic => Some(Panicked)
      case _ => None;
  }

  /** The pause before the next invocation: `BACKOFF_SEC` after a panic, none after a return. */
  function Backoff(e: RunExit): (sec: nat)
    ensures sec > 0 <==> e.Panicked?
  {
    if e.Panicked? then BACKOFF_SEC else 0
  }

  /**
   * `main`'s loop over a finite prefix of its runs: each ending is followed by a restart,
   * and the total pause is `BACKOFF_SEC` per panic, nothing for a normal return.
   */
  method Supervise(exits: seq<RunExit>) returns (restarts: nat, paused: nat)
    ensures restarts == |exits|
    ensures paused == BACKOFF_SEC * multiset(exits)[Panicked]
  {
    restarts, paused := 0, 0;
    for i := 0 to |exits|
      invariant restarts == i
      invariant paused == BACKOFF_SEC * multiset(exits[..i])[Panicked]
    {
      assert exits[..i + 1] == exits[..i] + [exits[i]];
      paused := paused + Backoff(exits[i]);
      restarts := restarts + 1;
    }
    assert exits[..|exits|] == exits;
  }
}
