/**
 * The stopwatch of `stopwatch/sopwatch.go`: two instants, `start` and `end`.
 * Time is an integer clock read by the caller and passed in; the instant 0
 * stands for Go's zero `time.Time`, which `time.Now()` never returns.
 */
module Stopwatch {

  /** Go's zero `time.Time`: an `end` equal to it means the watch is still running. */
  const ZeroTime: int := 0

  class Stopwatch {
    var start: int
    var end: int

    /** The zero value `Stopwatch{}`. */
    constructor ()
      ensures start == ZeroTime && end == ZeroTime
    {
      start, end := ZeroTime, ZeroTime;
    }

    /** The watch has been stopped and not restarted since. */
    predicate Stopped()
      reads this
    {
      end != ZeroTime
    }

    /** `Start`: the watch restarts at `now`, and any earlier stop is forgotten. */
    method Start(now: int)
      modifies this
      ensures start == now && end == ZeroTime
      ensures !Stopped()
    {
      start := now;
      end := ZeroTime;
    }

    /** `Stop`: the watch freezes at `now`; the start instant is kept. */
    method Stop(now: int)
      modifies this`end
      ensures end == now && start == old(start)
    {
      end := now;
    }

    /**
     * `Elapsed`: the frozen span `end - start` once stopped, and the span up
     * to the current reading `now` while running.
     */
    method Elapsed(now: int) returns (d: int)
      ensures Stopped() ==> d == end - start
      ensures !Stopped() ==> d == now - start
    {
      if end == ZeroTime {
        return now - start;
      }
      return end - start;
    }
  }

  /**
   * A watch started at `t0`, stopped at `t1` and read at any later `t2` and
   * again at `t3` reports `t1 - t0` both times: a stopped watch no longer
   * depends on the clock.
   */
  method StopFreezes(t0: int, t1: int, t2: int, t3: int) returns (d1: int, d2: int)
    requires t1 != ZeroTime
    ensures d1 == t1 - t0 && d2 == d1
  {
    var sw := new Stopwatch();
    sw.Start(t0);
    sw.Stop(t1);
    d1 := sw.Elapsed(t2);
    d2 := sw.Elapsed(t3);
  }

  /**
   * Starting again after a stop discards the old `end`: the watch runs from
   * the new start and reads `now - t2`.
   */
  method RestartDiscardsStop(t0: int, t1: int, t2: int, now: int) returns (d: int)
    requires t1 != ZeroTime
    ensures d == now - t2
  {
    var sw := new Stopwatch();
    sw.Start(t0);
    sw.Stop(t1);
    sw.Start(t2);
    d := sw.Elapsed(now);
  }
}
