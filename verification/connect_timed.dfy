/** php_quic_connect_timed: a non-blocking handshake driven to an overall deadline. */
module ConnectTimed {
  import opened Common

  const INT_MAX: int := 0x7fff_ffff
  const TWO32: int := 0x1_0000_0000
  const TWO63: int := 0x8000_0000_0000_0000
  const TWO64: int := 0x1_0000_0000_0000_0000

  /** (int)x */
  function ToInt32(x: int): (r: int)
    ensures -INT_MAX - 1 <= r <= INT_MAX
  {
    var m := x % TWO32;
    if m <= INT_MAX then m else m - TWO32
  }

  /** (int64_t)x of an unsigned 64-bit value */
  function ToInt64(x: int): int
    requires 0 <= x < TWO64
  {
    if x < TWO63 then x else x - TWO64
  }

  /** a - b on uint64_t */
  function Sub64(a: int, b: int): (r: int)
    ensures 0 <= r < TWO64
  {
    (a - b) % TWO64
  }

  /** (int64_t)timeout_ms - (int64_t)(now - start) */
  function Remaining(timeout: int, now: int, start: int): int {
    timeout - ToInt64(Sub64(now, start))
  }

  /** How long to wait: the rest of the deadline, or the engine's own timer if that is shorter. */
  function WaitMs(remaining: int, timer: Option<int>): int {
    var capped := if remaining > INT_MAX then INT_MAX else remaining;
    match timer
    case None => capped
    case Some(ms) => if ToInt32(ms) < capped then ToInt32(ms) else capped
  }

  /** On a monotonic clock the 64-bit arithmetic is exact if and only if less than 2^63 ms have passed. */
  lemma RemainingIsExactIff(timeout: int, now: int, start: int)
    requires 0 <= start <= now && now - start < TWO64
    ensures Remaining(timeout, now, start) == timeout - (now - start) <==> now - start < TWO63
  {
    assert (now - start) % TWO64 == now - start;
  }

  /** The engine's timer, cut to 32 bits, is not negative. */
  predicate Punctual(timer: Option<int>) {
    timer.Some? ==> timer.value % TWO32 <= INT_MAX
  }

  /** The wait lies in 0..remaining exactly when the timer is punctual; a negative wait would block without
      end. */
  lemma WaitInRangeIff(remaining: int, timer: Option<int>)
    requires remaining > 0
    ensures 0 <= WaitMs(remaining, timer) <= remaining <==> Punctual(timer)
  {
  }

  /** The wait without an engine timer, and with one of which the lower 32 bits are low. */
  lemma WaitIs(remaining: int, low: int, k: int)
    requires remaining > 0 && 0 <= low < 0x1_0000_0000
    ensures WaitMs(remaining, None) == Min(remaining, 0x7fff_ffff)
    ensures low < 0x8000_0000 ==>
      WaitMs(remaining, Some(k * 0x1_0000_0000 + low)) == Min(Min(remaining, 0x7fff_ffff), low)
    ensures low >= 0x8000_0000 ==> WaitMs(remaining, Some(k * 0x1_0000_0000 + low)) == low - 0x1_0000_0000
  {
    assert (k * 0x1_0000_0000 + low) % 0x1_0000_0000 == low;
  }

  /** A timer that fits in an int of milliseconds is honoured as it is. */
  lemma FittingTimerIsHonoured(remaining: int, ms: int)
    requires remaining > 0 && 0 <= ms <= INT_MAX
    ensures WaitMs(remaining, Some(ms)) == Min(Min(remaining, INT_MAX), ms)
    ensures 0 <= WaitMs(remaining, Some(ms)) <= remaining
  {
    assert ms % TWO32 == ms;
  }

  /** A timer of 2^31 ms makes the wait negative, whatever is left of the deadline. */
  lemma LongTimerGoesNegative(remaining: int)
    requires remaining > 0
    ensures WaitMs(remaining, Some(0x8000_0000)) < 0
  {
  }

  /** What SSL_connect says. */
  datatype Answer = Done | Pending | Failed

  /** An SSL_connect: its answer, the time read after it and the engine's timer then. */
  datatype Turn = Turn(answer: Answer, at: int, timer: Option<int>)

  /** A turn that found the handshake pending with time left, and the wait worked out from what is left. */
  predicate WentOn(t: Turn, wait: int, start: int, timeout: int) {
    t.answer == Pending && t.at - start < timeout && wait == WaitMs(timeout - (t.at - start), t.timer)
  }

  /** Whenever a wait followed, the timer was punctual. */
  predicate AllPunctual(turns: seq<Turn>, n: nat) {
    forall i :: 0 <= i < n && i < |turns| ==> Punctual(turns[i].timer)
  }

  lemma PunctualSoFar(turns: seq<Turn>, t: Turn)
    ensures AllPunctual(turns + [t], |turns|) <==> AllPunctual(turns, |turns|)
    ensures AllPunctual(turns + [t], |turns| + 1) <==> AllPunctual(turns, |turns|) && Punctual(t.timer)
  {
    assert forall i :: 0 <= i < |turns| ==> (turns + [t])[i] == turns[i];
    assert (turns + [t])[|turns|] == t;
  }

  /** A bound in milliseconds. */
  type Lag = l: int | 1 <= l witness 1

  class Handshake {
    const lag: Lag          // how long the engine, or the system after a wait is over, can take
    var now: int            // CLOCK_MONOTONIC in milliseconds, which counts from boot
    var blocking: bool
    var timer: Option<int>  // SSL_get_event_timeout, in milliseconds; None if infinite or unavailable
    ghost var turns: seq<Turn>
    ghost var waits: seq<int>

    constructor (now: int, lag: Lag)
      ensures this.now == now && this.lag == lag && turns == [] && waits == []
    {
      this.lag, this.now, blocking, timer, turns, waits := lag, now, true, None, [], [];
    }

    /** SSL_connect with SSL_get_error: any answer, at the price of some time. */
    method Connect() returns (answer: Answer)
      requires now < TWO63 && !blocking
      modifies this`now, this`timer, this`turns
      ensures old(now) <= now < TWO63 && now <= old(now) + lag
      ensures turns == old(turns) + [Turn(answer, now, timer)]
    {
      answer := *;
      timer := *;
      var later :| now <= later < TWO63 && later <= now + lag;
      now := later;
      turns := turns + [Turn(answer, now, timer)];
    }

    /** php_pollfd_for_ms and SSL_handle_events: the clock keeps advancing, until the end of its range; a
        negative wait may take any time. */
    method WaitAndHandle(wait: int) returns (awake: bool)
      requires now < TWO63
      modifies this`now, this`waits
      ensures awake ==> old(now) < now < TWO63 && (wait >= 0 ==> now <= old(now) + wait + lag)
      ensures !awake ==> now == old(now) == TWO63 - 1
      ensures waits == old(waits) + [wait]
    {
      waits := waits + [wait];
      if now == TWO63 - 1 {
        return false;
      }
      var later :| now < later < TWO63 && (wait >= 0 ==> later <= now + wait + lag);
      now := later;
      awake := true;
    }

    /** 1 for success, 0 for a handshake error, -1 for the deadline; None when the range of the clock ends
        before the deadline. */
    method ConnectTimed(timeout: int) returns (hs: Option<int>)
      requires 0 <= now < TWO63 && 0 < timeout && turns == [] && waits == []
      modifies this
      ensures hs.None? ==> old(now) + timeout >= TWO63
      ensures forall i :: 0 <= i < |waits| ==> i < |turns| && WentOn(turns[i], waits[i], old(now), timeout)
      // the last answer decides, and beats the deadline
      ensures hs.Some? ==> blocking && |turns| == |waits| + 1
      ensures hs.Some? ==> var last := turns[|waits|];
        && (hs.value == 1 <==> last.answer == Done)
        && (hs.value == 0 <==> last.answer == Failed)
        && (hs.value == -1 <==> last.answer == Pending)
        && (hs.value == -1 ==> last.at - old(now) >= timeout && last.at == now)
      // whatever happens, it returns in time: at most two calls after the deadline
      ensures AllPunctual(turns, |waits|) ==> now - old(now) <= timeout + 2 * lag
    {
      var start := now;
      blocking := false;
      while true
        invariant start == old(now) <= now < TWO63 && !blocking
        invariant |turns| == |waits| && forall i :: 0 <= i < |waits| ==> WentOn(turns[i], waits[i], start, timeout)
        invariant AllPunctual(turns, |waits|) ==> now - start <= timeout + lag
        decreases TWO63 - now
      {
        ghost var before, n := turns, |turns|;
        var answer := Connect();
        PunctualSoFar(before, turns[n]);
        if answer == Done {
          blocking := true;
          return Some(1);
        }
        if answer != Pending {
          blocking := true;
          return Some(0);
        }
        RemainingIsExactIff(timeout, now, start);
        var remaining := Remaining(timeout, now, start);
        if remaining <= 0 {
          blocking := true;
          return Some(-1);
        }
        WaitInRangeIff(remaining, timer);
        var awake := WaitAndHandle(WaitMs(remaining, timer));
        if !awake {
          return None;
        }
      }
    }
  }
}
