/**
 * Runs of the driver as its callers see them, derived from the driver's
 * contracts alone: ordering with retries, and what a stop leaves behind.
 */
module Scenarios {
  import opened Delivery

  /** `n` copies of `m`. */
  function Repeat(m: LogMessage, n: nat): seq<LogMessage>
  {
    seq(n, _ => m)
  }

  /**
   * Messages `a` then `b` are enqueued; the SMTP session fails `k` times
   * and then always completes. The transport sees `a` k + 1 times and then `b`,
   * never `b` while `a` is being retried; each is acknowledged exactly once, in
   * order, and only successful deliveries are counted as stored.
   */
  method RetryKeepsOrder(a: LogMessage, b: LogMessage, k: nat, timeReopen: int, now: int, step: int -> int)
    returns (attempts: seq<LogMessage>, acked: seq<LogMessage>, stored: nat, dropped: nat, seqNum: int)
    ensures attempts == Repeat(a, k + 1) + [b]
    ensures acked == [a, b]
    ensures stored == 2 && dropped == 0
    ensures seqNum == step(step(0))
  {
    var d := new Driver(timeReopen, 0, step);
    d.Queue(a);
    d.Queue(b);
    var i := 0;
    while i < k
      invariant 0 <= i <= k
      invariant d.Valid() && d.step == step && d.seqInit == 0
      invariant !d.terminate
      invariant d.queue == [a, b] && d.acked == [] && d.attempts == Repeat(a, i)
    {
      var running := d.WorkerIteration(false, false, now);
      i := i + 1;
    }
    var running := d.WorkerIteration(false, true, now);
    running := d.WorkerIteration(false, true, now);
    assert d.acked == [a, b];
    return d.attempts, d.acked, d.storedMessages, d.droppedMessages, d.seqNum;
  }

  /**
   * A failed delivery suspends the worker until time_reopen seconds after the
   * failure and leaves the message first in the queue, unacknowledged.
   */
  method FailureSuspends(a: LogMessage, timeReopen: int, now: int, step: int -> int)
    returns (suspended: bool, target: int, queue: seq<LogMessage>, acked: seq<LogMessage>)
    ensures suspended && target == now + timeReopen * 1000000
    ensures queue == [a] && acked == []
  {
    var d := new Driver(timeReopen, 0, step);
    d.Queue(a);
    var running := d.WorkerIteration(false, false, now);
    return d.suspended, d.suspendTarget, d.queue, d.acked;
  }

  /**
   * Once the terminate flag is set no delivery is attempted, and the queued
   * message is neither delivered nor acknowledged: stopping does not drain.
   */
  method StopLeavesQueued(a: LogMessage, step: int -> int)
    returns (running: bool, queue: seq<LogMessage>, attempts: seq<LogMessage>, acked: seq<LogMessage>)
    ensures !running
    ensures queue == [a] && attempts == [] && acked == []
  {
    var d := new Driver(60, 0, step);
    d.Queue(a);
    d.StopThread();
    running := d.WorkerIteration(false, true, 0);
    return running, d.queue, d.attempts, d.acked;
  }
}
