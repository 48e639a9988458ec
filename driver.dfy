/**
 * The SMTP destination driver (AFSMTPDriver) as one sequential object: the
 * configuration registries, the suspension controller, the delivery queue and
 * one pass of the worker loop. Threads, locks and condition variables are
 * abstracted away: a wait is a point where the iteration simply proceeds, and
 * the result of smtp_start_session is a parameter.
 */
module Delivery {
  import opened Wrappers
  import opened Wash
  import opened Config

  /** A queued log message (a LogMessage reference). */
  datatype LogMessage = LogMessage(id: nat)

  /** `step` applied `n` times to `s`: the sequence number after `n` deliveries. */
  function StepTimes(step: int -> int, s: int, n: nat): int
  {
    if n == 0 then s else step(StepTimes(step, s, n - 1))
  }

  /** Microseconds in a second, the factor afsmtp_dd_suspend applies to time_reopen. */
  const MicrosPerSecond: int := 1000000

  class Driver {
    /** mail_from, rcpt_tos, headers: filled at configuration time. */
    var mailFrom: Option<Mailbox>
    var rcptTos: seq<Recipient>
    var headers: seq<Header>

    /** time_reopen, in seconds. */
    const timeReopen: int

    /** writer_thread_terminate, writer_thread_suspended, writer_thread_suspend_target (in microseconds). */
    var terminate: bool
    var suspended: bool
    var suspendTarget: int

    /** The LogQueue: its items, and whether parallel-push notification is armed. */
    var queue: seq<LogMessage>
    var parallelPush: bool

    /** The stored and dropped statistics counters. */
    var storedMessages: nat
    var droppedMessages: nat

    /** seq_num, stepped by a function defined outside this driver. */
    var seqNum: int
    const step: int -> int
    const seqInit: int

    /** The messages acknowledged (log_msg_ack), and every message handed to an SMTP session, in order. */
    var acked: seq<LogMessage>
    var attempts: seq<LogMessage>

    /** Every message ever accepted by the enqueue path, in order. */
    ghost var accepted: seq<LogMessage>

    /**
     * The driver's invariant. No loss, no duplication and FIFO order: what was
     * accepted is what was acknowledged followed by what is still queued. The
     * stored counter counts the acknowledged messages, the sequence number was
     * stepped once per delivery, the dropped counter is never touched, every
     * stored address and phrase is washed and no user header has a reserved name.
     */
    ghost predicate Valid()
      reads this
    {
      && accepted == acked + queue
      && storedMessages == |acked|
      && droppedMessages == 0
      && seqNum == StepTimes(step, seqInit, |acked|)
      && (mailFrom.Some? ==> LineBreakFree(mailFrom.value.phrase) && LineBreakFree(mailFrom.value.address))
      && (forall r :: r in rcptTos ==> LineBreakFree(r.phrase) && LineBreakFree(r.address))
      && (forall h :: h in headers ==> !IsReservedHeader(h.name))
    }

    /**
     * afsmtp_dd_new (a zeroed driver, init_sequence_number) together with the
     * time_reopen that afsmtp_dd_init takes from the configuration.
     */
    constructor (timeReopen: int, seqInit: int, step: int -> int)
      ensures Valid()
      ensures this.timeReopen == timeReopen && this.seqInit == seqInit && this.step == step
      ensures mailFrom == None && rcptTos == [] && headers == []
      ensures !terminate && !suspended && queue == [] && !parallelPush
      ensures acked == [] && attempts == [] && seqNum == seqInit
    {
      this.timeReopen := timeReopen;
      this.seqInit := seqInit;
      this.step := step;
      mailFrom := None;
      rcptTos := [];
      headers := [];
      terminate := false;
      suspended := false;
      suspendTarget := 0;
      queue := [];
      parallelPush := false;
      storedMessages := 0;
      droppedMessages := 0;
      seqNum := seqInit;
      acked := [];
      attempts := [];
      accepted := [];
    }

    /** afsmtp_dd_set_from: store washed copies of the sender's phrase and address. */
    method SetFrom(phrase: CString, mbox: CString)
      requires Valid()
      modifies this`mailFrom
      ensures Valid()
      ensures mailFrom == Some(Mailbox(Washed(phrase), Washed(mbox)))
      ensures LineBreakFree(mailFrom.value.phrase) && |mailFrom.value.phrase| == |phrase|
      ensures LineBreakFree(mailFrom.value.address) && |mailFrom.value.address| == |mbox|
    {
      WashedCString(phrase);
      WashedCString(mbox);
      mailFrom := Some(Mailbox(Washed(phrase), Washed(mbox)));
    }

    /** afsmtp_dd_add_rcpt: append one recipient with washed phrase and address. */
    method AddRcpt(rtype: RcptType, phrase: CString, mbox: CString)
      requires Valid()
      modifies this`rcptTos
      ensures Valid()
      ensures rcptTos == old(rcptTos) + [Recipient(Washed(phrase), Washed(mbox), rtype)]
      ensures LineBreakFree(rcptTos[|rcptTos| - 1].phrase) && LineBreakFree(rcptTos[|rcptTos| - 1].address)
    {
      WashedCString(phrase);
      WashedCString(mbox);
      rcptTos := rcptTos + [Recipient(Washed(phrase), Washed(mbox), rtype)];
    }

    /**
     * afsmtp_dd_add_header: refuse the seven header names the driver reserves,
     * in any letter case; append any other header at the end.
     */
    method AddHeader(header: CString, value: CString) returns (ok: bool)
      requires Valid()
      modifies this`headers
      ensures Valid()
      ensures ok <==> !IsReservedHeader(header)
      ensures ok <==> AsciiLowerString(header) !in ReservedHeaderNames
      ensures ok ==> headers == old(headers) + [Header(header, value)]
      ensures !ok ==> headers == old(headers)
    {
      ReservedHeaderByLowerCase(header);
      if IsReservedHeader(header) {
        return false;
      }
      headers := headers + [Header(header, value)];
      return true;
    }

    /** afsmtp_dd_suspend: suspended, until time_reopen seconds after `now` (microseconds). */
    method Suspend(now: int)
      requires Valid()
      modifies this`suspended, this`suspendTarget
      ensures Valid()
      ensures suspended
      ensures suspendTarget - now == timeReopen * MicrosPerSecond
      ensures timeReopen > 0 ==> suspendTarget > now
    {
      suspended := true;
      suspendTarget := now + timeReopen * MicrosPerSecond;
    }

    /**
     * afsmtp_worker_insert: disarm parallel push, pop the head and, if there was
     * one, hand it to an SMTP session; `sent` is whether smtp_start_session
     * completed (the transfer status is only logged). On success the
     * message is counted, the sequence number stepped and the message acked; on
     * failure it goes back to the head of the queue. An empty queue is a success.
     */
    method WorkerInsert(sent: bool) returns (success: bool)
      requires Valid()
      modifies this`queue, this`parallelPush, this`storedMessages, this`seqNum, this`acked, this`attempts
      ensures Valid()
      ensures !parallelPush
      ensures success <==> old(queue) == [] || sent
      ensures old(queue) == [] ==>
                queue == [] && acked == old(acked) && attempts == old(attempts)
                && storedMessages == old(storedMessages) && seqNum == old(seqNum)
      ensures old(queue) != [] ==> attempts == old(attempts) + [old(queue)[0]]
      ensures old(queue) != [] && sent ==>
                queue == old(queue)[1..] && acked == old(acked) + [old(queue)[0]]
                && storedMessages == old(storedMessages) + 1 && seqNum == step(old(seqNum))
      ensures old(queue) != [] && !sent ==>
                queue == old(queue) && acked == old(acked)
                && storedMessages == old(storedMessages) && seqNum == old(seqNum)
    {
      parallelPush := false;
      if queue == [] {
        return true;
      }
      var msg := queue[0];
      queue := queue[1..];
      attempts := attempts + [msg];
      success := sent;
      if success {
        storedMessages := storedMessages + 1;
        seqNum := step(seqNum);
        acked := acked + [msg];
        assert old(queue) == [msg] + queue;
      } else {
        queue := [msg] + queue;
      }
    }

    /**
     * One pass of the while loop of afsmtp_worker_thread. The loop test sees
     * the terminate flag; a suspended worker waits out its deadline and clears
     * the suspension, an active one waits for data; `stopDuringWait` says that
     * afsmtp_dd_stop_thread set the terminate flag during that wait. Then,
     * unless terminating, one delivery is attempted and a failure suspends the
     * worker from `now`. The result says whether the loop goes on.
     */
    method WorkerIteration(stopDuringWait: bool, sent: bool, now: int) returns (running: bool)
      requires Valid()
      modifies this
      ensures Valid()
      ensures mailFrom == old(mailFrom) && rcptTos == old(rcptTos) && headers == old(headers)
      ensures running <==> !terminate
      ensures old(terminate) ==> !running && unchanged(this)
      ensures !old(terminate) && stopDuringWait ==>
                !running && !suspended && suspendTarget == old(suspendTarget)
                && queue == old(queue) && acked == old(acked) && attempts == old(attempts)
                && seqNum == old(seqNum) && parallelPush == old(parallelPush)
      ensures !old(terminate) && !stopDuringWait ==> running && !parallelPush
      ensures !old(terminate) && !stopDuringWait && (old(queue) == [] || sent) ==>
                suspendTarget == old(suspendTarget)
      ensures !old(terminate) && !stopDuringWait && old(queue) == [] ==>
                !suspended && queue == [] && acked == old(acked) && attempts == old(attempts)
      ensures !old(terminate) && !stopDuringWait && old(queue) != [] ==>
                attempts == old(attempts) + [old(queue)[0]]
      ensures !old(terminate) && !stopDuringWait && old(queue) != [] && sent ==>
                !suspended && queue == old(queue)[1..] && acked == old(acked) + [old(queue)[0]]
      ensures !old(terminate) && !stopDuringWait && old(queue) != [] && !sent ==>
                suspended && suspendTarget == now + timeReopen * MicrosPerSecond
                && queue == old(queue) && acked == old(acked)
    {
      if terminate {
        return false;
      }
      if suspended {
        suspended := false;
      }
      if stopDuringWait {
        terminate := true;
      }
      if terminate {
        return false;
      }
      var ok := WorkerInsert(sent);
      if !ok {
        Suspend(now);
      }
      running := !terminate;
    }

    /**
     * The queue part of afsmtp_dd_queue: note whether the queue was empty, push
     * `msg` at the tail, and arm parallel-push notification only when the queue
     * was empty and the worker is not suspended.
     */
    method Queue(msg: LogMessage)
      requires Valid()
      modifies this`queue, this`parallelPush, this`accepted
      ensures Valid()
      ensures queue == old(queue) + [msg]
      ensures accepted == old(accepted) + [msg]
      ensures parallelPush <==> old(parallelPush) || (old(queue) == [] && !suspended)
    {
      var queueWasEmpty := |queue| == 0;
      queue := queue + [msg];
      accepted := accepted + [msg];
      if queueWasEmpty && !suspended {
        parallelPush := true;
      }
    }

    /** afsmtp_dd_queue_notify: the armed notification fires and disarms parallel push. */
    method QueueNotify()
      requires Valid()
      modifies this`parallelPush
      ensures Valid()
      ensures !parallelPush
    {
      parallelPush := false;
    }

    /** The flag store of afsmtp_dd_stop_thread: ask the worker loop to end. */
    method StopThread()
      requires Valid()
      modifies this`terminate
      ensures Valid()
      ensures terminate
    {
      terminate := true;
    }
  }
}
