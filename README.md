# SMTP destination of syslog-ng 3.4.1, modelled in Dafny

This project models the sequential core of the syslog-ng SMTP destination driver
(`modules/afsmtp/afsmtp.c`). It covers the following parts:

- **Line-break washing** (`afsmtp_wash_string`). Every address, phrase, subject and
  header value passes through it. `Wash.WashString` rewrites a NUL-terminated
  character buffer in place. As in C, it takes the buffer's strlen again before every
  step. It is proved against the specification function `Wash.Washed`.
- **Configuration registries.** These are the sender (`afsmtp_dd_set_from`), the
  recipient list (`afsmtp_dd_add_rcpt`) and the user header list
  (`afsmtp_dd_add_header`). The header list refuses the seven names the driver
  reserves, compared as `g_ascii_strcasecmp` compares them (`Config.AsciiStrCaseCmp`).
  One Dafny `char` stands for one byte of a C string.
- **Recipient types and headers** (the switch in `afsmtp_dd_msg_add_recipient`).
  `Config.RecipientHeader` gives the header name for each type. `Config.AddRecipients`
  gives what the whole recipient list adds to one message.
- **The delivery pipeline**, as one sequential object, `Delivery.Driver`. It covers
  the suspension controller (`afsmtp_dd_suspend`), the delivery step
  (`afsmtp_worker_insert`), one pass of the worker loop (`afsmtp_worker_thread`), the
  enqueue path (`afsmtp_dd_queue`), the notification callback
  (`afsmtp_dd_queue_notify`) and the terminate flag (`afsmtp_dd_stop_thread`).
  - The LogQueue is a `seq` of messages plus its parallel-push flag.
  - The boolean parameter `sent` is the result of `smtp_start_session` (line 398):
    whether the SMTP session ran to completion. The message's transfer status is only
    logged, so it plays no part.
  - The worker's waits are points where the iteration proceeds. The parameter
    `stopDuringWait` stands for a stop request that lands during the wait.
  - The current time is the parameter `now`, in microseconds.
  - The driver records two logs of observable effects: `acked`, the messages passed
    to `log_msg_ack`, and `attempts`, the messages handed to an SMTP session.
  - The ghost field `accepted` lists every message the enqueue path took.

`Driver.Valid()` is the driver's invariant, and every method keeps it. It states
these facts:
- `accepted == acked + queue`. No message is lost or duplicated, and messages are
  acknowledged in FIFO order, failed retries included. "Acknowledged" means the
  session completed, not that the server accepted the message (see below).
- The stored counter equals the number of acknowledged messages.
- The dropped counter stays 0.
- `seq_num` has been stepped exactly once per delivery.
- Every stored phrase and address is free of line breaks.
- No user header has a reserved name.

`Scenarios` holds client methods. They derive end-to-end runs from the driver's
contracts alone: retry order under k failures, suspension after a failure, and a
stop that leaves the queue undrained.

The model follows the code in these places, which a reader might not expect:
- After a suspension's timed wait, the same loop pass goes on to a delivery attempt
  (lines 455-478). It does not start a new pass.
- Stopping only sets the flag, signals and joins (lines 504-511). Queued messages are
  neither requeued nor acknowledged (`Scenarios.StopLeavesQueued`).
- The suspension deadline is later than the current time only when `time_reopen > 0`.
- A message the server rejects inside a completed session counts as delivered. It is
  stored, acked and not retried (lines 411-426). Only a failed `smtp_start_session`
  keeps the message for a retry.
- `afsmtp_worker_insert` disarms parallel push itself before popping (line 350),
  even when the queue is empty.

## Model

| member | source | states |
|---|---|---|
| Wash.StrLen | syslog-ng-3.4.1/modules/afsmtp/afsmtp.c:95 | the loop bound is the index of the buffer's first NUL: no NUL comes before it, and a NUL stands at it unless the buffer ends there |
| Wash.Washed | syslog-ng-3.4.1/modules/afsmtp/afsmtp.c:90-101 | washing keeps the length and the strlen, turns every '\n' and '\r' of the string into ' ', and leaves every other character, and everything after the terminator, untouched |
| Wash.WashedIdempotent | syslog-ng-3.4.1/modules/afsmtp/afsmtp.c:90-101 | washing twice gives the same buffer as washing once |
| Wash.WashedCString | syslog-ng-3.4.1/modules/afsmtp/afsmtp.c:90-101 | a washed C string is still a C string of the same length, with no line break anywhere |
| Wash.WashString | syslog-ng-3.4.1/modules/afsmtp/afsmtp.c:90-101 | the in-place loop leaves the buffer equal to the washed old buffer |
| Config.AsciiStrCaseCmp | syslog-ng-3.4.1/modules/afsmtp/afsmtp.c:174-180 | the comparison g_ascii_strcasecmp makes of a header name with a reserved name; equal strings compare as 0 |
| Config.StrCaseCmpAntisymmetric | syslog-ng-3.4.1/modules/afsmtp/afsmtp.c:174-180 | swapping the two strings negates the comparison result |
| Config.StrCaseCmpZeroIff | syslog-ng-3.4.1/modules/afsmtp/afsmtp.c:174-180 | g_ascii_strcasecmp returns 0 exactly when the two C strings are equal up to ASCII letter case |
| Config.IsReservedHeader | syslog-ng-3.4.1/modules/afsmtp/afsmtp.c:174-181 | the seven-way strcasecmp test of a header name; only names of 2 to 8 characters, the lengths of the reserved names, can be refused |
| Config.ReservedHeaderByLowerCase | syslog-ng-3.4.1/modules/afsmtp/afsmtp.c:174-181 | a header name is refused exactly when its lower-case form is to, cc, bcc, from, sender, reply-to or date |
| Config.RecipientHeader | syslog-ng-3.4.1/modules/afsmtp/afsmtp.c:235-248 | only TO, CC and REPLY_TO recipients get a header, and its name is To, Cc or Reply-To |
| Config.RecipientHeaderReserved | syslog-ng-3.4.1/modules/afsmtp/afsmtp.c:174-181 | every recipient header name is a reserved name, so no configured user header can share it |
| Config.AddRecipient | syslog-ng-3.4.1/modules/afsmtp/afsmtp.c:229-251 | one recipient adds its address at the end of the envelope; earlier calls are kept; exactly TO, CC and REPLY_TO add one header call, with the mapped name, the phrase and the address |
| Config.AddRecipients | syslog-ng-3.4.1/modules/afsmtp/afsmtp.c:229-251 | every recipient's address goes on the envelope, in list order, and every recipient header is named To, Cc or Reply-To |
| Config.AddRecipientsHeaders | syslog-ng-3.4.1/modules/afsmtp/afsmtp.c:229-251 | each recipient header set comes from some TO/CC/REPLY_TO recipient, and every such recipient has its header set |
| Delivery.Driver.constructor | syslog-ng-3.4.1/modules/afsmtp/afsmtp.c:676-697 | a new driver has empty registries and queue, is neither suspended nor terminating, and holds the initial sequence number |
| Delivery.Driver.SetFrom | syslog-ng-3.4.1/modules/afsmtp/afsmtp.c:133-142 | the sender becomes the washed phrase and washed address, both free of line breaks and of their original lengths |
| Delivery.Driver.AddRcpt | syslog-ng-3.4.1/modules/afsmtp/afsmtp.c:144-157 | exactly one recipient, with the given type and washed phrase and address, is appended; earlier recipients are unchanged |
| Delivery.Driver.AddHeader | syslog-ng-3.4.1/modules/afsmtp/afsmtp.c:168-190 | returns false and leaves the headers unchanged for a reserved name in any letter case; otherwise returns true and appends exactly that header |
| Delivery.Driver.Suspend | syslog-ng-3.4.1/modules/afsmtp/afsmtp.c:216-223 | sets the suspended flag and the deadline time_reopen × 1,000,000 µs after now, later than now when time_reopen > 0; nothing else changes |
| Delivery.Driver.WorkerInsert | syslog-ng-3.4.1/modules/afsmtp/afsmtp.c:339-437 | empty queue: success, parallel push disarmed, queue, logs, counters and seq_num unchanged; success: head removed, rest kept in order, stored +1, seq_num stepped once, head acked; failure: queue, counters and seq_num as before; the invariant is kept |
| Delivery.Driver.WorkerIteration | syslog-ng-3.4.1/modules/afsmtp/afsmtp.c:452-482 | a set terminate flag ends the loop with no change; a suspension is cleared first; a stop during the wait prevents delivery; a pass that reaches delivery leaves parallel push disarmed; a failed delivery suspends from now with the message still first, and otherwise the deadline is kept |
| Delivery.Driver.Queue | syslog-ng-3.4.1/modules/afsmtp/afsmtp.c:642-669 | the message is appended at the tail; parallel push is armed only when the queue was empty and the worker not suspended |
| Delivery.Driver.QueueNotify | syslog-ng-3.4.1/modules/afsmtp/afsmtp.c:631-640 | the notification disarms parallel push |
| Delivery.Driver.StopThread | syslog-ng-3.4.1/modules/afsmtp/afsmtp.c:503-511 | the terminate flag is set and nothing else changes |
| Scenarios.RetryKeepsOrder | syslog-ng-3.4.1/modules/afsmtp/afsmtp.c:422-481 | with k failures then successes, the transport sees a k+1 times and then b; a and b are acked once each, in order; stored is 2, dropped is 0, seq_num was stepped twice |
| Scenarios.FailureSuspends | syslog-ng-3.4.1/modules/afsmtp/afsmtp.c:478-481 | after a failed delivery the worker is suspended until time_reopen seconds later and the message is still queued, unacked |
| Scenarios.StopLeavesQueued | syslog-ng-3.4.1/modules/afsmtp/afsmtp.c:452-476 | once terminate is set no delivery is attempted, and the queued message stays queued and unacked |

## Left out

- Threads and synchronisation: thread start and join, the two mutexes, `g_cond_wait` and `g_cond_timed_wait`, and the wake-up signals. Each wait is a point where the iteration proceeds. The check of queue emptiness in `afsmtp_dd_queue` runs in a separate critical section from the push. That race is not visible in a sequential model.
- libesmtp session handling is reduced to one boolean, the result of `smtp_start_session`. The transfer and recipient statuses are only logged. This covers session and message construction, the default To/From headers, the Subject and body rendering, the user headers' `smtp_set_header` calls, `Hdr_OVERRIDE`, `smtp_start_session`, and the event, monitor and recipient-status callbacks, which only log.
- Template rendering (`log_template_format`, `log_template_append_format`) and template compilation at init are code outside this file.
- LogQueue internals are outside this file. These include when the parallel-push callback fires, `log_msg_add_ack`, `log_msg_break_ack` and reference counting. The model records only the order of `log_msg_ack` calls.
- Delivery.Driver.WorkerInsert: the stored counter is an unbounded `nat`. The width of the `StatsCounterItem` behind `stats_counter_inc` (line 424) is defined outside this file and is not modelled.
- `step_sequence_number` and `init_sequence_number` are not shown. The driver takes the step function and the initial value as parameters. The `gint32` width of `seq_num` is therefore not modelled.
- `g_get_current_time` becomes the parameter `now`. `GTimeVal` normalisation by `g_time_val_add` and the width of its microsecond argument are not modelled: the deadline is an unbounded integer count of microseconds.
- `afsmtp_dd_init` and `afsmtp_dd_deinit` are left out, except for reading `time_reopen`: stats registration, queue acquisition and the stats instance name are host glue.
- Also host glue or memory management: `afsmtp_dd_set_host`, `afsmtp_dd_set_port`, `afsmtp_dd_set_subject`, `afsmtp_dd_set_body`, `ignore_sigpipe`, `afsmtp_dd_free`, and plugin and module registration.
- The members of `afsmtp_rcpt_type_t` are declared in afsmtp.h, which is not part of this model. Types other than TO, CC, BCC and REPLY_TO are `Other(code)`.
- Config.AsciiStrCaseCmp: its non-zero results are differences of character codes, while glib subtracts unsigned bytes. The two differ only for non-ASCII input. Whether the result is zero, the only thing the header check uses, is the same under either reading.
- Delivery.Driver.Queue: the model's queue is unbounded, so a push always appends. The host LogQueue behind `log_queue_push_tail` is not shown and has its own capacity. The no-loss invariant holds only for what that queue accepts.
- Forwarding to `log_dest_driver_queue_method` at the end of `afsmtp_dd_queue` is host code and is left out.
