# NAT idle-timeout test: a Dafny model

The firmware measures how long a NAT (network address translation) binding on a cellular path survives an idle connection. It has two search phases:

- **Growth.** It sends a probe to a test server and waits for the answer. It then sends the next probe after an interval that grows by a configurable multiplier.
- **Bisection.** The first unanswered probe switches the search, for good, to bisecting the bracket between the last answered interval and the first unanswered one. The search ends when the bracket is one second wide, and it reports the lower end as the maximum keep-alive time.

A worker thread runs the test for UDP, for TCP, or for UDP and then TCP. Shell commands configure the search, start and stop the test, and change the radio's system mode.

The model has eight modules:

- `NatTypes` (common.dfy): protocols, test types, run states, shared constants and the C-string view of a character buffer.
- `TimeoutSearch` (search.dfy): the search state, its initialisation, the bisection step and the probe loop. The loop is a step function over one abstract outcome per iteration.
- `ReplyWait` (reply_wait.dfy): the reply wait, as a classifier over the poll events it observes.
- `LinkCheck` (link_check.dfy): the link-recovery wait, as a budget over the registration statuses it reads.
- `IpTokens` (ip_tokens.dfy): the strtok split of the modem's IP-address string.
- `ProbeCycle` (probe_cycle.dfy): one loop iteration built from its raw observations. These are the abort check, the send result, the reply wait and the reconnect.
- `TestRunner` (run_state.dfy): the worker and its start/stop calls as a sequential transition system, plus the network-mode switch.
- `NatCmd` (commands.dfy): the shell handlers that configure and control the test.

The multiplier is a float in the firmware. The model uses an exact ratio `num/den`, and `timeout *= multiplier` becomes the product truncated toward zero, as C's conversion back to `int` does.

The model follows the code as written, including these behaviours:

- **UDP multiplier.** The UDP interval grows by the configured multiplier (default 2) like any other, not by squaring.
- **Unanswered probe during bisection.** This moves the upper bound only. There is no reconnect.
- **Error reply.** A reply containing "error" or "Error" takes the loop's `reconnect` exit. After a successful reconnect the same interval is sent again, so the reply is not fatal (`ProbeCycle.ErrorReplyResends`).
- **Send failure.** `send_data` returns `-ENOTCONN` while the loop compares with `+ENOTCONN`. Every send failure therefore takes the `abort` exit, and the reconnect branch after a send is dead (`ProbeCycle.SendFailureAlwaysAborts`).
- **Setter validation.** The setters warn about an initial timeout ≤ 0 or a multiplier ≤ 1 but store the value anyway. They are not blocked while a test runs. A stored timeout of 0 makes that protocol's search unable to converge (`NatCmd.AcceptedZeroTimeoutNeverConverges`).
- **Lower bound after growth.** When growth overshoots, the lower bound is the last answered interval, not one more than it. With the UDP defaults and a 10-second binding, the bracket after the first silence is [8, 16) (`TimeoutSearch.UdpDefaultsAgainstTenSeconds`).
- **Abort during bisection.** An abort seen while waiting for a reply is read as a missing reply. The bisection step runs first, so a run can still report a result after a stop request (`ProbeCycle.AbortCanStillReport`).
- **Reads that yield nothing.** A wait that keeps waking up to reads that yield nothing never ends. Such wake-ups add no elapsed time and never check the abort flag (`ReplyWait.UnusableReadsNeverDecide`).
- **Unknown test name.** `handle_start_test` answers "Another test is still active" for a test name it does not know.
- **Stop race.** `nat_test_stop` reads the run state and writes ABORT in two separate steps. A worker that finishes its run between them is left in ABORT while idle, and every later start and stop fails (see Findings).
- **Network mode message.** `handle_set_network_mode` prints "Changed network mode" even after refusing the change.

Clocks, sockets and the radio are parameters:

- a poll event list with the elapsed milliseconds each silent slice reports;
- a list of registration statuses;
- a flag for whether `setup_connection` succeeded;
- a flag `settled` for whether the worker finished its run during `nat_test_stop`'s grace sleep.

`ENOTCONN` is a positive parameter.

## Model

| member | source | states |
|---|---|---|
| TimeoutSearch.InitValues | src/nat_test.c:496-514 | A run starts with an empty bracket (lower = upper = 0), in growth, with the protocol's configured initial timeout and multiplier |
| TimeoutSearch.TruncDiv | src/nat_test.c:559 | Integer division truncates toward zero: the remainder has the dividend's sign and is smaller than the divisor |
| TimeoutSearch.Grow | src/nat_test.c:559 | The new interval is the product of interval and multiplier truncated toward zero: the largest integer not above a non-negative product, the smallest not below a negative one |
| TimeoutSearch.BinarySearchStep | src/nat_test.c:478-494 | An unanswered probe moves only the upper bound, an answered one only the lower. The search finishes exactly when the bracket is one wide and then reports the lower bound. Otherwise the next interval lies strictly inside the bracket |
| TimeoutSearch.ProbeStep | src/nat_test.c:534-571 | A read error resends the same interval if the reconnect succeeds, otherwise it ends the run. A send failure or abort ends it through `abort`. A silence switches to bisection for good. A reply in growth sets lower to the interval and grows it. A result is reported only when the bracket closes, and it is the bracket's lower end |
| TimeoutSearch.RunSingle | src/nat_test.c:520-533 | A failed first connection ends the run with no result, and an abort before the first probe ends it through `abort` |
| TimeoutSearch.Drive | src/nat_test.c:534-571 | The loop ends without a result only on an outcome that abandons the run (abort, send failure, failed reconnect), runs out of outcomes only if none does, ends at once on an abort or send failure, and never leaves bisection |
| TimeoutSearch.CeilLog2Monotone | src/nat_test.c:486-491 | The halving bound needed for a bracket grows with its width |
| TimeoutSearch.BisectNarrows | src/nat_test.c:478-494 | A probe during bisection keeps the bracket invariant, stays inside the old bracket and at least halves its width (rounding up). A result always lies inside the old bracket |
| TimeoutSearch.BisectConverges | src/nat_test.c:547-555 | Any sequence of answers and silences at least ceil(log2(gap)) long ends bisection with a result inside the starting bracket |
| TimeoutSearch.PhaseSwitch | src/nat_test.c:550-552 | The first silence in growth either closes a one-wide bracket at once or starts bisection of [lower, timeout] |
| TimeoutSearch.GrowthIncreases | src/nat_test.c:557-560 | With a multiplier above 1 and a large enough interval, the truncated product is strictly larger, and the growth condition holds again |
| TimeoutSearch.GrowthStep | src/nat_test.c:557-560 | A reply in growth moves lower to the interval and strictly increases the interval |
| TimeoutSearch.BisectFindsKeepAlive | src/nat_test.c:478-494 | Against a path whose binding lasts exactly keepAlive seconds, bisection of a bracket containing keepAlive reports keepAlive |
| TimeoutSearch.GrowthFindsKeepAlive | src/nat_test.c:534-560 | From any growing state below keepAlive, the search reports exactly keepAlive after finitely many probes |
| TimeoutSearch.ConfiguredRunFindsKeepAlive | src/nat_test.c:496-560 | Any configuration with a positive initial timeout and a multiplier that grows it finds the path's exact keep-alive time |
| TimeoutSearch.DefaultsFindKeepAlive | src/nat_test.c:31-34 | The default UDP (1 s, ×2) and TCP (300 s, ×1.5) settings find every keep-alive time, both against the path and through nat_test_run_single |
| TimeoutSearch.PathOutcomes | src/nat_test.c:547-555 | A path answers each probe with a reply or a silence, at most one per probe sent |
| TimeoutSearch.DriveIsAgainstPath | src/nat_test.c:534-571 | The loop fed the path's answers ends exactly as the run against the path |
| TimeoutSearch.RunSingleFindsKeepAlive | src/nat_test.c:520-579 | nat_test_run_single, once connected and answered by a path whose binding lasts keepAlive seconds, reports exactly keepAlive for any positive initial timeout with a growing multiplier |
| TimeoutSearch.UdpDefaultsAgainstTenSeconds | src/nat_test.c:534-560 | With the UDP defaults and a 10-second binding, probes of 1, 2, 4 and 8 s are answered, 16 s is not, and bisection starts on [8, 16) with a 12 s probe |
| TimeoutSearch.StalledNeverConverges | src/nat_test.c:486-491 | A state whose interval equals its lower bound and cannot move never reports, whatever answers, silences and reconnects follow |
| TimeoutSearch.ZeroTimeoutNeverConverges | src/nat_test.c:557-560 | An initial timeout of 0 never converges, because 0 times any multiplier is 0 |
| TimeoutSearch.SlowMultiplierStallsAtOne | src/nat_test.c:557-560 | An initial timeout of 1 with a multiplier in [1, 2) truncates back to 1 after the first reply, and the run never reports |
| NatTypes.CString | src/nat_test.c:342-346 | The text strstr and strtok see is the longest NUL-free prefix of the buffer |
| ReplyWait.WaitFrom | src/nat_test.c:316-355 | The reply wait's verdict is -1, 0 or 1, and only once at least one event was seen |
| ReplyWait.PollAndRead | src/nat_test.c:306-356 | poll_and_read answers -1, 0 or 1, needs at least one event, and answers -1 on a poll failure |
| ReplyWait.NoSilenceIsZero | src/nat_test.c:327-330 | Events without an idle slice add no elapsed time |
| ReplyWait.PrefixOfTail | src/nat_test.c:327-330 | Elapsed time of a prefix is the first slice's time plus the rest's |
| ReplyWait.WaitDecidesAt | src/nat_test.c:316-355 | A decided wait was decided by one event that all earlier events let pass within the time budget, and the verdict is that event's code |
| ReplyWait.DecidesAtWait | src/nat_test.c:316-355 | Conversely, the first decisive event within the budget fixes the wait's verdict |
| ReplyWait.PollAndReadCharacterised | src/nat_test.c:316-355 | poll_and_read returns v exactly when some event decides the wait with code v |
| ReplyWait.DecisionIsFinal | src/nat_test.c:316-355 | Events after the deciding one never change the verdict |
| ReplyWait.UnusableReadsNeverDecide | src/nat_test.c:341-354 | Wake-ups whose recv yields nothing usable never end the wait |
| ReplyWait.ErrorMarkerSpellings | src/nat_test.c:346 | Only "error" and "Error" mark an error reply ("ERROR" does not), and a NUL hides what follows it |
| ReplyWait.ReplyClassification | src/nat_test.c:317-352 | A usable reply gives -1 with an error marker and 1 without one. An abort seen while idle gives 0, and a poll failure gives -1 |
| LinkCheck.CheckFrom | src/nat_test.c:388-415 | The link wait answers 0 or -1 |
| LinkCheck.LteConnectionCheck | src/nat_test.c:376-416 | lte_connection_check answers 0 or -1, needs at least one reading, and answers -1 when an abort comes first |
| LinkCheck.AttemptsOfPrefix | src/nat_test.c:395-396 | Attempts used by a prefix are the first status's cost plus the rest's |
| LinkCheck.CheckUpFindsTick | src/nat_test.c:388-404 | A wait that answers 0 read a registered status before any abort and within the reconnect budget |
| LinkCheck.TickMakesCheckUp | src/nat_test.c:388-404 | Conversely, such a reading makes the wait answer 0 |
| LinkCheck.LinkUpCharacterised | src/nat_test.c:376-416 | lte_connection_check answers 0 exactly when a registered status comes before any abort and before the fifth NOT_REGISTERED/REGISTRATION_DENIED reading |
| LinkCheck.FreeStatusesAndAbort | src/nat_test.c:389-401 | Statuses such as SEARCHING cost no attempt, and an abort ends the wait with -1 |
| LinkCheck.BudgetExhausts | src/nat_test.c:388-415 | Five costly readings without abort make the wait answer -1, whatever follows |
| IpTokens.RunLength | src/nat_test.c:219-226 | The leading token ends at the first space or the end of the string |
| IpTokens.Tokens | src/nat_test.c:219-226 | strtok yields no more tokens than the string has characters (the full description is in the lemmas below) |
| IpTokens.SingleToken | src/nat_test.c:219-226 | A non-empty string without spaces is one address |
| IpTokens.Take | src/nat_test.c:221-224 | Keeping at most n items yields a prefix: the whole list when it is short enough, exactly the first n items otherwise |
| IpTokens.Fields | src/nat_test.c:219-226 | Splitting at every space yields at least one field |
| IpTokens.NonEmptyCons | src/nat_test.c:219-226 | Dropping empty fields distributes over a leading field |
| IpTokens.FieldsOfRun | src/nat_test.c:219-226 | The first field is the leading run of non-spaces, and the rest are the fields after the first space |
| IpTokens.TokensAreNonEmptyFields | src/nat_test.c:219-226 | strtok's tokens are exactly the non-empty space-separated fields, in order |
| IpTokens.TokensWellFormed | src/nat_test.c:219-226 | Every token is non-empty and contains no space |
| IpTokens.RunLengthExact | src/nat_test.c:219-226 | A run of non-spaces followed by a space or the end is the leading token |
| IpTokens.SkipDelimiter | src/nat_test.c:219-226 | Leading spaces do not change the tokens |
| IpTokens.TokenAt | src/nat_test.c:219-226 | A maximal run of non-spaces is the next token |
| IpTokens.SkipDelimiters | src/nat_test.c:219 | strtok's skip of leading spaces stops at a non-space or the end and leaves the tokens unchanged |
| IpTokens.TokenEnd | src/nat_test.c:219 | strtok's scan stops at the first space at or after the token start, or at the end |
| IpTokens.SplitIpAddresses | src/nat_test.c:219-228 | The loop stores the first ten tokens of the buffer's text up to its first NUL, in order (all of them if there are fewer), and drops the rest |
| IpTokens.NulEndsAddressList | src/nat_test.c:219 | Characters after the first NUL of the address buffer never reach the address list |
| ProbeCycle.SendData | src/nat_test.c:269-304 | send_data returns 0 exactly on success, -ENOTCONN when the socket send fails and -1 for the modem and encoding failures |
| ProbeCycle.AfterSend | src/nat_test.c:540-545 | The loop proceeds exactly on a non-negative result and jumps to `reconnect` exactly on a negative result equal to ENOTCONN |
| ProbeCycle.SendFailureAlwaysAborts | src/nat_test.c:539-545 | Every send failure takes the `abort` exit, and the `reconnect` exit is unreachable from there |
| ProbeCycle.CycleOutcome | src/nat_test.c:534-555 | An abort at the top comes first, then a send failure, then the reply code decides between read error, silence and reply |
| ProbeCycle.Cycle | src/nat_test.c:534-571 | An abort or a send failure ends the run at once, and otherwise the iteration acts exactly when the reply wait decides |
| ProbeCycle.AbortWhileWaitingStillBisects | src/nat_test.c:547-552 | An abort seen while waiting counts as a silence and still lowers the upper bound |
| ProbeCycle.AbortCanStillReport | src/nat_test.c:550-573 | Every bracket that closes on that silence reports its lower end despite the stop request |
| ProbeCycle.CycleFollowsDecision | src/nat_test.c:547-555 | After a successful send, the iteration takes the step chosen by the event that decides the reply wait: reconnect for an error reply or poll failure, an unanswered probe for a silence or abort, an answered probe for a plain reply |
| ProbeCycle.ErrorReplyResends | src/nat_test.c:547-549 | An error reply followed by a successful reconnect resends the same interval. A failed reconnect ends the run |
| TestRunner.NatTestStart | src/nat_test.c:590-606 | A start is refused (-1) exactly while a run is in progress or aborting, and then changes nothing. Otherwise it records the type and signals the worker |
| TestRunner.NatTestStop | src/nat_test.c:608-626 | Stopping an idle or uninitialised worker succeeds and changes nothing. Otherwise the state becomes ABORT, and the call succeeds exactly when the worker finished its run during the grace sleep |
| TestRunner.Grace | src/nat_test.c:613-618 | After the grace sleep the stop succeeds exactly when the state is IDLE again, which happens only if the worker was in a run and finished it |
| TestRunner.Apply | src/nat_test.c:628-653 | The worker's boot sets IDLE and waits. A wake with a pending start sets RUNNING, consumes the signal and enters the run. A finish sets IDLE and waits. A worker step that cannot happen changes nothing. A start leaves the state and position alone, and a stop leaves the type and signal alone |
| TestRunner.ApplyKeepsConsistent | src/nat_test.c:628-653 | Every control call and worker step keeps the run state in step with the worker's position |
| TestRunner.TraceKeepsConsistent | src/nat_test.c:628-653 | Every state reachable from a consistent one is consistent |
| TestRunner.ReachableConsistent | src/nat_test.c:628-653 | With atomic control calls, every state reachable from boot is consistent and never wedged |
| TestRunner.StartDuringRunRefused | src/nat_test.c:590-595 | A start while the worker is in a run is refused and changes nothing |
| TestRunner.LastStartWins | src/nat_test.c:601-603 | Two starts before the worker wakes both succeed, and the worker runs the later type once |
| TestRunner.StopWhenIdleIdempotent | src/nat_test.c:620-625 | Repeated stops of an idle worker succeed and change nothing |
| TestRunner.StopRetry | src/nat_test.c:610-618 | A stop that times out leaves ABORT, and a retry after the worker finished succeeds |
| TestRunner.RunPlan | src/nat_test.c:581-588 | Each protocol runs at most once. UDP runs exactly when selected, and first. TCP runs exactly when selected alone, or selected together with UDP and the UDP run was not aborted |
| TestRunner.NatTestStopSplit | src/nat_test.c:608-626 | The stop as two steps: with no worker step between read and write it is the atomic stop. After reading RUNNING it leaves ABORT or a finished run, and succeeds exactly when the worker finished during the grace sleep |
| TestRunner.WedgedForever | src/nat_test.c:590-653 | No start, stop or worker step changes a worker left in ABORT with no run and no start pending |
| TestRunner.StopRaceWedges | src/nat_test.c:608-653 | A worker that finishes between the stop's read of RUNNING and its write of ABORT makes the stop fail and leaves a wedged, inconsistent state that no later event leaves |
| TestRunner.WedgedRefusesControl | src/nat_test.c:590-626 | A wedged worker refuses every start and every stop |
| TestRunner.SetNetworkMode | src/nat_test.c:130-151 | An invalid mode is refused first, then any non-idle state is refused. Otherwise the call succeeds and the requested mode is stored |
| NatCmd.HandleSetTimeout | src/nat_cmd.c:70-92 | A missing value prints a notice and changes nothing. A value ≤ 0 is warned about but still stored. Only the protocol named by the parent command changes, and nothing changes for an unknown parent |
| NatCmd.ParentProtocol | src/nat_cmd.c:85-91 | The parent word selects UDP exactly for "udp" and TCP exactly for "tcp" |
| NatCmd.HandleSetMultiplier | src/nat_cmd.c:103-125 | A missing value changes nothing. A value ≤ 1 is warned about but still stored. Only the named protocol's multiplier changes |
| NatCmd.AcceptedZeroTimeoutNeverConverges | src/nat_cmd.c:79-91 | Setting a timeout of 0 warns, and that protocol's next run never reports |
| NatCmd.StartSelector | src/nat_cmd.c:143-149 | The start subcommand selects UDP, TCP or both exactly for "udp", "tcp" and "udp_and_tcp" |
| NatCmd.HandleStartTest | src/nat_cmd.c:139-155 | "Another test is still active" is printed exactly for an unknown test name or a refused start. Otherwise the worker is signalled with the named type |
| NatCmd.HandleStopTest | src/nat_cmd.c:157-165 | "Test stopped" is printed exactly when nat_test_stop succeeds, otherwise "Unable to stop" |
| NatCmd.HandleSetNetworkMode | src/nat_cmd.c:172-184 | An invalid mode or an active test is reported, and "Changed network mode" is printed in every case. A valid mode on an idle worker is stored with no other notice, and the stored mode changes only then |

## Findings

| source | as written | input that shows it | evidently intended | confidence | as-written member | corrected member |
|---|---|---|---|---|---|---|
| src/nat_test.c:610-617 | `nat_test_stop` reads the state in its `switch` and writes ABORT afterwards with a separate `atomic_set` | The worker is RUNNING, the stop reads RUNNING, the worker finishes and sets IDLE (line 652), then the stop writes ABORT. The stop returns -1, and from then on `nat_test_start` and `nat_test_stop` return -1 and no run starts | Replace RUNNING by ABORT in one atomic step (for example `atomic_cas`), so that a worker which has just finished stays IDLE | medium; not executed | TestRunner.StopRaceWedges | TestRunner.ReachableConsistent |

## Left out

- Sockets, name resolution and `setup_connection`: reduced to a flag for whether a connection attempt succeeded, and to abstract send and poll observations.
- JSON payload construction in `create_send_buffer` (cJSON objects, the printed string, the `memcpy` into the send buffer and its length): only the IP-address split is modelled, because the rest is a foreign library.
- The radio control calls (`lte_lc_offline`, `lte_lc_system_mode_set`, `lte_lc_normal`), `lte_handler`, `modem_info` and `nat_test_init`'s hardware setup: they are foreign calls. Registration statuses are an input list.
- Threads, semaphores and atomics: interleavings are sequences of events, and the semaphore is a one-slot flag.
- TestRunner.NatTestStop: control calls are atomic with respect to worker steps, and the rest of the model uses this atomic stop. The window between the stop's read and its write is modelled separately by `TestRunner.NatTestStopSplit` (see Findings). The window between the worker's `k_sem_take` (src/nat_test.c:635) and its write of RUNNING (src/nat_test.c:637) is not modelled: a start there succeeds and queues a second run.
- TestRunner.NatTestStop: the six-second grace sleep is the `settled` input. A start by another caller during the sleep is not modelled.
- Timing: `k_uptime_delta`, `k_sleep`, the per-minute "Elapsed time" log lines and `CONNECTION_TIMEOUT_M`. Elapsed time is an input per idle slice.
- TimeoutSearch.Grow: the multiplier is an exact ratio. Float rounding of `timeout * multiplier` and out-of-range float-to-int conversion are not modelled.
- 32-bit overflow of the interval, of the bracket, and of `(timeout_s + TIMEOUT_TOL_S) * S_TO_MS_MULT` in the reply wait: integers are unbounded.
- `strtol`/`strtof` parsing of shell arguments: the handlers receive the parsed value. `handle_set_network_mode` reads `argv[1]` without checking `argc`, which is not modelled.
- The getters (`handle_get_timeout`, `handle_get_multiplier`, `handle_get_network_mode`, `handle_get_network_state` and their `get_*` helpers): they only print stored values. Note that `get_network_mode` returns the registration state and `get_network_state` the mode.
- AT-command forwarding (`handle_at_cmd`), shell command registration and src/main.c: outside the search engine.
- The worker's branch for an invalid test type: the type is an enumeration of the three valid selectors, so the branch cannot be taken.
- The wait for registration after `set_network_mode` stores a new mode: it is a radio interaction.
- The mismatch between src/nat_test.h's one-argument `nat_test_start` and its two-argument definition: the shell argument only selects where messages are printed.
