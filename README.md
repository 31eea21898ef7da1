# Lancet, modelled in Dafny

Lancet is a distributed load generator with three tiers:

- a **coordinator** (Go) that runs an experiment;
- one **agent manager** per machine (Python) that the coordinator talks to over TCP;
- the **agents** (C worker threads) that send requests to the system under test, parse its responses and record throughput and latency samples.

This project models the logic of all three tiers. Sockets, clocks, random draws, the statistics libraries and floating-point rounding are abstracted into inputs.

What is modelled, by tier:

- **The coordinator protocol** (`coord_proto.dfy`, `manager_proto.dfy`, `go_proto.dfy`):
  - the packed little-endian layouts of `inc/lancet/coord_proto.h`;
  - the manager's `recv_msg` and its `reply_*` encoders;
  - the coordinator's request encoders and its `collect*` reply checks.

  Round trips are proved across the two implementations. So are the exact sizes of every message. The disagreements between the layouts are stated as lemmas.
- **The manager's control plane** (`records.dfy`, `controller.dfy`, `server.dfy`):
  - `LancetController` and `LancetServer` are classes whose methods make the source's ordered state changes.
  - The worker's shared control block and per-thread records are fields.
  - The serve loop ends normally exactly when `process_msg` answers -1; an exception ends it early.
- **Statistics aggregation** (`manager_stats.dfy`, `coord_stats.dfy`):
  - sums, sample pooling, sorting, the confidence-interval brackets and the IID lag search;
  - the coordinator's wrapping sums, truncating means and minimum-reduction loop.

  Spearman, Anderson-Darling, ADF and numpy's percentile are function parameters.
- **The experiment driver** (`coord_parse.dfy`, `coordinator.dfy`):
  - the colon-separated load pattern;
  - the connection wait and load split of `load`;
  - `fixedPattern`;
  - the Load -> Measure -> Exit machine of `fixedQualPattern`, bounded by 10 tries;
  - `stepPattern`.

  The agents' answers are an environment that the driver's `Cluster` records requests against.
- **Worker bookkeeping** (`worker_stats.dfy`, `timestamping.dfy`, `tcp.dfy`, `udp.dfy`):
  - the measurement-gated counters and the two sample rings;
  - `timespec_diff`;
  - the pending transmit-timestamp ring;
  - TCP receive-buffer compaction;
  - round-robin connection and socket claiming.
- **Application protocols** (`app_common.dfy`, `redis.dfy`, `memcache.dfy`, `app_proto.dfy`), for RESP, the memcached text and binary protocols, and the echo and synthetic frames:
  - the response counters. They count exactly the complete replies and leave the incomplete tail.
  - the request builders. What they put on the wire is the command the server expects.
  - the `init_app_proto` dispatch.

The C structures and Python ctypes are modelled with explicit widths (`U8`/`U16`/`U32`/`U64` in `bytes.dfy`). Each place where C, Go or ctypes wraps or truncates an integer is written out.

The latency reply exists in two layouts:

- `inc/lancet/coord_proto.h` declares the 150-octet one, with P50/P90/P95/P99 triplets.
- The manager's `LatencyReply` (agent-manager/manager/proto.py:57-89) is 246 octets. It adds four more triplets.
- `coordinator/stats.go` names those extra fields, which the header does not declare. So the coordinator as shipped cannot build against this header. The model's coordinator reads the header's 150-octet layout (`GoProto.LatencyParse`).

The model keeps both layouts (`CoordProto.LatencyLayout`). The coordinator's aggregation is written for any number of latency fields, and the driver uses the header's 13. `CONN_OPEN` (type 5) is used by both sides but is not declared in the header.

## Model

| member | source | states |
|---|---|---|
| Bytes.TruncDivBounds | coordinator/coordinator.go:80 | Go's integer division leaves a remainder smaller than the divisor with the dividend's sign: the quotient is rounded toward zero |
| Bytes.AtoiOfSignedDecimal | agents/redis.c:101 | atoi reads back a length that "%ld" printed, up to the first non-digit |
| AppCommon.MemchrSpec | agents/redis.c:79 | memchr finds the first occurrence of the byte, and finds none exactly when the buffer holds none |
| CoordProto.DecodeHdr | inc/lancet/coord_proto.h:61-64 | msg_hdr is two 32-bit fields, so whatever eight octets it is read from give a type and a length below 2^32 |
| CoordProto.HdrPrefixOfMsg1 | inc/lancet/coord_proto.h:66-69 | the first eight octets of a packed msg1 are its msg_hdr, and reading a header from a msg1 gives that header back |
| CoordProto.Msg1RoundTrip | inc/lancet/coord_proto.h:66-69 | a packed msg1 with 32-bit fields reads back as itself, whatever bytes follow it |
| CoordProto.Msg2RoundTrip | inc/lancet/coord_proto.h:71-75 | a packed msg2 with 32-bit fields reads back as itself, whatever bytes follow it |
| CoordProto.EncodeThroughput | inc/lancet/coord_proto.h:78-84 | throughput_reply packs to exactly 40 octets |
| CoordProto.ThroughputRoundTrip | inc/lancet/coord_proto.h:78-84 | a throughput_reply whose five fields fit 64 bits reads back as itself |
| CoordProto.LatencyReplySize | inc/lancet/coord_proto.h:86-104 | the C latency_reply (P50 to P99 triplets) packs to 150 octets; the Python one, which adds four more triplets, to 246 |
| CoordProto.DecodeLatency | inc/lancet/coord_proto.h:86-104 | a latency_reply read from enough octets has the field count of its layout and values within each field's width |
| CoordProto.LatencyRoundTrip | inc/lancet/coord_proto.h:86-104 | a latency_reply whose fields fit their widths reads back as itself in either layout |
| CoordProto.ShortReadsExtended | inc/lancet/coord_proto.h:86-104 | a reader of the C layout given the Python layout gets the first 144 octets right, then takes ToReduceSampling, IsIid and IsStationary from the first six octets of P999 lower bound |
| ManagerStats.TotalAppend | agent-manager/manager/stats.py:118-124 | summing a counter over two groups of records and adding equals summing it over all of them |
| ManagerStats.TxPoolAppend | agent-manager/manager/stats.py:93-97 | pooling the TX gaps of two groups of records gives the two pools one after the other |
| ManagerStats.LatPool | agent-manager/manager/stats.py:134-137 | the pool exists exactly when every record is a latency record; otherwise the IncIdx lookup raises AttributeError |
| ManagerStats.LatPart | agent-manager/manager/stats.py:136-137 | one record contributes min(per_thread_samples, IncIdx) samples, capped by the ring size |
| ManagerStats.LatPoolAppend | agent-manager/manager/stats.py:134-137 | pooling the samples of two groups of latency records gives the two pools one after the other |
| ManagerStats.PoolLatencies | agent-manager/manager/stats.py:107-111 | the pooling loop computes the pool of the records in order, or raises as the pool does |
| ManagerStats.PoolTx | agent-manager/manager/stats.py:94-97 | the TX pooling loop computes the pool of the records' TX gaps in order |
| ManagerStats.Insert | agent-manager/manager/stats.py:78 | inserting adds exactly one element and keeps all the others (a multiset union) |
| ManagerStats.InsertSorted | agent-manager/manager/stats.py:78 | inserting into a list sorted by the key keeps it sorted |
| ManagerStats.SortBySorted | agent-manager/manager/stats.py:78 | list.sort(key=...) yields a list ordered by the key that is a permutation of its input |
| ManagerStats.SortByStable | agent-manager/manager/stats.py:78 | list.sort is stable: the samples sharing a key come out in the order they went in |
| ManagerStats.Latencies | agent-manager/manager/stats.py:79 | the series has one latency per sample, in the same order |
| ManagerStats.CheckInterarrival | agent-manager/manager/stats.py:93-104 | the verdict is the Anderson-Darling test on the pooled TX gaps; a True verdict implies some record contributed a gap |
| ManagerStats.NonEmptyPoolHasPart | agent-manager/manager/stats.py:95-101 | a non-empty TX pool has a record that contributed to it |
| ManagerStats.AggregateThroughput | agent-manager/manager/stats.py:118-128 | the aggregate is each counter summed over all records plus the inter-arrival verdict |
| ManagerStats.LagSearch | agent-manager/manager/stats.py:86-91 | the lag the loop ends on is always one of the listed lags, never 0 |
| ManagerStats.IidVerdict | agent-manager/manager/stats.py:80-91 | the series is IID exactly when the reported lag is 0 |
| ManagerStats.LagSearchSkips | agent-manager/manager/stats.py:86-89 | once the first k lags have failed, the search ends where a search starting at lag k ends |
| ManagerStats.LagSearchFirst | agent-manager/manager/stats.py:86-91 | the search returns the first lag whose test passes, or 1000 when none before it passes, whether or not 1000 passes |
| ManagerStats.SearchLag | agent-manager/manager/stats.py:86-91 | the loop with its early break returns the lag the search specifies |
| ManagerStats.CheckIid | agent-manager/manager/stats.py:68-91 | no records gives (False, -1); otherwise the pool (or its exception) ordered by send instant decides the verdict |
| ManagerStats.CheckStationarity | agent-manager/manager/stats.py:106-116 | the verdict is adfuller's statistic < 0 on the pooled series ordered by send instant; pooling and adfuller exceptions propagate |
| ManagerStats.Ceil | agent-manager/manager/stats.py:63 | math.ceil returns the least integer not below its argument |
| ManagerStats.CiIndices | agent-manager/manager/stats.py:59-64 | the two bracket indices satisfy j <= size*p < k, so j < k |
| ManagerStats.GetCiOrdered | agent-manager/manager/stats.py:58-66 | on a sorted pool, in-range indices give lower bound <= upper bound, and an out-of-range index gives 0 |
| ManagerStats.AggregateLatency | agent-manager/manager/stats.py:130-159 | the method computes the latency summary step by step, stopping at the first exception |
| ManagerStats.AggregateLatencyFacts | agent-manager/manager/stats.py:130-159 | a record without IncIdx raises AttributeError and an empty pool raises ValueError; a summary has 13 latency fields, the aggregate throughput, and an IID flag that holds exactly when the lag is 0, with the lag otherwise one of the listed ones |
| ManagerStats.SumBounds | agent-manager/manager/stats.py:145 | a sum of n values between lo and hi lies between n*lo and n*hi |
| ManagerStats.MeanWithinRange | agent-manager/manager/stats.py:144-145 | the truncated mean of a sorted, non-empty pool of non-negative latencies lies between its first and last sample |
| ManagerProto.ParseMsg | agent-manager/manager/proto.py:100-136 | recv_msg consumes nothing more than the stream holds; an empty stream (and only that) gives Closed; a short header or payload or an unknown type raises AssertionError; a message it returns consumed the header plus exactly its type's payload |
| ManagerProto.ParseMsgOfFrame | agent-manager/manager/proto.py:100-136 | a header of a known type followed by its payload reads back as the message the payload carries, consuming exactly those octets |
| ManagerProto.ParseMsgUnknownType | agent-manager/manager/proto.py:134-135 | a header of a type recv_msg does not know raises AssertionError after consuming the header, whatever follows |
| ManagerProto.AckMsg | agent-manager/manager/proto.py:138-143 | the ACK is one 12-octet msg1 |
| ManagerProto.ValueMsg | agent-manager/manager/proto.py:145-150 | the value reply is a 12-octet msg1 that reads back as REPLY, length 4, and the value's low 32 bits |
| ManagerProto.ThroughputReplyOf | agent-manager/manager/proto.py:157-162 | every field fits 64 bits, and CorrectIAD is 1 exactly when the inter-arrival check passed |
| ManagerProto.LatencyReplyOf | agent-manager/manager/proto.py:174-207 | the structure fits the C latency_reply layout, with IsIid and IsStationary 1 exactly when the verdicts hold |
| ManagerProto.LatencyAttributes | agent-manager/manager/stats.py:145-157 | the summary object has each of the 13 latency attributes reply_latency reads first |
| ManagerProto.ReplyLatencyAsWritten | agent-manager/manager/proto.py:169-212 | reply_latency raises AttributeError exactly when its argument lacks one of the attributes it reads; otherwise it sends a 12-octet header and the 246-octet Python layout |
| ManagerProto.ReplyLatencyAsWrittenRaises | agent-manager/manager/proto.py:193 | every summary aggregate_latency builds lacks P999i, so reply_latency as written always raises AttributeError |
| ManagerProto.LancetProto.Recv | agent-manager/manager/proto.py:101 | conn.recv(n) returns the first min(n, available) octets and consumes them |
| ManagerProto.LancetProto.RecvMsg | agent-manager/manager/proto.py:100-136 | the message and the consumed octets are those of ParseMsg; START_LOAD and START_MEASURE append one ACK; end of stream closes the connection |
| ManagerProto.LancetProto.ReplyAck | agent-manager/manager/proto.py:138-143 | appends the ACK message and changes nothing else |
| ManagerProto.LancetProto.ReplyValue | agent-manager/manager/proto.py:145-150 | appends the value message and changes nothing else |
| ManagerProto.LancetProto.ReplyThroughput | agent-manager/manager/proto.py:152-167 | appends the throughput report and changes nothing else |
| ManagerProto.LancetProto.ReplyLatency | agent-manager/manager/proto.py:169-212 | appends the corrected latency report and changes nothing else |
| ManagerProto.LancetProto.Close | agent-manager/manager/proto.py:214-215 | closes the connection and changes nothing else |
| ManagerProto.ThroughputReport | agent-manager/manager/proto.py:152-167 | the report is a 12-octet header and the 40-octet structure |
| ManagerProto.LatencyReport | agent-manager/manager/proto.py:169-212 | the corrected report is a 12-octet header and the 150-octet C layout |
| ManagerProto.LatencyReplyReadBack | agent-manager/manager/proto.py:169-212 | a reader of the C latency_reply recovers from the corrected report the REPLY_STATS_LATENCY type and the summary it was built from |
| ManagerProto.ThroughputReplyReadBack | agent-manager/manager/proto.py:152-167 | a reader of throughput_reply recovers from the report the REPLY_STATS_THROUGHPUT type and the structure it was built from |
| Records.ZeroRecord | agent-manager/manager/agentcontroller.py:64-93 | a freshly mapped record has every counter and the TX count at zero, and has the latency ring (with IncIdx 0) exactly when it is a latency record |
| Controller.FirstReady | agent-manager/manager/agentcontroller.py:108-115 | the attempt the launch loop stops at is the first one in range at which the control block exists, and there is none exactly when it never exists |
| Controller.SegmentsMapped | agent-manager/manager/agentcontroller.py:121-131 | the records mapped are those of the leading run of existing segments, stopping at the first missing one |
| Controller.SegmentsMappedIs | agent-manager/manager/agentcontroller.py:121-131 | with the first t segments present and segment t missing (or t the thread count), exactly t records are mapped |
| Controller.Cleared | agent-manager/manager/agentcontroller.py:166-175 | clear_stats zeroes the four counters and the TX count, and IncIdx only for a latency agent; the samples stay as they were |
| Controller.ClearAll | agent-manager/manager/agentcontroller.py:166-175 | clearing keeps one record per thread |
| Controller.ClearedReportsNothing | agent-manager/manager/agentcontroller.py:166-175 | after clear_stats every counter sums to zero, no TX gap is pooled, and a latency agent's records pool no latency sample |
| Controller.IntervalsGiveLoad | agent-manager/manager/agentcontroller.py:136-140 | the threads' per-thread rates add back up to the requested load |
| Controller.LancetController.constructor | agent-manager/manager/agentcontroller.py:97-101 | a new controller has no records, no load calls, and a running agent |
| Controller.LancetController.LaunchAgent | agent-manager/manager/agentcontroller.py:103-133 | no control block after ten tries, or an unknown agent type, raises AssertionError; otherwise one zeroed record of the agent type's shape is mapped per thread up to the first missing segment, which raises ExistentialError |
| Controller.LancetController.StartLoad | agent-manager/manager/agentcontroller.py:136-141 | measuring is switched off first; a zero thread count or load raises ZeroDivisionError before any other change; otherwise each thread's interval is passed to set_avg_ext and loading is switched on |
| Controller.LancetController.StartMeasure | agent-manager/manager/agentcontroller.py:143-148 | the records are cleared; a zero thread count then raises ZeroDivisionError; otherwise the per-thread sample count is truncated and wrapped to 32 bits, the rate is stored as a fraction, and measuring is switched on |
| Controller.LancetController.GetConnOpen | agent-manager/manager/agentcontroller.py:150-151 | returns the control block's conn_open |
| Controller.LancetController.Terminate | agent-manager/manager/agentcontroller.py:153-154 | kills the agent and changes nothing else |
| Controller.LancetController.AgentWrites | agent-manager/manager/agentcontroller.py:116-131 | the records mapped MAP_SHARED become what the agent's threads have written by the given request, in thread order, one per thread; the control block, the load calls and the agent's status are unchanged |
| Controller.LancetController.GetStats | agent-manager/manager/agentcontroller.py:156-158 | switches measuring off and returns the records unchanged |
| Controller.LancetController.CheckAgent | agent-manager/manager/agentcontroller.py:160-161 | returns the agent's exit status, if it has ended |
| Controller.LancetController.GetPerThreadSamples | agent-manager/manager/agentcontroller.py:163-164 | returns the control block's sample count |
| Controller.LancetController.ClearStats | agent-manager/manager/agentcontroller.py:166-175 | every record becomes its cleared form and nothing else changes |
| Server.ThroughputReportAt | agent-manager/manager/lancet.py:100-104 | the throughput reply is a 12-octet header and the 40-octet structure |
| Server.LatencyReportAt | agent-manager/manager/lancet.py:106-114 | the latency reply is a 12-octet header and the 150-octet C layout |
| Server.LancetServer.constructor | agent-manager/manager/lancet.py:67-71 | a new server has a fresh controller with no records and a running agent, no connection and no measurement times |
| Server.LancetServer.ProcessMsg | agent-manager/manager/lancet.py:91-122 | the answer and the new control block, records, set_avg_ext calls, start and end times and connection output are ProcessSpec's for that request: start_load stops measuring and records one interval per call or raises ZeroDivisionError, start_measure clears the records and takes the start time, report 0 and 1 stop measuring, set the end time and send their reply (a latency aggregation that raised ValueError answers -1 after measuring is switched off and the end time set), conn_open sends the flag, end of stream and an unknown report kind answer -1 and change nothing |
| Server.LancetServer.ServeStartLoad | agent-manager/manager/lancet.py:92-93 | start_load: measuring off, loading on with each thread's interval recorded, or ZeroDivisionError with no load call |
| Server.LancetServer.ServeStartMeasure | agent-manager/manager/lancet.py:94-96 | start_measure clears the records; on success measuring is on with the rate as a fraction and the start time is now; a zero thread count raises ZeroDivisionError and leaves the start time |
| Server.LancetServer.ServeThroughputReport | agent-manager/manager/lancet.py:99-104 | measuring is switched off and the end time set; without a start time the duration raises AttributeError and nothing is sent; otherwise the aggregate over the unchanged records is sent |
| Server.LancetServer.SendThroughputReport | agent-manager/manager/lancet.py:103-104 | sends the throughput reply over the time since the start, or raises AttributeError without sending when there is no start time |
| Server.LancetServer.ServeLatencyReport | agent-manager/manager/lancet.py:105-114 | a ValueError from the aggregation stops the session, any other exception propagates, a missing start time raises AttributeError; only a summary with a start time is sent, in the C layout |
| Server.LancetServer.SendLatencyReport | agent-manager/manager/lancet.py:108-114 | sends the latency reply, or maps the aggregation's exception (ValueError to -1) without sending |
| Server.LancetServer.Run | agent-manager/manager/lancet.py:73-89 | launch_agent's exception ends run before any connection; otherwise the result and the final session are ServeSpec's over the octets received, from the launched records and an empty output, each request being processed on the records as the agent's threads have written them by then (any writer), and the run ends normally, with the connection closed and the agent killed, exactly when it did not end by an exception |
| Server.ProcessSpecAnswers | agent-manager/manager/lancet.py:91-122 | process_msg answers 0 or -1 when it does not raise, and -1 exactly for end of stream, an unknown report kind, or a latency aggregation that raised ValueError |
| Server.ProcessSpecSends | agent-manager/manager/lancet.py:99-122 | process_msg only appends to what was sent on the connection, and a -1 answer sends nothing |
| Server.ProcessSpecRecords | agent-manager/manager/lancet.py:92-96 | only start_measure changes the records, by clearing them, and only start_load adds a set_avg_ext call, exactly one |
| Server.ManagerProcessorFacts | agent-manager/manager/lancet.py:91-122 | the manager's process_msg answers -1 at end of stream, answers only 0 or -1, and only appends to the output |
| Server.ServeStopsAtFirstStop | agent-manager/manager/lancet.py:77-87 | for such a process_msg, every request run serves is answered 0 except the last; a normal end was a -1 answer; an exception was raised by the last request or by the read after a 0 answer |
| Server.ServeOnlyAppends | agent-manager/manager/lancet.py:77-87 | the loop's output extends the output it started from |
| Server.ManagerServes | agent-manager/manager/lancet.py:77-87 | the manager's run serves requests answered 0 up to the -1 that ends it, and what it sends extends what was sent before |
| Server.LancetServer.ServeTurnAt | agent-manager/manager/lancet.py:78-80 | one turn reads a request, acknowledges it, processes it on the records as the agent has written them and either ends with ServeSpec's outcome or leaves the rest of the octets and the session ServeSpec goes on from |
| Server.LancetServer.ServeConnection | agent-manager/manager/lancet.py:76-89 | the loop over a fresh connection ends with ServeSpec's result and session; a normal end closes the connection and kills the agent, an exception leaves it running |
| GoProto.StartLoadMsg | coordinator/proto.go:191-203 | startLoad's request is one 12-octet msg1 |
| GoProto.StartMeasureMsg | coordinator/proto.go:216-235 | startMeasure's request is a header, a 32-bit count and an 8-octet double: 20 octets |
| GoProto.ReportMsg | coordinator/proto.go:247-259 | a report request is one 12-octet msg1 |
| GoProto.ConnOpenMsg | coordinator/proto.go:287-299 | the conn_open request is one 12-octet msg1 |
| GoProto.Msg1RequestParsed | coordinator/proto.go:191-203 | the manager reads any 12-octet request of a type it knows as the message its Info carries, consuming exactly the twelve octets |
| GoProto.StartLoadParsed | coordinator/proto.go:191-203 | the manager reads startLoad's request as START_LOAD with the load cut to 32 bits |
| GoProto.ReportParsed | coordinator/proto.go:247-259 | the manager reads a report request as REPORT_REQ with its kind |
| GoProto.ConnOpenParsed | coordinator/proto.go:287-299 | the manager reads the conn_open request as its conn_open message |
| GoProto.StartMeasureParsed | coordinator/proto.go:216-235 | the manager reads startMeasure's request back: the count cut to 32 bits and the rate's bit pattern, consuming twenty octets |
| GoProto.Broadcast | coordinator/proto.go:37-48 | the broadcast loop returns the first write error, panics on the first short write, and succeeds exactly when every agent took the whole message |
| GoProto.BroadcastFailStays | coordinator/proto.go:37-48 | once the agents up to some point have failed, later agents do not change the outcome |
| GoProto.Buffer | coordinator/proto.go:56-57 | binary.Read sees exactly the buffer's size: the octets read followed by make()'s zeros |
| GoProto.CollectSpecValues | coordinator/proto.go:50-158 | a collection succeeds exactly when every agent's read and parse succeed, and then holds each agent's reply at its index |
| GoProto.CollectFailStays | coordinator/proto.go:50-158 | once an agent's reply has failed, later agents do not change the outcome |
| GoProto.Collect | coordinator/proto.go:50-158 | the shared read-and-parse loop returns the replies in agent order or the first failure |
| GoProto.CollectAcks | coordinator/proto.go:50-71 | collectAcks succeeds exactly when every agent's buffer reads as a msg1 with Info REPLY_ACK |
| GoProto.CollectValues | coordinator/proto.go:73-94 | collectValues returns each agent's Info in agent order, or the first failure |
| GoProto.CollectThroughputResults | coordinator/proto.go:96-125 | returns each agent's throughput_reply after a REPLY_STATS_THROUGHPUT header, or the first failure |
| GoProto.CollectLatencyResults | coordinator/proto.go:127-158 | returns each agent's latency_reply (C layout) after a REPLY_STATS_LATENCY header, or the first failure |
| GoProto.StartLoad | coordinator/proto.go:191-214 | a failed broadcast is returned as is; otherwise startLoad succeeds exactly when every agent acknowledges |
| GoProto.StartMeasure | coordinator/proto.go:216-245 | a failed broadcast is returned as is; otherwise startMeasure succeeds exactly when every agent acknowledges |
| GoProto.ReportThroughput | coordinator/proto.go:247-265 | the broadcast's failure, or else the collection of throughput replies |
| GoProto.ReportLatency | coordinator/proto.go:267-285 | the broadcast's failure, or else the collection of latency replies |
| GoProto.CheckConnOpen | coordinator/proto.go:287-314 | the broadcast's or collection's failure; otherwise true exactly when every agent reports a non-zero conn_open |
| GoProto.AllOpen | coordinator/proto.go:308-313 | the scan is true exactly when no count is zero |
| GoProto.AckAccepted | coordinator/proto.go:50-71 | the manager's ACK passes collectAcks whatever follows it in the read |
| GoProto.ValueAccepted | coordinator/proto.go:73-94 | collectValues reads the manager's value reply as the value cut to 32 bits |
| GoProto.ThroughputAccepted | coordinator/proto.go:96-125 | collectThroughputResults reads the manager's throughput reply as the structure the manager filled |
| GoProto.LatencyAccepted | coordinator/proto.go:127-158 | collectLatencyResults reads the corrected latency reply as the structure the manager filled |
| CoordStats.ThroughputSumAppend | coordinator/stats.go:34-39 | summing a field over two groups of agents equals summing each group and adding |
| CoordStats.ThroughputSumBound | coordinator/stats.go:34-39 | when no agent's field exceeds hi, the sum is at most the agent count times hi |
| CoordStats.ComputeStatsThroughput | coordinator/stats.go:32-43 | no replies panics at replies[0]; otherwise each of the four counters is the sum over all agents wrapped to 64 bits, and Duration is the first agent's |
| CoordStats.MinToReduce | coordinator/stats.go:103-110 | the result is at most 1000000 and at most every agent's ToReduceSampling, and it is 1000000 or one of those values |
| CoordStats.SmallestReduction | coordinator/stats.go:104-109 | the minimum loop computes the smallest ToReduceSampling, starting from 1000000 |
| CoordStats.AddFields | coordinator/stats.go:49-73 | the field-wise += keeps the number of fields |
| CoordStats.DivFields | coordinator/stats.go:77-101 | the field-wise /= keeps the number of fields |
| CoordStats.SumStep | coordinator/stats.go:47-76 | adding one more reply to the wrapped sums of the replies before it gives the wrapped sums including it, uint64 for latencies and uint8 for the two verdicts |
| CoordStats.SumLatencies | coordinator/stats.go:47-76 | the summing loop leaves each latency field's sum wrapped to 64 bits and the IsIid and IsStationary sums wrapped to 8 bits |
| CoordStats.ComputeStatsLatency | coordinator/stats.go:45-113 | no replies panics in the division; otherwise Th_data stays zero, each latency field is the wrapped sum divided by the reply count, the verdicts are wrapped sums, and ToReduceSampling is the smallest asked for exactly when the IsIid sum is 0 and 0 otherwise |
| CoordStats.TruncMeanBounds | coordinator/stats.go:77-101 | a truncating mean of n values within [lo, hi] lies within [lo, hi] |
| CoordStats.LatSumBounds | coordinator/stats.go:49-73 | a latency field's sum over n replies whose values lie in [lo, hi] lies in [n*lo, n*hi] |
| CoordStats.LatencyMeanWithinRange | coordinator/stats.go:45-101 | without wrap-around, the aggregated latency field lies between the smallest and the largest value the agents reported |
| CoordStats.GetLatCISize | coordinator/stats.go:142-148 | percentile 99 gives the first agent's P99_k - P99_i as a wrapped uint64 difference read as an int (the true difference when it fits); any other percentile, or no replies, panics |
| CoordParse.Split | coordinator/coordinator.go:409 | strings.Split gives at least one piece, and no piece holds the separator |
| CoordParse.JoinSplit | coordinator/coordinator.go:409 | joining the pieces of a split with the separator gives the pattern back |
| CoordParse.SplitJoin | coordinator/coordinator.go:409 | splitting a join of separator-free pieces gives the pieces back |
| CoordParse.GoAtoi | coordinator/coordinator.go:418-455 | a number strconv.Atoi accepts lies in the int64 range |
| CoordParse.NatString | coordinator/coordinator.go:418-455 | the rendering of n is a non-empty run of digits whose value is n |
| CoordParse.AtoiItoa | coordinator/coordinator.go:418-455 | Atoi reads back every int64 that Itoa renders |
| CoordParse.ItoaHasNoColon | coordinator/coordinator.go:409-418 | a rendered integer holds no colon, so it survives the split of the pattern |
| CoordParse.ParseOptions | coordinator/coordinator.go:422-435 | the optional samples and sampling-rate tokens either keep the plan or fail with the matching parse error |
| CoordParse.ParsePattern | coordinator/coordinator.go:409-473 | the pattern is refused as unknown exactly when its first token is none of fixed, fixedQual, fixedSteady, step and stepQual |
| CoordParse.FixedPatternParses | coordinator/coordinator.go:417-428 | "fixed:load:samples" reads back as a fixed plan at that load with that sample count and the initial sampling rate 20 |
| CoordParse.StepPatternParses | coordinator/coordinator.go:443-456 | "step:start:end:step" reads back as a step plan with those three loads, 10000 samples and sampling rate 20 |
| Coordinator.LatencyAnswer | coordinator/proto.go:267-285 | latency reports the agents answer carry the coordinator's 13 latency fields |
| Coordinator.PollLoopGivesUp | coordinator/coordinator.go:62-72 | the poll loop ends with false exactly when every one of its polls answered false |
| Coordinator.LoadGivesUp | coordinator/coordinator.go:59-76 | load reports closed connections exactly when all 60 check_conn_open polls answered false |
| Coordinator.LoadSendsShares | coordinator/coordinator.go:78-93 | a successful load has sent the symmetric and throughput agents the load rate divided (truncating) by their number, and its last request sends the latency agents the latency rate |
| Coordinator.LoadErrors | coordinator/coordinator.go:59-94 | load fails only with an agent error or with closed connections |
| Coordinator.ThData | coordinator/coordinator.go:154-157 | the throughput blocks of the latency replies, one per reply |
| Coordinator.FixedNeedsAgents | coordinator/coordinator.go:96-101 | fixedPattern fails with "There are no agents" exactly when all three agent lists are empty, and then sends nothing |
| Coordinator.LoadStep | coordinator/coordinator.go:180-213 | a Load turn either goes round again, retrying or moving on with the sampling rate kept, or returns with its state unchanged |
| Coordinator.LoadLeavesOnlyOnTarget | coordinator/coordinator.go:199-213 | the Load state moves to Measure exactly when the throughput report came back with a rate within 0.9 to 1.1 times the expected one and a non-zero CorrectIAD |
| Coordinator.MeasureStep | coordinator/coordinator.go:214-302 | a Measure turn either goes round again with a retry counted, or moves on, or returns with its state unchanged |
| Coordinator.MeasureRetriesOnlyWhenNotIid | coordinator/coordinator.go:237-265 | a Measure turn retries only when the latency summary is not IID, the sampling rate is at least 0.01 and the duration is within 900 seconds; it counts a try and divides the rate by ToReduceSampling |
| Coordinator.MeasureExitsWhenSettled | coordinator/coordinator.go:237-302 | Measure moves to Exit only within 900 seconds and when the summary is IID or the rate is below 0.01; tries and rate are kept |
| Coordinator.MaxTimeStops | coordinator/coordinator.go:228-299 | past 900 seconds a Measure turn always returns |
| Coordinator.QualStepOf | coordinator/coordinator.go:179-307 | every turn of fixedQualPattern's switch that goes round again is a retry or a move forward |
| Coordinator.QualRunOutcome | coordinator/coordinator.go:172-313 | fixedQualPattern never counts beyond 10 tries, reports the retry limit exactly when it reached 10, and returns nil only from Exit |
| Coordinator.StepLoadsTerms | coordinator/coordinator.go:373-394 | the loads of stepPattern are start + i * step, each at most end, and the next term is past end |
| Coordinator.Coordinator.LoadAgents | coordinator/coordinator.go:59-94 | the polls and startLoad calls sent, and the error returned, are those of the load specification |
| Coordinator.Coordinator.FixedPattern | coordinator/coordinator.go:96-170 | the requests sent and the error returned are those of the fixedPattern specification |
| Coordinator.Coordinator.LoadTurn | coordinator/coordinator.go:180-213 | one Load turn does what the Load step specification says |
| Coordinator.Coordinator.MeasureTurn | coordinator/coordinator.go:214-302 | one Measure turn does what the Measure step specification says |
| Coordinator.Coordinator.FixedQualPattern | coordinator/coordinator.go:172-313 | the loop ends as the specified run of turns from Load with no tries and the current sampling rate |
| Coordinator.Coordinator.StepPattern | coordinator/coordinator.go:373-394 | the loop runs the chosen pattern at exactly the loads of the progression, in order, each run starting from the state, sampling rate and sent requests the previous one left (StepSpec over StepLoads), and returns nil, dropping the errors of single runs |
| Coordinator.Coordinator.StepRun | coordinator/coordinator.go:378-383 | one load runs fixedPattern for "step" and fixedQualPattern from Load otherwise: the new state, sampling rate and sent requests are StepRunSpec's, i.e. FixedSpec's trace or QualRun's final configuration |
| Coordinator.StepFixedKeepsRate | coordinator/coordinator.go:378-380 | under "step" every load runs at the sampling rate the pattern started with and the state is untouched; only fixedQualPattern adapts the rate from load to load |
| Coordinator.Coordinator.RunExp | coordinator/coordinator.go:407-476 | the sample count and rate are reset and read from the pattern; a refused pattern returns its error with nothing sent; fixed runs fixedPattern (FixedSpec), fixedQual and fixedSteady run fixedQualPattern (QualRun), and the step patterns return nil after the requests StepSpec sends over the progression at the parsed rate; without latency agents the latency rate is 0 |
| Coordinator.Coordinator.RunFixed | coordinator/coordinator.go:417-442 | the fixed branch of runExp as the parsed pattern says |
| Coordinator.Coordinator.RunStep | coordinator/coordinator.go:443-471 | the step branch of runExp: a refused pattern returns its error with nothing sent, otherwise nil with the state, rate and sent requests of StepSpec over the loads from start to end by step |
| Coordinator.Coordinator.ReadOptions | coordinator/coordinator.go:422-435 | the sample count and sampling rate left behind are those the option parser reads, with the matching error |
| WorkerStats.TimespecDiff | agents/timestamping.c:321-341 | no difference (-1) exactly when a time is missing or has tv_sec 0; otherwise the difference in nanoseconds is a - b, and it is normalised when a and b are |
| WorkerStats.RingSlotsDistinct | agents/stats.c:155-156 | the last n positions of the history fall in distinct ring slots |
| WorkerStats.RingPush | agents/stats.c:137-140 | writing the next entry at its slot keeps the ring holding the last n entries |
| WorkerStats.WrapIndex | agents/stats.c:155-156 | a counter that wraps at 2^32 picks the same slot of a ring whose size divides 2^32 as the unbounded count |
| WorkerStats.AddPair | agents/stats.c:116-117 | the counters stay within uint64 |
| WorkerStats.AddAllIsSum | agents/stats.c:111-131 | however the additions are spread over calls, the byte and request counters hold the totals modulo 2^64 |
| WorkerStats.ThreadStats.constructor | agents/stats.c:49-98 | the statistics start zeroed with empty histories |
| WorkerStats.ThreadStats.AddThroughputTx | agents/stats.c:111-120 | the transmit counters grow by the pair (wrapping) only while measuring; nothing else changes |
| WorkerStats.ThreadStats.AddThroughputRx | agents/stats.c:122-131 | the receive counters grow by the pair (wrapping) only while measuring; nothing else changes |
| WorkerStats.ThreadStats.AddTxTimestamp | agents/stats.c:133-147 | the previous timestamp always moves on; when the draw fires and the difference exists, the gap is recorded in the next slot of the ring, and otherwise the ring is unchanged |
| WorkerStats.ThreadStats.AddLatencySample | agents/stats.c:149-164 | while measuring, the selector counts (wrapping at 2^32); every period-th call records the latency in the next ring slot, with the transmit time when one is given |
| WorkerStats.LatestLatencyAtSlot | agents/stats.c:155-162 | once the ring is full, each slot holds the latest latency that maps to it |
| Timestamping.Matched | agents/timestamping.c:248-270 | a matched reading is one of the readings and is not older than the send at the tail |
| Timestamping.PendingTx.constructor | agents/tp_tcp.c:148-152 | a zeroed ring of the given size, with all counters 0 |
| Timestamping.PendingTx.AddPending | agents/timestamping.c:285-291 | the byte counter grows by the send (wrapping at 2^32), and the slot at head gets that counter as its key before head moves on |
| Timestamping.PendingTx.Pop | agents/timestamping.c:293-305 | the oldest stamped slot not yet taken, or none when every stamped slot was taken |
| Timestamping.PendingTx.PushComplete | agents/timestamping.c:307-319 | the slot at the tail gets the time and no other slot changes, head and tail both move on, the time becomes the previous transmit timestamp with its gap recorded when sampled, and the receive, transmit and latency counters, the increment index and the selector are unchanged |
| Timestamping.PendingTx.StampUpTo | agents/timestamping.c:272-281 | from the tail on, every send keyed at most the key gets the reading's time, the loop ending at the send keyed exactly the key or before a slot keyed after it; where the walk reaches the head with the slot there keyed at most the key it reports PastHead (the C loop goes on past the head); keys are unchanged, every slot off the walk is unchanged, the previous transmit time is the reading's, and the recorded gaps grow by exactly WalkGaps of the stamps made, nothing else in the stats changing |
| Timestamping.PendingTx.StampTail | agents/timestamping.c:274-276 | one stamp: the send at the tail gets the time and no other slot changes, add_tx_timestamp records the gap when sampled, the tail moves on, no key changes and the stats counters are unchanged; the walk so far stays stamped, keyed at most the key and free of it while the stamped key is, and its gaps stay WalkGaps of its stamps |
| Timestamping.WalkGapsZeroAfterFirst | agents/timestamping.c:273-281 | a walk records at most one gap per stamp, and every gap but the first call's is zero, the first being the time since the previous transmit timestamp |
| Timestamping.PendingTx.GetTxTimestamp | agents/timestamping.c:228-283 | 0 exactly when no send is pending or no usable reading arrives, and then nothing changes; otherwise 1 (or PastHead), with the sends from the tail up to the one keyed after the reading stamped with its time, every slot off that walk unchanged, the recorded gaps grown by WalkGaps of those stamps, and the received, transmitted and latency records unchanged |
| Tcp.TcpConnection.Unparsed | agents/tp_tcp.c:350-362 | the unparsed bytes are the first buffer_idx bytes of the buffer |
| Tcp.TcpConnection.constructor | agents/tp_tcp.c:222-229 | a connection starts open, with no request in flight and an empty buffer |
| Tcp.TcpConnection.Sent | agents/tp_tcp.c:329 | one more request in flight, in the 16-bit counter |
| Tcp.TcpConnection.Receive | agents/tp_tcp.c:350-362 | an empty read marks the connection closed and keeps the buffer; otherwise the data is appended to the unparsed bytes |
| Tcp.TcpConnection.HandleResponse | agents/tp_tcp.c:237-271 | a parser result with nothing consumed while there is room, or with between 1 and buffer_idx bytes and at least one request, is returned and exactly the unconsumed bytes are kept at the front; any other result aborts |
| Tcp.TcpConnection.Compact | agents/tp_tcp.c:258-262 | the memmove leaves the bytes from the consumed count on at the front of the buffer |
| Tcp.TcpConnection.OnReadable | agents/tp_tcp.c:348-368 | an empty read closes the connection and counts nothing; a failed read other than EWOULDBLOCK ends the thread with nothing changed; EWOULDBLOCK falls through to buffer_idx += -1, which on an empty buffer wraps past the buffer (Overrun) and otherwise hides the last unparsed byte from the parser; when the parser runs, an accepted parse keeps the unconsumed bytes, takes the responses off the in-flight count (wrapping at 16 bits) and adds them to the receive counters while measuring; anything else aborts |
| Tcp.TcpThread.constructor | agents/tp_tcp.c:48 | the round-robin index starts at 0 |
| Tcp.TcpThread.PickConn | agents/tp_tcp.c:50-63 | the turn passes (the index wraps at 2^32), and the connection in turn is returned exactly when it is open and has room for another request |
| Tcp.RoundRobinCovers | agents/tp_tcp.c:50-63 | n consecutive picks inspect every one of the n connections |
| Udp.SendRequest | agents/tp_udp.c:227-244 | the request's length is the sum of its iovec lengths; a request over UDP_MAX_PAYLOAD or a short write aborts, a failed write ends the loop, and only a whole write adds one request of that length to the transmit counters while measuring |
| Udp.UdpSocket.constructor | agents/tp_udp.c:111-117 | a socket starts free with zero timestamps |
| Udp.UdpSocket.ResponseTimed | agents/tp_udp.c:246-260 | a response counts exactly when the parser accounts for the whole datagram and the latency, if any, is positive; it frees the socket, adds to the receive counters while measuring, and the latency records are add_latency_sample's with that latency and no transmit time (LatencyAdded), or untouched in the throughput loop; on abort the receive counters and latencies are untouched, and the transmit counters, gaps and previous transmit time never change |
| Udp.UdpSocket.SentSymmetric | agents/tp_udp.c:515-521 | the transmit time is kept in the socket and becomes the thread's previous transmit timestamp, with its gap recorded when sampled; the receive and transmit counters, latencies, increment index and selector are unchanged |
| Udp.UdpSocket.ResponseSymmetric | agents/tp_udp.c:530-559 | the receive time is kept; the response counts exactly when the parser accounts for the whole datagram and the latency, when computable, is positive; it frees the socket and adds to the receive counters; the latency records are add_latency_sample's with the timespec_diff latency and the stored transmit time when the difference exists, and untouched when it does not; on abort the receive counters and latencies are untouched, and the transmit counters, gaps and previous transmit time never change |
| Udp.UdpSocket.ResponseNic | agents/tp_udp.c:405-447 | the response counts exactly when the NIC receive time is set, the parser accounts for the datagram and the latency, when computable, is positive; a missing transmit time is read from the error queue; a latency sample with that transmit time is recorded only when timespec_diff succeeds; the socket is freed and both stored seconds cleared; on abort the receive counters and latencies are untouched, and the transmit counters, gaps and previous transmit time never change |
| Udp.UdpSocket.RecordLatency | agents/tp_udp.c:429-434 | the latency of the stored times aborts exactly when it exists and is not positive; when it exists the latency records are add_latency_sample's with it and the stored transmit time, and when it cannot be computed or aborts nothing is recorded; the receive and transmit counters, gaps and previous transmit time never change |
| Udp.UdpSocket.TxError | agents/tp_udp.c:447-457 | a transmit time read from the error queue is kept only while the socket waits for its response, and then becomes the previous transmit timestamp with its gap recorded when sampled; otherwise the stored time and the transmit samples are unchanged; the receive and transmit counters and latencies never change |
| Udp.UdpThread.constructor | agents/tp_udp.c:47 | the round-robin index starts at 0 |
| Udp.UdpThread.GetSocket | agents/tp_udp.c:52-65 | the turn passes; the socket in turn is claimed and returned when it was free, and no other socket changes |
| Redis.Header | agents/redis.c:97-100 | the length line of a bulk string starts with '$', ends with its only line feed and holds at least four bytes |
| Redis.ParseString | agents/redis.c:69-85 | parse_string never consumes more than the buffer holds |
| Redis.ParseBulkString | agents/redis.c:87-111 | the corrected parse_bulk_string never consumes more than the buffer holds |
| Redis.HeaderRead | agents/redis.c:97-101 | memchr finds the end of a length line, and atoi reads the length back |
| Redis.BulkCount | agents/redis.c:87-111 | after a length line, both versions consume the line alone for -1 (the source counts 5 bytes), the line, the data and CRLF when the buffer holds them all, and nothing otherwise |
| Redis.ParseComplete | agents/redis.c:69-111 | a complete well-formed reply is consumed exactly, whatever follows it |
| Redis.BulkComplete | agents/redis.c:87-111 | parse_bulk_string takes a bulk string's header, data and CRLF |
| Redis.SimpleComplete | agents/redis.c:69-85 | parse_string stops at the line feed that ends a simple string |
| Redis.ShortHeader | agents/redis.c:97-99 | a length line cut short holds no line feed, so nothing is consumed |
| Redis.ParseIncomplete | agents/redis.c:69-111 | a well-formed reply cut short consumes nothing, so the transport waits for the rest |
| Redis.ParseAgrees | agents/redis.c:87-111 | on every complete bulk or nil reply the source's parse_bulk_string and the corrected one give the same count |
| Redis.NilOverrun | agents/redis.c:101-102 | the source counts the 4-byte header "$-1\n" as 5 bytes |
| Redis.NegativeLengthOverrun | agents/redis.c:103-107 | the source counts the header "$-11\r\n" as -3 bytes |
| Redis.ConsumeBounds | agents/redis.c:113-147 | whatever the parsers, a count is never more bytes than the response holds, nor more replies than bytes |
| Redis.FrameStep | agents/redis.c:124-141 | a frame read whole at the front is counted and the loop goes on after it |
| Redis.ConsumeFrames | agents/redis.c:113-147 | frames read whole followed by a tail the parsers stop at count exactly those frames and their bytes |
| Redis.Frames | agents/redis.c:113-147 | one frame per reply, its wire form |
| Redis.FramesFlatten | agents/redis.c:113-147 | the frames of the replies, concatenated, are the replies' wire form |
| Redis.ConsumeReplies | agents/redis.c:113-147 | redis_kv_consume_response on whole well-formed replies followed by part of one more counts exactly the whole replies and their bytes |
| Redis.FramesReadWhole | agents/redis.c:69-111 | every well-formed reply is a frame the two parsers read whole |
| Redis.TailStops | agents/redis.c:69-111 | the parsers stop at a reply cut short |
| Redis.ConsumeAsWrittenOverruns | agents/redis.c:113-147 | with the source's parse_bulk_string, the response "$-1\n" makes the loop read past its end |
| Redis.ConsumeLoop | agents/redis.c:124-144 | the while loop computes the specified count for any two parsers |
| Redis.ConsumeResponse | agents/redis.c:113-147 | redis_kv_consume_response's loop with the corrected bulk-string parser (see Findings, agents/redis.c:101-108) computes ConsumeWith's count over it and the simple-string parser; the two bulk-string parsers give the same count on every well-formed bulk or nil reply (Redis.ParseAgrees) |
| Redis.KvIovs | agents/redis.c:149-210 | a GET fills 5 buffers and a SET 10 |
| Redis.BulkForm | agents/redis.c:160-167 | a bulk string is its length line and its bytes, each ended by CRLF |
| Redis.PremForm | agents/redis.c:175-193 | get_prem and set_prem are the array header, the command name as a bulk string, and the '$' of the key's length line |
| Redis.GetIsCommand | agents/redis.c:191-197 | the GET buffers send the command array [GET, key] |
| Redis.SetIsCommand | agents/redis.c:172-190 | the SET buffers send the command array [SET, key, value of filler bytes] |
| Redis.KvRequestIsCommand | agents/redis.c:149-210 | what a GET or SET request puts on the wire is the command Redis expects |
| Redis.KvCreateRequest | agents/redis.c:149-210 | the request is refused exactly when a SET value is longer than MAX_VAL_SIZE; otherwise the request holds the GET or SET buffers |
| Redis.YcsbeFields | agents/redis.c:338-342 | n fields take n * (size + 1) bytes |
| Redis.YcsbeBody | agents/redis.c:338-343 | the insert body takes field_count * (field_size + 1) bytes |
| Redis.YcsbeBodyLayout | agents/redis.c:338-343 | every byte of the insert body is filler, a space after each field, or the line feed at the very end |
| Redis.FillField | agents/redis.c:339-341 | one field is size filler bytes followed by a space |
| Redis.AppendField | agents/redis.c:338-342 | writing one more field after the first i gives the first i + 1 |
| Redis.FieldsGrow | agents/redis.c:338-342 | the first i fields leave room for one more within n |
| Redis.BuildYcsbeBody | agents/redis.c:327-343 | the body built is the specified insert body |
| Redis.FillFields | agents/redis.c:338-342 | the loop writes the n fields from the front |
| Redis.YcsbeInfo.constructor | agents/redis.c:317-353 | the YCSB-E parameters are the fixed constants, the variant is replicated exactly when the protocol starts with "redis-ycsber", and the body is the specified insert body |
| Redis.YcsbeIovs | agents/redis.c:273-303 | a scan or an insert fills 3 buffers |
| Redis.YcsbeCreateRequest | agents/redis.c:262-315 | the replicated variant is refused (the source's assert without R2P2); otherwise the request holds the scan or insert buffers with no route |
| Redis.RedisInit | agents/redis.c:355-365 | a protocol name starting "redis-ycsbe" selects YCSB-E, any other "redis" name the key-value workload |
| Memcache.Strchr | agents/memcache.c:53 | a strchr hit is at or after the start and holds the byte looked for |
| Memcache.ScanNth | agents/memcache.c:52-57 | the occ-th strchr hit of strchnth lies within the memory scanned |
| Memcache.StrchnthAsWritten | agents/memcache.c:48-59 | strchnth as written returns the scan the specification describes, a hit holding the byte looked for |
| Memcache.CountOfAppend | agents/memcache.c:48-59 | the count of a byte in a concatenation is the sum of the counts |
| Memcache.Strchnth | agents/memcache.c:48-59 | the bounded search finds an offset within the buffer, at or after the start |
| Memcache.StrchnthSpec | agents/memcache.c:48-59 | the bounded search finds the k-th byte exactly when the rest of the buffer holds k of them |
| Memcache.StrchnthFound | agents/memcache.c:48-59 | what the search finds is the byte looked for, closing a stretch that holds exactly k of them |
| Memcache.StrchnthAt | agents/memcache.c:48-59 | a byte with exactly k of them up to and including it is the one the search finds |
| Memcache.StrchrAgrees | agents/memcache.c:53 | strchr and memchr find the same byte when the response holds it and no NUL before it |
| Memcache.ScanNthAgrees | agents/memcache.c:48-59 | where the response holds no NUL and k of the byte, strchnth as written finds the same byte as the bounded search |
| Memcache.AsciiStep | agents/memcache.c:76-101 | one step of the text parser never takes more bytes than the buffer holds |
| Memcache.AsciiConsume | agents/memcache.c:61-107 | the loop computes the specified count, with the third line feed searched for within the response |
| Memcache.AsciiCountBounds | agents/memcache.c:61-107 | the count never claims more bytes than the response holds, nor more replies than bytes |
| Memcache.AsciiEncode | agents/memcache.c:82-101 | every reply is at least five bytes |
| Memcache.AsciiFrames | agents/memcache.c:61-107 | one buffer per reply |
| Memcache.ValueShape | agents/memcache.c:96-101 | a hit is three lines, each ended by a line feed and holding no other, the first starting "VALUE " |
| Memcache.ThirdLineFeed | agents/memcache.c:96-98 | the third line feed of three lines is the last of them, whatever follows |
| Memcache.HitReadWhole | agents/memcache.c:96-101 | three lines starting like a hit are read as one reply, whatever follows |
| Memcache.HitPrefixStops | agents/memcache.c:96-98 | a strict prefix of those lines is not read |
| Memcache.AsciiReadWhole | agents/memcache.c:76-101 | a whole well-formed reply is read as one reply of its own length, whatever follows |
| Memcache.AsciiTailStops | agents/memcache.c:76-98 | a reply cut short is not counted yet |
| Memcache.AsciiRepliesInOrder | agents/memcache.c:76-101 | well-formed replies laid end to end are each read whole, in order, whatever tail follows them |
| Memcache.AsciiFramesCounted | agents/memcache.c:75-104 | frames read whole followed by a tail the parser stops at count exactly those frames and their bytes |
| Memcache.AsciiConsumeCounts | agents/memcache.c:61-107 | a response of whole well-formed replies followed by the start of another counts exactly the whole replies and their bytes |
| Memcache.StaleReplyOvercounts | agents/memcache.c:48-59 | on a 14-byte response whose buffer still holds the rest of an earlier hit, the parser as written counts a 21-byte hit, which handle_response refuses; the bounded search counts nothing, which is accepted |
| Memcache.BodyLen | agents/memcache.c:180-187 | body_len is a 32-bit field |
| Memcache.BinStep | agents/memcache.c:175-196 | one frame never takes more bytes than the buffer holds |
| Memcache.BinConsume | agents/memcache.c:158-201 | the three-state loop, reading each header without writing it, computes the specified count |
| Memcache.BinFramesCounted | agents/memcache.c:173-198 | whole frames followed by a tail the parser stops at count exactly those frames and their bytes |
| Memcache.BinConsumeCounts | agents/memcache.c:158-201 | whole frames followed by a short tail count exactly the whole frames and their bytes |
| Memcache.BinRewrite | agents/memcache.c:178-181 | the parse as written keeps the buffer's length |
| Memcache.Swapped | agents/memcache.c:180-181 | the swap keeps the buffer's length |
| Memcache.SwapBodyLen | agents/memcache.c:178-181 | the body length read is the header's big-endian body_len, and it is stored back in host order |
| Memcache.RewriteStep | agents/memcache.c:173-198 | the rewrite of a buffer whose head is a whole frame swaps that header and goes on after the frame |
| Memcache.BinConsumeAsWritten | agents/memcache.c:158-201 | memcache_bin_consume_response as written computes the same count, and leaves each header it reached with body_len in host order |
| Memcache.RewriteHidesFrame | agents/memcache.c:178-181 | a header of a frame whose one body byte has not arrived is left byte-swapped; once the byte arrives, the kept bytes announce a 2^24-byte body and count nothing, where the read-only parse counts the 25-byte frame |
| Memcache.AsciiIovs | agents/memcache.c:109-156 | a SET fills 7 buffers and a GET 3 |
| Memcache.AsciiCreateRequest | agents/memcache.c:109-156 | the request is refused exactly when a SET value is longer than MAX_VAL_SIZE; otherwise it holds the SET or GET buffers |
| Memcache.AsciiRequestIsCommand | agents/memcache.c:121-153 | a text SET is the "set" storage command with flags and expiry 0 and the filler value, and a GET is the "get" retrieval command for the key |
| Memcache.BinHeader | inc/lancet/memcache_bin.h:30-45 | a request header is the packed 24 bytes |
| Memcache.BinIovs | agents/memcache.c:203-258 | a SET fills 4 buffers and a GET 2 |
| Memcache.BinCreateRequest | agents/memcache.c:203-258 | the request is refused exactly when a SET value is longer than MAX_VAL_SIZE; otherwise it holds the header and the SET or GET buffers |
| Memcache.HeaderFrame | agents/memcache.c:213-249 | a header followed by exactly the body it announces is one whole frame whose key_len reads back |
| Memcache.BinIovsSplit | agents/memcache.c:222-252 | the flattened request is the header followed by a body of the key (and for a SET the extras and the value) |
| Memcache.BinRequestIsFrame | agents/memcache.c:203-258 | with a key shorter than 2^16 bytes, a binary request is one whole frame whose key_len is the key's length, counted as one request of its own length |
| Memcache.MemcacheInit | agents/memcache.c:306-316 | "memcache-bin" selects the binary protocol, "memcache-ascii" the text protocol, and any other name fails |
| AppProto.FixedConsume | agents/app_proto.c:52-63 | a stream of size-byte frames counts as many whole frames as the response holds, and their bytes: no more than the response, and less than one frame short of it; a size of 0 is the division by zero |
| AppProto.EchoConsume | agents/app_proto.c:52-63 | echo_consume_response counts the whole messages the response holds and their bytes; an empty message divides by zero |
| AppProto.SyntheticConsume | agents/app_proto.c:136-145 | synthetic_consume_response counts the whole 8-byte replies the response holds and their bytes |
| AppProto.FixedFramesCounted | agents/app_proto.c:52-63 | k whole frames and part of one more count exactly the k frames |
| AppProto.Echoes | agents/app_proto.c:52-63 | the echo server's replies to k requests are k copies of the message |
| AppProto.FramesLength | agents/app_proto.c:136-145 | frames of one size flatten to their number times that size |
| AppProto.EchoRepliesCounted | agents/app_proto.c:52-63 | the echoes of k requests followed by part of the next count as k replies and k messages' bytes |
| AppProto.SyntheticRepliesCounted | agents/app_proto.c:136-145 | k replies of 8 bytes followed by part of the next count as k replies and their bytes |
| AppProto.EchoCreateRequest | agents/app_proto.c:42-50 | the one buffer of the request is the protocol's fixed message, and meta is NULL |
| AppProto.Payload | agents/app_proto.c:103-105 | the request carries the 8 bytes of a long |
| AppProto.PayloadReadBack | agents/app_proto.c:103-105 | the 8 bytes read back, in the agent's byte order, as the long that was generated |
| AppProto.SyntheticCreateRequest | agents/app_proto.c:94-110 | the one buffer holds the generated long, and meta is NULL |
| AppProto.RepSynthRoute | agents/app_proto.c:127-130 | the route is 3 exactly when the draw times 100 is at most the percentage, and 2 otherwise |
| AppProto.RouteByPercent | agents/app_proto.c:127-130 | with a draw in [0, 1), a percentage of 100 or more always routes to 3, a negative one never, and a larger percentage routes to 3 whenever a smaller one does |
| AppProto.RepSynthCreateRequest | agents/app_proto.c:112-133 | the one buffer holds the generated long, and meta is the route the draw and the percentage select |
| AppProto.Truncate | agents/app_proto.c:165 | storing a double in a long drops its fraction, toward zero |
| AppProto.EchoInit | agents/app_proto.c:65-89 | set-up aborts exactly when the message length is negative; otherwise the message is that many '#' bytes |
| AppProto.SyntheticInit | agents/app_proto.c:147-178 | set-up aborts exactly when the distribution is refused; rep-synth keeps the percentage truncated to a long, synthetic does not |
| AppProto.InitAppProtoAsWritten | agents/app_proto.c:180-211 | a name with none of the six prefixes gives NULL |
| AppProto.InitAppProto | agents/app_proto.c:180-211 | a protocol returned is always set up, and NULL comes exactly for an unknown name, a failed HTTP set-up or a memcache name memcache_init rejects |
| AppProto.PrefixesExclusive | agents/app_proto.c:190-204 | no name starts with two of the six prefixes, so the order of the tests does not matter |
| AppProto.MemcacheFailureIgnored | agents/app_proto.c:196-197 | on a memcache name memcache_init rejects, the source returns a protocol never set up where the corrected set-up returns NULL; on every other name the two agree |
| AppProto.MemcacheGetIsUnset | agents/app_proto.c:196-197 | with the name "memcache-get_fixed:10_fixed:2_100_0.9_uni", whose distributions parse, the source returns a protocol never set up |

## Left out

- Sockets and event loops: the epoll/recv/send/writev loops of the agents, and the socket reads and writes in the manager and coordinator. What a read returns, or whether a write succeeded, is an input. The model keeps only the per-connection state these loops update.
- The partial-write path of the TCP throughput loop (agents/tp_tcp.c:309-328) is not modelled: it depends on what writev returns. As written, `start_iov` (agents/tp_tcp.c:283) is set after a partial write and never reset before the next request.
- Concurrency: the manager reads the control block and the per-thread records through shared memory while worker threads write them. The model has one sequential owner of each field: what the threads have written to their records is an input (`Controller.AgentWriter`), taken in as a whole just before each request is processed. Writes to the control block, and a record changing while one request reads it, are not modelled. pthreads, shm_open, mmap and posix_ipc are not modelled.
- Floating point:
  - real numbers stand for doubles, without rounding;
  - a double on the wire is carried as its 64-bit pattern;
  - the statistics oracles, `getRPS` with the 0.9 to 1.1 band, and the `math.Ceil` duration are function parameters of the coordinator's environment;
  - `lround(1 / sampling_rate)` and the drand48 draws are parameters.
- Statistical tests: spearmanr, anderson, adfuller, numpy's percentile and get_ci's math.sqrt are function parameters. get_ci's floor and ceiling are computed exactly (ManagerStats.CiIndices), and numpy.mean is the exact sum over the count truncated by int() (ManagerStats.Mean); the floating-point rounding of those real-number computations is not modelled.
- Random and distribution code is not part of this model: agents/rand_gen.c, agents/cpp_rand.cc and agents/key_gen.c. The strtok parsing of the distribution arguments in `init_redis_kv` and `memcache_init` is left out too. Keys, value sizes and draws are inputs.
- agents/http_app.cc is not part of this model. Whether `http_proto_init` succeeded is an input of `AppProto.InitAppProto`.
- Kernel timestamping (`extract_timestamp`, `timestamp_recv`, `udp_get_tx_timestamp` and the socket options) is left out. The readings from the error queue are inputs. The asserts of `get_tx_timestamp` on what the kernel returns are not modelled.
- agents/manager.c, agents/tp_ssl.c, agents/tp_r2p2.c, agents/agent.c, agents/args.c and agents/loader.c are not part of this model, and neither are coordinator/main.go, config.go and deploy.go. They are process, CLI, TLS and R2P2 plumbing.
- `collectConvergenceResults` (coordinator/proto.go:160-188) is never called and is not modelled.
- `printThroughputStats` and `printLatencyStats` only print and are not modelled. Neither is the printing in the coordinator's patterns.
- `fixedTimePattern` and `fixedRepeatPattern` are not modelled: runExp cannot reach them. Its "fixedRepeat" test sits inside a branch that admits only fixed, fixedQual and fixedSteady.
- The YCSB-E workload sets no `consume_response` (agents/redis.c:348), so it has no response parser to model.
- Timestamping.PendingTx: the 32-bit wrap of head, tail and consumed is not modelled; the source's comparisons assume it never happens.
- Timestamping.PendingTx.GetTxTimestamp: the retry on a resubmitted reading is modelled as skipping that reading in the sequence of readings (`Timestamping.Matched`).
- Timestamping.PendingTx.StampUpTo: stops with PastHead where the C loop stamps the slot at the head, which holds no pending send, and walks on. From there the C code either never leaves the loop or leaves the tail past the head, which the next call's `assert(head >= tail)` refuses; what it does on those slots is not modelled.
- Udp.SendRequest: a failed write always ends the loop. In the throughput, NIC and symmetric loops (agents/tp_udp.c:303-309, 385-391, 507-514) a write refused with EWOULDBLOCK instead goes on to `assert(ret == bytes_to_send)`, which fires; errno is not modelled.
- Bytes.Atoi: C's atoi is unbounded here; an out-of-range result, which C leaves undefined, is not modelled.
- AppProto.EchoInit: a message length of 0 is accepted (C's malloc(0) may return NULL and fail the assert). `AppProto.FixedConsume` then reports the division by zero as Abort.
- AppProto.SyntheticInit: the rep-synth percentage is an input (the value atof returned). The third `strtok(NULL, "")` (agents/app_proto.c:164) continues on the distribution string, because init_rand's parameter parsing restarts strtok there (agents/rand_gen.c:290-291, 305-308, 322-327). For "rep-synth:fixed:10:50" it returns "50". It returns NULL, which atof dereferences, only when nothing follows the distribution's own parameters, as in "rep-synth:fixed:10". That crash is not modelled.
- AppProto.Truncate: the conversion of a double outside the range of a long, which C leaves undefined, is not modelled.
- WorkerStats.ThreadStats.AddLatencySample: requires a positive period. `lround(1 / sampling_rate)` is 0 for a rate above 2, and then the C modulo divides by zero.
- Memcache.AsciiConsumeCounts: stated only for replies whose key and data hold no line feed. The parser finds the end of a hit by counting line feeds, so a value holding one is miscounted.
- Redis.ConsumeReplies: stated only for simple strings without a line feed, which RESP forbids anyway.
- Coordinator.Coordinator.StepPattern: requires a positive step or a start above the end, and so do `Coordinator.StepLoads`, `Coordinator.Coordinator.RunStep` and `Coordinator.Coordinator.RunExp`. With a step of 0 or less and a start at most the end, the loop of coordinator/coordinator.go:377-391 never ends: `loadRate += step` never takes loadRate past endLoad. The int64 wrap of `loadRate += step` is not modelled either; near the top of the int64 range it takes loadRate negative and the loop goes round again.
- Coordinator.Reduced: Go's division of the sampling rate by a ToReduceSampling of 0 gives +Inf, which a real number cannot hold. The model keeps the rate unchanged in that case.

## Findings

| source | as written | input that shows it | evidently intended | confidence | as-written member | corrected member |
|---|---|---|---|---|---|---|
| agents/redis.c:101-108 | parse_bulk_string counts a nil reply as 5 bytes whatever its header holds, and adds a negative length below -1 to the count | the 4-byte response "$-1\n" is counted as 5 bytes and the loop reads past it; "$-11\r\n" is counted as -3 bytes | count the header line of a nil reply, and consume nothing for a length below -1 | medium, not executed | Redis.NilOverrun, Redis.NegativeLengthOverrun, Redis.ConsumeAsWrittenOverruns | Redis.ParseBulkString, Redis.ConsumeReplies, Redis.ParseAgrees, Redis.ConsumeResponse |
| agents/memcache.c:48-59 | strchnth scans with strchr, bounded by neither the response nor the buffer, so the text parser can count bytes that are not part of the response | a 14-byte response "VALUE k 0 1\r\nx" whose buffer still holds "\r\nEND\r\n" and a NUL from an earlier response is counted as one 21-byte reply, which handle_response rejects | search for the third line feed within the response only | medium, not executed | Memcache.StrchnthAsWritten, Memcache.StaleReplyOvercounts | Memcache.AsciiConsume, Memcache.AsciiConsumeCounts |
| agents/memcache.c:179-181 | the binary parser converts body_len to host order in the connection's buffer, so a frame kept for the next read is converted twice | a header with body_len 00 00 00 01 whose body byte arrives in the next read: the re-parse reads a 2^24-byte body and does not count the 25-byte frame; only a parse after a further read (the field swapped back) counts it, so the latency loop, with one request in flight, never counts it | read body_len without writing it back | high, not executed | Memcache.BinConsumeAsWritten, Memcache.RewriteHidesFrame | Memcache.BinConsume, Memcache.BinConsumeCounts |
| agent-manager/manager/proto.py:193 | reply_latency reads the P99.9 to P99.9999 bounds, which aggregate_latency never sets | any REPORT_REQ for latency: reply_latency raises AttributeError | send the fields the summary has, in the C latency_reply layout | high, not executed | ManagerProto.ReplyLatencyAsWritten, ManagerProto.ReplyLatencyAsWrittenRaises | ManagerProto.LancetProto.ReplyLatency, ManagerProto.LatencyReplyReadBack |
| inc/lancet/coord_proto.h:86-104 | the manager's LatencyReply (246 octets) and the C latency_reply (150 octets) part ways at octet 144 | a reply in the manager's layout read through the header's latency_reply: ToReduceSampling, IsIid and IsStationary come from the P99.9 lower bound | one layout on both sides of the wire | low, not executed: coordinator/stats.go:62-73 and 90-101 use P99.9 to P99.9999 fields this header does not declare, so the coordinator as shipped reads some other latency_reply, possibly the 246-octet one | CoordProto.ShortReadsExtended | ManagerProto.LatencyReplyReadBack, GoProto.LatencyAccepted |
| agents/app_proto.c:196-197 | init_app_proto ignores memcache_init's -1 and returns a protocol whose callbacks were never set | the protocol name "memcache-get_fixed:10_fixed:2_100_0.9_uni" (memcache_init reads its distributions, then finds neither "memcache-bin" nor "memcache-ascii") | return NULL, as for a failed HTTP set-up | high, not executed | AppProto.InitAppProtoAsWritten, AppProto.MemcacheGetIsUnset | AppProto.InitAppProto, AppProto.MemcacheFailureIgnored |
