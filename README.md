# Sharded UDP echo server and mergeable t-digest — a Dafny model

This project models two parts of a sharded, completion-driven UDP echo server.

1. **The completion dispatch of one shard worker** (`worker_thread_func` in
   `src/server/main.cpp`). Each worker owns a stack of send contexts, a fixed
   set of receive slots and four traffic counters. It handles each completion
   entry by a small decision:
   - a receive is counted;
   - a non-empty receive is echoed when a send context is free and dropped
     when none is;
   - the receive is re-posted;
   - a completed send returns its context to the pool.

   Around the worker, the model also covers main's configuration rules, the
   creation of one worker per core (none at all is fatal, with exit code 1) and
   the summing of the counters at shutdown.
2. **The `TDigest` class** (`src/common/tdigest.hpp`). It buffers raw samples,
   folds them with its centroids into new centroids (`compress`, `merge`),
   answers nearest-rank percentiles and resets.

Modules:

- `Wrappers` (`wrappers.dfy`): `Option` and `Result`.
- `DigestMath` (`digest_math.dfy`): the value-level digest.
  - Weighted sums.
  - The sorted-permutation contract of `std::sort`.
  - The greedy fold of `build_from`, stated as a split of the sorted list into
    runs (`Greedy`, `Runs`, `Flatten`, `Summaries`, `Build`).
  - The nearest-rank selection of `percentile` (`RankIndex`, `NearestRank`).
- `Digest` (`tdigest.dfy`): `class TDigest`, with the source's four members as
  fields that its methods update in place.
  - `Valid()` is the digest's invariant: the total weight is one per buffered
    sample plus the centroid weights; centroid weights are positive; centroid
    means never decrease.
  - Each method ties its new state to the `DigestMath` functions.
- `EchoWorker` (`worker.dfy`): the dispatch.
  - `Step` is one completion entry as a pure transition. It returns the new
    state and the trace of `post_send` / `post_recv` calls issued.
  - `ShardInvariant` is the invariant `Step` preserves. It says every send
    context is either available (once) or in flight. It also says the slot
    flags are sized and nothing is counted as sent that was not received.
  - `class ShardWorker` updates the pool vector and the counters in place.
    Its `Dispatch` and `ProcessBatch` are proved against `Step` and `Run`.
- `EchoServer` (`server.dfy`): `Configure`, `CreateWorkers`, `SumCounters` and
  `AggregateTotals`.

Inputs that stand for the outside world:

- `post_send` and `post_recv` results are an `Outcome` per entry.
- The results of the initial receive posts are a constructor argument.
- The socket, bind and IOCP setup of each processor is one flag per processor.
- The parsed command-line integers are `Option`s, and the processor count is a
  parameter.
- `OUTSTANDING_OPS` is defined in `common/socket_utils.hpp`, which is not part
  of this model. It is the constructor parameter `outstanding`.

Doubles are modelled as reals.

Notes on the source:
- `percentile` answers NaN both when `total_weight_ <= 0.0` and when the merged
  view is empty (`tdigest.hpp:114` and `:132`).
- `compress` lists the buffered samples before the centroids. `merge` lists
  this digest's centroids, then its buffer, then the other's centroids, then
  the other's buffer.

## Model

| member | source | states |
|---|---|---|
| `Digest.TDigest.constructor` | src/common/tdigest.hpp:40-43 | a new digest keeps the given positive compression, with an empty buffer, no centroids and total weight 0, and is valid |
| `Digest.TDigest.Create` | src/common/tdigest.hpp:40-43 | construction fails (null, for the thrown invalid_argument) exactly when compression is not > 0; otherwise a fresh, empty, valid digest |
| `Digest.TDigest.Add` | src/common/tdigest.hpp:50-53 | x is appended to the buffer, the total weight grows by exactly 1 and the centroids are untouched; the invariant is kept |
| `Digest.TDigest.Compress` | src/common/tdigest.hpp:59-77 | on an empty digest nothing changes; otherwise the buffer is empty, the total weight is unchanged, and the centroids are `Build` of some sorted permutation of the buffered samples (weight 1) followed by the old centroids, no more of them than there were entries; the invariant (total = samples + centroid weight, sorted, positive) is kept |
| `Digest.TDigest.Merge` | src/common/tdigest.hpp:84-107 | the total weight is the sum of both totals and the buffer is empty; the centroids are `Build` of a sorted permutation of this digest's centroids and samples followed by the other's centroids and samples; a distinct other digest is left unchanged; the invariant is kept |
| `Digest.TDigest.Percentile` | src/common/tdigest.hpp:112-146 | OutOfRange exactly when q is outside [0, 1]; NaN exactly when q is in range and the total weight is not positive; otherwise the view is non-empty and the answer is the nearest-rank value at q * total of some sorted permutation of centroids + buffer whose weight is the total, and of the centroids themselves when nothing is buffered |
| `Digest.Scan` | src/common/tdigest.hpp:129-145 | the loop returns the value of the first entry whose cumulative weight reaches q * total, and the last entry's value when none does, i.e. `NearestRank` |
| `Digest.PercentileFacts` | src/common/tdigest.hpp:124-145 | for any sorted permutation of the view, the answer is one of the view's values, is the smallest value for q = 0 and the largest for q = 1 |
| `Digest.PercentileMonotone` | src/common/tdigest.hpp:124-145 | over any two sorted orderings std::sort may produce of the same view, a larger q never gives a smaller answer, and the same q gives the same answer |
| `Digest.TDigest.Reset` | src/common/tdigest.hpp:151-155 | buffer and centroids are empty and the total weight is 0; the invariant is kept |
| `Digest.TDigest.TotalWeight` | src/common/tdigest.hpp:160 | the total weight is the number of buffered samples plus the centroid weights, and is non-negative |
| `Digest.SampleTotal` | src/common/tdigest.hpp:50-53 | after n adds on a fresh digest, total_weight() is n |
| `Digest.TDigest.BuildFrom` | src/common/tdigest.hpp:176-211 | the loop folding the sorted list (running mean and weight, merge when within max(1, 4 * total / compression), else emit) leaves exactly `Build(merged, compression)` as the centroids, and nothing for an empty list |
| `DigestMath.SortByMean` | src/common/tdigest.hpp:74-75 | the result is sorted by value and a permutation (same multiset) of its input, with the same length, total weight and positivity |
| `DigestMath.Limit` | src/common/tdigest.hpp:180-184 | the merge bound is max(1, 4 * total / compression): at least 1, at least 4 * total / compression, and equal to one of them |
| `DigestMath.Build` | src/common/tdigest.hpp:176-211 | the centroids build_from yields: one per greedy run of the input, no more of them than entries, with the input's total weight |
| `DigestMath.UnitsWeight` | src/common/tdigest.hpp:66-67 | the raw samples weigh one each, so n samples weigh n |
| `DigestMath.RunsShape` | src/common/tdigest.hpp:189-210 | the greedy split gives back the input when laid end to end; no run is empty, weights stay positive, and every run of two or more entries weighs at most the limit |
| `DigestMath.BuildProperties` | src/common/tdigest.hpp:176-211 | build_from yields no more centroids than entries, conserves the total weight, keeps weights positive, yields at least one centroid for a non-empty input, and yields non-decreasing means for a sorted input |
| `DigestMath.BuildRuns` | src/common/tdigest.hpp:184-210 | each emitted centroid is the weighted mean and total weight of one contiguous run of the input, runs of two or more entries weigh at most max(1, 4 * total / compression), and for a sorted input each mean lies between its run's first and last value |
| `DigestMath.SummariesSorted` | src/common/tdigest.hpp:197-210 | the centroids folded from consecutive runs of a sorted list have non-decreasing means |
| `DigestMath.AbsorbMean` | src/common/tdigest.hpp:199-200 | the running update (mean * weight + v * w) / (weight + w) is the weighted mean of the run extended by (v, w) |
| `DigestMath.SummarySingle` | src/common/tdigest.hpp:186-187 | a centroid started from one entry is that entry |
| `DigestMath.RankIndexIsFirst` | src/common/tdigest.hpp:134-145 | the index selected is the first whose cumulative weight reaches the target; every earlier entry falls short; when none reaches it, the last entry |
| `DigestMath.RankIndex` | src/common/tdigest.hpp:134-145 | the scan over a non-empty view selects an index inside the view |
| `DigestMath.NearestRank` | src/common/tdigest.hpp:129-145 | the value percentile returns for q is the value of one of the view's entries |
| `DigestMath.NearestRankMonotone` | src/common/tdigest.hpp:129-145 | over a sorted view, q1 <= q2 gives percentile(q1) <= percentile(q2) |
| `DigestMath.NearestRankAtZero` | src/common/tdigest.hpp:137-139 | q = 0 selects the first entry, the smallest value of a sorted view |
| `DigestMath.NearestRankAtTotal` | src/common/tdigest.hpp:134-145 | with positive weights, q = 1 reaches the target exactly at the last entry, the largest value of a sorted view; the weight through the last entry is the total |
| `DigestMath.NearestRankReached` | src/common/tdigest.hpp:129-145 | for every q in [0, 1] over positive weights, the total reaches q * total and the entry the scan selects has cumulative weight at least q * total, so the fallback at line 145 is never taken in exact arithmetic |
| `DigestMath.NearestRankPermutation` | src/common/tdigest.hpp:124-145 | every sorted ordering of the same entries gives the same nearest-rank value, so the unspecified order std::sort leaves equal values in does not change the answer |
| `DigestMath.WeightAtMostPermutation` | src/common/tdigest.hpp:124-145 | the weight of the entries valued at most m depends only on the multiset of entries |
| `EchoWorker.Iota` | src/server/main.cpp:52-59 | the pool as filled: contexts 0 .. n-1 in allocation order |
| `EchoWorker.Step` | src/server/main.cpp:96-138 | one completion entry: the slot flags keep their size, no counter goes down, and the sent counters grow by no more than the received ones |
| `EchoWorker.Run` | src/server/main.cpp:96-138 | a batch of entries: the slot flags keep their size, no counter goes down, and the sent counters grow by no more than the received ones |
| `EchoWorker.InitialInvariant` | src/server/main.cpp:45-66 | before the first completion all n send contexts are available and distinct, none is in flight, and the counters are zero: the shard invariant holds |
| `EchoWorker.ShardWorker.constructor` | src/server/main.cpp:51-66 | the worker starts in `Initial`: its pool is contexts 0 .. n-1, no send in flight, the receive slots posted as the initial post_recv calls reported, counters zero; it is valid |
| `EchoWorker.PoolSize` | src/server/main.cpp:113-115 | the available contexts plus those in flight are exactly OUTSTANDING_OPS, so neither the pool nor the sends in flight ever exceed it |
| `EchoWorker.StepPreservesInvariant` | src/server/main.cpp:96-138 | every completion entry the port can deliver keeps each send context available once or in flight, the slot flags sized, and sent counters at most received counters |
| `EchoWorker.ReceiveCounted` | src/server/main.cpp:105-108 | every receive completion, the zero-length one included, adds one packet and its bytes to the received counters |
| `EchoWorker.ZeroLengthSkipped` | src/server/main.cpp:110-133 | a zero-byte receive takes no send context, counts nothing as sent and issues only the re-post |
| `EchoWorker.EmptyPoolDrops` | src/server/main.cpp:113-120 | with no free send context the echo is dropped: no send, pool and sent counters unchanged, the receive re-posted once |
| `EchoWorker.SendIssued` | src/server/main.cpp:112-133 | the send uses the top of the pool and is followed by the re-post; a successful post_send moves that context in flight and counts one packet and its bytes as sent; a failed one puts it back and counts nothing |
| `EchoWorker.CompletionsReturnOrSkip` | src/server/main.cpp:101-137 | a send completion pushes its context back on the pool and changes no counter; an entry without an overlapped changes nothing |
| `EchoWorker.ReceiveRepostedOnce` | src/server/main.cpp:118-133 | each receive completion calls post_recv on its own slot exactly once, as its last call; the slot stays posted exactly when that call succeeded; other slots are untouched |
| `EchoWorker.ShardWorker.Dispatch` | src/server/main.cpp:97-137 | handling one entry in place yields exactly `Step`'s new state and call trace, and keeps the worker valid |
| `EchoWorker.ShardWorker.ProcessBatch` | src/server/main.cpp:96-138 | the loop over a batch of removed entries yields exactly `Run`'s state and trace, and keeps the worker valid |
| `EchoWorker.RunPreservesInvariant` | src/server/main.cpp:96-138 | a whole batch keeps the shard invariant |
| `EchoWorker.RunReceiveTotals` | src/server/main.cpp:96-138 | over a batch, packets received grow by the number of receive completions, bytes received by their bytes, and post_recv is called once per receive completion |
| `EchoWorker.RepostsAppend` | src/server/main.cpp:96-138 | the post_recv count of two traces in sequence is the sum of their counts |
| `EchoWorker.ShardWorker.Totals` | src/server/main.cpp:141-147 | the four counters a worker reports at shutdown, with packets and bytes sent at most packets and bytes received |
| `EchoServer.Configure` | src/server/main.cpp:176-203 | an empty port is refused, then a port outside 1..65535; otherwise the workers are the request when it is a valid core count (0 < request <= processors) and else every processor, never more than the processors and zero only without processors; the buffer size is a positive request and else 4194304, always positive |
| `EchoServer.CreateWorkers` | src/server/main.cpp:222-306 | the kept workers are exactly the processors whose socket, bind and IOCP setup succeeded, in increasing order; the result is the fatal exit code 1 exactly when none succeeded |
| `EchoServer.AggregateTotals` | src/server/main.cpp:344-350 | the shutdown loop's four totals are the sums of the workers' counters |
| `EchoServer.SumCountersAppend` | src/server/main.cpp:344-350 | the totals do not depend on how the workers are grouped: the totals of two groups add up |
| `EchoServer.SumCountersOrdered` | src/server/main.cpp:344-350 | if no worker sent more than it received, neither do the totals; and every worker's counters are bounded by the totals |

## Left out

- The completion-port mechanics are inputs, not part of the model:
  `GetQueuedCompletionStatusEx`, its timeout and error returns, the empty
  batch, `CloseHandle` at shutdown, and the batch size limit of
  `2 * OUTSTANDING_OPS`. A batch is a given sequence of entries.
- The model assumes the completion port delivers only operations that were
  posted (`Arrivable`, `Deliverable`). That is, it delivers a receive only on
  a slot whose receive is posted, and a send completion only for a send in
  flight. `ShardWorker.Dispatch` requires this of its entry.
- Threads, `std::atomic`, the `g_shutdown` flag, the signal handler, the
  shutdown wait loop and thread join are left out. The counters are plain
  fields tracked by the model, and the dispatch loop is one batch at a time.
- `set_thread_affinity`, `set_socket_cpu_affinity`, the IPv6-then-IPv4 socket
  creation, `setsockopt` for `SO_RCVBUF`/`SO_SNDBUF`, `bind` and
  `create_iocp_and_associate` are left out. They are foreign calls. Their only
  effect on the core is whether a processor's worker is kept, which is one flag
  per processor in `CreateWorkers`.
- `post_send` and `post_recv` are left out; `common/socket_utils.hpp` is not
  part of this model. Their boolean results are inputs. The payload bytes and
  the peer address are not modelled; a send records its context, slot and
  length.
- The initial `post_recv` loop (`main.cpp:62-66`) is taken as its results, one
  flag per receive slot.
- The identity of `io_context` objects is left out. Contexts and slots are
  numbered 0 .. OUTSTANDING_OPS - 1.
- `ArgParser`, the help flag, `get_processor_count`, `std::atoi` and
  `std::strtol` are external. `Configure` receives the parsed integers, already
  32-bit, and `long` is taken as 32 bits, as on the server's platform.
- All logging and printing is left out, including the usage text and the final
  statistics.
- `ShardWorker.Totals`: the counters are unbounded naturals. The
  `std::atomic<uint64_t>` wrap-around after 2^64 is not modelled.
- `AggregateTotals`: the totals are unbounded naturals. The `uint64_t`
  wrap-around of the sums is not modelled.
- Floating-point rounding is not modelled; doubles are reals. The fallback
  `return merged.back().first` (`tdigest.hpp:145`) is reachable only through
  rounding, and `NearestRankReached` shows that in exact arithmetic the scan
  reaches its target for every q in [0, 1]. NaN samples are not modelled.
- `Percentile` returns `OutOfRange` where the source throws
  `std::invalid_argument`. `Create` returns null where the constructor throws.
- `Compress`, `Merge`, `Percentile`: `std::sort` is not stable, and the order
  it leaves equal values in is unspecified. These contracts therefore hold for
  some sorted permutation rather than naming one. `NearestRankPermutation`
  shows the percentile answer does not depend on that order.
- The `cumulative` variable of `build_from`, which the source updates but never
  reads, has no counterpart.
- Accuracy bounds of the estimate are not stated: neither closeness to the true
  quantile nor the approximate associativity of merge. They depend on the data
  and on the heuristic `k_limit`. The model proves the exact structural facts
  instead: weight conservation, run bounds, means within their runs, and
  monotonicity.
