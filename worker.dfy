/** The per-shard completion dispatch of the echo server: one worker owns a
    stack of send contexts, a fixed set of receive slots and four counters,
    and handles each completion entry by a small decision procedure. The
    results of the foreign post_send / post_recv calls are inputs; the calls
    the step issues are returned as a trace. */
module EchoWorker {

  /** A 32-bit DWORD, the type of bytes_transferred. */
  type DWord = x: nat | x < 0x1_0000_0000

  /** One completion entry, as the worker sees it. Send contexts and receive
      slots are numbered 0 .. OUTSTANDING_OPS - 1. */
  datatype Entry =
    | NoOverlapped                        // lpOverlapped is null
    | RecvDone(slot: nat, bytes: DWord)   // a receive context completed
    | SendDone(context: nat)              // a send context completed

  /** What post_send and post_recv report, should the entry call them. */
  datatype Outcome = Outcome(sendOk: bool, recvOk: bool)

  /** A foreign call issued by the step. */
  datatype Call =
    | PostSend(context: nat, slot: nat, length: DWord)
    | PostRecv(slot: nat)

  datatype Counters = Counters(packetsReceived: nat, packetsSent: nat, bytesReceived: nat, bytesSent: nat)

  /** A worker's state: the available send contexts (a stack, top last), the
      sends posted and not yet completed, which receive slots have a receive
      posted, and the counters. */
  datatype Shard = Shard(available: seq<nat>, inFlight: set<nat>, posted: seq<bool>, counters: Counters)

  const NoTraffic := Counters(0, 0, 0, 0)

  predicate Distinct(s: seq<nat>)
  {
    forall i, j :: 0 <= i < j < |s| ==> s[i] != s[j]
  }

  /** Every one of the n send contexts is either available, once, or in
      flight, and not both. */
  ghost predicate PoolConserved(available: seq<nat>, inFlight: set<nat>, n: nat)
  {
    && Distinct(available)
    && (forall i :: 0 <= i < |available| ==> available[i] < n)
    && (forall c :: c in inFlight ==> c < n && c !in available)
    && (forall c: nat :: c < n ==> c in inFlight || c in available)
  }

  /** Nothing is sent that was not received first. */
  predicate Ordered(c: Counters)
  {
    c.packetsSent <= c.packetsReceived && c.bytesSent <= c.bytesReceived
  }

  /** From `a` to `b` no counter goes down, and the sent counters grow by no
      more than the received ones. */
  predicate Grows(a: Counters, b: Counters)
  {
    && a.packetsReceived <= b.packetsReceived && a.bytesReceived <= b.bytesReceived
    && a.packetsSent <= b.packetsSent && a.bytesSent <= b.bytesSent
    && b.packetsSent - a.packetsSent <= b.packetsReceived - a.packetsReceived
    && b.bytesSent - a.bytesSent <= b.bytesReceived - a.bytesReceived
  }

  ghost predicate ShardInvariant(s: Shard, n: nat)
  {
    PoolConserved(s.available, s.inFlight, n) && |s.posted| == n && Ordered(s.counters)
  }

  /** The entries the completion port can deliver: receives only on a slot
      with a receive posted, send completions only for a send in flight. */
  predicate Arrivable(s: Shard, e: Entry)
  {
    match e
    case NoOverlapped => true
    case RecvDone(slot, _) => slot < |s.posted| && s.posted[slot]
    case SendDone(c) => c in s.inFlight
  }

  /** One completion entry: the new state and the calls issued, in order. */
  function Step(s: Shard, e: Entry, o: Outcome): (r: (Shard, seq<Call>))
    requires e.RecvDone? ==> e.slot < |s.posted|
    ensures |r.0.posted| == |s.posted|
    // no counter goes down, and a step counts no more as sent than it
    // counts as received
    ensures Grows(s.counters, r.0.counters)
  {
    match e
    case NoOverlapped => (s, [])
    case SendDone(c) => (s.(available := s.available + [c], inFlight := s.inFlight - {c}), [])
    case RecvDone(slot, bytes) =>
      var got := s.counters.(packetsReceived := s.counters.packetsReceived + 1,
                             bytesReceived := s.counters.bytesReceived + bytes);
      var reposted := s.posted[slot := o.recvOk];
      if bytes == 0 || s.available == [] then
        (s.(posted := reposted, counters := got), [PostRecv(slot)])
      else
        var c := s.available[|s.available| - 1];
        var calls := [PostSend(c, slot, bytes), PostRecv(slot)];
        if o.sendOk then
          var sent := got.(packetsSent := got.packetsSent + 1, bytesSent := got.bytesSent + bytes);
          (Shard(s.available[..|s.available| - 1], s.inFlight + {c}, reposted, sent), calls)
        else
          (s.(posted := reposted, counters := got), calls)
  }

  /** 0, 1, ..., n - 1: the send contexts in allocation order. */
  function Iota(n: nat): (r: seq<nat>)
    ensures |r| == n && forall i :: 0 <= i < n ==> r[i] == i
  {
    if n == 0 then [] else Iota(n - 1) + [n - 1]
  }

  /** The state before the first completion: every send context available,
      the receive slots posted as the initial post_recv calls reported. */
  function Initial(n: nat, recvOks: seq<bool>): Shard
    requires |recvOks| == n
  {
    Shard(Iota(n), {}, recvOks, NoTraffic)
  }

  // ---------------------------------------------------------------------------
  // The pool

  /** The initial state is consistent: all n contexts available, distinct,
      none in flight, no traffic counted. */
  lemma InitialInvariant(n: nat, recvOks: seq<bool>)
    requires |recvOks| == n
    ensures ShardInvariant(Initial(n, recvOks), n)
    ensures |Initial(n, recvOks).available| == n && Initial(n, recvOks).inFlight == {}
  {
    var pool := Iota(n);
    forall c: nat | c < n ensures c in pool {
      assert pool[c] == c;
    }
  }

  /** The values a sequence holds. */
  function Elements(s: seq<nat>): set<nat>
  {
    set x | x in s
  }

  lemma {:induction false} DistinctCard(s: seq<nat>)
    requires Distinct(s)
    ensures |Elements(s)| == |s|
    decreases |s|
  {
    if s != [] {
      var init, last := s[..|s| - 1], s[|s| - 1];
      assert s == init + [last];
      assert Distinct(init);
      DistinctCard(init);
      assert Elements(s) == Elements(init) + {last};
      assert last !in Elements(init);
    }
  }

  /** Send contexts are conserved: available plus in flight is always n, so
      the pool never holds more than n contexts. */
  lemma PoolSize(available: seq<nat>, inFlight: set<nat>, n: nat)
    requires PoolConserved(available, inFlight, n)
    ensures |available| + |inFlight| == n
    ensures |available| <= n
  {
    var range := Iota(n);
    DistinctCard(available);
    DistinctCard(range);
    assert Elements(available) * inFlight == {};
    forall x | x in Elements(range) ensures x in Elements(available) + inFlight {
      var i :| 0 <= i < n && range[i] == x;
    }
    forall x | x in Elements(available) + inFlight ensures x in Elements(range) {
      assert range[x] == x;
    }
    assert Elements(available) + inFlight == Elements(range);
  }

  /** Every step keeps the pool conserved, the slot flags sized and the
      counters ordered. */
  lemma StepPreservesInvariant(s: Shard, e: Entry, o: Outcome, n: nat)
    requires ShardInvariant(s, n) && Arrivable(s, e)
    ensures ShardInvariant(Step(s, e, o).0, n)
  {
    match e
    case NoOverlapped =>
    case SendDone(c) =>
      var pool := s.available + [c];
      assert forall i :: 0 <= i < |s.available| ==> pool[i] == s.available[i];
    case RecvDone(slot, bytes) =>
      if bytes != 0 && s.available != [] && o.sendOk {
        var k := |s.available| - 1;
        var c := s.available[k];
        var rest := s.available[..k];
        assert c !in rest;
        forall x: nat | x < n ensures x in s.inFlight + {c} || x in rest {
          if x in s.available && x != c {
            var i :| 0 <= i < |s.available| && s.available[i] == x;
            assert i < k;
            assert rest[i] == x;
          }
        }
      }
  }

  // ---------------------------------------------------------------------------
  // Accounting of one step

  /** Every receive completion is counted, the zero-length one included:
      one packet and its bytes. */
  lemma ReceiveCounted(s: Shard, slot: nat, bytes: DWord, o: Outcome)
    requires slot < |s.posted|
    ensures var t := Step(s, RecvDone(slot, bytes), o).0;
      t.counters.packetsReceived == s.counters.packetsReceived + 1 &&
      t.counters.bytesReceived == s.counters.bytesReceived + bytes
  {
  }

  /** A zero-length datagram takes no send context, counts nothing as sent
      and only re-posts the receive. */
  lemma ZeroLengthSkipped(s: Shard, slot: nat, o: Outcome)
    requires slot < |s.posted|
    ensures var (t, calls) := Step(s, RecvDone(slot, 0), o);
      t.available == s.available && t.inFlight == s.inFlight &&
      t.counters.packetsSent == s.counters.packetsSent && t.counters.bytesSent == s.counters.bytesSent &&
      calls == [PostRecv(slot)]
  {
  }

  /** With the pool empty the echo is dropped: no send, sent counters
      unchanged, the receive re-posted once. */
  lemma EmptyPoolDrops(s: Shard, slot: nat, bytes: DWord, o: Outcome)
    requires slot < |s.posted| && s.available == []
    ensures var (t, calls) := Step(s, RecvDone(slot, bytes), o);
      t.available == [] && t.inFlight == s.inFlight &&
      t.counters.packetsSent == s.counters.packetsSent && t.counters.bytesSent == s.counters.bytesSent &&
      calls == [PostRecv(slot)]
  {
  }

  /** A send issued from the top of the pool: on success the context goes in
      flight and the packet counts as sent; on failure the context goes back
      and nothing counts as sent. */
  lemma SendIssued(s: Shard, slot: nat, bytes: DWord, o: Outcome)
    requires slot < |s.posted| && bytes > 0 && s.available != []
    ensures var (t, calls) := Step(s, RecvDone(slot, bytes), o);
      var c := s.available[|s.available| - 1];
      && calls == [PostSend(c, slot, bytes), PostRecv(slot)]
      && (o.sendOk ==>
            t.available + [c] == s.available && t.inFlight == s.inFlight + {c} &&
            t.counters.packetsSent == s.counters.packetsSent + 1 &&
            t.counters.bytesSent == s.counters.bytesSent + bytes)
      && (!o.sendOk ==>
            t.available == s.available && t.inFlight == s.inFlight &&
            t.counters.packetsSent == s.counters.packetsSent &&
            t.counters.bytesSent == s.counters.bytesSent)
  {
    var k := |s.available| - 1;
    assert s.available[..k] + [s.available[k]] == s.available;
  }

  /** A send completion returns its context to the top of the pool and
      touches no counter; an entry without an overlapped changes nothing. */
  lemma CompletionsReturnOrSkip(s: Shard, c: nat, o: Outcome)
    ensures var (t, calls) := Step(s, SendDone(c), o);
      t.available == s.available + [c] && t.inFlight == s.inFlight - {c} &&
      t.counters == s.counters && t.posted == s.posted && calls == []
    ensures Step(s, NoOverlapped, o) == (s, [])
  {
  }

  /** Each receive completion re-posts its slot exactly once, as the last
      call, and leaves the slot posted exactly when that call succeeded;
      no other slot changes. */
  lemma ReceiveRepostedOnce(s: Shard, slot: nat, bytes: DWord, o: Outcome)
    requires slot < |s.posted|
    ensures var (t, calls) := Step(s, RecvDone(slot, bytes), o);
      && Reposts(calls) == 1 && calls[|calls| - 1] == PostRecv(slot)
      && |t.posted| == |s.posted| && t.posted[slot] == o.recvOk
      && forall j :: 0 <= j < |s.posted| && j != slot ==> t.posted[j] == s.posted[j]
  {
    var calls := Step(s, RecvDone(slot, bytes), o).1;
    assert Reposts([PostRecv(slot)]) == 1;
    if |calls| == 2 {
      assert calls[1..] == [PostRecv(slot)];
    }
  }

  /** The number of post_recv calls in a trace. */
  function Reposts(calls: seq<Call>): nat
  {
    if calls == [] then 0
    else (if calls[0].PostRecv? then 1 else 0) + Reposts(calls[1..])
  }

  lemma {:induction false} RepostsAppend(a: seq<Call>, b: seq<Call>)
    ensures Reposts(a + b) == Reposts(a) + Reposts(b)
    decreases |a|
  {
    if a == [] {
      assert a + b == b;
    } else {
      assert (a + b)[0] == a[0];
      assert (a + b)[1..] == a[1..] + b;
      RepostsAppend(a[1..], b);
    }
  }

  // ---------------------------------------------------------------------------
  // A batch of entries

  /** Each entry in turn is one the port can deliver, with an outcome per
      entry. */
  ghost predicate Deliverable(s: Shard, entries: seq<Entry>, outcomes: seq<Outcome>)
    decreases |entries|
  {
    && |outcomes| == |entries|
    && (entries != [] ==>
          && Arrivable(s, entries[0])
          && Deliverable(Step(s, entries[0], outcomes[0]).0, entries[1..], outcomes[1..]))
  }

  /** The dispatch loop over one batch of removed entries. */
  function Run(s: Shard, entries: seq<Entry>, outcomes: seq<Outcome>): (r: (Shard, seq<Call>))
    requires Deliverable(s, entries, outcomes)
    ensures |r.0.posted| == |s.posted|
    ensures Grows(s.counters, r.0.counters)
    decreases |entries|
  {
    if entries == [] then (s, [])
    else
      var (t, calls) := Step(s, entries[0], outcomes[0]);
      var (u, more) := Run(t, entries[1..], outcomes[1..]);
      (u, calls + more)
  }

  /** The receive completions of a batch, and their bytes. */
  function Receives(entries: seq<Entry>): nat
  {
    if entries == [] then 0
    else (if entries[0].RecvDone? then 1 else 0) + Receives(entries[1..])
  }

  function ReceivedBytes(entries: seq<Entry>): nat
  {
    if entries == [] then 0
    else (if entries[0].RecvDone? then entries[0].bytes else 0) + ReceivedBytes(entries[1..])
  }

  lemma {:induction false} RunPreservesInvariant(s: Shard, entries: seq<Entry>, outcomes: seq<Outcome>, n: nat)
    requires ShardInvariant(s, n) && Deliverable(s, entries, outcomes)
    ensures ShardInvariant(Run(s, entries, outcomes).0, n)
    decreases |entries|
  {
    if entries != [] {
      StepPreservesInvariant(s, entries[0], outcomes[0], n);
      RunPreservesInvariant(Step(s, entries[0], outcomes[0]).0, entries[1..], outcomes[1..], n);
    }
  }

  /** Over a batch, packets_received grows by the number of receive
      completions and bytes_received by their bytes, and post_recv is called
      once per receive completion. */
  lemma {:induction false} RunReceiveTotals(s: Shard, entries: seq<Entry>, outcomes: seq<Outcome>)
    requires Deliverable(s, entries, outcomes)
    ensures var (t, calls) := Run(s, entries, outcomes);
      && t.counters.packetsReceived == s.counters.packetsReceived + Receives(entries)
      && t.counters.bytesReceived == s.counters.bytesReceived + ReceivedBytes(entries)
      && Reposts(calls) == Receives(entries)
    decreases |entries|
  {
    if entries != [] {
      var (t, calls) := Step(s, entries[0], outcomes[0]);
      RunReceiveTotals(t, entries[1..], outcomes[1..]);
      RepostsAppend(calls, Run(t, entries[1..], outcomes[1..]).1);
      match entries[0]
      case NoOverlapped =>
      case SendDone(_) =>
      case RecvDone(slot, bytes) =>
        ReceiveRepostedOnce(s, slot, bytes, outcomes[0]);
    }
  }

  // ---------------------------------------------------------------------------
  // The worker

  /** One worker's dispatch state. The send-context pool is the vector the
      source pushes to and pops from; the in-flight sends and the posted
      receive slots are bookkeeping of the completion port's, kept ghost. */
  class ShardWorker {
    const outstanding: nat
    var available: seq<nat>
    ghost var inFlight: set<nat>
    ghost var posted: seq<bool>
    var packetsReceived: nat
    var packetsSent: nat
    var bytesReceived: nat
    var bytesSent: nat

    ghost function State(): Shard
      reads this
    {
      Shard(available, inFlight, posted, Counters(packetsReceived, packetsSent, bytesReceived, bytesSent))
    }

    ghost predicate Valid()
      reads this
    {
      ShardInvariant(State(), outstanding)
    }

    /** Pool setup: the contexts pushed in allocation order; the receive slots
        posted as the initial post_recv calls reported. */
    constructor (outstanding: nat, initialRecvOks: seq<bool>)
      requires |initialRecvOks| == outstanding
      ensures Valid() && State() == Initial(outstanding, initialRecvOks)
    {
      var pool: seq<nat> := [];
      for i := 0 to outstanding
        invariant pool == Iota(i)
      {
        pool := pool + [i];
      }
      this.outstanding := outstanding;
      available := pool;
      inFlight := {};
      posted := initialRecvOks;
      packetsReceived, packetsSent, bytesReceived, bytesSent := 0, 0, 0, 0;
      new;
      InitialInvariant(outstanding, initialRecvOks);
    }

    /** The counters as loaded at shutdown. */
    function Totals(): (c: Counters)
      reads this
      requires Valid()
      ensures Ordered(c)
      ensures c == State().counters
    {
      Counters(packetsReceived, packetsSent, bytesReceived, bytesSent)
    }

    /** Handling of one completion entry. */
    method Dispatch(e: Entry, o: Outcome) returns (calls: seq<Call>)
      requires Valid() && Arrivable(State(), e)
      modifies this
      ensures Valid()
      ensures State() == Step(old(State()), e, o).0
      ensures calls == Step(old(State()), e, o).1
    {
      StepPreservesInvariant(State(), e, o, outstanding);
      match e
      case NoOverlapped =>
        calls := [];
      case SendDone(c) =>
        // send completed: the context goes back on the pool
        available := available + [c];
        inFlight := inFlight - {c};
        calls := [];
      case RecvDone(slot, bytes) =>
        packetsReceived := packetsReceived + 1;
        bytesReceived := bytesReceived + bytes;
        calls := [];
        if bytes > 0 {
          if available == [] {
            // no send context: drop the echo, re-post and skip the rest
            posted := posted[slot := o.recvOk];
            calls := [PostRecv(slot)];
            return;
          }
          var c := available[|available| - 1];
          available := available[..|available| - 1];
          calls := [PostSend(c, slot, bytes)];
          if o.sendOk {
            packetsSent := packetsSent + 1;
            bytesSent := bytesSent + bytes;
            inFlight := inFlight + {c};
          } else {
            // the send was not issued: the context goes back
            available := available + [c];
            assert available == old(available);
          }
        }
        posted := posted[slot := o.recvOk];
        calls := calls + [PostRecv(slot)];
        assert State().counters == Step(old(State()), e, o).0.counters;
    }

    /** The loop over the entries of one batch. */
    method ProcessBatch(entries: seq<Entry>, outcomes: seq<Outcome>) returns (calls: seq<Call>)
      requires Valid() && Deliverable(State(), entries, outcomes)
      modifies this
      ensures Valid()
      ensures State() == Run(old(State()), entries, outcomes).0
      ensures calls == Run(old(State()), entries, outcomes).1
    {
      calls := [];
      assert entries[0..] == entries && outcomes[0..] == outcomes;
      assert calls + Run(State(), entries, outcomes).1 == Run(State(), entries, outcomes).1;
      for i := 0 to |entries|
        invariant Valid() && Deliverable(State(), entries[i..], outcomes[i..])
        invariant Run(old(State()), entries, outcomes).0 == Run(State(), entries[i..], outcomes[i..]).0
        invariant Run(old(State()), entries, outcomes).1 == calls + Run(State(), entries[i..], outcomes[i..]).1
      {
        ghost var before := State();
        assert entries[i..][0] == entries[i] && outcomes[i..][0] == outcomes[i];
        assert entries[i..][1..] == entries[i + 1..] && outcomes[i..][1..] == outcomes[i + 1..];
        var more := Dispatch(entries[i], outcomes[i]);
        ghost var rest := Run(State(), entries[i + 1..], outcomes[i + 1..]);
        assert Run(before, entries[i..], outcomes[i..]) == (rest.0, more + rest.1);
        calls := calls + more;
        assert Run(old(State()), entries, outcomes).1 == calls + rest.1;
      }
      assert entries[|entries|..] == [] && outcomes[|entries|..] == [];
    }
  }
}
