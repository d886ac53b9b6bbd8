/** The configuration rules of the echo server's main, the creation of one
    worker per requested core with the fatal check when none could be set
    up, and the summation of the workers' counters at shutdown. */
module EchoServer {
  import opened Wrappers
  import opened EchoWorker

  /** A C++ int (and, on the server's platform, a long): 32 bits. */
  type Int32 = x: int | -0x8000_0000 <= x < 0x8000_0000

  type UInt32 = x: nat | x < 0x1_0000_0000

  /** The receive and send buffer size used unless a positive one is given. */
  const DefaultRecvBuf: Int32 := 4194304

  datatype ConfigError = PortRequired | InvalidPort

  datatype Config = Config(port: int, workers: UInt32, recvbuf: Int32)

  /** main's checks on the parsed options. Each option is None when its
      string is empty and otherwise the integer atoi / strtol returned for
      it; `processors` is the processor count. */
  function Configure(port: Option<Int32>, cores: Option<Int32>, recvbuf: Option<Int32>, processors: UInt32)
    : (r: Result<Config, ConfigError>)
    // an empty port string is refused first, then a port outside 1..65535
    ensures r == Failure(PortRequired) <==> port.None?
    ensures r == Failure(InvalidPort) <==> port.Some? && !(1 <= port.value <= 65535)
    ensures r.Success? <==> port.Some? && 1 <= port.value <= 65535
    ensures r.Success? ==> r.value.port == port.value
    // the worker count: the request when it is a valid core count, else all
    ensures r.Success? ==> r.value.workers <= processors
    ensures r.Success? ==> r.value.workers == processors || (cores.Some? && r.value.workers == cores.value)
    ensures r.Success? && cores.Some? && 0 < cores.value <= processors ==> r.value.workers == cores.value
    ensures r.Success? ==> (r.value.workers == 0 <==> processors == 0)
    // the buffer size: a positive request, else the 4 MB default
    ensures r.Success? ==> r.value.recvbuf > 0
    ensures r.Success? ==> r.value.recvbuf == DefaultRecvBuf || (recvbuf.Some? && r.value.recvbuf == recvbuf.value)
    ensures r.Success? && recvbuf.Some? && recvbuf.value > 0 ==> r.value.recvbuf == recvbuf.value
  {
    if port.None? then Failure(PortRequired)
    else if port.value <= 0 || port.value > 65535 then Failure(InvalidPort)
    else
      var workers := if cores.Some? && cores.value > 0 && cores.value <= processors then cores.value else processors;
      var size := if recvbuf.Some? && recvbuf.value > 0 then recvbuf.value else DefaultRecvBuf;
      Success(Config(port.value, workers, size))
  }

  /** The worker-creation loop: worker i is kept when its socket, bind and
      completion port were all set up (`setupOk[i]`); no worker at all is
      fatal, with exit code 1. The kept workers are their processor ids. */
  method CreateWorkers(count: UInt32, setupOk: seq<bool>) returns (r: Result<seq<nat>, int>)
    requires |setupOk| == count
    ensures r.Failure? <==> forall i :: 0 <= i < count ==> !setupOk[i]
    ensures r.Failure? ==> r.error == 1
    ensures r.Success? ==> forall i: nat :: i in r.value <==> i < count && setupOk[i]
    ensures r.Success? ==> forall j, k :: 0 <= j < k < |r.value| ==> r.value[j] < r.value[k]
  {
    var created: seq<nat> := [];
    for i := 0 to count
      invariant forall x: nat :: x in created <==> x < i && setupOk[x]
      invariant forall j, k :: 0 <= j < k < |created| ==> created[j] < created[k]
      invariant forall j :: 0 <= j < |created| ==> created[j] < i
    {
      if setupOk[i] {
        created := created + [i];
      }
    }
    if created == [] {
      forall i | 0 <= i < count ensures !setupOk[i] {
        assert i !in created;
      }
      return Failure(1);
    }
    assert created[0] in created;
    r := Success(created);
  }

  function AddCounters(a: Counters, b: Counters): Counters
  {
    Counters(a.packetsReceived + b.packetsReceived, a.packetsSent + b.packetsSent,
             a.bytesReceived + b.bytesReceived, a.bytesSent + b.bytesSent)
  }

  lemma AddNothing(x: Counters)
    ensures AddCounters(x, NoTraffic) == x
  {
  }

  lemma AddAssociative(x: Counters, y: Counters, z: Counters)
    ensures AddCounters(AddCounters(x, y), z) == AddCounters(x, AddCounters(y, z))
  {
  }

  /** The four totals over the workers, in the order main visits them. */
  function SumCounters(finals: seq<Counters>): Counters
  {
    if finals == [] then NoTraffic
    else AddCounters(SumCounters(finals[..|finals| - 1]), finals[|finals| - 1])
  }

  /** The totals do not depend on how the workers are grouped. */
  lemma {:induction false} SumCountersAppend(a: seq<Counters>, b: seq<Counters>)
    ensures SumCounters(a + b) == AddCounters(SumCounters(a), SumCounters(b))
    decreases |b|
  {
    if b == [] {
      assert a + b == a;
      AddNothing(SumCounters(a));
    } else {
      var init, last := b[..|b| - 1], b[|b| - 1];
      calc {
        SumCounters(a + b);
        == { assert (a + b)[..|a + b| - 1] == a + init && (a + b)[|a + b| - 1] == last; }
        AddCounters(SumCounters(a + init), last);
        == { SumCountersAppend(a, init); }
        AddCounters(AddCounters(SumCounters(a), SumCounters(init)), last);
        == { AddAssociative(SumCounters(a), SumCounters(init), last); }
        AddCounters(SumCounters(a), SumCounters(b));
      }
    }
  }

  /** If no worker sent more than it received, neither did the server; and
      every worker's counters are bounded by the totals. */
  lemma {:induction false} SumCountersOrdered(finals: seq<Counters>)
    requires forall i :: 0 <= i < |finals| ==> Ordered(finals[i])
    ensures Ordered(SumCounters(finals))
    ensures forall i :: 0 <= i < |finals| ==>
      && finals[i].packetsReceived <= SumCounters(finals).packetsReceived
      && finals[i].packetsSent <= SumCounters(finals).packetsSent
      && finals[i].bytesReceived <= SumCounters(finals).bytesReceived
      && finals[i].bytesSent <= SumCounters(finals).bytesSent
    decreases |finals|
  {
    if finals != [] {
      SumCountersOrdered(finals[..|finals| - 1]);
    }
  }

  /** The shutdown loop: the totals of the created workers' final counters. */
  method AggregateTotals(finals: seq<Counters>) returns (total: Counters)
    ensures total == SumCounters(finals)
  {
    total := NoTraffic;
    for i := 0 to |finals|
      invariant total == SumCounters(finals[..i])
    {
      assert finals[..i + 1][..i] == finals[..i];
      total := AddCounters(total, finals[i]);
    }
    assert finals[..|finals|] == finals;
  }
}
