/**
 * The stream extraction pass (ExtractSDFGOps.cpp): every value produced or consumed by an
 * SDFG-convertible operation is given the streams through which it crosses between host and
 * device, numbered by one counter, and the convertible operations become dataflow processes
 * reading from and writing to those streams.
 *
 * The IR is abstracted to what the pass looks at: for each value, whether its defining op is
 * convertible (a block argument has no defining op), whether it is a block argument, and the
 * convertibility of the owner of each of its uses; for each convertible op, its results and
 * operands.
 */
module Sdfg {
  import opened Wrappers

  /** StreamMappingKind. `NoStream` is NONE. */
  datatype MappingKind = OnDevice | ToDevice | Splice | ToHost | NoStream

  /** determineStreamMappingKind, given the convertibility of the producer and of each user. */
  function DetermineStreamMappingKind(producerConvertible: bool, userConvertible: seq<bool>): (k: MappingKind)
    ensures producerConvertible <==> k in {OnDevice, ToHost, Splice}
  {
    if producerConvertible then
      if forall i :: 0 <= i < |userConvertible| ==> userConvertible[i] then OnDevice
      else if forall i :: 0 <= i < |userConvertible| ==> !userConvertible[i] then ToHost
      else Splice
    else if exists i :: 0 <= i < |userConvertible| && userConvertible[i] then ToDevice
    else NoStream
  }

  /** The number of convertible users. */
  function CountConvertible(users: seq<bool>): (c: nat)
    ensures c <= |users|
  {
    if |users| == 0 then 0
    else CountConvertible(users[..|users| - 1]) + (if users[|users| - 1] then 1 else 0)
  }

  lemma {:induction false} CountAllConvertible(users: seq<bool>)
    ensures CountConvertible(users) == |users| <==> forall i :: 0 <= i < |users| ==> users[i]
  {
    if |users| > 0 {
      var init := users[..|users| - 1];
      CountAllConvertible(init);
      assert forall i :: 0 <= i < |init| ==> init[i] == users[i];
    }
  }

  lemma {:induction false} CountNoneConvertible(users: seq<bool>)
    ensures CountConvertible(users) == 0 <==> forall i :: 0 <= i < |users| ==> !users[i]
  {
    if |users| > 0 {
      var init := users[..|users| - 1];
      CountNoneConvertible(init);
      assert forall i :: 0 <= i < |init| ==> init[i] == users[i];
    }
  }

  /**
   * The classification in terms of how many users are convertible: a convertible producer is
   * ON_DEVICE when all of its users are convertible (vacuously so with no users), TO_HOST when it
   * has users and none is convertible, SPLICE when they are mixed; any other value is TO_DEVICE
   * when some user is convertible and NONE otherwise.
   */
  lemma MappingKindByCount(producerConvertible: bool, users: seq<bool>)
    ensures var k := DetermineStreamMappingKind(producerConvertible, users);
      var c := CountConvertible(users);
      && (k == OnDevice <==> producerConvertible && c == |users|)
      && (k == ToHost <==> producerConvertible && |users| > 0 && c == 0)
      && (k == Splice <==> producerConvertible && 0 < c < |users|)
      && (k == ToDevice <==> !producerConvertible && c > 0)
      && (k == NoStream <==> !producerConvertible && c == 0)
  {
    CountAllConvertible(users);
    CountNoneConvertible(users);
  }

  /** What the pass knows of one SSA value. */
  datatype ValueInfo = ValueInfo(producerConvertible: bool, isBlockArgument: bool, userConvertible: seq<bool>)

  /** A convertible op (SDFGConvertibleOpInterface) as its results and operands. */
  datatype ConvertibleOp = ConvertibleOp(results: seq<nat>, operands: seq<nat>)

  predicate WellFormedGraph(graph: map<nat, ValueInfo>) {
    forall v :: v in graph && graph[v].isBlockArgument ==> !graph[v].producerConvertible
  }

  /** The results of a convertible op are produced by a convertible op. */
  predicate ResultsOfConvertible(graph: map<nat, ValueInfo>, results: seq<nat>) {
    forall j :: 0 <= j < |results| ==> results[j] in graph && graph[results[j]].producerConvertible
  }

  /** The operands of a convertible op have a convertible user. */
  predicate OperandsOfConvertible(graph: map<nat, ValueInfo>, operands: seq<nat>) {
    forall j :: 0 <= j < |operands| ==> operands[j] in graph && CountConvertible(graph[operands[j]].userConvertible) > 0
  }

  /** The convertible ops found by the walk agree with the value information. */
  predicate ConsistentOps(graph: map<nat, ValueInfo>, ops: seq<ConvertibleOp>) {
    forall i :: 0 <= i < |ops| ==>
      ResultsOfConvertible(graph, ops[i].results) && OperandsOfConvertible(graph, ops[i].operands)
  }

  function Kind(graph: map<nat, ValueInfo>, v: nat): MappingKind
    requires v in graph
  {
    DetermineStreamMappingKind(graph[v].producerConvertible, graph[v].userConvertible)
  }

  /** SDFG::StreamKind. */
  datatype StreamKind = DeviceToHost | OnDeviceStream | HostToDevice

  /** A make_stream op: its name is "stream" followed by `number`; `value` is the value it carries. */
  datatype Stream = Stream(number: nat, kind: StreamKind, value: nat)

  /** Where a get or put is inserted: after the defining op, or right after start for a block argument. */
  datatype Placement = AfterStart | AfterValue(v: nat)

  /** The host side of a stream: reading the result back (get) or feeding an input (put). */
  datatype Transfer = Get(stream: nat, value: nat, at: Placement) | Put(stream: nat, value: nat, at: Placement)

  /** The make_process built for the i-th convertible op, with its input and output stream numbers. */
  datatype Process = Process(op: nat, ins: seq<nat>, outs: seq<nat>)

  /** An operand as seen after the pass: an original value, or the result of the get on a stream. */
  datatype SsaValue = Original(id: nat) | GetResult(stream: nat)

  /** replaceAllUsesWith for every entry of the replacement mapping, on one operand. */
  function Redirect(x: SsaValue, replacement: map<nat, nat>): (r: SsaValue)
    ensures r.Original? ==> r.id !in replacement
    ensures x.Original? && x.id in replacement ==> r == GetResult(replacement[x.id])
    ensures (x.GetResult? || x.id !in replacement) ==> r == x
  {
    if x.Original? && x.id in replacement then GetResult(replacement[x.id]) else x
  }

  function PlacementAfter(graph: map<nat, ValueInfo>, v: nat): (p: Placement)
    requires v in graph
    ensures p.AfterStart? <==> graph[v].isBlockArgument
  {
    if graph[v].isBlockArgument then AfterStart else AfterValue(v)
  }

  predicate Numbered(streams: seq<Stream>) {
    forall i :: 0 <= i < |streams| ==> streams[i].number == i
  }

  /**
   * The output stream `s` of `v` is one that was made, of the kind the mapping kind of `v` asks
   * for; `v` also has an input stream unless it is TO_HOST, and is replaced by the get on `s`
   * unless it is ON_DEVICE.
   */
  predicate OutEntry(kinds: map<nat, MappingKind>, streams: seq<Stream>, processIn: map<nat, Stream>,
                     replacement: map<nat, nat>, v: nat, s: Stream)
    requires v in kinds
  {
    && s.number < |streams| && streams[s.number] == s && s.value == v
    && kinds[v] in {OnDevice, ToHost, Splice}
    && s.kind == (if kinds[v] == OnDevice then OnDeviceStream else DeviceToHost)
    && (kinds[v] != ToHost <==> v in processIn)
    && (kinds[v] != OnDevice <==> v in replacement)
    && (v in replacement ==> replacement[v] == s.number)
  }

  /**
   * The input stream `s` of `v` is one that was made, of the kind the mapping kind of `v` asks
   * for; `v` also has an output stream unless it is TO_DEVICE, the same one when ON_DEVICE.
   */
  predicate InEntry(kinds: map<nat, MappingKind>, streams: seq<Stream>, processOut: map<nat, Stream>, v: nat, s: Stream)
    requires v in kinds
  {
    && s.number < |streams| && streams[s.number] == s && s.value == v
    && kinds[v] in {OnDevice, ToDevice, Splice}
    && s.kind == (if kinds[v] == OnDevice then OnDeviceStream else HostToDevice)
    && (kinds[v] != ToDevice <==> v in processOut)
    && (kinds[v] == OnDevice ==> v in processOut && processOut[v] == s)
  }

  /**
   * The three mappings agree with the streams made and with the mapping kinds: an ON_DEVICE value
   * has one stream for both directions, and exactly the SPLICE and TO_HOST values are replaced,
   * by the get on their output stream.
   */
  predicate Mappings(kinds: map<nat, MappingKind>, processOut: map<nat, Stream>, processIn: map<nat, Stream>,
                     replacement: map<nat, nat>, streams: seq<Stream>)
  {
    && (forall v :: v in processOut ==> v in kinds && OutEntry(kinds, streams, processIn, replacement, v, processOut[v]))
    && (forall v :: v in processIn ==> v in kinds && InEntry(kinds, streams, processOut, v, processIn[v]))
    && replacement.Keys <= processOut.Keys
  }

  /**
   * Adding entries for a value `v` that was in neither mapping keeps the mappings valid, provided
   * the new entries are valid themselves and nothing else changes.
   */
  lemma AddEntries(kinds: map<nat, MappingKind>, processOut: map<nat, Stream>, processIn: map<nat, Stream>,
                   replacement: map<nat, nat>, streams: seq<Stream>,
                   processOut': map<nat, Stream>, processIn': map<nat, Stream>,
                   replacement': map<nat, nat>, streams': seq<Stream>, v: nat)
    requires Mappings(kinds, processOut, processIn, replacement, streams)
    requires v in kinds && v !in processOut && v !in processIn
    requires |streams| <= |streams'| && streams'[..|streams|] == streams
    requires processOut'.Keys <= processOut.Keys + {v} && processOut.Keys <= processOut'.Keys
    requires processIn'.Keys <= processIn.Keys + {v} && processIn.Keys <= processIn'.Keys
    requires replacement'.Keys <= replacement.Keys + {v} && replacement.Keys <= replacement'.Keys
    requires forall w :: w in processOut ==> processOut'[w] == processOut[w]
    requires forall w :: w in processIn ==> processIn'[w] == processIn[w]
    requires forall w :: w in replacement ==> replacement'[w] == replacement[w]
    requires v in processOut' ==> OutEntry(kinds, streams', processIn', replacement', v, processOut'[v])
    requires v in processIn' ==> InEntry(kinds, streams', processOut', v, processIn'[v])
    requires v in replacement' ==> v in processOut'
    ensures Mappings(kinds, processOut', processIn', replacement', streams')
  {
    assert v !in replacement;
    forall w | w in processOut' ensures w in kinds && OutEntry(kinds, streams', processIn', replacement', w, processOut'[w]) {
      if w != v {
        assert OutEntry(kinds, streams, processIn, replacement, w, processOut[w]);
        assert streams'[processOut[w].number] == streams[processOut[w].number];
      }
    }
    forall w | w in processIn' ensures w in kinds && InEntry(kinds, streams', processOut', w, processIn'[w]) {
      if w != v {
        assert InEntry(kinds, streams, processOut, w, processIn[w]);
        assert streams'[processIn[w].number] == streams[processIn[w].number];
      }
    }
  }

  /**
   * A host-side transfer belongs to the value it names: a get reads the output stream that
   * replaces the value, a put feeds the input stream of a TO_DEVICE value, and either is placed
   * right after the value's definition.
   */
  predicate TransferOf(graph: map<nat, ValueInfo>, kinds: map<nat, MappingKind>, processIn: map<nat, Stream>,
                       replacement: map<nat, nat>, t: Transfer)
  {
    && t.value in graph && t.at == PlacementAfter(graph, t.value)
    && match t
       case Get(s, v, _) => v in replacement && replacement[v] == s
       case Put(s, v, _) => v in processIn && v in kinds && kinds[v] == ToDevice && processIn[v].number == s
  }

  /**
   * The transfers are exactly the gets of the replaced values and the puts of the TO_DEVICE
   * values: every transfer belongs to its value, and every such value has its transfer.
   */
  predicate Transfers(graph: map<nat, ValueInfo>, kinds: map<nat, MappingKind>, processIn: map<nat, Stream>,
                      replacement: map<nat, nat>, transfers: seq<Transfer>)
  {
    && (forall i :: 0 <= i < |transfers| ==> TransferOf(graph, kinds, processIn, replacement, transfers[i]))
    && (forall v :: v in replacement ==> v in graph && Get(replacement[v], v, PlacementAfter(graph, v)) in transfers)
    && (forall v :: v in processIn && v in kinds && kinds[v] == ToDevice ==>
          v in graph && Put(processIn[v].number, v, PlacementAfter(graph, v)) in transfers)
  }

  /** Every stream made is the output or the input stream of the value it carries. */
  predicate StreamsUsed(processOut: map<nat, Stream>, processIn: map<nat, Stream>, streams: seq<Stream>) {
    forall i :: 0 <= i < |streams| ==>
      || (streams[i].value in processOut && processOut[streams[i].value] == streams[i])
      || (streams[i].value in processIn && processIn[streams[i].value] == streams[i])
  }

  /** Entries added for a value `v` that had none, with their own transfers appended, keep the transfers exact. */
  lemma TransfersExtend(graph: map<nat, ValueInfo>, kinds: map<nat, MappingKind>,
                        processIn: map<nat, Stream>, replacement: map<nat, nat>, transfers: seq<Transfer>,
                        processIn': map<nat, Stream>, replacement': map<nat, nat>, transfers': seq<Transfer>, v: nat)
    requires Transfers(graph, kinds, processIn, replacement, transfers)
    requires v in graph && v !in processIn && v !in replacement
    requires processIn' == processIn || (v in processIn' && processIn' == processIn[v := processIn'[v]])
    requires replacement' == replacement || (v in replacement' && replacement' == replacement[v := replacement'[v]])
    requires |transfers| <= |transfers'| && transfers'[..|transfers|] == transfers
    requires forall i :: |transfers| <= i < |transfers'| ==> TransferOf(graph, kinds, processIn', replacement', transfers'[i])
    requires v in replacement' ==> Get(replacement'[v], v, PlacementAfter(graph, v)) in transfers'
    requires v in processIn' && v in kinds && kinds[v] == ToDevice ==> Put(processIn'[v].number, v, PlacementAfter(graph, v)) in transfers'
    ensures Transfers(graph, kinds, processIn', replacement', transfers')
  {
    forall i | 0 <= i < |transfers'| ensures TransferOf(graph, kinds, processIn', replacement', transfers'[i]) {
      if i < |transfers| {
        assert transfers'[i] == transfers[i];
        assert TransferOf(graph, kinds, processIn, replacement, transfers[i]);
      }
    }
    forall t | t in transfers ensures t in transfers' {
      var i :| 0 <= i < |transfers| && transfers[i] == t;
      assert transfers'[i] == t;
    }
  }

  /** The same for the streams: old streams keep their entries, and the new ones are `v`'s. */
  lemma StreamsExtend(processOut: map<nat, Stream>, processIn: map<nat, Stream>, streams: seq<Stream>,
                      processOut': map<nat, Stream>, processIn': map<nat, Stream>, streams': seq<Stream>, v: nat)
    requires StreamsUsed(processOut, processIn, streams)
    requires v !in processOut && v !in processIn
    requires processOut' == processOut || (v in processOut' && processOut' == processOut[v := processOut'[v]])
    requires processIn' == processIn || (v in processIn' && processIn' == processIn[v := processIn'[v]])
    requires |streams| <= |streams'| && streams'[..|streams|] == streams
    requires forall i :: |streams| <= i < |streams'| ==>
      (v in processOut' && processOut'[v] == streams'[i]) || (v in processIn' && processIn'[v] == streams'[i])
    requires forall i :: |streams| <= i < |streams'| ==> streams'[i].value == v
    ensures StreamsUsed(processOut', processIn', streams')
  {
    forall i | 0 <= i < |streams| ensures
      || (streams'[i].value in processOut' && processOut'[streams'[i].value] == streams'[i])
      || (streams'[i].value in processIn' && processIn'[streams'[i].value] == streams'[i])
    {
      assert streams'[i] == streams[i];
    }
  }

  /**
   * The primed state is what mapValueToStreams leaves for a value `v` that was in neither
   * mapping: by its kind, the streams appended, the mapping entries added for `v`, and the get
   * or put appended.
   */
  predicate FreshUpdate(graph: map<nat, ValueInfo>, kinds: map<nat, MappingKind>,
                        processOut: map<nat, Stream>, processIn: map<nat, Stream>,
                        replacement: map<nat, nat>, streams: seq<Stream>, transfers: seq<Transfer>,
                        processOut': map<nat, Stream>, processIn': map<nat, Stream>,
                        replacement': map<nat, nat>, streams': seq<Stream>, transfers': seq<Transfer>, v: nat)
    requires v in kinds && v in graph
  {
    var n := |streams|;
    var at := PlacementAfter(graph, v);
    match kinds[v]
    case Splice =>
      && streams' == streams + [Stream(n, DeviceToHost, v), Stream(n + 1, HostToDevice, v)]
      && processOut' == processOut[v := Stream(n, DeviceToHost, v)]
      && processIn' == processIn[v := Stream(n + 1, HostToDevice, v)]
      && replacement' == replacement[v := n]
      && transfers' == transfers + [Get(n, v, at)]
    case ToHost =>
      && streams' == streams + [Stream(n, DeviceToHost, v)]
      && processOut' == processOut[v := Stream(n, DeviceToHost, v)]
      && processIn' == processIn && replacement' == replacement[v := n]
      && transfers' == transfers + [Get(n, v, at)]
    case OnDevice =>
      && streams' == streams + [Stream(n, OnDeviceStream, v)]
      && processOut' == processOut[v := Stream(n, OnDeviceStream, v)]
      && processIn' == processIn[v := Stream(n, OnDeviceStream, v)]
      && replacement' == replacement && transfers' == transfers
    case ToDevice =>
      && streams' == streams + [Stream(n, HostToDevice, v)]
      && processOut' == processOut
      && processIn' == processIn[v := Stream(n, HostToDevice, v)]
      && replacement' == replacement
      && transfers' == transfers + [Put(n, v, at)]
    case NoStream =>
      && streams' == streams && processOut' == processOut && processIn' == processIn && replacement' == replacement
      && transfers' == transfers
  }

  /** What mapValueToStreams adds for a fresh value of each kind keeps the mappings valid. */
  lemma MapFreshValue(graph: map<nat, ValueInfo>, kinds: map<nat, MappingKind>,
                      processOut: map<nat, Stream>, processIn: map<nat, Stream>,
                      replacement: map<nat, nat>, streams: seq<Stream>, transfers: seq<Transfer>,
                      processOut': map<nat, Stream>, processIn': map<nat, Stream>,
                      replacement': map<nat, nat>, streams': seq<Stream>, transfers': seq<Transfer>, v: nat)
    requires Numbered(streams) && Mappings(kinds, processOut, processIn, replacement, streams)
    requires v in kinds && v in graph && v !in processOut && v !in processIn
    requires FreshUpdate(graph, kinds, processOut, processIn, replacement, streams, transfers,
                         processOut', processIn', replacement', streams', transfers', v)
    ensures Numbered(streams') && Mappings(kinds, processOut', processIn', replacement', streams')
  {
    assert v !in replacement;
    assert streams'[..|streams|] == streams;
    forall i | 0 <= i < |streams'| ensures streams'[i].number == i {
      if i < |streams| {
        assert streams'[i] == streams[i];
      }
    }
    if kinds[v] != NoStream {
      AddEntries(kinds, processOut, processIn, replacement, streams, processOut', processIn', replacement', streams', v);
    }
  }

  /**
   * ... and keeps every stream in use and the transfers exact: the new streams are `v`'s, and
   * the get or put appended is `v`'s own.
   */
  lemma MapFreshTransfers(graph: map<nat, ValueInfo>, kinds: map<nat, MappingKind>,
                          processOut: map<nat, Stream>, processIn: map<nat, Stream>,
                          replacement: map<nat, nat>, streams: seq<Stream>, transfers: seq<Transfer>,
                          processOut': map<nat, Stream>, processIn': map<nat, Stream>,
                          replacement': map<nat, nat>, streams': seq<Stream>, transfers': seq<Transfer>, v: nat)
    requires Transfers(graph, kinds, processIn, replacement, transfers) && StreamsUsed(processOut, processIn, streams)
    requires v in kinds && v in graph && v !in processOut && v !in processIn && v !in replacement
    requires FreshUpdate(graph, kinds, processOut, processIn, replacement, streams, transfers,
                         processOut', processIn', replacement', streams', transfers', v)
    ensures Transfers(graph, kinds, processIn', replacement', transfers') && StreamsUsed(processOut', processIn', streams')
  {
    var n, at := |streams|, PlacementAfter(graph, v);
    assert transfers'[..|transfers|] == transfers;
    assert streams'[..|streams|] == streams;
    match kinds[v]
    case Splice =>
      assert transfers'[|transfers|] == Get(n, v, at);
      TransfersExtend(graph, kinds, processIn, replacement, transfers, processIn', replacement', transfers', v);
      StreamsExtend(processOut, processIn, streams, processOut', processIn', streams', v);
    case ToHost =>
      assert transfers'[|transfers|] == Get(n, v, at);
      TransfersExtend(graph, kinds, processIn, replacement, transfers, processIn', replacement', transfers', v);
      StreamsExtend(processOut, processIn, streams, processOut', processIn', streams', v);
    case OnDevice =>
      TransfersExtend(graph, kinds, processIn, replacement, transfers, processIn', replacement', transfers', v);
      StreamsExtend(processOut, processIn, streams, processOut', processIn', streams', v);
    case ToDevice =>
      assert transfers'[|transfers|] == Put(n, v, at);
      TransfersExtend(graph, kinds, processIn, replacement, transfers, processIn', replacement', transfers', v);
      StreamsExtend(processOut, processIn, streams, processOut', processIn', streams', v);
    case NoStream =>
  }

  /** `kinds` holds the mapping kind of every value of the graph. */
  predicate KindsOf(graph: map<nat, ValueInfo>, kinds: map<nat, MappingKind>) {
    kinds == map v | v in graph :: Kind(graph, v)
  }

  /** `m'` keeps every entry of `m`. */
  predicate Extends(m': map<nat, Stream>, m: map<nat, Stream>) {
    forall w :: w in m ==> w in m' && m'[w] == m[w]
  }

  /** `m'` is `m`, or `m` with an entry added for `v`. */
  predicate UpdatedAt(m': map<nat, Stream>, m: map<nat, Stream>, v: nat) {
    m' == m || (v !in m && v in m' && m' == m[v := m'[v]])
  }

  /** A further update at `v` keeps extending an earlier map and adds at most `v` to its keys. */
  lemma UpdatedAtExtends(m'': map<nat, Stream>, m': map<nat, Stream>, m: map<nat, Stream>, v: nat)
    requires UpdatedAt(m'', m', v) && Extends(m', m)
    ensures Extends(m'', m) && m''.Keys <= m'.Keys + {v}
  {
  }

  function Elements(s: seq<nat>): set<nat> {
    set j | 0 <= j < |s| :: s[j]
  }

  lemma ElementsOf(s: seq<nat>, v: nat)
    ensures v in s <==> v in Elements(s)
  {
    if v in s {
      var j :| 0 <= j < |s| && s[j] == v;
    }
  }

  /** The results and operands of one convertible op. */
  function OpValues(op: ConvertibleOp): set<nat> {
    Elements(op.results) + Elements(op.operands)
  }

  /** The results and operands of the convertible ops. */
  function TouchedValues(ops: seq<ConvertibleOp>): set<nat> {
    if |ops| == 0 then {} else TouchedValues(ops[..|ops| - 1]) + OpValues(ops[|ops| - 1])
  }

  /** `ns` holds, in order, the number of the stream `m` gives each of the first `n` of `vs`. */
  predicate NumbersOf(ns: seq<nat>, vs: seq<nat>, n: nat, m: map<nat, Stream>)
    requires n <= |vs|
  {
    |ns| == n && forall j :: 0 <= j < n ==> vs[j] in m && ns[j] == m[vs[j]].number
  }

  lemma NumbersOfStep(ns: seq<nat>, vs: seq<nat>, n: nat, m: map<nat, Stream>, m': map<nat, Stream>)
    requires n < |vs| && NumbersOf(ns, vs, n, m) && Extends(m', m) && vs[n] in m'
    ensures NumbersOf(ns + [m'[vs[n]].number], vs, n + 1, m')
  {
  }

  /** The values given streams while converting op `n` are among the results and operands of ops 0..n. */
  lemma KeysStep(out0: map<nat, Stream>, in0: map<nat, Stream>, out1: map<nat, Stream>, in1: map<nat, Stream>,
                 ops: seq<ConvertibleOp>, n: nat)
    requires n < |ops|
    requires out0.Keys + in0.Keys <= TouchedValues(ops[..n])
    requires forall v :: v in out1 ==> v in out0 || v in ops[n].results || v in ops[n].operands
    requires forall v :: v in in1 ==> v in in0 || v in ops[n].results || v in ops[n].operands
    ensures out1.Keys + in1.Keys <= TouchedValues(ops[..n + 1])
  {
    assert ops[..n + 1][..n] == ops[..n];
    forall v | v in out1.Keys + in1.Keys ensures v in TouchedValues(ops[..n + 1]) {
      if v !in out0.Keys + in0.Keys {
        ElementsOf(ops[n].results, v);
        ElementsOf(ops[n].operands, v);
      }
    }
  }

  /**
   * The process `p` built for the i-th op reads each operand from its input stream and writes
   * each result to its output stream, in the op's operand and result order.
   */
  predicate Wired(processOut: map<nat, Stream>, processIn: map<nat, Stream>, p: Process, i: nat, op: ConvertibleOp) {
    p.op == i && NumbersOf(p.outs, op.results, |op.results|, processOut) && NumbersOf(p.ins, op.operands, |op.operands|, processIn)
  }

  lemma WiredExtends(processOut: map<nat, Stream>, processIn: map<nat, Stream>,
                     processOut': map<nat, Stream>, processIn': map<nat, Stream>,
                     ps: seq<Process>, ops: seq<ConvertibleOp>)
    requires |ps| <= |ops|
    requires Extends(processOut', processOut) && Extends(processIn', processIn)
    requires forall i :: 0 <= i < |ps| ==> Wired(processOut, processIn, ps[i], i, ops[i])
    ensures forall i :: 0 <= i < |ps| ==> Wired(processOut', processIn', ps[i], i, ops[i])
  {
  }

  /** The state of one run of the pass over a function. */
  class StreamExtraction {
    const graph: map<nat, ValueInfo>
    /** The mapping kind of every value, as determineStreamMappingKind computes it. */
    ghost const kinds: map<nat, MappingKind>
    var processOut: map<nat, Stream>
    var processIn: map<nat, Stream>
    /** A value to the number of the stream whose get replaces it. */
    var replacement: map<nat, nat>
    var streamNumber: nat
    /** Every make_stream created, in creation order. */
    var streams: seq<Stream>
    var transfers: seq<Transfer>
    var processes: seq<Process>
    /** Whether the prelude (init, start) and the shutdown were inserted. */
    var prelude: bool
    /** The operands of the host code, rewritten by the final replacement. */
    var uses: seq<SsaValue>

    /**
     * The mappings only ever point at streams that were made, streams are numbered by creation
     * order, a value is in a mapping exactly as its mapping kind dictates, every stream is some
     * value's output or input stream, and the transfers are exactly the gets of the replaced
     * values and the puts of the TO_DEVICE values.
     */
    ghost predicate Valid()
      reads this
    {
      && WellFormedGraph(graph)
      && |streams| == streamNumber
      && Numbered(streams)
      && KindsOf(graph, kinds)
      && Mappings(kinds, processOut, processIn, replacement, streams)
      && Transfers(graph, kinds, processIn, replacement, transfers)
      && StreamsUsed(processOut, processIn, streams)
    }

    constructor (graph: map<nat, ValueInfo>, uses: seq<SsaValue>)
      requires WellFormedGraph(graph)
      ensures Valid()
      ensures this.graph == graph && this.uses == uses
      ensures processOut == map[] && processIn == map[] && replacement == map[]
      ensures streamNumber == 0 && streams == [] && transfers == [] && processes == [] && !prelude
    {
      this.graph := graph;
      this.kinds := map v | v in graph :: Kind(graph, v);
      this.uses := uses;
      processOut := map[];
      processIn := map[];
      replacement := map[];
      streamNumber := 0;
      streams := [];
      transfers := [];
      processes := [];
      prelude := false;
    }

    /** makeStream: names the stream after the counter and increments it. */
    method MakeStream(kind: StreamKind, v: nat) returns (s: Stream)
      modifies this
      ensures s == Stream(old(streamNumber), kind, v)
      ensures streamNumber == old(streamNumber) + 1
      ensures streams == old(streams) + [s]
      ensures processOut == old(processOut) && processIn == old(processIn) && replacement == old(replacement)
      ensures transfers == old(transfers) && processes == old(processes) && prelude == old(prelude) && uses == old(uses)
    {
      s := Stream(streamNumber, kind, v);
      streamNumber := streamNumber + 1;
      streams := streams + [s];
    }

    /**
     * mapValueToStreams: a value already in either mapping is left alone; otherwise its kind
     * decides which streams are made: SPLICE a device-to-host and a host-to-device stream,
     * TO_HOST the first only, TO_DEVICE the second only, ON_DEVICE one on-device stream that is
     * both its output and its input, NONE nothing. SPLICE and TO_HOST values are replaced by a
     * get on their output stream; a TO_DEVICE value is put on its input stream.
     */
    method MapValueToStreams(v: nat)
      requires Valid() && v in graph
      modifies this
      ensures Valid()
      ensures old(v in processIn || v in processOut) ==>
        && processOut == old(processOut) && processIn == old(processIn) && replacement == old(replacement)
        && streams == old(streams) && transfers == old(transfers)
      ensures !old(v in processIn || v in processOut) ==>
        var n := old(streamNumber);
        var at := PlacementAfter(graph, v);
        match Kind(graph, v)
        case Splice =>
          && streams == old(streams) + [Stream(n, DeviceToHost, v), Stream(n + 1, HostToDevice, v)]
          && processOut == old(processOut)[v := Stream(n, DeviceToHost, v)]
          && processIn == old(processIn)[v := Stream(n + 1, HostToDevice, v)]
          && replacement == old(replacement)[v := n]
          && transfers == old(transfers) + [Get(n, v, at)]
        case ToHost =>
          && streams == old(streams) + [Stream(n, DeviceToHost, v)]
          && processOut == old(processOut)[v := Stream(n, DeviceToHost, v)]
          && processIn == old(processIn)
          && replacement == old(replacement)[v := n]
          && transfers == old(transfers) + [Get(n, v, at)]
        case OnDevice =>
          && streams == old(streams) + [Stream(n, OnDeviceStream, v)]
          && processOut == old(processOut)[v := Stream(n, OnDeviceStream, v)]
          && processIn == old(processIn)[v := Stream(n, OnDeviceStream, v)]
          && replacement == old(replacement)
          && transfers == old(transfers)
        case ToDevice =>
          && streams == old(streams) + [Stream(n, HostToDevice, v)]
          && processOut == old(processOut)
          && processIn == old(processIn)[v := Stream(n, HostToDevice, v)]
          && replacement == old(replacement)
          && transfers == old(transfers) + [Put(n, v, at)]
        case NoStream =>
          && streams == old(streams)
          && processOut == old(processOut) && processIn == old(processIn) && replacement == old(replacement)
          && transfers == old(transfers)
      ensures processes == old(processes) && prelude == old(prelude) && uses == old(uses)
      ensures UpdatedAt(processOut, old(processOut), v) && UpdatedAt(processIn, old(processIn), v)
      ensures graph[v].producerConvertible ==> v in processOut
      ensures CountConvertible(graph[v].userConvertible) > 0 ==> v in processIn
    {
      MappingKindByCount(graph[v].producerConvertible, graph[v].userConvertible);
      if v in processIn || v in processOut {
        return;
      }
      assert kinds[v] == Kind(graph, v);
      var smk := DetermineStreamMappingKind(graph[v].producerConvertible, graph[v].userConvertible);
      var prodOutStream := MapOutput(v, smk);
      MapInput(v, smk, prodOutStream);
      MapFreshValue(graph, kinds, old(processOut), old(processIn), old(replacement), old(streams), old(transfers),
                    processOut, processIn, replacement, streams, transfers, v);
      MapFreshTransfers(graph, kinds, old(processOut), old(processIn), old(replacement), old(streams), old(transfers),
                        processOut, processIn, replacement, streams, transfers, v);
    }

    /** The first half of mapValueToStreams: the producer's output stream, and the get that replaces `v`. */
    method MapOutput(v: nat, smk: MappingKind) returns (prodOutStream: Option<Stream>)
      requires v in graph
      modifies this
      ensures var n := old(streamNumber);
        if smk == Splice || smk == ToHost then
          && prodOutStream == Some(Stream(n, DeviceToHost, v))
          && streamNumber == n + 1 && streams == old(streams) + [prodOutStream.value]
          && processOut == old(processOut)[v := prodOutStream.value]
          && transfers == old(transfers) + [Get(n, v, PlacementAfter(graph, v))]
          && replacement == old(replacement)[v := n]
        else if smk == OnDevice then
          && prodOutStream == Some(Stream(n, OnDeviceStream, v))
          && streamNumber == n + 1 && streams == old(streams) + [prodOutStream.value]
          && processOut == old(processOut)[v := prodOutStream.value]
          && transfers == old(transfers) && replacement == old(replacement)
        else
          && prodOutStream == None
          && streamNumber == n && streams == old(streams) && processOut == old(processOut)
          && transfers == old(transfers) && replacement == old(replacement)
      ensures processIn == old(processIn) && processes == old(processes) && prelude == old(prelude) && uses == old(uses)
    {
      prodOutStream := None;
      if smk == Splice || smk == ToHost {
        var s := MakeStream(DeviceToHost, v);
        prodOutStream := Some(s);
        processOut := processOut[v := s];
        transfers := transfers + [Get(s.number, v, PlacementAfter(graph, v))];
        replacement := replacement[v := s.number];
      } else if smk == OnDevice {
        var s := MakeStream(OnDeviceStream, v);
        prodOutStream := Some(s);
        processOut := processOut[v := s];
      }
    }

    /**
     * The second half of mapValueToStreams: an ON_DEVICE value reads from its output stream;
     * SPLICE and TO_DEVICE values get a host-to-device stream, fed by a put for TO_DEVICE.
     */
    method MapInput(v: nat, smk: MappingKind, prodOutStream: Option<Stream>)
      requires v in graph && (smk == OnDevice ==> prodOutStream.Some?)
      modifies this
      ensures var n := old(streamNumber);
        if smk == OnDevice then
          && processIn == old(processIn)[v := prodOutStream.value]
          && streamNumber == n && streams == old(streams) && transfers == old(transfers)
        else if smk == Splice || smk == ToDevice then
          && streamNumber == n + 1 && streams == old(streams) + [Stream(n, HostToDevice, v)]
          && processIn == old(processIn)[v := Stream(n, HostToDevice, v)]
          && transfers == old(transfers) + (if smk == ToDevice then [Put(n, v, PlacementAfter(graph, v))] else [])
        else
          && streamNumber == n && streams == old(streams) && processIn == old(processIn) && transfers == old(transfers)
      ensures processOut == old(processOut) && replacement == old(replacement)
      ensures processes == old(processes) && prelude == old(prelude) && uses == old(uses)
    {
      if smk == OnDevice {
        processIn := processIn[v := prodOutStream.value];
      } else if smk == Splice || smk == ToDevice {
        var consInStream := MakeStream(HostToDevice, v);
        processIn := processIn[v := consInStream];
        if smk == ToDevice {
          transfers := transfers + [Put(consInStream.number, v, PlacementAfter(graph, v))];
        }
      }
    }

    /**
     * runOnOperation over the convertible ops found by the walk: with none, nothing happens;
     * otherwise the prelude is inserted, each op's results and then its operands are mapped to
     * streams, the op becomes a process on those streams, and finally every replaced value's uses
     * are redirected to its get.
     */
    method Run(ops: seq<ConvertibleOp>)
      requires Valid() && ConsistentOps(graph, ops)
      requires processOut == map[] && processIn == map[] && replacement == map[]
      requires streams == [] && transfers == [] && processes == [] && !prelude
      modifies this
      ensures Valid()
      ensures |ops| == 0 ==>
        && !prelude && streams == [] && transfers == [] && processes == [] && uses == old(uses)
        && processOut == map[] && processIn == map[] && replacement == map[]
      ensures |ops| > 0 ==> prelude
      ensures Transfers(graph, kinds, processIn, replacement, transfers) && StreamsUsed(processOut, processIn, streams)
      ensures |processes| == |ops|
      ensures forall i :: 0 <= i < |ops| ==> Wired(processOut, processIn, processes[i], i, ops[i])
      ensures processOut.Keys + processIn.Keys <= TouchedValues(ops)
      ensures |uses| == |old(uses)|
      ensures forall i :: 0 <= i < |uses| ==> uses[i] == Redirect(old(uses)[i], replacement)
    {
      if |ops| == 0 {
        return;
      }
      prelude := true;
      for opIndex := 0 to |ops|
        invariant Valid() && prelude && uses == old(uses)
        invariant |processes| == opIndex
        invariant forall i :: 0 <= i < opIndex ==> Wired(processOut, processIn, processes[i], i, ops[i])
        invariant processOut.Keys + processIn.Keys <= TouchedValues(ops[..opIndex])
      {
        ghost var processOut0, processIn0 := processOut, processIn;
        ConvertOp(ops, opIndex);
        KeysStep(processOut0, processIn0, processOut, processIn, ops, opIndex);
      }
      assert ops[..|ops|] == ops;
      ReplaceUses();
    }

    /**
     * One iteration of the loop over the convertible ops: its results, then its operands, are
     * mapped to streams, and the op becomes a process reading the operands' input streams and
     * writing the results' output streams.
     */
    method ConvertOp(ops: seq<ConvertibleOp>, opIndex: nat)
      requires Valid() && opIndex < |ops| && ConsistentOps(graph, ops)
      requires |processes| == opIndex
      requires forall i :: 0 <= i < opIndex ==> Wired(processOut, processIn, processes[i], i, ops[i])
      modifies this
      ensures Valid()
      ensures |processes| == opIndex + 1
      ensures forall i :: 0 <= i <= opIndex ==> Wired(processOut, processIn, processes[i], i, ops[i])
      ensures forall v :: v in processOut ==> v in old(processOut) || v in ops[opIndex].results || v in ops[opIndex].operands
      ensures forall v :: v in processIn ==> v in old(processIn) || v in ops[opIndex].results || v in ops[opIndex].operands
      ensures prelude == old(prelude) && uses == old(uses)
    {
      var op := ops[opIndex];
      ghost var processOut0, processIn0 := processOut, processIn;
      var outs := MapResults(op.results);
      var ins := MapOperands(op.operands);
      WiredExtends(processOut0, processIn0, processOut, processIn, processes, ops);
      assert Wired(processOut, processIn, Process(opIndex, ins, outs), opIndex, op);
      processes := processes + [Process(opIndex, ins, outs)];
    }

    /** The loop over a convertible op's results: map each to streams and collect its output stream. */
    method MapResults(results: seq<nat>) returns (outs: seq<nat>)
      requires Valid()
      requires ResultsOfConvertible(graph, results)
      modifies this
      ensures Valid()
      ensures NumbersOf(outs, results, |results|, processOut)
      ensures Extends(processOut, old(processOut)) && Extends(processIn, old(processIn))
      ensures forall v :: v in processOut ==> v in old(processOut) || v in results
      ensures forall v :: v in processIn ==> v in old(processIn) || v in results
      ensures processes == old(processes) && prelude == old(prelude) && uses == old(uses)
    {
      outs := [];
      for j := 0 to |results|
        invariant Valid() && processes == old(processes) && prelude == old(prelude) && uses == old(uses)
        invariant Extends(processOut, old(processOut)) && Extends(processIn, old(processIn))
        invariant NumbersOf(outs, results, j, processOut)
        invariant forall v :: v in processOut ==> v in old(processOut) || v in results
        invariant forall v :: v in processIn ==> v in old(processIn) || v in results
      {
        var res := results[j];
        ghost var processOut1, processIn1 := processOut, processIn;
        MapValueToStreams(res);
        UpdatedAtExtends(processOut, processOut1, old(processOut), res);
        UpdatedAtExtends(processIn, processIn1, old(processIn), res);
        NumbersOfStep(outs, results, j, processOut1, processOut);
        outs := outs + [processOut[res].number];
      }
    }

    /** The loop over a convertible op's operands: map each to streams and collect its input stream. */
    method MapOperands(operands: seq<nat>) returns (ins: seq<nat>)
      requires Valid()
      requires OperandsOfConvertible(graph, operands)
      modifies this
      ensures Valid()
      ensures NumbersOf(ins, operands, |operands|, processIn)
      ensures Extends(processOut, old(processOut)) && Extends(processIn, old(processIn))
      ensures forall v :: v in processOut ==> v in old(processOut) || v in operands
      ensures forall v :: v in processIn ==> v in old(processIn) || v in operands
      ensures processes == old(processes) && prelude == old(prelude) && uses == old(uses)
    {
      ins := [];
      for j := 0 to |operands|
        invariant Valid() && processes == old(processes) && prelude == old(prelude) && uses == old(uses)
        invariant Extends(processOut, old(processOut)) && Extends(processIn, old(processIn))
        invariant NumbersOf(ins, operands, j, processIn)
        invariant forall v :: v in processOut ==> v in old(processOut) || v in operands
        invariant forall v :: v in processIn ==> v in old(processIn) || v in operands
      {
        var operand := operands[j];
        ghost var processOut1, processIn1 := processOut, processIn;
        MapValueToStreams(operand);
        UpdatedAtExtends(processOut, processOut1, old(processOut), operand);
        UpdatedAtExtends(processIn, processIn1, old(processIn), operand);
        NumbersOfStep(ins, operands, j, processIn1, processIn);
        ins := ins + [processIn[operand].number];
      }
    }

    /** The final loop over the replacement mapping: replaceAllUsesWith for each entry. */
    method ReplaceUses()
      modifies this
      ensures |uses| == |old(uses)|
      ensures forall i :: 0 <= i < |uses| ==> uses[i] == Redirect(old(uses)[i], replacement)
      ensures processOut == old(processOut) && processIn == old(processIn) && replacement == old(replacement)
      ensures streamNumber == old(streamNumber) && streams == old(streams) && transfers == old(transfers)
      ensures processes == old(processes) && prelude == old(prelude)
    {
      var pending := replacement.Keys;
      while pending != {}
        invariant pending <= replacement.Keys
        invariant |uses| == |old(uses)|
        invariant forall i :: 0 <= i < |uses| ==>
          uses[i] == Redirect(old(uses)[i], map w | w in replacement && w !in pending :: replacement[w])
        invariant processOut == old(processOut) && processIn == old(processIn) && replacement == old(replacement)
        invariant streamNumber == old(streamNumber) && streams == old(streams) && transfers == old(transfers)
        invariant processes == old(processes) && prelude == old(prelude)
        decreases pending
      {
        var v :| v in pending;
        var target := GetResult(replacement[v]);
        uses := seq(|uses|, i requires 0 <= i < |uses| reads this => if uses[i] == Original(v) then target else uses[i]);
        pending := pending - {v};
      }
    }

    /**
     * Stream numbers are distinct, so a stream serves one value; a value's input and output
     * mappings share a stream only for an ON_DEVICE value.
     */
    lemma SharedStreamIsOnDevice(v: nat, w: nat)
      requires Valid() && v in processOut && w in processIn
      ensures processOut[v].number == processIn[w].number <==> v == w && Kind(graph, v) == OnDevice
    {
      var o, i := processOut[v], processIn[w];
      assert OutEntry(kinds, streams, processIn, replacement, v, o);
      assert InEntry(kinds, streams, processOut, w, i);
    }
  }
}
