/** The adapter between the F´ communication stack and a LoRa node.

    Port calls in and out are recorded in two logs, so that what holds of every run is an invariant of
    the object.  The text of the configuration file, the hardware, the chip's flags and the buffer
    manager act as they please. */
module RadioAdapter {
  import opened Common
  import opened NodeConfig
  import opened RadioNode
  import NodeConfigYaml

  type BufferId = nat

  /** What the buffer manager hands out. */
  datatype Buffer = Buffer(id: BufferId, valid: bool, size: nat)

  /** Port calls of the transmit side, in order.  ready records that the node was up for this call. */
  datatype ComEvent =
    | DataIn(id: BufferId, payload: Payload, ready: bool)
    | DataReturn(id: BufferId)
    | Status(success: bool)
    | InitialStatus

  // ------------------------------------------------------------------ the transmit side

  /** Every dataIn is followed by the return of its buffer and then by its status, SUCCESS exactly when
      the node was up and the payload fits a packet; there is no other return and no other status. */
  ghost predicate AnsweredAt(log: seq<ComEvent>, i: nat)
    requires i < |log|
  {
    match log[i]
    case DataIn(id, payload, ready) =>
      i + 2 < |log| && log[i + 1] == DataReturn(id) && log[i + 2] == Status(ready && |payload| <= 0xFF)
    case DataReturn(id) => i >= 1 && log[i - 1].DataIn? && log[i - 1].id == id
    case Status(_) => i >= 2 && log[i - 2].DataIn?
    case InitialStatus => true
  }

  ghost predicate Answered(log: seq<ComEvent>) {
    forall i :: 0 <= i < |log| ==> AnsweredAt(log, i)
  }

  /** Once up, the node stays up; the initial status comes when it is up. */
  ghost predicate ReadyStays(log: seq<ComEvent>, started: bool) {
    && (forall i, j :: 0 <= i < j < |log| && Up(log[i]) && log[j].DataIn? ==> log[j].ready)
    && (forall i :: 0 <= i < |log| && Up(log[i]) ==> started)
  }

  predicate Up(e: ComEvent) {
    e.InitialStatus? || (e.DataIn? && e.ready)
  }

  function CountInitial(log: seq<ComEvent>): nat {
    if log == [] then 0
    else CountInitial(log[..|log| - 1]) + if log[|log| - 1].InitialStatus? then 1 else 0
  }

  function CountStatus(log: seq<ComEvent>): nat {
    if log == [] then 0
    else CountStatus(log[..|log| - 1]) + if log[|log| - 1].Status? || log[|log| - 1].InitialStatus? then 1 else 0
  }

  function CountDataIn(log: seq<ComEvent>): nat {
    if log == [] then 0
    else CountDataIn(log[..|log| - 1]) + if log[|log| - 1].DataIn? then 1 else 0
  }

  lemma {:induction false} Appended(log: seq<ComEvent>, e: ComEvent)
    ensures CountInitial(log + [e]) == CountInitial(log) + if e.InitialStatus? then 1 else 0
    ensures CountStatus(log + [e]) == CountStatus(log) + if e.Status? || e.InitialStatus? then 1 else 0
    ensures CountDataIn(log + [e]) == CountDataIn(log) + if e.DataIn? then 1 else 0
  {
    assert (log + [e])[..|log|] == log;
  }

  /** Statuses: one per dataIn, and one more once the initial status was sent. */
  ghost predicate Balanced(log: seq<ComEvent>, initialSent: bool) {
    && CountInitial(log) == (if initialSent then 1 else 0)
    && CountStatus(log) == CountDataIn(log) + (if initialSent then 1 else 0)
  }

  ghost predicate ComValid(log: seq<ComEvent>, started: bool, initialSent: bool) {
    Answered(log) && ReadyStays(log, started) && Balanced(log, initialSent)
  }

  lemma AnswerKeepsComValid(log: seq<ComEvent>, started: bool, initialSent: bool,
                            id: BufferId, payload: Payload)
    requires ComValid(log, started, initialSent)
    ensures ComValid(log + [DataIn(id, payload, started)] + [DataReturn(id)] + [Status(started && |payload| <= 0xFF)],
                     started, initialSent)
  {
    AnswerKeepsBalance(log, initialSent, id, payload, started);
    hide AnsweredAt, Balanced;
    var answer := [DataIn(id, payload, started), DataReturn(id), Status(started && |payload| <= 0xFF)];
    var c := log + answer;
    assert c == log + [DataIn(id, payload, started)] + [DataReturn(id)] + [Status(started && |payload| <= 0xFF)];
    forall i | 0 <= i < |c| ensures AnsweredAt(c, i) {
      if i < |log| {
        AnsweredStays(log, answer, i);
      } else {
      }
    }
    assert forall i :: 0 <= i < |log| ==> c[i] == log[i];
  }

  /** What comes later does not undo an answer. */
  lemma AnsweredStays(log: seq<ComEvent>, more: seq<ComEvent>, i: nat)
    requires i < |log| && AnsweredAt(log, i)
    ensures AnsweredAt(log + more, i)
  {
  }

  lemma AnswerKeepsBalance(log: seq<ComEvent>, initialSent: bool, id: BufferId, payload: Payload, ready: bool)
    requires Balanced(log, initialSent)
    ensures Balanced(log + [DataIn(id, payload, ready)] + [DataReturn(id)] + [Status(ready && |payload| <= 0xFF)],
                     initialSent)
  {
    hide CountInitial, CountStatus, CountDataIn;
    var a := log + [DataIn(id, payload, ready)];
    Appended(log, DataIn(id, payload, ready));
    Appended(a, DataReturn(id));
    Appended(a + [DataReturn(id)], Status(ready && |payload| <= 0xFF));
  }

  lemma InitialKeepsComValid(log: seq<ComEvent>)
    requires ComValid(log, true, false)
    ensures ComValid(log + [InitialStatus], true, true)
  {
    var c := log + [InitialStatus];
    Appended(log, InitialStatus);
    forall i | 0 <= i < |c| ensures AnsweredAt(c, i) {
      if i < |log| {
        assert AnsweredAt(log, i);
      }
    }
    assert forall i :: 0 <= i < |log| ==> c[i] == log[i];
  }

  lemma EmptyComValid()
    ensures ComValid([], false, false)
  {
  }

  lemma StartKeepsComValid(log: seq<ComEvent>, initialSent: bool)
    requires ComValid(log, false, initialSent)
    ensures ComValid(log, true, initialSent)
  {
  }

  // ------------------------------------------------------------------ the receive side

  predicate Suitable(b: Buffer, p: Payload) {
    b.valid && b.size >= |p|
  }

  datatype Forward = Forward(id: BufferId, payload: Payload)

  /** What must have been forwarded when these buffers were allocated for these packets, in order. */
  function Forwarded(packets: seq<Payload>, buffers: seq<Buffer>): seq<Forward>
    requires |buffers| <= |packets|
  {
    if buffers == [] then []
    else
      var n := |buffers| - 1;
      Forwarded(packets, buffers[..n])
      + if Suitable(buffers[n], packets[n]) then [Forward(buffers[n].id, packets[n])] else []
  }

  /** Packets before packet i that got a buffer they fit in. */
  function FitsBefore(packets: seq<Payload>, buffers: seq<Buffer>, i: nat): nat
    requires i <= |buffers| <= |packets|
  {
    if i == 0 then 0
    else
      FitsBefore(packets, buffers, i - 1)
      + if buffers[i - 1].valid && |packets[i - 1]| <= buffers[i - 1].size then 1 else 0
  }

  /** Each packet that got a valid buffer large enough is forwarded in that buffer, unchanged and in its place
      among the others, and no other packet is. */
  lemma {:induction false} ForwardedExactly(packets: seq<Payload>, buffers: seq<Buffer>, i: nat)
    requires i < |buffers| <= |packets|
    ensures |Forwarded(packets, buffers)| == FitsBefore(packets, buffers, |buffers|)
    ensures buffers[i].valid && |packets[i]| <= buffers[i].size ==>
      && FitsBefore(packets, buffers, i) < |Forwarded(packets, buffers)|
      && Forwarded(packets, buffers)[FitsBefore(packets, buffers, i)] == Forward(buffers[i].id, packets[i])
  {
    var n := |buffers| - 1;
    var before := buffers[..n];
    FitsOfPrefix(packets, buffers, n, n);
    if n == 0 {
      assert before == [];
    } else {
      ForwardedExactly(packets, before, if i < n then i else 0);
      if i < n {
        FitsOfPrefix(packets, buffers, n, i);
      }
    }
  }

  lemma {:induction false} FitsOfPrefix(packets: seq<Payload>, buffers: seq<Buffer>, n: nat, i: nat)
    requires i <= n <= |buffers| <= |packets|
    ensures FitsBefore(packets, buffers[..n], i) == FitsBefore(packets, buffers, i)
  {
    if i > 0 {
      FitsOfPrefix(packets, buffers, n, i - 1);
    }
  }

  /** What run_handler must have given back: valid buffers that were too small. */
  function GivenBack(packets: seq<Payload>, buffers: seq<Buffer>): seq<BufferId>
    requires |buffers| <= |packets|
  {
    if buffers == [] then []
    else
      var n := |buffers| - 1;
      GivenBack(packets, buffers[..n])
      + if buffers[n].valid && buffers[n].size < |packets[n]| then [buffers[n].id] else []
  }

  function ValidIds(buffers: seq<Buffer>): seq<BufferId> {
    if buffers == [] then []
    else
      var n := |buffers| - 1;
      ValidIds(buffers[..n]) + if buffers[n].valid then [buffers[n].id] else []
  }

  function Ids(fs: seq<Forward>): seq<BufferId> {
    if fs == [] then [] else Ids(fs[..|fs| - 1]) + [fs[|fs| - 1].id]
  }

  lemma {:induction false} IdsAppend(fs: seq<Forward>, f: Forward)
    ensures Ids(fs + [f]) == Ids(fs) + [f.id]
  {
    assert (fs + [f])[..|fs|] == fs;
  }

  lemma {:induction false} MorePackets(packets: seq<Payload>, more: seq<Payload>, buffers: seq<Buffer>)
    requires |buffers| <= |packets|
    ensures Forwarded(packets + more, buffers) == Forwarded(packets, buffers)
    ensures GivenBack(packets + more, buffers) == GivenBack(packets, buffers)
  {
    if buffers != [] {
      MorePackets(packets, more, buffers[..|buffers| - 1]);
    }
  }

  lemma {:induction false} OneMoreBuffer(packets: seq<Payload>, buffers: seq<Buffer>, b: Buffer)
    requires |buffers| < |packets|
    ensures var p := packets[|buffers|];
      && Forwarded(packets, buffers + [b])
         == Forwarded(packets, buffers) + (if Suitable(b, p) then [Forward(b.id, p)] else [])
      && GivenBack(packets, buffers + [b])
         == GivenBack(packets, buffers) + (if b.valid && b.size < |p| then [b.id] else [])
  {
    assert (buffers + [b])[..|buffers|] == buffers;
  }

  /** Conservation: each valid buffer was either forwarded or given back, and only one of the two. */
  lemma {:induction false} BuffersConserved(packets: seq<Payload>, buffers: seq<Buffer>)
    requires |buffers| <= |packets|
    ensures multiset(ValidIds(buffers))
         == multiset(Ids(Forwarded(packets, buffers))) + multiset(GivenBack(packets, buffers))
  {
    hide Forwarded, GivenBack, ValidIds, Ids, Suitable;
    if buffers == [] {
      NoBuffers(packets);
    } else {
      var n := |buffers| - 1;
      var before, b, p := buffers[..n], buffers[n], packets[n];
      BuffersConserved(packets, before);
      LastBuffer(packets, buffers);
      IdsAppend(Forwarded(packets, before), Forward(b.id, p));
    }
  }

  lemma NoBuffers(packets: seq<Payload>)
    ensures Forwarded(packets, []) == [] && GivenBack(packets, []) == [] && ValidIds([]) == [] && Ids([]) == []
  {
  }

  /** The last buffer is forwarded, given back, or was not valid in the first place. */
  lemma LastBuffer(packets: seq<Payload>, buffers: seq<Buffer>)
    requires 0 < |buffers| <= |packets|
    ensures var n := |buffers| - 1;
      var before, b, p := buffers[..n], buffers[n], packets[n];
      && Suitable(b, p) == (b.valid && b.size >= |p|)
      && Forwarded(packets, buffers)
         == (if Suitable(b, p) then Forwarded(packets, before) + [Forward(b.id, p)] else Forwarded(packets, before))
      && GivenBack(packets, buffers)
         == (if b.valid && !Suitable(b, p) then GivenBack(packets, before) + [b.id] else GivenBack(packets, before))
      && ValidIds(buffers) == (if b.valid then ValidIds(before) + [b.id] else ValidIds(before))
  {
  }

  /** The queue holds the packets no buffer was asked for yet; the others went the way their buffer decided. */
  ghost predicate RxKept(queue: seq<Payload>, received: seq<Payload>, buffers: seq<Buffer>,
                         forwarded: seq<Forward>, givenBack: seq<BufferId>) {
    && |buffers| <= |received|
    && queue == received[|buffers|..]
    && forwarded == Forwarded(received, buffers)
    && givenBack == GivenBack(received, buffers)
  }

  // ------------------------------------------------------------------ the component

  /** ensureNodeStarted calls start() when the node is not up and the configuration loads. */
  function StartCall(started: bool, yaml: Option<string>, hardwareOk: bool): seq<Event> {
    if !started && yaml.Some? then [Start(hardwareOk)] else []
  }

  lemma EmptyRun(cfg: Config)
    ensures Run(cfg, [], [Off])
  {
  }

  class RadioAdapter {
    var node: LoRaNode?
    var started: bool
    var initialStatusSent: bool
    var rxQueue: seq<Payload>

    ghost var com: seq<ComEvent>
    ghost var received: seq<Payload>      // delivered by the node
    ghost var buffers: seq<Buffer>      // results of the allocate port
    ghost var forwarded: seq<Forward>     // dataOut calls
    ghost var givenBack: seq<BufferId>    // deallocate calls of run_handler
    ghost var returned: seq<BufferId>     // deallocate calls of dataReturnIn_handler
    ghost var calls: seq<Event>           // calls made on the node
    ghost var states: seq<Node>           // and its states before, between and after them

    ghost predicate RxValid()
      reads this
    {
      RxKept(rxQueue, received, buffers, forwarded, givenBack)
    }

    /** The node's history is a run of a node. */
    ghost predicate NodeValid()
      reads this, node, Frame()
    {
      if node == null then calls == [] && states == [Off]
      else node.Valid() && Run(node.cfg, calls, states) && states[|calls|] == node.Abs()
    }

    ghost predicate Valid()
      reads this, node, Frame()
    {
      && NodeValid()
      && (started <==> node != null && node.started)
      && (initialStatusSent ==> started)
      && ComValid(com, started, initialStatusSent)
      && RxValid()
    }

    ghost function Frame(): set<object?>
      reads this, node
    {
      {this, node} + if node == null then {} else {node.rxRadio, node.txRadio}
    }

    constructor ()
      ensures Valid() && !started && node == null && com == [] && received == [] && rxQueue == []
    {
      EmptyComValid();
      hide ComValid;
      node, started, initialStatusSent, rxQueue := null, false, false, [];
      com, received, buffers, forwarded, givenBack, returned := [], [], [], [], [], [];
      calls, states := [], [Off];
    }

    /** The node is made once, from the first text that loads, and stays; start() decides. */
    twostate predicate NodeKept(yaml: Option<string>, hardwareOk: bool)
      reads this, node
    {
      && (old(node) != null ==> node == old(node))
      && (old(node) == null ==>
            if yaml.None? then node == null
            else node != null && fresh(node) && node.cfg == NodeConfigYaml.Parse(yaml.value))
      && (started <==> old(started) || (yaml.Some? && node != null && Starts(node.cfg, hardwareOk)))
    }

    /** Radios are made when the node starts and then kept. */
    twostate predicate RadiosKept()
      reads this, node
    {
      node != null ==>
        if old(node != null && node.started) then node.rxRadio == old(node.rxRadio) && node.txRadio == old(node.txRadio)
        else node.rxRadio != null ==> fresh(node.rxRadio) && fresh(node.txRadio)
    }

    method EnsureNodeStarted(yaml: Option<string>, hardwareOk: bool) returns (ok: bool)
      requires Valid()
      modifies this`node, this`started, this`calls, this`states, node
      ensures Valid() && ok == started && NodeKept(yaml, hardwareOk) && RadiosKept()
      ensures calls == old(calls) + StartCall(old(started), yaml, hardwareOk)
      ensures old(started) ==> node.Abs() == old(node.Abs())
    {
      hide ComValid, Forwarded, GivenBack, NodeConfigYaml.Parse, Run, Next;
      if started { return true; }
      if yaml.None? { return false; }
      var cfg := NodeConfigYaml.LoadNodeConfig(yaml.value);
      if node == null {
        node := new LoRaNode(cfg);
        EmptyRun(cfg);
      }
      ok := CallStart(hardwareOk);
      if !ok { return false; }
      StartKeepsComValid(com, initialStatusSent);
      started := true;
    }

    method CallStart(hardwareOk: bool) returns (ok: bool)
      requires NodeValid() && node != null && !node.started
      modifies this`calls, this`states, node
      ensures NodeValid() && ok == node.started == Starts(node.cfg, hardwareOk)
      ensures calls == old(calls) + [Start(hardwareOk)]
      ensures node.rxRadio != null ==> fresh(node.rxRadio) && fresh(node.txRadio)
    {
      hide Run, Next;
      ok := node.StartNode(hardwareOk);
      RunGrows(node.cfg, calls, states, Start(hardwareOk), node.Abs());
      calls, states := calls + [Start(hardwareOk)], states + [node.Abs()];
    }

    /** dataIn: whatever happens, the buffer goes back first and one status follows; the payload goes to
        the node if that is up. */
    method DataInHandler(id: BufferId, payload: Payload, yaml: Option<string>, hardwareOk: bool)
      requires Valid()
      modifies Frame()
      ensures Valid() && NodeKept(yaml, hardwareOk)
      ensures calls == old(calls) + StartCall(old(started), yaml, hardwareOk) + if started then [Send(payload)] else []
      ensures com
           == old(com) + [DataIn(id, payload, started)] + [DataReturn(id)] + [Status(started && |payload| <= 0xFF)]
      ensures received == old(received) && buffers == old(buffers) && returned == old(returned)
    {
      hide ComValid, RxKept, NodeConfigYaml.Parse, Run, Next, Starts;
      var up := EnsureNodeStarted(yaml, hardwareOk);
      AnswerKeepsComValid(com, started, initialStatusSent, id, payload);
      com := com + [DataIn(id, payload, up)];
      if !up {
        ReturnAndReport(id, false);
        return;
      }
      var ok := SendToNode(payload);
      ReturnAndReport(id, ok);
    }

    /** The buffer goes back first, then the status goes out. */
    method ReturnAndReport(id: BufferId, ok: bool)
      modifies this`com
      ensures com == old(com) + [DataReturn(id)] + [Status(ok)]
    {
      com := com + [DataReturn(id)];
      com := com + [Status(ok)];
    }

    method SendToNode(payload: Payload) returns (ok: bool)
      requires NodeValid() && node != null && node.started
      modifies this`calls, this`states, node.txRadio
      ensures NodeValid() && calls == old(calls) + [Send(payload)]
      ensures ok <==> |payload| <= 0xFF
    {
      hide Run, Next;
      ok := node.SendPayload(payload);
      RunGrows(node.cfg, calls, states, Send(payload), node.Abs());
      calls, states := calls + [Send(payload)], states + [node.Abs()];
    }

    method DataReturnInHandler(id: BufferId)
      requires Valid()
      modifies this`returned
      ensures Valid() && returned == old(returned) + [id]
    {
      returned := returned + [id];
    }

    /** Once the node is up, one initial SUCCESS. */
    method ComStatusInit(yaml: Option<string>, hardwareOk: bool)
      requires Valid()
      modifies this`com, this`initialStatusSent, this`node, this`started, this`calls, this`states, node
      ensures Valid() && RadiosKept() && (old(initialStatusSent) || NodeKept(yaml, hardwareOk))
      ensures calls == old(calls) + StartCall(old(started), yaml, hardwareOk)
      ensures old(started) ==> node == old(node) && node.Abs() == old(node.Abs())
      ensures initialStatusSent == started
      ensures com == old(com) + if started && !old(initialStatusSent) then [InitialStatus] else []
    {
      hide ComValid, Forwarded, GivenBack, NodeConfigYaml.Parse, Run, Next;
      if initialStatusSent { return; }
      var up := EnsureNodeStarted(yaml, hardwareOk);
      if !up { return; }
      InitialKeepsComValid(com);
      com := com + [InitialStatus];
      initialStatusSent := true;
    }

    /** The allocate port: any buffer at all. */
    method Allocate(needed: nat) returns (b: Buffer)
      modifies this`buffers
      ensures buffers == old(buffers) + [b]
    {
      var valid: bool := *;
      var id: nat :| id >= 0;
      var size: nat :| size >= 0;
      b := Buffer(id, valid, size);
      buffers := buffers + [b];
    }

    /** The drain loop of run_handler, one packet per round. */
    method Drain()
      requires Valid()
      modifies this`rxQueue, this`buffers, this`forwarded, this`givenBack
      ensures Valid() && rxQueue == [] && |buffers| == |received|
    {
      hide ComValid, Forwarded, GivenBack, Run, Next;
      while rxQueue != []
        invariant Valid()
        decreases |rxQueue|
      {
        var pkt := rxQueue[0];
        rxQueue := rxQueue[1..];
        ghost var before := buffers;
        assert pkt == received[|before|];
        var buffer := Allocate(|pkt|);
        OneMoreBuffer(received, before, buffer);
        if !buffer.valid || buffer.size < |pkt| {
          if buffer.valid {
            givenBack := givenBack + [buffer.id];
          }
        } else {
          forwarded := forwarded + [Forward(buffer.id, pkt)];
        }
      }
    }

    /** The first half of run_handler: bring the node up and announce readiness once. */
    method BringUp(yaml: Option<string>, hardwareOk: bool) returns (up: bool)
      requires Valid()
      modifies this`com, this`initialStatusSent, this`node, this`started, this`calls, this`states, node
      ensures Valid() && NodeKept(yaml, hardwareOk) && RadiosKept()
      ensures up == started && (started ==> initialStatusSent)
      ensures com == old(com) + if started && !old(initialStatusSent) then [InitialStatus] else []
      ensures calls == old(calls) + StartCall(old(started), yaml, hardwareOk)
    {
      hide ComValid, RxValid, NodeConfigYaml.Parse, Run, Next, Starts;
      up := EnsureNodeStarted(yaml, hardwareOk);
      if up {
        ComStatusInit(yaml, hardwareOk);
      }
    }

    /** The second half: poll and forward all that came in. */
    method Service(rxFlags: Flags, txFlags: Flags, packet: Payload)
      requires Valid() && started
      modifies this`rxQueue, this`received, this`buffers, this`forwarded, this`givenBack
      modifies this`calls, this`states, node.rxRadio, node.txRadio
      ensures Valid() && rxQueue == [] && |buffers| == |received|
      ensures received == old(received) + if rxFlags.rxDone && !rxFlags.crcError then [packet] else []
      ensures calls == old(calls) + [Poll(rxFlags, txFlags)]
    {
      hide ComValid, RxValid, Run, Next;
      PollAndQueue(rxFlags, txFlags, packet);
      Drain();
    }

    /** run: bring the node up, announce readiness once, poll, forward all that came in. */
    method RunHandler(yaml: Option<string>, hardwareOk: bool, rxFlags: Flags, txFlags: Flags, packet: Payload)
      requires Valid()
      modifies Frame()
      ensures Valid() && NodeKept(yaml, hardwareOk)
      ensures com == old(com) + if started && !old(initialStatusSent) then [InitialStatus] else []
      ensures received == old(received) + if started && rxFlags.rxDone && !rxFlags.crcError then [packet] else []
      ensures started ==> initialStatusSent && rxQueue == [] && |buffers| == |received|
      ensures !started ==> buffers == old(buffers)
      ensures returned == old(returned)
      ensures calls == old(calls) + StartCall(old(started), yaml, hardwareOk)
        + if started then [Poll(rxFlags, txFlags)] else []
    {
      hide ComValid, RxValid, NodeConfigYaml.Parse, Run, Next, Starts;
      var up := BringUp(yaml, hardwareOk);
      if !up { return; }
      Service(rxFlags, txFlags, packet);
    }

    /** Polling the node; its callback puts each delivered packet at the end of the queue. */
    method PollAndQueue(rxFlags: Flags, txFlags: Flags, packet: Payload)
      requires Valid() && started
      modifies this`rxQueue, this`received, this`calls, this`states, node.rxRadio, node.txRadio
      ensures Valid() && calls == old(calls) + [Poll(rxFlags, txFlags)]
      ensures received == old(received) + if rxFlags.rxDone && !rxFlags.crcError then [packet] else []
    {
      hide ComValid, Forwarded, GivenBack, Run, Next;
      var packets := node.PollNode(rxFlags, txFlags, packet);
      RunGrows(node.cfg, calls, states, Poll(rxFlags, txFlags), node.Abs());
      calls, states := calls + [Poll(rxFlags, txFlags)], states + [node.Abs()];
      MorePackets(received, packets, buffers);
      assert (received + packets)[|buffers|..] == rxQueue + packets;
      received := received + packets;
      rxQueue := rxQueue + packets;
    }

    /** In every run of the adapter the lines of the node's radios follow the calls it made: StaticAsserted
        keeps a line asserted, AssertDuringTxOnly asserts the transmitting one from an accepted non-empty
        payload until a run sees the end of its transmission, and nothing else asserts any. */
    lemma AdapterLines()
      requires Valid() && started
      ensures Asserted(node.Abs().rx) <==> RxLineExpected(node.cfg)
      ensures Asserted(node.Abs().tx) <==> TxLineExpected(node.cfg, InFlight(node.cfg, calls, |calls|))
    {
      LinesFollowTransmissions(node.cfg, calls, states, |calls|);
    }

    /** And every payload of 1 to 255 bytes that a dataIn brought while the node was up has reached the
        transmitting radio, in order. */
    lemma AdapterPayloads()
      requires Valid() && started
      ensures node.Abs().tx.sent == Accepted(node.cfg, calls, |calls|)
    {
      PayloadsReachRadio(node.cfg, calls, states, |calls|);
    }
  }
}
