/** A node with a receiving and a transmitting radio, and the TX-enable line of each radio.

    The chip's interrupt flags, the received packet and the failures of the hardware come in from
    outside.  A run has no hardware exception except inside start(), which catches them. */
module RadioNode {
  import opened Common
  import opened NodeConfig

  datatype Mode = Standby | Receiving | Transmitting

  /** The interrupt flags a poll reads; only those the LoRa dispatch acts on. */
  datatype Flags = Flags(txDone: bool, rxDone: bool, crcError: bool, timeout: bool)

  type Payload = seq<U8>

  /** A radio: its pins, the raw level of its TX-enable line, the driver's operating mode and the payloads it was
      given to transmit. */
  datatype RadioState = RadioState(pins: Pins, level: bool, mode: Mode, sent: seq<Payload>)

  /** assertedLineValue */
  function LineValue(activeHigh: bool, asserted: bool): bool {
    if asserted then activeHigh else !activeHigh
  }

  /** The power amplifier is enabled. */
  predicate Asserted(r: RadioState) {
    r.pins.hasTxEnable && r.level == r.pins.txEnableActiveHigh
  }

  // ------------------------------------------------------------------ the radio object

  class Radio {
    const pins: Pins
    var level: bool
    var mode: Mode
    var sent: seq<Payload>

    function Abs(): RadioState
      reads this
    {
      RadioState(pins, level, mode, sent)
    }

    /** Lines requested deasserted, then put to their initial state. */
    constructor (pins: Pins)
      ensures this.pins == pins && mode == Standby && sent == []
      ensures Asserted(Abs()) <==> pins.hasTxEnable && pins.txEnableBehavior == StaticAsserted
    {
      this.pins := pins;
      level := LineValue(pins.txEnableActiveHigh, false);
      mode, sent := Standby, [];
      new;
      if pins.hasTxEnable {
        match pins.txEnableBehavior
        case NoBehavior => SetTxEnable(false);
        case AssertDuringTxOnly => SetTxEnable(false);
        case StaticAsserted => SetTxEnable(true);
        case StaticDeasserted => SetTxEnable(false);
      }
    }

    method SetTxEnable(asserted: bool)
      modifies this`level
      ensures Asserted(Abs()) <==> pins.hasTxEnable && asserted
      ensures !pins.hasTxEnable ==> level == old(level)
    {
      if !pins.hasTxEnable { return; }
      level := LineValue(pins.txEnableActiveHigh, asserted);
    }

    method HalPreTx()
      modifies this`level
      ensures Asserted(Abs()) <==>
        pins.hasTxEnable && (pins.txEnableBehavior == AssertDuringTxOnly || old(Asserted(Abs())))
    {
      if pins.txEnableBehavior == AssertDuringTxOnly { SetTxEnable(true); }
    }

    method HalPreRx()
      modifies this`level
      ensures Asserted(Abs()) <==> pins.txEnableBehavior != AssertDuringTxOnly && old(Asserted(Abs()))
    {
      if pins.txEnableBehavior == AssertDuringTxOnly { SetTxEnable(false); }
    }

    /** Both hooks after a transmission or reception put the line back to its resting state. */
    method HalPostTx()
      modifies this`level
      ensures Asserted(Abs()) <==>
        if pins.txEnableBehavior == NoBehavior then old(Asserted(Abs()))
        else pins.hasTxEnable && pins.txEnableBehavior == StaticAsserted
    {
      match pins.txEnableBehavior
      case NoBehavior =>
      case StaticAsserted => SetTxEnable(true);
      case StaticDeasserted => SetTxEnable(false);
      case AssertDuringTxOnly => SetTxEnable(false);
    }

    method HalPostRx()
      modifies this`level
      ensures Asserted(Abs()) <==>
        if pins.txEnableBehavior == NoBehavior then old(Asserted(Abs()))
        else pins.hasTxEnable && pins.txEnableBehavior == StaticAsserted
    {
      match pins.txEnableBehavior
      case NoBehavior =>
      case StaticAsserted => SetTxEnable(true);
      case StaticDeasserted => SetTxEnable(false);
      case AssertDuringTxOnly => SetTxEnable(false);
    }

    method SetTx()
      modifies this`level, this`mode
      ensures AfterSetTx(old(Abs()), Abs()) && sent == old(sent)
    {
      HalPostRx();
      HalPreTx();
      mode := Transmitting;
    }

    /** The payload goes to the chip's buffer, and then the radio transmits. */
    method SendPayload(payload: Payload)
      modifies this`level, this`mode, this`sent
      ensures AfterSetTx(old(Abs()), Abs()) && sent == old(sent) + [payload]
    {
      sent := sent + [payload];
      SetTx();
    }

    method SetRx()
      modifies this`level, this`mode
      ensures AfterSetRx(old(Abs()), Abs())
    {
      HalPostTx();
      HalPreRx();
      mode := Receiving;
    }

    /** The LoRa branch of ProcessIrqs; received says that the rxDone callback ran. */
    method ProcessIrqs(flags: Flags) returns (received: bool)
      modifies this`level
      ensures received <==> mode == Receiving && flags.rxDone && !flags.crcError
      ensures AfterPoll(old(Abs()), flags, Abs())
    {
      received := false;
      match mode
      case Receiving =>
        if flags.rxDone && !flags.crcError {
          received := true;
        }
        if flags.timeout { HalPostRx(); }
      case Transmitting =>
        if flags.txDone { HalPostTx(); }
        if flags.timeout { HalPostTx(); }
      case Standby =>
    }
  }

  /** Where the line rests when nothing is transmitted. */
  predicate Resting(r: RadioState) {
    Asserted(r) <==> r.pins.hasTxEnable && r.pins.txEnableBehavior == StaticAsserted
  }

  ghost predicate AfterSetTx(r: RadioState, r': RadioState) {
    && r'.pins == r.pins && r'.mode == Transmitting
    && (r.pins.txEnableBehavior == NoBehavior ==> (Asserted(r') <==> Asserted(r)))
    && (r.pins.txEnableBehavior == AssertDuringTxOnly ==> (Asserted(r') <==> r.pins.hasTxEnable))
    && (r.pins.txEnableBehavior == StaticAsserted || r.pins.txEnableBehavior == StaticDeasserted ==> Resting(r'))
  }

  ghost predicate AfterSetRx(r: RadioState, r': RadioState) {
    && r'.pins == r.pins && r'.mode == Receiving && r'.sent == r.sent
    && (r.pins.txEnableBehavior == NoBehavior ==> (Asserted(r') <==> Asserted(r)))
    && (r.pins.txEnableBehavior != NoBehavior ==> Resting(r'))
  }

  /** A poll puts the line to rest when it sees the end of the transmission or the reception. */
  predicate Ends(mode: Mode, flags: Flags) {
    (mode == Transmitting && (flags.txDone || flags.timeout)) || (mode == Receiving && flags.timeout)
  }

  ghost predicate AfterPoll(r: RadioState, flags: Flags, r': RadioState) {
    && r'.pins == r.pins && r'.mode == r.mode && r'.sent == r.sent
    && (if Ends(r.mode, flags) && r.pins.txEnableBehavior != NoBehavior then Resting(r')
        else Asserted(r') <==> Asserted(r))
  }

  // ------------------------------------------------------------------ the node object

  datatype Node = Off | On(rx: RadioState, tx: RadioState)

  /** validateConfig */
  predicate ValidRadio(r: NodeConfig.Radio) {
    r.spi.device != "" && r.chip != "" && (!r.pins.hasTxEnable ==> r.pins.txEnableBehavior == NoBehavior)
  }

  datatype Event =
    | Start(hardwareOk: bool)
    | Stop
    | Send(payload: Payload)
    | Poll(rxFlags: Flags, txFlags: Flags)

  predicate Starts(cfg: Config, hardwareOk: bool) {
    hardwareOk && ValidRadio(cfg.rx) && ValidRadio(cfg.tx)
  }

  /** send() hands the payload to the radio. */
  predicate Transmits(payload: Payload) {
    0 < |payload| <= 0xFF
  }

  /** One call on the node. */
  ghost predicate Next(cfg: Config, n: Node, e: Event, n': Node) {
    match e
    case Start(ok) =>
      if n.On? then n' == n
      else if !Starts(cfg, ok) then n' == Off
      else && n'.On? && n'.rx.pins == cfg.rx.pins && n'.rx.mode == Receiving && Resting(n'.rx)
           && n'.tx.pins == cfg.tx.pins && n'.tx.mode == Standby && Resting(n'.tx)
           && n'.rx.sent == [] && n'.tx.sent == []
    case Stop => n' == Off
    case Send(payload) =>
      if n.On? && Transmits(payload)
      then n'.On? && n'.rx == n.rx && AfterSetTx(n.tx, n'.tx) && n'.tx.sent == n.tx.sent + [payload]
      else n' == n
    case Poll(rxFlags, txFlags) =>
      if n.Off? then n' == Off
      else n'.On? && AfterPoll(n.rx, rxFlags, n'.rx) && AfterPoll(n.tx, txFlags, n'.tx)
  }

  class LoRaNode {
    const cfg: Config
    var rxRadio: Radio?
    var txRadio: Radio?
    var started: bool

    /** started holds exactly when both radios exist, and then the receiving one receives. */
    ghost predicate Valid()
      reads this, rxRadio
    {
      && (started <==> rxRadio != null && txRadio != null)
      && (rxRadio == null <==> txRadio == null)
      && (rxRadio != null ==> rxRadio != txRadio && rxRadio.mode == Receiving)
    }

    ghost function Abs(): Node
      reads this, rxRadio, txRadio
      requires Valid()
    {
      if started then On(rxRadio.Abs(), txRadio.Abs()) else Off
    }

    constructor (cfg: Config)
      ensures this.cfg == cfg && Valid() && Abs() == Off
    {
      this.cfg := cfg;
      rxRadio, txRadio, started := null, null, false;
    }

    method StartNode(hardwareOk: bool) returns (ok: bool)
      requires Valid()
      modifies this
      ensures Valid() && Next(cfg, old(Abs()), Start(hardwareOk), Abs())
      ensures ok == started == (old(started) || Starts(cfg, hardwareOk))
      ensures !old(started) && started ==> fresh(rxRadio) && fresh(txRadio)
      ensures old(started) ==> rxRadio == old(rxRadio) && txRadio == old(txRadio)
    {
      if started { return true; }
      if !Starts(cfg, hardwareOk) {
        rxRadio, txRadio, started := null, null, false;
        return false;
      }
      var rx := new Radio(cfg.rx.pins);
      var tx := new Radio(cfg.tx.pins);
      rxRadio, txRadio := rx, tx;
      rx.SetRx();
      started := true;
      return true;
    }

    method StopNode()
      requires Valid()
      modifies this
      ensures Valid() && Next(cfg, old(Abs()), Stop, Abs())
    {
      rxRadio, txRadio, started := null, null, false;
    }

    method SendPayload(payload: Payload) returns (ok: bool)
      requires Valid()
      modifies txRadio
      ensures Valid() && Next(cfg, old(Abs()), Send(payload), Abs())
      ensures ok <==> started && |payload| <= 0xFF
    {
      if !started || txRadio == null { return false; }
      if |payload| == 0 { return true; }
      if |payload| > 0xFF { return false; }
      txRadio.SendPayload(payload);
      return true;
    }

    /** packet is what the receiver's buffer holds; it is delivered to the callback at most once. */
    method PollNode(rxFlags: Flags, txFlags: Flags, packet: Payload) returns (delivered: seq<Payload>)
      requires Valid()
      modifies rxRadio, txRadio
      ensures Valid() && Next(cfg, old(Abs()), Poll(rxFlags, txFlags), Abs())
      ensures delivered == if started && rxFlags.rxDone && !rxFlags.crcError then [packet] else []
    {
      delivered := [];
      if rxRadio != null {
        var received := rxRadio.ProcessIrqs(rxFlags);
        if received { delivered := [packet]; }
      }
      if txRadio != null {
        var unused := txRadio.ProcessIrqs(txFlags);
      }
    }
  }

  // ------------------------------------------------------------------ runs

  /** ns are the states of a run of es from a new node. */
  ghost predicate Run(cfg: Config, es: seq<Event>, ns: seq<Node>) {
    && |ns| == |es| + 1 && ns[0] == Off
    && forall i :: 0 <= i < |es| ==> Next(cfg, ns[i], es[i], ns[i + 1])
  }

  lemma RunGrows(cfg: Config, es: seq<Event>, ns: seq<Node>, e: Event, n: Node)
    requires Run(cfg, es, ns) && Next(cfg, ns[|es|], e, n)
    ensures Run(cfg, es + [e], ns + [n]) && (ns + [n])[|es + [e]|] == n
  {
    hide Next;
    var es', ns' := es + [e], ns + [n];
    forall i | 0 <= i < |es'| ensures Next(cfg, ns'[i], es'[i], ns'[i + 1]) {
      if i < |es| {
        assert Next(cfg, ns[i], es[i], ns[i + 1]);
      }
    }
  }

  /** Read off the calls alone: the node is started after the first n calls. */
  predicate StartedAfter(cfg: Config, es: seq<Event>, n: nat)
    requires n <= |es|
  {
    n > 0 &&
    match es[n - 1]
    case Start(ok) => StartedAfter(cfg, es, n - 1) || Starts(cfg, ok)
    case Stop => false
    case _ => StartedAfter(cfg, es, n - 1)
  }

  /** Read off the calls alone: an accepted, non-empty payload was sent and no poll has seen the
      transmission end. */
  predicate InFlight(cfg: Config, es: seq<Event>, n: nat)
    requires n <= |es|
  {
    n > 0 &&
    match es[n - 1]
    case Start(_) => StartedAfter(cfg, es, n - 1) && InFlight(cfg, es, n - 1)
    case Stop => false
    case Send(payload) => (StartedAfter(cfg, es, n - 1) && Transmits(payload)) || InFlight(cfg, es, n - 1)
    case Poll(_, txFlags) => InFlight(cfg, es, n - 1) && !txFlags.txDone && !txFlags.timeout
  }

  /** Where the TX-enable line of the receiving and of the transmitting radio must be. */
  predicate RxLineExpected(cfg: Config) {
    cfg.rx.pins.hasTxEnable && cfg.rx.pins.txEnableBehavior == StaticAsserted
  }

  predicate TxLineExpected(cfg: Config, inFlight: bool) {
    && cfg.tx.pins.hasTxEnable
    && (cfg.tx.pins.txEnableBehavior == StaticAsserted
        || (cfg.tx.pins.txEnableBehavior == AssertDuringTxOnly && inFlight))
  }

  /** In every run: the node is on exactly when the calls say so; the receiving radio's line is asserted
      exactly for StaticAsserted; the transmitting radio's exactly for StaticAsserted or, with
      AssertDuringTxOnly, from an accepted non-empty send until a poll sees TX_DONE or a timeout. */
  lemma {:induction false} LinesFollowTransmissions(cfg: Config, es: seq<Event>, ns: seq<Node>, n: nat)
    requires Run(cfg, es, ns) && n <= |es|
    ensures ns[n].On? <==> StartedAfter(cfg, es, n)
    ensures InFlight(cfg, es, n) ==> ns[n].On? && ns[n].tx.mode == Transmitting
    ensures ns[n].On? ==>
      && ns[n].rx.pins == cfg.rx.pins && ns[n].tx.pins == cfg.tx.pins && ns[n].rx.mode == Receiving
      && (Asserted(ns[n].rx) <==> RxLineExpected(cfg))
      && (Asserted(ns[n].tx) <==> TxLineExpected(cfg, InFlight(cfg, es, n)))
      && ns[n].tx.mode != Receiving
  {
    if n > 0 {
      LinesFollowTransmissions(cfg, es, ns, n - 1);
      assert Next(cfg, ns[n - 1], es[n - 1], ns[n]);
    }
  }

  /** Read off the calls alone: the payloads of 1 to 255 bytes given to the node since it was started. */
  function Accepted(cfg: Config, es: seq<Event>, n: nat): seq<Payload>
    requires n <= |es|
  {
    if n == 0 then [] else
      match es[n - 1]
      case Start(_) => if StartedAfter(cfg, es, n - 1) then Accepted(cfg, es, n - 1) else []
      case Stop => []
      case Send(payload) =>
        Accepted(cfg, es, n - 1)
        + if StartedAfter(cfg, es, n - 1) && 1 <= |payload| <= 255 then [payload] else []
      case Poll(_, _) => Accepted(cfg, es, n - 1)
  }

  /** In every run these reach the transmitting radio, unchanged and in order, and nothing else does; the
      receiving radio transmits nothing. */
  lemma {:induction false} PayloadsReachRadio(cfg: Config, es: seq<Event>, ns: seq<Node>, n: nat)
    requires Run(cfg, es, ns) && n <= |es| && ns[n].On?
    ensures ns[n].tx.sent == Accepted(cfg, es, n) && ns[n].rx.sent == []
  {
    LinesFollowTransmissions(cfg, es, ns, n);
    if n > 0 {
      LinesFollowTransmissions(cfg, es, ns, n - 1);
      assert Next(cfg, ns[n - 1], es[n - 1], ns[n]);
      if ns[n - 1].On? {
        PayloadsReachRadio(cfg, es, ns, n - 1);
      }
    }
  }

  /** Both radios have a device and a chip, and one without a TX-enable pin asks for no behaviour of it. */
  predicate Usable(cfg: Config) {
    && cfg.rx.spi.device != "" && cfg.rx.chip != "" && cfg.tx.spi.device != "" && cfg.tx.chip != ""
    && (cfg.rx.pins.hasTxEnable || cfg.rx.pins.txEnableBehavior == NoBehavior)
    && (cfg.tx.pins.hasTxEnable || cfg.tx.pins.txEnableBehavior == NoBehavior)
  }

  /** A node is on exactly when its configuration is usable and a start with working hardware came after the
      last stop; a start that fails does not take down a node that is on. */
  lemma {:induction false} StartedExactly(cfg: Config, es: seq<Event>, n: nat)
    requires n <= |es|
    ensures StartedAfter(cfg, es, n) <==>
      Usable(cfg) && exists k :: 0 <= k < n && es[k] == Start(true) && forall j :: k < j < n ==> es[j] != Stop
  {
    if n > 0 {
      StartedExactly(cfg, es, n - 1);
      if Usable(cfg) && StartedAfter(cfg, es, n - 1) && es[n - 1] != Stop {
        var k :| 0 <= k < n - 1 && es[k] == Start(true) && forall j :: k < j < n - 1 ==> es[j] != Stop;
        assert forall j :: k < j < n ==> es[j] != Stop;
      }
    }
  }
}
