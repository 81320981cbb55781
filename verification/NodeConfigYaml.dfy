/** The line-oriented configuration parser, a printer for its schema, and how the two fit together. */
module NodeConfigYaml {
  import opened Common
  import opened YamlText
  import opened NodeConfig

  datatype Section = NoSection | RadiosRx | RadiosTx | LoraSection | TimeoutsSection | RuntimeSection

  datatype SubSection = NoSub | SpiSub | GpioSub | PinsSub

  datatype State = State(section: Section, sub: SubSection, cfg: Config)

  const START := State(NoSection, NoSub, DEFAULT)

  // ------------------------------------------------------------------ values

  /** A failed number or flag leaves the old value. */
  function ParseU32(v: string, old_: U32): U32 {
    match Stoul(v)
    case Some(n) => n % 0x1_0000_0000
    case None => old_
  }

  function ParseU8(v: string, old_: U8): U8 {
    match Stoul(v)
    case Some(n) => if n > 0xFF then old_ else n
    case None => old_
  }

  function ParseI8(v: string, old_: I8): I8 {
    match Stol(v)
    case Some(n) => if n < -128 || n > 127 then old_ else n
    case None => old_
  }

  function ParseBool(v: string, old_: bool): bool {
    if v == "true" then true else if v == "false" then false else old_
  }

  function ParseTimeout(v: string, old_: TickTime): TickTime {
    match Stoul(v)
    case Some(n) =>
      var v32 := n % 0x1_0000_0000;
      TickTime(Tick1000us, if v32 >= 0xFFFF then 0xFFFF else v32)
    case None => old_
  }

  function ParseRole(v: string): Role {
    if v == "rx" then Rx else if v == "tx" then Tx else TxRx
  }

  function ParseBehavior(v: string): TxEnableBehavior {
    if v == "none" then NoBehavior
    else if v == "static_asserted" then StaticAsserted
    else if v == "static_deasserted" then StaticDeasserted
    else if v == "assert_during_tx" then AssertDuringTxOnly
    else NoBehavior
  }

  function ParseCrc(v: string): CrcMode {
    if v == "on" then CrcOn else if v == "off" then CrcOff else CrcOn
  }

  // ------------------------------------------------------------------ keys

  function SpiKey(s: Spi, key: string, v: string): Spi {
    if key == "device" then s.(device := v)
    else if key == "speed_hz" then s.(speedHz := ParseU32(v, s.speedHz))
    else if key == "mode" then s.(mode := ParseU8(v, s.mode))
    else if key == "bits_per_word" then s.(bitsPerWord := ParseU8(v, s.bitsPerWord))
    else s
  }

  function PinKey(p: Pins, key: string, v: string): Pins {
    if key == "reset" then p.(reset := ParseU32(v, p.reset))
    else if key == "busy" then p.(busy := ParseU32(v, p.busy))
    else if key == "has_dio1" then p.(hasDio1 := ParseBool(v, p.hasDio1))
    else if key == "dio1" then p.(dio1 := ParseU32(v, p.dio1))
    else if key == "has_dio2" then p.(hasDio2 := ParseBool(v, p.hasDio2))
    else if key == "dio2" then p.(dio2 := ParseU32(v, p.dio2))
    else if key == "has_dio3" then p.(hasDio3 := ParseBool(v, p.hasDio3))
    else if key == "dio3" then p.(dio3 := ParseU32(v, p.dio3))
    else if key == "has_tx_enable" then p.(hasTxEnable := ParseBool(v, p.hasTxEnable))
    else if key == "tx_enable" then p.(txEnable := ParseU32(v, p.txEnable))
    else if key == "tx_enable_active_high" then p.(txEnableActiveHigh := ParseBool(v, p.txEnableActiveHigh))
    else if key == "tx_enable_behavior" then p.(txEnableBehavior := ParseBehavior(v))
    else p
  }

  function RadioKey(r: Radio, sub: SubSection, key: string, v: string): Radio {
    match sub
    case NoSub => if key == "role" then r.(role := ParseRole(v)) else r
    case SpiSub => r.(spi := SpiKey(r.spi, key, v))
    case GpioSub => if key == "chip" then r.(chip := v) else r
    case PinsSub => r.(pins := PinKey(r.pins, key, v))
  }

  /** The values of ramp time, regulator, spreading factor, bandwidth, coding rate, header type, IQ mode
      and LNA setting that the parser knows are the only ones it produces, whatever the text. */
  function RfKey(r: Rf, key: string, v: string): Rf {
    if key == "frequency_hz" then r.(frequencyHz := ParseU32(v, r.frequencyHz))
    else if key == "tx_power_dbm" then r.(txPowerDbm := ParseI8(v, r.txPowerDbm))
    else if key == "ramp_time" then r.(rampTime := Ramp20)
    else if key == "regulator_mode" then r.(regulator := Dcdc)
    else r
  }

  function LoraKey(l: Lora, key: string, v: string): Lora {
    if key == "spreading_factor" then l.(spreadingFactor := Sf7)
    else if key == "bandwidth" then l.(bandwidth := Bw0800)
    else if key == "coding_rate" then l.(codingRate := Cr45)
    else if key == "preamble_length" then l.(preambleLength := ParseU8(v, l.preambleLength))
    else if key == "header_type" then l.(headerType := VariableLength)
    else if key == "payload_length" then l.(payloadLength := ParseU8(v, l.payloadLength))
    else if key == "crc" then l.(crc := ParseCrc(v))
    else if key == "iq_mode" then l.(iqMode := IqNormal)
    else l
  }

  function TimeoutKey(t: Timeouts, key: string, v: string): Timeouts {
    if key == "tx_ms" then t.(tx := ParseTimeout(v, t.tx))
    else if key == "rx_ms" then t.(rx := ParseTimeout(v, t.rx))
    else if key == "continuous_rx" then t.(continuousRx := ParseBool(v, t.continuousRx))
    else t
  }

  function RuntimeKey(r: Runtime, key: string, v: string): Runtime {
    if key == "auto_fs" then r.(autoFs := ParseBool(v, r.autoFs))
    else if key == "long_preamble" then r.(longPreamble := ParseBool(v, r.longPreamble))
    else if key == "use_manual_gain" then r.(useManualGain := ParseBool(v, r.useManualGain))
    else if key == "manual_gain_value" then r.(manualGain := ParseU8(v, r.manualGain))
    else if key == "lna_setting" then r.(lna := HighSensitivity)
    else r
  }

  function KeyValue(c: Config, section: Section, sub: SubSection, key: string, v: string): Config {
    match section
    case RadiosRx => c.(rx := RadioKey(c.rx, sub, key, v))
    case RadiosTx => c.(tx := RadioKey(c.tx, sub, key, v))
    case LoraSection => c.(rf := RfKey(c.rf, key, v), lora := LoraKey(c.lora, key, v))
    case TimeoutsSection => c.(timeouts := TimeoutKey(c.timeouts, key, v))
    case RuntimeSection => c.(runtime := RuntimeKey(c.runtime, key, v))
    case NoSection => c
  }

  // ------------------------------------------------------------------ lines

  /** Section and subsection after a header line; None for any other line. */
  function Header(t: string, section: Section, sub: SubSection): Option<(Section, SubSection)> {
    if t == "radios:" then Some((NoSection, NoSub))
    else if t == "rx:" then Some((RadiosRx, NoSub))
    else if t == "tx:" then Some((RadiosTx, NoSub))
    else if t == "spi:" then Some((section, SpiSub))
    else if t == "gpio:" then Some((section, GpioSub))
    else if t == "pins:" then Some((section, PinsSub))
    else if t == "lora:" then Some((LoraSection, NoSub))
    else if t == "timeouts:" then Some((TimeoutsSection, NoSub))
    else if t == "runtime:" then Some((RuntimeSection, NoSub))
    else None
  }

  /** The value of a key line: cut at '#', trimmed, quotes stripped. */
  function Clean(v: string): string {
    var i := Find(v, '#');
    var w := if i < |v| then Trim(v[..i]) else v;
    if w != "" && w[0] == '"' then StripQuotes(w) else w
  }

  function ApplyLine(st: State, line: string): State {
    var t := Trim(line);
    if t == "" || t[0] == '#' then st
    else match Header(t, st.section, st.sub)
      case Some((section, sub)) => State(section, sub, st.cfg)
      case None =>
        var colon := Find(t, ':');
        if colon == |t| then st
        else st.(cfg := KeyValue(st.cfg, st.section, st.sub, Trim(t[..colon]), Clean(Trim(t[colon + 1..]))))
  }

  /** std::getline over the text, line by line. */
  function ParseText(st: State, text: string): State
    decreases |text|
  {
    if text == "" then st
    else
      var i := Find(text, '\n');
      if i == |text| then ApplyLine(st, text) else ParseText(ApplyLine(st, text[..i]), text[i + 1..])
  }

  function Parse(text: string): Config {
    ParseText(START, text).cfg
  }

  /** The loop of loadNodeConfigFromYaml over the text of the file. */
  method LoadNodeConfig(text: string) returns (cfg: Config)
    ensures cfg == Parse(text)
  {
    hide ApplyLine;
    var st := START;
    var rest := text;
    while rest != ""
      invariant ParseText(st, rest) == ParseText(START, text)
      decreases |rest|
    {
      var i := Find(rest, '\n');
      var line := rest[..i];
      if i == |rest| {
        assert line == rest;
        rest := "";
      } else {
        rest := rest[i + 1..];
      }
      st := ApplyLine(st, line);
    }
    cfg := st.cfg;
  }

  // ------------------------------------------------------------------ what any text can produce

  predicate CleanString(s: string) {
    '#' !in s && '\n' !in s
  }

  predicate ProducibleRadio(r: Radio) {
    CleanString(r.spi.device) && CleanString(r.chip)
  }

  /** The enumeration values the parser knows, timeouts in 1000 us ticks, and no '#' or newline in the
      strings. */
  predicate Producible(c: Config) {
    && ProducibleRadio(c.rx) && ProducibleRadio(c.tx)
    && c.rf.rampTime == Ramp20 && c.rf.regulator == Dcdc
    && c.lora.spreadingFactor == Sf7 && c.lora.bandwidth == Bw0800 && c.lora.codingRate == Cr45
    && c.lora.headerType == VariableLength && c.lora.iqMode == IqNormal
    && c.timeouts.tx.base == Tick1000us && c.timeouts.rx.base == Tick1000us
    && c.runtime.lna == HighSensitivity
  }

  lemma {:induction false} CleanIsClean(v: string)
    requires '\n' !in v
    ensures CleanString(Clean(v))
  {
    var i := Find(v, '#');
    var w := if i < |v| then Trim(v[..i]) else v;
    if i < |v| {
      TrimKeepsOut(v[..i], '#');
      TrimKeepsOut(v[..i], '\n');
    }
    assert CleanString(w);
    assert CleanString(StripQuotes(w));
  }

  lemma KeyValueProducible(c: Config, section: Section, sub: SubSection, key: string, v: string)
    requires Producible(c) && CleanString(v)
    ensures Producible(KeyValue(c, section, sub, key, v))
  {
    hide ParseU32, ParseU8, ParseI8, PinKey, ParseTimeout;
    if section == TimeoutsSection {
      TimeoutProducible(v, c.timeouts.tx);
      TimeoutProducible(v, c.timeouts.rx);
    }
  }

  lemma TimeoutProducible(v: string, t: TickTime)
    requires t.base == Tick1000us
    ensures ParseTimeout(v, t).base == Tick1000us
  {
  }

  lemma {:induction false} LineProducible(st: State, line: string)
    requires Producible(st.cfg) && '\n' !in line
    ensures Producible(ApplyLine(st, line).cfg)
  {
    hide Producible, KeyValue, Clean, Trim, Header;
    var t := Trim(line);
    TrimKeepsOut(line, '\n');
    var colon := Find(t, ':');
    if colon < |t| {
      var v := Trim(t[colon + 1..]);
      assert '\n' !in t[colon + 1..];
      TrimKeepsOut(t[colon + 1..], '\n');
      CleanIsClean(v);
      KeyValueProducible(st.cfg, st.section, st.sub, Trim(t[..colon]), Clean(v));
    }
  }

  lemma {:induction false} TextProducible(st: State, text: string)
    requires Producible(st.cfg)
    ensures Producible(ParseText(st, text).cfg)
    decreases |text|
  {
    hide Producible, ApplyLine;
    if text != "" {
      var i := Find(text, '\n');
      LineProducible(st, text[..i]);
      if i < |text| {
        TextProducible(ApplyLine(st, text[..i]), text[i + 1..]);
      } else {
        assert text[..i] == text;
      }
    }
  }

  /** Whatever the text, the result is producible. */
  lemma {:induction false} ParseIsProducible(text: string)
    ensures Producible(Parse(text))
  {
    assert CleanString("/dev/spidev0.0") && CleanString("/dev/gpiochip0");
    assert Producible(DEFAULT);
    TextProducible(START, text);
  }

  // ------------------------------------------------------------------ blank and comment lines

  predicate Skipped(line: string) {
    '\n' !in line && (Trim(line) == "" || Trim(line)[0] == '#')
  }

  predicate WholeLines(a: string) {
    a == "" || a[|a| - 1] == '\n'
  }

  lemma {:induction false} LineRead(st: State, line: string, k: string)
    requires '\n' !in line
    ensures ParseText(st, line + "\n" + k) == ParseText(ApplyLine(st, line), k)
  {
    hide ApplyLine;
    var text := line + "\n" + k;
    assert text[..|line|] == line && text[|line|] == '\n' && text[|line| + 1..] == k;
    FindIs(text, '\n', |line|);
  }

  lemma {:induction false} ParseAppended(st: State, a: string, b: string)
    requires WholeLines(a)
    ensures ParseText(st, a + b) == ParseText(ParseText(st, a), b)
    decreases |a|
  {
    hide ApplyLine;
    if a == "" {
      assert a + b == b;
    } else {
      var i := Find(a, '\n');
      assert a[|a| - 1] in a;
      var line, rest := a[..i], a[i + 1..];
      assert rest != "" ==> rest[|rest| - 1] == a[|a| - 1];
      assert a == line + "\n" + rest;
      assert a + b == line + "\n" + (rest + b);
      LineRead(st, line, rest + b);
      LineRead(st, line, rest);
      ParseAppended(ApplyLine(st, line), rest, b);
    }
  }

  /** A blank or comment line put between any two lines changes nothing. */
  lemma {:induction false} SkippedLineIsIgnored(a: string, line: string, b: string)
    requires WholeLines(a) && Skipped(line)
    ensures Parse(a + line + "\n" + b) == Parse(a + b)
  {
    hide ParseText, ApplyLine;
    assert a + line + "\n" + b == a + (line + "\n" + b);
    ParseAppended(START, a, line + "\n" + b);
    ParseAppended(START, a, b);
    LineRead(ParseText(START, a), line, b);
    SkippedApplied(ParseText(START, a), line);
  }

  lemma {:induction false} NewlineAtEnd(st: State, a: string)
    ensures ParseText(st, a + "\n") == ParseText(st, a)
    decreases |a|
  {
    hide ApplyLine;
    var i := Find(a, '\n');
    if i < |a| {
      var line, rest := a[..i], a[i + 1..];
      assert a == line + "\n" + rest && a + "\n" == line + "\n" + (rest + "\n");
      LineRead(st, line, rest);
      LineRead(st, line, rest + "\n");
      NewlineAtEnd(ApplyLine(st, line), rest);
    } else {
      assert a + "\n" == a + "\n" + "";
      LineRead(st, a, "");
      EndOfText(ApplyLine(st, a));
      LastLineRead(st, a);
    }
  }

  /** The last line of a text needs no newline. */
  lemma {:induction false} LastLineRead(st: State, line: string)
    requires '\n' !in line
    ensures ParseText(st, line) == ApplyLine(st, line)
  {
    if line == "" {
      SkippedApplied(st, line);
    } else {
      hide ApplyLine;
    }
  }

  /** Nor does a blank or comment line after the last line of a text, whether that ended in a newline or
      not, and itself without one. */
  lemma {:induction false} SkippedLastLineIsIgnored(a: string, line: string)
    requires Skipped(line)
    ensures Parse(a + "\n" + line) == Parse(a)
  {
    hide ParseText, ApplyLine;
    ParseAppended(START, a + "\n", line);
    NewlineAtEnd(START, a);
    LastLineRead(ParseText(START, a), line);
    SkippedApplied(ParseText(START, a), line);
  }

  lemma {:induction false} SkippedApplied(st: State, line: string)
    requires Skipped(line)
    ensures ApplyLine(st, line) == st
  {
  }

  // ------------------------------------------------------------------ sections do not interfere

  /** No line of the text is this header. */
  predicate Without(text: string, header: string)
    decreases |text|
  {
    text == "" ||
    (var i := Find(text, '\n');
     Trim(text[..i]) != header && (i < |text| ==> Without(text[i + 1..], header)))
  }

  lemma {:induction false} LineKeepsOtherRadio(st: State, line: string)
    ensures st.section != RadiosTx ==> ApplyLine(st, line).cfg.tx == st.cfg.tx
    ensures st.section != RadiosRx ==> ApplyLine(st, line).cfg.rx == st.cfg.rx
    ensures Trim(line) != "tx:" && st.section != RadiosTx ==> ApplyLine(st, line).section != RadiosTx
    ensures Trim(line) != "rx:" && st.section != RadiosRx ==> ApplyLine(st, line).section != RadiosRx
  {
    hide RadioKey, RfKey, LoraKey, TimeoutKey, RuntimeKey, Clean, Trim;
  }

  /** Lines that come while another section is current never reach the tx radio. */
  lemma {:induction false} TxUntouched(st: State, text: string)
    requires st.section != RadiosTx && Without(text, "tx:")
    ensures ParseText(st, text).cfg.tx == st.cfg.tx
    decreases |text|
  {
    hide ApplyLine;
    if text != "" {
      var i := Find(text, '\n');
      LineKeepsOtherRadio(st, text[..i]);
      if i < |text| {
        TxUntouched(ApplyLine(st, text[..i]), text[i + 1..]);
      } else {
        assert text[..i] == text;
      }
    }
  }

  lemma {:induction false} RxUntouched(st: State, text: string)
    requires st.section != RadiosRx && Without(text, "rx:")
    ensures ParseText(st, text).cfg.rx == st.cfg.rx
    decreases |text|
  {
    hide ApplyLine;
    if text != "" {
      var i := Find(text, '\n');
      LineKeepsOtherRadio(st, text[..i]);
      if i < |text| {
        RxUntouched(ApplyLine(st, text[..i]), text[i + 1..]);
      } else {
        assert text[..i] == text;
      }
    }
  }

  // ------------------------------------------------------------------ the printer

  function HeaderLine(h: string, k: string): string {
    "  " + h + "\n" + k
  }

  function KeyLine(key: string, value: string, k: string): string {
    "      " + key + ": " + value + "\n" + k
  }

  function Quoted(s: string): string {
    "\"" + s + "\""
  }

  function Flag(b: bool): string {
    if b then "true" else "false"
  }

  function RoleName(r: Role): string {
    match r
    case Rx => "rx"
    case Tx => "tx"
    case TxRx => "txrx"
  }

  function BehaviorName(b: TxEnableBehavior): string {
    match b
    case NoBehavior => "none"
    case StaticAsserted => "static_asserted"
    case StaticDeasserted => "static_deasserted"
    case AssertDuringTxOnly => "assert_during_tx"
  }

  /** The name of the one value the parser knows. */
  function Name(known: bool, name: string): string {
    Quoted(if known then name else "unsupported")
  }

  function PrintSpi(s: Spi, k: string): string {
    HeaderLine("spi:",
    KeyLine("device", Quoted(s.device),
    KeyLine("speed_hz", Decimal(s.speedHz),
    KeyLine("mode", Decimal(s.mode),
    KeyLine("bits_per_word", Decimal(s.bitsPerWord), k)))))
  }

  function PrintDios(p: Pins, k: string): string {
    KeyLine("has_dio1", Flag(p.hasDio1),
    KeyLine("dio1", Decimal(p.dio1),
    KeyLine("has_dio2", Flag(p.hasDio2),
    KeyLine("dio2", Decimal(p.dio2),
    KeyLine("has_dio3", Flag(p.hasDio3),
    KeyLine("dio3", Decimal(p.dio3), k))))))
  }

  function PrintTxEnable(p: Pins, k: string): string {
    KeyLine("has_tx_enable", Flag(p.hasTxEnable),
    KeyLine("tx_enable", Decimal(p.txEnable),
    KeyLine("tx_enable_active_high", Flag(p.txEnableActiveHigh),
    KeyLine("tx_enable_behavior", Quoted(BehaviorName(p.txEnableBehavior)), k))))
  }

  function PrintPins(p: Pins, k: string): string {
    HeaderLine("pins:",
    KeyLine("reset", Decimal(p.reset),
    KeyLine("busy", Decimal(p.busy), PrintDios(p, PrintTxEnable(p, k)))))
  }

  function PrintRadio(r: Radio, k: string): string {
    KeyLine("role", Quoted(RoleName(r.role)),
    PrintSpi(r.spi,
    HeaderLine("gpio:",
    KeyLine("chip", Quoted(r.chip), PrintPins(r.pins, k)))))
  }

  function PrintRf(r: Rf, k: string): string {
    KeyLine("frequency_hz", Decimal(r.frequencyHz),
    KeyLine("tx_power_dbm", SignedDecimal(r.txPowerDbm),
    KeyLine("ramp_time", Name(r.rampTime == Ramp20, "20us"),
    KeyLine("regulator_mode", Name(r.regulator == Dcdc, "dcdc"), k))))
  }

  function PrintLora(l: Lora, k: string): string {
    KeyLine("spreading_factor", Name(l.spreadingFactor == Sf7, "sf7"),
    KeyLine("bandwidth", Name(l.bandwidth == Bw0800, "bw_0800"),
    KeyLine("coding_rate", Name(l.codingRate == Cr45, "cr_4_5"),
    KeyLine("preamble_length", Decimal(l.preambleLength),
    KeyLine("header_type", Name(l.headerType == VariableLength, "variable_length"),
    KeyLine("payload_length", Decimal(l.payloadLength),
    KeyLine("crc", Quoted(if l.crc == CrcOn then "on" else "off"),
    KeyLine("iq_mode", Name(l.iqMode == IqNormal, "normal"), k))))))))
  }

  function PrintTimeouts(t: Timeouts, k: string): string {
    KeyLine("tx_ms", Decimal(t.tx.count),
    KeyLine("rx_ms", Decimal(t.rx.count),
    KeyLine("continuous_rx", Flag(t.continuousRx), k)))
  }

  function PrintRuntime(r: Runtime, k: string): string {
    KeyLine("auto_fs", Flag(r.autoFs),
    KeyLine("long_preamble", Flag(r.longPreamble),
    KeyLine("use_manual_gain", Flag(r.useManualGain),
    KeyLine("manual_gain_value", Decimal(r.manualGain),
    KeyLine("lna_setting", Name(r.lna == HighSensitivity, "high_sensitivity"), k)))))
  }

  /** The sections in the order of the schema. */
  function Print(c: Config): string {
    HeaderLine("radios:",
    HeaderLine("rx:", PrintRadio(c.rx,
    HeaderLine("tx:", PrintRadio(c.tx,
    HeaderLine("lora:", PrintRf(c.rf, PrintLora(c.lora,
    HeaderLine("timeouts:", PrintTimeouts(c.timeouts,
    HeaderLine("runtime:", PrintRuntime(c.runtime, ""))))))))))))
  }

  // ------------------------------------------------------------------ reading a printed line

  lemma HeadersHaveNoSpace(t: string, section: Section, sub: SubSection)
    requires Header(t, section, sub).Some?
    ensures ' ' !in t
  {
  }

  predicate KeyOk(key: string) {
    Tight(key) && key[0] != '#' && ':' !in key && '\n' !in key
  }

  predicate ValueOk(v: string) {
    Tight(v) && '\n' !in v
  }

  lemma {:induction false} KeyApplied(st: State, key: string, value: string)
    requires KeyOk(key) && ValueOk(value)
    ensures ApplyLine(st, "      " + key + ": " + value)
         == st.(cfg := KeyValue(st.cfg, st.section, st.sub, key, Clean(value)))
  {
    hide KeyValue, Clean, Header, Trim;
    var t := key + ": " + value;
    assert "      " + key + ": " + value == "      " + t;
    TrimIndented("      ", t);
    assert t[..|key|] == key && t[|key|] == ':' && t[|key| + 1] == ' ';
    if Header(t, st.section, st.sub).Some? {
      HeadersHaveNoSpace(t, st.section, st.sub);
      assert false;
    }
    FindIs(t, ':', |key|);
    assert key == "" + key;
    TrimIndented("", key);
    assert t[|key| + 1..] == " " + value;
    TrimIndented(" ", value);
  }

  lemma {:induction false} KeyRead(st: State, key: string, value: string, k: string)
    requires KeyOk(key) && ValueOk(value)
    ensures ParseText(st, KeyLine(key, value, k))
         == ParseText(st.(cfg := KeyValue(st.cfg, st.section, st.sub, key, Clean(value))), k)
  {
    hide KeyValue, Clean, ParseText, ApplyLine;
    var line := "      " + key + ": " + value;
    KeyApplied(st, key, value);
    assert KeyLine(key, value, k) == line + "\n" + k;
    assert '\n' !in line;
    LineRead(st, line, k);
  }

  lemma {:induction false} HeaderRead(st: State, h: string, k: string)
    requires Tight(h) && '\n' !in h && h[0] != '#' && Header(h, st.section, st.sub).Some?
    ensures var (section, sub) := Header(h, st.section, st.sub).value;
      ParseText(st, HeaderLine(h, k)) == ParseText(State(section, sub, st.cfg), k)
  {
    hide ParseText, Header;
    TrimIndented("  ", h);
    assert HeaderLine(h, k) == ("  " + h) + "\n" + k;
    LineRead(st, "  " + h, k);
  }

  lemma {:induction false} NumberOk(n: nat)
    ensures ValueOk(Decimal(n)) && Clean(Decimal(n)) == Decimal(n)
  {
    var s := Decimal(n);
    assert forall k :: 0 <= k < |s| ==> IsDigit(s[k]);
    hide Decimal;
  }

  lemma {:induction false} SignedNumberOk(n: int)
    ensures ValueOk(SignedDecimal(n)) && Clean(SignedDecimal(n)) == SignedDecimal(n)
  {
    var d := Decimal(if n < 0 then -n else n);
    var s := SignedDecimal(n);
    assert forall k :: 0 <= k < |d| ==> IsDigit(d[k]);
    hide Decimal;
    assert forall c :: c in s ==> c == '-' || IsDigit(c);
  }

  lemma {:induction false} QuotedOk(s: string)
    requires CleanString(s)
    ensures ValueOk(Quoted(s)) && Clean(Quoted(s)) == s
  {
    var q := Quoted(s);
    assert '#' !in q && q[1..|q| - 1] == s;
  }

  lemma {:induction false} U32Read(n: U32, o: U32)
    ensures ParseU32(Decimal(n), o) == n
  {
    StoulDecimal(n);
  }

  lemma {:induction false} U8Read(n: U8, o: U8)
    ensures ParseU8(Decimal(n), o) == n
  {
    StoulDecimal(n);
  }

  lemma {:induction false} I8Read(n: I8, o: I8)
    ensures ParseI8(SignedDecimal(n), o) == n
  {
    StolSignedDecimal(n);
  }

  lemma {:induction false} TimeoutRead(t: TickTime, o: TickTime)
    requires t.base == Tick1000us
    ensures ParseTimeout(Decimal(t.count), o) == t
  {
    StoulDecimal(t.count);
  }

  // ------------------------------------------------------------------ the keys of each group

  lemma SpiKeyNames1()
    ensures KeyOk("device") && KeyOk("speed_hz")
  {
  }

  lemma SpiKeyNames2()
    ensures KeyOk("mode") && KeyOk("bits_per_word")
  {
  }

  lemma SpiKeys(s: Spi, v: string)
    ensures KeyOk("device") && SpiKey(s, "device", v) == s.(device := v)
    ensures KeyOk("speed_hz") && SpiKey(s, "speed_hz", v) == s.(speedHz := ParseU32(v, s.speedHz))
    ensures KeyOk("mode") && SpiKey(s, "mode", v) == s.(mode := ParseU8(v, s.mode))
    ensures KeyOk("bits_per_word") && SpiKey(s, "bits_per_word", v) == s.(bitsPerWord := ParseU8(v, s.bitsPerWord))
  {
    SpiKeyNames1();
    SpiKeyNames2();
    hide KeyOk, ParseU32, ParseU8;
  }

  lemma DioKeyNames1()
    ensures KeyOk("has_dio1") && KeyOk("dio1")
  {
  }

  lemma DioKeyNames2()
    ensures KeyOk("has_dio2") && KeyOk("dio2")
  {
  }

  lemma DioKeyNames3()
    ensures KeyOk("has_dio3") && KeyOk("dio3")
  {
  }

  lemma DioKeys(p: Pins, v: string)
    ensures KeyOk("has_dio1") && PinKey(p, "has_dio1", v) == p.(hasDio1 := ParseBool(v, p.hasDio1))
    ensures KeyOk("dio1") && PinKey(p, "dio1", v) == p.(dio1 := ParseU32(v, p.dio1))
    ensures KeyOk("has_dio2") && PinKey(p, "has_dio2", v) == p.(hasDio2 := ParseBool(v, p.hasDio2))
    ensures KeyOk("dio2") && PinKey(p, "dio2", v) == p.(dio2 := ParseU32(v, p.dio2))
    ensures KeyOk("has_dio3") && PinKey(p, "has_dio3", v) == p.(hasDio3 := ParseBool(v, p.hasDio3))
    ensures KeyOk("dio3") && PinKey(p, "dio3", v) == p.(dio3 := ParseU32(v, p.dio3))
  {
    DioKeyNames1();
    DioKeyNames2();
    DioKeyNames3();
    hide KeyOk, ParseU32, ParseBool, ParseBehavior;
  }

  lemma OtherPinKeyNames1()
    ensures KeyOk("reset") && KeyOk("busy")
  {
  }

  lemma OtherPinKeyNames2()
    ensures KeyOk("has_tx_enable") && KeyOk("tx_enable")
  {
  }

  lemma OtherPinKeys(p: Pins, v: string)
    ensures KeyOk("reset") && PinKey(p, "reset", v) == p.(reset := ParseU32(v, p.reset))
    ensures KeyOk("busy") && PinKey(p, "busy", v) == p.(busy := ParseU32(v, p.busy))
    ensures KeyOk("has_tx_enable") && PinKey(p, "has_tx_enable", v) == p.(hasTxEnable := ParseBool(v, p.hasTxEnable))
    ensures KeyOk("tx_enable") && PinKey(p, "tx_enable", v) == p.(txEnable := ParseU32(v, p.txEnable))
  {
    OtherPinKeyNames1();
    OtherPinKeyNames2();
    hide KeyOk, ParseU32, ParseBool, ParseBehavior;
  }

  lemma TxEnableKeyNames()
    ensures KeyOk("tx_enable_active_high") && KeyOk("tx_enable_behavior")
  {
  }

  lemma TxEnableKeys(p: Pins, v: string)
    ensures KeyOk("tx_enable_active_high")
    ensures PinKey(p, "tx_enable_active_high", v) == p.(txEnableActiveHigh := ParseBool(v, p.txEnableActiveHigh))
    ensures KeyOk("tx_enable_behavior")
    ensures PinKey(p, "tx_enable_behavior", v) == p.(txEnableBehavior := ParseBehavior(v))
  {
    TxEnableKeyNames();
    hide KeyOk, ParseU32, ParseBool, ParseBehavior;
  }

  lemma RfKeyNames1()
    ensures KeyOk("frequency_hz") && KeyOk("tx_power_dbm")
  {
  }

  lemma RfKeyNames2()
    ensures KeyOk("ramp_time") && KeyOk("regulator_mode")
  {
  }

  lemma RfKeys(r: Rf, v: string)
    ensures KeyOk("frequency_hz") && RfKey(r, "frequency_hz", v) == r.(frequencyHz := ParseU32(v, r.frequencyHz))
    ensures KeyOk("tx_power_dbm") && RfKey(r, "tx_power_dbm", v) == r.(txPowerDbm := ParseI8(v, r.txPowerDbm))
    ensures KeyOk("ramp_time") && RfKey(r, "ramp_time", v) == r.(rampTime := Ramp20)
    ensures KeyOk("regulator_mode") && RfKey(r, "regulator_mode", v) == r.(regulator := Dcdc)
  {
    RfKeyNames1();
    RfKeyNames2();
    hide KeyOk, ParseU32, ParseI8;
  }

  lemma RfKeysAreNoLoraKeys(l: Lora, v: string)
    ensures LoraKey(l, "frequency_hz", v) == l && LoraKey(l, "tx_power_dbm", v) == l
    ensures LoraKey(l, "ramp_time", v) == l && LoraKey(l, "regulator_mode", v) == l
  {
    hide ParseU8, ParseCrc;
  }

  lemma LoraKeyNames1()
    ensures KeyOk("spreading_factor") && KeyOk("bandwidth")
  {
  }

  lemma LoraKeyNames2()
    ensures KeyOk("coding_rate") && KeyOk("preamble_length")
  {
  }

  lemma LoraKeys(l: Lora, v: string)
    ensures KeyOk("spreading_factor") && LoraKey(l, "spreading_factor", v) == l.(spreadingFactor := Sf7)
    ensures KeyOk("bandwidth") && LoraKey(l, "bandwidth", v) == l.(bandwidth := Bw0800)
    ensures KeyOk("coding_rate") && LoraKey(l, "coding_rate", v) == l.(codingRate := Cr45)
    ensures KeyOk("preamble_length")
    ensures LoraKey(l, "preamble_length", v) == l.(preambleLength := ParseU8(v, l.preambleLength))
  {
    LoraKeyNames1();
    LoraKeyNames2();
    hide KeyOk, ParseU8, ParseCrc;
  }

  lemma MoreLoraKeyNames1()
    ensures KeyOk("header_type") && KeyOk("payload_length")
  {
  }

  lemma MoreLoraKeyNames2()
    ensures KeyOk("crc") && KeyOk("iq_mode")
  {
  }

  lemma MoreLoraKeys(l: Lora, v: string)
    ensures KeyOk("header_type") && LoraKey(l, "header_type", v) == l.(headerType := VariableLength)
    ensures KeyOk("payload_length")
    ensures LoraKey(l, "payload_length", v) == l.(payloadLength := ParseU8(v, l.payloadLength))
    ensures KeyOk("crc") && LoraKey(l, "crc", v) == l.(crc := ParseCrc(v))
    ensures KeyOk("iq_mode") && LoraKey(l, "iq_mode", v) == l.(iqMode := IqNormal)
  {
    MoreLoraKeyNames1();
    MoreLoraKeyNames2();
    hide KeyOk, ParseU8, ParseCrc;
  }

  lemma LoraKeysAreNoRfKeys(r: Rf, v: string)
    ensures RfKey(r, "spreading_factor", v) == r && RfKey(r, "bandwidth", v) == r
    ensures RfKey(r, "coding_rate", v) == r && RfKey(r, "preamble_length", v) == r
    ensures RfKey(r, "header_type", v) == r && RfKey(r, "payload_length", v) == r
    ensures RfKey(r, "crc", v) == r && RfKey(r, "iq_mode", v) == r
  {
    hide ParseU32, ParseI8;
  }

  lemma TimeoutKeyNames1()
    ensures KeyOk("tx_ms") && KeyOk("rx_ms")
  {
  }

  lemma TimeoutKeyNames2()
    ensures KeyOk("continuous_rx")
  {
  }

  lemma TimeoutKeys(t: Timeouts, v: string)
    ensures KeyOk("tx_ms") && TimeoutKey(t, "tx_ms", v) == t.(tx := ParseTimeout(v, t.tx))
    ensures KeyOk("rx_ms") && TimeoutKey(t, "rx_ms", v) == t.(rx := ParseTimeout(v, t.rx))
    ensures KeyOk("continuous_rx")
    ensures TimeoutKey(t, "continuous_rx", v) == t.(continuousRx := ParseBool(v, t.continuousRx))
  {
    TimeoutKeyNames1();
    TimeoutKeyNames2();
    hide KeyOk, ParseTimeout, ParseBool;
  }

  lemma RuntimeKeyNames1()
    ensures KeyOk("auto_fs") && KeyOk("long_preamble")
  {
  }

  lemma RuntimeKeyNames2()
    ensures KeyOk("use_manual_gain")
  {
  }

  lemma RuntimeKeys(r: Runtime, v: string)
    ensures KeyOk("auto_fs") && RuntimeKey(r, "auto_fs", v) == r.(autoFs := ParseBool(v, r.autoFs))
    ensures KeyOk("long_preamble")
    ensures RuntimeKey(r, "long_preamble", v) == r.(longPreamble := ParseBool(v, r.longPreamble))
    ensures KeyOk("use_manual_gain")
    ensures RuntimeKey(r, "use_manual_gain", v) == r.(useManualGain := ParseBool(v, r.useManualGain))
  {
    RuntimeKeyNames1();
    RuntimeKeyNames2();
    hide KeyOk, ParseU8, ParseBool;
  }

  lemma MoreRuntimeKeyNames()
    ensures KeyOk("manual_gain_value") && KeyOk("lna_setting")
  {
  }

  lemma MoreRuntimeKeys(r: Runtime, v: string)
    ensures KeyOk("manual_gain_value")
    ensures RuntimeKey(r, "manual_gain_value", v) == r.(manualGain := ParseU8(v, r.manualGain))
    ensures KeyOk("lna_setting") && RuntimeKey(r, "lna_setting", v) == r.(lna := HighSensitivity)
  {
    MoreRuntimeKeyNames();
    hide KeyOk, ParseU8, ParseBool;
  }

  // ------------------------------------------------------------------ reading a printed radio

  predicate InRadio(st: State) {
    st.section == RadiosRx || st.section == RadiosTx
  }

  /** The state with r as the radio of the current section. */
  function With(st: State, r: Radio): State
    requires InRadio(st)
  {
    if st.section == RadiosRx then st.(cfg := st.cfg.(rx := r)) else st.(cfg := st.cfg.(tx := r))
  }

  lemma {:induction false} RadioKeyRead(st: State, r: Radio, key: string, value: string, k: string)
    requires InRadio(st) && KeyOk(key) && ValueOk(value)
    ensures ParseText(With(st, r), KeyLine(key, value, k))
         == ParseText(With(st, RadioKey(r, st.sub, key, Clean(value))), k)
  {
    hide ParseText, RadioKey, KeyLine, Clean, KeyOk, ValueOk;
    KeyRead(With(st, r), key, value, k);
  }

  lemma {:induction false} SubSectionRead(st: State, r: Radio, h: string, sub: SubSection, k: string)
    requires InRadio(st) && (h, sub) in {("spi:", SpiSub), ("gpio:", GpioSub), ("pins:", PinsSub)}
    ensures ParseText(With(st, r), HeaderLine(h, k)) == ParseText(With(st.(sub := sub), r), k)
  {
    hide ParseText, HeaderLine;
    assert Tight(h) && '\n' !in h && h[0] != '#';
    HeaderRead(With(st, r), h, k);
  }

  lemma {:induction false} SpiKeyRead(st: State, r: Radio, s: Spi, key: string, value: string, v: string, k: string)
    requires InRadio(st) && st.sub == SpiSub && KeyOk(key) && ValueOk(value) && Clean(value) == v
    ensures ParseText(With(st, r.(spi := s)), KeyLine(key, value, k))
         == ParseText(With(st, r.(spi := SpiKey(s, key, v))), k)
  {
    hide ParseText, KeyLine, SpiKey, Clean, KeyOk, ValueOk, With;
    RadioKeyRead(st, r.(spi := s), key, value, k);
  }

  lemma {:induction false} SpiRead(st: State, r: Radio, s: Spi, k: string)
    requires InRadio(st) && CleanString(s.device)
    ensures ParseText(With(st, r), PrintSpi(s, k)) == ParseText(With(st.(sub := SpiSub), r.(spi := s)), k)
  {
    var k3 := KeyLine("bits_per_word", Decimal(s.bitsPerWord), k);
    var k2 := KeyLine("mode", Decimal(s.mode), k3);
    var k1 := KeyLine("speed_hz", Decimal(s.speedHz), k2);
    var k0 := KeyLine("device", Quoted(s.device), k1);
    hide ParseText, KeyLine, Decimal, Quoted, Clean, ParseU32, ParseU8, KeyOk, ValueOk, SpiKey, HeaderLine, With;
    SubSectionRead(st, r, "spi:", SpiSub, k0);
    var st1, s0 := st.(sub := SpiSub), r.spi;
    assert r.(spi := s0) == r;
    QuotedOk(s.device);
    SpiKeys(s0, s.device);
    SpiKeyRead(st1, r, s0, "device", Quoted(s.device), s.device, k1);
    var s1 := s0.(device := s.device);
    NumberOk(s.speedHz);
    U32Read(s.speedHz, s1.speedHz);
    SpiKeys(s1, Decimal(s.speedHz));
    SpiKeyRead(st1, r, s1, "speed_hz", Decimal(s.speedHz), Decimal(s.speedHz), k2);
    var s2 := s1.(speedHz := s.speedHz);
    NumberOk(s.mode);
    U8Read(s.mode, s2.mode);
    SpiKeys(s2, Decimal(s.mode));
    SpiKeyRead(st1, r, s2, "mode", Decimal(s.mode), Decimal(s.mode), k3);
    var s3 := s2.(mode := s.mode);
    NumberOk(s.bitsPerWord);
    U8Read(s.bitsPerWord, s3.bitsPerWord);
    SpiKeys(s3, Decimal(s.bitsPerWord));
    SpiKeyRead(st1, r, s3, "bits_per_word", Decimal(s.bitsPerWord), Decimal(s.bitsPerWord), k);
  }

  lemma {:induction false} PinKeyRead(st: State, r: Radio, p: Pins, key: string, value: string, v: string, k: string)
    requires InRadio(st) && st.sub == PinsSub && KeyOk(key) && ValueOk(value) && Clean(value) == v
    ensures ParseText(With(st, r.(pins := p)), KeyLine(key, value, k))
         == ParseText(With(st, r.(pins := PinKey(p, key, v))), k)
  {
    hide ParseText, KeyLine, Clean, PinKey, ValueOk, KeyOk, With;
    RadioKeyRead(st, r.(pins := p), key, value, k);
  }

  /** The value of a number and of a flag, printed and read again. */
  lemma {:induction false} NumberBack(n: U32)
    ensures ValueOk(Decimal(n)) && Clean(Decimal(n)) == Decimal(n) && forall o :: ParseU32(Decimal(n), o) == n
  {
    hide ParseU32;
    NumberOk(n);
    forall o ensures ParseU32(Decimal(n), o) == n { U32Read(n, o); }
  }

  lemma {:induction false} FlagBack(b: bool)
    ensures ValueOk(Flag(b)) && Clean(Flag(b)) == Flag(b) && forall o :: ParseBool(Flag(b), o) == b
  {
  }

  lemma {:induction false} DioRead(st: State, r: Radio, p: Pins, flagKey: string, flag: bool, lineKey: string,
                                   line: U32, k: string, p1: Pins, p2: Pins)
    requires InRadio(st) && st.sub == PinsSub && KeyOk(flagKey) && KeyOk(lineKey)
    requires p1 == PinKey(p, flagKey, Flag(flag)) && p2 == PinKey(p1, lineKey, Decimal(line))
    ensures ParseText(With(st, r.(pins := p)), KeyLine(flagKey, Flag(flag), KeyLine(lineKey, Decimal(line), k)))
         == ParseText(With(st, r.(pins := p2)), k)
  {
    hide ParseText, KeyLine, Decimal, Flag, Clean, KeyOk, ValueOk, PinKey, With;
    FlagBack(flag);
    PinKeyRead(st, r, p, flagKey, Flag(flag), Flag(flag), KeyLine(lineKey, Decimal(line), k));
    NumberBack(line);
    PinKeyRead(st, r, p1, lineKey, Decimal(line), Decimal(line), k);
  }

  lemma {:induction false} DiosRead(st: State, r: Radio, q: Pins, p: Pins, k: string)
    requires InRadio(st) && st.sub == PinsSub
    ensures ParseText(With(st, r.(pins := q)), PrintDios(p, k))
         == ParseText(With(st, r.(pins := q.(hasDio1 := p.hasDio1, dio1 := p.dio1, hasDio2 := p.hasDio2,
                                             dio2 := p.dio2, hasDio3 := p.hasDio3, dio3 := p.dio3))), k)
  {
    hide ParseText, KeyLine, Decimal, Flag, ParseU32, ParseBool, With, KeyOk, PinKey, ValueOk, Clean;
    var k2 := KeyLine("has_dio3", Flag(p.hasDio3), KeyLine("dio3", Decimal(p.dio3), k));
    var k1 := KeyLine("has_dio2", Flag(p.hasDio2), KeyLine("dio2", Decimal(p.dio2), k2));
    FlagBack(p.hasDio1);
    NumberBack(p.dio1);
    var q1 := q.(hasDio1 := p.hasDio1);
    var q2 := q1.(dio1 := p.dio1);
    DioKeys(q, Flag(p.hasDio1));
    DioKeys(q1, Decimal(p.dio1));
    DioRead(st, r, q, "has_dio1", p.hasDio1, "dio1", p.dio1, k1, q1, q2);
    FlagBack(p.hasDio2);
    NumberBack(p.dio2);
    var q3 := q2.(hasDio2 := p.hasDio2);
    var q4 := q3.(dio2 := p.dio2);
    DioKeys(q2, Flag(p.hasDio2));
    DioKeys(q3, Decimal(p.dio2));
    DioRead(st, r, q2, "has_dio2", p.hasDio2, "dio2", p.dio2, k2, q3, q4);
    FlagBack(p.hasDio3);
    NumberBack(p.dio3);
    var q5 := q4.(hasDio3 := p.hasDio3);
    DioKeys(q4, Flag(p.hasDio3));
    DioKeys(q5, Decimal(p.dio3));
    DioRead(st, r, q4, "has_dio3", p.hasDio3, "dio3", p.dio3, k, q5, q5.(dio3 := p.dio3));
  }

  lemma {:induction false} BehaviorBack(b: TxEnableBehavior)
    ensures ValueOk(Quoted(BehaviorName(b))) && Clean(Quoted(BehaviorName(b))) == BehaviorName(b)
    ensures ParseBehavior(BehaviorName(b)) == b
  {
    assert CleanString(BehaviorName(b));
    hide Quoted, Clean, ValueOk;
    QuotedOk(BehaviorName(b));
  }

  lemma {:induction false} TxEnableRead(st: State, r: Radio, q: Pins, p: Pins, k: string)
    requires InRadio(st) && st.sub == PinsSub
    ensures ParseText(With(st, r.(pins := q)), PrintTxEnable(p, k))
         == ParseText(With(st, r.(pins := q.(hasTxEnable := p.hasTxEnable, txEnable := p.txEnable,
                                             txEnableActiveHigh := p.txEnableActiveHigh,
                                             txEnableBehavior := p.txEnableBehavior))), k)
  {
    hide ParseText, KeyLine, Decimal, Flag, ParseU32, ParseBool, With, Quoted, Clean, ValueOk, KeyOk, PinKey,
         BehaviorName, ParseBehavior;
    var name := BehaviorName(p.txEnableBehavior);
    var k2 := KeyLine("tx_enable_behavior", Quoted(name), k);
    var k1 := KeyLine("tx_enable_active_high", Flag(p.txEnableActiveHigh), k2);
    FlagBack(p.hasTxEnable);
    NumberBack(p.txEnable);
    var q1 := q.(hasTxEnable := p.hasTxEnable);
    var q2 := q1.(txEnable := p.txEnable);
    OtherPinKeys(q, Flag(p.hasTxEnable));
    OtherPinKeys(q1, Decimal(p.txEnable));
    DioRead(st, r, q, "has_tx_enable", p.hasTxEnable, "tx_enable", p.txEnable, k1, q1, q2);
    FlagBack(p.txEnableActiveHigh);
    var q3 := q2.(txEnableActiveHigh := p.txEnableActiveHigh);
    TxEnableKeys(q2, Flag(p.txEnableActiveHigh));
    PinKeyRead(st, r, q2, "tx_enable_active_high", Flag(p.txEnableActiveHigh), Flag(p.txEnableActiveHigh), k2);
    BehaviorBack(p.txEnableBehavior);
    TxEnableKeys(q3, name);
    PinKeyRead(st, r, q3, "tx_enable_behavior", Quoted(name), name, k);
  }

  lemma {:induction false} PinsRead(st: State, r: Radio, p: Pins, k: string)
    requires InRadio(st)
    ensures ParseText(With(st, r), PrintPins(p, k)) == ParseText(With(st.(sub := PinsSub), r.(pins := p)), k)
  {
    hide ParseText, KeyLine, Decimal, ParseU32, PrintDios, PrintTxEnable, PinKey, KeyOk, ValueOk, Clean, HeaderLine;
    hide With;
    var k3 := PrintTxEnable(p, k);
    var k2 := PrintDios(p, k3);
    var k1 := KeyLine("busy", Decimal(p.busy), k2);
    var k0 := KeyLine("reset", Decimal(p.reset), k1);
    SubSectionRead(st, r, "pins:", PinsSub, k0);
    var st1, q := st.(sub := PinsSub), r.pins;
    assert r.(pins := q) == r;
    NumberBack(p.reset);
    NumberBack(p.busy);
    OtherPinKeys(q, Decimal(p.reset));
    PinKeyRead(st1, r, q, "reset", Decimal(p.reset), Decimal(p.reset), k1);
    var q1 := q.(reset := p.reset);
    OtherPinKeys(q1, Decimal(p.busy));
    PinKeyRead(st1, r, q1, "busy", Decimal(p.busy), Decimal(p.busy), k2);
    var q2 := q1.(busy := p.busy);
    DiosRead(st1, r, q2, p, k3);
    var q3 := q2.(hasDio1 := p.hasDio1, dio1 := p.dio1, hasDio2 := p.hasDio2,
                  dio2 := p.dio2, hasDio3 := p.hasDio3, dio3 := p.dio3);
    TxEnableRead(st1, r, q3, p, k);
  }

  lemma {:induction false} RadioRead(st: State, r0: Radio, r: Radio, k: string)
    requires InRadio(st) && st.sub == NoSub && ProducibleRadio(r)
    ensures ParseText(With(st, r0), PrintRadio(r, k)) == ParseText(With(st.(sub := PinsSub), r), k)
  {
    hide ParseText, KeyLine, PrintSpi, PrintPins, Quoted, Clean, ValueOk, SpiKey, PinKey, HeaderLine, With;
    var k3 := PrintPins(r.pins, k);
    var k2 := KeyLine("chip", Quoted(r.chip), k3);
    var k1 := HeaderLine("gpio:", k2);
    var k0 := PrintSpi(r.spi, k1);
    var name := RoleName(r.role);
    assert CleanString(name);
    QuotedOk(name);
    RadioKeyRead(st, r0, "role", Quoted(name), k0);
    var r1 := r0.(role := r.role);
    assert ParseRole(name) == r.role;
    SpiRead(st, r1, r.spi, k1);
    var st2, r2 := st.(sub := SpiSub), r1.(spi := r.spi);
    SubSectionRead(st2, r2, "gpio:", GpioSub, k2);
    var st3 := st.(sub := GpioSub);
    QuotedOk(r.chip);
    RadioKeyRead(st3, r2, "chip", Quoted(r.chip), k3);
    PinsRead(st3, r2.(chip := r.chip), r.pins, k);
  }

  // ------------------------------------------------------------------ reading the printed parameters

  /** A key of a section without subsections. */
  lemma {:induction false} PlainKeyRead(st: State, key: string, value: string, v: string, k: string)
    requires KeyOk(key) && ValueOk(value) && Clean(value) == v
    ensures ParseText(st, KeyLine(key, value, k))
         == ParseText(st.(cfg := KeyValue(st.cfg, st.section, st.sub, key, v)), k)
  {
    hide ParseText, KeyLine, KeyValue, Clean, KeyOk, ValueOk;
    KeyRead(st, key, value, k);
  }

  lemma {:induction false} NameOk(name: string)
    requires CleanString(name)
    ensures ValueOk(Name(true, name))
  {
    hide Clean, ValueOk;
    QuotedOk(name);
  }

  lemma {:induction false} RfKeyRead(st: State, r: Rf, key: string, value: string, v: string, k: string)
    requires st.section == LoraSection && KeyOk(key) && ValueOk(value) && Clean(value) == v
    requires LoraKey(st.cfg.lora, key, v) == st.cfg.lora
    ensures ParseText(st.(cfg := st.cfg.(rf := r)), KeyLine(key, value, k))
         == ParseText(st.(cfg := st.cfg.(rf := RfKey(r, key, v))), k)
  {
    hide ParseText, KeyLine, Clean, KeyOk, ValueOk, RfKey, LoraKey;
    PlainKeyRead(st.(cfg := st.cfg.(rf := r)), key, value, v, k);
  }

  lemma {:induction false} RfRead(st: State, r: Rf, k: string)
    requires st.section == LoraSection && r.rampTime == Ramp20 && r.regulator == Dcdc
    ensures ParseText(st, PrintRf(r, k)) == ParseText(st.(cfg := st.cfg.(rf := r)), k)
  {
    hide ParseText, KeyLine, Decimal, SignedDecimal, Name, Clean, ValueOk, ParseU32, ParseI8, KeyOk, RfKey, LoraKey;
    var k3 := KeyLine("regulator_mode", Name(true, "dcdc"), k);
    var k2 := KeyLine("ramp_time", Name(true, "20us"), k3);
    var k1 := KeyLine("tx_power_dbm", SignedDecimal(r.txPowerDbm), k2);
    var l, r0 := st.cfg.lora, st.cfg.rf;
    assert st.(cfg := st.cfg.(rf := r0)) == st;
    NumberBack(r.frequencyHz);
    RfKeys(r0, Decimal(r.frequencyHz));
    RfKeysAreNoLoraKeys(l, Decimal(r.frequencyHz));
    RfKeyRead(st, r0, "frequency_hz", Decimal(r.frequencyHz), Decimal(r.frequencyHz), k1);
    var r1 := r0.(frequencyHz := r.frequencyHz);
    SignedNumberOk(r.txPowerDbm);
    I8Read(r.txPowerDbm, r1.txPowerDbm);
    RfKeys(r1, SignedDecimal(r.txPowerDbm));
    RfKeysAreNoLoraKeys(l, SignedDecimal(r.txPowerDbm));
    RfKeyRead(st, r1, "tx_power_dbm", SignedDecimal(r.txPowerDbm), SignedDecimal(r.txPowerDbm), k2);
    var r2 := r1.(txPowerDbm := r.txPowerDbm);
    NameOk("20us");
    var v2 := Clean(Name(true, "20us"));
    RfKeys(r2, v2);
    RfKeysAreNoLoraKeys(l, v2);
    RfKeyRead(st, r2, "ramp_time", Name(true, "20us"), v2, k3);
    var r3 := r2.(rampTime := Ramp20);
    NameOk("dcdc");
    var v3 := Clean(Name(true, "dcdc"));
    RfKeys(r3, v3);
    RfKeysAreNoLoraKeys(l, v3);
    RfKeyRead(st, r3, "regulator_mode", Name(true, "dcdc"), v3, k);
  }

  lemma {:induction false} LoraKeyRead(st: State, l: Lora, key: string, value: string, v: string, k: string)
    requires st.section == LoraSection && KeyOk(key) && ValueOk(value) && Clean(value) == v
    requires RfKey(st.cfg.rf, key, v) == st.cfg.rf
    ensures ParseText(st.(cfg := st.cfg.(lora := l)), KeyLine(key, value, k))
         == ParseText(st.(cfg := st.cfg.(lora := LoraKey(l, key, v))), k)
  {
    hide ParseText, KeyLine, Clean, KeyOk, ValueOk, RfKey, LoraKey;
    PlainKeyRead(st.(cfg := st.cfg.(lora := l)), key, value, v, k);
  }

  /** The three modulation parameters and the preamble. */
  lemma {:induction false} ModulationRead(st: State, l: Lora, k: string)
    requires st.section == LoraSection
    ensures ParseText(st,
              KeyLine("spreading_factor", Name(true, "sf7"),
              KeyLine("bandwidth", Name(true, "bw_0800"),
              KeyLine("coding_rate", Name(true, "cr_4_5"),
              KeyLine("preamble_length", Decimal(l.preambleLength), k)))))
         == ParseText(st.(cfg := st.cfg.(lora := st.cfg.lora.(spreadingFactor := Sf7, bandwidth := Bw0800,
                                         codingRate := Cr45, preambleLength := l.preambleLength))), k)
  {
    hide ParseText, KeyLine, Decimal, Name, Clean, ValueOk, ParseU8, KeyOk, RfKey, LoraKey;
    var k3 := KeyLine("preamble_length", Decimal(l.preambleLength), k);
    var k2 := KeyLine("coding_rate", Name(true, "cr_4_5"), k3);
    var k1 := KeyLine("bandwidth", Name(true, "bw_0800"), k2);
    var rf, l0 := st.cfg.rf, st.cfg.lora;
    assert st.(cfg := st.cfg.(lora := l0)) == st;
    NameOk("sf7");
    var v0 := Clean(Name(true, "sf7"));
    LoraKeys(l0, v0);
    LoraKeysAreNoRfKeys(rf, v0);
    LoraKeyRead(st, l0, "spreading_factor", Name(true, "sf7"), v0, k1);
    var l1 := l0.(spreadingFactor := Sf7);
    NameOk("bw_0800");
    var v1 := Clean(Name(true, "bw_0800"));
    LoraKeys(l1, v1);
    LoraKeysAreNoRfKeys(rf, v1);
    LoraKeyRead(st, l1, "bandwidth", Name(true, "bw_0800"), v1, k2);
    var l2 := l1.(bandwidth := Bw0800);
    NameOk("cr_4_5");
    var v2 := Clean(Name(true, "cr_4_5"));
    LoraKeys(l2, v2);
    LoraKeysAreNoRfKeys(rf, v2);
    LoraKeyRead(st, l2, "coding_rate", Name(true, "cr_4_5"), v2, k3);
    var l3 := l2.(codingRate := Cr45);
    NumberOk(l.preambleLength);
    U8Read(l.preambleLength, l3.preambleLength);
    LoraKeys(l3, Decimal(l.preambleLength));
    LoraKeysAreNoRfKeys(rf, Decimal(l.preambleLength));
    LoraKeyRead(st, l3, "preamble_length", Decimal(l.preambleLength), Decimal(l.preambleLength), k);
  }

  lemma {:induction false} CrcBack(c: CrcMode)
    ensures var name := if c == CrcOn then "on" else "off";
      ValueOk(Quoted(name)) && Clean(Quoted(name)) == name && ParseCrc(name) == c
  {
    var name := if c == CrcOn then "on" else "off";
    assert CleanString(name);
    hide Quoted, Clean, ValueOk;
    QuotedOk(name);
  }

  /** The packet parameters. */
  lemma {:induction false} PacketRead(st: State, l: Lora, k: string)
    requires st.section == LoraSection
    ensures ParseText(st,
              KeyLine("header_type", Name(true, "variable_length"),
              KeyLine("payload_length", Decimal(l.payloadLength),
              KeyLine("crc", Quoted(if l.crc == CrcOn then "on" else "off"),
              KeyLine("iq_mode", Name(true, "normal"), k)))))
         == ParseText(st.(cfg := st.cfg.(lora := st.cfg.lora.(headerType := VariableLength,
                                         payloadLength := l.payloadLength, crc := l.crc, iqMode := IqNormal))), k)
  {
    hide ParseText, KeyLine, Decimal, Name, Quoted, Clean, ValueOk, ParseU8, ParseCrc, KeyOk, RfKey, LoraKey;
    var crc := if l.crc == CrcOn then "on" else "off";
    var k3 := KeyLine("iq_mode", Name(true, "normal"), k);
    var k2 := KeyLine("crc", Quoted(crc), k3);
    var k1 := KeyLine("payload_length", Decimal(l.payloadLength), k2);
    var rf, l0 := st.cfg.rf, st.cfg.lora;
    assert st.(cfg := st.cfg.(lora := l0)) == st;
    NameOk("variable_length");
    var v0 := Clean(Name(true, "variable_length"));
    MoreLoraKeys(l0, v0);
    LoraKeysAreNoRfKeys(rf, v0);
    LoraKeyRead(st, l0, "header_type", Name(true, "variable_length"), v0, k1);
    var l1 := l0.(headerType := VariableLength);
    NumberOk(l.payloadLength);
    U8Read(l.payloadLength, l1.payloadLength);
    MoreLoraKeys(l1, Decimal(l.payloadLength));
    LoraKeysAreNoRfKeys(rf, Decimal(l.payloadLength));
    LoraKeyRead(st, l1, "payload_length", Decimal(l.payloadLength), Decimal(l.payloadLength), k2);
    var l2 := l1.(payloadLength := l.payloadLength);
    CrcBack(l.crc);
    MoreLoraKeys(l2, crc);
    LoraKeysAreNoRfKeys(rf, crc);
    LoraKeyRead(st, l2, "crc", Quoted(crc), crc, k3);
    var l3 := l2.(crc := l.crc);
    NameOk("normal");
    var v3 := Clean(Name(true, "normal"));
    MoreLoraKeys(l3, v3);
    LoraKeysAreNoRfKeys(rf, v3);
    LoraKeyRead(st, l3, "iq_mode", Name(true, "normal"), v3, k);
  }

  lemma {:induction false} LoraRead(st: State, l: Lora, k: string)
    requires st.section == LoraSection
    requires l.spreadingFactor == Sf7 && l.bandwidth == Bw0800 && l.codingRate == Cr45
    requires l.headerType == VariableLength && l.iqMode == IqNormal
    ensures ParseText(st, PrintLora(l, k)) == ParseText(st.(cfg := st.cfg.(lora := l)), k)
  {
    hide ParseText, KeyLine, Decimal, Name, Quoted;
    var packet :=
      KeyLine("header_type", Name(true, "variable_length"),
      KeyLine("payload_length", Decimal(l.payloadLength),
      KeyLine("crc", Quoted(if l.crc == CrcOn then "on" else "off"),
      KeyLine("iq_mode", Name(true, "normal"), k))));
    ModulationRead(st, l, packet);
    var st1 := st.(cfg := st.cfg.(lora := st.cfg.lora.(spreadingFactor := Sf7, bandwidth := Bw0800,
                                                       codingRate := Cr45, preambleLength := l.preambleLength)));
    PacketRead(st1, l, k);
  }

  lemma {:induction false} TimeoutsRead(st: State, t: Timeouts, k: string)
    requires st.section == TimeoutsSection && t.tx.base == Tick1000us && t.rx.base == Tick1000us
    ensures ParseText(st, PrintTimeouts(t, k)) == ParseText(st.(cfg := st.cfg.(timeouts := t)), k)
  {
    hide ParseText, KeyLine, Decimal, Flag, Clean, ValueOk, ParseTimeout, ParseBool, KeyOk, TimeoutKey;
    var k2 := KeyLine("continuous_rx", Flag(t.continuousRx), k);
    var k1 := KeyLine("rx_ms", Decimal(t.rx.count), k2);
    var t0 := st.cfg.timeouts;
    NumberOk(t.tx.count);
    TimeoutRead(t.tx, t0.tx);
    TimeoutKeys(t0, Decimal(t.tx.count));
    PlainKeyRead(st, "tx_ms", Decimal(t.tx.count), Decimal(t.tx.count), k1);
    var t1 := t0.(tx := t.tx);
    NumberOk(t.rx.count);
    TimeoutRead(t.rx, t1.rx);
    TimeoutKeys(t1, Decimal(t.rx.count));
    PlainKeyRead(st.(cfg := st.cfg.(timeouts := t1)), "rx_ms", Decimal(t.rx.count), Decimal(t.rx.count), k2);
    var t2 := t1.(rx := t.rx);
    FlagBack(t.continuousRx);
    TimeoutKeys(t2, Flag(t.continuousRx));
    PlainKeyRead(st.(cfg := st.cfg.(timeouts := t2)), "continuous_rx", Flag(t.continuousRx), Flag(t.continuousRx), k);
  }

  lemma {:induction false} RuntimeKeyRead(st: State, r: Runtime, key: string, value: string, v: string, k: string)
    requires st.section == RuntimeSection && KeyOk(key) && ValueOk(value) && Clean(value) == v
    ensures ParseText(st.(cfg := st.cfg.(runtime := r)), KeyLine(key, value, k))
         == ParseText(st.(cfg := st.cfg.(runtime := RuntimeKey(r, key, v))), k)
  {
    hide ParseText, KeyLine, Clean, KeyOk, ValueOk, RuntimeKey;
    PlainKeyRead(st.(cfg := st.cfg.(runtime := r)), key, value, v, k);
  }

  lemma {:induction false} RuntimeRead(st: State, r: Runtime, k: string)
    requires st.section == RuntimeSection && r.lna == HighSensitivity
    ensures ParseText(st, PrintRuntime(r, k)) == ParseText(st.(cfg := st.cfg.(runtime := r)), k)
  {
    hide ParseText, KeyLine, Decimal, Flag, Name, Clean, ValueOk, ParseU8, ParseBool, KeyOk, RuntimeKey;
    var k4 := KeyLine("lna_setting", Name(true, "high_sensitivity"), k);
    var k3 := KeyLine("manual_gain_value", Decimal(r.manualGain), k4);
    var k2 := KeyLine("use_manual_gain", Flag(r.useManualGain), k3);
    var k1 := KeyLine("long_preamble", Flag(r.longPreamble), k2);
    var r0 := st.cfg.runtime;
    assert st.(cfg := st.cfg.(runtime := r0)) == st;
    FlagBack(r.autoFs);
    RuntimeKeys(r0, Flag(r.autoFs));
    RuntimeKeyRead(st, r0, "auto_fs", Flag(r.autoFs), Flag(r.autoFs), k1);
    var r1 := r0.(autoFs := r.autoFs);
    FlagBack(r.longPreamble);
    RuntimeKeys(r1, Flag(r.longPreamble));
    RuntimeKeyRead(st, r1, "long_preamble", Flag(r.longPreamble), Flag(r.longPreamble), k2);
    var r2 := r1.(longPreamble := r.longPreamble);
    FlagBack(r.useManualGain);
    RuntimeKeys(r2, Flag(r.useManualGain));
    RuntimeKeyRead(st, r2, "use_manual_gain", Flag(r.useManualGain), Flag(r.useManualGain), k3);
    var r3 := r2.(useManualGain := r.useManualGain);
    NumberOk(r.manualGain);
    U8Read(r.manualGain, r3.manualGain);
    MoreRuntimeKeys(r3, Decimal(r.manualGain));
    RuntimeKeyRead(st, r3, "manual_gain_value", Decimal(r.manualGain), Decimal(r.manualGain), k4);
    var r4 := r3.(manualGain := r.manualGain);
    NameOk("high_sensitivity");
    var v := Clean(Name(true, "high_sensitivity"));
    MoreRuntimeKeys(r4, v);
    RuntimeKeyRead(st, r4, "lna_setting", Name(true, "high_sensitivity"), v, k);
  }

  // ------------------------------------------------------------------ the round trip

  /** Reading a header moves to its section and keeps the configuration. */
  lemma {:induction false} SectionRead(st: State, h: string, section: Section, k: string)
    requires (h, section) in {("radios:", NoSection), ("rx:", RadiosRx), ("tx:", RadiosTx), ("lora:", LoraSection),
                              ("timeouts:", TimeoutsSection), ("runtime:", RuntimeSection)}
    ensures ParseText(st, HeaderLine(h, k)) == ParseText(State(section, NoSub, st.cfg), k)
  {
    hide ParseText, HeaderLine;
    assert Tight(h) && '\n' !in h && h[0] != '#';
    HeaderRead(st, h, k);
  }

  /** Parsing what was printed gives the configuration back. */
  lemma {:induction false} RoundTrip(c: Config)
    requires Producible(c)
    ensures Parse(Print(c)) == c
  {
    hide ParseText, HeaderLine, PrintRadio, PrintRf, PrintLora, PrintTimeouts, PrintRuntime, ProducibleRadio;
    var runtime := PrintRuntime(c.runtime, "");
    var timeouts := PrintTimeouts(c.timeouts, HeaderLine("runtime:", runtime));
    var lora := PrintLora(c.lora, HeaderLine("timeouts:", timeouts));
    var rf := PrintRf(c.rf, lora);
    var tx := PrintRadio(c.tx, HeaderLine("lora:", rf));
    var rx := PrintRadio(c.rx, HeaderLine("tx:", tx));
    var c0 := START.cfg;
    SectionRead(START, "radios:", NoSection, HeaderLine("rx:", rx));
    SectionRead(State(NoSection, NoSub, c0), "rx:", RadiosRx, rx);
    RadioRead(State(RadiosRx, NoSub, c0), c0.rx, c.rx, HeaderLine("tx:", tx));
    var c1 := c0.(rx := c.rx);
    SectionRead(State(RadiosRx, PinsSub, c1), "tx:", RadiosTx, tx);
    RadioRead(State(RadiosTx, NoSub, c1), c1.tx, c.tx, HeaderLine("lora:", rf));
    var c2 := c1.(tx := c.tx);
    SectionRead(State(RadiosTx, PinsSub, c2), "lora:", LoraSection, rf);
    RfRead(State(LoraSection, NoSub, c2), c.rf, lora);
    var c3 := c2.(rf := c.rf);
    LoraRead(State(LoraSection, NoSub, c3), c.lora, HeaderLine("timeouts:", timeouts));
    var c4 := c3.(lora := c.lora);
    SectionRead(State(LoraSection, NoSub, c4), "timeouts:", TimeoutsSection, timeouts);
    TimeoutsRead(State(TimeoutsSection, NoSub, c4), c.timeouts, HeaderLine("runtime:", runtime));
    var c5 := c4.(timeouts := c.timeouts);
    SectionRead(State(TimeoutsSection, NoSub, c5), "runtime:", RuntimeSection, runtime);
    RuntimeRead(State(RuntimeSection, NoSub, c5), c.runtime, "");
    EndOfText(State(RuntimeSection, NoSub, c5.(runtime := c.runtime)));
  }

  lemma EndOfText(st: State)
    ensures ParseText(st, "") == st
  {
  }

  /** The round trip holds of exactly the configurations that some text can produce at all. */
  lemma {:induction false} RoundTripExact(c: Config)
    ensures Parse(Print(c)) == c <==> Producible(c)
    ensures (exists text :: Parse(text) == c) <==> Producible(c)
  {
    hide Parse, Print, Producible;
    if Producible(c) {
      RoundTrip(c);
    }
    forall text | Parse(text) == c ensures Producible(c) {
      ParseIsProducible(text);
    }
    if Parse(Print(c)) == c {
      ParseIsProducible(Print(c));
    }
  }
}
