/** The configuration of a node with two SX1280 radios: hardware, radio parameters and their defaults. */
module NodeConfig {
  import opened Common

  type I8 = n: int | -128 <= n < 128

  datatype Role = Rx | Tx | TxRx

  datatype TxEnableBehavior = NoBehavior | StaticAsserted | StaticDeasserted | AssertDuringTxOnly

  datatype Spi = Spi(device: string, speedHz: U32, mode: U8, bitsPerWord: U8)

  datatype Pins = Pins(
    reset: U32, busy: U32,
    hasDio1: bool, dio1: U32,
    hasDio2: bool, dio2: U32,
    hasDio3: bool, dio3: U32,
    hasTxEnable: bool, txEnable: U32, txEnableActiveHigh: bool, txEnableBehavior: TxEnableBehavior)

  datatype Radio = Radio(role: Role, spi: Spi, chip: string, pins: Pins)

  datatype RampTime = Ramp02 | Ramp04 | Ramp06 | Ramp08 | Ramp10 | Ramp12 | Ramp16 | Ramp20
  datatype Regulator = Ldo | Dcdc
  datatype SpreadingFactor = Sf5 | Sf6 | Sf7 | Sf8 | Sf9 | Sf10 | Sf11 | Sf12
  datatype Bandwidth = Bw0200 | Bw0400 | Bw0800 | Bw1600
  datatype CodingRate = Cr45 | Cr46 | Cr47 | Cr48 | CrLi45 | CrLi46 | CrLi47
  datatype HeaderType = VariableLength | FixedLength
  datatype CrcMode = CrcOn | CrcOff
  datatype IqMode = IqNormal | IqInverted
  datatype TickSize = Tick15us | Tick62us | Tick1000us | Tick4000us
  datatype Lna = LowPower | HighSensitivity

  datatype Rf = Rf(frequencyHz: U32, txPowerDbm: I8, rampTime: RampTime, regulator: Regulator)

  datatype Lora = Lora(
    spreadingFactor: SpreadingFactor, bandwidth: Bandwidth, codingRate: CodingRate,
    preambleLength: U8, headerType: HeaderType, payloadLength: U8, crc: CrcMode, iqMode: IqMode)

  datatype TickTime = TickTime(base: TickSize, count: U16)

  datatype Timeouts = Timeouts(tx: TickTime, rx: TickTime, continuousRx: bool)

  datatype Runtime = Runtime(autoFs: bool, longPreamble: bool, useManualGain: bool, manualGain: U8, lna: Lna)

  datatype Config = Config(rx: Radio, tx: Radio, rf: Rf, lora: Lora, timeouts: Timeouts, runtime: Runtime)

  const DEFAULT_RADIO := Radio(
    TxRx,
    Spi("/dev/spidev0.0", 1_000_000, 0, 8),
    "/dev/gpiochip0",
    Pins(0, 0, false, 0, false, 0, false, 0, false, 0, true, NoBehavior))

  const DEFAULT := Config(
    DEFAULT_RADIO,
    DEFAULT_RADIO,
    Rf(2_400_000_000, 10, Ramp20, Dcdc),
    Lora(Sf7, Bw0800, Cr45, 12, VariableLength, 255, CrcOn, IqNormal),
    Timeouts(TickTime(Tick1000us, 2000), TickTime(Tick1000us, 2000), true),
    Runtime(true, false, false, 0, HighSensitivity))
}
