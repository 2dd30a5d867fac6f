/** Panel configuration, firmware version and the bus self-test: what
    goodix_read_config, goodix_read_version and goodix_i2c_test compute from
    the bus answers, and the interrupt-trigger table. */
module Config {
  import opened Wire
  import opened Platform
  import opened Bus

  // compiled-in defaults
  const MaxHeight := 480
  const MaxWidth := 800
  const IntTrigger := 1
  const MaxContacts := 5

  const ConfigMaxLength := 240
  // offsets into the configuration block
  const ResolutionLoc := 1
  const MaxContactsLoc := 5
  const TriggerLoc := 6

  const VersionLen := 6
  const TestAttempts := 2
  const TestRetryDelayMs := 20

  /** goodix_irq_flags, indexed by the configuration's trigger type. */
  const IrqTriggerTable: seq<Trigger> := [EdgeRising, EdgeFalling, LevelLow, LevelHigh]

  /** The index of a trigger in the table; the table lists every trigger
      exactly once. */
  function TriggerIndex(t: Trigger): (i: nat)
    ensures i < |IrqTriggerTable| && IrqTriggerTable[i] == t
  {
    match t
    case EdgeRising => 0
    case EdgeFalling => 1
    case LevelLow => 2
    case LevelHigh => 3
  }

  lemma TriggerTableInjective(i: nat)
    requires i < |IrqTriggerTable|
    ensures TriggerIndex(IrqTriggerTable[i]) == i
  {
  }

  /** The fields of goodix_ts_data that goodix_read_config sets. */
  datatype PanelConfig = PanelConfig(absXMax: int, absYMax: int, maxTouchNum: nat, intTriggerType: nat)

  const DefaultConfig := PanelConfig(MaxWidth, MaxHeight, MaxContacts, IntTrigger)

  /** The firmware's resolution and contact-count fields are all non-zero. */
  predicate FirmwareFieldsValid(cfg: nat -> byte)
  {
    Le16(cfg(ResolutionLoc), cfg(ResolutionLoc + 1)) != 0 &&
    Le16(cfg(ResolutionLoc + 2), cfg(ResolutionLoc + 3)) != 0 &&
    cfg(MaxContactsLoc) % 16 != 0
  }

  /** The configuration goodix_read_config leaves behind, given the answer to
      its read of the configuration block. A failed read gives the defaults;
      otherwise the trigger type is the two low bits of byte 6, and the
      resolution is the firmware's unless a resolution or contact-count field
      is zero, in which case it is the default. Whatever happens, the contact
      limit ends at 5, the trigger type indexes the trigger table and the
      resolution is non-zero. */
  function ConfigFrom(x: Xfer): (c: PanelConfig)
    ensures c.maxTouchNum == MaxContacts
    ensures c.intTriggerType < |IrqTriggerTable|
    ensures c.absXMax > 0 && c.absYMax > 0
    ensures ReadResult(x.ret) != 0 ==> c == DefaultConfig
    ensures ReadResult(x.ret) == 0 ==> c.intTriggerType == x.bytes(TriggerLoc) % 4
    ensures ReadResult(x.ret) == 0 && FirmwareFieldsValid(x.bytes) ==>
      c.absXMax == Le16(x.bytes(ResolutionLoc), x.bytes(ResolutionLoc + 1)) &&
      c.absYMax == Le16(x.bytes(ResolutionLoc + 2), x.bytes(ResolutionLoc + 3))
    ensures !FirmwareFieldsValid(x.bytes) ==> c.absXMax == MaxWidth && c.absYMax == MaxHeight
  {
    if ReadResult(x.ret) != 0 then DefaultConfig
    else
      var cfg := x.bytes;
      var xMax := Le16(cfg(ResolutionLoc), cfg(ResolutionLoc + 1));
      var yMax := Le16(cfg(ResolutionLoc + 2), cfg(ResolutionLoc + 3));
      var trigger := Low2Bits(cfg(TriggerLoc));
      var contacts := LowNibble(cfg(MaxContactsLoc));
      if xMax == 0 || yMax == 0 || contacts == 0
      then PanelConfig(MaxWidth, MaxHeight, MaxContacts, trigger)
      else PanelConfig(xMax, yMax, MaxContacts, trigger)
  }

  /** The flags probe derives from a trigger type (goodix.c:535). */
  function IrqFlagsFor(triggerType: nat): (f: IrqFlags)
    requires triggerType < |IrqTriggerTable|
    ensures f.oneShot && TriggerIndex(f.trigger) == triggerType
  {
    IrqFlags(IrqTriggerTable[triggerType], true)
  }

  /** The version word goodix_read_version extracts: bytes 4-5, little-endian. */
  function VersionOf(x: Xfer): (v: u16)
    ensures Le16Bytes(v) == [x.bytes(4), x.bytes(5)]
  {
    Le16BytesOfLe16(x.bytes(4), x.bytes(5));
    Le16(x.bytes(4), x.bytes(5))
  }

  /** goodix_read_version as a step: one read of six bytes; its error is the
      read's. */
  function VersionStep(x: Xfer): (s: Step)
    ensures s.err == ReadResult(x.ret) && s.used == 1
    ensures s.trace == [BusRead(Be16(RegVersion), VersionLen)]
  {
    Step(ReadResult(x.ret), [BusRead(Be16(RegVersion), VersionLen)], 1)
  }

  /** One failed self-test attempt: the read, then the 20 ms pause. */
  const FailedAttempt: seq<Action> := [BusRead(Be16(RegConfigData), 1), Sleep(TestRetryDelayMs)]

  /** goodix_i2c_test as a step, given the answers to its (at most two)
      attempts: it succeeds as soon as one attempt does and otherwise
      returns the last attempt's error; the second attempt is made only when
      the first failed, and every failed attempt is followed by a pause. */
  function TestStep(x0: Xfer, x1: Xfer): (s: Step)
    ensures s.err <= 0
    ensures s.err == 0 <==> ReadResult(x0.ret) == 0 || ReadResult(x1.ret) == 0
    ensures s.err != 0 ==> s.err == ReadResult(x1.ret)
    ensures 1 <= s.used <= TestAttempts
    ensures s.used == 1 <==> ReadResult(x0.ret) == 0
    ensures |s.trace| >= 1 && s.trace[0] == BusRead(Be16(RegConfigData), 1)
    // every attempt is a 1-byte read, and every failed one is followed by a pause
    ensures |s.trace| == (if s.err == 0 then 2 * s.used - 1 else 2 * s.used)
    ensures forall i :: 0 <= i < |s.trace| ==>
      s.trace[i] == if i % 2 == 0 then BusRead(Be16(RegConfigData), 1) else Sleep(TestRetryDelayMs)
  {
    if ReadResult(x0.ret) == 0 then Step(0, [BusRead(Be16(RegConfigData), 1)], 1)
    else if ReadResult(x1.ret) == 0 then Step(0, FailedAttempt + [BusRead(Be16(RegConfigData), 1)], 2)
    else Step(ReadResult(x1.ret), FailedAttempt + FailedAttempt, 2)
  }
}
