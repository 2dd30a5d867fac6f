/** Bring-up: the GPIO wake sequence of ts_reset_device and the step order of
    goodix_ts_probe, each described as a Step (error, trace, bus answers
    used) and implemented as a method proved to produce exactly that Step. */
module Bringup {
  import opened Wire
  import opened Platform
  import opened Bus
  import opened Config
  import opened Driver

  /** The wake-up: reset low, interrupt low, reset released, reset back to
      input, interrupt high, interrupt back to input, with the 20/2/6/50 ms
      holds in between; the reset line is then freed and the interrupt line
      kept. */
  const WakeSequence: seq<Action> := [
    GpioOutput(ResetLine, false), Sleep(20),
    GpioOutput(IntLine, false), Sleep(2),
    GpioSet(ResetLine, true), Sleep(6),
    GpioInput(ResetLine),
    GpioOutput(IntLine, true), Sleep(50),
    GpioInput(IntLine),
    GpioFree(ResetLine)]

  /** The total time a trace spends in delays. */
  function SleepMs(t: seq<Action>): nat
  {
    if t == [] then 0 else (if t[0].Sleep? then t[0].ms else 0) + SleepMs(t[1..])
  }

  /** The wake protocol: the reset line is driven low first; the interrupt
      line is driven low before reset is released, so the controller sees a
      falling edge on it while coming out of reset; the sequence ends by
      freeing the reset line and never frees the interrupt line. */
  lemma WakeSequenceOrder()
    ensures WakeSequence[0] == GpioOutput(ResetLine, false)
    ensures forall i, j ::
      (0 <= i < |WakeSequence| && 0 <= j < |WakeSequence| &&
       WakeSequence[i] == GpioOutput(IntLine, false) && WakeSequence[j] == GpioSet(ResetLine, true)) ==> i < j
    ensures WakeSequence[|WakeSequence| - 1] == GpioFree(ResetLine)
    ensures GpioFree(IntLine) !in WakeSequence
  {
  }

  /** The holds of the wake protocol add up to 20 + 2 + 6 + 50 ms. */
  lemma WakeSequenceHolds()
    ensures SleepMs(WakeSequence) == 20 + 2 + 6 + 50
  {
    var w := WakeSequence;
    assert w[10..][1..] == w[11..];
    assert SleepMs(w[10..]) == 0;
    assert w[9..][1..] == w[10..];
    assert SleepMs(w[9..]) == 0;
    assert w[8..][1..] == w[9..];
    assert SleepMs(w[8..]) == 50;
    assert w[7..][1..] == w[8..];
    assert SleepMs(w[7..]) == 50;
    assert w[6..][1..] == w[7..];
    assert SleepMs(w[6..]) == 50;
    assert w[5..][1..] == w[6..];
    assert SleepMs(w[5..]) == 56;
    assert w[4..][1..] == w[5..];
    assert SleepMs(w[4..]) == 56;
    assert w[3..][1..] == w[4..];
    assert SleepMs(w[3..]) == 58;
    assert w[2..][1..] == w[3..];
    assert SleepMs(w[2..]) == 58;
    assert w[1..][1..] == w[2..];
    assert SleepMs(w[1..]) == 78;
    assert w[0..][1..] == w[1..];
    assert SleepMs(w[0..]) == 78;
    assert w[0..] == w;
  }

  predicate IsGpioWrite(a: Action)
  {
    a.GpioOutput? || a.GpioSet? || a.GpioInput?
  }

  /** ts_reset_device as a step. It succeeds exactly when the device-tree node
      exists and both lines are valid and granted; when it fails it has
      claimed at most the lines and never driven any of them. */
  function ResetStep(b: Board): (s: Step)
    ensures s.used == 0 && s.err <= 0
    ensures s.err == 0 <==>
      b.hasOfNode && b.rstValid && b.rstRequest >= 0 && b.intValid && b.intRequest >= 0
    ensures s.err == 0 ==> s.trace == [GpioRequest(ResetLine), GpioRequest(IntLine)] + WakeSequence
    ensures s.err != 0 ==> forall a :: a in s.trace ==> a.GpioRequest? && !IsGpioWrite(a)
    // which error a failed reset returns, and which requests it made
    ensures !b.hasOfNode || !b.rstValid ==> s == Step(-ENODEV, [], 0)
    ensures b.hasOfNode && b.rstValid && b.rstRequest < 0 ==>
      s.err == b.rstRequest && s.trace == [GpioRequest(ResetLine)]
    ensures b.hasOfNode && b.rstValid && b.rstRequest >= 0 && !b.intValid ==>
      s.err == -ENODEV && s.trace == [GpioRequest(ResetLine)]
    ensures b.hasOfNode && b.rstValid && b.rstRequest >= 0 && b.intValid && b.intRequest < 0 ==>
      s.err == b.intRequest && s.trace == [GpioRequest(ResetLine), GpioRequest(IntLine)]
  {
    if !b.hasOfNode || !b.rstValid then Step(-ENODEV, [], 0)
    else if b.rstRequest < 0 then Step(b.rstRequest, [GpioRequest(ResetLine)], 0)
    else if !b.intValid then Step(-ENODEV, [GpioRequest(ResetLine)], 0)
    else if b.intRequest < 0 then Step(b.intRequest, [GpioRequest(ResetLine), GpioRequest(IntLine)], 0)
    else Step(0, [GpioRequest(ResetLine), GpioRequest(IntLine)] + WakeSequence, 0)
  }

  /** The reset line is claimed and kept when the interrupt line fails: the
      error paths after the first gpio_request never free it. */
  lemma ResetLineKeptOnLateFailure(b: Board)
    requires b.hasOfNode && b.rstValid && b.rstRequest >= 0
    requires !b.intValid || b.intRequest < 0
    ensures GpioRequest(ResetLine) in ResetStep(b).trace
    ensures GpioFree(ResetLine) !in ResetStep(b).trace
  {
  }

  method ResetDevice(client: Client) returns (err: int)
    modifies client`trace
    ensures var s := ResetStep(client.board);
            err == s.err && client.trace == old(client.trace) + s.trace
  {
    if !client.board.hasOfNode {
      return -ENODEV;
    }
    if !client.board.rstValid {
      return -ENODEV;
    }
    var ret := client.RequestGpio(ResetLine);
    if ret < 0 {
      return ret;
    }
    if !client.board.intValid {
      return -ENODEV;
    }
    ret := client.RequestGpio(IntLine);
    if ret < 0 {
      return ret;
    }
    // wake the controller with a falling edge on the interrupt line
    client.Log(GpioOutput(ResetLine, false));
    client.Log(Sleep(20));
    client.Log(GpioOutput(IntLine, false));
    client.Log(Sleep(2));
    client.Log(GpioSet(ResetLine, true));
    client.Log(Sleep(6));
    client.Log(GpioInput(ResetLine));
    client.Log(GpioOutput(IntLine, true));
    client.Log(Sleep(50));
    client.Log(GpioInput(IntLine));
    client.Log(GpioFree(ResetLine));
    return 0;
  }

  /** goodix_request_input_dev as far as probe sees it: allocation, then
      registration. */
  function InputStep(b: Board): (s: Step)
    ensures s.used == 0
    ensures !b.inputAllocOk ==> s.err == -ENOMEM && s.trace == []
    ensures b.inputAllocOk ==> s.err == b.inputRegister && s.trace == [RegisterInput]
  {
    if !b.inputAllocOk then Step(-ENOMEM, [], 0) else Step(b.inputRegister, [RegisterInput], 0)
  }

  method RequestInputDev(client: Client) returns (err: int)
    modifies client`trace
    ensures var s := InputStep(client.board);
            err == s.err && client.trace == old(client.trace) + s.trace
  {
    if !client.board.inputAllocOk {
      return -ENOMEM;
    }
    client.Log(RegisterInput);
    err := client.board.inputRegister;
  }

  /** The flags the interrupt is finally requested with (goodix.c:550): the
      value derived from the configured trigger is overwritten. */
  const ProbeIrqFlags := IrqFlags(LevelLow, true)

  /** The test applied to request_any_context_irq's result. As written
      (goodix.c:555) any non-zero value aborts probe; the function's contract
      is that negative values are failures and 0 and 1 are successes. */
  function IrqRequestAborts(ret: int, asWritten: bool): (aborts: bool)
    ensures ret < 0 ==> aborts
    ensures ret == 0 ==> !aborts
    ensures ret == IRQC_IS_NESTED ==> (aborts <==> asWritten)
  {
    if asWritten then ret != 0 else ret < 0
  }

  /** The configuration read sits between the version read and the input
      registration; it only appends its read, it never aborts. */
  const ConfigTrace: seq<Action> := [BusRead(Be16(RegConfigData), ConfigMaxLength)]

  /** The tail of probe once the configuration is read: register the input
      device, then request the interrupt with LEVEL_LOW | ONESHOT. */
  function RegisterStep(b: Board, asWritten: bool): (s: Step)
    ensures s.used == 0
    ensures InputStep(b).err != 0 ==> s == InputStep(b)
    ensures InputStep(b).err == 0 ==> s.trace == [RegisterInput, RequestIrq(ProbeIrqFlags)]
    ensures InputStep(b).err == 0 && !asWritten ==> (s.err == 0 <==> b.irqRequest >= 0)
    // the IRQ request's result is returned unchanged when it aborts probe
    ensures InputStep(b).err == 0 ==>
      s.err == (if IrqRequestAborts(b.irqRequest, asWritten) then b.irqRequest else 0)
  {
    var i := InputStep(b);
    if i.err != 0 then i
    else
      var q := i.trace + [RequestIrq(ProbeIrqFlags)];
      if IrqRequestAborts(b.irqRequest, asWritten) then Step(b.irqRequest, q, 0)
      else Step(0, q, 0)
  }

  /** The checks probe makes before it reads the configuration: reset the
      controller, test the bus, read the version; the first failure ends it.
      The bus answers are counted from `n`. */
  function CheckStep(b: Board, answer: nat -> Xfer, n: nat): (s: Step)
    ensures s.err <= 0
    // a failed reset is returned, and nothing else happens
    ensures ResetStep(b).err != 0 ==> s == ResetStep(b)
    // a failed self-test is returned, and the version is not read
    ensures var t := TestStep(answer(n), answer(n + 1));
      ResetStep(b).err == 0 && t.err != 0 ==>
        s.err == t.err && s.trace == ResetStep(b).trace + t.trace && s.used == t.used
    // otherwise the version read decides
    ensures var t := TestStep(answer(n), answer(n + 1));
      var v := VersionStep(answer(n + t.used));
      ResetStep(b).err == 0 && t.err == 0 ==>
        s.err == v.err && s.trace == ResetStep(b).trace + t.trace + v.trace && s.used == t.used + 1
  {
    var r := ResetStep(b);
    if r.err < 0 then r
    else
      var t := TestStep(answer(n), answer(n + 1));
      if t.err != 0 then Step(t.err, r.trace + t.trace, t.used)
      else
        var v := VersionStep(answer(n + t.used));
        Step(v.err, r.trace + t.trace + v.trace, t.used + 1)
  }

  /** goodix_ts_probe as a step, with the bus answers counted from `n`: each
      step runs only when every step before it succeeded, and the first
      failure is what probe returns. */
  function ProbeOutcome(b: Board, answer: nat -> Xfer, n: nat, asWritten: bool): (s: Step)
    ensures !asWritten && b.inputRegister <= 0 ==> s.err <= 0
    ensures !b.i2cFunctional ==> s.err == -ENXIO && s.trace == []
    ensures b.i2cFunctional && !b.allocOk ==> s.err == -ENOMEM && s.trace == []
    // a failing check is returned as it is; the configuration is not read
    ensures b.i2cFunctional && b.allocOk && CheckStep(b, answer, n).err != 0 ==> s == CheckStep(b, answer, n)
    // the configuration read comes after the checks and before registration
    ensures b.i2cFunctional && b.allocOk && CheckStep(b, answer, n).err == 0 ==>
      s.err == RegisterStep(b, asWritten).err &&
      s.trace == CheckStep(b, answer, n).trace + ConfigTrace + RegisterStep(b, asWritten).trace
  {
    if !b.i2cFunctional then Step(-ENXIO, [], 0)
    else if !b.allocOk then Step(-ENOMEM, [], 0)
    else
      var c := CheckStep(b, answer, n);
      if c.err != 0 then c
      else
        var g := RegisterStep(b, asWritten);
        Step(g.err, c.trace + ConfigTrace + g.trace, c.used + 1)
  }

  /** Every step of probe before the interrupt request succeeds. */
  predicate StepsBeforeIrqSucceed(b: Board, answer: nat -> Xfer, n: nat)
  {
    b.i2cFunctional && b.allocOk && ResetStep(b).err == 0 &&
    TestStep(answer(n), answer(n + 1)).err == 0 &&
    VersionStep(answer(n + TestStep(answer(n), answer(n + 1)).used)).err == 0 &&
    InputStep(b).err == 0
  }

  /** Probe succeeds exactly when every step does, the interrupt request
      included; the interrupt is requested, and with LEVEL_LOW | ONESHOT,
      only after every earlier step succeeded. */
  lemma ProbeSucceedsIff(b: Board, answer: nat -> Xfer, n: nat)
    ensures var s := ProbeOutcome(b, answer, n, false);
      (s.err == 0 <==> StepsBeforeIrqSucceed(b, answer, n) && b.irqRequest >= 0) &&
      (RequestIrq(ProbeIrqFlags) in s.trace <==> StepsBeforeIrqSucceed(b, answer, n)) &&
      (s.err == 0 ==> s.trace[|s.trace| - 1] == RequestIrq(ProbeIrqFlags))
  {
    var s := ProbeOutcome(b, answer, n, false);
    if !StepsBeforeIrqSucceed(b, answer, n) {
      assert RequestIrq(ProbeIrqFlags) !in ResetStep(b).trace;
      assert RequestIrq(ProbeIrqFlags) !in FailedAttempt;
      assert forall a :: a in TestStep(answer(n), answer(n + 1)).trace ==> !a.RequestIrq?;
    }
  }

  /** A failing reset, self-test or version read stops probe before the
      device is registered with the input layer; a failing reset stops it
      before any bus traffic. */
  lemma ProbeStopsAtFirstFailure(b: Board, answer: nat -> Xfer, n: nat)
    ensures var s := ProbeOutcome(b, answer, n, false);
      (ResetStep(b).err != 0 ==> forall a :: a in s.trace ==> !a.BusRead?) &&
      (RegisterInput in s.trace <==>
         b.i2cFunctional && b.allocOk && ResetStep(b).err == 0 &&
         TestStep(answer(n), answer(n + 1)).err == 0 &&
         VersionStep(answer(n + TestStep(answer(n), answer(n + 1)).used)).err == 0 &&
         b.inputAllocOk)
  {
    var s := ProbeOutcome(b, answer, n, false);
    assert RegisterInput !in ResetStep(b).trace;
    assert RegisterInput !in FailedAttempt;
    assert forall a :: a in TestStep(answer(n), answer(n + 1)).trace ==> !a.RegisterInput?;
  }

  /** The configuration read never decides probe's outcome: whatever the
      bus answers to it, failure included, probe returns the same error and
      performs the same actions. */
  lemma ConfigReadNeverAborts(b: Board, answer: nat -> Xfer, answer': nat -> Xfer, n: nat, asWritten: bool)
    requires forall k :: n <= k < n + CheckStep(b, answer, n).used ==> answer'(k) == answer(k)
    ensures ProbeOutcome(b, answer', n, asWritten) == ProbeOutcome(b, answer, n, asWritten)
  {
    if ResetStep(b).err == 0 {
      var t := TestStep(answer(n), answer(n + 1));
      assert answer'(n) == answer(n);
      assert answer'(n + 1) == answer(n + 1);
      assert TestStep(answer'(n), answer'(n + 1)) == t;
      if t.err == 0 {
        assert answer'(n + t.used) == answer(n + t.used);
      }
    }
  }

  /** request_any_context_irq answers IRQC_IS_NESTED (1) when the interrupt
      is granted on a nested-threaded controller. As written, probe then
      returns 1, neither success nor an error code, although the handler is
      installed; with the corrected test it succeeds. */
  lemma NestedIrqFailsProbeAsWritten(b: Board, answer: nat -> Xfer, n: nat)
    requires StepsBeforeIrqSucceed(b, answer, n)
    requires b.irqRequest == IRQC_IS_NESTED
    ensures ProbeOutcome(b, answer, n, true).err == IRQC_IS_NESTED
    ensures RequestIrq(ProbeIrqFlags) in ProbeOutcome(b, answer, n, true).trace
    ensures ProbeOutcome(b, answer, n, false).err == 0
  {
  }

  /** The reset, self-test and version read of probe, in that order. */
  method CheckDevice(client: Client) returns (err: int)
    modifies client`served, client`trace
    ensures var s := CheckStep(client.board, client.answer, old(client.served));
            err == s.err &&
            client.trace == old(client.trace) + s.trace &&
            client.served == old(client.served) + s.used
  {
    ghost var t0 := client.trace;
    err := ResetDevice(client);
    if err < 0 {
      return err;
    }
    ghost var t1 := client.trace;
    err := I2cTest(client);
    if err != 0 {
      return err;
    }
    ghost var t2 := client.trace;
    var version;
    err, version := ReadVersion(client);
    assert client.trace == t0 + (t1[|t0|..] + t2[|t1|..] + client.trace[|t2|..]);
  }

  /** The input registration and interrupt request of probe. The flags
      derived from the configured trigger (goodix.c:535) are computed and
      then replaced by LEVEL_LOW | ONESHOT before the request. */
  method RegisterDevice(client: Client, triggerType: nat) returns (err: int)
    requires triggerType < |IrqTriggerTable|
    modifies client`trace, client`irqEnabled
    ensures var s := RegisterStep(client.board, false);
            err == s.err && client.trace == old(client.trace) + s.trace
    ensures err == 0 ==> client.irqEnabled
    ensures err != 0 ==> client.irqEnabled == old(client.irqEnabled)
  {
    err := RequestInputDev(client);
    if err != 0 {
      return err;
    }
    var irqFlags := IrqFlagsFor(triggerType);
    irqFlags := ProbeIrqFlags;
    err := client.RequestIrq(irqFlags);
    if IrqRequestAborts(err, false) {
      return err;
    }
    return 0;
  }

  /** goodix_ts_probe, with the interrupt-request test corrected: on success
      the session holds the configuration read from the panel (contact limit
      5, trigger type within the table) and the interrupt line is enabled and
      idle; on failure no session is returned and the line is as before. */
  method Probe(client: Client) returns (err: int, ts: GoodixTs?)
    modifies client`served, client`trace, client`irqEnabled
    ensures var s := ProbeOutcome(client.board, client.answer, old(client.served), false);
            err == s.err &&
            client.trace == old(client.trace) + s.trace &&
            client.served == old(client.served) + s.used
    ensures err == 0 ==>
      ts != null && fresh(ts) && ts.client == client && ts.Idle() &&
      PanelConfig(ts.absXMax, ts.absYMax, ts.maxTouchNum, ts.intTriggerType) ==
        ConfigFrom(client.answer(client.served - 1))
    ensures err != 0 ==> ts == null && client.irqEnabled == old(client.irqEnabled)
  {
    if !client.board.i2cFunctional {
      return -ENXIO, null;
    }
    if !client.board.allocOk {
      return -ENOMEM, null;
    }
    var session := new GoodixTs(client);
    err := CheckDevice(client);
    if err != 0 {
      return err, null;
    }
    session.ReadConfig();
    err := RegisterDevice(client, session.intTriggerType);
    if err != 0 {
      return err, null;
    }
    // strcpy of the device name into a global buffer is not modelled
    return 0, session;
  }
}
