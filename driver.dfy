/** The driver's per-device session and the code that runs on it: the
    report decoder, the event emitter, the interrupt handler and its delayed
    work, the configuration reader, and the two bring-up reads that work on
    the bare client (version and self-test). */
module Driver {
  import opened Wire
  import opened Platform
  import opened Bus
  import opened Report
  import opened Config
  import opened Cycle

  /** struct goodix_ts_data. */
  class GoodixTs {
    const client: Client
    var absXMax: int
    var absYMax: int
    var maxTouchNum: nat
    var intTriggerType: nat
    /** Whether the delayed work is queued. */
    var workPending: bool

    /** devm_kzalloc: every field starts at zero. */
    constructor (client: Client)
      ensures this.client == client
      ensures absXMax == 0 && absYMax == 0 && maxTouchNum == 0 && intTriggerType == 0
      ensures !workPending
    {
      this.client := client;
      absXMax, absYMax, maxTouchNum, intTriggerType := 0, 0, 0, 0;
      workPending := false;
    }

    /** Waiting for the next interrupt: the line is enabled and no work is
        queued. */
    predicate Idle()
      reads this, client
    {
      client.irqEnabled && !workPending
    }

    /** goodix_ts_read_input_report: reads the status byte and the first
        contact into data[0..9], validates the status byte and, for more than
        one contact, reads the remaining records right behind the first. The
        buffer is the one goodix_process_events allocates, 1 + 8 * maxTouchNum
        bytes, and neither read goes past its end. */
    method ReadInputReport(data: array<byte>) returns (touchNum: int)
      requires 1 <= maxTouchNum
      requires data.Length == 1 + ContactSize * maxTouchNum
      modifies client`served, client`trace, data
      ensures var x1 := client.answer(old(client.served));
              var x2 := client.answer(old(client.served) + 1);
              var k := BytesWritten(maxTouchNum, x1);
              touchNum == ReportResult(maxTouchNum, x1, x2) &&
              client.trace == old(client.trace) + ReportReads(maxTouchNum, x1) &&
              client.served == old(client.served) + |ReportReads(maxTouchNum, x1)| &&
              data[..FirstReadLen] == Take(x1.bytes, FirstReadLen) &&
              (SecondRead(maxTouchNum, x1) ==> data[FirstReadLen..k] == Take(x2.bytes, k - FirstReadLen)) &&
              data[k..] == old(data[k..])
    {
      ghost var x1 := client.answer(client.served);
      var off := 0;
      var error := I2cRead(client, ReadCoorAddr, data, off, ContactSize + 1);
      if error != 0 {
        return error;
      }
      var finger := data[0];
      if finger == 0x00 {
        return -EPROTO;
      }
      if !Bit7(finger) {
        return -EPROTO;
      }
      touchNum := LowNibble(finger);
      // touchNum is at most 15, so the C comparison with the unsigned limit
      // needs no conversion care
      if touchNum > maxTouchNum {
        return -EPROTO;
      }
      if touchNum > 1 {
        ghost var k := 1 + ContactSize * touchNum;
        ghost var before := data[..];
        assert SecondRead(maxTouchNum, x1) && BytesWritten(maxTouchNum, x1) == k;
        off := off + 1 + ContactSize;
        error := I2cRead(client, ReadCoorAddr + 1 + ContactSize, data, off, ContactSize * (touchNum - 1));
        assert data[..FirstReadLen] == before[..FirstReadLen];
        assert data[k..] == before[k..];
        if error != 0 {
          return error;
        }
      }
    }

    /** goodix_ts_report_touch on the record at coor[off..]: the id and the
        width are decoded and not used; the panel's Y goes out as ABS_X and
        its X as ABS_Y. */
    method ReportTouch(coor: array<byte>, off: nat)
      requires off + ContactSize <= coor.Length
      modifies client`trace
      ensures client.trace == old(client.trace) + Inputs(TouchFrame(DecodeContact(coor[off..off + ContactSize])))
    {
      var id := LowNibble(coor[off + 1]);
      var inputX := Le16(coor[off + 2], coor[off + 3]);
      var inputY := Le16(coor[off + 4], coor[off + 5]);
      var inputW := Le16(coor[off + 6], coor[off + 7]);
      client.Log(Input(BtnTouch(true)));
      client.Log(Input(Abs(AbsX, inputY)));
      client.Log(Input(Abs(AbsY, inputX)));
      client.Log(Input(Abs(AbsPressure, TouchPressure)));
      client.Log(Input(Sync));
    }

    /** goodix_process_events: one report, then one frame. */
    method ProcessEvents()
      requires 1 <= maxTouchNum
      modifies client`served, client`trace
      ensures var x1 := client.answer(old(client.served));
              var x2 := client.answer(old(client.served) + 1);
              client.trace == old(client.trace) + ProcessTrace(maxTouchNum, x1, x2) &&
              client.served == old(client.served) + |ReportReads(maxTouchNum, x1)|
    {
      ghost var x1 := client.answer(client.served);
      ghost var c := DecodeContact(Take(x1.bytes, FirstReadLen));
      var pointData := new byte[1 + ContactSize * maxTouchNum];
      var touchNum := ReadInputReport(pointData);
      ghost var afterReads := client.trace;
      if touchNum == 1 {
        // the loop `for (i = 0; i < 1; i++)` reports the record at offset 0 only
        ReportTouch(pointData, 0);
        assert DecodeContact(pointData[0..ContactSize]) == c by {
          assert pointData[0..ContactSize] == Take(x1.bytes, FirstReadLen)[..ContactSize];
        }
        assert Frame(touchNum, c) == TouchFrame(c);
        assert client.trace == afterReads + Inputs(Frame(touchNum, c));
      } else {
        client.Log(Input(BtnTouch(false)));
        client.Log(Input(Abs(AbsPressure, 0)));
        client.Log(Input(Sync));
        assert client.trace == afterReads + Inputs(ReleaseFrame);
        assert Frame(touchNum, c) == ReleaseFrame;
      }
      assert client.trace == afterReads + Inputs(Frame(touchNum, c));
    }

    /** goodix_work: process, acknowledge with the end command whatever the
        outcome (a failed send is only logged), then unmask the line. */
    method Work()
      requires workPending && 1 <= maxTouchNum
      modifies this`workPending, client`served, client`trace, client`irqEnabled
      ensures !workPending && client.irqEnabled
      ensures var x1 := client.answer(old(client.served));
              var x2 := client.answer(old(client.served) + 1);
              client.trace == old(client.trace) + ProcessTrace(maxTouchNum, x1, x2) + [BusSend(EndCmd), IrqEnable] &&
              client.served == old(client.served) + |ReportReads(maxTouchNum, x1)| + 1
    {
      workPending := false;
      ProcessEvents();
      var sent := client.MasterSend(EndCmd);
      // a negative `sent` is only reported through dev_err
      client.EnableIrq();
    }

    /** goodix_ts_irq_handler: mask the line, then queue the work 15 ms ahead. */
    method IrqHandler() returns (handled: bool)
      requires Idle()
      modifies this`workPending, client`trace, client`irqEnabled
      ensures handled && workPending && !client.irqEnabled
      ensures client.trace == old(client.trace) + [IrqDisable, ScheduleWork(WorkDelayMs)]
    {
      client.DisableIrq();
      client.Log(ScheduleWork(WorkDelayMs));
      workPending := true;
      handled := true;
    }

    /** One interrupt taken to completion: the handler, then its work. */
    method HandleInterrupt()
      requires Idle() && 1 <= maxTouchNum
      modifies this`workPending, client`served, client`trace, client`irqEnabled
      ensures Idle()
      ensures var x1 := client.answer(old(client.served));
              var x2 := client.answer(old(client.served) + 1);
              client.trace == old(client.trace) + CycleTrace(ProcessTrace(maxTouchNum, x1, x2)) &&
              client.served == old(client.served) + |ReportReads(maxTouchNum, x1)| + 1
    {
      ghost var n0 := client.served;
      ghost var t0 := client.trace;
      ghost var p := ProcessTrace(maxTouchNum, client.answer(n0), client.answer(n0 + 1));
      var handled := IrqHandler();
      Work();
      assert client.trace == t0 + [IrqDisable, ScheduleWork(WorkDelayMs)] + p + [BusSend(EndCmd), IrqEnable];
      assert CycleTrace(p) == [IrqDisable, ScheduleWork(WorkDelayMs)] + p + [BusSend(EndCmd), IrqEnable];
    }

    /** goodix_read_config: the fields are set step by step as in the source,
        including the final unconditional reset of the contact limit. */
    method ReadConfig()
      modifies this`absXMax, this`absYMax, this`maxTouchNum, this`intTriggerType
      modifies client`served, client`trace
      ensures PanelConfig(absXMax, absYMax, maxTouchNum, intTriggerType) ==
              ConfigFrom(client.answer(old(client.served)))
      ensures client.served == old(client.served) + 1
      ensures client.trace == old(client.trace) + [BusRead(Be16(RegConfigData), ConfigMaxLength)]
    {
      ghost var x := client.answer(client.served);
      var config := new byte[ConfigMaxLength];
      var error := I2cRead(client, RegConfigData, config, 0, ConfigMaxLength);
      if error != 0 {
        absXMax := MaxWidth;
        absYMax := MaxHeight;
        intTriggerType := IntTrigger;
        maxTouchNum := MaxContacts;
        return;
      }
      assert config[..] == Take(x.bytes, ConfigMaxLength);
      absXMax := Le16(config[ResolutionLoc], config[ResolutionLoc + 1]);
      absYMax := Le16(config[ResolutionLoc + 2], config[ResolutionLoc + 3]);
      intTriggerType := Low2Bits(config[TriggerLoc]);
      maxTouchNum := LowNibble(config[MaxContactsLoc]);
      if absXMax == 0 || absYMax == 0 || maxTouchNum == 0 {
        absXMax := MaxWidth;
        absYMax := MaxHeight;
        maxTouchNum := MaxContacts;
      }
      maxTouchNum := MaxContacts;
    }
  }

  /** goodix_read_version: one read of six bytes; on success the version is
      bytes 4-5, little-endian (on failure `version` carries nothing). */
  method ReadVersion(client: Client) returns (error: int, version: u16)
    modifies client`served, client`trace
    ensures var x := client.answer(old(client.served));
            var s := VersionStep(x);
            error == s.err &&
            client.trace == old(client.trace) + s.trace &&
            client.served == old(client.served) + s.used &&
            (error == 0 ==> version == VersionOf(x))
  {
    var buf := new byte[VersionLen];
    error := I2cRead(client, RegVersion, buf, 0, VersionLen);
    if error != 0 {
      return error, 0;
    }
    version := Le16(buf[4], buf[5]);
  }

  /** goodix_i2c_test: up to two one-byte reads of the configuration
      register, 20 ms apart. */
  method I2cTest(client: Client) returns (error: int)
    modifies client`served, client`trace
    ensures var n := old(client.served);
            var s := TestStep(client.answer(n), client.answer(n + 1));
            error == s.err &&
            client.trace == old(client.trace) + s.trace &&
            client.served == n + s.used
  {
    ghost var n0 := client.served;
    var retry := 0;
    error := 0;
    // `while (retry++ < 2)`: the counter is bumped as the body is entered
    while retry < TestAttempts
      invariant 0 <= retry <= TestAttempts
      invariant client.served == old(client.served) + retry
      invariant retry >= 1 ==> ReadResult(client.answer(n0).ret) != 0
      invariant retry >= 2 ==> ReadResult(client.answer(n0 + 1).ret) != 0
      invariant client.trace == old(client.trace) +
        if retry == 0 then [] else if retry == 1 then FailedAttempt else FailedAttempt + FailedAttempt
      invariant retry > 0 ==> error == ReadResult(client.answer(old(client.served) + retry - 1).ret)
    {
      retry := retry + 1;
      var test := new byte[1];
      error := I2cRead(client, RegConfigData, test, 0, 1);
      if error == 0 {
        return 0;
      }
      client.Log(Sleep(TestRetryDelayMs));
    }
  }
}
