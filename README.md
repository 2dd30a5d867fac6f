# Goodix GT9xx I2C touchscreen driver — a verified model

This project models the core of the Goodix capacitive touchscreen driver for
Linux (`drivers/input/touchscreen/goodix.c`), as built with delayed work
(`USE_WORK == USE_WORK_DELAY`):

- the two-message register read over I2C and how its transfer count becomes
  an error code;
- the touch report decoder: the status byte (bit 7 "buffer ready", low nibble
  "contact count"), the follow-up read of the remaining contact records and
  its bounds within the per-cycle report buffer;
- the single-touch event emitter (button, axes swapped, fixed pressure 200,
  sync) and the release frame for every other outcome;
- the interrupt cycle: the hard handler masks the line and queues the work
  15 ms ahead; the work processes one report, sends the 3-byte end command
  `{0x81, 0x4E, 0x00}` and unmasks the line whatever happened;
- the configuration, version and bus self-test reads of bring-up;
- the GPIO wake sequence of `ts_reset_device`;
- the order of the steps of `goodix_ts_probe` and which failures abort it.

Everything the driver does outside the CPU is one object,
`Platform.Client`. Bus answers come from an oracle `answer: nat -> Xfer`
taken in order, and board facts (GPIO validity, request results, input
registration, IRQ request result) come from a `Board` value. Every visible
action goes into one ordered `trace`: bus reads and sends, input events, IRQ
mask and unmask, scheduled work, sleeps, GPIO operations. Each operation is
stated twice:

- as a pure function of the answers it gets (`ReportResult`, `ProcessTrace`,
  `ConfigFrom`, `TestStep`, `ProbeOutcome`, ...), about which the properties
  are proved;
- as an imperative method on the client or on the session class
  `Driver.GoodixTs` (the driver's `struct goodix_ts_data`), written the way
  the C code is written, with one exception: `Bringup.RegisterDevice`, and
  so `Bringup.Probe`, tests the IRQ request's result with `< 0` where the
  code tests `!= 0` (see "## Findings"). Each method's `ensures` says it
  produces exactly its function's result, trace and state.

Modules, each in its own file: `Wire` (bytes, endianness, bit masks),
`Platform` (the client and its actions), `Bus` (`goodix_i2c_read`),
`Report` (decoder and frames), `Config` (configuration, version, self-test,
trigger table), `Cycle` (the interrupt cycle and its masking discipline),
`Driver` (the session class and its methods), `Bringup` (reset and probe).

Points where the code does something other than its natural reading
suggests, and the model follows the code:

- Contact fields are taken from the report buffer that starts with the
  status byte: slot id from byte 1, X from bytes 2-3, Y from bytes 4-5,
  width from bytes 6-7. They are not taken from an 8-byte record that
  starts after the status byte.
- An invalid configuration (a zero resolution or a zero contact count)
  resets both resolution fields and the contact limit, not only the invalid
  field. The trigger type is kept from the firmware. The contact limit is
  then set to 5 unconditionally, so the firmware's value never survives.
- A failed attach does not release everything it claimed. The reset GPIO
  stays claimed when the interrupt GPIO is missing or refused. The interrupt
  GPIO stays claimed after every later probe failure (its release is
  commented out).
- The bit-7 test, the zero-status test and the contact-limit test all return
  `-EPROTO`. The code has no separate "not ready" code.

## Model

| member | source | states |
|---|---|---|
| Wire.Le16 | drivers/input/touchscreen/goodix.c:156-158 | `get_unaligned_le16`: the word's low byte is the first byte and its high byte the second |
| Wire.LowNibble | drivers/input/touchscreen/goodix.c:132 | `& 0x0f` on a byte: below 16, and what is left over above it is a multiple of 16 |
| Wire.Bit7 | drivers/input/touchscreen/goodix.c:129 | `(b & 0x80) != 0` holds exactly when the byte's top binary digit is 1 |
| Wire.Low2Bits | drivers/input/touchscreen/goodix.c:290 | `& 0x03` on a byte: below 4, and what is left over above it is a multiple of 4 |
| Wire.Le16Bytes | drivers/input/touchscreen/goodix.c:156-158 | the little-endian encoding whose decoding gives back the value |
| Wire.Be16 | drivers/input/touchscreen/goodix.c:93 | `cpu_to_be16(reg)` on the wire: high byte first, and the two bytes give back the register |
| Wire.Take | drivers/input/touchscreen/goodix.c:102-106 | the first `len` bytes the device delivers into the read buffer |
| Platform.Client.constructor | drivers/input/touchscreen/goodix.c:490-491 | the client starts with no bus answer used, an empty trace and the line not yet enabled |
| Platform.Client.Transfer | drivers/input/touchscreen/goodix.c:95-106 | one combined write-address/read transfer: returns the oracle's count, deposits exactly `len` bytes at the offset and nothing outside them, records the read |
| Platform.Client.MasterSend | drivers/input/touchscreen/goodix.c:225 | one write of the given bytes, recorded; its result is the oracle's |
| Platform.Client.DisableIrq | drivers/input/touchscreen/goodix.c:246 | the line is masked and the mask recorded |
| Platform.Client.EnableIrq | drivers/input/touchscreen/goodix.c:227 | the line is unmasked and the unmask recorded |
| Platform.Client.Log | drivers/input/touchscreen/goodix.c:170-175 | appends exactly one action (an input event, a delay, a GPIO operation) |
| Platform.Client.RequestGpio | drivers/input/touchscreen/goodix.c:429-444 | the board's answer for that line, recorded |
| Platform.Client.RequestIrq | drivers/input/touchscreen/goodix.c:551-552 | the board's answer; the line is live afterwards iff it was or the request did not fail |
| Bus.ReadResult | drivers/input/touchscreen/goodix.c:107-108 | 0 exactly when both messages went through; a negative transport code is passed on; any other count is -EIO; never positive |
| Bus.I2cRead | drivers/input/touchscreen/goodix.c:90-109 | reads `len` bytes from the big-endian register into the buffer at the offset, leaves the rest of the buffer alone, and returns the mapped error |
| Report.StatusCount | drivers/input/touchscreen/goodix.c:123-137 | valid iff bit 7 is set and the low nibble is within the limit, then the count is that nibble (0x80 gives 0); otherwise -EPROTO |
| Report.ReportReads | drivers/input/touchscreen/goodix.c:117-148 | the first read is 9 bytes at 0x814E; a second read is issued iff the first succeeded and more than one contact was announced and accepted, at 0x814E+9 for 8*(n-1) bytes |
| Report.BytesWritten | drivers/input/touchscreen/goodix.c:139-148 | the reads fill 9 bytes, or 1+8n when n>1 contacts are read, and never more than the 1+8*max bytes of the buffer |
| Report.ReportResult | drivers/input/touchscreen/goodix.c:111-151 | the contact count iff every read succeeded and the status byte is valid; a failed first read is returned before the status byte is looked at; an invalid status gives -EPROTO; a failed second read returns that read's error |
| Report.DecodeContact | drivers/input/touchscreen/goodix.c:155-158 | the slot id is below 16 and X, Y and W are the little-endian words at buffer bytes 2-3, 4-5 and 6-7 |
| Report.EncodeReport | drivers/input/touchscreen/goodix.c:123-158 | the first nine report bytes for a status and a contact, starting with the status |
| Report.DecodeEncode | drivers/input/touchscreen/goodix.c:155-158 | decoding an encoded report gives back the contact |
| Report.TouchFrame | drivers/input/touchscreen/goodix.c:170-175 | five events: BTN_TOUCH down first, one closing sync; ABS_X carries the contact's Y and ABS_Y its X; pressure 200 |
| Report.ProcessTraceShape | drivers/input/touchscreen/goodix.c:187-213 | processing begins with exactly the report's reads and ends with the frame's sync |
| Report.Frame | drivers/input/touchscreen/goodix.c:195-209 | exactly one sync, and it comes last; the button state opens the frame and is down iff exactly one contact was reported; ABS_X only ever carries the contact's Y and ABS_Y its X; any other result reports pressure 0 and no position |
| Report.SingleTouchFromBytes | drivers/input/touchscreen/goodix.c:170-199 | a one-contact report gives the 9-byte read, then BTN_TOUCH=1, ABS_X = bytes 4-5, ABS_Y = bytes 2-3, pressure 200, sync |
| Report.ReleaseOtherwise | drivers/input/touchscreen/goodix.c:204-209 | any other result, an error included, gives the reads followed by BTN_TOUCH=0, pressure 0, sync |
| Report.SingleContactExample | drivers/input/touchscreen/goodix.c:170-173 | status 0x81 with contact (slot 2, x 100, y 200, w 50) is reported at ABS_X 200, ABS_Y 100, pressure 200 |
| Config.TriggerIndex | drivers/input/touchscreen/goodix.c:75-80 | every trigger sits in the table, at its index |
| Config.TriggerTableInjective | drivers/input/touchscreen/goodix.c:75-80 | each table index holds a different trigger |
| Config.ConfigFrom | drivers/input/touchscreen/goodix.c:269-300 | a failed read gives 800x480, trigger 1 and 5 contacts; otherwise the trigger is byte 6 mod 4 and the resolution is the firmware's iff both resolutions and the contact nibble are non-zero, else 800x480; the contact limit always ends at 5 and the resolution is non-zero |
| Config.IrqFlagsFor | drivers/input/touchscreen/goodix.c:535 | the table entry for the trigger type, one-shot |
| Config.VersionOf | drivers/input/touchscreen/goodix.c:319-320 | the version is bytes 4-5 of the version block, little-endian |
| Config.VersionStep | drivers/input/touchscreen/goodix.c:308-325 | one 6-byte read at 0x8140, whose mapped error is the result |
| Config.TestStep | drivers/input/touchscreen/goodix.c:332-350 | at most two 1-byte reads at 0x8047, each failed one followed by a 20 ms pause; success iff one of them succeeds; the second is made iff the first failed; otherwise the second attempt's error is returned |
| Cycle.CycleTraceShape | drivers/input/touchscreen/goodix.c:215-260 | a cycle is: mask, schedule the work at 15 ms, the processing unchanged, the end command, unmask |
| Cycle.EndCmdBytes | drivers/input/touchscreen/goodix.c:218-222 | the end command is 0x81, 0x4E, 0x00 |
| Cycle.IrqLineAppend | drivers/input/touchscreen/goodix.c:223-246 | following the line through two traces in a row composes |
| Cycle.MaskedTraffic | drivers/input/touchscreen/goodix.c:223-226 | bus and input traffic leave a masked line masked |
| Cycle.CycleBracketed | drivers/input/touchscreen/goodix.c:215-260 | a cycle masks first, does all its device traffic masked and ends unmasked, whatever its processing did |
| Cycle.CyclesBracketed | drivers/input/touchscreen/goodix.c:215-260 | any run of cycles never masks twice, never talks to the device unmasked, and leaves the line enabled |
| Cycle.ProcessTraceDeviceOnly | drivers/input/touchscreen/goodix.c:187-213 | processing does only bus reads and input events |
| Cycle.OneSyncPerCycle | drivers/input/touchscreen/goodix.c:195-209 | each cycle emits exactly one sync, just before the end command and the unmask |
| Driver.GoodixTs.constructor | drivers/input/touchscreen/goodix.c:505-509 | the zero-filled session belongs to its client |
| Driver.GoodixTs.ReadInputReport | drivers/input/touchscreen/goodix.c:111-151 | returns the decoder's result, issues exactly the decoder's reads, puts the first 9 answered bytes at the front and the follow-up bytes right behind them, and leaves the rest of the buffer untouched |
| Driver.GoodixTs.ReportTouch | drivers/input/touchscreen/goodix.c:153-177 | emits the touch frame of the contact at the given offset |
| Driver.GoodixTs.ProcessEvents | drivers/input/touchscreen/goodix.c:187-213 | exactly the decoder's reads followed by the frame for its result |
| Driver.GoodixTs.Work | drivers/input/touchscreen/goodix.c:215-228 | processing, then the end command whatever its outcome, then the unmask; the work is no longer pending |
| Driver.GoodixTs.IrqHandler | drivers/input/touchscreen/goodix.c:238-260 | masks the line, queues the work 15 ms ahead, reports the interrupt handled |
| Driver.GoodixTs.HandleInterrupt | drivers/input/touchscreen/goodix.c:215-260 | from idle, one interrupt yields exactly the cycle trace around the processing and returns to idle |
| Driver.GoodixTs.ReadConfig | drivers/input/touchscreen/goodix.c:269-300 | one 240-byte read at 0x8047 and the session fields become the configuration function's value |
| Driver.ReadVersion | drivers/input/touchscreen/goodix.c:308-325 | the version step's error and trace, and on success the version word |
| Driver.I2cTest | drivers/input/touchscreen/goodix.c:332-350 | the self-test step's error, trace and number of reads |
| Bringup.WakeSequenceOrder | drivers/input/touchscreen/goodix.c:468-483 | the reset line is driven low first; the interrupt line goes low before reset is released; the sequence ends by freeing the reset line and never frees the interrupt line |
| Bringup.WakeSequenceHolds | drivers/input/touchscreen/goodix.c:468-478 | the holds of the wake sequence are 20, 2, 6 and 50 ms, 78 ms in all |
| Bringup.IrqRequestAborts | drivers/input/touchscreen/goodix.c:555 | a negative result always aborts and 0 never does; a nested grant (1) aborts exactly in the code as written |
| Bringup.ResetStep | drivers/input/touchscreen/goodix.c:417-487 | succeeds iff the node exists and both lines are valid and granted, and then performs the whole wake sequence; on failure only line requests happen, no line is driven: -ENODEV with no request for a missing node or an invalid reset line, the reset request's own error with that one request, -ENODEV after the reset request for an invalid interrupt line, and the interrupt request's own error after both requests; never positive |
| Bringup.ResetLineKeptOnLateFailure | drivers/input/touchscreen/goodix.c:430-445 | when the interrupt line fails after the reset line was granted, the reset line is never freed |
| Bringup.ResetDevice | drivers/input/touchscreen/goodix.c:417-487 | the reset step's error and trace |
| Bringup.InputStep | drivers/input/touchscreen/goodix.c:359-412 | allocation failure is -ENOMEM with nothing registered; otherwise registration is attempted and its result returned |
| Bringup.RequestInputDev | drivers/input/touchscreen/goodix.c:359-412 | the input step's error and trace |
| Bringup.RegisterStep | drivers/input/touchscreen/goodix.c:525-559 | a failed input step ends it; otherwise the IRQ is requested with LEVEL_LOW, one-shot, and (corrected test) it succeeds iff the request did not fail; when the test aborts probe, the request's own result is returned unchanged, in either mode |
| Bringup.CheckStep | drivers/input/touchscreen/goodix.c:510-526 | reset, self-test and version read in order: a failed reset is returned with nothing else done; a failed self-test is returned and the version is not read; otherwise the version read's error is returned after all three; never positive |
| Bringup.ProbeOutcome | drivers/input/touchscreen/goodix.c:490-563 | -ENXIO, then -ENOMEM, with nothing done; a failing check is returned as it is and the configuration is not read; otherwise the checks, the configuration read and registration happen in that order and registration's error is returned; with the corrected IRQ test probe never returns a positive value when registration cannot |
| Bringup.ProbeSucceedsIff | drivers/input/touchscreen/goodix.c:490-563 | probe succeeds iff every step succeeds; the IRQ is requested iff every earlier step succeeded; on success the request is the last action |
| Bringup.ProbeStopsAtFirstFailure | drivers/input/touchscreen/goodix.c:510-529 | a failed reset means no bus traffic; the input device is registered iff reset, self-test and version read all succeeded and it was allocated |
| Bringup.ConfigReadNeverAborts | drivers/input/touchscreen/goodix.c:522-527 | whatever the configuration read answers, failure included, probe returns the same error and performs the same actions |
| Bringup.NestedIrqFailsProbeAsWritten | drivers/input/touchscreen/goodix.c:551-558 | as written, a nested-IRQ grant (1) makes probe return 1 with the handler installed; with the corrected test it returns 0 |
| Bringup.CheckDevice | drivers/input/touchscreen/goodix.c:510-526 | the check step's error, trace and number of reads |
| Bringup.RegisterDevice | drivers/input/touchscreen/goodix.c:528-559 | (corrected IRQ test, see ## Findings) the register step's error and trace; the line is enabled on success and unchanged on failure |
| Bringup.Probe | drivers/input/touchscreen/goodix.c:490-563 | (corrected IRQ test, see ## Findings) the probe outcome's error, trace and reads; on success a fresh idle session whose configuration is the configuration function of the config read's answer; on failure no session and the line unchanged |

## Left out

- The I2C transfer itself, `i2c_master_send`, GPIO, device-tree lookups and the IRQ subsystem. They are modelled as answers from a bus oracle and a `Board` value, with each call recorded in the trace.
- Delays (`mdelay`, `msleep`, the 15 ms work delay) appear only as trace entries. Wall-clock timing is not modelled.
- Concurrency between the hard IRQ handler and the workqueue. `Driver.GoodixTs.HandleInterrupt` runs a handler and its work back to back. A re-trigger while the work is pending is excluded by the mask that the model tracks.
- The input-device capability setup at goodix.c:368-401 (event bits, axis ranges, names and ids). Only allocation and registration are modelled, in `Bringup.InputStep`.
- The device match tables and module registration at goodix.c:565-607.
- The `#if 0` blocks, and the `USE_WORK_NOT` and `USE_WORK_NORAMAL` branches that this build does not select.
- Logging (`dev_err`, `dev_dbg`, `dev_info`) and the `strcpy` of the device name into `g_ts_name`.
- Driver.ReadVersion: the `if (version)` test for a missing output argument is not modelled. Probe always passes one.
- Driver.GoodixTs.ReadConfig: the stack buffer is zero-filled in the model. Its bytes are only read after a successful read has overwritten all 240 of them.
- Driver.GoodixTs.ReadInputReport: the buffer is the exact size that `goodix_process_events` allocates, and requires `max_touch_num >= 1`. This holds for every session after `goodix_read_config`, which always sets it to 5.
- Bringup.RegisterDevice: the flags computed from the trigger table (goodix.c:535) are overwritten before use (goodix.c:550). The model computes and then discards them the same way.
- Platform.Client.DisableIrq and Platform.Client.EnableIrq: the kernel keeps a nesting depth for `disable_irq_nosync`/`enable_irq`; the model keeps one boolean. The two agree only while masks and unmasks alternate and never nest. `Cycle.CyclesBracketed` proves the driver's cycles keep to that.
- Platform.Client.Transfer: a failed transfer still deposits the oracle's bytes. The driver never reads them on that path.

## Findings

| source | as written | input that shows it | evidently intended | confidence | as-written member | corrected member |
|---|---|---|---|---|---|---|
| drivers/input/touchscreen/goodix.c:555 | `if (error)` after `request_any_context_irq` treats every non-zero result as failure | every earlier step succeeds and `request_any_context_irq` returns `IRQC_IS_NESTED` (1) because the IRQ was granted as a nested thread: probe returns 1 although the handler is installed | only a negative result is a failure (`if (error < 0)`), so probe returns 0 | not executed; medium (depends on the interrupt controller) | Bringup.NestedIrqFailsProbeAsWritten | Bringup.Probe |
