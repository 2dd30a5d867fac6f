/** The touch report: how the status byte is validated, which reads the
    decoder issues, how the first contact is decoded and which input frame a
    processing cycle emits. The imperative code in Driver is proved to do
    exactly what these functions describe. */
module Report {
  import opened Wire
  import opened Platform
  import opened Bus

  const ContactSize := 8
  /** Status byte plus the first contact record. */
  const FirstReadLen := ContactSize + 1
  const TouchPressure := 200

  /** The contact count a status byte announces, or -EPROTO: the byte must
      be non-zero, have bit 7 (buffer ready) set and announce at most
      `maxTouch` contacts. The zero test is subsumed by the bit-7 test. */
  function StatusCount(status: byte, maxTouch: nat): (r: int)
    ensures r >= 0 <==> status >= 0x80 && status % 16 <= maxTouch
    ensures r >= 0 ==> r == status % 16 && r <= maxTouch
    ensures r < 0 ==> r == -EPROTO
    ensures status == 0x80 ==> r == 0
  {
    if status == 0x00 then -EPROTO
    else if !Bit7(status) then -EPROTO
    else if LowNibble(status) > maxTouch then -EPROTO
    else LowNibble(status)
  }

  /** Whether the decoder issues its second read: the first read succeeded
      and more than one contact was announced and accepted. */
  predicate SecondRead(maxTouch: nat, x1: Xfer)
  {
    ReadResult(x1.ret) == 0 && StatusCount(x1.bytes(0), maxTouch) > 1
  }

  /** The reads goodix_ts_read_input_report issues. */
  function ReportReads(maxTouch: nat, x1: Xfer): (t: seq<Action>)
    ensures 1 <= |t| <= 2
    ensures t[0] == BusRead(Be16(ReadCoorAddr), FirstReadLen)
    ensures |t| == 2 <==> SecondRead(maxTouch, x1)
    ensures |t| == 2 ==> t[1] == BusRead(Be16(ReadCoorAddr + FirstReadLen),
                                         ContactSize * (LowNibble(x1.bytes(0)) - 1))
  {
    [BusRead(Be16(ReadCoorAddr), FirstReadLen)] +
    if SecondRead(maxTouch, x1)
    then [BusRead(Be16(ReadCoorAddr + FirstReadLen), ContactSize * (StatusCount(x1.bytes(0), maxTouch) - 1))]
    else []
  }

  /** How many leading bytes of the report buffer the reads fill: the second
      read lands right after the first, so a report of n contacts fills
      1 + 8 * n bytes, which never exceeds the buffer of 1 + 8 * maxTouch. */
  function BytesWritten(maxTouch: nat, x1: Xfer): (k: nat)
    requires 1 <= maxTouch
    ensures FirstReadLen <= k <= 1 + ContactSize * maxTouch
    ensures SecondRead(maxTouch, x1) ==> k == 1 + ContactSize * LowNibble(x1.bytes(0))
    ensures !SecondRead(maxTouch, x1) ==> k == FirstReadLen
  {
    if SecondRead(maxTouch, x1)
    then FirstReadLen + ContactSize * (StatusCount(x1.bytes(0), maxTouch) - 1)
    else FirstReadLen
  }

  /** What goodix_ts_read_input_report returns, given the answers to its first
      and (if issued) second read. */
  function ReportResult(maxTouch: nat, x1: Xfer, x2: Xfer): (r: int)
    // success exactly when every read succeeded and the status byte is valid
    ensures r >= 0 <==>
      ReadResult(x1.ret) == 0 && x1.bytes(0) >= 0x80 && x1.bytes(0) % 16 <= maxTouch &&
      (x1.bytes(0) % 16 > 1 ==> ReadResult(x2.ret) == 0)
    ensures r >= 0 ==> r == x1.bytes(0) % 16
    // a failed first read is returned before the status byte is looked at
    ensures ReadResult(x1.ret) != 0 ==> r == ReadResult(x1.ret)
    ensures ReadResult(x1.ret) == 0 && StatusCount(x1.bytes(0), maxTouch) < 0 ==> r == -EPROTO
    // a failed second read is returned as is
    ensures ReadResult(x1.ret) == 0 && StatusCount(x1.bytes(0), maxTouch) > 1 && ReadResult(x2.ret) != 0 ==>
      r == ReadResult(x2.ret)
    ensures r < 0 ==> r == ReadResult(x1.ret) || r == -EPROTO || r == ReadResult(x2.ret)
  {
    var e1 := ReadResult(x1.ret);
    if e1 != 0 then e1
    else
      var n := StatusCount(x1.bytes(0), maxTouch);
      if n > 1 && ReadResult(x2.ret) != 0 then ReadResult(x2.ret) else n
  }

  /** One decoded contact record. */
  datatype Contact = Contact(id: int, x: u16, y: u16, w: u16)

  /** The first contact, read from the buffer that starts with the status
      byte: id in byte 1, X in bytes 2-3, Y in bytes 4-5, W in bytes 6-7. */
  function DecodeContact(report: seq<byte>): (c: Contact)
    requires |report| >= ContactSize
    ensures 0 <= c.id < 16
    ensures Le16Bytes(c.x) == report[2..4] && Le16Bytes(c.y) == report[4..6]
    ensures Le16Bytes(c.w) == report[6..8]
  {
    Le16BytesOfLe16(report[2], report[3]);
    Le16BytesOfLe16(report[4], report[5]);
    Le16BytesOfLe16(report[6], report[7]);
    Contact(LowNibble(report[1]), Le16(report[2], report[3]),
            Le16(report[4], report[5]), Le16(report[6], report[7]))
  }

  /** The first nine bytes of a report announcing the contact `c`; the
      partner of DecodeContact. */
  function EncodeReport(status: byte, c: Contact): (r: seq<byte>)
    requires 0 <= c.id < 16
    ensures |r| == FirstReadLen && r[0] == status
  {
    [status, c.id] + Le16Bytes(c.x) + Le16Bytes(c.y) + Le16Bytes(c.w) + [0]
  }

  lemma DecodeEncode(status: byte, c: Contact)
    requires 0 <= c.id < 16
    ensures DecodeContact(EncodeReport(status, c)) == c
  {
  }

  /** goodix_ts_report_touch: button down, the axes swapped, fixed pressure,
      and one closing sync. */
  function TouchFrame(c: Contact): (f: seq<InputEvent>)
    ensures |f| == 5 && f[0] == BtnTouch(true) && f[|f| - 1] == Sync
    ensures forall i :: 0 <= i < |f| - 1 ==> !f[i].Sync?
    ensures Abs(AbsX, c.y) in f && Abs(AbsY, c.x) in f && Abs(AbsPressure, TouchPressure) in f
    ensures forall e :: e in f && e.Abs? && e.axis == AbsX ==> e.value == c.y
    ensures forall e :: e in f && e.Abs? && e.axis == AbsY ==> e.value == c.x
  {
    [BtnTouch(true), Abs(AbsX, c.y), Abs(AbsY, c.x), Abs(AbsPressure, TouchPressure), Sync]
  }

  /** The else branch of goodix_process_events. */
  const ReleaseFrame: seq<InputEvent> := [BtnTouch(false), Abs(AbsPressure, 0), Sync]

  predicate IsPosition(e: InputEvent)
  {
    e.Abs? && e.axis != AbsPressure
  }

  /** The frame goodix_process_events emits for the decoder's result. Every
      frame is closed by exactly one Sync and opens with the button state;
      only a report of exactly one contact carries positions, and then X is
      the contact's Y and Y the contact's X; every other result releases. */
  function Frame(touchNum: int, c: Contact): (f: seq<InputEvent>)
    ensures |f| >= 3 && f[|f| - 1] == Sync
    ensures forall i :: 0 <= i < |f| - 1 ==> !f[i].Sync?
    ensures f[0] == BtnTouch(touchNum == 1)
    ensures touchNum == 1 ==>
      Abs(AbsX, c.y) in f && Abs(AbsY, c.x) in f && Abs(AbsPressure, TouchPressure) in f
    ensures forall e :: e in f && e.Abs? && e.axis == AbsX ==> e.value == c.y
    ensures forall e :: e in f && e.Abs? && e.axis == AbsY ==> e.value == c.x
    ensures touchNum != 1 ==> Abs(AbsPressure, 0) in f && forall e :: e in f ==> !IsPosition(e)
  {
    if touchNum == 1 then TouchFrame(c) else ReleaseFrame
  }

  /** The input events as trace actions. */
  function Inputs(evs: seq<InputEvent>): seq<Action>
  {
    seq(|evs|, (i: nat) requires i < |evs| => Input(evs[i]))
  }

  /** Everything goodix_process_events does: the reads of the report, then
      one input frame, which ends with the sync. */
  function ProcessTrace(maxTouch: nat, x1: Xfer, x2: Xfer): seq<Action>
  {
    ReportReads(maxTouch, x1) +
    Inputs(Frame(ReportResult(maxTouch, x1, x2), DecodeContact(Take(x1.bytes, FirstReadLen))))
  }

  /** Processing starts with the report's reads and ends with the frame's
      sync, whatever the report said. */
  lemma ProcessTraceShape(maxTouch: nat, x1: Xfer, x2: Xfer)
    ensures var t := ProcessTrace(maxTouch, x1, x2);
      |t| >= |ReportReads(maxTouch, x1)| + 3 &&
      t[..|ReportReads(maxTouch, x1)|] == ReportReads(maxTouch, x1) &&
      t[|t| - 1] == Input(Sync)
  {
  }

  /** A cycle whose report holds exactly one contact emits the touch frame
      built straight from the first read's bytes: ABS_X from bytes 4-5,
      ABS_Y from bytes 2-3. */
  lemma SingleTouchFromBytes(maxTouch: nat, x1: Xfer, x2: Xfer)
    requires ReportResult(maxTouch, x1, x2) == 1
    ensures ProcessTrace(maxTouch, x1, x2) ==
      [BusRead(Be16(ReadCoorAddr), FirstReadLen),
       Input(BtnTouch(true)),
       Input(Abs(AbsX, Le16(x1.bytes(4), x1.bytes(5)))),
       Input(Abs(AbsY, Le16(x1.bytes(2), x1.bytes(3)))),
       Input(Abs(AbsPressure, TouchPressure)),
       Input(Sync)]
  {
    var c := DecodeContact(Take(x1.bytes, FirstReadLen));
    assert c.x == Le16(x1.bytes(2), x1.bytes(3)) && c.y == Le16(x1.bytes(4), x1.bytes(5));
  }

  /** Any other result, an error included, emits the release frame and no
      position. */
  lemma ReleaseOtherwise(maxTouch: nat, x1: Xfer, x2: Xfer)
    requires ReportResult(maxTouch, x1, x2) != 1
    ensures ProcessTrace(maxTouch, x1, x2) ==
      ReportReads(maxTouch, x1) + [Input(BtnTouch(false)), Input(Abs(AbsPressure, 0)), Input(Sync)]
  {
  }

  /** A single contact in slot 2 at x = 100, y = 200 with
      width 50 is reported at ABS_X = 200, ABS_Y = 100 with pressure 200. */
  lemma SingleContactExample(x1: Xfer, x2: Xfer)
    requires ReadResult(x1.ret) == 0
    requires Take(x1.bytes, FirstReadLen) == EncodeReport(0x81, Contact(2, 100, 200, 50))
    ensures DecodeContact(Take(x1.bytes, FirstReadLen)) == Contact(2, 100, 200, 50)
    ensures ProcessTrace(5, x1, x2) ==
      [BusRead(Be16(ReadCoorAddr), FirstReadLen),
       Input(BtnTouch(true)), Input(Abs(AbsX, 200)), Input(Abs(AbsY, 100)),
       Input(Abs(AbsPressure, 200)), Input(Sync)]
  {
    DecodeEncode(0x81, Contact(2, 100, 200, 50));
    assert x1.bytes(0) == Take(x1.bytes, FirstReadLen)[0] == 0x81;
    SingleTouchFromBytes(5, x1, x2);
  }
}
