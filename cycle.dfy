/** The interrupt cycle: Idle -> InterruptPending -> Processing -> Rearming
    -> Idle. The handler masks the line and schedules the work; the work
    processes the report, acknowledges it and unmasks the line. This module
    states what a cycle looks like in the trace and proves that any run of
    cycles keeps all device traffic inside masked windows and always leaves
    the line enabled. */
module Cycle {
  import opened Wire
  import opened Platform
  import opened Bus
  import opened Report

  /** The delay the handler gives the work (USE_WORK_DELAY). */
  const WorkDelayMs := 15

  /** The end command: the coordinate register's address, high byte first,
      then the zero that clears the buffer-ready status. */
  const EndCmd: seq<byte> := Be16(ReadCoorAddr) + [0]

  lemma EndCmdBytes()
    ensures EndCmd == [0x81, 0x4E, 0x00]
  {
  }

  /** The trace of one full cycle around the processing trace `p`: the
      handler's mask and scheduling, the processing, then the end command
      and the unmask. */
  function CycleTrace(p: seq<Action>): seq<Action>
  {
    [IrqDisable, ScheduleWork(WorkDelayMs)] + p + [BusSend(EndCmd), IrqEnable]
  }

  lemma CycleTraceShape(p: seq<Action>)
    ensures var t := CycleTrace(p);
      |t| == |p| + 4 && t[2..|t| - 2] == p &&
      t[0] == IrqDisable && t[1] == ScheduleWork(WorkDelayMs) &&
      t[|t| - 2] == BusSend(EndCmd) && t[|t| - 1] == IrqEnable
  {
  }

  /** Actions that talk to the device or the input layer and so must happen
      while the line is masked. */
  predicate DeviceAction(a: Action)
  {
    a.BusRead? || a.BusSend? || a.Input? || a.ScheduleWork?
  }

  predicate DeviceOnly(p: seq<Action>)
  {
    forall i :: 0 <= i < |p| ==> DeviceAction(p[i])
  }

  datatype Option<T> = None | Some(value: T)

  /** Follows the interrupt line through a trace, starting `enabled`: None
      when the line is masked twice, unmasked twice, or device traffic happens
      while it is enabled; otherwise whether it ends enabled. */
  function IrqLine(t: seq<Action>, enabled: bool): Option<bool>
    decreases |t|
  {
    if t == [] then Some(enabled)
    else if t[0] == IrqDisable then (if enabled then IrqLine(t[1..], false) else None)
    else if t[0] == IrqEnable then (if enabled then None else IrqLine(t[1..], true))
    else if DeviceAction(t[0]) && enabled then None
    else IrqLine(t[1..], enabled)
  }

  /** Following the line through two traces in a row. */
  lemma {:induction false} IrqLineAppend(t1: seq<Action>, t2: seq<Action>, enabled: bool)
    ensures IrqLine(t1 + t2, enabled) ==
      match IrqLine(t1, enabled)
      case None => None
      case Some(e) => IrqLine(t2, e)
    decreases |t1|
  {
    if t1 == [] {
      assert t1 + t2 == t2;
    } else {
      assert (t1 + t2)[0] == t1[0];
      assert (t1 + t2)[1..] == t1[1..] + t2;
      IrqLineAppend(t1[1..], t2, false);
      IrqLineAppend(t1[1..], t2, true);
    }
  }

  /** Device traffic alone leaves a masked line masked. */
  lemma {:induction false} MaskedTraffic(p: seq<Action>)
    requires DeviceOnly(p)
    ensures IrqLine(p, false) == Some(false)
    decreases |p|
  {
    if p != [] {
      MaskedTraffic(p[1..]);
    }
  }

  /** One cycle starts from an enabled line, does all its traffic masked and
      re-enables the line, whatever the processing did. */
  lemma CycleBracketed(p: seq<Action>)
    requires DeviceOnly(p)
    ensures IrqLine(CycleTrace(p), true) == Some(true)
  {
    var head: seq<Action> := [IrqDisable, ScheduleWork(WorkDelayMs)];
    var tail: seq<Action> := [BusSend(EndCmd), IrqEnable];
    assert CycleTrace(p) == head + (p + tail);
    IrqLineAppend(head, p + tail, true);
    assert head[1..] == [ScheduleWork(WorkDelayMs)] && IrqLine(head[1..], false) == IrqLine([], false);
    assert IrqLine(head, true) == Some(false);
    IrqLineAppend(p, tail, false);
    MaskedTraffic(p);
    assert tail[1..] == [IrqEnable] && IrqLine(tail[1..], false) == IrqLine([], true);
    assert IrqLine(tail, false) == Some(true);
  }

  function Cycles(ps: seq<seq<Action>>): seq<Action>
  {
    if ps == [] then [] else CycleTrace(ps[0]) + Cycles(ps[1..])
  }

  /** Any number of cycles in a row: the line is never masked twice, no
      device traffic happens unmasked, and the line ends enabled. */
  lemma {:induction false} CyclesBracketed(ps: seq<seq<Action>>)
    requires forall k :: 0 <= k < |ps| ==> DeviceOnly(ps[k])
    ensures IrqLine(Cycles(ps), true) == Some(true)
    decreases |ps|
  {
    if ps != [] {
      CycleBracketed(ps[0]);
      CyclesBracketed(ps[1..]);
      IrqLineAppend(CycleTrace(ps[0]), Cycles(ps[1..]), true);
    }
  }

  /** The processing part of a cycle is pure device traffic. */
  lemma ProcessTraceDeviceOnly(maxTouch: nat, x1: Xfer, x2: Xfer)
    ensures DeviceOnly(ProcessTrace(maxTouch, x1, x2))
  {
  }

  /** Every cycle of the driver emits exactly one frame: one Sync. */
  lemma OneSyncPerCycle(maxTouch: nat, x1: Xfer, x2: Xfer)
    ensures var t := CycleTrace(ProcessTrace(maxTouch, x1, x2));
      |t| >= 3 && t[|t| - 3] == Input(Sync) &&
      forall i :: 0 <= i < |t| && i != |t| - 3 ==> t[i] != Input(Sync)
  {
    var f := Frame(ReportResult(maxTouch, x1, x2), DecodeContact(Take(x1.bytes, FirstReadLen)));
    var r := ReportReads(maxTouch, x1);
    var t := CycleTrace(ProcessTrace(maxTouch, x1, x2));
    assert t == [IrqDisable, ScheduleWork(WorkDelayMs)] + r + Inputs(f) + [BusSend(EndCmd), IrqEnable];
    forall i | 0 <= i < |t| && i != |t| - 3
      ensures t[i] != Input(Sync)
    {
      if 2 + |r| <= i < 2 + |r| + |f| {
        assert t[i] == Input(f[i - 2 - |r|]);
      }
    }
  }
}
