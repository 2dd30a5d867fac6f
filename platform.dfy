/** The kernel as the driver sees it: the I2C client with its adapter, the
    interrupt line, the two GPIO lines and the input device. Every call the
    driver makes into it is recorded, in order, in one trace of actions; the
    values those calls return come from fixed oracles (the bus answers and the
    board description), so nothing here is invented by the model. */
module Platform {
  import opened Wire

  // errno values of the kernel's generic errno tables
  const EIO := 5
  const ENXIO := 6
  const ENOMEM := 12
  const ENODEV := 19
  const EPROTO := 71

  // the two success codes of request_any_context_irq
  const IRQC_IS_HARDIRQ := 0
  const IRQC_IS_NESTED := 1

  /** How the adapter answers one bus transaction: the value i2c_transfer or
      i2c_master_send returns, and the byte stream clocked in for a read. */
  datatype Xfer = Xfer(ret: int, bytes: nat -> byte)

  datatype Axis = AbsX | AbsY | AbsPressure

  /** The input-event vocabulary the driver uses: BTN_TOUCH, the three
      absolute axes and the frame synchronisation. */
  datatype InputEvent = BtnTouch(down: bool) | Abs(axis: Axis, value: int) | Sync

  datatype Line = ResetLine | IntLine

  /** The four entries of goodix_irq_flags and the IRQF_ONESHOT bit. */
  datatype Trigger = EdgeRising | EdgeFalling | LevelLow | LevelHigh
  datatype IrqFlags = IrqFlags(trigger: Trigger, oneShot: bool)

  /** One externally visible step of the driver. */
  datatype Action =
    | BusRead(addr: seq<byte>, len: nat)   // combined write of the register address, then a read
    | BusSend(bytes: seq<byte>)            // i2c_master_send
    | Input(event: InputEvent)             // input_report_key / input_report_abs / input_sync
    | IrqDisable                           // disable_irq_nosync
    | IrqEnable                            // enable_irq
    | ScheduleWork(delayMs: nat)           // schedule_delayed_work
    | Sleep(ms: nat)                       // mdelay / msleep
    | GpioRequest(line: Line)
    | GpioOutput(line: Line, high: bool)   // gpio_direction_output
    | GpioSet(line: Line, high: bool)      // gpio_set_value
    | GpioInput(line: Line)                // gpio_direction_input
    | GpioFree(line: Line)
    | RegisterInput                        // input_register_device
    | RequestIrq(flags: IrqFlags)          // request_any_context_irq

  /** What the board and the kernel answer to the non-bus calls of probe. */
  datatype Board = Board(
    i2cFunctional: bool,   // i2c_check_functionality(adapter, I2C_FUNC_I2C)
    allocOk: bool,         // devm_kzalloc of the session
    hasOfNode: bool,       // client->dev.of_node != NULL
    rstValid: bool,        // gpio_is_valid(of_get_named_gpio(np, "goodix_rst", 0))
    rstRequest: int,       // gpio_request(gpio_rst, ...)
    intValid: bool,        // gpio_is_valid(of_get_named_gpio(np, "goodix_int", 0))
    intRequest: int,       // gpio_request(gpio_int, ...)
    inputAllocOk: bool,    // devm_input_allocate_device
    inputRegister: int,    // input_register_device
    irqRequest: int)       // request_any_context_irq

  class Client {
    const board: Board
    /** The answer to the n-th bus transaction. */
    const answer: nat -> Xfer
    /** How many bus transactions have been answered. */
    var served: nat
    var trace: seq<Action>
    var irqEnabled: bool

    constructor (board: Board, answer: nat -> Xfer)
      ensures this.board == board && this.answer == answer
      ensures served == 0 && trace == [] && !irqEnabled
    {
      this.board := board;
      this.answer := answer;
      served := 0;
      trace := [];
      irqEnabled := false;
    }

    /** i2c_transfer of a register-address write followed by a read of `len`
        bytes into buf[off..off + len]. */
    method Transfer(addr: seq<byte>, buf: array<byte>, off: nat, len: nat) returns (ret: int)
      requires off + len <= buf.Length
      modifies this`served, this`trace, buf
      ensures ret == answer(old(served)).ret
      ensures served == old(served) + 1
      ensures trace == old(trace) + [BusRead(addr, len)]
      ensures buf[..off] == old(buf[..off]) && buf[off + len..] == old(buf[off + len..])
      ensures buf[off..off + len] == Take(answer(old(served)).bytes, len)
    {
      var x := answer(served);
      forall i | off <= i < off + len {
        buf[i] := x.bytes(i - off);
      }
      ret := x.ret;
      served := served + 1;
      trace := trace + [BusRead(addr, len)];
    }

    /** i2c_master_send. */
    method MasterSend(bytes: seq<byte>) returns (ret: int)
      modifies this`served, this`trace
      ensures ret == answer(old(served)).ret
      ensures served == old(served) + 1
      ensures trace == old(trace) + [BusSend(bytes)]
    {
      ret := answer(served).ret;
      served := served + 1;
      trace := trace + [BusSend(bytes)];
    }

    method DisableIrq()
      modifies this`trace, this`irqEnabled
      ensures !irqEnabled
      ensures trace == old(trace) + [IrqDisable]
    {
      irqEnabled := false;
      trace := trace + [IrqDisable];
    }

    method EnableIrq()
      modifies this`trace, this`irqEnabled
      ensures irqEnabled
      ensures trace == old(trace) + [IrqEnable]
    {
      irqEnabled := true;
      trace := trace + [IrqEnable];
    }

    /** A call whose only effect the model keeps is its place in the trace. */
    method Log(a: Action)
      modifies this`trace
      ensures trace == old(trace) + [a]
    {
      trace := trace + [a];
    }

    method RequestGpio(line: Line) returns (ret: int)
      modifies this`trace
      ensures ret == if line == ResetLine then board.rstRequest else board.intRequest
      ensures trace == old(trace) + [GpioRequest(line)]
    {
      ret := if line == ResetLine then board.rstRequest else board.intRequest;
      trace := trace + [GpioRequest(line)];
    }

    /** request_any_context_irq: a non-negative result installs the handler
        with the line enabled. */
    method RequestIrq(flags: IrqFlags) returns (ret: int)
      modifies this`trace, this`irqEnabled
      ensures ret == board.irqRequest
      ensures irqEnabled == (old(irqEnabled) || ret >= 0)
      ensures trace == old(trace) + [Action.RequestIrq(flags)]
    {
      ret := board.irqRequest;
      if ret >= 0 {
        irqEnabled := true;
      }
      trace := trace + [Action.RequestIrq(flags)];
    }
  }
}
