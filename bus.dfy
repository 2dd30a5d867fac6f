/** goodix_i2c_read and the register map it is used with. */
module Bus {
  import opened Wire
  import opened Platform

  // register addresses
  const ReadCoorAddr: u16 := 0x814E
  const RegConfigData: u16 := 0x8047
  const RegVersion: u16 := 0x8140

  /** ARRAY_SIZE(msgs): the address write and the data read. */
  const ReadMsgCount := 2

  /** The value goodix_i2c_read makes of what i2c_transfer returned: a
      negative error passes through, both messages transferred is success,
      any other count is an I/O error. It is never positive. */
  function ReadResult(ret: int): (err: int)
    ensures err <= 0
    ensures err == 0 <==> ret == ReadMsgCount
    ensures ret < 0 ==> err == ret
    ensures 0 <= ret && ret != ReadMsgCount ==> err == -EIO
  {
    if ret < 0 then ret else if ret != ReadMsgCount then -EIO else 0
  }

  /** Reads `len` bytes of register `reg` into buf[off..off + len]; the
      caller's address `buf + off` is the pair (buf, off). */
  method I2cRead(client: Client, reg: u16, buf: array<byte>, off: nat, len: nat) returns (err: int)
    requires off + len <= buf.Length
    modifies client`served, client`trace, buf
    ensures err == ReadResult(client.answer(old(client.served)).ret)
    ensures client.served == old(client.served) + 1
    ensures client.trace == old(client.trace) + [BusRead(Be16(reg), len)]
    ensures buf[..off] == old(buf[..off]) && buf[off + len..] == old(buf[off + len..])
    ensures buf[off..off + len] == Take(client.answer(old(client.served)).bytes, len)
  {
    var wbuf := Be16(reg);
    var ret := client.Transfer(wbuf, buf, off, len);
    err := ReadResult(ret);
  }

  /** What one bring-up step returned, what it did, and how many bus
      answers it consumed. */
  datatype Step = Step(err: int, trace: seq<Action>, used: nat)
}
