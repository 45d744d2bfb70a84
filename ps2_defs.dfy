/** The i8042 controller's constants (device-srv/ps2.h): status flags,
    controller commands, configuration flags and register offsets. */
module Ps2Defs {
  type byte = bv8

  /* `Status`: the bits of the status register. */
  const OUT_BUF: byte := 0x01
  const IN_BUF: byte := 0x02
  const SYS: byte := 0x04
  const CMD_DATA: byte := 0x08
  const KEY_LOCK: byte := 0x10
  const AUX_BUF: byte := 0x20
  const TIMEOUT: byte := 0x40
  const PARITY: byte := 0x80

  /** The status flags in declaration order. */
  const STATUS_FLAGS: seq<byte> := [OUT_BUF, IN_BUF, SYS, CMD_DATA, KEY_LOCK, AUX_BUF, TIMEOUT, PARITY]

  /** `Flags::has`: every bit of `flag` is set in `value`. */
  predicate Has(value: byte, flag: byte)
  {
    value & flag == flag
  }

  /* `Cmd`: controller commands, written to the command register. */
  const READ_CONFIG: byte := 0x20
  const WRITE_CONFIG: byte := 0x60
  const DISABLE_AUX: byte := 0xA7
  const ENABLE_AUX: byte := 0xA8
  const TEST_AUX: byte := 0xA9
  const TEST_CONTROLLER: byte := 0xAA
  const TEST_MAIN: byte := 0xAB
  const DISABLE_MAIN: byte := 0xAD
  const ENABLE_MAIN: byte := 0xAE

  /* `Configs`: bits of the controller configuration byte. */
  const FIRST_PORT_INTERRUPT_ENABLE: byte := 0x01
  const SECOND_PORT_INTERRUPT_ENABLE: byte := 0x02
  const FIRST_PORT_CLOCK_DISABLE: byte := 0x10
  const SECOND_PORT_CLOCK_DISABLE: byte := 0x20
  const FIRST_TRANSLATION: byte := 0x40

  /** The controller's registers. */
  datatype Reg = DataReg | StatusReg | CmdReg

  /** Each register's offset in the controller's I/O window: data at 0,
      status (read) and command (write) sharing 4. */
  function Offset(r: Reg): (off: nat)
    ensures r == DataReg <==> off == 0
    ensures r != DataReg <==> off == 4
  {
    match r
    case DataReg => 0
    case StatusReg => 4
    case CmdReg => 4
  }

  /** Bit `i` of a byte. */
  function Bit(i: nat): byte
    requires i < 8
  {
    (1 as byte) << i
  }

  /** Flag `i` of `Status` is bit `i`, so the eight flags are distinct
      single bits and `Has` on one of them tests exactly that bit. */
  lemma {:induction false} StatusFlagsAreBits(i: nat, j: nat, v: byte)
    requires i < 8 && j < 8
    ensures STATUS_FLAGS[i] == Bit(i)
    ensures i != j ==> STATUS_FLAGS[i] != STATUS_FLAGS[j] && STATUS_FLAGS[i] & STATUS_FLAGS[j] == 0
    ensures Has(v, STATUS_FLAGS[i]) <==> v & Bit(i) != 0
  {
    if i == 0 { assert Bit(0) == 0x01; }
    else if i == 1 { assert Bit(1) == 0x02; }
    else if i == 2 { assert Bit(2) == 0x04; }
    else if i == 3 { assert Bit(3) == 0x08; }
    else if i == 4 { assert Bit(4) == 0x10; }
    else if i == 5 { assert Bit(5) == 0x20; }
    else if i == 6 { assert Bit(6) == 0x40; }
    else { assert Bit(7) == 0x80; }
  }

  /** Setting an interrupt-enable bit keeps every other configuration bit
      and makes `Has` hold for it. */
  lemma SetConfigBit(cfg: byte, flag: byte)
    requires flag == FIRST_PORT_INTERRUPT_ENABLE || flag == SECOND_PORT_INTERRUPT_ENABLE
    ensures Has(cfg | flag, flag)
    ensures (cfg | flag) & !flag == cfg & !flag
  {
  }
}
