/** Numbers of the Modbus protocol shared by its serial and its TCP form (lib/modbus/modbus_defines.h). */
module Modbus {
  import opened Words

  const READ_HOLDING: byte := 0x03
  const WRITE_SINGLE: byte := 0x06
  const WRITE_MULTIPLE: byte := 0x10
  const EXCEPTION_FLAG: byte := 0x80

  const MAX_READ := 125
  const MAX_WRITE := 123
}
