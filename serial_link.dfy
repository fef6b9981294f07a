/** The boundary of the serial-port library (jssc) as the core sees it: the
    events a listener is handed, the port objects, and the command bytes the
    host writes to the device. */
module SerialLink {
  import opened Wrappers
  import opened JavaLang

  /** An event delivered to a SerialPortEventListener. Received is an RXCHAR
      or RXFLAG event together with what the listener's
      port.readBytes(event.getEventValue()) handed back: the bytes, or None
      when it raised SerialPortException. Other is any other event kind. */
  datatype PortEvent = Received(read: Option<seq<byte>>) | Other

  /** A SerialPort object, known by the name it was created with. */
  datatype SerialPort = SerialPort(name: Option<string>)

  /** Host-to-device command bytes. */
  const DISCOVERY_COMMAND: byte := 0x44
  const READY_COMMAND: byte := 0x52
  const QUIT_COMMAND: byte := 0x51
}
