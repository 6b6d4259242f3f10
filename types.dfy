/** The values the Modbus slave's dispatch engine works on: frames, exceptions,
    requests, handler identities and the four memory banks. Frame encoding, the
    transports and the concrete function handlers live outside server.go; here
    they are abstract values. */
module ModbusTypes {

  datatype Option<+T> = None | Some(value: T)

  type byte = b: int | 0 <= b < 0x100
  type uint16 = w: int | 0 <= w < 0x1_0000

  /** Number of cells in each memory bank: one per 16-bit Modbus address.
      The constant is declared outside server.go; its value is taken as 65536. */
  const MaxRegisterSize: nat := 0x1_0000

  // Public function codes, section 6 of the Modbus Application Protocol
  // Specification V1.1b3 (sections 6.1 to 6.6, 6.11 and 6.12).
  const ReadCoilsFC: byte := 1
  const ReadDiscreteInputsFC: byte := 2
  const ReadHoldingRegistersFC: byte := 3
  const ReadInputRegistersFC: byte := 4
  const WriteSingleCoilFC: byte := 5
  const WriteHoldingRegisterFC: byte := 6
  const WriteMultipleCoilsFC: byte := 15
  const WriteHoldingRegistersFC: byte := 16

  /** The codes that get a handler when a server is built. */
  const StandardCodes: set<byte> := {
    ReadCoilsFC, ReadDiscreteInputsFC, ReadHoldingRegistersFC, ReadInputRegistersFC,
    WriteSingleCoilFC, WriteHoldingRegisterFC, WriteMultipleCoilsFC, WriteHoldingRegistersFC
  }

  /** An exception as a handler hands it back. The Go code returns exception
      pointers and compares them by identity with the address of the package
      variable Success, so only that one distinguished value means "no failure":
      a nil pointer (NoException) or any other exception value (Raised, even one
      whose code is 0) is attached to the response. IllegalFunction is
      exception code 01 of section 7 of the Modbus Application Protocol
      Specification. */
  datatype Exception =
    | Success
    | IllegalFunction
    | Raised(code: byte)
    | NoException

  /** A decoded protocol frame, seen through the accessors the engine uses. */
  datatype Frame = Frame(code: byte, slaveId: byte, data: seq<byte>, exception: Option<Exception>)
  {
    /** The response shell: same function code, slave id, data and exception. */
    function Copy(): Frame { this }

    function SetData(d: seq<byte>): Frame { this.(data := d) }

    function SetException(e: Exception): Frame { this.(exception := Some(e)) }
  }

  /** The connection a request arrived on; only its identity matters here. */
  datatype Conn = Conn(id: nat)

  /** A decoded frame paired with the connection it came from. */
  datatype Request = Request(conn: Conn, frame: Frame)

  /** One write of a response onto a connection (the bytes are the response's encoding). */
  datatype Write = Write(conn: Conn, response: Frame)

  /** Which function handler sits in a slot of the dispatch table: the eight
      default handlers, or one installed by the user. */
  datatype Handler =
    | ReadCoils
    | ReadDiscreteInputs
    | ReadHoldingRegisters
    | ReadInputRegisters
    | WriteSingleCoil
    | WriteHoldingRegister
    | WriteMultipleCoils
    | WriteHoldingRegisters
    | Custom(id: nat)

  /** The four memory banks of a server. */
  datatype Memory = Memory(
    discreteInputs: seq<byte>,
    coils: seq<byte>,
    holdingRegisters: seq<uint16>,
    inputRegisters: seq<uint16>)
  {
    /** Every bank has the capacity it was allocated with. */
    predicate WellSized() {
      && |discreteInputs| == MaxRegisterSize
      && |coils| == MaxRegisterSize
      && |holdingRegisters| == MaxRegisterSize
      && |inputRegisters| == MaxRegisterSize
    }
  }

  /** What one handler call produces: response data, an exception, and the
      memory banks as the handler leaves them. */
  datatype Outcome = Outcome(data: seq<byte>, exception: Exception, memory: Memory)

  /** The behaviour of the handlers, which are not part of this model: given a
      handler, the server's memory and the request frame, what it returns. */
  type Behaviour = (Handler, Memory, Frame) -> Outcome

  /** The memory a freshly built server holds. */
  function ZeroMemory(): (m: Memory)
    ensures m.WellSized()
    ensures forall i :: 0 <= i < MaxRegisterSize ==> m.discreteInputs[i] == 0 && m.coils[i] == 0
    ensures forall i :: 0 <= i < MaxRegisterSize ==> m.holdingRegisters[i] == 0 && m.inputRegisters[i] == 0
  {
    Memory(seq(MaxRegisterSize, _ => 0), seq(MaxRegisterSize, _ => 0),
           seq(MaxRegisterSize, _ => 0), seq(MaxRegisterSize, _ => 0))
  }
}
