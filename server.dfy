/** The Modbus slave of server.go: its state, its construction, handler
    registration, the response to one request, and the worker that takes
    requests one at a time. Each operation is proved against the functions of
    module Dispatch. */
module Mbserver {
  import opened ModbusTypes
  import opened Dispatch

  class Server {
    /** The slave id this server answers to. */
    const slaveId: byte
    /** The function table, indexed by function code. */
    const table: array<Option<Handler>>
    // The memory banks.
    var discreteInputs: seq<byte>
    var coils: seq<byte>
    var holdingRegisters: seq<uint16>
    var inputRegisters: seq<uint16>

    ghost predicate Valid()
      reads this
    {
      table.Length == 0x100
    }

    /** The function table as a value. */
    ghost function Handlers(): Table
      reads this, table
      requires Valid()
    {
      table[..]
    }

    /** The four memory banks as a value. */
    function Banks(): Memory
      reads this
    {
      Memory(discreteInputs, coils, holdingRegisters, inputRegisters)
    }

    /** NewServerWithSlaveId: zeroed banks of full capacity and the eight
        default handlers, every other slot empty. */
    constructor (slaveId: byte)
      ensures Valid() && fresh(table)
      ensures this.slaveId == slaveId
      ensures Handlers() == DefaultTable()
      ensures Banks() == ZeroMemory()
    {
      this.slaveId := slaveId;
      discreteInputs := seq(MaxRegisterSize, _ => 0);
      coils := seq(MaxRegisterSize, _ => 0);
      holdingRegisters := seq(MaxRegisterSize, _ => 0);
      inputRegisters := seq(MaxRegisterSize, _ => 0);
      var t := new Option<Handler>[0x100](_ => None);
      t[ReadCoilsFC] := Some(ReadCoils);
      t[ReadDiscreteInputsFC] := Some(ReadDiscreteInputs);
      t[ReadHoldingRegistersFC] := Some(ReadHoldingRegisters);
      t[ReadInputRegistersFC] := Some(ReadInputRegisters);
      t[WriteSingleCoilFC] := Some(WriteSingleCoil);
      t[WriteHoldingRegisterFC] := Some(WriteHoldingRegister);
      t[WriteMultipleCoilsFC] := Some(WriteMultipleCoils);
      t[WriteHoldingRegistersFC] := Some(WriteHoldingRegisters);
      table := t;
    }

    /** Puts h (or no handler) in slot code, replacing whatever was there;
        the other slots, the slave id and the banks do not change. */
    method RegisterFunctionHandler(code: byte, h: Option<Handler>)
      requires Valid()
      modifies table
      ensures Valid()
      ensures Handlers() == Install(old(Handlers()), code, h)
      ensures unchanged(this)
    {
      table[code] := h;
    }

    /** The response to one request: a copy of the request frame, with the
        handler's data, and with the exception attached unless it is Success.
        The handler may change the banks. */
    method Handle(request: Request, behave: Behaviour) returns (response: Frame)
      requires Valid()
      modifies this
      ensures Valid()
      ensures Handlers() == old(Handlers())
      ensures var step := Respond(Handlers(), request.frame, old(Banks()), behave);
        response == step.response && Banks() == step.memory
    {
      var exception: Exception;
      response := request.frame.Copy();
      var code := request.frame.code;
      var slot := table[code];
      if slot.Some? {
        var out := behave(slot.value, Banks(), request.frame);
        exception := out.exception;
        discreteInputs, coils := out.memory.discreteInputs, out.memory.coils;
        holdingRegisters, inputRegisters := out.memory.holdingRegisters, out.memory.inputRegisters;
        response := response.SetData(out.data);
      } else {
        exception := IllegalFunction;
      }
      if exception != Success {
        response := response.SetException(exception);
      }
    }

    /** One turn of the worker: a frame for another slave id is dropped and
        changes nothing; any other gets exactly one write, on its own connection. */
    method Process(request: Request, behave: Behaviour) returns (written: Option<Write>)
      requires Valid()
      modifies this
      ensures Valid()
      ensures Handlers() == old(Handlers())
      ensures request.frame.slaveId != slaveId ==> written == None && unchanged(this)
      ensures request.frame.slaveId == slaveId ==>
        var step := Respond(Handlers(), request.frame, old(Banks()), behave);
        written == Some(Write(request.conn, step.response)) && Banks() == step.memory
    {
      if request.frame.slaveId != slaveId {
        return None;
      }
      var response := Handle(request, behave);
      written := Some(Write(request.conn, response));
    }

    /** The worker loop over a queue of requests, taken in arrival order:
        the writes and the final banks are those of Run. */
    method Serve(requests: seq<Request>, behave: Behaviour) returns (writes: seq<Write>)
      requires Valid()
      modifies this
      ensures Valid()
      ensures Handlers() == old(Handlers())
      ensures var trace := Run(Handlers(), slaveId, old(Banks()), requests, behave);
        writes == trace.writes && Banks() == trace.memory
    {
      writes := [];
      var i := 0;
      while i < |requests|
        invariant 0 <= i <= |requests|
        invariant Handlers() == old(Handlers())
        invariant var rest := Run(Handlers(), slaveId, Banks(), requests[i..], behave);
          var total := Run(Handlers(), slaveId, old(Banks()), requests, behave);
          total.writes == writes + rest.writes && total.memory == rest.memory
      {
        assert requests[i..][0] == requests[i] && requests[i..][1..] == requests[i + 1..];
        RunStep(Handlers(), slaveId, Banks(), requests[i..], behave);
        var written := Process(requests[i], behave);
        if written.Some? {
          writes := writes + [written.value];
        }
        i := i + 1;
      }
    }
  }

  /** NewServer: a server with slave id 1. */
  method NewServer() returns (s: Server)
    ensures fresh(s) && fresh(s.table) && s.Valid()
    ensures s.slaveId == 1
    ensures s.Handlers() == DefaultTable()
    ensures s.Banks() == ZeroMemory()
  {
    s := new Server(1);
  }
}
