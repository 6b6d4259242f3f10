/** The dispatch rules of the Modbus slave as functions: the 256-slot function
    table, the response built for one request, and the run of the worker over
    a queue of requests. The class in server.dfy is proved against these. */
module Dispatch {
  import opened ModbusTypes

  /** The function table: one slot per function code. */
  type Table = t: seq<Option<Handler>> | |t| == 0x100 witness EmptyTable()

  function EmptyTable(): seq<Option<Handler>> { seq(0x100, _ => None) }

  /** The table a new server starts with. */
  function DefaultTable(): (t: Table)
    ensures t[ReadCoilsFC] == Some(ReadCoils)
    ensures t[ReadDiscreteInputsFC] == Some(ReadDiscreteInputs)
    ensures t[ReadHoldingRegistersFC] == Some(ReadHoldingRegisters)
    ensures t[ReadInputRegistersFC] == Some(ReadInputRegisters)
    ensures t[WriteSingleCoilFC] == Some(WriteSingleCoil)
    ensures t[WriteHoldingRegisterFC] == Some(WriteHoldingRegister)
    ensures t[WriteMultipleCoilsFC] == Some(WriteMultipleCoils)
    ensures t[WriteHoldingRegistersFC] == Some(WriteHoldingRegisters)
    ensures forall c: byte :: t[c].Some? <==> c in StandardCodes
  {
    EmptyTable()
      [ReadCoilsFC := Some(ReadCoils)]
      [ReadDiscreteInputsFC := Some(ReadDiscreteInputs)]
      [ReadHoldingRegistersFC := Some(ReadHoldingRegisters)]
      [ReadInputRegistersFC := Some(ReadInputRegisters)]
      [WriteSingleCoilFC := Some(WriteSingleCoil)]
      [WriteHoldingRegisterFC := Some(WriteHoldingRegister)]
      [WriteMultipleCoilsFC := Some(WriteMultipleCoils)]
      [WriteHoldingRegistersFC := Some(WriteHoldingRegisters)]
  }

  /** Registering a handler (or none) for a code: that slot, and only that slot, changes. */
  function Install(t: Table, code: byte, h: Option<Handler>): (r: Table)
    ensures r[code] == h
    ensures forall c: byte :: c != code ==> r[c] == t[c]
  {
    t[code := h]
  }

  /** The response to one request addressed to this server, and the memory afterwards. */
  datatype Step = Step(response: Frame, memory: Memory)

  function Respond(t: Table, frame: Frame, mem: Memory, behave: Behaviour): (r: Step)
    // the response is a copy of the request: it answers the same function and slave id
    ensures r.response.code == frame.code && r.response.slaveId == frame.slaveId
    // no handler: IllegalFunction is attached, the data and the memory stay as they were
    ensures t[frame.code].None? ==>
      && r.response == frame.(exception := Some(IllegalFunction))
      && r.memory == mem
    // a handler: its data always goes into the response, its memory effect is kept,
    // and its exception is attached unless it is Success
    ensures t[frame.code].Some? ==>
      var out := behave(t[frame.code].value, mem, frame);
      && r.response.data == out.data
      && r.memory == out.memory
      && r.response.exception == (if out.exception == Success then frame.exception else Some(out.exception))
  {
    match t[frame.code]
    case None => Step(frame.Copy().SetException(IllegalFunction), mem)
    case Some(h) =>
      var out := behave(h, mem, frame);
      var response := frame.Copy().SetData(out.data);
      Step(if out.exception == Success then response else response.SetException(out.exception), out.memory)
  }

  /** The requests the server answers, in arrival order. */
  function Addressed(slaveId: byte, reqs: seq<Request>): (r: seq<Request>)
    ensures |r| <= |reqs|
    ensures forall q :: q in r ==> q in reqs && q.frame.slaveId == slaveId
  {
    if reqs == [] then []
    else if reqs[0].frame.slaveId == slaveId then [reqs[0]] + Addressed(slaveId, reqs[1..])
    else Addressed(slaveId, reqs[1..])
  }

  /** The filter keeps arrival order: filtering a + b is filtering a, then b. */
  lemma {:induction false} AddressedConcat(slaveId: byte, a: seq<Request>, b: seq<Request>)
    ensures Addressed(slaveId, a + b) == Addressed(slaveId, a) + Addressed(slaveId, b)
    decreases |a|
  {
    if a == [] {
      assert a + b == b;
    } else {
      assert (a + b)[0] == a[0] && (a + b)[1..] == a[1..] + b;
      AddressedConcat(slaveId, a[1..], b);
      if a[0].frame.slaveId == slaveId {
        assert [a[0]] + (Addressed(slaveId, a[1..]) + Addressed(slaveId, b))
            == ([a[0]] + Addressed(slaveId, a[1..])) + Addressed(slaveId, b);
      }
    }
  }

  /** The filter drops nothing addressed to the server: every such request is
      kept as many times as it was queued, and every other one is dropped. */
  lemma {:induction false} AddressedCount(slaveId: byte, reqs: seq<Request>)
    ensures forall q ::
      multiset(Addressed(slaveId, reqs))[q] == (if q.frame.slaveId == slaveId then multiset(reqs)[q] else 0)
    decreases |reqs|
  {
    if reqs != [] {
      AddressedCount(slaveId, reqs[1..]);
      assert reqs == [reqs[0]] + reqs[1..];
      assert multiset(reqs) == multiset{reqs[0]} + multiset(reqs[1..]);
      if reqs[0].frame.slaveId == slaveId {
        assert multiset(Addressed(slaveId, reqs)) == multiset{reqs[0]} + multiset(Addressed(slaveId, reqs[1..]));
      }
    }
  }

  /** What the worker writes, and the memory it leaves, after taking the requests in order. */
  datatype Trace = Trace(writes: seq<Write>, memory: Memory)

  function Run(t: Table, slaveId: byte, mem: Memory, reqs: seq<Request>, behave: Behaviour): (r: Trace)
    ensures |r.writes| <= |reqs|
    decreases |reqs|
  {
    if reqs == [] then Trace([], mem)
    else if reqs[0].frame.slaveId != slaveId then Run(t, slaveId, mem, reqs[1..], behave)
    else
      var step := Respond(t, reqs[0].frame, mem, behave);
      var rest := Run(t, slaveId, step.memory, reqs[1..], behave);
      Trace([Write(reqs[0].conn, step.response)] + rest.writes, rest.memory)
  }

  /** Exactly one of three outcomes for a request frame that carries no
      exception: no handler (IllegalFunction attached), a handler that
      reported Success (nothing attached), or a handler that reported anything
      else (that exception attached). */
  lemma ExceptionAttachedIff(t: Table, frame: Frame, mem: Memory, behave: Behaviour)
    requires frame.exception.None?
    ensures var r := Respond(t, frame, mem, behave);
      && (r.response.exception.Some? <==>
            t[frame.code].None? || behave(t[frame.code].value, mem, frame).exception != Success)
      && (t[frame.code].None? ==> r.response.exception == Some(IllegalFunction))
      && (t[frame.code].Some? && r.response.exception.Some? ==>
            r.response.exception == Some(behave(t[frame.code].value, mem, frame).exception))
  {
  }

  /** A handler registered for a code is the one a request with that code
      reaches, whether or not it replaced a default handler. */
  lemma InstallThenRespond(t: Table, code: byte, h: Handler, frame: Frame, mem: Memory, behave: Behaviour)
    requires frame.code == code
    ensures var r := Respond(Install(t, code, Some(h)), frame, mem, behave);
      && r.response.data == behave(h, mem, frame).data
      && r.memory == behave(h, mem, frame).memory
      && r.response.exception ==
           (if behave(h, mem, frame).exception == Success then frame.exception
            else Some(behave(h, mem, frame).exception))
  {
  }

  /** A code with no default handler, such as 0x55, is answered with
      IllegalFunction and leaves the memory alone. */
  lemma DefaultRejectsNonStandard(frame: Frame, mem: Memory, behave: Behaviour)
    requires frame.code !in StandardCodes
    ensures Respond(DefaultTable(), frame, mem, behave) == Step(frame.(exception := Some(IllegalFunction)), mem)
  {
  }

  /** One request addressed to the server: exactly one write, on its own
      connection, holding the response Respond builds for it. */
  lemma RunSingle(t: Table, slaveId: byte, mem: Memory, q: Request, behave: Behaviour)
    requires q.frame.slaveId == slaveId
    ensures var step := Respond(t, q.frame, mem, behave);
      Run(t, slaveId, mem, [q], behave) == Trace([Write(q.conn, step.response)], step.memory)
  {
  }

  /** Requests for another slave id make no difference to the run. */
  lemma {:induction false} RunIgnoresForeign(t: Table, slaveId: byte, mem: Memory, reqs: seq<Request>, behave: Behaviour)
    ensures Run(t, slaveId, mem, reqs, behave) == Run(t, slaveId, mem, Addressed(slaveId, reqs), behave)
    decreases |reqs|
  {
    if reqs != [] {
      var rest := reqs[1..];
      if reqs[0].frame.slaveId == slaveId {
        var step := Respond(t, reqs[0].frame, mem, behave);
        RunIgnoresForeign(t, slaveId, step.memory, rest, behave);
        var a := Addressed(slaveId, reqs);
        assert a[0] == reqs[0] && a[1..] == Addressed(slaveId, rest);
      } else {
        RunIgnoresForeign(t, slaveId, mem, rest, behave);
      }
    }
  }

  /** Requests none of which is addressed to the server produce no write and
      leave the memory unchanged. */
  lemma {:induction false} RunAllForeign(t: Table, slaveId: byte, mem: Memory, reqs: seq<Request>, behave: Behaviour)
    requires forall q :: q in reqs ==> q.frame.slaveId != slaveId
    ensures Run(t, slaveId, mem, reqs, behave) == Trace([], mem)
    decreases |reqs|
  {
    if reqs != [] {
      assert reqs[0] in reqs;
      forall q | q in reqs[1..] ensures q.frame.slaveId != slaveId {
        assert q in reqs;
      }
      RunAllForeign(t, slaveId, mem, reqs[1..], behave);
    }
  }

  /** One turn of the worker on a non-empty queue, as Run takes it. */
  lemma RunStep(t: Table, slaveId: byte, mem: Memory, reqs: seq<Request>, behave: Behaviour)
    requires reqs != []
    ensures Run(t, slaveId, mem, reqs, behave) ==
      if reqs[0].frame.slaveId != slaveId then Run(t, slaveId, mem, reqs[1..], behave)
      else
        var step := Respond(t, reqs[0].frame, mem, behave);
        var rest := Run(t, slaveId, step.memory, reqs[1..], behave);
        Trace([Write(reqs[0].conn, step.response)] + rest.writes, rest.memory)
  {
  }

  /** Taking a queue a + b is taking a, then taking b from the memory a left:
      every request is applied whole, in arrival order, never interleaved. */
  lemma {:induction false} RunConcat(t: Table, slaveId: byte, mem: Memory, a: seq<Request>, b: seq<Request>, behave: Behaviour)
    ensures var ra := Run(t, slaveId, mem, a, behave);
      var rb := Run(t, slaveId, ra.memory, b, behave);
      Run(t, slaveId, mem, a + b, behave) == Trace(ra.writes + rb.writes, rb.memory)
    decreases |a|, 1
  {
    if a == [] {
      assert a + b == b;
    } else if a[0].frame.slaveId == slaveId {
      RunConcatAddressed(t, slaveId, mem, a, b, behave);
    } else {
      RunConcatForeign(t, slaveId, mem, a, b, behave);
    }
  }

  /** RunConcat when the first request of a is answered. */
  lemma {:induction false} RunConcatAddressed(t: Table, slaveId: byte, mem: Memory, a: seq<Request>, b: seq<Request>, behave: Behaviour)
    requires a != [] && a[0].frame.slaveId == slaveId
    ensures var ra := Run(t, slaveId, mem, a, behave);
      var rb := Run(t, slaveId, ra.memory, b, behave);
      Run(t, slaveId, mem, a + b, behave) == Trace(ra.writes + rb.writes, rb.memory)
    decreases |a|, 0
  {
    var ab := a + b;
    assert ab[0] == a[0] && ab[1..] == a[1..] + b;
    RunStep(t, slaveId, mem, a, behave);
    RunStep(t, slaveId, mem, ab, behave);
    var step := Respond(t, a[0].frame, mem, behave);
    var w := Write(a[0].conn, step.response);
    var ra' := Run(t, slaveId, step.memory, a[1..], behave);
    var rb := Run(t, slaveId, ra'.memory, b, behave);
    RunConcat(t, slaveId, step.memory, a[1..], b, behave);
    var ra := Run(t, slaveId, mem, a, behave);
    assert ra == Trace([w] + ra'.writes, ra'.memory);
    assert Run(t, slaveId, step.memory, ab[1..], behave) == Trace(ra'.writes + rb.writes, rb.memory);
    assert Run(t, slaveId, mem, ab, behave) == Trace([w] + (ra'.writes + rb.writes), rb.memory);
    assert [w] + (ra'.writes + rb.writes) == ra.writes + rb.writes;
  }

  /** RunConcat when the first request of a is for another slave id. */
  lemma {:induction false} RunConcatForeign(t: Table, slaveId: byte, mem: Memory, a: seq<Request>, b: seq<Request>, behave: Behaviour)
    requires a != [] && a[0].frame.slaveId != slaveId
    ensures var ra := Run(t, slaveId, mem, a, behave);
      var rb := Run(t, slaveId, ra.memory, b, behave);
      Run(t, slaveId, mem, a + b, behave) == Trace(ra.writes + rb.writes, rb.memory)
    decreases |a|, 0
  {
    var ab := a + b;
    assert ab[0] == a[0] && ab[1..] == a[1..] + b;
    RunStep(t, slaveId, mem, a, behave);
    RunStep(t, slaveId, mem, ab, behave);
    RunConcat(t, slaveId, mem, a[1..], b, behave);
  }

  /** Exactly one write per addressed request, in order: the k-th write goes
      to the connection of the k-th addressed request and answers that
      request's function code with the server's own slave id. */
  lemma {:induction false} RunWritesFollowRequests(t: Table, slaveId: byte, mem: Memory, reqs: seq<Request>, behave: Behaviour)
    ensures |Run(t, slaveId, mem, reqs, behave).writes| == |Addressed(slaveId, reqs)|
    ensures forall k :: 0 <= k < |Run(t, slaveId, mem, reqs, behave).writes| ==>
      && Run(t, slaveId, mem, reqs, behave).writes[k].conn == Addressed(slaveId, reqs)[k].conn
      && Run(t, slaveId, mem, reqs, behave).writes[k].response.code == Addressed(slaveId, reqs)[k].frame.code
      && Run(t, slaveId, mem, reqs, behave).writes[k].response.slaveId == slaveId
    decreases |reqs|
  {
    if reqs != [] {
      var w := Run(t, slaveId, mem, reqs, behave).writes;
      var a := Addressed(slaveId, reqs);
      if reqs[0].frame.slaveId == slaveId {
        var step := Respond(t, reqs[0].frame, mem, behave);
        var rest := Run(t, slaveId, step.memory, reqs[1..], behave).writes;
        var restA := Addressed(slaveId, reqs[1..]);
        RunWritesFollowRequests(t, slaveId, step.memory, reqs[1..], behave);
        assert w == [Write(reqs[0].conn, step.response)] + rest;
        assert a == [reqs[0]] + restA;
        forall k | 0 < k < |w|
          ensures w[k].conn == a[k].conn && w[k].response.code == a[k].frame.code && w[k].response.slaveId == slaveId
        {
          assert w[k] == rest[k - 1] && a[k] == restA[k - 1];
        }
      } else {
        RunWritesFollowRequests(t, slaveId, mem, reqs[1..], behave);
        assert w == Run(t, slaveId, mem, reqs[1..], behave).writes;
        assert a == Addressed(slaveId, reqs[1..]);
      }
    }
  }

  /** Handlers that keep every bank at its capacity. */
  ghost predicate KeepsSizes(behave: Behaviour) {
    forall h: Handler, m: Memory, f: Frame :: m.WellSized() ==> behave(h, m, f).memory.WellSized()
  }

  /** The banks keep their capacity through a run when the handlers do. */
  lemma {:induction false} RunKeepsSizes(t: Table, slaveId: byte, mem: Memory, reqs: seq<Request>, behave: Behaviour)
    requires KeepsSizes(behave) && mem.WellSized()
    ensures Run(t, slaveId, mem, reqs, behave).memory.WellSized()
    decreases |reqs|
  {
    if reqs != [] {
      if reqs[0].frame.slaveId == slaveId {
        var step := Respond(t, reqs[0].frame, mem, behave);
        RunKeepsSizes(t, slaveId, step.memory, reqs[1..], behave);
      } else {
        RunKeepsSizes(t, slaveId, mem, reqs[1..], behave);
      }
    }
  }
}
