# Modbus slave dispatch engine

A Dafny model of the request-dispatch core of a Go Modbus server (slave),
`server.go`. A server holds a slave id, four memory banks (discrete inputs,
coils, holding registers, input registers) and a 256-slot function table
indexed by Modbus function code. Construction installs the eight default
handlers for the public function codes 1, 2, 3, 4, 5, 6, 15 and 16 of the
Modbus Application Protocol Specification V1.1b3 (sections 6.1 to 6.6,
6.11 and 6.12).
`RegisterFunctionHandler` replaces one slot. A single worker takes requests
in arrival order. It drops every frame addressed to another slave id. For
each other frame it writes exactly one response on that request's own
connection. The response is a copy of the request frame. It carries the
handler's data, and the handler's exception unless that exception is the
distinguished `Success` value. A function code with no handler is answered
with IllegalFunction (exception code 01, section 7 of the same specification).

Files:

- `types.dfy` (module `ModbusTypes`): bytes and 16-bit words, the function
  code constants, `Exception`, `Frame`, `Request`, `Write`, handler
  identities, the `Memory` of four banks, and `Behaviour`. `Behaviour` is the
  handlers' effect, passed in as a function value.
- `dispatch.dfy` (module `Dispatch`): the specification as functions. It
  holds the table type, `DefaultTable`, `Install`, `Respond` (one request),
  `Addressed` (the frames the server answers) and `Run` (the worker over a
  queue), with the lemmas about them.
- `server.dfy` (module `Mbserver`): the `Server` class. The table is a
  256-element array updated in place, and the banks are fields. The
  constructor, `NewServer`, `RegisterFunctionHandler`, `Handle`, one turn of
  the worker (`Process`) and the worker loop (`Serve`) are each proved
  against the functions of `Dispatch`.

Go compares the exception a handler returns with `&Success` by pointer
identity. `Exception` is therefore an enumeration with `Success` as one
distinguished value. A handler that returns no exception (`NoException`, a
nil pointer) is not `Success`, so it gets attached. Any other exception value
(`Raised(code)`) is attached too, even one with code 0.

## Model

| member | source | states |
|---|---|---|
| `ModbusTypes.ZeroMemory` | server.go:41-45 | each of the four banks has exactly MaxRegisterSize cells and every cell is zero |
| `Dispatch.DefaultTable` | server.go:47-55 | codes 1, 2, 3, 4, 5, 6, 15 and 16 hold their own default handlers; a slot is occupied exactly when its code is one of those eight |
| `Dispatch.Install` | server.go:70-73 | after registering, slot `code` holds the new handler (or none) and every other slot keeps its old content |
| `Dispatch.Respond` | server.go:75-94 | the response keeps the request's function code and slave id; with an empty slot it is the request with IllegalFunction attached and the memory is untouched; with a handler, the response data is the handler's data, the memory is what the handler left, and the exception is attached exactly when it is not Success |
| `Dispatch.ExceptionAttachedIff` | server.go:82-91 | for a request without exception, the response carries an exception iff the slot is empty or the handler's exception is not Success; that exception is IllegalFunction for an empty slot and the handler's own otherwise |
| `Dispatch.InstallThenRespond` | server.go:71-91 | once `h` is registered for a code, a request with that code gets `h`'s data and `h`'s memory effect, and `h`'s exception unless it is Success, even when `h` replaced a default handler |
| `Dispatch.DefaultRejectsNonStandard` | server.go:48-87 | with the default table, a code outside the eight standard ones (0x55, say) is answered with the request plus IllegalFunction, and the memory stays the same |
| `Dispatch.Addressed` | server.go:100-102 | the requests the server answers: no more than were queued, each one from the queue, each one addressed to the server's slave id |
| `Dispatch.AddressedConcat` | server.go:98-102 | the filter keeps arrival order: filtering a + b is filtering a, then filtering b |
| `Dispatch.AddressedCount` | server.go:100-102 | every request addressed to the server is kept as many times as it was queued; every other request is dropped |
| `Dispatch.Run` | server.go:97-105 | the worker writes at most one response per queued request (the exact count is `RunWritesFollowRequests`) |
| `Dispatch.RunSingle` | server.go:100-104 | one addressed request yields exactly one write, on its own connection, holding `Respond`'s response, and leaves `Respond`'s memory |
| `Dispatch.RunIgnoresForeign` | server.go:100-102 | removing the requests for other slave ids from the queue changes neither the writes nor the final memory |
| `Dispatch.RunAllForeign` | server.go:98-102 | a queue with no request for this slave id produces no write and leaves the memory as it was |
| `Dispatch.RunConcat` | server.go:96-105 | processing queue a + b equals processing a, then b from the memory a left, with the writes concatenated: each request is applied whole, in FIFO order |
| `Dispatch.RunWritesFollowRequests` | server.go:98-105 | there is exactly one write per request addressed to the server; the k-th write goes to the connection of the k-th addressed request and answers its function code with the server's slave id |
| `Dispatch.RunKeepsSizes` | server.go:41-45 | if the handlers keep bank capacities, every bank keeps MaxRegisterSize cells through any run |
| `Mbserver.Server.constructor` | server.go:36-63 | a new server has the given slave id, the default table (eight handlers, all other slots empty) and zeroed full-size banks |
| `Mbserver.NewServer` | server.go:65-68 | the same, with slave id 1 |
| `Mbserver.Server.RegisterFunctionHandler` | server.go:70-73 | the table becomes `Install(old table, code, h)`; slave id and banks are unchanged |
| `Mbserver.Server.Handle` | server.go:75-94 | the response and the new banks are those of `Respond` on the current table and banks; the table is unchanged |
| `Mbserver.Server.Process` | server.go:99-104 | a frame for another slave id yields no write and changes no state; any other yields exactly one write, on the request's own connection, holding `Respond`'s response |
| `Mbserver.Server.Serve` | server.go:96-106 | taking a queue in order produces exactly the writes and the final banks of `Run` |

## Left out

- The goroutine, the unbuffered request channel and `go s.handler()`. They only serialise requests. The endless loop is modelled as `Serve` over a finite queue, taken in order.
- `Close`, the listeners, the serial ports, the wait group and the close channel. This is I/O and concurrency shutdown, with no state the dispatch rules read.
- Writing to a connection and `Bytes()` wire encoding. A write is one `Write(conn, response)` entry in the returned log. Write failures are not modelled.
- The concrete handlers (read/write coils and registers) are declared outside server.go. A handler is an identity, and what it does is the `Behaviour` function parameter. Handlers are modelled as acting only on the four banks, not on the function table or the slave id.
- `Frame`: the frame types are not part of this model. `Copy` is identity, and `SetData` and `SetException` are field updates. What `SetException` does to the function code and data on the wire is not modelled.
- The banks are `seq` fields, replaced as a whole by a handler's outcome. Aliasing of the Go slices and in-place cell writes are not modelled.
- `MaxRegisterSize` and the function code constants are declared outside server.go. The function codes follow section 6 of the Modbus Application Protocol Specification. `MaxRegisterSize` is taken as 65536, and no proof depends on its value.
- Registering a handler while the worker is serving is a data race in the source. The model only orders registration before or between calls to `Serve`.
- The `Debug` flag has no behaviour in server.go.
