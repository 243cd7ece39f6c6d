/** The polled master transfers of kernel/iic.cpp on an I2C bus (UM10204, sections 3.1.4 to
    3.1.6: START and STOP, byte format, acknowledge). The device at the other end is any
    function from its state and a bus event to its next state, the status that the interface
    then shows in TWSR, and the byte in TWDR; so every acknowledgement behaviour is covered.
    Waiting for TWINT is part of an event. */
module Iic {

  datatype BusEvent = Start | Send(b: int) | Receive(ack: bool) | Stop

  datatype Reply<D> = Reply(dev: D, status: int, data: int)

  // Status tests, as the driver makes them

  /** TWSR & 0x08 */
  predicate StartSent(status: int) {
    status / 8 % 2 == 1
  }

  /** TWSR & 0xf8 */
  function Code(status: int): int {
    status - status % 8
  }

  predicate AddressAcked(status: int) {
    Code(status) == 0x18
  }

  predicate ReadAddressAcked(status: int) {
    Code(status) == 0x40
  }

  predicate DataAcked(status: int) {
    Code(status) == 0x28
  }

  predicate DataReceived(status: int) {
    Code(status) == 0x50 || Code(status) == 0x58
  }

  /** addr & 0xfe and addr | 0x01 */
  function WriteAddress(addr: int): int {
    addr - addr % 2
  }

  function ReadAddress(addr: int): int {
    addr - addr % 2 + 1
  }

  // What the transfers do, as functions of the device

  datatype Sent<D> = Sent(dev: D, events: seq<BusEvent>, rc: int)

  datatype Got<D> = Got(dev: D, events: seq<BusEvent>, bytes: seq<int>, rc: int)

  /** Sends bytes until one is not acknowledged. */
  function SendBytes<D>(react: (D, BusEvent) -> Reply<D>, d: D, bytes: seq<int>): Sent<D> {
    if bytes == [] then Sent(d, [], 0)
    else
      var e := Send(bytes[0]);
      var r := react(d, e);
      if DataAcked(r.status) then
        var rest := SendBytes(react, r.dev, bytes[1..]);
        rest.(events := [e] + rest.events)
      else Sent(r.dev, [e], -2)
  }

  function WriteTransfer<D>(react: (D, BusEvent) -> Reply<D>, d: D, addr: int, bytes: seq<int>): Sent<D> {
    var s := react(d, Start);
    if !StartSent(s.status) then Sent(s.dev, [Start], -1)
    else
      var e := Send(WriteAddress(addr));
      var a := react(s.dev, e);
      var body := if AddressAcked(a.status) then SendBytes(react, a.dev, bytes) else Sent(a.dev, [], -2);
      Sent(react(body.dev, Stop).dev, [Start, e] + body.events + [Stop], body.rc)
  }

  /** Receives n bytes, acknowledging all but the last, until one does not arrive. */
  function ReceiveBytes<D>(react: (D, BusEvent) -> Reply<D>, d: D, n: nat): Got<D> {
    if n == 0 then Got(d, [], [], 0)
    else
      var e := Receive(n != 1);
      var r := react(d, e);
      if DataReceived(r.status) then
        var rest := ReceiveBytes(react, r.dev, n - 1);
        rest.(events := [e] + rest.events, bytes := [r.data] + rest.bytes)
      else Got(r.dev, [e], [], -2)
  }

  function ReadTransfer<D>(react: (D, BusEvent) -> Reply<D>, d: D, addr: int, n: nat): Got<D> {
    var s := react(d, Start);
    if !StartSent(s.status) then Got(s.dev, [Start], [], -1)
    else
      var e := Send(ReadAddress(addr));
      var a := react(s.dev, e);
      var body := if ReadAddressAcked(a.status) then ReceiveBytes(react, a.dev, n) else Got(a.dev, [], [], -2);
      Got(react(body.dev, Stop).dev, [Start, e] + body.events + [Stop], body.bytes, body.rc)
  }

  // The driver

  /** The interface: TWCR commands become bus events, TWSR and TWDR show the reply. */
  class Bus<D> {
    const react: (D, BusEvent) -> Reply<D>
    var dev: D
    var status: int
    var data: int
    ghost var events: seq<BusEvent>

    constructor (react: (D, BusEvent) -> Reply<D>, dev: D)
      ensures this.react == react && this.dev == dev && events == []
    {
      this.react, this.dev := react, dev;
      status, data := 0, 0;
      events := [];
    }

    method Drive(e: BusEvent)
      modifies this
      ensures
        var r := react(old(dev), e);
        dev == r.dev && status == r.status && data == r.data && events == old(events) + [e]
    {
      var r := react(dev, e);
      dev, status, data := r.dev, r.status, r.data;
      events := events + [e];
    }
  }

  /** IICWrite */
  method IICWrite<D>(bus: Bus<D>, addr: int, dbytes: seq<int>) returns (rc: int)
    modifies bus
    ensures
      var o := WriteTransfer(bus.react, old(bus.dev), addr, dbytes);
      rc == o.rc && bus.dev == o.dev && bus.events == old(bus.events) + o.events
  {
    rc := 0;
    bus.Drive(Start);
    if StartSent(bus.status) {
      bus.Drive(Send(WriteAddress(addr)));
      if AddressAcked(bus.status) {
        rc := SendLoop(bus, dbytes);
      } else {
        rc := -2;
      }
      bus.Drive(Stop);
    } else {
      rc := -1;
    }
  }

  /** The loop of IICWrite over its bytes. */
  method SendLoop<D>(bus: Bus<D>, dbytes: seq<int>) returns (rc: int)
    modifies bus
    ensures
      var o := SendBytes(bus.react, old(bus.dev), dbytes);
      rc == o.rc && bus.dev == o.dev && bus.events == old(bus.events) + o.events
  {
    rc := 0;
    var idx := 0;
    ghost var all := SendBytes(bus.react, bus.dev, dbytes);
    ghost var before := bus.events;
    while idx < |dbytes|
      invariant 0 <= idx <= |dbytes| && rc == 0
      invariant
        var rest := SendBytes(bus.react, bus.dev, dbytes[idx..]);
        all.dev == rest.dev && all.rc == rest.rc && before + all.events == bus.events + rest.events
    {
      assert dbytes[idx..][1..] == dbytes[idx + 1..];
      ghost var e := Send(dbytes[idx]);
      ghost var rest := SendBytes(bus.react, bus.dev, dbytes[idx..]);
      ghost var was := bus.events;
      bus.Drive(Send(dbytes[idx]));
      assert was + rest.events == bus.events + rest.events[1..];
      if !DataAcked(bus.status) {
        rc := -2;
        break;
      }
      idx := idx + 1;
    }
  }

  /** IICRead: fills the buffer as far as bytes arrive and leaves the rest of it alone. */
  method IICRead<D>(bus: Bus<D>, addr: int, dbytes: array<int>, n: nat) returns (rc: int)
    requires n <= dbytes.Length
    modifies bus, dbytes
    ensures
      var o := ReadTransfer(bus.react, old(bus.dev), addr, n);
      && rc == o.rc && bus.dev == o.dev && bus.events == old(bus.events) + o.events
      && |o.bytes| <= n && dbytes[..] == o.bytes + old(dbytes[..])[|o.bytes|..]
  {
    rc := 0;
    bus.Drive(Start);
    if StartSent(bus.status) {
      bus.Drive(Send(ReadAddress(addr)));
      if ReadAddressAcked(bus.status) {
        rc := ReceiveLoop(bus, dbytes, n);
      } else {
        rc := -2;
      }
      bus.Drive(Stop);
    } else {
      rc := -1;
    }
  }

  /** The loop of IICRead. */
  method ReceiveLoop<D>(bus: Bus<D>, dbytes: array<int>, n: nat) returns (rc: int)
    requires n <= dbytes.Length
    modifies bus, dbytes
    ensures
      var o := ReceiveBytes(bus.react, old(bus.dev), n);
      && rc == o.rc && bus.dev == o.dev && bus.events == old(bus.events) + o.events
      && |o.bytes| <= n && dbytes[..] == o.bytes + old(dbytes[..])[|o.bytes|..]
  {
    rc := 0;
    var idx := 0;
    ghost var all, before, was := ReceiveBytes(bus.react, bus.dev, n), bus.events, dbytes[..];
    ghost var got: seq<int> := [];
    while idx < n
      invariant 0 <= idx <= n && rc == 0 && |got| == idx
      invariant
        var rest := ReceiveBytes(bus.react, bus.dev, n - idx);
        && all.dev == rest.dev && all.rc == rest.rc
        && before + all.events == bus.events + rest.events && all.bytes == got + rest.bytes
      invariant forall j :: 0 <= j < idx ==> dbytes[j] == got[j]
      invariant forall j :: idx <= j < dbytes.Length ==> dbytes[j] == was[j]
    {
      ReceiveUnfolds(bus.react, bus.dev, n - idx, bus.events, got);
      bus.Drive(Receive(idx != n - 1));
      if DataReceived(bus.status) {
        dbytes[idx] := bus.data;
        got := got + [bus.data];
      } else {
        rc := -2;
        break;
      }
      idx := idx + 1;
    }
    assert all.bytes == got;
    assert dbytes[..] == got + was[idx..];
  }

  /** The first byte of a reception, and the rest of it. */
  lemma ReceiveUnfolds<D>(react: (D, BusEvent) -> Reply<D>, d: D, n: nat, events: seq<BusEvent>, got: seq<int>)
    requires n > 0
    ensures
      var o, e := ReceiveBytes(react, d, n), Receive(n != 1);
      var r := react(d, e);
      if DataReceived(r.status) then
        var rest := ReceiveBytes(react, r.dev, n - 1);
        && o.dev == rest.dev && o.rc == rest.rc
        && events + o.events == events + [e] + rest.events && got + o.bytes == got + [r.data] + rest.bytes
      else o == Got(r.dev, [e], [], -2)
  {
  }
}
