/** What the transfers of module Iic look like on the bus, for every device. */
module IicProtocol {
  import opened Iic

  /** The device after a sequence of events. */
  function Play<D>(react: (D, BusEvent) -> Reply<D>, d: D, es: seq<BusEvent>): D {
    if es == [] then d else Play(react, react(d, es[0]).dev, es[1..])
  }

  /** Its reply to the i-th of them. */
  function ReplyAt<D>(react: (D, BusEvent) -> Reply<D>, d: D, es: seq<BusEvent>, i: nat): Reply<D>
    requires i < |es|
  {
    if i == 0 then react(d, es[0]) else ReplyAt(react, react(d, es[0]).dev, es[1..], i - 1)
  }

  lemma ConsReply<D>(react: (D, BusEvent) -> Reply<D>, d: D, e: BusEvent, es: seq<BusEvent>)
    ensures Play(react, d, [e] + es) == Play(react, react(d, e).dev, es)
    ensures ReplyAt(react, d, [e] + es, 0) == react(d, e)
    ensures forall i :: 0 <= i < |es| ==> ReplyAt(react, d, [e] + es, i + 1) == ReplyAt(react, react(d, e).dev, es, i)
  {
    assert ([e] + es)[1..] == es;
  }

  lemma {:induction false} PlaySnoc<D>(react: (D, BusEvent) -> Reply<D>, d: D, es: seq<BusEvent>, e: BusEvent)
    ensures Play(react, d, es + [e]) == react(Play(react, d, es), e).dev
    ensures forall i :: 0 <= i < |es| ==> ReplyAt(react, d, es + [e], i) == ReplyAt(react, d, es, i)
  {
    if es == [] {
      assert [] + [e] == [e] && [e][1..] == [];
    } else {
      PlaySnoc(react, react(d, es[0]).dev, es[1..], e);
      assert (es + [e])[1..] == es[1..] + [e];
      forall i | 0 <= i < |es| ensures ReplyAt(react, d, es + [e], i) == ReplyAt(react, d, es, i) {
        if i > 0 {
          assert ReplyAt(react, react(d, es[0]).dev, es[1..] + [e], i - 1)
              == ReplyAt(react, react(d, es[0]).dev, es[1..], i - 1);
        }
      }
    }
  }

  function Sends(bytes: seq<int>): seq<BusEvent> {
    seq(|bytes|, i requires 0 <= i < |bytes| => Send(bytes[i]))
  }

  /** The status codes, with their three low bits, that the driver takes for success. */
  lemma StatusCodes(status: int)
    ensures StartSent(status) <==> status % 16 >= 8
    ensures AddressAcked(status) <==> 0x18 <= status < 0x20
    ensures DataAcked(status) <==> 0x28 <= status < 0x30
    ensures ReadAddressAcked(status) <==> 0x40 <= status < 0x48
    ensures DataReceived(status) <==> 0x50 <= status < 0x60
  {
  }

  // Writing

  /** The data phase of a write: the first k bytes, all acknowledged but perhaps the last. */
  ghost predicate SendShape<D>(react: (D, BusEvent) -> Reply<D>, d: D, bytes: seq<int>, o: Sent<D>) {
    var k := |o.events|;
    && k <= |bytes| && o.events == Sends(bytes[..k]) && o.dev == Play(react, d, o.events)
    && (forall i :: 0 <= i < k - 1 ==> DataAcked(ReplyAt(react, d, o.events, i).status))
    && (if o.rc == 0 then k == |bytes| && (k > 0 ==> DataAcked(ReplyAt(react, d, o.events, k - 1).status))
        else o.rc == -2 && k > 0 && !DataAcked(ReplyAt(react, d, o.events, k - 1).status))
  }

  lemma {:induction false} SendBytesShape<D>(react: (D, BusEvent) -> Reply<D>, d: D, bytes: seq<int>)
    ensures SendShape(react, d, bytes, SendBytes(react, d, bytes))
  {
    if bytes != [] {
      var e := Send(bytes[0]);
      var r, o := react(d, e), SendBytes(react, d, bytes);
      if DataAcked(r.status) {
        var rest := SendBytes(react, r.dev, bytes[1..]);
        SendBytesShape(react, r.dev, bytes[1..]);
        ConsReply(react, d, e, rest.events);
        SendsCons(bytes, |rest.events|);
        forall i | 0 <= i < |o.events| && (i < |o.events| - 1 || o.rc == 0)
          ensures DataAcked(ReplyAt(react, d, o.events, i).status)
        {
          assert i > 0 ==> ReplyAt(react, d, o.events, i) == ReplyAt(react, r.dev, rest.events, i - 1);
        }
      } else {
        ConsReply(react, d, e, []);
        assert [e] + [] == [e] == Sends(bytes[..1]);
      }
    }
  }

  lemma SendsCons(bytes: seq<int>, k: nat)
    requires bytes != [] && k <= |bytes| - 1
    ensures Sends(bytes[..k + 1]) == [Send(bytes[0])] + Sends(bytes[1..][..k])
  {
  }

  /** A write on the bus. If START fails nothing else happens and rc is -1. Otherwise there is
      START, the address byte with its low bit clear, the first k data bytes, and one STOP, at
      the end; rc is 0 exactly when the address (status 0x18) and all data bytes (0x28) were
      acknowledged, and a failed write (rc is -2) stops at the first byte that was not. */
  ghost predicate ProperWrite<D>(react: (D, BusEvent) -> Reply<D>, d: D, addr: int, bytes: seq<int>, o: Sent<D>) {
    if react(d, Start).status % 16 < 8 then o == Sent(react(d, Start).dev, [Start], -1)
    else
      var k := |o.events| - 3;
      && 0 <= k <= |bytes|
      && o.events == [Start, Send(addr - addr % 2)] + Sends(bytes[..k]) + [Stop]
      && o.dev == Play(react, d, o.events)
      && (forall i :: 0 <= i < k - 1 ==> Acked(react, d, o.events, i))
      && (o.rc == 0 <==>
            && 0x18 <= ReplyAt(react, d, o.events, 1).status < 0x20
            && k == |bytes| && (k > 0 ==> Acked(react, d, o.events, k - 1)))
      && (o.rc != 0 ==>
            && o.rc == -2
            && if 0x18 <= ReplyAt(react, d, o.events, 1).status < 0x20 then k > 0 && !Acked(react, d, o.events, k - 1)
               else k == 0)
  }

  /** The i-th data byte of a transfer was acknowledged. */
  predicate Acked<D>(react: (D, BusEvent) -> Reply<D>, d: D, es: seq<BusEvent>, i: int)
    requires 0 <= i < |es| - 2
  {
    0x28 <= ReplyAt(react, d, es, i + 2).status < 0x30
  }

  lemma WriteIsProper<D>(react: (D, BusEvent) -> Reply<D>, d: D, addr: int, bytes: seq<int>)
    ensures ProperWrite(react, d, addr, bytes, WriteTransfer(react, d, addr, bytes))
  {
    var s := react(d, Start);
    StatusCodes(s.status);
    if StartSent(s.status) {
      var e := Send(WriteAddress(addr));
      var a := react(s.dev, e);
      StatusCodes(a.status);
      var body := if AddressAcked(a.status) then SendBytes(react, a.dev, bytes) else Sent(a.dev, [], -2);
      SendBytesShape(react, a.dev, bytes);
      assert bytes[..0] == [];
      var es := [Start, e] + body.events + [Stop];
      Frame(react, d, e, body.events);
      assert es == [Start] + ([e] + (body.events + [Stop]));
      forall i | 0 <= i < |body.events|
        ensures Acked(react, d, es, i) == DataAcked(ReplyAt(react, a.dev, body.events, i).status)
      {
        StatusCodes(ReplyAt(react, a.dev, body.events, i).status);
      }
    }
  }

  /** A byte that is sent but not acknowledged (status 0x20 for the address, 0x30 for data) is
      the last one sent, and the write fails. */
  lemma NackEndsWrite<D>(react: (D, BusEvent) -> Reply<D>, d: D, addr: int, bytes: seq<int>, i: nat)
    requires var o := WriteTransfer(react, d, addr, bytes); 1 <= i < |o.events| - 1 && |o.events| > 1
    requires
      var status := ReplyAt(react, d, WriteTransfer(react, d, addr, bytes).events, i).status;
      0x20 <= status < 0x28 || 0x30 <= status < 0x38
    ensures var o := WriteTransfer(react, d, addr, bytes); o.rc == -2 && i == |o.events| - 2
  {
    var o := WriteTransfer(react, d, addr, bytes);
    WriteIsProper(react, d, addr, bytes);
    if i > 1 {
      assert !Acked(react, d, o.events, i - 2);
    }
  }

  /** A body of events between START, an address byte and STOP. */
  lemma Frame<D>(react: (D, BusEvent) -> Reply<D>, d: D, e: BusEvent, body: seq<BusEvent>)
    ensures
      var es, a := [Start] + ([e] + (body + [Stop])), react(react(d, Start).dev, e);
      && Play(react, d, es) == react(Play(react, a.dev, body), Stop).dev
      && ReplyAt(react, d, es, 1) == a
      && forall i :: 0 <= i < |body| ==> ReplyAt(react, d, es, i + 2) == ReplyAt(react, a.dev, body, i)
  {
    var s := react(d, Start);
    ConsReply(react, d, Start, [e] + (body + [Stop]));
    ConsReply(react, s.dev, e, body + [Stop]);
    PlaySnoc(react, react(s.dev, e).dev, body, Stop);
    forall i | 0 <= i < |body|
      ensures ReplyAt(react, d, [Start] + ([e] + (body + [Stop])), i + 2) == ReplyAt(react, react(s.dev, e).dev, body, i)
    {
      assert ReplyAt(react, s.dev, [e] + (body + [Stop]), i + 1) == ReplyAt(react, react(s.dev, e).dev, body + [Stop], i);
    }
  }

  // Reading

  /** k receptions of a read of n bytes: every byte but the last of the n is acknowledged. */
  function Receives(n: nat, k: nat): seq<BusEvent> {
    seq(k, i => Receive(i != n - 1))
  }

  ghost predicate ReceiveShape<D>(react: (D, BusEvent) -> Reply<D>, d: D, n: nat, o: Got<D>) {
    var k, got := |o.events|, |o.bytes|;
    && k <= n && o.events == Receives(n, k) && o.dev == Play(react, d, o.events)
    && got <= k
    && (forall i :: 0 <= i < got ==>
          DataReceived(ReplyAt(react, d, o.events, i).status) && o.bytes[i] == ReplyAt(react, d, o.events, i).data)
    && (if o.rc == 0 then got == k == n
        else o.rc == -2 && k == got + 1 && !DataReceived(ReplyAt(react, d, o.events, got).status))
  }

  lemma {:induction false} ReceiveBytesShape<D>(react: (D, BusEvent) -> Reply<D>, d: D, n: nat)
    ensures ReceiveShape(react, d, n, ReceiveBytes(react, d, n))
  {
    if n > 0 {
      var e := Receive(n != 1);
      var r, o := react(d, e), ReceiveBytes(react, d, n);
      if DataReceived(r.status) {
        var rest := ReceiveBytes(react, r.dev, n - 1);
        ReceiveBytesShape(react, r.dev, n - 1);
        ConsReply(react, d, e, rest.events);
        ReceivesCons(n, |rest.events|);
        forall i | 0 <= i < |o.bytes|
          ensures DataReceived(ReplyAt(react, d, o.events, i).status) && o.bytes[i] == ReplyAt(react, d, o.events, i).data
        {
          assert i > 0 ==> ReplyAt(react, d, o.events, i) == ReplyAt(react, r.dev, rest.events, i - 1);
        }
        assert o.rc != 0 ==> ReplyAt(react, d, o.events, |o.bytes|) == ReplyAt(react, r.dev, rest.events, |rest.bytes|);
      } else {
        ConsReply(react, d, e, []);
        assert [e] + [] == [e] == Receives(n, 1);
      }
    }
  }

  lemma ReceivesCons(n: nat, k: nat)
    requires n > 0
    ensures Receives(n, k + 1) == [Receive(n != 1)] + Receives(n - 1, k)
  {
  }

  /** A read on the bus. If START fails nothing else happens and rc is -1. Otherwise there is
      START, the address byte with its low bit set, receptions, and one STOP, at the end. A
      successful read of n bytes acknowledges the first n - 1 and not the last; the bytes are
      the device's, in order, and when a read fails (rc is -2) they are those that arrived
      before. The address is acknowledged with status 0x40, and a byte arrives with 0x50 or
      0x58. */
  ghost predicate ProperRead<D>(react: (D, BusEvent) -> Reply<D>, d: D, addr: int, n: nat, o: Got<D>) {
    if react(d, Start).status % 16 < 8 then o == Got(react(d, Start).dev, [Start], [], -1)
    else
      var k, got := |o.events| - 3, |o.bytes|;
      && got <= k <= n
      && o.events == [Start, Send(addr - addr % 2 + 1)] + Receives(n, k) + [Stop]
      && o.dev == Play(react, d, o.events)
      && (forall i :: 0 <= i < got ==> Arrived(react, d, o.events, i) && o.bytes[i] == ReplyAt(react, d, o.events, i + 2).data)
      && (o.rc == 0 <==> 0x40 <= ReplyAt(react, d, o.events, 1).status < 0x48 && got == k == n)
      && (o.rc != 0 ==>
            && o.rc == -2
            && if 0x40 <= ReplyAt(react, d, o.events, 1).status < 0x48 then
                 k == got + 1 && !Arrived(react, d, o.events, got)
               else k == 0)
  }

  predicate Arrived<D>(react: (D, BusEvent) -> Reply<D>, d: D, es: seq<BusEvent>, i: int)
    requires 0 <= i < |es| - 2
  {
    0x50 <= ReplyAt(react, d, es, i + 2).status < 0x60
  }

  lemma ReadIsProper<D>(react: (D, BusEvent) -> Reply<D>, d: D, addr: int, n: nat)
    ensures ProperRead(react, d, addr, n, ReadTransfer(react, d, addr, n))
  {
    var s := react(d, Start);
    StatusCodes(s.status);
    if StartSent(s.status) {
      var e := Send(ReadAddress(addr));
      var a := react(s.dev, e);
      StatusCodes(a.status);
      var body := if ReadAddressAcked(a.status) then ReceiveBytes(react, a.dev, n) else Got(a.dev, [], [], -2);
      ReceiveBytesShape(react, a.dev, n);
      var es := [Start, e] + body.events + [Stop];
      Frame(react, d, e, body.events);
      assert es == [Start] + ([e] + (body.events + [Stop]));
      forall i | 0 <= i < |body.events|
        ensures Arrived(react, d, es, i) == DataReceived(ReplyAt(react, a.dev, body.events, i).status)
        ensures ReplyAt(react, d, es, i + 2).data == ReplyAt(react, a.dev, body.events, i).data
      {
        StatusCodes(ReplyAt(react, a.dev, body.events, i).status);
      }
    }
  }

  /** A read whose address is not acknowledged (status 0x48) fails and receives nothing. */
  lemma NackEndsRead<D>(react: (D, BusEvent) -> Reply<D>, d: D, addr: int, n: nat)
    requires react(d, Start).status % 16 >= 8
    requires 0x48 <= react(react(d, Start).dev, Send(addr - addr % 2 + 1)).status < 0x50
    ensures
      var o := ReadTransfer(react, d, addr, n);
      o.rc == -2 && o.bytes == [] && o.events == [Start, Send(addr - addr % 2 + 1), Stop]
  {
    StatusCodes(react(d, Start).status);
    StatusCodes(react(react(d, Start).dev, Send(addr - addr % 2 + 1)).status);
  }
}
