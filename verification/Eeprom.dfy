/** The serial EEPROM behind the logger, byte by byte: 64 KB, an address pointer, writes that
    roll over within a 128-byte page, reads that run on sequentially. Any bus event may fail;
    a data byte that fails may leave the 32-byte record it was meant for in any state. */
module Eeprom {
  import opened Iic

  const SIZE: int := 0x10000
  const PAGE: int := 128
  const RECORD: int := 32

  datatype Mode = Idle | Started | Selected | HaveHigh(hi: int) | Writing | Reading

  /** A bus event works, or it fails: with any status that does not stand for success. */
  datatype Fault = Fine | Fails(junk: seq<int>, status: int)

  /** The status codes of success: START sent, address or data acknowledged, byte received. */
  predicate Succeeds(e: BusEvent, status: int) {
    match e
    case Start => status % 16 >= 8
    case Send(_) => 0x18 <= status < 0x20 || 0x28 <= status < 0x30 || 0x40 <= status < 0x48
    case Receive(_) => 0x50 <= status < 0x60
    case Stop => false
  }

  function Refusal(e: BusEvent, status: int): (r: int)
    ensures e.Start? ==> !StartSent(r)
    ensures e.Send? ==> !AddressAcked(r) && !DataAcked(r) && !ReadAddressAcked(r)
    ensures e.Receive? ==> !DataReceived(r)
  {
    if Succeeds(e, status) then 0 else status
  }

  /** `self` is the write address; `plan` says which of its bus events fail. */
  datatype Chip = Chip(self: int, mem: seq<int>, ptr: int, mode: Mode, tick: nat, plan: nat -> Fault) {
    ghost predicate Ok() {
      |mem| == SIZE && 0 <= ptr < SIZE && self % 2 == 0
    }
  }

  function Load(mem: seq<int>, p: int): int {
    if 0 <= p < |mem| then mem[p] else 0
  }

  function Store(mem: seq<int>, p: int, b: int): seq<int> {
    if 0 <= p < |mem| then mem[p := b] else mem
  }

  /** The next address for a write: the last byte of a page is followed by its first. */
  function NextInPage(p: int): int {
    if (p + 1) % PAGE == 0 then p + 1 - PAGE else p + 1
  }

  /** mem' is mem with these bytes stored from p on. */
  ghost predicate Stored(mem: seq<int>, mem': seq<int>, p: int, bytes: seq<int>) {
    && |mem'| == |mem|
    && forall a :: 0 <= a < |mem| ==> mem'[a] == if p <= a < p + |bytes| then bytes[a - p] else mem[a]
  }

  /** The start of the record that p lies in. */
  function Base(p: int): int {
    p - p % RECORD
  }

  function Spoil(mem: seq<int>, p: int, junk: seq<int>): seq<int> {
    if |junk| == RECORD && 0 <= Base(p) && Base(p) + RECORD <= |mem| then mem[..Base(p)] + junk + mem[Base(p) + RECORD..]
    else mem
  }

  function React(c: Chip, e: BusEvent): Reply<Chip> {
    var n := c.(tick := c.tick + 1);
    if e.Stop? then Reply(n.(mode := Idle), 0, 0)
    else
      match c.plan(c.tick)
      case Fails(junk, status) =>
        Reply(if c.mode.Writing? && e.Send? then n.(mem := Spoil(c.mem, c.ptr, junk)) else n, Refusal(e, status), 0)
      case Fine => Work(c, n, e)
  }

  function Work(c: Chip, n: Chip, e: BusEvent): Reply<Chip> {
    match e
    case Start => Reply(n.(mode := Started), 0x08, 0)
    case Stop => Reply(n, 0, 0)
    case Receive(ack) =>
      if c.mode.Reading? then Reply(n.(ptr := (c.ptr + 1) % SIZE), if ack then 0x50 else 0x58, Load(c.mem, c.ptr))
      else Reply(n, 0, 0)
    case Send(b) =>
      match c.mode
      case Started =>
        if b == c.self then Reply(n.(mode := Selected), 0x18, 0)
        else if b == c.self + 1 then Reply(n.(mode := Reading), 0x40, 0)
        else Reply(n.(mode := Idle), 0x20, 0)
      case Selected => Reply(n.(mode := HaveHigh(b)), 0x28, 0)
      case HaveHigh(hi) => Reply(n.(mode := Writing, ptr := (hi * 256 + b) % SIZE), 0x28, 0)
      case Writing => Reply(n.(mem := Store(c.mem, c.ptr, b), ptr := NextInPage(c.ptr)), 0x28, 0)
      case _ => Reply(n, 0x30, 0)
  }

  /** No bus event fails in the next k. */
  ghost predicate Quiet(c: Chip, k: nat) {
    forall i :: c.tick <= i < c.tick + k ==> c.plan(i) == Fine
  }

  /** Two memories that differ at most in the record at base. */
  ghost predicate OnlyRecord(mem: seq<int>, mem': seq<int>, base: int) {
    |mem| == |mem'| && forall a :: 0 <= a < |mem| && !(base <= a < base + RECORD) ==> mem'[a] == mem[a]
  }

  ghost predicate SameChip(c: Chip, c': Chip) {
    c'.self == c.self && c'.plan == c.plan
  }

  lemma QuietStep(c: Chip, c': Chip, k: nat)
    requires SameChip(c, c') && c'.tick == c.tick + 1
    ensures Quiet(c, k + 1) <==> c.plan(c.tick) == Fine && Quiet(c', k)
  {
    if c.plan(c.tick) == Fine && Quiet(c', k) {
      forall i | c.tick <= i < c.tick + (k + 1) ensures c.plan(i) == Fine {
      }
    }
  }

  lemma QuietLater(c: Chip, c': Chip, j: nat, k: nat)
    requires SameChip(c, c') && c'.tick == c.tick + j && Quiet(c, j + k)
    ensures Quiet(c, j) && Quiet(c', k)
  {
  }

  // Writing a record

  /** Data bytes within a record: no rollover happens. If all are acknowledged they are stored
      where they belong; if not, only this record may have suffered. */
  lemma {:induction false} SendData(c: Chip, base: int, i: nat, bytes: seq<int>)
    requires c.Ok() && c.mode.Writing? && 0 <= base && base % RECORD == 0 && base + RECORD <= SIZE
    requires i + |bytes| <= RECORD && (bytes != [] ==> c.ptr == base + i)
    ensures
      var o := SendBytes(React, c, bytes);
      && o.dev.Ok() && SameChip(c, o.dev) && OnlyRecord(c.mem, o.dev.mem, base)
      && (o.rc == 0 <==> Quiet(c, |bytes|))
      && (o.rc == 0 ==> Stored(c.mem, o.dev.mem, base + i, bytes) && o.dev.tick == c.tick + |bytes|)
    decreases |bytes|
  {
    if bytes != [] {
      var r := React(c, Send(bytes[0]));
      if c.plan(c.tick) == Fine {
        StepInRecord(base, i);
        assert r.dev.mem == c.mem[base + i := bytes[0]] && OnlyRecord(c.mem, r.dev.mem, base);
        SendData(r.dev, base, i + 1, bytes[1..]);
        if Quiet(r.dev, |bytes| - 1) {
          StoredCons(c.mem, SendBytes(React, r.dev, bytes[1..]).dev.mem, base + i, bytes);
        }
        QuietStep(c, r.dev, |bytes| - 1);
      } else {
        SpoilRecord(c.mem, base, i, c.plan(c.tick).junk);
        assert !Quiet(c, |bytes|);
      }
    }
  }

  lemma StepInRecord(base: int, i: nat)
    requires 0 <= base && base % RECORD == 0 && i < RECORD && base + RECORD <= SIZE
    ensures i + 1 < RECORD ==> NextInPage(base + i) == base + i + 1
    ensures 0 <= NextInPage(base + i) < SIZE
  {
  }

  lemma StoredCons(mem: seq<int>, mem': seq<int>, p: int, bytes: seq<int>)
    requires 0 <= p && p + |bytes| <= |mem| && bytes != []
    requires Stored(mem[p := bytes[0]], mem', p + 1, bytes[1..])
    ensures Stored(mem, mem', p, bytes)
  {
  }

  lemma SpoilRecord(mem: seq<int>, base: int, i: nat, junk: seq<int>)
    requires |mem| == SIZE && 0 <= base && base % RECORD == 0 && i < RECORD && base + RECORD <= SIZE
    ensures OnlyRecord(mem, Spoil(mem, base + i, junk), base)
  {
    assert Base(base + i) == base;
  }

  /** The record at base. */
  function RecordAt(mem: seq<int>, base: int): seq<int> {
    if 0 <= base && base + RECORD <= |mem| then mem[base..base + RECORD] else []
  }

  /** Some failing event leaves a record like this. */
  ghost predicate Harmed(plan: nat -> Fault, record: seq<int>) {
    |record| == RECORD && exists t: nat :: plan(t).Fails? && plan(t).junk == record
  }

  /** How a write of n bytes that fails shows: the last of them was not stored, unless the
      failing event has left the whole record in some state. */
  ghost predicate Short(plan: nat -> Fault, mem: seq<int>, mem': seq<int>, base: int, n: int) {
    Load(mem', base + n - 1) == Load(mem, base + n - 1) || Harmed(plan, RecordAt(mem', base))
  }

  lemma SpoilHarms(plan: nat -> Fault, t: nat, mem: seq<int>, base: int, i: nat)
    requires |mem| == SIZE && 0 <= base && base % RECORD == 0 && i < RECORD && base + RECORD <= SIZE && plan(t).Fails?
    ensures
      var mem' := Spoil(mem, base + i, plan(t).junk);
      mem' == mem || Harmed(plan, RecordAt(mem', base))
  {
    var junk := plan(t).junk;
    if |junk| == RECORD {
      assert Base(base + i) == base;
      assert RecordAt(Spoil(mem, base + i, junk), base) == junk;
    }
  }

  lemma ShortStep(plan: nat -> Fault, mem: seq<int>, mem1: seq<int>, mem': seq<int>, base: int, n: int, p: int, b: int)
    requires mem1 == Store(mem, p, b) && p < base + n - 1
    ensures Short(plan, mem1, mem', base, n) ==> Short(plan, mem, mem', base, n)
  {
  }

  lemma ByteGoes(c: Chip, base: int, i: nat, b: int)
    requires c.Ok() && c.mode.Writing? && 0 <= base && base % RECORD == 0 && base + RECORD <= SIZE
    requires i < RECORD && c.ptr == base + i && c.plan(c.tick) == Fine
    ensures
      var r := React(c, Send(b));
      && DataAcked(r.status) && r.dev.Ok() && r.dev.mode.Writing? && r.dev.plan == c.plan
      && r.dev.mem == Store(c.mem, base + i, b) && (i + 1 < RECORD ==> r.dev.ptr == base + i + 1)
  {
    StepInRecord(base, i);
  }

  lemma ByteFails(c: Chip, base: int, i: nat, bytes: seq<int>)
    requires c.Ok() && c.mode.Writing? && 0 <= base && base % RECORD == 0 && base + RECORD <= SIZE
    requires i + |bytes| <= RECORD && bytes != [] && c.ptr == base + i && c.plan(c.tick) != Fine
    ensures Short(c.plan, c.mem, SendBytes(React, c, bytes).dev.mem, base, i + |bytes|)
  {
    SpoilHarms(c.plan, c.tick, c.mem, base, i);
  }

  lemma {:induction false} SendDataShort(c: Chip, base: int, i: nat, bytes: seq<int>)
    requires c.Ok() && c.mode.Writing? && 0 <= base && base % RECORD == 0 && base + RECORD <= SIZE
    requires i + |bytes| <= RECORD && (bytes != [] ==> c.ptr == base + i)
    ensures
      var o := SendBytes(React, c, bytes);
      o.rc != 0 ==> Short(c.plan, c.mem, o.dev.mem, base, i + |bytes|)
    decreases |bytes|
  {
    if bytes == [] {
    } else if c.plan(c.tick) == Fine {
      var d := React(c, Send(bytes[0])).dev;
      ByteGoes(c, base, i, bytes[0]);
      SendDataShort(d, base, i + 1, bytes[1..]);
      if |bytes| > 1 {
        ShortStep(c.plan, c.mem, d.mem, SendBytes(React, d, bytes[1..]).dev.mem, base, i + |bytes|, base + i, bytes[0]);
      }
    } else {
      ByteFails(c, base, i, bytes);
    }
  }

  /** The outcome of k bus events that were to write bytes into the record at base. If all of
      them succeed the bytes are there; if not, only this record may have suffered; and
      setting the address alone never changes the memory. */
  ghost predicate Wrote(c: Chip, dev: Chip, rc: int, base: int, bytes: seq<int>, k: nat) {
    && dev.Ok() && SameChip(c, dev) && OnlyRecord(c.mem, dev.mem, base)
    && (rc == 0 <==> Quiet(c, k))
    && (rc == 0 ==> Stored(c.mem, dev.mem, base, bytes) && dev.tick == c.tick + k)
    && (bytes == [] ==> dev.mem == c.mem && dev.ptr == if rc == 0 then base else c.ptr)
    && (rc != 0 ==> Short(c.plan, c.mem, dev.mem, base, |bytes|))
  }

  lemma WroteStep(c: Chip, c': Chip, dev: Chip, rc: int, base: int, bytes: seq<int>, k: nat)
    requires SameChip(c, c') && c'.tick == c.tick + 1 && c'.mem == c.mem && c.plan(c.tick) == Fine
    requires c'.ptr == c.ptr || rc == 0 || bytes != []
    requires Wrote(c', dev, rc, base, bytes, k)
    ensures Wrote(c, dev, rc, base, bytes, k + 1)
  {
    QuietStep(c, c', k);
  }

  lemma WroteNothing(c: Chip, dev: Chip, rc: int, base: int, bytes: seq<int>, k: nat)
    requires c.plan(c.tick) != Fine && k > 0 && rc != 0 && dev.Ok() && SameChip(c, dev) && dev.mem == c.mem && dev.ptr == c.ptr
    ensures Wrote(c, dev, rc, base, bytes, k)
  {
  }

  /** One address byte, before a rest that writes. */
  lemma SendAddressByte(c: Chip, b: int, rest: seq<int>, base: int, bytes: seq<int>, k: nat)
    requires c.Ok() && (c.mode.Selected? || (c.mode.HaveHigh? && (k == 0 || bytes != [])))
    requires
      var r := React(c, Send(b));
      c.plan(c.tick) == Fine ==>
        Wrote(r.dev, SendBytes(React, r.dev, rest).dev, SendBytes(React, r.dev, rest).rc, base, bytes, k)
    ensures
      var o := SendBytes(React, c, [b] + rest);
      Wrote(c, o.dev, o.rc, base, bytes, k + 1)
  {
    var r, o := React(c, Send(b)), SendBytes(React, c, [b] + rest);
    assert ([b] + rest)[1..] == rest;
    if c.plan(c.tick) == Fine {
      assert c.mode.Selected? ==> r.dev.ptr == c.ptr;
      assert k == 0 ==> Quiet(r.dev, k);
      WroteStep(c, r.dev, o.dev, o.rc, base, bytes, k);
    } else {
      WroteNothing(c, o.dev, o.rc, base, bytes, k + 1);
    }
  }

  /** The data bytes, to a chip that has its address. */
  lemma SendRecord(c: Chip, base: int, bytes: seq<int>)
    requires c.Ok() && c.mode.Writing? && c.ptr == base && base % RECORD == 0 && |bytes| <= RECORD
    ensures var o := SendBytes(React, c, bytes); Wrote(c, o.dev, o.rc, base, bytes, |bytes|)
  {
    SendData(c, base, 0, bytes);
    SendDataShort(c, base, 0, bytes);
  }

  lemma LowByteSets(c: Chip, hi: int, lo: int)
    requires c.Ok() && c.mode == HaveHigh(hi) && 0 <= hi < 256 && 0 <= lo < 256 && c.plan(c.tick) == Fine
    ensures
      var d := React(c, Send(lo)).dev;
      d.Ok() && d.mode.Writing? && d.ptr == 256 * hi + lo
  {
  }

  lemma SendLow(c: Chip, hi: int, lo: int, base: int, bytes: seq<int>)
    requires c.Ok() && c.mode == HaveHigh(hi) && 0 <= hi < 256 && 0 <= lo < 256
    requires base == 256 * hi + lo && base % RECORD == 0 && |bytes| <= RECORD
    ensures var o := SendBytes(React, c, [lo] + bytes); Wrote(c, o.dev, o.rc, base, bytes, |bytes| + 1)
  {
    if c.plan(c.tick) == Fine {
      LowByteSets(c, hi, lo);
      SendRecord(React(c, Send(lo)).dev, base, bytes);
    }
    SendAddressByte(c, lo, bytes, base, bytes, |bytes|);
  }

  lemma HighByteSets(c: Chip, hi: int)
    requires c.Ok() && c.mode.Selected? && c.plan(c.tick) == Fine
    ensures React(c, Send(hi)).dev.Ok() && React(c, Send(hi)).dev.mode == HaveHigh(hi)
  {
  }

  lemma SendAddress(c: Chip, hi: int, lo: int, base: int, bytes: seq<int>)
    requires c.Ok() && c.mode.Selected? && 0 <= hi < 256 && 0 <= lo < 256
    requires base == 256 * hi + lo && base % RECORD == 0 && |bytes| <= RECORD
    ensures var o := SendBytes(React, c, [hi] + ([lo] + bytes)); Wrote(c, o.dev, o.rc, base, bytes, |bytes| + 2)
  {
    if c.plan(c.tick) == Fine {
      HighByteSets(c, hi);
      SendLow(React(c, Send(hi)).dev, hi, lo, base, bytes);
    }
    SendAddressByte(c, hi, [lo] + bytes, base, bytes, |bytes| + 1);
  }

  /** The address byte, and all that follows it. */
  lemma SendAll(c: Chip, hi: int, lo: int, base: int, bytes: seq<int>)
    requires c.Ok() && c.mode.Started? && 0 <= hi < 256 && 0 <= lo < 256
    requires base == 256 * hi + lo && base % RECORD == 0 && |bytes| <= RECORD
    ensures
      var a := React(c, Send(c.self));
      var o := if AddressAcked(a.status) then SendBytes(React, a.dev, [hi] + ([lo] + bytes)) else Sent(a.dev, [], -2);
      Wrote(c, o.dev, o.rc, base, bytes, |bytes| + 3)
  {
    var a := React(c, Send(c.self));
    if c.plan(c.tick) == Fine {
      var o := SendBytes(React, a.dev, [hi] + ([lo] + bytes));
      SendAddress(a.dev, hi, lo, base, bytes);
      WroteStep(c, a.dev, o.dev, o.rc, base, bytes, |bytes| + 2);
    } else {
      WroteNothing(c, a.dev, -2, base, bytes, |bytes| + 3);
    }
  }

  /** What is sent between START and STOP. */
  function Body(c1: Chip, self: int, bytes: seq<int>): Sent<Chip> {
    var a := React(c1, Send(self));
    if AddressAcked(a.status) then SendBytes(React, a.dev, bytes) else Sent(a.dev, [], -2)
  }

  lemma StartWorks(c: Chip)
    requires c.Ok()
    ensures
      var s := React(c, Start);
      && s.dev.Ok() && SameChip(c, s.dev) && s.dev.tick == c.tick + 1 && s.dev.mem == c.mem && s.dev.ptr == c.ptr
      && (StartSent(s.status) <==> c.plan(c.tick) == Fine)
      && (c.plan(c.tick) == Fine ==> s.dev.mode.Started?)
  {
  }

  lemma SendBody(c: Chip, hi: int, lo: int, base: int, bytes: seq<int>)
    requires c.Ok() && c.plan(c.tick) == Fine && 0 <= hi < 256 && 0 <= lo < 256
    requires base == 256 * hi + lo && base % RECORD == 0 && |bytes| <= RECORD
    ensures
      var o := Body(React(c, Start).dev, c.self, [hi, lo] + bytes);
      Wrote(c, o.dev, o.rc, base, bytes, |bytes| + 4)
  {
    TwoBytes(hi, lo, bytes);
    StartWorks(c);
    var c1 := React(c, Start).dev;
    SendAll(c1, hi, lo, base, bytes);
    var o := Body(c1, c.self, [hi, lo] + bytes);
    WroteStep(c, c1, o.dev, o.rc, base, bytes, |bytes| + 3);
  }

  /** The outcome of a whole transfer that was to write bytes into the record at base. It
      succeeds exactly when none of its bus events before STOP fails; then the bytes are in
      place, and nothing but them has changed. A failed one may only have harmed the record. */
  ghost predicate Transferred(c: Chip, dev: Chip, rc: int, base: int, bytes: seq<int>) {
    && dev.Ok() && SameChip(c, dev) && OnlyRecord(c.mem, dev.mem, base)
    && (rc == 0 <==> Quiet(c, |bytes| + 4))
    && (rc == 0 ==> Stored(c.mem, dev.mem, base, bytes) && dev.tick == c.tick + |bytes| + 5)
    && (bytes == [] ==> dev.mem == c.mem && dev.ptr == if rc == 0 then base else c.ptr)
    && (rc != 0 ==> Short(c.plan, c.mem, dev.mem, base, |bytes|))
  }

  lemma Stops(c: Chip, d: Chip, rc: int, base: int, bytes: seq<int>)
    requires Wrote(c, d, rc, base, bytes, |bytes| + 4)
    ensures Transferred(c, React(d, Stop).dev, rc, base, bytes)
  {
  }

  lemma WriteFails(c: Chip, base: int, bytes: seq<int>)
    requires c.Ok() && c.plan(c.tick) != Fine
    ensures Transferred(c, React(c, Start).dev, -1, base, bytes)
  {
    assert !Quiet(c, |bytes| + 4);
  }

  lemma WriteRecord(c: Chip, hi: int, lo: int, bytes: seq<int>)
    requires c.Ok() && 0 <= hi < 256 && 0 <= lo < 256 && (256 * hi + lo) % RECORD == 0 && |bytes| <= RECORD
    ensures
      var o := WriteTransfer(React, c, c.self, [hi, lo] + bytes);
      Transferred(c, o.dev, o.rc, 256 * hi + lo, bytes)
  {
    var base := 256 * hi + lo;
    StartWorks(c);
    if c.plan(c.tick) == Fine {
      var o := Body(React(c, Start).dev, c.self, [hi, lo] + bytes);
      SendBody(c, hi, lo, base, bytes);
      Stops(c, o.dev, o.rc, base, bytes);
    } else {
      WriteFails(c, base, bytes);
    }
  }

  lemma TwoBytes(hi: int, lo: int, bytes: seq<int>)
    ensures [hi, lo] + bytes == [hi] + ([lo] + bytes)
  {
  }

  // Reading

  /** The n bytes from p on, running past the end to the start. */
  function Sequential(mem: seq<int>, p: int, n: nat): seq<int>
    decreases n
  {
    if n == 0 then [] else [Load(mem, p)] + Sequential(mem, (p + 1) % SIZE, n - 1)
  }

  lemma {:induction false} SequentialIsSlice(mem: seq<int>, p: int, n: nat)
    requires |mem| == SIZE && 0 <= p && p + n <= SIZE
    ensures Sequential(mem, p, n) == mem[p..p + n]
    decreases n
  {
    if n > 0 {
      if n > 1 {
        SequentialIsSlice(mem, p + 1, n - 1);
      }
    }
  }

  /** Receiving from a chip that is being read changes nothing but its pointer. */
  lemma {:induction false} ReceiveData(c: Chip, n: nat)
    requires c.Ok() && c.mode.Reading?
    ensures
      var o := ReceiveBytes(React, c, n);
      && o.dev.Ok() && SameChip(c, o.dev) && o.dev.mem == c.mem
      && (o.rc == 0 <==> Quiet(c, n))
      && (o.rc == 0 ==> o.bytes == Sequential(c.mem, c.ptr, n) && o.dev.tick == c.tick + n)
    decreases n
  {
    if n > 0 {
      var r := React(c, Receive(n != 1));
      QuietStep(c, r.dev, n - 1);
      if c.plan(c.tick) == Fine {
        ReceiveData(r.dev, n - 1);
      }
    }
  }

  /** What is received between START and STOP. */
  function ReadBody(c1: Chip, self: int, n: nat): Got<Chip> {
    var a := React(c1, Send(self + 1));
    if ReadAddressAcked(a.status) then ReceiveBytes(React, a.dev, n) else Got(a.dev, [], [], -2)
  }

  /** The outcome of a read of n bytes, up to k bus events in: the memory is as it was. */
  ghost predicate Fetched(c: Chip, dev: Chip, rc: int, bytes: seq<int>, n: nat, k: nat, t: nat) {
    && dev.Ok() && SameChip(c, dev) && dev.mem == c.mem
    && (rc == 0 <==> Quiet(c, k))
    && (rc == 0 ==> bytes == Sequential(c.mem, c.ptr, n) && dev.tick == c.tick + t)
  }

  lemma ReceiveBody(c: Chip, n: nat)
    requires c.Ok() && c.mode.Started?
    ensures var o := ReadBody(c, c.self, n); Fetched(c, o.dev, o.rc, o.bytes, n, n + 1, n + 1)
  {
    var a := React(c, Send(c.self + 1));
    QuietStep(c, a.dev, n);
    if c.plan(c.tick) == Fine {
      ReceiveData(a.dev, n);
    }
  }

  /** A read succeeds exactly when none of its bus events before STOP fails; then it yields the
      bytes from the chip's pointer on. */
  lemma ReadRun(c: Chip, n: nat)
    requires c.Ok()
    ensures var o := ReadTransfer(React, c, c.self, n); Fetched(c, o.dev, o.rc, o.bytes, n, n + 2, n + 3)
  {
    StartWorks(c);
    var c1 := React(c, Start).dev;
    QuietStep(c, c1, n + 1);
    if c.plan(c.tick) == Fine {
      ReceiveBody(c1, n);
      var o := ReadBody(c1, c.self, n);
      ReadStops(c, c1, o.dev, o.rc, o.bytes, n);
    }
  }

  lemma ReadStops(c: Chip, c1: Chip, d: Chip, rc: int, bytes: seq<int>, n: nat)
    requires SameChip(c, c1) && c1.tick == c.tick + 1 && c1.mem == c.mem && c1.ptr == c.ptr && c.plan(c.tick) == Fine
    requires Fetched(c1, d, rc, bytes, n, n + 1, n + 1)
    ensures Fetched(c, React(d, Stop).dev, rc, bytes, n, n + 2, n + 3)
  {
    QuietStep(c, c1, n + 1);
  }
}
