/** The logger of ENDG3051_APP/LogData.cpp: 32-byte records in the EEPROM, pages 0 to 2043 for
    entries, and page 2044 (address 0xFF80) for a cursor of four decimal digits. What a buffer
    on the stack holds before it is filled is a parameter: it may be anything. */
module LogData {
  import opened Iic
  import opened Eeprom

  const DEVLOCK: int := 312
  const ENTRIES: int := 2044
  const CURSOR_PAGE: int := 2044

  type Buffer = s: seq<int> | |s| == 32 witness seq(32, i => 0)
  type Digits4 = s: seq<int> | |s| == 4 witness [0, 0, 0, 0]

  // 16-bit and 8-bit arithmetic

  function Int16(x: int): int {
    (x + 0x8000) % 0x10000 - 0x8000
  }

  /** A byte as a plain char, which is signed here. */
  function Signed(b: int): int {
    (b + 128) % 256 - 128
  }

  function TruncDiv(x: int, y: int): int
    requires y > 0
  {
    if x >= 0 then x / y else -((-x) / y)
  }

  function TruncMod(x: int, y: int): int
    requires y > 0
  {
    x - y * TruncDiv(x, y)
  }

  /** _page * 32, and the two bytes of it that are sent. */
  function Address(page: int): int {
    page * 32 % 0x10000
  }

  function Hi(page: int): int {
    Address(page) / 256
  }

  function Lo(page: int): int {
    Address(page) % 256
  }

  /** What ok() answers: true means that access is refused. */
  predicate Barred(page: int, dl: int) {
    page >= ENTRIES && dl != DEVLOCK
  }

  // Buffers

  /** strcpy of a string into a buffer. */
  function Filled(data: seq<int>, stack: Buffer): (r: Buffer)
    requires |data| < 32
    ensures forall i :: 0 <= i < 32 ==> r[i] == if i < |data| then data[i] else if i == |data| then 0 else stack[i]
  {
    data + [0] + stack[|data| + 1..]
  }

  /** A buffer after a read that yielded these bytes. */
  function Overlay(bytes: seq<int>, stack: seq<int>): (r: seq<int>)
    ensures |r| == |stack|
  {
    if |bytes| <= |stack| then bytes + stack[|bytes|..] else stack
  }

  /** What printing a buffer as a C string shows: all of it before the first NUL. */
  function CString(s: seq<int>): seq<int> {
    if s == [] || s[0] == 0 then [] else [s[0]] + CString(s[1..])
  }

  // The operations, as functions of the chip

  datatype Outcome = Outcome(dev: Chip, rc: int)

  datatype View = View(dev: Chip, rc: int, shown: seq<int>)

  datatype Fetch = Fetch(dev: Chip, value: int)

  function Written(c: Chip, page: int, record: Buffer, dl: int): Outcome {
    if Barred(page, dl) then Outcome(c, 1)
    else
      var o := WriteTransfer(React, c, c.self, [Hi(page), Lo(page)] + record);
      Outcome(o.dev, o.rc)
  }

  /** The outcome of setting an address and then reading from it. */
  datatype Looked = Looked(placed: int, dev: Chip, rc: int, bytes: seq<int>)

  function Lookup(c: Chip, hi: int, lo: int, n: nat): Looked {
    var a := WriteTransfer(React, c, c.self, [hi, lo]);
    var o := ReadTransfer(React, a.dev, c.self, n);
    Looked(a.rc, o.dev, o.rc, o.bytes)
  }

  function PageRead(c: Chip, page: int, dl: int, stack: Buffer): View {
    if Barred(page, dl) then View(c, 1, [])
    else
      var o := Lookup(c, Hi(page), Lo(page), |stack|);
      View(o.dev, o.rc, CString(Overlay(o.bytes, stack)))
  }

  /** Four decimal digits as a number, in 16-bit arithmetic. */
  function Decoded(d: Digits4): int {
    Int16((Signed(d[0]) - 48) * 1000 + (Signed(d[1]) - 48) * 100 + (Signed(d[2]) - 48) * 10 + Signed(d[3]) - 48)
  }

  function CursorFetched(c: Chip, stack: Digits4): Fetch {
    var o := Lookup(c, 0xFF, 0x80, |stack|);
    Fetch(o.dev, Decoded(Overlay(o.bytes, stack)))
  }

  /** The last m decimal digits of k, with the remainder that truncates toward zero. */
  function Numbers(k: int, m: nat): (d: seq<int>)
    ensures |d| == m
    decreases m
  {
    if m == 0 then [] else Numbers(TruncDiv(k, 10), m - 1) + [TruncMod(k, 10)]
  }

  function Chars(d: seq<int>): (s: seq<int>)
    ensures |s| == |d|
  {
    seq(|d|, j requires 0 <= j < |d| => (d[j] + 48) % 256)
  }

  /** The text that Reset stores. */
  function Zeros(): seq<int> {
    [48, 48, 48, 48]
  }

  function Ascii(k: int): Digits4 {
    Chars(Numbers(k, |Zeros()|))
  }

  function Next(k: int): int {
    if k + 1 >= ENTRIES then 0 else k + 1
  }

  function CursorMoved(c: Chip, k: int): Outcome {
    var o := WriteTransfer(React, c, c.self, [0xFF, 0x80] + Ascii(Next(k)));
    Outcome(o.dev, o.rc)
  }

  function Slot(value: int): int {
    if value >= ENTRIES then 0 else value
  }

  /** What the buffers of one WriteAuto call hold before. */
  datatype Junk = Junk(record: Buffer, digits: Digits4)

  function AutoWritten(c: Chip, data: seq<int>, junk: Junk): Outcome
    requires |data| < 32
  {
    var f := CursorFetched(c, junk.digits);
    var a := Slot(f.value);
    var o := Written(f.dev, a, Filled(data, junk.record), 0);
    if o.rc == 0 then Outcome(CursorMoved(o.dev, a).dev, 0) else o
  }

  datatype Pages = Pages(dev: Chip, rc: int, serial: seq<seq<int>>)

  /** Pages from i up to e, one after the other, each shown in turn as this reader shows it; rc
      is that of the last. */
  function PagesRead(reader: (Chip, int) -> View, from: Pages, i: int, e: int): Pages
    decreases e - i
  {
    if i > e then from
    else
      var o := reader(from.dev, i);
      PagesRead(reader, Pages(o.dev, o.rc, if Barred(i, 0) then from.serial else from.serial + [o.shown]), i + 1, e)
  }

  function Reader(stacks: int -> Buffer): (Chip, int) -> View {
    (c: Chip, i: int) => PageRead(c, i, 0, stacks(i))
  }

  ghost predicate ReadsPages(reader: (Chip, int) -> View, stacks: int -> Buffer) {
    forall c: Chip, i: int {:trigger PageRead(c, i, 0, stacks(i))} :: reader(c, i) == PageRead(c, i, 0, stacks(i))
  }

  const E2_END_ADDR: int := 0xFFFF

  /** The guards of ReadFT: page * 32 is compared as an unsigned 16-bit number. */
  predicate RangeRefused(first: int, last: int) {
    || Address(last) > E2_END_ADDR
    || Address(first) > E2_END_ADDR
    || first > last
    || Address(first) > E2_END_ADDR - 32
  }

  // What they do to the records

  /** Page p of the log, 0 <= p < 2048. */
  function Rec(mem: seq<int>, p: int): seq<int>
    requires |mem| == SIZE && 0 <= p < 2048
  {
    mem[32 * p..32 * p + 32]
  }

  /** The page that an access to any page number reaches, in 16-bit arithmetic. */
  function Reached(page: int): (p: int)
    ensures 0 <= p < 2048
  {
    page % 2048
  }

  lemma PageAddress(page: int)
    ensures 0 <= Hi(page) < 256 && 0 <= Lo(page) < 256
    ensures 256 * Hi(page) + Lo(page) == Address(page) == 32 * Reached(page)
  {
    assert page * 32 == 0x10000 * (page / 2048) + 32 * Reached(page);
  }

  /** mem' agrees with mem on every page but p. */
  ghost predicate OnlyPage(mem: seq<int>, mem': seq<int>, p: int) {
    |mem| == |mem'| == SIZE && forall q :: 0 <= q < 2048 && q != p ==> Rec(mem', q) == Rec(mem, q)
  }

  lemma RecordIsPage(mem: seq<int>, mem': seq<int>, p: int)
    requires |mem| == SIZE && 0 <= p < 2048 && OnlyRecord(mem, mem', 32 * p)
    ensures OnlyPage(mem, mem', p)
  {
    forall q | 0 <= q < 2048 && q != p ensures Rec(mem', q) == Rec(mem, q) {
      forall i | 0 <= i < 32 ensures Rec(mem', q)[i] == Rec(mem, q)[i] {
      }
    }
  }

  lemma StoredIsRecord(mem: seq<int>, mem': seq<int>, p: int, bytes: seq<int>)
    requires |mem| == SIZE && 0 <= p < 2048 && Stored(mem, mem', 32 * p, bytes) && |bytes| <= 32
    ensures Rec(mem', p) == bytes + Rec(mem, p)[|bytes|..]
  {
    forall i | 0 <= i < 32 ensures Rec(mem', p)[i] == (bytes + Rec(mem, p)[|bytes|..])[i] {
    }
  }

  /** A failed write of n bytes has not stored the last one, unless a failing event has left the
      page in some state. */
  ghost predicate Unfinished(c: Chip, dev: Chip, p: int, n: int)
    requires |c.mem| == |dev.mem| == SIZE && 0 <= p < 2048
  {
    0 < n <= 32 ==> Rec(dev.mem, p)[n - 1] == Rec(c.mem, p)[n - 1] || Harmed(c.plan, Rec(dev.mem, p))
  }

  /** One access to page p left the chip like this: the other pages are as they were; the
      access succeeded exactly if none of its bus events before STOP failed, and then the
      page starts with the bytes. */
  ghost predicate PageWritten(c: Chip, dev: Chip, rc: int, p: int, bytes: seq<int>) {
    && dev.Ok() && SameChip(c, dev) && 0 <= p < 2048 && |bytes| <= 32 && OnlyPage(c.mem, dev.mem, p)
    && (rc == 0 <==> Quiet(c, |bytes| + 4))
    && (rc == 0 ==> Rec(dev.mem, p) == bytes + Rec(c.mem, p)[|bytes|..] && dev.tick == c.tick + |bytes| + 5)
    && (rc != 0 ==> Unfinished(c, dev, p, |bytes|))
  }

  lemma ShortIsUnfinished(c: Chip, dev: Chip, p: int, n: int)
    requires |c.mem| == |dev.mem| == SIZE && 0 <= p < 2048 && Short(c.plan, c.mem, dev.mem, 32 * p, n)
    ensures Unfinished(c, dev, p, n)
  {
    assert RecordAt(dev.mem, 32 * p) == Rec(dev.mem, p);
    if 0 < n <= 32 {
      assert Rec(dev.mem, p)[n - 1] == Load(dev.mem, 32 * p + n - 1);
      assert Rec(c.mem, p)[n - 1] == Load(c.mem, 32 * p + n - 1);
    }
  }

  lemma TransferWritesPage(c: Chip, hi: int, lo: int, p: int, bytes: seq<int>)
    requires c.Ok() && 0 <= hi < 256 && 0 <= lo < 256 && 256 * hi + lo == 32 * p && |bytes| <= 32
    ensures
      var o := WriteTransfer(React, c, c.self, [hi, lo] + bytes);
      PageWritten(c, o.dev, o.rc, p, bytes)
  {
    var o := WriteTransfer(React, c, c.self, [hi, lo] + bytes);
    WriteRecord(c, hi, lo, bytes);
    RecordIsPage(c.mem, o.dev.mem, p);
    if o.rc == 0 {
      StoredIsRecord(c.mem, o.dev.mem, p, bytes);
    } else {
      ShortIsUnfinished(c, o.dev, p, |bytes|);
    }
  }

  /** An update of page p of the log to this record: it succeeds exactly if no bus event
      fails, and whatever happens the other pages keep their contents. */
  ghost predicate Updated(c: Chip, o: Outcome, p: int, record: Buffer) {
    && o.dev.Ok() && SameChip(c, o.dev) && 0 <= p < 2048 && OnlyPage(c.mem, o.dev.mem, p)
    && (o.rc == 0 <==> Quiet(c, |record| + 4))
    && (o.rc == 0 ==> Rec(o.dev.mem, p) == record && o.dev.tick == c.tick + |record| + 5)
  }

  /** Write refines an update of one page of the log; a barred one does nothing. */
  lemma WriteRefines(c: Chip, page: int, record: Buffer, dl: int)
    requires c.Ok()
    ensures
      var o := Written(c, page, record, dl);
      if Barred(page, dl) then o == Outcome(c, 1) else Updated(c, o, Reached(page), record)
  {
    PageAddress(page);
    TransferWritesPage(c, Hi(page), Lo(page), Reached(page), record);
    assert record + Rec(c.mem, Reached(page))[|record|..] == record;
  }

  /** What setting an address and reading n bytes does. The memory is as it was. With the
      address set the bytes are those from there on; if setting it failed they are those from
      where the chip's pointer was. */
  ghost predicate LookedUp(c: Chip, l: Looked, addr: int, n: nat) {
    && l.dev.Ok() && SameChip(c, l.dev) && l.dev.mem == c.mem
    && (l.placed == 0 <==> Quiet(c, 4))
    && (l.rc == 0 ==> l.bytes == Sequential(c.mem, if l.placed == 0 then addr else c.ptr, n) && |l.bytes| == n)
    && (Quiet(c, n + 7) ==> l.rc == 0 && l.dev.tick == c.tick + n + 8)
  }

  lemma LookupRefines(c: Chip, hi: int, lo: int, n: nat)
    requires c.Ok() && 0 <= hi < 256 && 0 <= lo < 256 && (256 * hi + lo) % 32 == 0
    ensures LookedUp(c, Lookup(c, hi, lo, n), 256 * hi + lo, n)
  {
    assert [hi, lo] + [] == [hi, lo];
    WriteRecord(c, hi, lo, []);
    var a := WriteTransfer(React, c, c.self, [hi, lo]);
    ReadRun(a.dev, n);
    SequentialLength(c.mem, a.dev.ptr, n);
    if Quiet(c, n + 7) {
      assert Quiet(c, 4);
      QuietLater(c, a.dev, 5, n + 2);
    }
  }

  lemma {:induction false} SequentialLength(mem: seq<int>, p: int, n: nat)
    ensures |Sequential(mem, p, n)| == n
    decreases n
  {
    if n > 0 {
      SequentialLength(mem, (p + 1) % SIZE, n - 1);
    }
  }

  /** ReadPage changes no byte. When it returns 0 it shows 32 bytes as a string: those of the
      page if its address was set, and otherwise those the chip's pointer was at, for rc tells
      nothing of a failed address transfer. */
  ghost predicate Shows(c: Chip, o: View, page: int) {
    && o.dev.Ok() && SameChip(c, o.dev) && o.dev.mem == c.mem
    && (o.rc == 0 ==> o.shown == CString(if Quiet(c, 4) then Rec(c.mem, Reached(page)) else Sequential(c.mem, c.ptr, RECORD)))
    && (Quiet(c, RECORD + 7) ==> o.rc == 0 && o.dev.tick == c.tick + RECORD + 8)
  }

  lemma ReadRefines(c: Chip, page: int, dl: int, stack: Buffer)
    requires c.Ok()
    ensures var o := PageRead(c, page, dl, stack); if Barred(page, dl) then o == View(c, 1, []) else Shows(c, o, page)
  {
    LookupPage(c, page, |stack|);
    ShowsPage(c, Lookup(c, Hi(page), Lo(page), |stack|), page, stack);
  }

  lemma LookupPage(c: Chip, page: int, n: nat)
    requires c.Ok()
    ensures LookedUp(c, Lookup(c, Hi(page), Lo(page), n), 32 * Reached(page), n)
  {
    PageAddress(page);
    LookupRefines(c, Hi(page), Lo(page), n);
  }

  lemma ShowsPage(c: Chip, l: Looked, page: int, stack: Buffer)
    requires c.Ok() && LookedUp(c, l, 32 * Reached(page), |stack|)
    ensures Shows(c, View(l.dev, l.rc, CString(Overlay(l.bytes, stack))), page)
  {
    PageBytes(c.mem, Reached(page), |stack|);
    assert l.rc == 0 ==> Overlay(l.bytes, stack) == l.bytes;
  }

  lemma PageBytes(mem: seq<int>, p: int, n: nat)
    requires |mem| == SIZE && 0 <= p < 2048 && n == 32
    ensures Sequential(mem, 32 * p, n) == Rec(mem, p)
  {
    SequentialIsSlice(mem, 32 * p, n);
  }

  /** Both transfers of get_addr succeed. */
  ghost predicate CursorReadable(c: Chip, stack: Digits4) {
    var l := Lookup(c, 0xFF, 0x80, |stack|);
    l.placed == 0 && l.rc == 0
  }

  lemma CursorFetchRefines(c: Chip, stack: Digits4)
    requires c.Ok()
    ensures
      var f := CursorFetched(c, stack);
      && f.dev.Ok() && SameChip(c, f.dev) && f.dev.mem == c.mem
      && (CursorReadable(c, stack) ==> f.value == Decoded(Rec(c.mem, CURSOR_PAGE)[..4]))
  {
    LookupRefines(c, 0xFF, 0x80, |stack|);
    if CursorReadable(c, stack) {
      FetchesCursor(c, Lookup(c, 0xFF, 0x80, |stack|), stack);
    }
  }

  lemma FetchesCursor(c: Chip, l: Looked, stack: Digits4)
    requires c.Ok() && LookedUp(c, l, 0xFF80, |stack|) && l.placed == 0 && l.rc == 0
    ensures Overlay(l.bytes, stack) == Rec(c.mem, CURSOR_PAGE)[..4]
  {
    SequentialIsSlice(c.mem, 0xFF80, |stack|);
    assert Rec(c.mem, CURSOR_PAGE)[..4] == c.mem[0xFF80..0xFF84];
  }

  lemma CursorMoveRefines(c: Chip, k: int)
    requires c.Ok()
    ensures var o := CursorMoved(c, k); PageWritten(c, o.dev, o.rc, CURSOR_PAGE, Ascii(Next(k)))
  {
    TransferWritesPage(c, 0xFF, 0x80, CURSOR_PAGE, Ascii(Next(k)));
  }

  // The class

  class Logger {
    const address: int
    const bus: Bus<Chip>
    /** What ReadPage has printed. */
    var serial: seq<seq<int>>

    /** The chip with this logger's address is on the bus. */
    ghost predicate Valid()
      reads bus
    {
      bus.react == React && bus.dev.Ok() && bus.dev.self == address
    }

    constructor (port: nat, bus: Bus<Chip>)
      requires port < 8 && bus.react == React && bus.dev.Ok() && bus.dev.self == 0xA0 + 2 * port
      ensures Valid() && this.bus == bus && serial == []
    {
      address := 0xA0 + 2 * port;
      this.bus := bus;
      serial := [];
    }

    method Write(page: int, data: seq<int>, dl: int, stack: Buffer) returns (rc: int)
      requires Valid() && |data| < 32
      modifies bus
      ensures Valid() && Outcome(bus.dev, rc) == Written(old(bus.dev), page, Filled(data, stack), dl)
    {
      WriteRefines(bus.dev, page, Filled(data, stack), dl);
      if Barred(page, dl) {
        return 1;
      }
      rc := IICWrite(bus, address, [Hi(page), Lo(page)] + Filled(data, stack));
    }

    method Reset(dl: int, stack: Buffer)
      requires Valid()
      modifies bus
      ensures Valid() && bus.dev == Written(old(bus.dev), CURSOR_PAGE, Filled(Zeros(), stack), dl).dev
    {
      var _ := Write(CURSOR_PAGE, Zeros(), dl, stack);
    }

    method ReadPage(page: int, dl: int, stack: Buffer) returns (rc: int)
      requires Valid()
      modifies bus, `serial
      ensures
        var o := PageRead(old(bus.dev), page, dl, stack);
        && Valid() && bus.dev == o.dev && rc == o.rc
        && serial == if Barred(page, dl) then old(serial) else old(serial) + [o.shown]
    {
      ReadRefines(bus.dev, page, dl, stack);
      if Barred(page, dl) {
        return 1;
      }
      var buffer := new int[32](i requires 0 <= i < 32 => stack[i]);
      assert buffer[..] == stack;
      var _ := IICWrite(bus, address, [Hi(page), Lo(page)]);
      rc := IICRead(bus, address, buffer, |stack|);
      serial := serial + [CString(buffer[..])];
    }

    method GetAddr(stack: Digits4) returns (k: int)
      requires Valid()
      modifies bus
      ensures Valid() && Fetch(bus.dev, k) == CursorFetched(old(bus.dev), stack)
    {
      CursorFetchRefines(bus.dev, stack);
      var d := new int[4](i requires 0 <= i < 4 => stack[i]);
      assert d[..] == stack;
      var _ := IICWrite(bus, address, [0xFF, 0x80]);
      var _ := IICRead(bus, address, d, |stack|);
      k := Decoded(d[..]);
    }

    method UpdAddr(caddr: int)
      requires Valid()
      modifies bus
      ensures Valid() && bus.dev == CursorMoved(old(bus.dev), caddr).dev
    {
      CursorMoveRefines(bus.dev, caddr);
      var d := DigitsOf(Next(caddr));
      var _ := IICWrite(bus, address, [0xFF, 0x80] + d);
    }

    method WriteAuto(data: seq<int>, junk: Junk) returns (rc: int)
      requires Valid() && |data| < 32
      modifies bus
      ensures Valid() && Outcome(bus.dev, rc) == AutoWritten(old(bus.dev), data, junk)
    {
      var a := GetAddr(junk.digits);
      if a >= ENTRIES {
        a := 0;
      }
      rc := Write(a, data, 0, junk.record);
      if rc == 0 {
        UpdAddr(a);
      }
    }

    method ReadAll(stacks: int -> Buffer) returns (rc: int)
      requires Valid()
      modifies bus, `serial
      ensures Valid()
      ensures
        var from := Pages(old(bus.dev), 0, old(serial));
        Pages(bus.dev, rc, serial) == PagesRead(Reader(stacks), from, 0, ENTRIES - 1)
    {
      rc := ReadPages(0, ENTRIES - 1, stacks, 0, Reader(stacks));
    }

    method ReadFT(first: int, last: int, stacks: int -> Buffer) returns (rc: int)
      requires Valid()
      modifies bus, `serial
      ensures Valid()
      ensures
        var from := Pages(old(bus.dev), 1, old(serial));
        Pages(bus.dev, rc, serial)
        == if RangeRefused(first, last) then from else PagesRead(Reader(stacks), from, first, last)
    {
      if RangeRefused(first, last) {
        return 1;
      }
      rc := ReadPages(first, last, stacks, 1, Reader(stacks));
    }

    /** The loops of ReadAll and ReadFT. */
    method ReadPages(first: int, last: int, stacks: int -> Buffer, init: int, ghost reader: (Chip, int) -> View)
        returns (rc: int)
      requires Valid() && ReadsPages(reader, stacks)
      modifies bus, `serial
      ensures Valid()
      ensures Pages(bus.dev, rc, serial) == PagesRead(reader, Pages(old(bus.dev), init, old(serial)), first, last)
    {
      rc := init;
      var i := first;
      ghost var all := PagesRead(reader, Pages(bus.dev, init, serial), first, last);
      while i <= last
        invariant Valid() && all == PagesRead(reader, Pages(bus.dev, rc, serial), i, last)
      {
        rc := ReadNext(i, stacks, reader);
        i := i + 1;
      }
    }

    method ReadNext(i: int, stacks: int -> Buffer, ghost reader: (Chip, int) -> View) returns (rc: int)
      requires Valid() && ReadsPages(reader, stacks)
      modifies bus, `serial
      ensures
        var o := reader(old(bus.dev), i);
        && Valid() && bus.dev == o.dev && rc == o.rc
        && serial == if Barred(i, 0) then old(serial) else old(serial) + [o.shown]
    {
      rc := ReadPage(i, 0, stacks(i));
    }
  }

  /** The digits of k as characters, found from the right. */
  method DigitsOf(k: int) returns (chars: seq<int>)
    ensures chars == Ascii(k)
  {
    var digits := new int[4];
    var rest, i := k, digits.Length;
    ghost var all := Numbers(k, digits.Length);
    while i > 0
      invariant 0 <= i <= digits.Length
      invariant all == Numbers(rest, i) + digits[i..]
    {
      ghost var done := digits[i..];
      i := i - 1;
      digits[i] := TruncMod(rest, 10);
      rest := TruncDiv(rest, 10);
      assert digits[i..] == [digits[i]] + done;
    }
    chars := Chars(digits[..]);
  }
}
