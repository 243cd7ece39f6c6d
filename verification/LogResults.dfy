/** What the operations of the logger return, and where their entries go. */
module LogResults {
  import opened Iic
  import opened IicProtocol
  import opened Eeprom
  import opened LogData
  import opened LogRuns
  import opened LogFaults

  // Results

  lemma TransferResult(c: Chip, bytes: seq<int>)
    requires c.Ok()
    ensures
      var rc := WriteTransfer(React, c, c.self, bytes).rc;
      (rc == 0 || rc == -1 || rc == -2) && (rc == -1 <==> c.plan(c.tick) != Fine)
  {
    StartWorks(c);
    StatusCodes(React(c, Start).status);
    WriteIsProper(React, c, c.self, bytes);
  }

  /** What Write returns: 1 exactly for pages from 2044 up without the devlock, and then nothing
      happens on the bus; -1 if START fails; 0 if no bus event fails; otherwise -2. */
  lemma WriteResult(c: Chip, page: int, record: Buffer, dl: int)
    requires c.Ok()
    ensures
      var o := Written(c, page, record, dl);
      && (page >= 2044 && dl != 312 ==> o == Outcome(c, 1))
      && (!(page >= 2044 && dl != 312) ==> o.rc == if c.plan(c.tick) != Fine then -1 else if Quiet(c, 36) then 0 else -2)
  {
    WriteRefines(c, page, record, dl);
    TransferResult(c, [Hi(page), Lo(page)] + record);
    QuietStart(c, 36);
  }

  lemma QuietStart(c: Chip, k: nat)
    requires k > 0
    ensures Quiet(c, k) ==> c.plan(c.tick) == Fine
  {
  }

  /** Where the chip stands after the transfer that sets the address of a page. */
  function Addressed(c: Chip, page: int): Chip {
    WriteTransfer(React, c, c.self, [Hi(page), Lo(page)]).dev
  }

  lemma ReadTransferResult(c: Chip, n: nat)
    requires c.Ok()
    ensures
      var rc := ReadTransfer(React, c, c.self, n).rc;
      rc == if c.plan(c.tick) != Fine then -1 else if Quiet(c, n + 2) then 0 else -2
  {
    StartWorks(c);
    StatusCodes(React(c, Start).status);
    ReadIsProper(React, c, c.self, n);
    ReadRun(c, n);
    QuietStart(c, n + 2);
  }

  /** What ReadPage returns: the same, but counted from after the transfer that sets the
      address, whose own result is lost. */
  lemma ReadResult(c: Chip, page: int, dl: int, stack: Buffer)
    requires c.Ok()
    ensures
      var o := PageRead(c, page, dl, stack);
      && (page >= 2044 && dl != 312 ==> o == View(c, 1, []))
      && (!(page >= 2044 && dl != 312) ==>
            var a := Addressed(c, page);
            o.rc == if a.plan(a.tick) != Fine then -1 else if Quiet(a, 34) then 0 else -2)
  {
    if !Barred(page, dl) {
      AddressedOk(c, page);
      ReadAfterAddress(c, page, dl, stack);
      ReadTransferResult(Addressed(c, page), |stack|);
    }
  }

  lemma ReadAfterAddress(c: Chip, page: int, dl: int, stack: Buffer)
    requires !Barred(page, dl)
    ensures PageRead(c, page, dl, stack).rc == ReadTransfer(React, Addressed(c, page), c.self, |stack|).rc
  {
  }

  lemma AddressedOk(c: Chip, page: int)
    requires c.Ok()
    ensures Addressed(c, page).Ok() && SameChip(c, Addressed(c, page))
  {
    PageAddress(page);
    assert [Hi(page), Lo(page)] + [] == [Hi(page), Lo(page)];
    WriteRecord(c, Hi(page), Lo(page), []);
  }

  /** ReadPage prints its buffer even if nothing was read: after two failed STARTs, whatever the
      buffer held before. */
  lemma DeafRead(c: Chip, page: int, dl: int, stack: Buffer)
    requires c.Ok() && c.plan(c.tick) != Fine && c.plan(c.tick + 1) != Fine && !(page >= 2044 && dl != 312)
    ensures PageRead(c, page, dl, stack) == View(Twice(c), -1, CString(stack))
  {
    StartWorks(c);
    FailedStart(c, [Hi(page), Lo(page)]);
    FailedReadStart(React(c, Start).dev, |stack|);
    assert Overlay([], stack) == stack;
  }

  /** WriteAuto returns what the write of its record returned, and is never refused. */
  lemma AutoResult(c: Chip, data: seq<int>, junk: Junk)
    requires c.Ok() && |data| < 32
    ensures
      var d := CursorFetched(c, junk.digits).dev;
      AutoWritten(c, data, junk).rc == if d.plan(d.tick) != Fine then -1 else if Quiet(d, 36) then 0 else -2
  {
    var f := CursorFetched(c, junk.digits);
    CursorFetchRefines(c, junk.digits);
    WriteResult(f.dev, Slot(f.value), Filled(data, junk.record), 0);
  }

  // Ranges

  /** A range goes on to its last page whatever the earlier ones returned, and returns what the
      last one returned. */
  lemma {:induction false} LastPageDecides(reader: (Chip, int) -> View, from: Pages, i: int, e: int)
    requires i <= e
    ensures
      var before, after := PagesRead(reader, from, i, e - 1), PagesRead(reader, from, i, e);
      var o := reader(before.dev, e);
      after == Pages(o.dev, o.rc, if e >= 2044 then before.serial else before.serial + [o.shown])
    decreases e - i
  {
    if i < e {
      var o := reader(from.dev, i);
      LastPageDecides(reader, Pages(o.dev, o.rc, if Barred(i, 0) then from.serial else from.serial + [o.shown]), i + 1, e);
    }
  }

  // Cursors that are not page numbers

  /** A cursor of 2044 or more stands for page 0: that is where the entry goes, and the next one
      goes to page 1. */
  lemma HighCursor(c: Chip, data: seq<int>, junk: Junk)
    requires c.Ok() && Flawless(c) && |data| < 32 && Decoded(CursorText(c.mem)) >= 2044
    ensures
      var o := AutoWritten(c, data, junk);
      && o.rc == 0 && o.dev.Ok() && Rec(o.dev.mem, 0) == Filled(data, junk.record) && Decoded(CursorText(o.dev.mem)) == 1
      && forall p :: 0 < p < 2044 ==> Rec(o.dev.mem, p) == Rec(c.mem, p)
  {
    var f, r := CursorFetched(c, junk.digits), Filled(data, junk.record);
    FlawlessFetch(c, junk.digits);
    CursorFetchRefines(c, junk.digits);
    assert Slot(f.value) == 0;
    FirstEntry(f.dev, r);
  }

  lemma FirstEntry(c: Chip, r: Buffer)
    requires c.Ok() && Flawless(c)
    ensures
      var o := Written(c, 0, r, 0);
      var m := CursorMoved(o.dev, 0);
      && o.rc == 0 && m.dev.Ok() && Rec(m.dev.mem, 0) == r && Decoded(CursorText(m.dev.mem)) == 1
      && forall p :: 0 < p < 2044 ==> Rec(m.dev.mem, p) == Rec(c.mem, p)
  {
    var o := Written(c, 0, r, 0);
    FlawlessWrite(c, 0, r, 0);
    RecordWritten(c, 0, r);
    FlawlessMove(o.dev, 0);
    CursorMoveRefines(o.dev, 0);
    CursorRoundTrip(1);
    assert CursorText(CursorMoved(o.dev, 0).dev.mem) == Ascii(1);
  }

  /** The cursor of an erased chip, whose bytes are all 0xFF: a plain char is signed, and the sum
      of -49000, -4900, -490 and -49 wraps around in 16 bits to 11097. */
  lemma ErasedCursor(text: Digits4)
    requires forall i :: 0 <= i < 4 ==> text[i] == 0xFF
    ensures Decoded(text) == 11097
  {
    assert Signed(0xFF) == -1;
  }
}
