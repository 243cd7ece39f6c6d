/** Where the logger does not keep what one would expect of it, and exactly when. */
module LogFaults {
  import opened Iic
  import opened Eeprom
  import opened LogData
  import opened LogRuns

  // Cursor updates that are lost

  /** No failing event happens to leave behind a page that starts like a cursor. */
  ghost predicate Luckless(plan: nat -> Fault) {
    forall t: nat, k :: plan(t).Fails? && |plan(t).junk| == RECORD && 0 <= k < ENTRIES ==> plan(t).junk[..4] != Ascii(k)
  }

  lemma LastDigit(k: int)
    requires 0 <= k < ENTRIES
    ensures Ascii(k)[3] == k % 10 + 48
  {
    var n := Numbers(k, |Zeros()|);
    assert n[3] == TruncMod(k, 10);
  }

  lemma LastDigitChanges(n: nat)
    ensures Ascii(PageOf(n))[3] != Ascii(PageOf(n + 1))[3]
  {
    NextPage(n);
    LastDigit(PageOf(n));
    LastDigit(PageOf(n + 1));
  }

  /** The cursor counts on exactly if its update succeeds, that is if none of the bus events of
      that transfer fails: the last digit always changes, and it is stored last. */
  lemma CursorMovesIff(c: Chip, n: nat)
    requires c.Ok() && Luckless(c.plan) && CursorText(c.mem) == Ascii(PageOf(n))
    ensures
      var o := CursorMoved(c, PageOf(n));
      && o.dev.Ok() && (o.rc == 0 <==> Quiet(c, 8))
      && (CursorText(o.dev.mem) == Ascii(PageOf(n + 1)) <==> o.rc == 0)
  {
    var o := CursorMoved(c, PageOf(n));
    CursorMoveRefines(c, PageOf(n));
    NextPage(n);
    if o.rc == 0 {
      CursorWritten(c, n);
    } else {
      LastDigitChanges(n);
      NotCounted(c.plan, c.mem, o.dev.mem, PageOf(n), PageOf(n + 1));
    }
  }

  lemma NotCounted(plan: nat -> Fault, mem: seq<int>, mem': seq<int>, k: int, k': int)
    requires |mem| == |mem'| == SIZE && Luckless(plan) && 0 <= k' < ENTRIES && Ascii(k)[3] != Ascii(k')[3]
    requires CursorText(mem) == Ascii(k)
    requires Rec(mem', CURSOR_PAGE)[3] == Rec(mem, CURSOR_PAGE)[3] || Harmed(plan, Rec(mem', CURSOR_PAGE))
    ensures CursorText(mem') != Ascii(k')
  {
    assert CursorText(mem)[3] == Rec(mem, CURSOR_PAGE)[3] && CursorText(mem')[3] == Rec(mem', CURSOR_PAGE)[3];
  }

  /** Lifted to WriteAuto: with a cursor that can be read, a call keeps the log exactly if, once
      the record was written, the update of the cursor succeeds. */
  lemma AutoKeepsIff(c: Chip, rs: seq<seq<int>>, data: seq<int>, junk: Junk)
    requires c.Ok() && Luckless(c.plan) && Kept(c.mem, rs) && |data| < 32 && CursorReadable(c, junk.digits)
    ensures
      var o := AutoWritten(c, data, junk);
      && o.dev.Ok() && SameChip(c, o.dev)
      && (Kept(o.dev.mem, if o.rc == 0 then rs + [Filled(data, junk.record)] else rs) <==> CursorWorks(c, data, junk))
  {
    AutoKeepsChip(c, data, junk);
    if CursorWorks(c, data, junk) {
      AutoKeeps(c, rs, data, junk);
    } else {
      AutoLoses(c, rs, data, junk);
    }
  }

  lemma AutoKeepsChip(c: Chip, data: seq<int>, junk: Junk)
    requires c.Ok() && |data| < 32
    ensures AutoWritten(c, data, junk).dev.Ok() && SameChip(c, AutoWritten(c, data, junk).dev)
  {
    var f := CursorFetched(c, junk.digits);
    CursorFetchRefines(c, junk.digits);
    var a := Slot(f.value);
    WriteRefines(f.dev, a, Filled(data, junk.record), 0);
    CursorMoveRefines(Written(f.dev, a, Filled(data, junk.record), 0).dev, a);
  }

  lemma AutoLoses(c: Chip, rs: seq<seq<int>>, data: seq<int>, junk: Junk)
    requires c.Ok() && Luckless(c.plan) && Kept(c.mem, rs) && |data| < 32 && CursorReadable(c, junk.digits)
    requires !CursorWorks(c, data, junk)
    ensures var o := AutoWritten(c, data, junk); o.rc == 0 && !Kept(o.dev.mem, rs + [Filled(data, junk.record)])
  {
    var f := CursorFetched(c, junk.digits);
    CursorFetchRefines(c, junk.digits);
    CursorFound(c, |rs|, junk.digits);
    EntryLoses(f.dev, rs, Filled(data, junk.record));
  }

  lemma EntryLoses(c: Chip, rs: seq<seq<int>>, r: Buffer)
    requires c.Ok() && Luckless(c.plan) && Kept(c.mem, rs)
    requires var o := Written(c, PageOf(|rs|), r, 0); o.rc == 0 && CursorMoved(o.dev, PageOf(|rs|)).rc != 0
    ensures !Kept(CursorMoved(Written(c, PageOf(|rs|), r, 0).dev, PageOf(|rs|)).dev.mem, rs + [r])
  {
    var o := Written(c, PageOf(|rs|), r, 0);
    RecordWritten(c, PageOf(|rs|), r);
    assert Rec(o.dev.mem, CURSOR_PAGE) == Rec(c.mem, CURSOR_PAGE);
    CursorMovesIff(o.dev, |rs|);
    assert |rs + [r]| == |rs| + 1;
  }

  // Over whole runs

  ghost predicate StepReadable(c: Chip, s: Step) {
    s.Auto? ==> CursorReadable(c, s.junk.digits)
  }

  ghost predicate AlwaysReadable(l: Log, ss: seq<Step>)
    requires forall s <- ss :: s.Ok()
    decreases |ss|
  {
    ss != [] ==> StepReadable(l.dev, ss[0]) && AlwaysReadable(Take(l, ss[0]), ss[1..])
  }

  /** The log is sound at the start, after every step and at the end. */
  ghost predicate AlwaysSound(l: Log, ss: seq<Step>)
    requires forall s <- ss :: s.Ok()
    decreases |ss|
  {
    Sound(l) && (ss != [] ==> AlwaysSound(Take(l, ss[0]), ss[1..]))
  }

  lemma TakeKeepsIff(l: Log, s: Step)
    requires Sound(l) && Luckless(l.dev.plan) && s.Ok() && StepReadable(l.dev, s)
    ensures SameChip(l.dev, Take(l, s).dev) && (Sound(Take(l, s)) <==> StepWorks(l.dev, s))
  {
    match s
    case Auto(data, junk) => TakeAutoIff(l, data, junk);
    case Look(page, dl, stack) => {
      TakeLook(l, page, dl, stack);
      ReadRefines(l.dev, page, dl, stack);
    }
  }

  lemma TakeAutoIff(l: Log, data: seq<int>, junk: Junk)
    requires Sound(l) && Luckless(l.dev.plan) && Text(data) && CursorReadable(l.dev, junk.digits)
    ensures
      var l' := Take(l, Auto(data, junk));
      SameChip(l.dev, l'.dev) && (Sound(l') <==> CursorWorks(l.dev, data, junk))
  {
    AutoKeepsIff(l.dev, l.records, data, junk);
    if CursorWorks(l.dev, data, junk) {
      TakeAuto(l, data, junk);
    }
  }

  /** While the cursor can be read, a run keeps the log sound throughout exactly if every update
      of the cursor that it makes succeeds. */
  lemma {:induction false} RunKeepsIff(l: Log, ss: seq<Step>)
    requires Sound(l) && Luckless(l.dev.plan) && (forall s <- ss :: s.Ok()) && AlwaysReadable(l, ss)
    ensures AlwaysSound(l, ss) <==> CursorAlwaysWorks(l, ss)
    decreases |ss|
  {
    if ss != [] {
      TakeKeepsIff(l, ss[0]);
      if StepWorks(l.dev, ss[0]) {
        RunKeepsIff(Take(l, ss[0]), ss[1..]);
      } else {
        UnsoundStart(Take(l, ss[0]), ss[1..]);
      }
    }
  }

  lemma UnsoundStart(l: Log, ss: seq<Step>)
    requires !Sound(l) && forall s <- ss :: s.Ok()
    ensures !AlwaysSound(l, ss)
  {
  }

  /** A cursor update whose START fails is not noticed: WriteAuto returns 0, and the cursor
      still names the page just written, which the next entry will replace. */
  lemma LostUpdate(c: Chip, rs: seq<seq<int>>, data: seq<int>, junk: Junk)
    requires c.Ok() && Kept(c.mem, rs) && |data| < 32 && CursorReadable(c, junk.digits)
    requires
      var o := Written(CursorFetched(c, junk.digits).dev, PageOf(|rs|), Filled(data, junk.record), 0);
      o.rc == 0 && o.dev.plan(o.dev.tick) != Fine
    ensures
      var o := AutoWritten(c, data, junk);
      o.rc == 0 && o.dev.Ok() && Decoded(CursorText(o.dev.mem)) == PageOf(|rs|)
  {
    var f := CursorFetched(c, junk.digits);
    CursorFetchRefines(c, junk.digits);
    CursorFound(c, |rs|, junk.digits);
    var o := Written(f.dev, PageOf(|rs|), Filled(data, junk.record), 0);
    RecordWritten(f.dev, PageOf(|rs|), Filled(data, junk.record));
    FailedStart(o.dev, [0xFF, 0x80] + Ascii(Next(PageOf(|rs|))));
    CursorRoundTrip(PageOf(|rs|));
    assert Rec(o.dev.mem, CURSOR_PAGE) == Rec(c.mem, CURSOR_PAGE);
  }

  lemma FailedStart(c: Chip, bytes: seq<int>)
    requires c.Ok() && c.plan(c.tick) != Fine
    ensures
      var o := WriteTransfer(React, c, c.self, bytes);
      o.rc == -1 && o.dev.mem == c.mem && o.dev == React(c, Start).dev
  {
    StartWorks(c);
  }

  /** Such a chip: a fresh log, and the START of the first cursor update fails. */
  function Forgetful(): Chip {
    Chip(0xA0, seq(SIZE, i => if 0xFF80 <= i < 0xFF84 then 48 else 0), 0, Idle, 0, t => if t == 49 then Fails([], 0x20) else Fine)
  }

  lemma ForgetfulIs()
    ensures var c := Forgetful(); c.Ok() && Quiet(c, 49) && c.plan(c.tick + 49) != Fine && Kept(c.mem, [])
  {
    ZerosAreZero();
    assert CursorText(Forgetful().mem) == Zeros();
  }

  /** get_addr takes 12 bus events. */
  lemma FetchTicks(c: Chip, stack: Digits4)
    requires c.Ok() && Quiet(c, 11)
    ensures
      var f := CursorFetched(c, stack);
      CursorReadable(c, stack) && f.dev.Ok() && SameChip(c, f.dev) && f.dev.mem == c.mem && f.dev.tick == c.tick + 12
  {
    LookupRefines(c, 0xFF, 0x80, |stack|);
    assert Quiet(c, 4);
  }

  /** A record takes 37. */
  lemma EntryTicks(c: Chip, k: int, r: Buffer)
    requires c.Ok() && Quiet(c, 36) && 0 <= k < ENTRIES
    ensures var o := Written(c, k, r, 0); o.rc == 0 && SameChip(c, o.dev) && o.dev.tick == c.tick + 37
  {
    RecordWritten(c, k, r);
    assert |r| + 4 == 36;
  }

  lemma FailsAfterEntry(c: Chip, k: int, r: Buffer, stack: Digits4)
    requires c.Ok() && Quiet(c, 49) && c.plan(c.tick + 49) != Fine && 0 <= k < ENTRIES
    ensures
      var o := Written(CursorFetched(c, stack).dev, k, r, 0);
      CursorReadable(c, stack) && o.rc == 0 && o.dev.plan(o.dev.tick) != Fine
  {
    var c1 := CursorFetched(c, stack).dev;
    QuietLess(c, 11, 49);
    FetchTicks(c, stack);
    QuietLater(c, c1, 12, 37);
    QuietLess(c1, 36, 37);
    EntryTicks(c1, k, r);
  }

  /** So an entry is lost if the START that comes 49 bus events later fails. */
  lemma LosesEntry(c: Chip, rs: seq<seq<int>>, data: seq<int>, junk: Junk)
    requires c.Ok() && Quiet(c, 49) && c.plan(c.tick + 49) != Fine && Kept(c.mem, rs) && |data| < 32
    ensures var o := AutoWritten(c, data, junk); o.rc == 0 && o.dev.Ok() && Decoded(CursorText(o.dev.mem)) == PageOf(|rs|)
  {
    FailsAfterEntry(c, PageOf(|rs|), Filled(data, junk.record), junk.digits);
    LostUpdate(c, rs, data, junk);
  }

  lemma QuietLess(c: Chip, j: nat, k: nat)
    requires j <= k && Quiet(c, k)
    ensures Quiet(c, j)
  {
  }

  lemma ForgetfulLoses(data: seq<int>, junk: Junk)
    requires |data| < 32
    ensures
      var o := AutoWritten(Forgetful(), data, junk);
      o.rc == 0 && o.dev.Ok() && Decoded(CursorText(o.dev.mem)) == 0
  {
    ForgetfulIs();
    LosesEntry(Forgetful(), [], data, junk);
  }

  // Cursors that cannot be read

  lemma FailedReadStart(c: Chip, n: nat)
    requires c.Ok() && c.plan(c.tick) != Fine
    ensures ReadTransfer(React, c, c.self, n) == Got(React(c, Start).dev, [Start], [], -1)
  {
    StartWorks(c);
  }

  /** The chip after two failed STARTs. */
  function Twice(c: Chip): Chip {
    React(React(c, Start).dev, Start).dev
  }

  lemma TwiceFails(c: Chip)
    requires c.Ok() && c.plan(c.tick) != Fine && c.plan(c.tick + 1) != Fine
    ensures Twice(c).Ok() && SameChip(c, Twice(c)) && Twice(c).mem == c.mem && Twice(c).tick == c.tick + 2
  {
    StartWorks(c);
    StartWorks(React(c, Start).dev);
  }

  /** If both transfers of get_addr fail at START it decodes what its buffer held before. */
  lemma BlindFetch(c: Chip, stack: Digits4)
    requires c.Ok() && c.plan(c.tick) != Fine && c.plan(c.tick + 1) != Fine
    ensures CursorFetched(c, stack) == Fetch(Twice(c), Decoded(stack))
  {
    var c1 := React(c, Start).dev;
    StartWorks(c);
    FailedStart(c, [0xFF, 0x80]);
    FailedReadStart(c1, |stack|);
    assert Overlay([], stack) == stack;
  }

  /** A buffer that decodes to -4, the page number that reaches the cursor. */
  function MinusFour(): Digits4 {
    [48, 48, 48, 44]
  }

  lemma MinusFourIs()
    ensures Decoded(MinusFour()) == -4
  {
  }

  function MinusThree(): Digits4 {
    [48, 48, 48, 45]
  }

  lemma MinusThreeIs()
    ensures Decoded(MinusThree()) == -3
  {
  }

  lemma MinusThreeDigits()
    ensures Ascii(-3) == MinusThree()
  {
    MinusThreeNumbers();
    MinusThreeChars(Numbers(-3, |Zeros()|));
  }

  lemma MinusThreeNumbers()
    ensures Numbers(-3, |Zeros()|) == [0, 0, 0, -3]
  {
    assert TruncDiv(-3, 10) == 0 && TruncMod(-3, 10) == -3;
    assert Numbers(0, 3) == [0, 0, 0];
    assert Numbers(-3, 4) == Numbers(0, 3) + [-3];
  }

  lemma MinusThreeChars(n: seq<int>)
    requires n == [0, 0, 0, -3]
    ensures Chars(n) == MinusThree()
  {
  }

  lemma BlindWrite(c: Chip, r: Buffer)
    requires c.Ok() && Flawless(c)
    ensures
      var o := Written(c, -4, r, 0);
      o.rc == 0 && o.dev.Ok() && Flawless(o.dev) && OnlyPage(c.mem, o.dev.mem, CURSOR_PAGE)
  {
    WriteRefines(c, -4, r, 0);
    FlawlessWrite(c, -4, r, 0);
    assert Reached(-4) == CURSOR_PAGE;
  }

  lemma BlindMove(c: Chip)
    requires c.Ok() && Flawless(c)
    ensures
      var o := CursorMoved(c, -4);
      o.dev.Ok() && OnlyPage(c.mem, o.dev.mem, CURSOR_PAGE) && CursorText(o.dev.mem) == Ascii(-3)
  {
    CursorMoveRefines(c, -4);
    FlawlessMove(c, -4);
  }

  /** From such a buffer WriteAuto returns 0, has put its entry over the cursor, and leaves a
      cursor that decodes to -3; no page of the log has the entry. */
  lemma BlindEntry(c: Chip, data: seq<int>, junk: Junk)
    requires c.Ok() && c.plan(c.tick) != Fine && c.plan(c.tick + 1) != Fine && Flawless(Twice(c))
    requires |data| < 32 && junk.digits == MinusFour()
    ensures
      var o := AutoWritten(c, data, junk);
      && o.rc == 0 && o.dev.Ok() && Decoded(CursorText(o.dev.mem)) == -3 && OnlyPage(c.mem, o.dev.mem, CURSOR_PAGE)
  {
    var r := Filled(data, junk.record);
    TwiceFails(c);
    BlindFetch(c, junk.digits);
    MinusFourIs();
    var o := Written(Twice(c), -4, r, 0);
    BlindWrite(Twice(c), r);
    BlindMove(o.dev);
    MinusThreeIs();
    MinusThreeDigits();
    OnlyPageTwice(c.mem, o.dev.mem, CursorMoved(o.dev, -4).dev.mem, CURSOR_PAGE);
  }

  lemma OnlyPageTwice(a: seq<int>, b: seq<int>, c: seq<int>, p: int)
    requires OnlyPage(a, b, p) && OnlyPage(b, c, p)
    ensures OnlyPage(a, c, p)
  {
  }

  /** Such a chip. */
  lemma BlindChip()
    ensures
      var c := Chip(0xA0, seq(SIZE, i => 0), 0, Idle, 0, t => if t < 2 then Fails([], 0x20) else Fine);
      c.Ok() && c.plan(c.tick) != Fine && c.plan(c.tick + 1) != Fine && Flawless(Twice(c))
  {
    var c := Chip(0xA0, seq(SIZE, i => 0), 0, Idle, 0, t => if t < 2 then Fails([], 0x20) else Fine);
    TwiceFails(c);
    forall k: nat ensures Quiet(Twice(c), k) {
    }
  }

  // Reads of the wrong page

  /** A read whose address transfer fails at START, and nothing after it: ReadPage returns 0
      and shows whatever the chip's pointer was at. */
  lemma StaleRead(c: Chip, page: int, dl: int, stack: Buffer)
    requires c.Ok() && !Barred(page, dl)
    requires c.plan(c.tick) != Fine && Quiet(React(c, Start).dev, |stack| + 2)
    ensures
      var v := PageRead(c, page, dl, stack);
      v.rc == 0 && v.shown == CString(Sequential(c.mem, c.ptr, |stack|))
  {
    FailedStart(c, [Hi(page), Lo(page)]);
    StartWorks(c);
    ReadRun(React(c, Start).dev, |stack|);
    ReadRefines(c, page, dl, stack);
    assert !Quiet(c, 4);
  }

  /** So a read of page 1 can show page 0 instead. */
  lemma ShowsAnotherPage(c: Chip, stack: Buffer)
    requires c.Ok() && c.plan(c.tick) != Fine && Quiet(React(c, Start).dev, |stack| + 2)
    requires c.ptr == 0 && c.mem[0] != 0 && c.mem[32] == 0
    ensures
      var v := PageRead(c, 1, 0, stack);
      v.rc == 0 && v.shown == CString(Rec(c.mem, 0)) != CString(Rec(c.mem, 1))
  {
    StaleRead(c, 1, 0, stack);
    SequentialIsSlice(c.mem, 0, |stack|);
    StringsDiffer(Rec(c.mem, 0), Rec(c.mem, 1));
  }

  lemma StringsDiffer(a: seq<int>, b: seq<int>)
    requires a != [] && b != [] && a[0] != 0 && b[0] == 0
    ensures CString(a) != CString(b)
  {
  }

  /** Such a chip: page 0 holds a string of A's, and only the first bus event fails. */
  lemma SuchAChip(stack: Buffer)
    ensures
      var c := Chip(0xA0, seq(SIZE, i => if i < 32 then 65 else 0), 0, Idle, 0, t => if t == 0 then Fails([], 0x20) else Fine);
      && c.Ok() && c.plan(c.tick) != Fine && Quiet(React(c, Start).dev, |stack| + 2)
      && c.ptr == 0 && c.mem[0] != 0 && c.mem[32] == 0
  {
  }
}
