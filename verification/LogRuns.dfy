/** Whole runs of the logger of module LogData over the byte-level EEPROM. */
module LogRuns {
  import opened Iic
  import opened Eeprom
  import opened LogData

  // Strings

  /** A string as the logger takes it: it fits its buffer and has no NUL inside. */
  predicate Text(data: seq<int>) {
    |data| < 32 && 0 !in data
  }

  lemma {:induction false} StringEnds(data: seq<int>, rest: seq<int>)
    requires 0 !in data
    ensures CString(data + [0] + rest) == data
  {
    if data == [] {
      assert [] + [0] + rest == [0] + rest;
    } else {
      assert (data + [0] + rest)[1..] == data[1..] + [0] + rest;
      StringEnds(data[1..], rest);
    }
  }

  // Pages

  /** What a caller does through the public interface. */
  datatype Call = Write(page: int, data: seq<int>, dl: int, stack: Buffer) | Read(page: int, dl: int, stack: Buffer) {
    predicate Ok() {
      Write? ==> Text(data)
    }

    /** May change what is on page p. */
    predicate Touches(p: int) {
      Write? && !Barred(page, dl) && Reached(page) == p
    }
  }

  function Done(c: Chip, k: Call): Outcome
    requires k.Ok()
  {
    match k
    case Write(page, data, dl, stack) => Written(c, page, Filled(data, stack), dl)
    case Read(page, dl, stack) => var v := PageRead(c, page, dl, stack); Outcome(v.dev, v.rc)
  }

  function DoneAll(c: Chip, ks: seq<Call>): Chip
    requires forall k <- ks :: k.Ok()
    decreases |ks|
  {
    if ks == [] then c else DoneAll(Done(c, ks[0]).dev, ks[1..])
  }

  lemma CallKeeps(c: Chip, k: Call, p: int)
    requires c.Ok() && k.Ok() && 0 <= p < 2048
    ensures Done(c, k).dev.Ok() && SameChip(c, Done(c, k).dev)
    ensures !k.Touches(p) ==> Rec(Done(c, k).dev.mem, p) == Rec(c.mem, p)
  {
    match k
    case Write(page, data, dl, stack) => WriteRefines(c, page, Filled(data, stack), dl);
    case Read(page, dl, stack) => ReadRefines(c, page, dl, stack);
  }

  /** A page is as it was after any run of calls, failed ones included, none of which is an
      accepted write to it. */
  lemma {:induction false} PageKept(c: Chip, ks: seq<Call>, p: int)
    requires c.Ok() && 0 <= p < 2048
    requires forall k <- ks :: k.Ok() && !k.Touches(p)
    ensures DoneAll(c, ks).Ok() && SameChip(c, DoneAll(c, ks)) && Rec(DoneAll(c, ks).mem, p) == Rec(c.mem, p)
    decreases |ks|
  {
    if ks != [] {
      CallKeeps(c, ks[0], p);
      PageKept(Done(c, ks[0]).dev, ks[1..], p);
    }
  }

  /** A successful write, any run of calls that leaves its page alone, and then a read that
      returns 0: it shows the string written if the transfer that sets the address goes
      through; if not, only when that string happens to be what the chip's pointer is at. */
  lemma WriteThenRead(c: Chip, w: Call, ks: seq<Call>, dl: int, stack: Buffer)
    requires c.Ok() && w.Write? && w.Ok() && Done(c, w).rc == 0 && !Barred(w.page, dl)
    requires forall k <- ks :: k.Ok() && !k.Touches(Reached(w.page))
    ensures
      var d := DoneAll(Done(c, w).dev, ks);
      var v := PageRead(d, w.page, dl, stack);
      v.rc == 0 ==> (v.shown == w.data <==> Quiet(d, 4) || CString(Sequential(d.mem, d.ptr, RECORD)) == w.data)
  {
    var c1 := Done(c, w).dev;
    WriteRefines(c, w.page, Filled(w.data, w.stack), w.dl);
    PageKept(c1, ks, Reached(w.page));
    StringEnds(w.data, w.stack[|w.data| + 1..]);
    ReadBack(DoneAll(c1, ks), w.page, w.data, dl, stack);
  }

  lemma ReadBack(d: Chip, page: int, data: seq<int>, dl: int, stack: Buffer)
    requires d.Ok() && !Barred(page, dl) && CString(Rec(d.mem, Reached(page))) == data
    ensures
      var v := PageRead(d, page, dl, stack);
      v.rc == 0 ==> (v.shown == data <==> Quiet(d, 4) || CString(Sequential(d.mem, d.ptr, RECORD)) == data)
  {
    ReadRefines(d, page, dl, stack);
  }

  // Ranges of pages

  /** No bus event fails from now on. */
  ghost predicate Flawless(c: Chip) {
    forall k: nat :: Quiet(c, k)
  }

  lemma FlawlessLater(c: Chip, c': Chip, j: nat)
    requires Flawless(c) && SameChip(c, c') && c'.tick == c.tick + j
    ensures Flawless(c')
  {
    forall k: nat ensures Quiet(c', k) {
      QuietLater(c, c', j, k);
    }
  }

  /** How a reader shows a page of a chip that does not fail: its string, with nothing changed. */
  ghost predicate ShowsWell(c: Chip, v: View, page: int) {
    && v.dev.Ok() && Flawless(v.dev) && v.dev.mem == c.mem && v.rc == 0
    && 0 <= page < 2048 && |c.mem| == SIZE && v.shown == CString(Rec(c.mem, page))
  }

  lemma FlawlessView(c: Chip, v: View, page: int)
    requires c.Ok() && Flawless(c) && Shows(c, v, page)
    ensures ShowsWell(c, v, Reached(page))
  {
    assert Quiet(c, RECORD + 7) && Quiet(c, 4);
    FlawlessLater(c, v.dev, RECORD + 8);
  }

  lemma FlawlessRead(c: Chip, page: int, stack: Buffer)
    requires c.Ok() && Flawless(c) && 0 <= page < ENTRIES
    ensures ShowsWell(c, PageRead(c, page, 0, stack), page)
  {
    ReadRefines(c, page, 0, stack);
    FlawlessView(c, PageRead(c, page, 0, stack), page);
    ReachedDirectly(page);
  }

  /** The strings on pages i to e. */
  function Texts(mem: seq<int>, i: int, e: int): seq<seq<int>>
    requires |mem| == SIZE && 0 <= i && e < ENTRIES
    decreases e - i
  {
    if i > e then [] else [CString(Rec(mem, i))] + Texts(mem, i + 1, e)
  }

  ghost predicate Reads(reader: (Chip, int) -> View, c: Chip, i: int) {
    0 <= i < ENTRIES && c.Ok() && Flawless(c) ==> ShowsWell(c, reader(c, i), i)
  }

  lemma ReaderReads(stacks: int -> Buffer, c: Chip, i: int)
    ensures Reads(Reader(stacks), c, i)
  {
    if 0 <= i < ENTRIES && c.Ok() && Flawless(c) {
      FlawlessRead(c, i, stacks(i));
    }
  }

  lemma {:induction false} RangeShown(reader: (Chip, int) -> View, from: Pages, i: int, e: int)
    requires from.dev.Ok() && Flawless(from.dev) && 0 <= i && e < ENTRIES
    requires forall c, j :: Reads(reader, c, j)
    ensures
      var p := PagesRead(reader, from, i, e);
      && p.serial == from.serial + Texts(from.dev.mem, i, e) && p.dev.mem == from.dev.mem
      && p.rc == if i <= e then 0 else from.rc
    decreases e - i
  {
    if i <= e {
      assert Reads(reader, from.dev, i);
      var o := reader(from.dev, i);
      RangeShown(reader, Pages(o.dev, o.rc, from.serial + [o.shown]), i + 1, e);
      TextsCons(from.dev.mem, i, e, from.serial);
    } else {
      assert from.serial + [] == from.serial;
    }
  }

  lemma TextsCons(mem: seq<int>, i: int, e: int, serial: seq<seq<int>>)
    requires |mem| == SIZE && 0 <= i <= e < ENTRIES
    ensures serial + [CString(Rec(mem, i))] + Texts(mem, i + 1, e) == serial + Texts(mem, i, e)
  {
  }

  /** ReadAll on a chip that does not fail prints the strings of pages 0 to 2043 in order. */
  lemma AllShown(c: Chip, stacks: int -> Buffer, serial: seq<seq<int>>)
    requires c.Ok() && Flawless(c)
    ensures
      var p := PagesRead(Reader(stacks), Pages(c, 0, serial), 0, 2043);
      p.rc == 0 && p.dev.mem == c.mem && p.serial == serial + Texts(c.mem, 0, 2043)
  {
    var reader := Reader(stacks);
    forall c, j ensures Reads(reader, c, j) {
      ReaderReads(stacks, c, j);
    }
    RangeShown(reader, Pages(c, 0, serial), 0, ENTRIES - 1);
  }

  /** Of the four guards of ReadFT only the order of the bounds and the page below the end of
      the chip count. */
  lemma RangeRefusedIff(first: int, last: int)
    ensures RangeRefused(first, last) <==> first > last || first % 2048 == 2047
  {
    PageAddress(first);
  }

  // The cursor page

  /** Which writes without the devlock can change the cursor: those to a negative page whose
      16-bit address wraps to it. */
  lemma CursorReachedIff(page: int, dl: int)
    requires dl != 312
    ensures
      (exists c: Chip, record: Buffer :: c.Ok() && ChangesCursor(c, page, record, dl))
      <==> page < 0 && page % 2048 == 2044
  {
    if c: Chip, record: Buffer :| c.Ok() && ChangesCursor(c, page, record, dl) {
      ChangeReaches(c, page, record, dl);
    }
    if page < 0 && page % 2048 == CURSOR_PAGE {
      WrappedPageReaches(page, dl);
    }
  }

  lemma ChangeReaches(c: Chip, page: int, record: Buffer, dl: int)
    requires c.Ok() && dl != DEVLOCK && ChangesCursor(c, page, record, dl)
    ensures page < 0 && page % 2048 == CURSOR_PAGE
  {
    WriteRefines(c, page, record, dl);
  }

  lemma WrappedPageReaches(page: int, dl: int)
    requires page < 0 && page % 2048 == CURSOR_PAGE
    ensures ChangesCursor(Blank(), page, Ones(), dl)
  {
    var c, record := Blank(), Ones();
    WriteRefines(c, page, record, dl);
    assert Quiet(c, |record| + 4);
    assert Rec(c.mem, CURSOR_PAGE)[0] == 0 != record[0];
  }

  /** The documented pages never reach it. */
  lemma OrdinaryPagesSpareCursor(c: Chip, page: int, record: Buffer, dl: int)
    requires c.Ok() && 0 <= page < 2044
    ensures !ChangesCursor(c, page, record, dl)
  {
    WriteRefines(c, page, record, dl);
  }

  ghost predicate ChangesCursor(c: Chip, page: int, record: Buffer, dl: int)
    requires c.Ok()
  {
    var mem := Written(c, page, record, dl).dev.mem;
    |mem| == SIZE && Rec(mem, CURSOR_PAGE) != Rec(c.mem, CURSOR_PAGE)
  }

  /** An empty chip that never fails. */
  function Blank(): (c: Chip)
    ensures c.Ok() && forall k: nat :: Quiet(c, k)
    ensures forall a :: 0 <= a < SIZE ==> c.mem[a] == 0
  {
    Chip(0xA0, seq(SIZE, i => 0), 0, Idle, 0, i => Fine)
  }

  function Ones(): (s: Buffer)
    ensures forall i :: 0 <= i < 32 ==> s[i] == 1
  {
    seq(32, i => 1)
  }

  // Automatic entries

  /** The cursor as text and as a number. */
  lemma CursorRoundTrip(k: int)
    requires 0 <= k < 2044
    ensures Decoded(Ascii(k)) == k
  {
    FourDigits(k);
    DecodedChars(Numbers(k, |Zeros()|));
  }

  lemma DecodedChars(n: Digits4)
    requires forall j :: 0 <= j < 4 ==> 0 <= n[j] < 10
    requires n[0] * 1000 + n[1] * 100 + n[2] * 10 + n[3] < 0x8000
    ensures Decoded(Chars(n)) == n[0] * 1000 + n[1] * 100 + n[2] * 10 + n[3]
  {
    SignedDigit(n[0]);
    SignedDigit(n[1]);
    SignedDigit(n[2]);
    SignedDigit(n[3]);
    SmallInt16(n[0] * 1000 + n[1] * 100 + n[2] * 10 + n[3]);
  }

  lemma SignedDigit(d: int)
    requires 0 <= d < 10
    ensures Signed((d + 48) % 256) == d + 48
  {
  }

  lemma SmallInt16(x: int)
    requires 0 <= x < 0x8000
    ensures Int16(x) == x
  {
  }

  lemma FourDigits(k: int)
    requires 0 <= k < 10000
    ensures
      var n := Numbers(k, |Zeros()|);
      && |n| == 4 && n[0] * 1000 + n[1] * 100 + n[2] * 10 + n[3] == k
      && forall j :: 0 <= j < 4 ==> 0 <= n[j] < 10
  {
    var k1 := k / 10;
    var k2 := k1 / 10;
    var k3 := k2 / 10;
    assert Numbers(k3, 1) == [k3];
    assert Numbers(k2, 2) == [k3, k2 % 10];
    assert Numbers(k1, 3) == [k3, k2 % 10, k1 % 10];
    assert Numbers(k, 4) == [k3, k2 % 10, k1 % 10, k % 10];
  }

  /** The page of the i-th entry. */
  function PageOf(i: nat): (p: int)
    ensures 0 <= p < ENTRIES
  {
    i % ENTRIES
  }

  lemma PagesDiffer(i: nat, n: nat)
    requires i < n < i + ENTRIES
    ensures PageOf(i) != PageOf(n)
  {
  }

  lemma NextPage(n: nat)
    ensures Next(PageOf(n)) == PageOf(n + 1)
  {
  }

  /** The latest 2043 records are on their pages. */
  ghost predicate Shelved(mem: seq<int>, rs: seq<seq<int>>) {
    |mem| == SIZE && forall i :: 0 <= i < |rs| && |rs| - ENTRIES < i ==> Rec(mem, PageOf(i)) == rs[i]
  }

  lemma ShelvedOnFailure(mem: seq<int>, mem': seq<int>, rs: seq<seq<int>>)
    requires Shelved(mem, rs) && OnlyPage(mem, mem', PageOf(|rs|))
    ensures Shelved(mem', rs)
  {
    forall i | 0 <= i < |rs| && |rs| - ENTRIES < i ensures Rec(mem', PageOf(i)) == rs[i] {
      PagesDiffer(i, |rs|);
    }
  }

  lemma ShelvedOnSuccess(mem: seq<int>, mem': seq<int>, rs: seq<seq<int>>, r: seq<int>)
    requires Shelved(mem, rs) && OnlyPage(mem, mem', PageOf(|rs|)) && Rec(mem', PageOf(|rs|)) == r
    ensures Shelved(mem', rs + [r])
  {
    ShelvedOnFailure(mem, mem', rs);
  }

  lemma CursorNotShelved(mem: seq<int>, mem': seq<int>, rs: seq<seq<int>>)
    requires Shelved(mem, rs) && OnlyPage(mem, mem', CURSOR_PAGE)
    ensures Shelved(mem', rs)
  {
  }

  /** The text of the cursor. */
  function CursorText(mem: seq<int>): Digits4
    requires |mem| == SIZE
  {
    Rec(mem, CURSOR_PAGE)[..4]
  }

  /** What the memory holds after these records: the cursor counts them modulo 2044, and the
      latest 2043 are on their pages. */
  ghost predicate Kept(mem: seq<int>, rs: seq<seq<int>>) {
    Shelved(mem, rs) && CursorText(mem) == Ascii(PageOf(|rs|))
  }

  /** A successful WriteAuto, from the memory before it to that after the record and that
      after the cursor. */
  lemma KeptOnSuccess(mem: seq<int>, mem1: seq<int>, mem2: seq<int>, rs: seq<seq<int>>, r: seq<int>)
    requires Kept(mem, rs) && OnlyPage(mem, mem1, PageOf(|rs|)) && Rec(mem1, PageOf(|rs|)) == r
    requires OnlyPage(mem1, mem2, CURSOR_PAGE) && CursorText(mem2) == Ascii(PageOf(|rs| + 1))
    ensures Kept(mem2, rs + [r])
  {
    ShelvedOnSuccess(mem, mem1, rs, r);
    CursorNotShelved(mem1, mem2, rs + [r]);
  }

  lemma KeptOnFailure(mem: seq<int>, mem1: seq<int>, rs: seq<seq<int>>)
    requires Kept(mem, rs) && OnlyPage(mem, mem1, PageOf(|rs|))
    ensures Kept(mem1, rs)
  {
    ShelvedOnFailure(mem, mem1, rs);
    assert Rec(mem1, CURSOR_PAGE) == Rec(mem, CURSOR_PAGE);
  }

  /** What get_addr finds. */
  lemma CursorFound(c: Chip, n: nat, stack: Digits4)
    requires c.Ok() && CursorText(c.mem) == Ascii(PageOf(n)) && CursorReadable(c, stack)
    ensures Slot(CursorFetched(c, stack).value) == PageOf(n)
  {
    CursorFetchRefines(c, stack);
    CursorRoundTrip(PageOf(n));
  }

  lemma RecordWritten(c: Chip, k: int, record: Buffer)
    requires c.Ok() && 0 <= k < ENTRIES
    ensures Updated(c, Written(c, k, record, 0), k, record)
  {
    WriteRefines(c, k, record, 0);
    ReachedDirectly(k);
  }

  lemma ReachedDirectly(k: int)
    requires 0 <= k < ENTRIES
    ensures Reached(k) == k && !Barred(k, 0)
  {
  }

  lemma CursorWritten(c: Chip, n: nat)
    requires c.Ok() && CursorMoved(c, PageOf(n)).rc == 0
    ensures
      var d := CursorMoved(c, PageOf(n)).dev;
      d.Ok() && OnlyPage(c.mem, d.mem, CURSOR_PAGE) && CursorText(d.mem) == Ascii(PageOf(n + 1))
  {
    CursorMoveRefines(c, PageOf(n));
    NextPage(n);
  }

  /** What the source takes for granted: the cursor can be read, and after a record that was
      written it can be updated. The record itself may fail in any way. */
  ghost predicate CursorWorks(c: Chip, data: seq<int>, junk: Junk)
    requires |data| < 32
  {
    var f := CursorFetched(c, junk.digits);
    var o := Written(f.dev, Slot(f.value), Filled(data, junk.record), 0);
    CursorReadable(c, junk.digits) && (o.rc == 0 ==> CursorMoved(o.dev, Slot(f.value)).rc == 0)
  }

  /** From the chip after get_addr on. */
  lemma EntryKeeps(c: Chip, rs: seq<seq<int>>, r: Buffer)
    requires c.Ok() && Kept(c.mem, rs)
    requires
      var o := Written(c, PageOf(|rs|), r, 0);
      o.rc == 0 ==> CursorMoved(o.dev, PageOf(|rs|)).rc == 0
    ensures
      var o := Written(c, PageOf(|rs|), r, 0);
      if o.rc == 0 then
        var d := CursorMoved(o.dev, PageOf(|rs|)).dev;
        d.Ok() && Kept(d.mem, rs + [r])
      else o.dev.Ok() && Kept(o.dev.mem, rs)
  {
    var o := Written(c, PageOf(|rs|), r, 0);
    RecordWritten(c, PageOf(|rs|), r);
    if o.rc == 0 {
      CursorWritten(o.dev, |rs|);
      KeptOnSuccess(c.mem, o.dev.mem, CursorMoved(o.dev, PageOf(|rs|)).dev.mem, rs, r);
    } else {
      KeptOnFailure(c.mem, o.dev.mem, rs);
    }
  }

  lemma AutoKeeps(c: Chip, rs: seq<seq<int>>, data: seq<int>, junk: Junk)
    requires c.Ok() && Kept(c.mem, rs) && |data| < 32 && CursorWorks(c, data, junk)
    ensures
      var o := AutoWritten(c, data, junk);
      o.dev.Ok() && Kept(o.dev.mem, if o.rc == 0 then rs + [Filled(data, junk.record)] else rs)
  {
    var f := CursorFetched(c, junk.digits);
    CursorFetchRefines(c, junk.digits);
    CursorFound(c, |rs|, junk.digits);
    EntryKeeps(f.dev, rs, Filled(data, junk.record));
  }

  // Whole runs

  datatype Step = Auto(data: seq<int>, junk: Junk) | Look(page: int, dl: int, stack: Buffer) {
    predicate Ok() {
      Auto? ==> Text(data)
    }
  }

  /** The chip; and of the WriteAuto calls that returned 0, the records and their strings. */
  datatype Log = Log(dev: Chip, records: seq<seq<int>>, texts: seq<seq<int>>)

  function Take(l: Log, s: Step): Log
    requires s.Ok()
  {
    match s
    case Auto(data, junk) =>
      var o := AutoWritten(l.dev, data, junk);
      if o.rc == 0 then Log(o.dev, l.records + [Filled(data, junk.record)], l.texts + [data]) else l.(dev := o.dev)
    case Look(page, dl, stack) => l.(dev := PageRead(l.dev, page, dl, stack).dev)
  }

  function TakeAll(l: Log, ss: seq<Step>): Log
    requires forall s <- ss :: s.Ok()
    decreases |ss|
  {
    if ss == [] then l else TakeAll(Take(l, ss[0]), ss[1..])
  }

  ghost predicate StepWorks(c: Chip, s: Step)
    requires s.Ok()
  {
    s.Auto? ==> CursorWorks(c, s.data, s.junk)
  }

  ghost predicate CursorAlwaysWorks(l: Log, ss: seq<Step>)
    requires forall s <- ss :: s.Ok()
    decreases |ss|
  {
    ss != [] ==> StepWorks(l.dev, ss[0]) && CursorAlwaysWorks(Take(l, ss[0]), ss[1..])
  }

  ghost predicate Matching(records: seq<seq<int>>, texts: seq<seq<int>>) {
    |records| == |texts| && forall i :: 0 <= i < |records| ==> CString(records[i]) == texts[i]
  }

  ghost predicate Sound(l: Log) {
    l.dev.Ok() && Kept(l.dev.mem, l.records) && Matching(l.records, l.texts)
  }

  lemma TakeAuto(l: Log, data: seq<int>, junk: Junk)
    requires Sound(l) && Text(data) && CursorWorks(l.dev, data, junk)
    ensures Sound(Take(l, Auto(data, junk)))
  {
    AutoKeeps(l.dev, l.records, data, junk);
    StringEnds(data, junk.record[|data| + 1..]);
  }

  lemma TakeLook(l: Log, page: int, dl: int, stack: Buffer)
    requires Sound(l)
    ensures Sound(Take(l, Look(page, dl, stack)))
  {
    ReadRefines(l.dev, page, dl, stack);
  }

  lemma TakeKeeps(l: Log, s: Step)
    requires Sound(l) && s.Ok() && StepWorks(l.dev, s)
    ensures Sound(Take(l, s))
  {
    match s
    case Auto(data, junk) => TakeAuto(l, data, junk);
    case Look(page, dl, stack) => TakeLook(l, page, dl, stack);
  }

  lemma {:induction false} RunKeeps(l: Log, ss: seq<Step>)
    requires Sound(l) && (forall s <- ss :: s.Ok()) && CursorAlwaysWorks(l, ss)
    ensures Sound(TakeAll(l, ss))
    decreases |ss|
  {
    if ss != [] {
      TakeKeeps(l, ss[0]);
      RunKeeps(Take(l, ss[0]), ss[1..]);
    }
  }

  /** The log after Reset. */
  function Fresh(c: Chip, stack: Buffer): Log {
    Log(Written(c, CURSOR_PAGE, Filled(Zeros(), stack), DEVLOCK).dev, [], [])
  }

  lemma ResetKeeps(c: Chip, stack: Buffer)
    requires c.Ok() && Written(c, CURSOR_PAGE, Filled(Zeros(), stack), DEVLOCK).rc == 0
    ensures Sound(Fresh(c, stack))
  {
    WriteRefines(c, CURSOR_PAGE, Filled(Zeros(), stack), DEVLOCK);
    ZerosAreZero();
    assert Filled(Zeros(), stack)[..4] == Zeros();
  }

  lemma ZerosAreZero()
    ensures Ascii(PageOf(0)) == Zeros()
  {
    assert Numbers(0, 4) == [0, 0, 0, 0];
  }

  /** After a reset, and any run of WriteAuto and ReadPage calls whose record writes may fail
      and leave their page in any state: the stored cursor is the number of successful entries
      modulo 2044; each of the latest 2043 of them is on its page, and is what a read of it
      shows. */
  lemma LogSurvives(c: Chip, stack: Buffer, ss: seq<Step>)
    requires c.Ok() && Written(c, 2044, Filled(Zeros(), stack), 312).rc == 0
    requires (forall s <- ss :: s.Ok()) && CursorAlwaysWorks(Fresh(c, stack), ss)
    ensures
      var end := TakeAll(Fresh(c, stack), ss);
      && end.dev.Ok() && Decoded(CursorText(end.dev.mem)) == |end.texts| % 2044
      && (forall i :: 0 <= i < |end.texts| && |end.texts| - 2044 < i ==>
            CString(Rec(end.dev.mem, i % 2044)) == end.texts[i])
      && forall i, dl, buffer: Buffer :: 0 <= i < |end.texts| && |end.texts| - 2044 < i ==>
           ShowsIfRead(end.dev, i % 2044, dl, buffer, end.texts[i])
  {
    ResetKeeps(c, stack);
    RunKeeps(Fresh(c, stack), ss);
    var end := TakeAll(Fresh(c, stack), ss);
    CursorRoundTrip(PageOf(|end.records|));
    forall i | 0 <= i < |end.texts| && |end.texts| - ENTRIES < i
      ensures CString(Rec(end.dev.mem, i % ENTRIES)) == end.texts[i]
    {
      EntryStored(end, i);
    }
    forall i, dl, buffer: Buffer | 0 <= i < |end.texts| && |end.texts| - ENTRIES < i
      ensures ShowsIfRead(end.dev, i % ENTRIES, dl, buffer, end.texts[i])
    {
      EntryShown(end, i, dl, buffer);
    }
  }

  /** A read of this page, if both its transfers go through, shows this string. */
  ghost predicate ShowsIfRead(c: Chip, page: int, dl: int, stack: Buffer, text: seq<int>) {
    var v := PageRead(c, page, dl, stack);
    v.rc == 0 && Quiet(c, 4) ==> v.shown == text
  }

  lemma EntryStored(l: Log, i: nat)
    requires Sound(l) && i < |l.texts| && |l.texts| - ENTRIES < i
    ensures CString(Rec(l.dev.mem, PageOf(i))) == l.texts[i]
  {
  }

  lemma EntryShown(l: Log, i: nat, dl: int, stack: Buffer)
    requires Sound(l) && i < |l.texts| && |l.texts| - ENTRIES < i
    ensures ShowsIfRead(l.dev, PageOf(i), dl, stack, l.texts[i])
  {
    ReadRefines(l.dev, PageOf(i), dl, stack);
    ReachedDirectly(PageOf(i));
  }

  // On a chip that does not fail, what LogSurvives asks for holds, and every entry succeeds.

  lemma FlawlessWrite(c: Chip, page: int, record: Buffer, dl: int)
    requires c.Ok() && Flawless(c) && !Barred(page, dl)
    ensures var o := Written(c, page, record, dl); o.rc == 0 && o.dev.Ok() && Flawless(o.dev)
  {
    WriteRefines(c, page, record, dl);
    assert Quiet(c, |record| + 4);
    FlawlessLater(c, Written(c, page, record, dl).dev, |record| + 5);
  }

  lemma FlawlessMove(c: Chip, k: int)
    requires c.Ok() && Flawless(c)
    ensures var o := CursorMoved(c, k); o.rc == 0 && o.dev.Ok() && Flawless(o.dev)
  {
    CursorMoveRefines(c, k);
    assert Quiet(c, |Ascii(Next(k))| + 4);
    FlawlessLater(c, CursorMoved(c, k).dev, |Ascii(Next(k))| + 5);
  }

  lemma FlawlessFetch(c: Chip, stack: Digits4)
    requires c.Ok() && Flawless(c)
    ensures CursorReadable(c, stack) && CursorFetched(c, stack).dev.Ok() && Flawless(CursorFetched(c, stack).dev)
  {
    LookupRefines(c, 0xFF, 0x80, |stack|);
    assert Quiet(c, 4) && Quiet(c, |stack| + 7);
    FlawlessLater(c, Lookup(c, 0xFF, 0x80, |stack|).dev, |stack| + 8);
  }

  lemma FlawlessAuto(c: Chip, data: seq<int>, junk: Junk)
    requires c.Ok() && Flawless(c) && |data| < 32
    ensures CursorWorks(c, data, junk)
    ensures var o := AutoWritten(c, data, junk); o.rc == 0 && o.dev.Ok() && Flawless(o.dev)
  {
    var f := CursorFetched(c, junk.digits);
    FlawlessFetch(c, junk.digits);
    FlawlessWrite(f.dev, Slot(f.value), Filled(data, junk.record), 0);
    FlawlessMove(Written(f.dev, Slot(f.value), Filled(data, junk.record), 0).dev, Slot(f.value));
  }

  lemma FlawlessLook(c: Chip, page: int, dl: int, stack: Buffer)
    requires c.Ok() && Flawless(c)
    ensures PageRead(c, page, dl, stack).dev.Ok() && Flawless(PageRead(c, page, dl, stack).dev)
  {
    ReadRefines(c, page, dl, stack);
    if !Barred(page, dl) {
      FlawlessView(c, PageRead(c, page, dl, stack), page);
    }
  }

  lemma FlawlessTake(l: Log, s: Step)
    requires l.dev.Ok() && Flawless(l.dev) && s.Ok()
    ensures StepWorks(l.dev, s) && Take(l, s).dev.Ok() && Flawless(Take(l, s).dev)
    ensures Take(l, s).texts == if s.Auto? then l.texts + [s.data] else l.texts
  {
    match s
    case Auto(data, junk) => FlawlessAuto(l.dev, data, junk);
    case Look(page, dl, stack) => FlawlessLook(l.dev, page, dl, stack);
  }

  /** The strings that a run was to write. */
  function Entries(ss: seq<Step>): seq<seq<int>> {
    if ss == [] then [] else (if ss[0].Auto? then [ss[0].data] else []) + Entries(ss[1..])
  }

  lemma {:induction false} FlawlessWorks(l: Log, ss: seq<Step>)
    requires l.dev.Ok() && Flawless(l.dev) && forall s <- ss :: s.Ok()
    ensures CursorAlwaysWorks(l, ss)
    decreases |ss|
  {
    if ss != [] {
      FlawlessTake(l, ss[0]);
      FlawlessWorks(Take(l, ss[0]), ss[1..]);
    }
  }

  lemma EntriesCons(ss: seq<Step>, texts: seq<seq<int>>)
    requires ss != []
    ensures texts + Entries(ss) == (if ss[0].Auto? then texts + [ss[0].data] else texts) + Entries(ss[1..])
  {
  }

  lemma {:induction false} FlawlessTexts(l: Log, ss: seq<Step>)
    requires l.dev.Ok() && Flawless(l.dev) && forall s <- ss :: s.Ok()
    ensures TakeAll(l, ss).texts == l.texts + Entries(ss)
    decreases |ss|
  {
    if ss == [] {
      assert l.texts + [] == l.texts;
    } else {
      FlawlessTake(l, ss[0]);
      FlawlessTexts(Take(l, ss[0]), ss[1..]);
      EntriesCons(ss, l.texts);
    }
  }

  /** From any flawless chip, after a reset, every run logs all its entries, in order. */
  lemma FlawlessLog(c: Chip, stack: Buffer, ss: seq<Step>)
    requires c.Ok() && Flawless(c) && forall s <- ss :: s.Ok()
    ensures Written(c, CURSOR_PAGE, Filled(Zeros(), stack), DEVLOCK).rc == 0
    ensures CursorAlwaysWorks(Fresh(c, stack), ss) && TakeAll(Fresh(c, stack), ss).texts == Entries(ss)
  {
    FlawlessWrite(c, CURSOR_PAGE, Filled(Zeros(), stack), DEVLOCK);
    FlawlessWorks(Fresh(c, stack), ss);
    FlawlessTexts(Fresh(c, stack), ss);
    assert [] + Entries(ss) == Entries(ss);
  }
}
