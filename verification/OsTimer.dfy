/** The non-blocking timer of kernel/ostimer.cpp: 32-bit milliseconds that wrap around,
    measured against unbounded real time. */
module OsTimer {

  const WRAP: int := 0x1_0000_0000

  /** What millis() returns at real time now. */
  function Millis(now: int): int {
    now % WRAP
  }

  /** Unsigned 32-bit arithmetic. */
  function Sub32(a: int, b: int): int {
    (a - b) % WRAP
  }

  function Add32(a: int, b: int): int {
    (a + b) % WRAP
  }

  datatype Timer = Timer(tmr: int, time: int, freeze: int, frozen: bool) {
    ghost predicate Ok() {
      0 <= tmr < WRAP && 0 <= time < WRAP && 0 <= freeze < WRAP
    }
  }

  datatype Op = Set(timeout: int) | Restart | Freeze | Thaw

  datatype Event = Event(op: Op, at: int)

  function New(timeout: int, now: int): Timer {
    Timer(Millis(now), timeout, 0, false)
  }

  function Step(t: Timer, e: Event): Timer {
    match e.op
    case Set(timeout) => t.(time := timeout, tmr := Millis(e.at))
    case Restart => t.(tmr := Millis(e.at))
    case Freeze => t.(freeze := Millis(e.at), frozen := true)
    case Thaw => t.(tmr := Add32(t.tmr, if t.frozen then Sub32(Millis(e.at), t.freeze) else 0))
  }

  function Elapsed(t: Timer, now: int): int {
    Sub32(Millis(now), t.tmr)
  }

  predicate Expired(t: Timer, now: int) {
    Elapsed(t, now) > t.time
  }

  /** The timer as an object. Each call is given the real time at which it reads the clock. */
  class OSTimer {
    var tmr: int
    var time: int
    var freeze: int
    var frozen: bool

    ghost function State(): Timer
      reads this
    {
      Timer(tmr, time, freeze, frozen)
    }

    constructor (timeout: int, now: int)
      requires 0 <= timeout < WRAP
      ensures State() == New(timeout, now) && State().Ok()
    {
      tmr, time, freeze, frozen := Millis(now), timeout, 0, false;
    }

    method Set(timeout: int, now: int)
      requires State().Ok() && 0 <= timeout < WRAP
      modifies this
      ensures State() == Step(old(State()), Event(Op.Set(timeout), now)) && State().Ok()
    {
      time := timeout;
      tmr := Millis(now);
    }

    method Restart(now: int)
      requires State().Ok()
      modifies this`tmr
      ensures State() == Step(old(State()), Event(Op.Restart, now)) && State().Ok()
    {
      tmr := Millis(now);
    }

    method IsExpired(now: int) returns (r: bool)
      requires State().Ok()
      ensures r == Expired(State(), now)
    {
      r := Sub32(Millis(now), tmr) > time;
    }

    method Freeze(now: int)
      requires State().Ok()
      modifies this`freeze, this`frozen
      ensures State() == Step(old(State()), Event(Op.Freeze, now)) && State().Ok()
    {
      freeze := Millis(now);
      frozen := true;
    }

    method Thaw(now: int)
      requires State().Ok()
      modifies this`tmr
      ensures State() == Step(old(State()), Event(Op.Thaw, now)) && State().Ok()
    {
      tmr := Add32(tmr, if frozen then Sub32(Millis(now), freeze) else 0);
    }
  }

  // The reference: a stopwatch in real time.

  /** `active` is the running time up to `since`, the time of the last event. */
  datatype Stopwatch = Stopwatch(active: int, since: int, stopped: bool, used: bool, timeout: int)

  function Active(w: Stopwatch, now: int): int {
    if w.stopped then w.active else w.active + (now - w.since)
  }

  function Tick(w: Stopwatch, e: Event): Stopwatch {
    var now := w.(active := Active(w, e.at), since := e.at);
    match e.op
    case Set(timeout) => now.(active := 0, timeout := timeout)
    case Restart => now.(active := 0)
    case Freeze => now.(stopped := true, used := true)
    case Thaw => now.(stopped := false)
  }

  /** Freeze and Thaw alternate, with nothing between them; a Thaw before the first Freeze is
      harmless. */
  predicate Bracketed(w: Stopwatch, e: Event) {
    && e.at >= w.since
    && match e.op
       case Set(timeout) => !w.stopped && 0 <= timeout < WRAP
       case Restart => !w.stopped
       case Freeze => !w.stopped
       case Thaw => w.stopped || !w.used
  }

  function Run(timeout: int, start: int, es: seq<Event>): Timer {
    if es == [] then New(timeout, start)
    else Step(Run(timeout, start, es[..|es| - 1]), es[|es| - 1])
  }

  function Watch(timeout: int, start: int, es: seq<Event>): Stopwatch {
    if es == [] then Stopwatch(0, start, false, false, timeout)
    else Tick(Watch(timeout, start, es[..|es| - 1]), es[|es| - 1])
  }

  predicate AllBracketed(timeout: int, start: int, es: seq<Event>) {
    es == [] ||
    (AllBracketed(timeout, start, es[..|es| - 1]) &&
     Bracketed(Watch(timeout, start, es[..|es| - 1]), es[|es| - 1]))
  }

  /** The timer's start mark is where an uninterrupted measurement would have begun. */
  ghost predicate Agree(t: Timer, w: Stopwatch) {
    && t.Ok()
    && t.time == w.timeout
    && t.tmr == (w.since - w.active) % WRAP
    && t.frozen == w.used
    && (w.stopped ==> w.used && t.freeze == Millis(w.since))
    && w.active >= 0
  }

  lemma StepAgrees(t: Timer, w: Stopwatch, e: Event)
    requires Agree(t, w) && Bracketed(w, e)
    ensures Agree(Step(t, e), Tick(w, e))
  {
    if e.op.Thaw? && w.used {
      ThawShifts(w.since - w.active, w.since, e.at);
    }
  }

  lemma ThawShifts(mark: int, f: int, at: int)
    ensures Add32(mark % WRAP, Sub32(Millis(at), Millis(f))) == (mark + (at - f)) % WRAP
  {
  }

  lemma {:induction false} RunAgrees(timeout: int, start: int, es: seq<Event>)
    requires 0 <= timeout < WRAP && AllBracketed(timeout, start, es)
    ensures Agree(Run(timeout, start, es), Watch(timeout, start, es))
  {
    if es != [] {
      var pre := es[..|es| - 1];
      RunAgrees(timeout, start, pre);
      StepAgrees(Run(timeout, start, pre), Watch(timeout, start, pre), es[|es| - 1]);
    }
  }

  /** Outside brackets the wrapped elapsed time is the unfrozen real time since the last Set
      or Restart, modulo 2^32, over any number of brackets and clock wraps; so the timer is
      expired exactly when that residue exceeds the timeout. */
  lemma ElapsedIsActiveTime(timeout: int, start: int, es: seq<Event>, now: int)
    requires 0 <= timeout < 0x1_0000_0000 && AllBracketed(timeout, start, es)
    requires now >= Watch(timeout, start, es).since && !Watch(timeout, start, es).stopped
    ensures
      var t, w := Run(timeout, start, es), Watch(timeout, start, es);
      && Elapsed(t, now) == Active(w, now) % 0x1_0000_0000
      && (Expired(t, now) <==> Active(w, now) % 0x1_0000_0000 > w.timeout)
  {
    RunAgrees(timeout, start, es);
    var w := Watch(timeout, start, es);
    Unwrap(now, w.since - w.active);
  }

  lemma Unwrap(now: int, mark: int)
    ensures Sub32(Millis(now), mark % WRAP) == (now - mark) % WRAP
  {
  }

  /** Below 2^32 ms of active time, expired means what it says. */
  lemma ExpiryIsExact(timeout: int, start: int, es: seq<Event>, now: int)
    requires 0 <= timeout < 0x1_0000_0000 && AllBracketed(timeout, start, es)
    requires now >= Watch(timeout, start, es).since && !Watch(timeout, start, es).stopped
    requires Active(Watch(timeout, start, es), now) < 0x1_0000_0000
    ensures
      var t, w := Run(timeout, start, es), Watch(timeout, start, es);
      Expired(t, now) <==> Active(w, now) > w.timeout
  {
    ElapsedIsActiveTime(timeout, start, es, now);
    RunAgrees(timeout, start, es);
  }

  /** A Thaw with no Freeze before it changes nothing. */
  lemma ThawWithoutFreeze(timeout: int, start: int, es: seq<Event>, at: int)
    requires 0 <= timeout < WRAP && AllBracketed(timeout, start, es) && !Watch(timeout, start, es).used
    ensures
      var t := Run(timeout, start, es);
      Step(t, Event(Thaw, at)) == t
  {
    RunAgrees(timeout, start, es);
  }

  /** Thaw never clears `frozen`: a second Thaw for the same Freeze moves the start mark
      again. The timer still agrees with real time exactly when the second Thaw comes a
      whole number of clock periods after the Freeze. */
  lemma SecondThaw(t: Timer, w: Stopwatch, frozenAt: int, at: int, now: int)
    requires Agree(t, w) && !w.stopped && w.used && t.freeze == Millis(frozenAt)
    requires w.since <= at <= now
    ensures
      Elapsed(Step(t, Event(Thaw, at)), now) == Active(w, now) % 0x1_0000_0000 <==> (at - frozenAt) % 0x1_0000_0000 == 0
  {
    var mark := w.since - w.active;
    ThawShifts(mark, frozenAt, at);
    Unwrap(now, mark + (at - frozenAt));
    SameResidue(now - mark, at - frozenAt);
  }

  lemma SameResidue(a: int, d: int)
    ensures (a - d) % WRAP == a % WRAP <==> d % WRAP == 0
  {
  }
}
