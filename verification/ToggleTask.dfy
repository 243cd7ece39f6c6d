/** The periodic task of ENDG3051_APP/ToggleTask.cpp on top of OSTimer, and its pacing over
    whole runs. */
module ToggleTask {
  import opened OsTimer

  /** One call of TaskLoop: when it reads the clock to check the timer, and when it reads the
      clock again to restart it. */
  datatype Poll = Poll(check: int, restart: int)

  /** A call Toggle(state), and when the check that led to it was made. */
  datatype Toggled = Toggled(state: bool, at: int)

  datatype Task = Task(tm: Timer, flag: bool, toggles: seq<Toggled>)

  function Start(timeout: int, now: int): Task {
    Task(New(timeout, now), false, [])
  }

  function PollStep(t: Task, p: Poll): Task {
    if Expired(t.tm, p.check) then
      Task(OsTimer.Step(t.tm, Event(Restart, p.restart)), !t.flag, t.toggles + [Toggled(t.flag, p.check)])
    else t
  }

  class ToggleTask {
    const tm: OSTimer
    var toggleflag: bool
    ghost var toggles: seq<Toggled>  // history: the calls of Toggle

    ghost function State(): Task
      reads this, tm
    {
      Task(tm.State(), toggleflag, toggles)
    }

    constructor (timeout: int, now: int)
      requires 0 <= timeout < WRAP
      ensures State() == Start(timeout, now) && fresh(tm) && tm.State().Ok()
    {
      tm := new OSTimer(timeout, now);
      toggleflag := false;
      toggles := [];
    }

    method TaskLoop(check: int, restart: int)
      requires tm.State().Ok()
      modifies this, tm
      ensures State() == PollStep(old(State()), Poll(check, restart)) && tm.State().Ok()
    {
      var expired := tm.IsExpired(check);
      if expired {
        toggles := toggles + [Toggled(toggleflag, check)];
        toggleflag := if toggleflag then false else true;
        tm.Restart(restart);
      }
    }
  }

  // Runs

  function PollRun(timeout: int, start: int, ps: seq<Poll>): Task {
    if ps == [] then Start(timeout, start)
    else PollStep(PollRun(timeout, start, ps[..|ps| - 1]), ps[|ps| - 1])
  }

  /** Real time of the last restart, or of construction. */
  function Mark(timeout: int, start: int, ps: seq<Poll>): int {
    if ps == [] then start
    else
      var pre, p := ps[..|ps| - 1], ps[|ps| - 1];
      if Expired(PollRun(timeout, start, pre).tm, p.check) then p.restart else Mark(timeout, start, pre)
  }

  /** Time passes. */
  function Latest(start: int, ps: seq<Poll>): int {
    if ps == [] then start else ps[|ps| - 1].restart
  }

  ghost predicate Ordered(start: int, ps: seq<Poll>) {
    forall i :: 0 <= i < |ps| ==> Latest(start, ps[..i]) <= ps[i].check <= ps[i].restart
  }

  lemma OrderedPrefix(start: int, ps: seq<Poll>, n: nat)
    requires Ordered(start, ps) && n <= |ps|
    ensures Ordered(start, ps[..n])
  {
    assert forall i :: 0 <= i < n ==> ps[..n][..i] == ps[..i];
  }

  ghost predicate Paced(t: Task, timeout: int, start: int, mark: int) {
    && t.tm == Timer(Millis(mark), timeout, 0, false)
    && start + |t.toggles| * (timeout + 1) <= mark
    && t.flag == (|t.toggles| % 2 == 1)
    && (forall k :: 0 <= k < |t.toggles| ==> t.toggles[k].state == (k % 2 == 1))
    && (forall k :: 0 <= k < |t.toggles| ==> t.toggles[k].at >= start + (k + 1) * (timeout + 1))
  }

  lemma StepPaced(t: Task, timeout: int, start: int, mark: int, p: Poll)
    requires 0 <= timeout < WRAP && Paced(t, timeout, start, mark) && mark <= p.check <= p.restart
    ensures Paced(PollStep(t, p), timeout, start, if Expired(t.tm, p.check) then p.restart else mark)
  {
    if Expired(t.tm, p.check) {
      Unwrap(p.check, mark);
      NoLonger(p.check - mark);
      var n := |t.toggles|;
      Distribute(n, timeout + 1);
      assert p.check >= start + (n + 1) * (timeout + 1);
      assert PollStep(t, p).toggles == t.toggles + [Toggled(t.flag, p.check)];
    }
  }

  lemma NoLonger(x: int)
    requires x >= 0
    ensures x % WRAP <= x
  {
  }

  lemma Distribute(n: int, m: int)
    ensures (n + 1) * m == n * m + m
  {
  }

  lemma {:induction false} RunPaced(timeout: int, start: int, ps: seq<Poll>)
    requires 0 <= timeout < WRAP && Ordered(start, ps)
    ensures Paced(PollRun(timeout, start, ps), timeout, start, Mark(timeout, start, ps))
    ensures Mark(timeout, start, ps) <= Latest(start, ps)
  {
    if ps != [] {
      var pre, p := ps[..|ps| - 1], ps[|ps| - 1];
      OrderedPrefix(start, ps, |ps| - 1);
      RunPaced(timeout, start, pre);
      StepPaced(PollRun(timeout, start, pre), timeout, start, Mark(timeout, start, pre), p);
    }
  }

  /** In every run the k-th toggle comes at least k * (timeout + 1) ms after construction,
      whatever the clock does, and the states alternate, beginning with false. */
  lemma TogglesArePaced(timeout: int, start: int, ps: seq<Poll>, k: nat)
    requires 0 <= timeout < 0x1_0000_0000 && Ordered(start, ps) && k < |PollRun(timeout, start, ps).toggles|
    ensures
      var toggle := PollRun(timeout, start, ps).toggles[k];
      toggle.at >= start + (k + 1) * (timeout + 1) && toggle.state == (k % 2 == 1)
  {
    RunPaced(timeout, start, ps);
  }

  /** A timeout of 2^32 - 1 never expires. */
  lemma {:induction false} LargestTimeoutNeverToggles(start: int, ps: seq<Poll>)
    requires Ordered(start, ps)
    ensures PollRun(0xFFFF_FFFF, start, ps).toggles == []
  {
    if ps != [] {
      OrderedPrefix(start, ps, |ps| - 1);
      LargestTimeoutNeverToggles(start, ps[..|ps| - 1]);
      RunPaced(WRAP - 1, start, ps[..|ps| - 1]);
    }
  }

  // Promptness

  /** Each poll comes at most gap after the previous poll, or after its restart if that poll
      toggled; the first one at most gap after construction. */
  ghost predicate Prompt(timeout: int, start: int, ps: seq<Poll>, gap: int) {
    forall i :: 0 <= i < |ps| ==> ps[i].check <= Reference(timeout, start, ps[..i]) + gap
  }

  function Reference(timeout: int, start: int, ps: seq<Poll>): int {
    if ps == [] then start
    else
      var pre, p := ps[..|ps| - 1], ps[|ps| - 1];
      if Expired(PollRun(timeout, start, pre).tm, p.check) then p.restart else p.check
  }

  /** The i-th poll toggles or not: if so the call is Toggle(true) or Toggle(false), alternating
      from false, and the timer is restarted; if not, nothing happens. */
  ghost predicate TogglesAt(timeout: int, start: int, ps: seq<Poll>, i: nat, does: bool)
    requires i < |ps|
  {
    var before, after := PollRun(timeout, start, ps[..i]), PollRun(timeout, start, ps[..i + 1]);
    if does then
      && after.toggles == before.toggles + [Toggled(|before.toggles| % 2 == 1, ps[i].check)]
      && Mark(timeout, start, ps[..i + 1]) == ps[i].restart
    else after == before && Mark(timeout, start, ps[..i + 1]) == Mark(timeout, start, ps[..i])
  }

  /** With prompt polls and timeout + gap below 2^32, a poll toggles exactly when more than
      timeout ms have passed since the last restart, and no poll, hence no toggle, comes more
      than timeout + gap ms after it. */
  lemma TogglesArePrompt(timeout: int, start: int, ps: seq<Poll>, gap: int, i: nat)
    requires 0 <= timeout && 0 <= gap && timeout + gap < 0x1_0000_0000 && Ordered(start, ps) && Prompt(timeout, start, ps, gap)
    requires i < |ps|
    ensures
      var late := ps[i].check - Mark(timeout, start, ps[..i]);
      0 <= late <= timeout + gap && TogglesAt(timeout, start, ps, i, late > timeout)
  {
    ExpiresPromptly(timeout, start, ps, gap, i);
    OrderedPrefix(start, ps, i);
    RunPaced(timeout, start, ps[..i]);
    PollSnoc(timeout, start, ps, i);
  }

  /** What the i-th poll does to a run. */
  lemma PollSnoc(timeout: int, start: int, ps: seq<Poll>, i: nat)
    requires i < |ps|
    ensures PollRun(timeout, start, ps[..i + 1]) == PollStep(PollRun(timeout, start, ps[..i]), ps[i])
    ensures
      Mark(timeout, start, ps[..i + 1])
      == if Expired(PollRun(timeout, start, ps[..i]).tm, ps[i].check) then ps[i].restart else Mark(timeout, start, ps[..i])
  {
    assert ps[..i + 1][..i] == ps[..i];
  }

  lemma {:induction false} ExpiresPromptly(timeout: int, start: int, ps: seq<Poll>, gap: int, i: nat)
    requires 0 <= timeout && 0 <= gap && timeout + gap < WRAP && Ordered(start, ps) && Prompt(timeout, start, ps, gap)
    requires i < |ps|
    ensures
      var mark := Mark(timeout, start, ps[..i]);
      && 0 <= ps[i].check - mark <= timeout + gap
      && (Expired(PollRun(timeout, start, ps[..i]).tm, ps[i].check) <==> ps[i].check - mark > timeout)
    decreases i
  {
    var pre := ps[..i];
    OrderedPrefix(start, ps, i);
    RunPaced(timeout, start, pre);
    if i > 0 {
      ExpiresPromptly(timeout, start, ps, gap, i - 1);
      MarkAfter(timeout, start, pre);
      assert pre[..i - 1] == ps[..i - 1] && pre[i - 1] == ps[i - 1];
    }
    WithinPeriod(PollRun(timeout, start, pre).tm, Mark(timeout, start, pre), ps[i].check);
  }

  lemma MarkAfter(timeout: int, start: int, ps: seq<Poll>)
    requires ps != []
    ensures
      var pre, p := ps[..|ps| - 1], ps[|ps| - 1];
      if Expired(PollRun(timeout, start, pre).tm, p.check) then
        Mark(timeout, start, ps) == Reference(timeout, start, ps)
      else
        Mark(timeout, start, ps) == Mark(timeout, start, pre) && Reference(timeout, start, ps) == p.check
  {
  }

  lemma WithinPeriod(t: Timer, mark: int, now: int)
    requires t.tmr == Millis(mark) && mark <= now < mark + WRAP
    ensures Expired(t, now) <==> now - mark > t.time
  {
    Unwrap(now, mark);
  }
}
