/**
 * The focus timer of src/components/FocusTimer.tsx: a five-state machine with a
 * focus countdown, a break countdown and a count of focused seconds, driven by
 * a once-per-second tick and by the buttons the component renders in each
 * state. Its only effect on the store is at the end of a completed session:
 * the whole minutes focused are credited, and the task in focus is completed.
 */
module Timer {
  import opened Types
  import opened Tasks
  import opened Gamification
  import opened Storage

  datatype TimerState = Ready | Running | Paused | Break | Completed

  /** The component's timer variables at one moment. */
  datatype Clock = Clock(
    state: TimerState,
    timeRemaining: int,        // seconds of focus left
    breakTimeRemaining: int,   // seconds of break left
    totalTimeElapsed: nat,     // seconds spent running
    timerCompleted: bool)

  /** The variables as the component mounts, for countdowns of `focus` and `brk` seconds. */
  function Fresh(focus: nat, brk: nat): (c: Clock)
    ensures c.state == Ready && c.totalTimeElapsed == 0
    ensures ClockInv(c, focus, brk)
  {
    Clock(Ready, focus, brk, 0, false)
  }

  /**
   * Both countdowns stay within their durations; the completed flag is set
   * exactly in the Completed state; a countdown not yet started is full and a
   * countdown that is over is zero.
   */
  predicate ClockInv(c: Clock, focus: nat, brk: nat) {
    && 0 <= c.timeRemaining <= focus
    && 0 <= c.breakTimeRemaining <= brk
    && (c.timerCompleted <==> c.state == Completed)
    && (c.state == Ready ==> c.timeRemaining == focus && c.breakTimeRemaining == brk)
    && (c.state == Running || c.state == Paused ==> c.breakTimeRemaining == brk)
    && (c.state == Break ==> c.timeRemaining == 0)
    && (c.state == Completed ==> c.timeRemaining == 0 && c.breakTimeRemaining == 0)
  }

  // ------------------------------------------------------------------ steps

  /** One interval callback: only Running and Break count down. */
  function TickStep(c: Clock): (r: Clock)
    ensures c.state == Running ==>
      && r.totalTimeElapsed == c.totalTimeElapsed + 1
      && r.breakTimeRemaining == c.breakTimeRemaining && r.timerCompleted == c.timerCompleted
      && (c.timeRemaining > 1 ==> r.state == Running && r.timeRemaining == c.timeRemaining - 1)
      && (c.timeRemaining <= 1 ==> r.state == Break && r.timeRemaining == 0)
    ensures c.state == Break ==>
      && r.totalTimeElapsed == c.totalTimeElapsed && r.timeRemaining == c.timeRemaining
      && (c.breakTimeRemaining > 1 ==> r.state == Break && r.breakTimeRemaining == c.breakTimeRemaining - 1 && r.timerCompleted == c.timerCompleted)
      && (c.breakTimeRemaining <= 1 ==> r.state == Completed && r.breakTimeRemaining == 0 && r.timerCompleted)
    ensures c.state == Ready || c.state == Paused || c.state == Completed ==> r == c
  {
    match c.state
    case Running =>
      if c.timeRemaining <= 1 then
        c.(state := Break, timeRemaining := 0, totalTimeElapsed := c.totalTimeElapsed + 1)
      else
        c.(timeRemaining := c.timeRemaining - 1, totalTimeElapsed := c.totalTimeElapsed + 1)
    case Break =>
      if c.breakTimeRemaining <= 1 then
        c.(state := Completed, breakTimeRemaining := 0, timerCompleted := true)
      else
        c.(breakTimeRemaining := c.breakTimeRemaining - 1)
    case _ => c
  }

  /** Whether two clocks agree on both countdowns, the focused seconds and the completed flag. */
  predicate SameCounters(c: Clock, r: Clock) {
    r.timeRemaining == c.timeRemaining && r.breakTimeRemaining == c.breakTimeRemaining
    && r.totalTimeElapsed == c.totalTimeElapsed && r.timerCompleted == c.timerCompleted
  }

  /** "Start Focus": the countdown begins; nothing is counted yet. */
  function StartStep(c: Clock): (r: Clock)
    ensures r.state == Running && SameCounters(c, r)
  {
    c.(state := Running)
  }

  /** "Pause": the countdown stops where it is. */
  function PauseStep(c: Clock): (r: Clock)
    ensures r.state == Paused && SameCounters(c, r)
  {
    c.(state := Paused)
  }

  /** "Resume": the countdown goes on from where it stopped. */
  function ResumeStep(c: Clock): (r: Clock)
    ensures r.state == Running && SameCounters(c, r)
  {
    c.(state := Running)
  }

  /** "Skip to Break": the focus left is dropped; the seconds focused so far stay counted. */
  function SkipToBreakStep(c: Clock): (r: Clock)
    ensures r.state == Break && r.timeRemaining == 0
    ensures r.breakTimeRemaining == c.breakTimeRemaining && r.totalTimeElapsed == c.totalTimeElapsed
    ensures r.timerCompleted == c.timerCompleted
  {
    c.(timeRemaining := 0, state := Break)
  }

  /** "Skip Break": the session is over at once. */
  function SkipBreakStep(c: Clock): (r: Clock)
    ensures r.state == Completed && r.timerCompleted && r.breakTimeRemaining == 0
    ensures r.timeRemaining == c.timeRemaining && r.totalTimeElapsed == c.totalTimeElapsed
  {
    c.(breakTimeRemaining := 0, state := Completed, timerCompleted := true)
  }

  /** "New Focus Session": the mount state again, except that the focused seconds are kept. */
  function NewSessionStep(c: Clock, focus: nat, brk: nat): (r: Clock)
    ensures r == Fresh(focus, brk).(totalTimeElapsed := c.totalTimeElapsed)
  {
    c.(timeRemaining := focus, breakTimeRemaining := brk, state := Ready, timerCompleted := false)
  }

  /** `n` consecutive ticks: they count at most `n` focused seconds and never uncount one. */
  function Ticks(c: Clock, n: nat): (r: Clock)
    ensures c.totalTimeElapsed <= r.totalTimeElapsed <= c.totalTimeElapsed + n
    decreases n
  {
    if n == 0 then c else Ticks(TickStep(c), n - 1)
  }

  // --------------------------------------------------------------- lemmas

  /** A tick keeps the bounds and the state/flag agreement. */
  lemma TickKeepsInv(c: Clock, focus: nat, brk: nat)
    requires ClockInv(c, focus, brk)
    ensures ClockInv(TickStep(c), focus, brk)
  {
  }

  /** Every button, pressed in a state where it is rendered, keeps the invariant. */
  lemma HandlersKeepInv(c: Clock, focus: nat, brk: nat)
    requires ClockInv(c, focus, brk)
    ensures c.state == Ready ==> ClockInv(StartStep(c), focus, brk)
    ensures c.state == Running ==> ClockInv(PauseStep(c), focus, brk)
    ensures c.state == Paused ==> ClockInv(ResumeStep(c), focus, brk)
    ensures c.state == Running || c.state == Paused ==> ClockInv(SkipToBreakStep(c), focus, brk)
    ensures c.state == Break ==> ClockInv(SkipBreakStep(c), focus, brk)
    ensures ClockInv(NewSessionStep(c, focus, brk), focus, brk)
  {
  }

  /** Pausing and resuming gives back the running clock, and a paused clock does not move. */
  lemma PauseResume(c: Clock, n: nat)
    requires c.state == Running
    ensures ResumeStep(PauseStep(c)) == c
    ensures Ticks(PauseStep(c), n) == PauseStep(c)
  {
    FixedUnderTicks(PauseStep(c), n);
  }

  /** Ready, Paused and Completed clocks are not moved by ticks. */
  lemma {:induction false} FixedUnderTicks(c: Clock, n: nat)
    requires c.state == Ready || c.state == Paused || c.state == Completed
    ensures Ticks(c, n) == c
    decreases n
  {
    if n > 0 {
      FixedUnderTicks(TickStep(c), n - 1);
    }
  }

  lemma {:induction false} TicksAdd(c: Clock, a: nat, b: nat)
    ensures Ticks(c, a + b) == Ticks(Ticks(c, a), b)
    decreases a
  {
    if a > 0 {
      TicksAdd(TickStep(c), a - 1, b);
    }
  }

  /** A running clock with `n` seconds left reaches the break after exactly `n` ticks, each counted as focused. */
  lemma {:induction false} FocusCountdown(c: Clock, n: nat)
    requires c.state == Running && c.timeRemaining == n && n >= 1
    ensures Ticks(c, n) == c.(state := Break, timeRemaining := 0, totalTimeElapsed := c.totalTimeElapsed + n)
    decreases n
  {
    if n > 1 {
      FocusCountdown(TickStep(c), n - 1);
    }
  }

  /** A break with `m` seconds left completes the session after exactly `m` ticks, counting nothing as focused. */
  lemma {:induction false} BreakCountdown(c: Clock, m: nat)
    requires c.state == Break && c.breakTimeRemaining == m && m >= 1
    ensures Ticks(c, m) == c.(state := Completed, breakTimeRemaining := 0, timerCompleted := true)
    decreases m
  {
    if m > 1 {
      BreakCountdown(TickStep(c), m - 1);
    }
  }

  /**
   * A session started and left alone: after the focus and the break have run
   * out, the session is completed and exactly the focus duration was counted.
   */
  lemma UninterruptedSession(focus: nat, brk: nat)
    requires focus >= 1 && brk >= 1
    ensures Ticks(StartStep(Fresh(focus, brk)), focus + brk) == Clock(Completed, 0, 0, focus, true)
  {
    var c := StartStep(Fresh(focus, brk));
    TicksAdd(c, focus, brk);
    FocusCountdown(c, focus);
    BreakCountdown(Ticks(c, focus), brk);
  }

  // ---------------------------------------------------------- session end

  /**
   * The store after a completed session ends (handleComplete): the whole
   * minutes focused are credited when there is at least one, then the task in
   * focus, if any, is completed (the page wires the completion callback to
   * completeTask).
   */
  function SessionOutcome(tasks: seq<Task>, stats: UserStats, elapsed: nat, task: Option<Task>, now: Instant): (r: (seq<Task>, UserStats))
    ensures r.1.focusTime == stats.focusTime + elapsed / 60
    ensures task.None? ==> r.0 == tasks
    ensures task.None? && elapsed < 60 ==> r == (tasks, stats)
    ensures task.None? ==> r == (tasks, if elapsed / 60 > 0 then FocusStats(stats, elapsed / 60, now) else stats)
    ensures task.Some? ==> r == Completion(tasks, (if elapsed / 60 > 0 then FocusStats(stats, elapsed / 60, now) else stats), task.value.id, now)
  {
    var minutes := elapsed / 60;
    var credited := if minutes > 0 then FocusStats(stats, minutes, now) else stats;
    match task
    case None => (tasks, credited)
    case Some(t) => Completion(tasks, credited, t.id, now)
  }

  /** An uninterrupted session of `d` minutes credits exactly `d` minutes. */
  lemma FullSessionCredit(tasks: seq<Task>, stats: UserStats, d: nat, brk: nat, now: Instant)
    requires d >= 1 && brk >= 1
    ensures var c := Ticks(StartStep(Fresh(d * 60, brk)), d * 60 + brk);
      c.timerCompleted && SessionOutcome(tasks, stats, c.totalTimeElapsed, None, now).1.focusTime == stats.focusTime + d
  {
    UninterruptedSession(d * 60, brk);
  }

  /**
   * With the default preferences the component mounts with 25 minutes of focus
   * and 5 of break, and a session left alone credits 25 minutes.
   */
  lemma DefaultSession(tasks: seq<Task>, stats: UserStats, now: Instant)
    ensures var c := Fresh(DefaultPreferences.focusDuration * 60, DefaultPreferences.breakDuration * 60);
      && c == Clock(Ready, 1500, 300, 0, false)
      && Ticks(StartStep(c), 1800) == Clock(Completed, 0, 0, 1500, true)
      && SessionOutcome(tasks, stats, 1500, None, now).1.focusTime == stats.focusTime + 25
  {
    UninterruptedSession(1500, 300);
  }

  // ------------------------------------------------------------ component

  /** The mounted component: its preferences, the task in focus and its state variables. */
  class FocusTimer {
    const focusSeconds: nat
    const breakSeconds: nat
    const task: Option<Task>
    var state: TimerState
    var timeRemaining: int
    var breakTimeRemaining: int
    var totalTimeElapsed: nat
    var timerCompleted: bool
    var showExitConfirm: bool
    var closed: bool   // onClose has been called

    function Snapshot(): Clock
      reads this
    {
      Clock(state, timeRemaining, breakTimeRemaining, totalTimeElapsed, timerCompleted)
    }

    ghost predicate Valid()
      reads this
    {
      ClockInv(Snapshot(), focusSeconds, breakSeconds)
    }

    /** Mounting: durations are read from the preferences in minutes. */
    constructor (prefs: UserPreferences, task: Option<Task>)
      ensures Valid()
      ensures focusSeconds == prefs.focusDuration * 60 && breakSeconds == prefs.breakDuration * 60
      ensures this.task == task
      ensures Snapshot() == Fresh(focusSeconds, breakSeconds)
      ensures !showExitConfirm && !closed
    {
      focusSeconds := prefs.focusDuration * 60;
      breakSeconds := prefs.breakDuration * 60;
      this.task := task;
      state := Ready;
      timeRemaining := prefs.focusDuration * 60;
      breakTimeRemaining := prefs.breakDuration * 60;
      totalTimeElapsed := 0;
      timerCompleted := false;
      showExitConfirm := false;
      closed := false;
    }

    /** One second of the interval the effect installs in Running and Break. */
    method Tick()
      requires !closed
      modifies this
      ensures Snapshot() == TickStep(old(Snapshot()))
      ensures showExitConfirm == old(showExitConfirm) && closed == old(closed)
      ensures old(Valid()) ==> Valid()
    {
      if state == Running {
        if timeRemaining <= 1 {
          state := Break;
          timeRemaining := 0;
        } else {
          timeRemaining := timeRemaining - 1;
        }
        totalTimeElapsed := totalTimeElapsed + 1;
      } else if state == Break {
        if breakTimeRemaining <= 1 {
          state := Completed;
          timerCompleted := true;
          breakTimeRemaining := 0;
        } else {
          breakTimeRemaining := breakTimeRemaining - 1;
        }
      }
      if old(Valid()) {
        TickKeepsInv(old(Snapshot()), focusSeconds, breakSeconds);
      }
    }

    method Start()
      requires !closed && state == Ready
      modifies this
      ensures Snapshot() == StartStep(old(Snapshot()))
      ensures showExitConfirm == old(showExitConfirm) && closed == old(closed)
      ensures old(Valid()) ==> Valid()
    {
      state := Running;
    }

    method Pause()
      requires !closed && state == Running
      modifies this
      ensures Snapshot() == PauseStep(old(Snapshot()))
      ensures showExitConfirm == old(showExitConfirm) && closed == old(closed)
      ensures old(Valid()) ==> Valid()
    {
      state := Paused;
    }

    method Resume()
      requires !closed && state == Paused
      modifies this
      ensures Snapshot() == ResumeStep(old(Snapshot()))
      ensures showExitConfirm == old(showExitConfirm) && closed == old(closed)
      ensures old(Valid()) ==> Valid()
    {
      state := Running;
    }

    method SkipToBreak()
      requires !closed && (state == Running || state == Paused)
      modifies this
      ensures Snapshot() == SkipToBreakStep(old(Snapshot()))
      ensures showExitConfirm == old(showExitConfirm) && closed == old(closed)
      ensures old(Valid()) ==> Valid()
    {
      timeRemaining := 0;
      state := Break;
    }

    method SkipBreak()
      requires !closed && state == Break
      modifies this
      ensures Snapshot() == SkipBreakStep(old(Snapshot()))
      ensures showExitConfirm == old(showExitConfirm) && closed == old(closed)
      ensures old(Valid()) ==> Valid()
    {
      breakTimeRemaining := 0;
      state := Completed;
      timerCompleted := true;
    }

    method NewSession()
      requires !closed && state == Completed
      modifies this
      ensures Snapshot() == NewSessionStep(old(Snapshot()), focusSeconds, breakSeconds)
      ensures showExitConfirm == old(showExitConfirm) && closed == old(closed)
      ensures old(Valid()) ==> Valid()
    {
      timeRemaining := focusSeconds;
      breakTimeRemaining := breakSeconds;
      state := Ready;
      timerCompleted := false;
    }

    /**
     * handleComplete: a completed session credits its minutes, completes the
     * task in focus and closes; any other session only asks for confirmation.
     */
    method Complete(store: Store, now: Instant)
      requires !closed
      modifies this, store
      ensures Snapshot() == old(Snapshot())
      ensures old(timerCompleted) ==>
        && closed && showExitConfirm == old(showExitConfirm)
        && (store.tasks, store.stats)
           == SessionOutcome(old(store.tasks), old(store.stats), totalTimeElapsed, task, now)
      ensures !old(timerCompleted) ==>
        && showExitConfirm && !closed
        && store.tasks == old(store.tasks) && store.stats == old(store.stats)
      ensures old(store.Valid()) ==> store.Valid()
    {
      if timerCompleted {
        var focusMinutes := totalTimeElapsed / 60;
        if focusMinutes > 0 {
          store.AddFocusTime(focusMinutes, now);
        }
        if task.Some? {
          store.CompleteTask(task.value.id, now);
        }
        closed := true;
      } else {
        showExitConfirm := true;
      }
    }

    /** The header button: asks for confirmation while a session runs or is paused, otherwise completes. */
    method CloseButton(store: Store, now: Instant)
      requires !closed
      modifies this, store
      ensures Snapshot() == old(Snapshot())
      ensures old(state) == Running || old(state) == Paused ==>
        && showExitConfirm && !closed
        && store.tasks == old(store.tasks) && store.stats == old(store.stats)
      ensures old(state) == Completed && old(Valid()) ==>
        && closed && showExitConfirm == old(showExitConfirm)
        && (store.tasks, store.stats)
           == SessionOutcome(old(store.tasks), old(store.stats), totalTimeElapsed, task, now)
      ensures old(state) != Completed && old(Valid()) ==>
        store.tasks == old(store.tasks) && store.stats == old(store.stats)
      ensures (old(state) == Ready || old(state) == Break) && old(Valid()) ==>
        showExitConfirm && !closed
      ensures old(store.Valid()) ==> store.Valid()
    {
      if state == Running || state == Paused {
        showExitConfirm := true;
      } else {
        Complete(store, now);
      }
    }

    /** "Exit Session" in the confirmation dialog: closes without crediting anything. */
    method ExitSession()
      requires !closed && showExitConfirm
      modifies this
      ensures Snapshot() == old(Snapshot())
      ensures !showExitConfirm && closed
    {
      showExitConfirm := false;
      closed := true;
    }

    /** "Continue focusing" in the confirmation dialog. */
    method KeepFocusing()
      requires !closed && showExitConfirm
      modifies this
      ensures Snapshot() == old(Snapshot())
      ensures !showExitConfirm && closed == old(closed)
    {
      showExitConfirm := false;
    }
  }

  // ------------------------------------------------------------ formatTime

  predicate IsDigit(ch: char) {
    '0' <= ch <= '9'
  }

  predicate AllDigits(s: string) {
    forall i :: 0 <= i < |s| ==> IsDigit(s[i])
  }

  function DigitChar(d: nat): (ch: char)
    requires d < 10
    ensures IsDigit(ch) && ch as int - '0' as int == d
  {
    ('0' as int + d) as char
  }

  /** Decimal notation without leading zeros (Number.prototype.toString). */
  function NatToString(n: nat): (r: string)
    ensures |r| >= 1 && AllDigits(r)
    ensures n < 10 <==> |r| == 1
    ensures n < 100 ==> |r| <= 2
    ensures n > 0 ==> r[0] != '0'
    decreases n
  {
    if n < 10 then [DigitChar(n)] else NatToString(n / 10) + [DigitChar(n % 10)]
  }

  /** The value of a string of decimal digits, leading zeros allowed. */
  function ParseDigits(s: string): nat
    requires AllDigits(s)
    decreases |s|
  {
    if |s| == 0 then 0
    else ParseDigits(s[..|s| - 1]) * 10 + (s[|s| - 1] as int - '0' as int)
  }

  /** Leading '0's up to length two (padStart(2, '0')). */
  function Pad2(s: string): (r: string)
    ensures |r| == if |s| >= 2 then |s| else 2
    ensures r[|r| - |s|..] == s
    ensures forall i :: 0 <= i < |r| - |s| ==> r[i] == '0'
    ensures AllDigits(s) ==> AllDigits(r)
  {
    if |s| >= 2 then s else if |s| == 1 then ['0'] + s else "00"
  }

  /** The two halves of a string joined around a colon can be cut out again. */
  lemma JoinParts(a: string, b: string)
    ensures var r := a + ":" + b;
      && |r| == |a| + 1 + |b| && r[|a|] == ':'
      && r[..|a|] == a && r[|a| + 1..] == b
  {
    var r := a + ":" + b;
    assert r == a + ([':'] + b);
    assert r[..|a|] == a;
    assert r[|a| + 1..] == b;
  }

  lemma MinutesBelowHundred(seconds: nat)
    ensures seconds < 6000 ==> seconds / 60 < 100
  {
  }

  /** MM:SS: minutes and seconds, each padded to two digits, around a colon; it reads back as the seconds it shows. */
  function FormatTime(seconds: nat): (r: string)
    ensures ParseTime(r) == Some(seconds)
  {
    ReadBack(seconds / 60, seconds % 60);
    SplitMinutes(seconds);
    Pad2(NatToString(seconds / 60)) + ":" + Pad2(NatToString(seconds % 60))
  }

  /**
   * The clock face is digits, a colon and two digits of seconds; five
   * characters below 100 minutes. The field before the colon reads as the
   * whole minutes and the two after it as the seconds within the minute,
   * always below 60.
   */
  lemma FormatTimeShape(seconds: nat)
    ensures var r := FormatTime(seconds);
      && |r| >= 5 && r[|r| - 3] == ':'
      && AllDigits(r[..|r| - 3]) && AllDigits(r[|r| - 2..])
      && ParseDigits(r[..|r| - 3]) == seconds / 60
      && ParseDigits(r[|r| - 2..]) == seconds % 60 < 60
      && (seconds < 6000 ==> |r| == 5)
  {
    var mins := Pad2(NatToString(seconds / 60));
    var secs := Pad2(NatToString(seconds % 60));
    JoinParts(mins, secs);
    MinutesBelowHundred(seconds);
    ParseNatToString(seconds / 60);
    ParseNatToString(seconds % 60);
    ParsePad2(NatToString(seconds / 60));
    ParsePad2(NatToString(seconds % 60));
    assert |secs| == 2;
  }

  /** The position of the first ':' in `s`, or -1. */
  function Colon(s: string): (i: int)
    ensures -1 <= i < |s|
    ensures 0 <= i ==> s[i] == ':' && forall j :: 0 <= j < i ==> s[j] != ':'
    ensures i < 0 ==> forall j :: 0 <= j < |s| ==> s[j] != ':'
    decreases |s|
  {
    if |s| == 0 then -1
    else if s[0] == ':' then 0
    else
      var k := Colon(s[1..]);
      if k < 0 then -1 else k + 1
  }

  /** Reads MM:SS back into seconds; None for anything that is not digits, a colon and digits. */
  function ParseTime(s: string): Option<nat> {
    var i := Colon(s);
    if i < 0 then None
    else
      var mins, secs := s[..i], s[i + 1..];
      if |mins| > 0 && |secs| > 0 && AllDigits(mins) && AllDigits(secs)
      then Some(ParseDigits(mins) * 60 + ParseDigits(secs))
      else None
  }

  lemma {:induction false} ParseDigitsSnoc(s: string, ch: char)
    requires AllDigits(s) && IsDigit(ch)
    ensures AllDigits(s + [ch])
    ensures ParseDigits(s + [ch]) == ParseDigits(s) * 10 + (ch as int - '0' as int)
  {
    assert (s + [ch])[..|s|] == s;
  }

  /** Reading back the decimal notation gives the number. */
  lemma {:induction false} ParseNatToString(n: nat)
    ensures ParseDigits(NatToString(n)) == n
    decreases n
  {
    if n < 10 {
      assert [DigitChar(n)][..0] == [];
    } else {
      ParseNatToString(n / 10);
      ParseDigitsSnoc(NatToString(n / 10), DigitChar(n % 10));
    }
  }

  /** A leading '0' does not change the value. */
  lemma {:induction false} ParseLeadingZero(s: string)
    requires AllDigits(s)
    ensures AllDigits(['0'] + s) && ParseDigits(['0'] + s) == ParseDigits(s)
    decreases |s|
  {
    if |s| > 0 {
      var init := s[..|s| - 1];
      ParseLeadingZero(init);
      assert (['0'] + s)[..|s|] == ['0'] + init;
    }
  }

  /** Padding does not change the value. */
  lemma ParsePad2(s: string)
    requires AllDigits(s)
    ensures AllDigits(Pad2(s)) && ParseDigits(Pad2(s)) == ParseDigits(s)
  {
    if |s| == 1 {
      ParseLeadingZero(s);
    } else if |s| == 0 {
      ParseLeadingZero("0");
      ParseLeadingZero("");
    }
  }

  /** Digits, a colon and digits read back as minutes and seconds. */
  lemma ParseJoined(mins: string, secs: string, m: nat, s: nat)
    requires |mins| > 0 && |secs| > 0 && AllDigits(mins) && AllDigits(secs)
    requires ParseDigits(mins) == m && ParseDigits(secs) == s
    ensures ParseTime(mins + ":" + secs) == Some(m * 60 + s)
  {
    var r := mins + ":" + secs;
    assert Colon(r) == |mins| by {
      assert r[|mins|] == ':';
      forall j | 0 <= j < |mins| ensures r[j] != ':' {
        assert r[j] == mins[j];
      }
    }
    assert r[..|mins|] == mins && r[|mins| + 1..] == secs;
  }

  lemma SplitMinutes(seconds: nat)
    ensures (seconds / 60) * 60 + seconds % 60 == seconds
  {
  }

  /** Padded minutes and seconds around a colon read back as their total in seconds. */
  lemma ReadBack(q: nat, rem: nat)
    ensures ParseTime(Pad2(NatToString(q)) + ":" + Pad2(NatToString(rem))) == Some(q * 60 + rem)
  {
    var m, s := NatToString(q), NatToString(rem);
    ParsePad2(m);
    ParsePad2(s);
    ParseNatToString(q);
    ParseNatToString(rem);
    ParseJoined(Pad2(m), Pad2(s), q, rem);
  }

  /** From 100 minutes on, the minutes take three digits or more: 6000 seconds show as 100:00. */
  lemma HundredMinutes()
    ensures FormatTime(6000) == "100:00"
  {
    assert NatToString(100) == "100" by {
      assert NatToString(10) == "10";
    }
    assert NatToString(0) == "0";
  }
}
