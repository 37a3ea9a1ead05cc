/**
 * The focus timer: a countdown of `timeLeft` seconds, a `running` flag that
 * keeps the one-second interval alive, and the task being focused on.
 */
module Focus {
  import opened Wrappers
  import opened Tasks

  /** 25 minutes. */
  const FocusSeconds: int := 25 * 60

  datatype TimerState = TimerState(timeLeft: int, running: bool)

  /** The values `timeLeft` can take: the counter is reset before it would reach 0. */
  predicate InRange(s: int)
  {
    1 <= s <= FocusSeconds
  }

  /**
   * One firing of the interval: the updater handed to `setTimeLeft`, with its
   * `setRunning(false)`. It does not read `running`: the interval exists only
   * while the flag is set.
   */
  function TickStep(st: TimerState): (r: TimerState)
    ensures st.timeLeft > 1 ==> r.timeLeft == st.timeLeft - 1 && r.running == st.running
    ensures st.timeLeft <= 1 ==> r.timeLeft == FocusSeconds && !r.running
  {
    if st.timeLeft <= 1 then TimerState(FocusSeconds, false)
    else st.(timeLeft := st.timeLeft - 1)
  }

  /** Whether this firing completes a session (and shows the completion alert). */
  predicate Completes(st: TimerState)
  {
    st.timeLeft <= 1
  }

  /** A tick keeps the counter in range and never starts the timer. */
  lemma TickKeepsRange(st: TimerState)
    requires InRange(st.timeLeft)
    ensures InRange(TickStep(st).timeLeft)
    ensures TickStep(st).running ==> st.running
    ensures TickStep(st).running != st.running ==> st.running && Completes(st)
  {
  }

  /** The state after `n` successive ticks. */
  function Ticks(st: TimerState, n: nat): TimerState
  {
    if n == 0 then st else TickStep(Ticks(st, n - 1))
  }

  /** How many of those `n` ticks complete a session. */
  function Completions(st: TimerState, n: nat): (c: nat)
    ensures c <= n
  {
    if n == 0 then 0
    else Completions(st, n - 1) + (if Completes(Ticks(st, n - 1)) then 1 else 0)
  }

  /** Any number of ticks keeps the counter in range. */
  lemma {:induction false} TicksKeepRange(st: TimerState, n: nat)
    requires InRange(st.timeLeft)
    ensures InRange(Ticks(st, n).timeLeft)
  {
    if n > 0 {
      TicksKeepRange(st, n - 1);
      TickKeepsRange(Ticks(st, n - 1));
    }
  }

  /** A session that was just started and set running. */
  function Started(): TimerState
  {
    TimerState(FocusSeconds, true)
  }

  /** For the first 1499 ticks the timer counts down one second per tick and keeps running. */
  lemma {:induction false} CountsDown(k: nat)
    requires k < FocusSeconds
    ensures Ticks(Started(), k) == TimerState(FocusSeconds - k, true)
    ensures Completions(Started(), k) == 0
  {
    if k > 0 {
      CountsDown(k - 1);
    }
  }

  /**
   * A full session: 1500 ticks from 1500 end back at 1500 with the timer
   * stopped, and exactly one of those ticks (the last) completes the session.
   */
  lemma FullSession()
    ensures forall k :: 0 <= k < FocusSeconds ==> Ticks(Started(), k).running
    ensures Ticks(Started(), FocusSeconds) == TimerState(FocusSeconds, false)
    ensures Completions(Started(), FocusSeconds) == 1
  {
    forall k | 0 <= k < FocusSeconds ensures Ticks(Started(), k).running {
      CountsDown(k);
    }
    CountsDown(FocusSeconds - 1);
  }

  /** The timer part of the component's state. */
  class FocusPanel {
    var timeLeft: int
    var running: bool
    var focusTask: Option<Task>

    predicate Valid()
      reads this
    {
      InRange(timeLeft)
    }

    function State(): TimerState
      reads this
    {
      TimerState(timeLeft, running)
    }

    /** The initial state: 25 minutes, stopped, nothing focused. */
    constructor ()
      ensures Valid()
      ensures timeLeft == FocusSeconds && !running && focusTask == None
    {
      timeLeft, running, focusTask := FocusSeconds, false, None;
    }

    /** `startFocus(t)`: focuses on `t` with a fresh, stopped 25-minute counter. */
    method StartFocus(t: Task)
      modifies this
      ensures Valid()
      ensures focusTask == Some(t) && timeLeft == FocusSeconds && !running
    {
      focusTask := Some(t);
      timeLeft := FocusSeconds;
      running := false;
    }

    /** The Start button. */
    method Start()
      requires Valid()
      modifies this`running
      ensures Valid()
      ensures running
    {
      running := true;
    }

    /** The Pause button. */
    method Pause()
      requires Valid()
      modifies this`running
      ensures Valid()
      ensures !running
    {
      running := false;
    }

    /** The Exit button: clears the focused task only; the counter and the flag are left as they are. */
    method Exit()
      requires Valid()
      modifies this`focusTask
      ensures Valid()
      ensures focusTask == None
    {
      focusTask := None;
    }

    /** One firing of the interval; `completed` tells whether the completion alert is shown. */
    method Tick() returns (completed: bool)
      requires Valid()
      modifies this`timeLeft, this`running
      ensures Valid()
      ensures State() == TickStep(old(State()))
      ensures completed == Completes(old(State()))
    {
      if timeLeft <= 1 {
        running := false;
        completed := true;
        timeLeft := FocusSeconds;
      } else {
        timeLeft := timeLeft - 1;
        completed := false;
      }
    }
  }
}
