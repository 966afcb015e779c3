/**
  The state the `Simulator` keeps between events: the state of the
  start/pause button, the tick delay, the current bodies, the copies to
  reset to and the status elements.

  `running` is the button's state: true from the moment `startAction`
  switches the button to "pause" until `pauseAction` switches it back.
  It is what `setTickDelay` and the menu handlers test
  (`startStop.getOnAction() == pauseAction`). Whether an animation was
  actually scheduled is reported by `Start`.
*/
module SimulatorState {

  import opened Wrappers
  import opened Things
  import opened Statuses

  datatype Session = Session(
    running: bool,
    tickDelay: int,
    objects: seq<Body>,
    startObjects: seq<Body>,
    statuses: seq<Status>)

  /** The initial tick delay, in milliseconds. */
  const DefaultTickDelay: int := 10

  /** Why an operation on the session was refused: `IllegalState` while
      the animation runs, `IllegalArgument` for a period the scheduler
      does not accept. */
  datatype SessionError = IllegalState | IllegalArgument

  /** What pressing start leaves behind: the session, and the period of
      the scheduled animation or the scheduler's refusal. */
  datatype Started = Started(session: Session, animation: Result<int, SessionError>)

  /**
    `startAction`: the button switches to "pause" first, then the
    animation is scheduled every `tickDelay` milliseconds.
    `scheduleAtFixedRate` refuses a period that is not positive
    (`IllegalArgumentException`), and by then the button already shows
    "pause": the session counts as running, yet no tick is scheduled.
  */
  function Start(s: Session): (r: Started)
    ensures r.session == s.(running := true)
    ensures r.animation.Success? <==> s.tickDelay > 0
    ensures r.animation.Success? ==> r.animation.value == s.tickDelay
    ensures r.animation.Failure? ==> r.animation.error == IllegalArgument
  {
    var pressed := s.(running := true);
    if s.tickDelay > 0 then Started(pressed, Success(s.tickDelay))
    else Started(pressed, Failure(IllegalArgument))
  }

  /**
    Start with the check the source evidently intends: a tick delay that
    is not positive is refused before the button changes, so the session
    stays as it was; otherwise it is `Start`. Pressed on a paused session,
    the button then shows "pause" exactly when an animation is scheduled.
  */
  function StartChecked(s: Session): (r: Started)
    ensures r.animation.Success? <==> s.tickDelay > 0
    ensures !s.running ==> (r.session.running <==> r.animation.Success?)
    ensures r.animation.Failure? ==> r.session == s && r.animation.error == IllegalArgument
    ensures r.animation.Success? ==> r == Start(s)
  {
    if s.tickDelay > 0 then Start(s) else Started(s, Failure(IllegalArgument))
  }

  /** `pauseAction`: the animation stops. */
  function Pause(s: Session): (r: Session)
    ensures !r.running && r == s.(running := false)
  {
    s.(running := false)
  }

  /** The save, load and reset handlers pause a running animation first,
      by firing the start/pause button, and do nothing to a paused one. */
  function PauseIfRunning(s: Session): (r: Session)
    ensures !r.running
    ensures r == s.(running := false)
  {
    if s.running then Pause(s) else s
  }

  /**
    `setTickDelay`: refused with `IllegalStateException` while the
    animation runs, since the running timer would not see it; otherwise
    only the delay changes.
  */
  function SetTickDelay(s: Session, delay: int): (r: Result<Session, SessionError>)
    ensures r.Failure? <==> s.running
    ensures r.Failure? ==> r.error == IllegalState
    ensures r.Success? ==> r.value.tickDelay == delay && r.value.(tickDelay := s.tickDelay) == s
  {
    if s.running then Failure(IllegalState) else Success(s.(tickDelay := delay))
  }

  /** Start and pause undo each other: pressing start and then pause
      leaves the session paused and otherwise as it was, whether or not
      an animation was scheduled; and pausing a started session lets
      start schedule the same animation again. */
  lemma StartPause(s: Session)
    ensures Pause(Start(s).session) == Pause(s)
    ensures Start(Pause(Start(s).session)) == Start(s)
  {
  }

  /** While started, the tick delay is locked: `setTickDelay` is refused
      until the button is pressed again. */
  lemma StartLocksTickDelay(s: Session, delay: int)
    ensures SetTickDelay(Start(s).session, delay) == Failure(IllegalState)
  {
  }

  /**
    A tick delay of 0 (read from a file, say) makes start leave the
    button on "pause" with nothing scheduled, and the delay cannot be
    corrected until pause is pressed. With the check, start refuses and
    the delay can be set at once.
  */
  lemma ZeroDelayStart(s: Session)
    requires s.tickDelay == 0 && !s.running
    ensures Start(s).session.running && Start(s).animation == Failure(IllegalArgument)
    ensures SetTickDelay(Start(s).session, DefaultTickDelay).Failure?
    ensures !StartChecked(s).session.running
    ensures SetTickDelay(StartChecked(s).session, DefaultTickDelay) == Success(s.(tickDelay := DefaultTickDelay))
  {
  }
}
