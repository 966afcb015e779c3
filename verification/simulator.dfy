/**
  The sequential behaviour of the `Simulator`: start-up, one animation
  tick, the reset button and the save and load menu items. Windows,
  buttons and timers are not modelled; each event is a function from one
  session to the next.
*/
module Simulator {

  import opened Wrappers
  import opened Things
  import opened CollisionEngine
  import opened PhysicsUtility
  import opened Motion
  import opened Statuses
  import opened ThingLine
  import opened SimulatorState
  import opened FileIO
  import Int32

  /** A clone of every body, in order. */
  function CloneAll(bs: seq<Body>): (cs: seq<Body>)
    ensures |cs| == |bs|
    ensures forall i :: 0 <= i < |bs| ==> cs[i] == Things.Clone(bs[i])
  {
    seq(|bs|, i requires 0 <= i < |bs| => Things.Clone(bs[i]))
  }

  /** Cloning a list gives an equal list. */
  lemma CloneAllEqual(bs: seq<Body>)
    ensures CloneAll(bs) == bs
  {
  }

  /**
    `initialize`: the start list holds clones of the given bodies and the
    current list the bodies themselves; the animation is paused with the
    default tick delay.
  */
  function Initialize(initObjects: seq<Body>, statuses: seq<Status>): (s: Session)
    ensures !s.running && s.tickDelay == DefaultTickDelay && s.statuses == statuses
    ensures s.objects == initObjects && s.startObjects == initObjects
  {
    Session(false, DefaultTickDelay, initObjects, CloneAll(initObjects), statuses)
  }

  /**
    One run of the `animation` task: the bodies become the outcome of a
    tick with the source's guard, and its events reach the counters.
    Every object counter grows by the tick's object events and every wall
    counter by its wall events (while the count stays below the largest
    `int`); trackers, the running flag, the tick delay and the start list
    are left alone.
  */
  function AnimationTick(s: Session, f: Field): (r: Session)
    requires TickDefinedFrom(s.objects, 0, f, AsWritten) && AllValid(s.statuses)
    ensures r.running == s.running && r.tickDelay == s.tickDelay && r.startObjects == s.startObjects
    ensures r.objects == Tick(s.objects, f, AsWritten).bodies
    ensures |r.statuses| == |s.statuses| && AllValid(r.statuses)
    ensures forall i :: 0 <= i < |s.statuses| ==> Kind(r.statuses[i]) == Kind(s.statuses[i])
    ensures forall i :: 0 <= i < |s.statuses| && Kind(s.statuses[i]) == None ==> r.statuses[i] == s.statuses[i]
    ensures forall i :: 0 <= i < |s.statuses| && Kind(s.statuses[i]) == Some(ObjectEvent)
              && Count(s.statuses[i]) + Tick(s.objects, f, AsWritten).events.objectHits <= Int32.MaxInt
              ==> Count(r.statuses[i]) == Count(s.statuses[i]) + Tick(s.objects, f, AsWritten).events.objectHits
    ensures forall i :: 0 <= i < |s.statuses| && Kind(s.statuses[i]) == Some(WallEvent)
              && Count(s.statuses[i]) + Tick(s.objects, f, AsWritten).events.wallHits <= Int32.MaxInt
              ==> Count(r.statuses[i]) == Count(s.statuses[i]) + Tick(s.objects, f, AsWritten).events.wallHits
  {
    var t := Tick(s.objects, f, AsWritten);
    var ss := Report(s.statuses, t.events);
    assert forall i :: 0 <= i < |s.statuses| ==>
      && Kind(ss[i]) == Kind(s.statuses[i])
      && (Kind(s.statuses[i]) == None ==> ss[i] == s.statuses[i])
      && (Kind(s.statuses[i]) == Some(ObjectEvent) && Count(s.statuses[i]) + t.events.objectHits <= Int32.MaxInt
          ==> Count(ss[i]) == Count(s.statuses[i]) + t.events.objectHits)
      && (Kind(s.statuses[i]) == Some(WallEvent) && Count(s.statuses[i]) + t.events.wallHits <= Int32.MaxInt
          ==> Count(ss[i]) == Count(s.statuses[i]) + t.events.wallHits)
    by {
      forall i | 0 <= i < |s.statuses| {
        ReportCounts(s.statuses, t.events, i);
      }
    }
    s.(objects := t.bodies, statuses := ss)
  }

  /** A tick keeps the total kinetic energy of the session's bodies, their
      number, sizes, masses and fills, and the total momentum when no wall
      was hit. */
  lemma AnimationTickConserves(s: Session, f: Field)
    requires TickDefinedFrom(s.objects, 0, f, AsWritten) && AllValid(s.statuses)
    ensures EnergyTotal(AnimationTick(s, f).objects) == EnergyTotal(s.objects)
    ensures Tick(s.objects, f, AsWritten).events.wallHits == 0 ==> MomentumTotal(AnimationTick(s, f).objects) == MomentumTotal(s.objects)
    ensures SameBodies(s.objects, AnimationTick(s, f).objects)
    ensures AnimationTick(s, f).startObjects == s.startObjects
  {
    TickConserves(s.objects, 0, f, AsWritten);
  }

  /**
    The reset button: pause, replace the current bodies with clones of
    the start list, flush every rate counter and reset every other
    counter. The start list and the tick delay are kept.
  */
  function Reset(s: Session): (r: Session)
    requires AllValid(s.statuses)
    ensures !r.running
    ensures r.objects == s.startObjects && r.startObjects == s.startObjects
    ensures r.tickDelay == s.tickDelay
    ensures r.statuses == ResetStatuses(s.statuses)
  {
    var p := PauseIfRunning(s);
    p.(statuses := ResetStatuses(p.statuses), objects := CloneAll(p.startObjects))
  }

  /** Resetting twice is resetting once: the same bodies, the same
      paused button and the same statuses, so the counters show zero
      either way. */
  lemma ResetTwice(s: Session)
    requires AllValid(s.statuses)
    ensures Reset(Reset(s)).objects == Reset(s).objects
    ensures Reset(Reset(s)).running == Reset(s).running
    ensures Reset(Reset(s)).statuses == Reset(s).statuses
  {
    ResetStatusesIdempotent(s.statuses);
  }

  /** The save menu item: pause, then write the file. */
  function SaveHandler(appName: string, fmt: RealFormat, s: Session): (r: (Session, seq<string>))
    ensures !r.0.running && r.0 == s.(running := false)
    ensures r.1 == SaveData(appName, fmt, r.0)
  {
    var p := PauseIfRunning(s);
    (p, SaveData(appName, fmt, p))
  }

  /** The load menu item: pause, then read the file. */
  function LoadHandler(appName: string, fmt: RealFormat, lines: seq<string>, s: Session): (r: Loading)
    ensures !r.session.running
    ensures r.outcome != Failed(Busy)
  {
    LoadData(appName, fmt, lines, PauseIfRunning(s))
  }

  /** Saving and then loading through the menu restores the tick delay and
      the bodies, and leaves the session paused. */
  lemma MenuRoundTrip(appName: string, fmt: RealFormat, s: Session)
    requires Int32.InRange(s.tickDelay)
    requires forall i :: 0 <= i < |s.objects| ==> Savable(fmt, s.objects[i])
    ensures LoadHandler(appName, fmt, SaveHandler(appName, fmt, s).1, s).outcome == Loaded
    ensures LoadHandler(appName, fmt, SaveHandler(appName, fmt, s).1, s).session == s.(running := false)
  {
    var p := PauseIfRunning(s);
    SaveLoadRoundTrip(appName, fmt, p, p);
  }
}
