/**
  Saving and loading the simulation (`FileIO`). A file is its sequence of
  lines: the application name, the tick delay, then one line per body in
  list order. Choosing the file and the streams are not modelled; the
  application name, looked up from a resource bundle in the source, is a
  parameter.
*/
module FileIO {

  import opened Wrappers
  import opened Int32
  import opened Things
  import opened IntText
  import opened ThingLine
  import opened SimulatorState

  /** The line of every body, in order. */
  function BodyLines(fmt: RealFormat, bs: seq<Body>): (lines: seq<string>)
    ensures |lines| == |bs|
    ensures forall i :: 0 <= i < |bs| ==> lines[i] == ToLine(fmt, bs[i])
  {
    seq(|bs|, i requires 0 <= i < |bs| => ToLine(fmt, bs[i]))
  }

  /** `saveData`: the header line, the tick delay, then the bodies. */
  function SaveData(appName: string, fmt: RealFormat, s: Session): (lines: seq<string>)
    ensures |lines| == 2 + |s.objects|
    ensures lines[0] == appName && lines[1] == IntToString(s.tickDelay)
    ensures lines[2..] == BodyLines(fmt, s.objects)
  {
    [appName, IntToString(s.tickDelay)] + BodyLines(fmt, s.objects)
  }

  /** Why a load failed: the file ended early (`NoSuchElementException`),
      the tick delay is not an `int`, body line `line` (counted from the
      first body line) is bad, or the animation was running. */
  datatype LoadError = MissingLine | BadTickDelay | BadBody(line: nat, error: LineError) | Busy

  /** What a load did: replaced the bodies, rejected a file with the wrong
      header (the bad-file warning), or failed with an exception. */
  datatype LoadOutcome = Loaded | BadHeader | Failed(error: LoadError)

  datatype Loading = Loading(outcome: LoadOutcome, session: Session)

  /** Every line read as a body, in order; the first bad line stops the load. */
  function ParseBodies(fmt: RealFormat, lines: seq<string>): (r: Result<seq<Body>, LoadError>)
    ensures r.Success? ==> |r.value| == |lines|
    ensures r.Success? ==> forall i :: 0 <= i < |lines| ==> LoadFromData(fmt, lines[i]) == Success(r.value[i])
    ensures r.Failure? ==> (&& r.error.BadBody? && r.error.line < |lines|
                            && LoadFromData(fmt, lines[r.error.line]) == Failure(r.error.error)
                            && forall i :: 0 <= i < r.error.line ==> LoadFromData(fmt, lines[i]).Success?)
  {
    if |lines| == 0 then Success([])
    else
      match LoadFromData(fmt, lines[0])
      case Failure(e) => Failure(BadBody(0, e))
      case Success(b) =>
        match ParseBodies(fmt, lines[1..])
        case Failure(e) => Failure(BadBody(e.line + 1, e.error))
        case Success(bs) => Success([b] + bs)
  }

  /**
    `loadData`: a file whose first line is not the application name is
    rejected; otherwise the tick delay and every body line are read, and
    only when all of them are good are the tick delay set (which fails
    while the animation runs) and the bodies replaced. Nothing changes
    unless the load succeeds.
  */
  function LoadData(appName: string, fmt: RealFormat, lines: seq<string>, s: Session): (r: Loading)
    ensures r.outcome != Loaded ==> r.session == s
    ensures r.outcome == BadHeader <==> |lines| > 0 && lines[0] != appName
    ensures r.outcome == Loaded <==>
              && |lines| >= 2 && lines[0] == appName && !s.running
              && ParseInt(lines[1]).Some? && ParseBodies(fmt, lines[2..]).Success?
    ensures r.outcome == Loaded ==>
              r.session == s.(tickDelay := ParseInt(lines[1]).value, objects := ParseBodies(fmt, lines[2..]).value)
    ensures r.outcome == Failed(Busy) ==> s.running
  {
    if |lines| == 0 then Loading(Failed(MissingLine), s)
    else if lines[0] != appName then Loading(BadHeader, s)
    else if |lines| < 2 then Loading(Failed(MissingLine), s)
    else
      match ParseInt(lines[1])
      case None => Loading(Failed(BadTickDelay), s)
      case Some(tick) =>
        match ParseBodies(fmt, lines[2..])
        case Failure(e) => Loading(Failed(e), s)
        case Success(bodies) =>
          match SetTickDelay(s, tick)
          case Failure(_) => Loading(Failed(Busy), s)
          case Success(s') => Loading(Loaded, s'.(objects := bodies))
  }

  /** Reading back the lines of a saved list gives the list. */
  lemma ParseBodyLines(fmt: RealFormat, bs: seq<Body>)
    requires forall i :: 0 <= i < |bs| ==> Savable(fmt, bs[i])
    ensures ParseBodies(fmt, BodyLines(fmt, bs)) == Success(bs)
  {
    var lines := BodyLines(fmt, bs);
    forall i | 0 <= i < |bs|
      ensures LoadFromData(fmt, lines[i]) == Success(bs[i])
    {
      LineRoundTrip(fmt, bs[i]);
    }
    var r := ParseBodies(fmt, lines);
    if r.Success? {
      assert r.value == bs;
    }
  }

  /**
    Loading a saved file into a paused session restores the saved tick
    delay and bodies, field by field; the rest of the session is kept.
  */
  lemma SaveLoadRoundTrip(appName: string, fmt: RealFormat, saved: Session, s: Session)
    requires InRange(saved.tickDelay)
    requires forall i :: 0 <= i < |saved.objects| ==> Savable(fmt, saved.objects[i])
    requires !s.running
    ensures LoadData(appName, fmt, SaveData(appName, fmt, saved), s)
         == Loading(Loaded, s.(tickDelay := saved.tickDelay, objects := saved.objects))
  {
    var lines := SaveData(appName, fmt, saved);
    ParseIntToString(saved.tickDelay);
    ParseBodyLines(fmt, saved.objects);
  }
}
