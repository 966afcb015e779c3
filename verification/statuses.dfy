/**
  The status elements of the status bar, and how collision events reach
  them: every object-collision counter counts object events, every
  wall-collision counter counts wall events, and a reset clears them.
*/
module Statuses {

  import opened Wrappers
  import opened Int32
  import opened Counters
  import opened Motion

  /** A status element. Trackers (average speed, field width and height)
      only display values and are carried along unchanged. */
  datatype Status =
    | ObjectCollisionCounter(counter: Counter)
    | WallCollisionCounter(counter: Counter)
    | ObjectCollisionRateCounter(rate: RateCounter)
    | WallCollisionRateCounter(rate: RateCounter)
    | Tracker

  /** The two kinds of collision event. */
  datatype EventKind = ObjectEvent | WallEvent

  /** The kind of event a status counts, if any. */
  function Kind(s: Status): Option<EventKind> {
    match s
    case ObjectCollisionCounter(_) => Some(ObjectEvent)
    case ObjectCollisionRateCounter(_) => Some(ObjectEvent)
    case WallCollisionCounter(_) => Some(WallEvent)
    case WallCollisionRateCounter(_) => Some(WallEvent)
    case Tracker => None
  }

  /** The current count of a counter (zero for a tracker). */
  function Count(s: Status): int {
    match s
    case ObjectCollisionCounter(c) => c.count
    case WallCollisionCounter(c) => c.count
    case ObjectCollisionRateCounter(rc) => rc.count
    case WallCollisionRateCounter(rc) => rc.count
    case Tracker => 0
  }

  predicate ValidStatus(s: Status) {
    match s
    case ObjectCollisionCounter(c) => InRange(c.count)
    case WallCollisionCounter(c) => InRange(c.count)
    case ObjectCollisionRateCounter(rc) => Valid(rc)
    case WallCollisionRateCounter(rc) => Valid(rc)
    case Tracker => true
  }

  predicate AllValid(ss: seq<Status>) {
    forall i :: 0 <= i < |ss| ==> ValidStatus(ss[i])
  }

  /** The same status with another count; a rate counter keeps its window. */
  predicate CountChangedOnly(s: Status, r: Status) {
    match s
    case ObjectCollisionCounter(_) => r.ObjectCollisionCounter?
    case WallCollisionCounter(_) => r.WallCollisionCounter?
    case ObjectCollisionRateCounter(rc) => r.ObjectCollisionRateCounter? && r.rate == rc.(count := r.rate.count)
    case WallCollisionRateCounter(rc) => r.WallCollisionRateCounter? && r.rate == rc.(count := r.rate.count)
    case Tracker => r == s
  }

  /** One event of the given kind reaching one status: `inc` if the status
      counts that kind, nothing otherwise. */
  function Bump(s: Status, kind: EventKind): (r: Status)
    requires ValidStatus(s)
    ensures ValidStatus(r) && CountChangedOnly(s, r)
    ensures Kind(s) == Some(kind) ==> Count(r) == Succ(Count(s))
    ensures Kind(s) != Some(kind) ==> r == s
  {
    match s
    case ObjectCollisionRateCounter(rc) => if kind == ObjectEvent then ObjectCollisionRateCounter(RateInc(rc)) else s
    case ObjectCollisionCounter(c) => if kind == ObjectEvent then ObjectCollisionCounter(Inc(c)) else s
    case WallCollisionRateCounter(rc) => if kind == WallEvent then WallCollisionRateCounter(RateInc(rc)) else s
    case WallCollisionCounter(c) => if kind == WallEvent then WallCollisionCounter(Inc(c)) else s
    case Tracker => s
  }

  /** `incObjectCollisions` and `incWallCollisions`: one event of the given
      kind reaching every status. */
  function IncCollisions(ss: seq<Status>, kind: EventKind): (r: seq<Status>)
    requires AllValid(ss)
    ensures |r| == |ss| && AllValid(r)
    ensures forall i :: 0 <= i < |ss| ==> r[i] == Bump(ss[i], kind)
  {
    seq(|ss|, i requires 0 <= i < |ss| && ValidStatus(ss[i]) => Bump(ss[i], kind))
  }

  /** `n` events of the given kind, one after the other. */
  function IncCollisionsTimes(ss: seq<Status>, kind: EventKind, n: nat): (r: seq<Status>)
    requires AllValid(ss)
    ensures |r| == |ss| && AllValid(r)
  {
    if n == 0 then ss else IncCollisions(IncCollisionsTimes(ss, kind, n - 1), kind)
  }

  /** The events of a step reaching the status bar. */
  function Report(ss: seq<Status>, ev: Events): (r: seq<Status>)
    requires AllValid(ss)
    ensures |r| == |ss| && AllValid(r)
  {
    IncCollisionsTimes(IncCollisionsTimes(ss, ObjectEvent, ev.objectHits), WallEvent, ev.wallHits)
  }

  /** The events of a tick reach every status: an object counter grows by
      the object events, a wall counter by the wall events (exactly while
      in range), and a tracker is untouched. Only counts change. */
  lemma ReportCounts(ss: seq<Status>, ev: Events, i: nat)
    requires AllValid(ss) && i < |ss|
    ensures Kind(ss[i]) == None ==> Report(ss, ev)[i] == ss[i]
    ensures Kind(ss[i]) == Some(ObjectEvent) && Count(ss[i]) + ev.objectHits <= MaxInt ==>
              Count(Report(ss, ev)[i]) == Count(ss[i]) + ev.objectHits
    ensures Kind(ss[i]) == Some(WallEvent) && Count(ss[i]) + ev.wallHits <= MaxInt ==>
              Count(Report(ss, ev)[i]) == Count(ss[i]) + ev.wallHits
    ensures Kind(Report(ss, ev)[i]) == Kind(ss[i])
  {
    var m := IncCollisionsTimes(ss, ObjectEvent, ev.objectHits);
    IncCollisionsTimesCounts(ss, ObjectEvent, ev.objectHits, i);
    IncCollisionsTimesCounts(m, WallEvent, ev.wallHits, i);
  }

  /** After `n` events, a status counting that kind has grown by `n`
      (modulo 2^32, and exactly while in range); any other status is as
      it was. Only the count changes. */
  lemma {:induction false} IncCollisionsTimesCounts(ss: seq<Status>, kind: EventKind, n: nat, i: nat)
    requires AllValid(ss) && i < |ss|
    ensures CountChangedOnly(ss[i], IncCollisionsTimes(ss, kind, n)[i])
    ensures Kind(ss[i]) != Some(kind) ==> IncCollisionsTimes(ss, kind, n)[i] == ss[i]
    ensures Kind(ss[i]) == Some(kind) ==> (Count(IncCollisionsTimes(ss, kind, n)[i]) - Count(ss[i]) - n) % 0x1_0000_0000 == 0
    ensures Kind(ss[i]) == Some(kind) && Count(ss[i]) + n <= MaxInt ==> Count(IncCollisionsTimes(ss, kind, n)[i]) == Count(ss[i]) + n
  {
    if n > 0 {
      IncCollisionsTimesCounts(ss, kind, n - 1, i);
      var p := IncCollisionsTimes(ss, kind, n - 1)[i];
      var q := IncCollisionsTimes(ss, kind, n)[i];
      assert q == Bump(p, kind);
      if Kind(ss[i]) == Some(kind) {
        assert Kind(p) == Some(kind);
        assert (Count(q) - Count(p) - 1) % 0x1_0000_0000 == 0;
        ModSum(Count(q) - Count(p) - 1, Count(p) - Count(ss[i]) - (n - 1));
      }
    }
  }

  /** Resetting one status: a rate counter is flushed (its current count is
      kept), any other counter is reset to zero. */
  function ResetStatus(s: Status): (r: Status)
    requires ValidStatus(s)
    ensures ValidStatus(r) && Kind(r) == Kind(s)
  {
    match s
    case ObjectCollisionRateCounter(rc) => ObjectCollisionRateCounter(Flush(rc))
    case WallCollisionRateCounter(rc) => WallCollisionRateCounter(Flush(rc))
    case ObjectCollisionCounter(c) => ObjectCollisionCounter(ResetCount(c))
    case WallCollisionCounter(c) => WallCollisionCounter(ResetCount(c))
    case Tracker => s
  }

  /** The status part of the reset button. */
  function ResetStatuses(ss: seq<Status>): (r: seq<Status>)
    requires AllValid(ss)
    ensures |r| == |ss| && AllValid(r)
    ensures forall i :: 0 <= i < |ss| ==> r[i] == ResetStatus(ss[i])
  {
    seq(|ss|, i requires 0 <= i < |ss| && ValidStatus(ss[i]) => ResetStatus(ss[i]))
  }

  /** Resetting the statuses twice is resetting them once. */
  lemma {:induction false} ResetStatusesIdempotent(ss: seq<Status>)
    requires AllValid(ss)
    ensures ResetStatuses(ResetStatuses(ss)) == ResetStatuses(ss)
  {
    var r := ResetStatuses(ss);
    forall i | 0 <= i < |ss|
      ensures ResetStatus(r[i]) == r[i]
    {
      match ss[i]
      case ObjectCollisionRateCounter(rc) =>
      case WallCollisionRateCounter(rc) =>
      case ObjectCollisionCounter(c) => ResetIdempotent(c);
      case WallCollisionCounter(c) => ResetIdempotent(c);
      case Tracker =>
    }
  }

  /** After a reset every plain counter shows zero, every rate counter
      shows an average of zero and keeps its current count, and trackers
      are untouched. */
  lemma ResetClears(ss: seq<Status>, i: nat)
    requires AllValid(ss) && i < |ss|
    ensures (ss[i].ObjectCollisionCounter? || ss[i].WallCollisionCounter?) ==> Count(ResetStatuses(ss)[i]) == 0
    ensures (ss[i].ObjectCollisionRateCounter? || ss[i].WallCollisionRateCounter?) ==>
              (&& Average(ResetStatuses(ss)[i].rate) == 0.0
               && Count(ResetStatuses(ss)[i]) == Count(ss[i]))
    ensures ss[i].Tracker? ==> ResetStatuses(ss)[i] == ss[i]
  {
    if ss[i].ObjectCollisionRateCounter? || ss[i].WallCollisionRateCounter? {
      FlushAverage(ss[i].rate);
    }
  }
}
