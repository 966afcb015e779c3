/**
  The one-line text form of a body (`Thing.toString` and
  `Thing.loadFromData`): nine fields separated by ',' in the order
  x, y, size, mass, vx, vy, red, green, blue.

  Printing and parsing of `double` values is not modelled; it is a
  parameter, a `RealFormat`, and the round trip holds for the values it
  prints faithfully.
*/
module ThingLine {

  import opened Wrappers
  import opened Int32
  import opened Vectors
  import opened Things
  import opened IntText

  /** The field separator `Thing.delim`. */
  const Delim: char := ','

  /** `Double.toString` and `Double.parseDouble`, as a pair of functions. */
  datatype RealFormat = RealFormat(show: real -> string, parse: string -> Option<real>)

  /** A token of the line format: non-empty and free of the separator. */
  predicate IsToken(t: string) {
    |t| > 0 && Delim !in t
  }

  /** A real that the format prints as a single token and reads back as itself. */
  predicate Faithful(fmt: RealFormat, x: real) {
    IsToken(fmt.show(x)) && fmt.parse(fmt.show(x)) == Some(x)
  }

  /** The length of the leading run of non-separator characters. */
  function Run(s: string): (n: nat)
    ensures n <= |s|
    ensures forall i :: 0 <= i < n ==> s[i] != Delim
    ensures n < |s| ==> s[n] == Delim
  {
    if |s| == 0 || s[0] == Delim then 0 else 1 + Run(s[1..])
  }

  /** `StringTokenizer` with the separator ',': the maximal runs of other
      characters, in order; empty fields are skipped. */
  function Tokens(s: string): (ts: seq<string>)
    ensures forall i :: 0 <= i < |ts| ==> IsToken(ts[i])
    decreases |s|
  {
    if |s| == 0 then []
    else if s[0] == Delim then Tokens(s[1..])
    else
      var n := Run(s);
      [s[..n]] + Tokens(s[n..])
  }

  /** Fields joined with the separator between them. */
  function Join(ts: seq<string>): string {
    if |ts| == 0 then "" else if |ts| == 1 then ts[0] else ts[0] + [Delim] + Join(ts[1..])
  }

  /** A token followed by a separator: its run is the token itself. */
  lemma RunOfToken(t: string, rest: string)
    requires IsToken(t)
    ensures Run(t + rest) >= |t|
    ensures |rest| > 0 && rest[0] == Delim ==> Run(t + rest) == |t|
    ensures Run(t) == |t|
  {
    if |rest| > 0 && rest[0] == Delim {
      assert (t + rest)[|t|] == Delim;
    }
  }

  /** Splitting joined tokens gives the tokens back. */
  lemma {:induction false} TokensOfJoin(ts: seq<string>)
    requires forall i :: 0 <= i < |ts| ==> IsToken(ts[i])
    ensures Tokens(Join(ts)) == ts
  {
    if |ts| == 1 {
      var t := ts[0];
      assert Join(ts) == t && t[0] != Delim;
      RunOfToken(t, "");
      assert t[..|t|] == t && t[|t|..] == "";
    } else if |ts| > 1 {
      var rest := [Delim] + Join(ts[1..]);
      var s := ts[0] + rest;
      assert Join(ts) == s;
      RunOfToken(ts[0], rest);
      assert s[..|ts[0]|] == ts[0];
      assert s[|ts[0]|..] == rest;
      assert rest[1..] == Join(ts[1..]);
      TokensOfJoin(ts[1..]);
    }
  }

  /** The nine fields of a body, in file order. */
  function Fields(fmt: RealFormat, b: Body): (fs: seq<string>)
    ensures |fs| == 9
  {
    [fmt.show(b.x), fmt.show(b.y), IntToString(b.size), IntToString(b.mass),
     fmt.show(b.v.x), fmt.show(b.v.y), fmt.show(b.fill.red), fmt.show(b.fill.green), fmt.show(b.fill.blue)]
  }

  /** `toString`: the nine fields joined with the separator. */
  function ToLine(fmt: RealFormat, b: Body): string {
    Join(Fields(fmt, b))
  }

  /** Why a line cannot be read: a missing field (`NoSuchElementException`),
      a field that is not a number (`NumberFormatException`) or a colour
      intensity outside [0, 1] (`IllegalArgumentException` from `Color.color`). */
  datatype LineError = MissingToken | BadNumber | BadColour

  /** Token `i` read as a `double`. */
  function RealAt(fmt: RealFormat, ts: seq<string>, i: nat): (r: Result<real, LineError>)
    ensures r.Success? <==> i < |ts| && fmt.parse(ts[i]).Some?
    ensures r.Success? ==> fmt.parse(ts[i]) == Some(r.value)
    ensures r == Failure(MissingToken) <==> i >= |ts|
  {
    if i >= |ts| then Failure(MissingToken)
    else match fmt.parse(ts[i])
      case None => Failure(BadNumber)
      case Some(x) => Success(x)
  }

  /** Token `i` read as an `int`. */
  function IntAt(ts: seq<string>, i: nat): (r: Result<int, LineError>)
    ensures r.Success? <==> i < |ts| && ParseInt(ts[i]).Some?
    ensures r.Success? ==> ParseInt(ts[i]) == Some(r.value) && InRange(r.value)
    ensures r == Failure(MissingToken) <==> i >= |ts|
  {
    if i >= |ts| then Failure(MissingToken)
    else match ParseInt(ts[i])
      case None => Failure(BadNumber)
      case Some(n) => Success(n)
  }

  predicate InUnitInterval(c: real) {
    0.0 <= c <= 1.0
  }

  predicate ValidFill(c: Fill) {
    InUnitInterval(c.red) && InUnitInterval(c.green) && InUnitInterval(c.blue)
  }

  /** `Color.color`: every intensity must lie in [0, 1]. */
  function MakeFill(red: real, green: real, blue: real): (r: Result<Fill, LineError>)
    ensures r.Success? <==> ValidFill(Fill(red, green, blue))
    ensures r.Success? ==> r.value == Fill(red, green, blue)
  {
    if InUnitInterval(red) && InUnitInterval(green) && InUnitInterval(blue) then
      Success(Fill(red, green, blue))
    else
      Failure(BadColour)
  }

  /**
    `loadFromData` on the tokens of a line: the first nine tokens are read
    in order, the first failure decides the error, and later tokens are
    ignored.
  */
  function LoadTokens(fmt: RealFormat, ts: seq<string>): (r: Result<Body, LineError>)
    ensures |ts| < 9 ==> r.Failure?
    ensures r.Success? ==> && fmt.parse(ts[0]) == Some(r.value.x)
                           && fmt.parse(ts[1]) == Some(r.value.y)
                           && ParseInt(ts[2]) == Some(r.value.size)
                           && ParseInt(ts[3]) == Some(r.value.mass)
                           && fmt.parse(ts[4]) == Some(r.value.v.x)
                           && fmt.parse(ts[5]) == Some(r.value.v.y)
                           && fmt.parse(ts[6]) == Some(r.value.fill.red)
                           && fmt.parse(ts[7]) == Some(r.value.fill.green)
                           && fmt.parse(ts[8]) == Some(r.value.fill.blue)
                           && ValidFill(r.value.fill)
  {
    var x :- RealAt(fmt, ts, 0);
    var y :- RealAt(fmt, ts, 1);
    var size :- IntAt(ts, 2);
    var mass :- IntAt(ts, 3);
    var vx :- RealAt(fmt, ts, 4);
    var vy :- RealAt(fmt, ts, 5);
    var red :- RealAt(fmt, ts, 6);
    var green :- RealAt(fmt, ts, 7);
    var blue :- RealAt(fmt, ts, 8);
    var fill :- MakeFill(red, green, blue);
    Success(Body(x, y, size, mass, Vec(vx, vy), fill))
  }

  /** `loadFromData`: tokenise the line, then read the fields. */
  function LoadFromData(fmt: RealFormat, line: string): Result<Body, LineError> {
    LoadTokens(fmt, Tokens(line))
  }

  /** Tokens after the ninth are ignored. */
  lemma LoadIgnoresExtraTokens(fmt: RealFormat, ts: seq<string>)
    requires |ts| >= 9
    ensures LoadTokens(fmt, ts) == LoadTokens(fmt, ts[..9])
  {
  }

  /** A body the line format can carry: its reals print faithfully, its
      size and mass are `int` values and its fill is a valid colour. */
  predicate Savable(fmt: RealFormat, b: Body) {
    && Faithful(fmt, b.x) && Faithful(fmt, b.y)
    && Faithful(fmt, b.v.x) && Faithful(fmt, b.v.y)
    && Faithful(fmt, b.fill.red) && Faithful(fmt, b.fill.green) && Faithful(fmt, b.fill.blue)
    && InRange(b.size) && InRange(b.mass)
    && ValidFill(b.fill)
  }

  /** `toString` writes exactly the nine fields, in order. */
  lemma LineTokens(fmt: RealFormat, b: Body)
    requires Savable(fmt, b)
    ensures Tokens(ToLine(fmt, b)) == Fields(fmt, b)
  {
    var fs := Fields(fmt, b);
    IntTokens(b.size);
    IntTokens(b.mass);
    assert forall i :: 0 <= i < |fs| ==> IsToken(fs[i]);
    TokensOfJoin(fs);
  }

  /** A printed `int` is a single token. */
  lemma IntTokens(n: int)
    ensures IsToken(IntToString(n))
  {
    var s := IntToString(n);
    assert forall i :: 0 <= i < |s| ==> s[i] != Delim;
  }

  /** `loadFromData(t.toString())` restores every field. */
  lemma LineRoundTrip(fmt: RealFormat, b: Body)
    requires Savable(fmt, b)
    ensures LoadFromData(fmt, ToLine(fmt, b)) == Success(b)
  {
    LineTokens(fmt, b);
    ParseIntToString(b.size);
    ParseIntToString(b.mass);
  }
}
