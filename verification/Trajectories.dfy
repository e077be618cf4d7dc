/** Trajectories as planner points and as points on the wire, where positions are whole metres,
  * headings tenths of a degree and times hundredths of a second. */
module Trajectories {
  import opened Moments

  const PI: real := 3.141592653589793

  /** A hundredth of a second. */
  const CENTISECOND: Time := 10 * MILLISECOND

  /** Half a turn in tenths of a degree. */
  const HALF_TURN: int := 1800

  /** Position in metres, heading in radians, time of the sample. */
  datatype TrajectoryPoint = TrajectoryPoint(x: real, y: real, heading: real, time: Time)

  datatype WirePoint = WirePoint(x: int, y: int, heading: int, time: int)

  /** A wire trajectory may contain null points. */
  type WireTrajectory = seq<Option<WirePoint>>

  /** Nearest integer, halves away from zero. */
  function Round(x: real): int {
    if x >= 0.0 then (x + 0.5).Floor else -((0.5 - x).Floor)
  }

  lemma RoundNearest(x: real)
    ensures -0.5 <= Round(x) as real - x <= 0.5
  {
  }

  lemma RoundExact(n: int)
    ensures Round(n as real) == n
  {
  }

  /** The two loops of the normalisation. The result is congruent to the heading modulo a full turn and
    * within half a turn; a heading that already is stays as it is. */
  method NormalizeTrajectoryHeading(heading: int) returns (h: int)
    ensures h == Normal(heading)
  {
    h := heading;
    while h > HALF_TURN
      invariant Normal(h) == Normal(heading)
    {
      NormalTurn(h - 2 * HALF_TURN);
      h := h - 2 * HALF_TURN;
    }
    while h < -HALF_TURN
      invariant h <= HALF_TURN && Normal(h) == Normal(heading)
    {
      NormalTurn(h);
      h := h + 2 * HALF_TURN;
    }
  }

  /** The heading itself if within half a turn; otherwise the congruent one that is, exactly half a
    * turn keeping its sign. */
  function Normal(heading: int): int {
    if -HALF_TURN <= heading <= HALF_TURN then heading
    else if heading > 0 then HALF_TURN - (HALF_TURN - heading) % (2 * HALF_TURN)
    else (heading + HALF_TURN) % (2 * HALF_TURN) - HALF_TURN
  }

  /** The normalised heading is within half a turn and congruent to the heading. */
  lemma NormalCongruent(heading: int)
    ensures -HALF_TURN <= Normal(heading) <= HALF_TURN
    ensures (Normal(heading) - heading) % (2 * HALF_TURN) == 0
    ensures Normal(heading) == heading <==> -HALF_TURN <= heading <= HALF_TURN
  {
    if heading > HALF_TURN {
      var q := (HALF_TURN - heading) / (2 * HALF_TURN);
      assert Normal(heading) - heading == q * (2 * HALF_TURN);
    } else if heading < -HALF_TURN {
      var q := (heading + HALF_TURN) / (2 * HALF_TURN);
      assert Normal(heading) - heading == -q * (2 * HALF_TURN);
    }
  }

  /** A full turn changes nothing, except at the two ends of the range. */
  lemma NormalTurn(heading: int)
    requires heading != -HALF_TURN
    ensures Normal(heading + 2 * HALF_TURN) == Normal(heading)
  {
    TurnLess(HALF_TURN - heading);
    TurnLess(heading + 3 * HALF_TURN);
  }

  lemma TurnLess(x: int)
    ensures (x - 2 * HALF_TURN) % (2 * HALF_TURN) == x % (2 * HALF_TURN)
    ensures 0 <= x < 2 * HALF_TURN ==> x % (2 * HALF_TURN) == x
  {
  }

  // ------------------------------------------------------------------ codec

  function EncodePoint(p: TrajectoryPoint): WirePoint {
    WirePoint(
      Round(p.x),
      Round(p.y),
      Normal(Round(p.heading * 1800.0 / PI)),
      Round(p.time as real / CENTISECOND as real))
  }

  function DecodePoint(w: WirePoint): TrajectoryPoint {
    TrajectoryPoint(w.x as real, w.y as real, w.heading as real * PI / 1800.0, w.time * CENTISECOND)
  }

  function Encode(points: seq<TrajectoryPoint>): (w: WireTrajectory)
    ensures |w| == |points|
    ensures forall i :: 0 <= i < |w| ==> w[i] == Some(EncodePoint(points[i]))
  {
    if points == [] then [] else Encode(points[..|points| - 1]) + [Some(EncodePoint(points[|points| - 1]))]
  }

  /** Null points are skipped. */
  function Decode(w: WireTrajectory): (points: seq<TrajectoryPoint>)
    ensures |points| <= |w|
    ensures |points| == |w| <==> forall i :: 0 <= i < |w| ==> w[i].Some?
    ensures |points| == |w| ==> forall i :: 0 <= i < |w| ==> points[i] == DecodePoint(w[i].value)
  {
    if w == [] then []
    else
      var front := Decode(w[..|w| - 1]);
      match w[|w| - 1]
      case None => front
      case Some(p) => front + [DecodePoint(p)]
  }

  /** A null point leaves the others as they are, wherever it stands. */
  lemma {:induction false} DecodedParts(w: WireTrajectory, v: WireTrajectory)
    ensures Decode(w + v) == Decode(w) + Decode(v)
    ensures Decode([]) == [] && Decode([None]) == []
    ensures forall p :: Decode([Some(p)]) == [DecodePoint(p)]
  {
    var none: WireTrajectory := [];
    assert [None][..0] == none && forall p :: [Some(p)][..0] == none;
    if v == [] {
      assert w + v == w;
    } else {
      var front := v[..|v| - 1];
      DecodedParts(w, front);
      assert (w + v)[..|w + v| - 1] == w + front;
    }
  }

  method ExtractTrajectory(w: WireTrajectory) returns (points: seq<TrajectoryPoint>)
    ensures points == Decode(w)
  {
    points := [];
    for i := 0 to |w|
      invariant points == Decode(w[..i])
    {
      assert w[..i + 1][..i] == w[..i];
      if w[i] == None {
        continue;
      }
      points := points + [DecodePoint(w[i].value)];
    }
    assert w[..|w|] == w;
  }

  method AppendTrajectoryPoints(points: seq<TrajectoryPoint>) returns (w: WireTrajectory)
    ensures w == Encode(points)
  {
    w := [];
    for i := 0 to |points|
      invariant w == Encode(points[..i])
    {
      assert points[..i + 1][..i] == points[..i];
      var p := points[i];
      var heading := NormalizeTrajectoryHeading(Round(p.heading * 1800.0 / PI));
      w := w + [Some(WirePoint(Round(p.x), Round(p.y), heading, Round(p.time as real / CENTISECOND as real)))];
    }
    assert points[..|points|] == points;
  }

  /** On the wire a point has whole metres, tenths of a degree within half a turn up to full turns, and
    * hundredths of a second, each rounded to the nearest. */
  lemma EncodedUnits(p: TrajectoryPoint)
    ensures var w := EncodePoint(p);
            && -0.5 <= w.x as real - p.x <= 0.5 && -0.5 <= w.y as real - p.y <= 0.5
            && -5_000 <= w.time * 10_000 - p.time <= 5_000
            && -1800 <= w.heading <= 1800
            && exists turns: int ::
                 -0.5 <= (w.heading + turns * 3600) as real - p.heading * 1800.0 / 3.141592653589793 <= 0.5
  {
    var w, deci := EncodePoint(p), p.heading * 1800.0 / PI;
    RoundNearest(p.x);
    RoundNearest(p.y);
    RoundNearest(deci);
    TimeClose(p.time);
    NormalCongruent(Round(deci));
    TurnsBetween(w.heading, Round(deci));
    var turns := (Round(deci) - w.heading) / 3600;
    assert w.heading + turns * 3600 == Round(deci);
  }

  /** A decoded point is exactly what the wire says. */
  lemma DecodedUnits(w: WirePoint)
    ensures var p := DecodePoint(w);
            && p.x == w.x as real && p.y == w.y as real && p.time == w.time * 10_000
            && p.heading * 1800.0 == w.heading as real * 3.141592653589793
  {
  }

  /** Encoding a decoded point only normalises its heading. */
  lemma EncodeDecoded(w: WirePoint)
    ensures EncodePoint(DecodePoint(w)) == w.(heading := Normal(w.heading))
  {
    RoundExact(w.x);
    RoundExact(w.y);
    RoundExact(w.heading);
    RoundExact(w.time);
    assert w.heading as real * PI / 1800.0 * 1800.0 / PI == w.heading as real;
    assert (w.time * CENTISECOND) as real / CENTISECOND as real == w.time as real;
  }

  /** Encoding a decoded wire trajectory gives it back exactly if it has no null point and all its
    * headings are within half a turn. */
  lemma RoundTripIff(w: WireTrajectory)
    ensures Encode(Decode(w)) == w <==>
            forall i :: 0 <= i < |w| ==> w[i].Some? && -HALF_TURN <= w[i].value.heading <= HALF_TURN
  {
    if forall i :: 0 <= i < |w| ==> w[i].Some? {
      forall i | 0 <= i < |w|
        ensures Encode(Decode(w))[i] == w[i] <==> -HALF_TURN <= w[i].value.heading <= HALF_TURN
      {
        EncodeDecoded(w[i].value);
        NormalCongruent(w[i].value.heading);
      }
    } else {
      assert |Encode(Decode(w))| < |w|;
    }
  }

  /** Decoding an encoded trajectory keeps its length; positions are off by at most half a metre, times
    * by at most five milliseconds and headings by at most half a tenth of a degree, up to full
    * turns. */
  lemma DecodedClose(points: seq<TrajectoryPoint>, i: nat)
    requires i < |points|
    ensures |Decode(Encode(points))| == |points|
    ensures var p, q := points[i], Decode(Encode(points))[i];
            && -0.5 <= q.x - p.x <= 0.5 && -0.5 <= q.y - p.y <= 0.5
            && -5_000 <= q.time - p.time <= 5_000
            && exists turns: int ::
                 -0.5 <= q.heading * 1800.0 / PI + (turns * 3600) as real - p.heading * 1800.0 / PI <= 0.5
  {
    hide EncodePoint, Normal, Round;
    var p, w := points[i], EncodePoint(points[i]);
    EncodedUnits(p);
    DecodedUnits(w);
    var q := DecodePoint(w);
    assert q.heading * 1800.0 / PI == w.heading as real;
    var turns: int :| -0.5 <= (w.heading + turns * 3600) as real - p.heading * 1800.0 / 3.141592653589793 <= 0.5;
    assert -0.5 <= q.heading * 1800.0 / PI + (turns * 3600) as real - p.heading * 1800.0 / PI <= 0.5;
  }

  lemma TurnsBetween(a: int, b: int)
    requires (a - b) % (2 * HALF_TURN) == 0
    ensures b == a + (b - a) / (2 * HALF_TURN) * 2 * HALF_TURN
  {
  }

  lemma TimeClose(time: Time)
    ensures -5 * MILLISECOND <= Round(time as real / CENTISECOND as real) * CENTISECOND - time <= 5 * MILLISECOND
  {
  }
}
