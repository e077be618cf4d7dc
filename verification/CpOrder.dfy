/** The utility of a perceived object and the order of objects in a message. */
module CpOrder {
  import opened Moments
  import opened CpIds
  import opened CpSelection

  /** How an object compares with its last inclusion; zero for an object without history. */
  datatype Metrics = Metrics(
    haveHistory: bool,
    distanceM: real,
    speed: real,
    heading: real,
    sinceSeconds: real,
    utility: real)

  /** Lower and upper priority thresholds. */
  datatype Priorities = Priorities(
    minPosition: real, maxPosition: real,
    minSpeed: real, maxSpeed: real,
    minHeading: real, maxHeading: real,
    minSince: real, maxSince: real)

  const FULL_CONFIDENCE: real := 15.0

  /** Share of a priority: nothing up to the lower threshold, at most one. Equal thresholds
    * make it jump to one, as dividing by zero gives infinity in floating point. */
  function Ramp(x: real, low: real, high: real): real {
    if x <= low then 0.0
    else if high == low then 1.0
    else
      var share := (x - low) / (high - low);
      if share < 1.0 then share else 1.0
  }

  function Utility(quality: int, m: Metrics, p: Priorities): real {
    quality as real / FULL_CONFIDENCE
    + Ramp(m.distanceM, p.minPosition, p.maxPosition)
    + Ramp(m.speed, p.minSpeed, p.maxSpeed)
    + Ramp(m.heading, p.minHeading, p.maxHeading)
    + Ramp(m.sinceSeconds, p.minSince, p.maxSince)
  }

  lemma RampRange(x: real, low: real, high: real)
    requires low <= high
    ensures 0.0 <= Ramp(x, low, high) <= 1.0
    ensures Ramp(x, low, high) == 0.0 <==> x <= low
    ensures low < high ==> (Ramp(x, low, high) == 1.0 <==> high <= x)
    ensures low <= x <= high && low < high ==> Ramp(x, low, high) * (high - low) == x - low
  {
    if low < x && low < high {
      Share(x - low, high - low);
    }
  }

  lemma Share(a: real, d: real)
    requires a > 0.0 && d > 0.0
    ensures a / d > 0.0
    ensures a / d < 1.0 <==> a < d
  {
    var q := a / d;
    assert q * d == a;
    if q <= 0.0 {
      ScaleLeq(q, 0.0, d);
    } else if q < 1.0 {
      ScaleLess(q, 1.0, d);
    } else {
      ScaleLeq(1.0, q, d);
    }
  }

  lemma RampMonotone(x: real, y: real, low: real, high: real)
    requires low <= high && x <= y
    ensures Ramp(x, low, high) <= Ramp(y, low, high)
  {
    RampRange(x, low, high);
    RampRange(y, low, high);
    if low < x && low < high {
      Quotients(x - low, y - low, high - low);
    }
  }

  lemma ScaleLess(a: real, b: real, d: real)
    requires d > 0.0 && a < b
    ensures a * d < b * d
  {
  }

  lemma ScaleLeq(a: real, b: real, d: real)
    requires d > 0.0 && a <= b
    ensures a * d <= b * d
  {
  }

  lemma Quotients(a: real, b: real, d: real)
    requires d > 0.0 && a <= b
    ensures a / d <= b / d
  {
  }

  predicate Ordered(p: Priorities) {
    && p.minPosition <= p.maxPosition && p.minSpeed <= p.maxSpeed
    && p.minHeading <= p.maxHeading && p.minSince <= p.maxSince
  }

  /** Changing more since the last inclusion never lowers an object's utility, and the four
    * changes together outweigh the quality term by at most four. */
  lemma UtilityMonotone(quality: int, m: Metrics, n: Metrics, p: Priorities)
    requires Ordered(p)
    requires m.distanceM <= n.distanceM && m.speed <= n.speed
    requires m.heading <= n.heading && m.sinceSeconds <= n.sinceSeconds
    ensures Utility(quality, m, p) <= Utility(quality, n, p)
    ensures quality as real / FULL_CONFIDENCE <= Utility(quality, m, p) <= quality as real / FULL_CONFIDENCE + 4.0
  {
    RampMonotone(m.distanceM, n.distanceM, p.minPosition, p.maxPosition);
    RampMonotone(m.speed, n.speed, p.minSpeed, p.maxSpeed);
    RampMonotone(m.heading, n.heading, p.minHeading, p.maxHeading);
    RampMonotone(m.sinceSeconds, n.sinceSeconds, p.minSince, p.maxSince);
    RampRange(m.distanceM, p.minPosition, p.maxPosition);
    RampRange(m.speed, p.minSpeed, p.maxSpeed);
    RampRange(m.heading, p.minHeading, p.maxHeading);
    RampRange(m.sinceSeconds, p.minSince, p.maxSince);
  }

  function MetricsOf(c: Context, p: Priorities, po: Perceived): Metrics {
    var m :=
      if po.cps in c.histories then
        var h := c.histories[po.cps];
        Metrics(true,
                c.config.distance(po.position, h.position) / 100.0,
                Abs(po.speed - h.speed),
                Abs(po.heading - h.heading),
                (c.now - h.inclusion) as real / SECOND as real,
                0.0)
      else Metrics(false, 0.0, 0.0, 0.0, 0.0, 0.0);
    m.(utility := Utility(po.quality, m, p))
  }

  /** Each of the four changes counts for itself: an object whose changes are all outside the ramps, in
    * metres, metres per second, degrees and seconds, has one point for each at or above its upper
    * threshold, and a fifteenth of its quality. */
  lemma UtilityCounts(c: Context, p: Priorities, po: Perceived)
    requires po.cps in c.histories
    requires p.minPosition < p.maxPosition && p.minSpeed < p.maxSpeed
    requires p.minHeading < p.maxHeading && p.minSince < p.maxSince
    requires var h := c.histories[po.cps];
             && !(p.minPosition < c.config.distance(po.position, h.position) / 100.0 < p.maxPosition)
             && !(p.minSpeed < Abs(po.speed - h.speed) < p.maxSpeed)
             && !(p.minHeading < Abs(po.heading - h.heading) < p.maxHeading)
             && !(p.minSince < (c.now - h.inclusion) as real / 1_000_000.0 < p.maxSince)
    ensures var h := c.histories[po.cps];
            MetricsOf(c, p, po).utility ==
              po.quality as real / 15.0
              + (if c.config.distance(po.position, h.position) / 100.0 >= p.maxPosition then 1.0 else 0.0)
              + (if Abs(po.speed - h.speed) >= p.maxSpeed then 1.0 else 0.0)
              + (if Abs(po.heading - h.heading) >= p.maxHeading then 1.0 else 0.0)
              + (if (c.now - h.inclusion) as real / 1_000_000.0 >= p.maxSince then 1.0 else 0.0)
  {
    hide Ramp;
    var h := c.histories[po.cps];
    RampRange(c.config.distance(po.position, h.position) / 100.0, p.minPosition, p.maxPosition);
    RampRange(Abs(po.speed - h.speed), p.minSpeed, p.maxSpeed);
    RampRange(Abs(po.heading - h.heading), p.minHeading, p.maxHeading);
    RampRange((c.now - h.inclusion) as real / SECOND as real, p.minSince, p.maxSince);
  }

  /** The order of a message in terms of its objects: those without history come first, by falling
    * quality. Among the others none is preceded by one of lower quality that has moved, sped up and
    * turned no more and has not waited longer since its last inclusion. */
  lemma MostChangedFirst(c: Context, p: Priorities, objects: seq<Perceived>, metrics: seq<Metrics>, s: seq<nat>,
                         j: nat, k: nat)
    requires p.minPosition >= 0.0 && p.minSpeed >= 0.0 && p.minHeading >= 0.0 && p.minSince >= 0.0 && Ordered(p)
    requires |metrics| == |objects| && forall i :: 0 <= i < |s| ==> s[i] < |objects|
    requires forall i :: i in s ==> metrics[i] == MetricsOf(c, p, objects[i])
    requires Sorted(metrics, s) && j < k < |s|
    ensures var a, b := objects[s[j]], objects[s[k]];
            && (b.cps !in c.histories ==> a.cps !in c.histories && a.quality >= b.quality)
            && (a.cps in c.histories && b.cps in c.histories && b.quality > a.quality ==>
                  var g, h := c.histories[a.cps], c.histories[b.cps];
                  || c.config.distance(a.position, g.position) > c.config.distance(b.position, h.position)
                  || Abs(a.speed - g.speed) > Abs(b.speed - h.speed)
                  || Abs(a.heading - g.heading) > Abs(b.heading - h.heading)
                  || g.inclusion < h.inclusion)
  {
    hide Ramp;
    var a, b := objects[s[j]], objects[s[k]];
    var m, n := MetricsOf(c, p, a), MetricsOf(c, p, b);
    assert m == metrics[s[j]] && n == metrics[s[k]];
    if b.cps !in c.histories {
      NewUtility(a.quality, p);
      NewUtility(b.quality, p);
    } else if a.cps in c.histories && b.quality > a.quality
        && m.distanceM <= n.distanceM && m.speed <= n.speed && m.heading <= n.heading
        && m.sinceSeconds <= n.sinceSeconds {
      UtilityMonotone(a.quality, m, n, p);
      UtilityGrows(a.quality, b.quality, n, p);
      assert false;
    } else if a.cps in c.histories {
      var g, h := c.histories[a.cps], c.histories[b.cps];
      DividedLess(c.config.distance(a.position, g.position), c.config.distance(b.position, h.position), 100.0);
      DividedLess((c.now - g.inclusion) as real, (c.now - h.inclusion) as real, SECOND as real);
    }
  }

  lemma DividedLess(a: real, b: real, d: real)
    requires d > 0.0
    ensures a / d > b / d <==> a > b
  {
    if a > b {
      Share(a - b, d);
      assert a / d - b / d == (a - b) / d;
    } else {
      Quotients(a, b, d);
    }
  }

  lemma UtilityGrows(q: int, r: int, m: Metrics, p: Priorities)
    requires q < r
    ensures Utility(q, m, p) < Utility(r, m, p)
  {
    hide Ramp;
    Share(r as real - q as real, FULL_CONFIDENCE);
  }

  lemma NewUtility(q: int, p: Priorities)
    requires p.minPosition >= 0.0 && p.minSpeed >= 0.0 && p.minHeading >= 0.0 && p.minSince >= 0.0
    ensures Utility(q, Metrics(false, 0.0, 0.0, 0.0, 0.0, 0.0), p) == q as real / 15.0
  {
  }

  /** The metrics of an object are right but for the utility, which is still to be entered. */
  predicate Measured(m: Metrics, c: Context, p: Priorities, po: Perceived) {
    m.(utility := Utility(po.quality, m, p)) == MetricsOf(c, p, po)
  }

  /** The utilities of the objects in `s`, entered one after the other. */
  function Scored(metrics: seq<Metrics>, objects: seq<Perceived>, p: Priorities, s: seq<nat>): (r: seq<Metrics>)
    requires |metrics| == |objects| && forall k :: 0 <= k < |s| ==> s[k] < |objects|
    ensures |r| == |metrics|
  {
    if s == [] then metrics
    else
      var before, i := Scored(metrics, objects, p, s[..|s| - 1]), s[|s| - 1];
      before[i := before[i].(utility := Utility(objects[i].quality, before[i], p))]
  }

  lemma ScoredOne(metrics: seq<Metrics>, objects: seq<Perceived>, p: Priorities, s: seq<nat>, i: nat)
    requires |metrics| == |objects| && i < |objects| && forall k :: 0 <= k < |s| ==> s[k] < |objects|
    ensures Scored(metrics, objects, p, s + [i])
         == Scored(Scored(metrics, objects, p, s), objects, p, [i])
    ensures Scored(metrics, objects, p, []) == metrics
  {
  }

  lemma ScoredNone(metrics: seq<Metrics>, objects: seq<Perceived>, p: Priorities)
    requires |metrics| == |objects|
    ensures Scored(metrics, objects, p, []) == metrics
  {
  }

  lemma {:induction false} ScoredMeans(metrics: seq<Metrics>, objects: seq<Perceived>, p: Priorities, s: seq<nat>)
    requires |metrics| == |objects| && forall k :: 0 <= k < |s| ==> s[k] < |objects|
    requires forall j, k :: 0 <= j < k < |s| ==> s[j] < s[k]
    ensures var r := Scored(metrics, objects, p, s);
            forall i :: 0 <= i < |objects| ==>
              r[i] == if i in s then metrics[i].(utility := Utility(objects[i].quality, metrics[i], p))
                      else metrics[i]
    ensures Scored(metrics, objects, p, []) == metrics
  {
    if s != [] {
      var front := s[..|s| - 1];
      ScoredMeans(metrics, objects, p, front);
      assert s == front + [s[|s| - 1]];
    }
  }

  /** So the metrics of all selected objects are right. */
  lemma {:induction false} ScoredMeasured(metrics: seq<Metrics>, objects: seq<Perceived>, p: Priorities,
                                          c: Context, s: seq<nat>)
    requires |metrics| == |objects| && forall k :: 0 <= k < |s| ==> s[k] < |objects|
    requires forall j, k :: 0 <= j < k < |s| ==> s[j] < s[k]
    requires forall i :: i in s ==> Measured(metrics[i], c, p, objects[i])
    ensures forall i :: i in s ==> Scored(metrics, objects, p, s)[i] == MetricsOf(c, p, objects[i])
  {
    ScoredMeans(metrics, objects, p, s);
  }

  /** The comparison the selected objects are sorted by. */
  predicate Before(a: Metrics, b: Metrics) {
    if a.haveHistory != b.haveHistory then !a.haveHistory else a.utility > b.utility
  }

  /** Sorting is only defined for a strict weak order. */
  lemma BeforeIsStrictWeakOrder(a: Metrics, b: Metrics, c: Metrics)
    ensures !Before(a, a)
    ensures Before(a, b) ==> !Before(b, a)
    ensures Before(a, b) && Before(b, c) ==> Before(a, c)
    ensures !Before(a, b) && !Before(b, a) && !Before(b, c) && !Before(c, b) ==> !Before(a, c) && !Before(c, a)
  {
  }

  predicate Sorted(metrics: seq<Metrics>, s: seq<nat>)
    requires forall k :: 0 <= k < |s| ==> s[k] < |metrics|
  {
    forall j, k :: 0 <= j < k < |s| ==> !Before(metrics[s[k]], metrics[s[j]])
  }

  /** Sorted means: all objects without history first, each part by falling utility. */
  lemma SortedMeans(metrics: seq<Metrics>, s: seq<nat>)
    requires forall k :: 0 <= k < |s| ==> s[k] < |metrics|
    ensures Sorted(metrics, s) <==>
            forall j, k :: 0 <= j < k < |s| ==>
              var m, n := metrics[s[j]], metrics[s[k]];
              && (m.haveHistory ==> n.haveHistory)
              && (m.haveHistory == n.haveHistory ==> m.utility >= n.utility)
  {
  }

  /** The library's sorting: here by inserting one index after the other. Its result is only
    * used through what is promised. */
  method Sort(metrics: seq<Metrics>, selected: seq<nat>) returns (sorted: seq<nat>)
    requires forall k :: 0 <= k < |selected| ==> selected[k] < |metrics|
    ensures multiset(sorted) == multiset(selected)
    ensures forall k :: 0 <= k < |sorted| ==> sorted[k] < |metrics|
    ensures Sorted(metrics, sorted)
  {
    sorted := [];
    for n := 0 to |selected|
      invariant multiset(sorted) == multiset(selected[..n])
      invariant forall k :: 0 <= k < |sorted| ==> sorted[k] < |metrics|
      invariant Sorted(metrics, sorted)
    {
      assert selected[..n + 1] == selected[..n] + [selected[n]];
      sorted := Insert(metrics, sorted, selected[n]);
    }
    assert selected[..|selected|] == selected;
  }

  method Insert(metrics: seq<Metrics>, s: seq<nat>, x: nat) returns (t: seq<nat>)
    requires x < |metrics| && (forall k :: 0 <= k < |s| ==> s[k] < |metrics|) && Sorted(metrics, s)
    ensures multiset(t) == multiset(s) + multiset{x}
    ensures forall k :: 0 <= k < |t| ==> t[k] < |metrics|
    ensures Sorted(metrics, t)
  {
    var p := |s|;
    while p > 0 && Before(metrics[x], metrics[s[p - 1]])
      invariant 0 <= p <= |s|
      invariant forall k :: p <= k < |s| ==> Before(metrics[x], metrics[s[k]])
    {
      p := p - 1;
    }
    assert s == s[..p] + s[p..];
    InsertSorted(metrics, s, p, x);
    t := s[..p] + [x] + s[p..];
  }

  lemma InsertSorted(metrics: seq<Metrics>, s: seq<nat>, p: nat, x: nat)
    requires x < |metrics| && (forall k :: 0 <= k < |s| ==> s[k] < |metrics|) && Sorted(metrics, s)
    requires p <= |s|
    requires forall k :: p <= k < |s| ==> Before(metrics[x], metrics[s[k]])
    requires p > 0 ==> !Before(metrics[x], metrics[s[p - 1]])
    ensures forall k :: 0 <= k < |s| + 1 ==> (s[..p] + [x] + s[p..])[k] < |metrics|
    ensures Sorted(metrics, s[..p] + [x] + s[p..])
  {
  }
}
