/** Simulation time, and what the other modules share: optional values, elements, sizes. */
module Moments {

  /** Simulation time in microseconds. */
  type Time = int

  const MILLISECOND: Time := 1000
  const SECOND: Time := 1000 * MILLISECOND

  datatype Option<+T> = None | Some(value: T)

  /** Some element of a set that has one. */
  ghost function Pick<T>(s: set<T>): (t: T)
    requires s != {}
    ensures t in s
  {
    var t :| t in s; t
  }

  /** The earliest of some moments. */
  ghost function Least(times: set<Time>): (t: Time)
    requires times != {}
    ensures t in times && forall u :: u in times ==> t <= u
  {
    var t := Pick(times);
    var rest := times - {t};
    if rest == {} then
      assert times == {t};
      t
    else
      assert forall u :: u in times ==> u == t || u in rest;
      var u := Least(rest);
      if t < u then t else u
  }

  function Elements<T(==)>(s: seq<T>): set<T> {
    set x | x in s
  }

  lemma SubsetSize<T>(s: set<T>, t: set<T>)
    requires s <= t
    ensures |s| <= |t| && (|s| == |t| <==> s == t)
  {
    assert t == s + (t - s);
    assert |t| == |s| + |t - s|;
  }
}
