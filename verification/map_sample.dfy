/** The points of the accident map: rows with both coordinates, capped at
    5000 by a seeded random sample. The generator is not modelled: each draw
    may pick any point not drawn yet. */
module MapSample {
  import opened Records

  /** At most this many points are handed to the map widget. */
  const MapCap: nat := 5000

  /** Row positions of the view that keep both coordinates after `dropna()`. */
  function CoordRows(v: View): (s: set<nat>)
    ensures forall i :: i in s <==> 0 <= i < |v| && v[i].latitude.Some? && v[i].longitude.Some?
  {
    set i | 0 <= i < |v| && v[i].latitude.Some? && v[i].longitude.Some?
  }

  /** `map_data`, as the set of row positions it holds: every candidate when
      there are at most `MapCap`, otherwise exactly `MapCap` of them. */
  method SampleMapPoints(v: View) returns (pts: set<nat>)
    ensures pts <= CoordRows(v)
    ensures |pts| <= MapCap
    ensures |CoordRows(v)| <= MapCap ==> pts == CoordRows(v)
    ensures |CoordRows(v)| > MapCap ==> |pts| == MapCap
  {
    var candidates := CoordRows(v);
    if |candidates| <= MapCap {
      return candidates;
    }
    pts := {};
    var rest := candidates;
    while |pts| < MapCap
      invariant pts !! rest && pts + rest == candidates
      invariant |pts| + |rest| == |candidates|
      invariant |pts| <= MapCap
      decreases MapCap - |pts|
    {
      var x :| x in rest;
      pts := pts + {x};
      rest := rest - {x};
    }
  }
}
