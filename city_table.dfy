/**
 * The expanded city table (tsp_cl_full.py, __init__, lines 19-20 and 39):
 * the city points in the order of `city_info`, with the first point
 * duplicated in front so that the kernel can address cities by ids that
 * start at 1.
 */
module CityTable {
  import opened Wrappers

  /** A city coordinate; the source stores two float32 values. */
  datatype Point = Point(x: real, y: real)

  /** `city_points[0]` of an empty list raises. */
  datatype TableError = NoCities

  /**
   * `list(city_info.values())`: a dictionary is its pairs, with distinct
   * keys, in insertion order.
   */
  function CityPoints(cityInfo: seq<(int, Point)>): (points: seq<Point>)
    ensures |points| == |cityInfo|
    ensures forall k :: 0 <= k < |cityInfo| ==> points[k] == cityInfo[k].1
  {
    seq(|cityInfo|, k requires 0 <= k < |cityInfo| => cityInfo[k].1)
  }

  /** `[city_points[0]] + city_points`. */
  function Expand(points: seq<Point>): (r: Result<seq<Point>, TableError>)
    ensures r.Failure? <==> points == []
    ensures r.Success? ==>
      && |r.value| == |points| + 1
      && r.value[0] == points[0]
      && forall k :: 0 <= k < |points| ==> r.value[k + 1] == points[k]
  {
    if points == [] then Failure(NoCities) else Success([points[0]] + points)
  }

  /** Looking a city id up in the dictionary. */
  function Lookup(cityInfo: seq<(int, Point)>, id: int): Option<Point>
  {
    if cityInfo == [] then None
    else if cityInfo[0].0 == id then Some(cityInfo[0].1)
    else Lookup(cityInfo[1..], id)
  }

  /** The ids are 1, 2, ..., n in insertion order, as the demo builds them. */
  predicate NumberedFromOne(cityInfo: seq<(int, Point)>)
  {
    forall k :: 0 <= k < |cityInfo| ==> cityInfo[k].0 == k + 1
  }

  lemma {:induction false} LookupNumbered(cityInfo: seq<(int, Point)>, base: int, id: int)
    requires forall k :: 0 <= k < |cityInfo| ==> cityInfo[k].0 == base + k
    requires base <= id < base + |cityInfo|
    ensures Lookup(cityInfo, id) == Some(cityInfo[id - base].1)
  {
    if cityInfo[0].0 != id {
      LookupNumbered(cityInfo[1..], base + 1, id);
    }
  }

  /**
   * Kernel index id, for 1 <= id <= n, addresses the point of city id, and
   * the table holds n + 1 entries, the city count passed to the kernel.
   */
  lemma KernelIndexAddressesCity(cityInfo: seq<(int, Point)>, id: int)
    requires NumberedFromOne(cityInfo) && 1 <= id <= |cityInfo|
    ensures var r := Expand(CityPoints(cityInfo));
      && r.Success?
      && |r.value| == |cityInfo| + 1
      && Some(r.value[id]) == Lookup(cityInfo, id)
  {
    LookupNumbered(cityInfo, 1, id);
  }
}
