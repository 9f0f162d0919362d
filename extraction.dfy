/**
 * Result extraction (tsp_cl_full.py, run_impl, lines 103-111): the first
 * index of the smallest distance, and the slice of the chromosome buffer
 * that holds that individual's cyclic tour. Distances are modelled as reals.
 */
module ResultExtraction {
  import opened Wrappers
  import opened TourEncoding

  /** `min()` of an empty sequence raises. */
  datatype ExtractError = EmptyDistances

  /** The value `min(value for value in distances)` returns. */
  function MinValue(ds: seq<real>): (m: real)
    requires ds != []
    ensures m in ds
    ensures forall j :: 0 <= j < |ds| ==> m <= ds[j]
  {
    if |ds| == 1 then ds[0]
    else
      var rest := MinValue(ds[1..]);
      if rest < ds[0] then rest else ds[0]
  }

  /** `list.index(v)`: the position of the first occurrence of v. */
  function IndexOf(ds: seq<real>, v: real): (k: nat)
    requires v in ds
    ensures k < |ds| && ds[k] == v
    ensures forall j :: 0 <= j < k ==> ds[j] != v
  {
    if ds[0] == v then 0 else 1 + IndexOf(ds[1..], v)
  }

  /** k holds a smallest distance and every earlier entry is strictly larger. */
  predicate IsFirstMin(ds: seq<real>, k: nat)
  {
    && k < |ds|
    && (forall j :: 0 <= j < |ds| ==> ds[k] <= ds[j])
    && (forall j :: 0 <= j < k ==> ds[j] > ds[k])
  }

  /** `minIndex`: fails on an empty sequence, else the first minimum. */
  function ArgMin(ds: seq<real>): (r: Result<nat, ExtractError>)
    ensures r.Failure? <==> ds == []
    ensures r.Success? ==> IsFirstMin(ds, r.value)
    ensures forall k: nat :: IsFirstMin(ds, k) <==> r == Success(k)
  {
    if ds == [] then Failure(EmptyDistances) else Success(IndexOf(ds, MinValue(ds)))
  }

  /**
   * A numpy slice `s[start:stop]` with non-negative bounds: both bounds are
   * clamped to the length, and an empty slice results when start >= stop.
   */
  function PySlice(s: seq<int>, start: nat, stop: nat): (r: seq<int>)
    ensures var lo := if start < |s| then start else |s|;
            var hi := if stop < |s| then stop else |s|;
            |r| == (if lo < hi then hi - lo else 0)
    ensures forall k :: 0 <= k < |r| ==> r[k] == s[start + k]
  {
    var hi := if stop < |s| then stop else |s|;
    if start < hi then s[start..hi] else []
  }

  /**
   * The reported path `np_chromosomes[startGeneId:endGeneId]`: window
   * `minIndex` of stride `num_of_genes + 1`, cut short where the buffer ends.
   */
  function BestPath(buffer: seq<int>, minIndex: nat, numOfGenes: nat): (p: seq<int>)
    ensures var lo := minIndex * (numOfGenes + 1);
      |p| == if lo >= |buffer| then 0
             else if |buffer| - lo < numOfGenes + 1 then |buffer| - lo
             else numOfGenes + 1
    ensures |p| > 0 ==> minIndex * (numOfGenes + 1) + |p| <= |buffer|
    ensures forall k :: 0 <= k < |p| ==> p[k] == buffer[minIndex * (numOfGenes + 1) + k]
  {
    MulSucc(minIndex, numOfGenes + 1);
    PySlice(buffer, minIndex * (numOfGenes + 1), (minIndex + 1) * (numOfGenes + 1))
  }

  /** A slice whose bounds lie inside the buffer is exactly that window. */
  lemma BestPathInBounds(buffer: seq<int>, minIndex: nat, numOfGenes: nat)
    requires (minIndex + 1) * (numOfGenes + 1) <= |buffer|
    ensures BestPath(buffer, minIndex, numOfGenes) == Window(buffer, minIndex, numOfGenes + 1)
  {
    var s := numOfGenes + 1;
    MulMonotone(minIndex, minIndex + 1, s);
    MulSucc(minIndex, s);
    var r := BestPath(buffer, minIndex, numOfGenes);
    assert |r| == s;
  }

  /**
   * On a buffer of an encoding's length (n single-id genes per chromosome),
   * the path reported for any individual is its whole window: n + 1 ids.
   */
  lemma BestPathFullWindow(pop: seq<Chromosome>, n: nat, buffer: seq<int>, k: nat)
    requires Uniform(pop, n) && k < |pop| && |buffer| == |Layout(pop)|
    ensures |BestPath(buffer, k, n)| == n + 1
    ensures BestPath(buffer, k, n) == Window(buffer, k, n + 1)
  {
    LayoutShape(pop, n);
    MulMonotone(k + 1, |pop|, n + 1);
    BestPathInBounds(buffer, k, n);
  }

  /** What run_impl reports. */
  datatype Best = Best(distance: real, index: nat, path: seq<int>)

  /**
   * The best individual of the final population: its distance, its index and
   * the buffer slice at that index, with the stride taken from
   * `chromosomes[0].num_of_genes`. The distance buffer has one entry per
   * chromosome.
   */
  function ExtractBest(pop: seq<Chromosome>, ds: seq<real>, buffer: seq<int>): (r: Result<Best, ExtractError>)
    requires |ds| == |pop|
    ensures r.Failure? <==> pop == []
    ensures r.Success? ==>
      && IsFirstMin(ds, r.value.index)
      && r.value.distance == MinValue(ds)
      && r.value.path == BestPath(buffer, r.value.index, pop[0].NumOfGenes())
  {
    match ArgMin(ds)
    case Failure(e) => Failure(e)
    case Success(k) => Success(Best(ds[k], k, BestPath(buffer, k, pop[0].NumOfGenes())))
  }

  /**
   * On a buffer laid out by the encoding (n single-id genes per chromosome)
   * the reported path is the winner's city ids with its first city repeated
   * at the end.
   */
  lemma BestPathOfEncoding(pop: seq<Chromosome>, n: nat, ds: seq<real>)
    requires Uniform(pop, n) && |ds| == |pop| && pop != []
    ensures var r := ExtractBest(pop, ds, Layout(pop));
      && r.Success?
      && r.value.path == Ids(pop[r.value.index]) + [Ids(pop[r.value.index])[0]]
      && r.value.path[0] == r.value.path[n]
  {
    var k := ArgMin(ds).value;
    EncodedToursAreCyclic(pop, n, k);
    BestPathInBounds(Layout(pop), k, n);
  }
}
