/**
 * The host side of TSPGACL (tsp_cl_full.py): construction of the session
 * (lines 17-46) and `run_impl` (lines 51-113), which encodes the population,
 * uploads it, dispatches the generation kernel and extracts the best tour.
 * The device, its buffers and the kernel are modelled as values and an
 * uninterpreted function.
 */
module TspGa {
  import opened Wrappers
  import opened TourEncoding
  import opened ResultExtraction
  import opened CityTable
  import opened IncludePath
  import opened GenerationLoop

  /** What the constructor keeps for `run_impl`. */
  datatype Session = Session(
    cityInfo: seq<(int, Point)>,
    cityPoints: seq<Point>,
    devPoints: seq<Point>,
    buildOptions: seq<string>,
    chromosomes: seq<Chromosome>)

  /** The fields agree with each other as the constructor sets them. */
  predicate ValidSession(s: Session)
  {
    && s.cityPoints == CityPoints(s.cityInfo)
    && Expand(s.cityPoints) == Success(s.devPoints)
  }

  /**
   * The constructor: keeps the city points in dictionary order, builds the
   * kernel's include options on the given platform and the expanded city
   * table. It fails when there are no cities.
   */
  method Init(cityInfo: seq<(int, Point)>, chromosomes: seq<Chromosome>, platform: string)
    returns (r: Result<Session, TableError>)
    ensures r.Failure? <==> cityInfo == []
    ensures r.Success? ==>
      && ValidSession(r.value)
      && r.value.cityInfo == cityInfo
      && r.value.chromosomes == chromosomes
      && r.value.buildOptions == ["-I kernel"]
      && |r.value.devPoints| == |cityInfo| + 1
  {
    var cityPoints := CityPoints(cityInfo);
    var options := IncludeOptions(KernelIncludeDirs, platform);
    KernelFlag(platform);
    match Expand(cityPoints)
    case Failure(e) =>
      r := Failure(e);
    case Success(devPoints) =>
      r := Success(Session(cityInfo, cityPoints, devPoints, options, chromosomes));
  }

  /** The positional arguments of one `tsp_one_generation` dispatch. */
  datatype Launch = Launch(
    points: seq<Point>,
    globalSize: nat,
    localSize: nat,
    numCities: nat,
    numChromosomes: nat,
    probMutate: real,
    probCrossover: real)

  /** The device buffers the kernel reads and writes. */
  datatype DeviceState = DeviceState(
    chromosomes: seq<int>,
    distances: seq<real>,
    survivors: seq<bool>,
    rnum: int)

  /** The kernel, whose source is not part of this model. */
  type Kernel = (Launch, DeviceState) -> DeviceState

  predicate SameSizes(a: DeviceState, b: DeviceState)
  {
    && |a.chromosomes| == |b.chromosomes|
    && |a.distances| == |b.distances|
    && |a.survivors| == |b.survivors|
  }

  /** Device buffers have the size they were allocated with. */
  ghost predicate KeepsBufferSizes(kernel: Kernel)
  {
    forall l, st :: SameSizes(kernel(l, st), st)
  }

  /** One generation: the kernel applied with fixed arguments. */
  function Generation(kernel: Kernel, launch: Launch): DeviceState -> DeviceState
  {
    st => kernel(launch, st)
  }

  /** The arguments `run_impl` passes on every dispatch. */
  function LaunchFor(s: Session, probMutate: real, probCrossover: real): (l: Launch)
    requires ValidSession(s)
    ensures l.numCities == |s.devPoints| == |s.cityPoints| + 1
    ensures l.globalSize == l.localSize == l.numChromosomes == |s.chromosomes|
  {
    var n := |s.chromosomes|;
    Launch(s.devPoints, n, n, |s.cityPoints| + 1, n, probMutate, probCrossover)
  }

  /** `cl.Buffer` of zero bytes: OpenCL refuses it with CL_INVALID_BUFFER_SIZE. */
  datatype DeviceError = InvalidBufferSize

  /**
   * The upload (lines 65-82): the seed buffer, the encoded tours (line 77),
   * the distance buffer (line 79, then filled with the zeros of line 65 at
   * line 82) and the survivor buffer (line 80, allocated without a copy and
   * modelled as all false). An empty tour buffer or an empty population asks
   * for a zero-byte buffer, which fails.
   */
  function Upload(buffer: seq<int>, n: nat, seed: int): (r: Result<DeviceState, DeviceError>)
    ensures r.Failure? <==> buffer == [] || n == 0
    ensures r.Success? ==>
      && r.value.chromosomes == buffer
      && |r.value.distances| == n && (forall i :: 0 <= i < n ==> r.value.distances[i] == 0.0)
      && |r.value.survivors| == n && (forall i :: 0 <= i < n ==> !r.value.survivors[i])
      && r.value.rnum == seed
  {
    if buffer == [] || n == 0 then Failure(InvalidBufferSize)
    else Success(DeviceState(buffer, seq(n, _ => 0.0), seq(n, _ => false), seed))
  }

  datatype RunError =
    | EncodeFailed(encodeError: EncodeError)
    | DeviceFailed(deviceError: DeviceError)

  /** A kernel that keeps buffer sizes keeps them over any number of generations. */
  lemma {:induction false} GenerationsKeepSizes(kernel: Kernel, launch: Launch, st: DeviceState, n: nat)
    requires KeepsBufferSizes(kernel)
    ensures SameSizes(Iterate(Generation(kernel, launch), st, n), st)
  {
    var step := Generation(kernel, launch);
    var inv := x => SameSizes(x, st);
    forall x | inv(x)
      ensures inv(step(x))
    {
      assert SameSizes(kernel(launch, x), x);
    }
    IteratePreserves(step, inv, st, n);
  }

  /** The buffer the encoding builds for a population that passes its checks. */
  function EncodedBuffer(pop: seq<Chromosome>): (b: seq<int>)
    requires WellFormed(pop)
    ensures SameGeneCount(pop) && b == Layout(pop)
  {
    WellFormedIff(pop);
    Layout(pop)
  }

  /** The device state after `generations` dispatches from the uploaded state. */
  function FinalState(s: Session, generations: int, probMutate: real, probCrossover: real,
                      start: DeviceState, kernel: Kernel): DeviceState
    requires ValidSession(s)
  {
    Iterate(Generation(kernel, LaunchFor(s, probMutate, probCrossover)), start, Dispatches(generations))
  }

  /**
   * `run_impl`: fails with the encoding error on a malformed population and
   * with the allocation error when the upload would be empty; otherwise
   * reports the first minimum of the final distances and that individual's
   * window of the final chromosome buffer.
   */
  method RunImpl(s: Session, generations: int, probMutate: real, probCrossover: real,
                 seed: int, kernel: Kernel) returns (r: Result<Best, RunError>)
    requires ValidSession(s)
    requires KeepsBufferSizes(kernel)
    ensures !WellFormed(s.chromosomes) ==> r.Failure? && r.error.EncodeFailed?
    ensures r.Failure? && r.error.EncodeFailed? ==>
      var i := r.error.encodeError.index;
      && i < |s.chromosomes|
      && Faulty(s.chromosomes, i)
      && (forall j :: 0 <= j < i ==> !Faulty(s.chromosomes, j))
      && r.error.encodeError == ErrorAt(i)
    ensures WellFormed(s.chromosomes) ==>
      && (r.Failure? <==> s.chromosomes == [] || EncodedBuffer(s.chromosomes) == [])
      && (r.Failure? ==> r == Failure(DeviceFailed(InvalidBufferSize)))
    ensures r.Success? ==>
      && WellFormed(s.chromosomes)
      && var up := Upload(EncodedBuffer(s.chromosomes), |s.chromosomes|, seed);
      && up.Success?
      && var final := FinalState(s, generations, probMutate, probCrossover, up.value, kernel);
      && IsFirstMin(final.distances, r.value.index)
      && r.value.distance == final.distances[r.value.index]
      && r.value.path == BestPath(final.chromosomes, r.value.index, s.chromosomes[0].NumOfGenes())
    ensures r.Success? && generations <= 0 ==> r.value.index == 0 && r.value.distance == 0.0
    ensures r.Success? ==> forall n: nat :: Uniform(s.chromosomes, n) ==> |r.value.path| == n + 1
  {
    var pop := s.chromosomes;
    var encoded := Encode(pop);
    if encoded.Failure? {
      return Failure(EncodeFailed(encoded.error));
    }
    var n := |pop|;
    var up := Upload(encoded.value, n, seed);
    if up.Failure? {
      return Failure(DeviceFailed(up.error));
    }
    var start := up.value;
    var launch := LaunchFor(s, probMutate, probCrossover);
    var final, execEvt, issued, waited := DispatchLoop(Generation(kernel, launch), start, generations);
    GenerationsKeepSizes(kernel, launch, start, Dispatches(generations));
    assert final == FinalState(s, generations, probMutate, probCrossover, start, kernel);
    if generations <= 0 {
      assert IsFirstMin(final.distances, 0) by {
        assert final == start;
      }
    }
    var best := ExtractBest(pop, final.distances, final.chromosomes);
    forall n: nat | Uniform(pop, n)
      ensures |best.value.path| == n + 1
    {
      BestPathFullWindow(pop, n, final.chromosomes, best.value.index);
    }
    r := Success(best.value);
  }

  /**
   * With no generation dispatched the distances read back are the zeros
   * uploaded, so the first individual is reported with its own cyclic tour.
   */
  lemma ZeroGenerationsReportFirst(pop: seq<Chromosome>, n: nat, seed: int)
    requires Uniform(pop, n) && pop != []
    ensures var up := Upload(Layout(pop), |pop|, seed);
      && up.Success?
      && ExtractBest(pop, up.value.distances, up.value.chromosomes)
        == Success(Best(0.0, 0, Ids(pop[0]) + [Ids(pop[0])[0]]))
  {
    LayoutLength(pop, n);
    MulMonotone(1, |pop|, n + 1);
    var start := Upload(Layout(pop), |pop|, seed).value;
    assert IsFirstMin(start.distances, 0);
    BestPathOfEncoding(pop, n, start.distances);
  }
}
