# TSPGACL host-side model

A Dafny model of the host side of `TSPGACL`, the OpenCL genetic-algorithm engine for the travelling-salesman problem in `tsp_cl_full.py`. It covers five parts:

- The construction of a session: city points in dictionary order, the expanded city table the kernel indexes by city id, and the kernel's escaped include options.
- The encoding of the population into one flat integer buffer of cyclic tours.
- The loop that dispatches the generation kernel once per generation and waits on the last event.
- The extraction of the best individual: the first minimum of the distances and its window of the tour buffer.
- `run_impl`, which composes these.

The kernel is an uninterpreted function from launch arguments and device buffers to device buffers. Its only assumed property is that it keeps each buffer's allocated size.

Modules: `Wrappers` (the `Result`/`Option` types), `TourEncoding`, `ResultExtraction`, `CityTable`, `IncludePath`, `GenerationLoop`, and `TspGa` (the constructor and `run_impl`).

Behaviour of the code worth knowing:

- With `generations <= 0` no kernel runs. The distances read back are the zeros copied to the device at line 82, so the code reports distance 0.0 at index 0 (`TspGa.RunImpl`, `TspGa.ZeroGenerationsReportFirst`).
- An empty population passes the encoding loop, because the loop does not run. The tour buffer is then empty, and the device buffer created from it at line 77 has zero bytes, which OpenCL refuses (CL_INVALID_BUFFER_SIZE). The run stops there, before any dispatch. The same happens when the genes hold no city ids at all.
- A first chromosome without genes passes the gene-count `assert` and then fails at `c.dna[0]`.
- The reported path is a numpy slice, which clamps its bounds (`ResultExtraction.PySlice`).

## Model

| member | source | states |
|---|---|---|
| TourEncoding.Encode | tsp_cl_full.py:52-62 | succeeds iff no chromosome stops the loop; on success the buffer is the concatenation of every chromosome's genes followed by its first gene; on failure the error names the first offending chromosome: an empty first chromosome (index error at `c.dna[0]`) or a later chromosome whose gene count differs from the first's (assertion) |
| TourEncoding.WellFormedIff | tsp_cl_full.py:56-62 | the loop's per-chromosome checks pass for all chromosomes iff every chromosome is non-empty and has the first chromosome's gene count |
| TourEncoding.UniformIsWellFormed | tsp_cl_full.py:56-59 | a population whose chromosomes all have n > 0 single-id genes passes the encoding's checks |
| TourEncoding.FlattenSingleIds | tsp_cl_full.py:60-61 | when every gene holds one city id, extending the buffer by each gene yields exactly the sequence of city ids |
| TourEncoding.CyclicTourOfSingleIds | tsp_cl_full.py:60-62 | a chromosome with n single-id genes contributes n + 1 entries: its ids followed by its first id, so first and last entries are equal |
| TourEncoding.LayoutLength | tsp_cl_full.py:55-62 | with n single-id genes per chromosome the buffer has length population size × (n + 1) |
| TourEncoding.LayoutWindow | tsp_cl_full.py:55-62 | with n single-id genes per chromosome, window i of stride n + 1 lies inside the buffer and is chromosome i's cyclic tour |
| TourEncoding.LayoutShape | tsp_cl_full.py:55-62 | with n single-id genes per chromosome the buffer has length population size × (n + 1), and window i of stride n + 1 is chromosome i's cyclic tour |
| TourEncoding.EncodedToursAreCyclic | tsp_cl_full.py:60-62 | window i of the encoded buffer is chromosome i's ids followed by its first id, and its first and last entries are equal |
| ResultExtraction.MinValue | tsp_cl_full.py:103 | the minimum is an element of the distances and no distance is smaller |
| ResultExtraction.IndexOf | tsp_cl_full.py:104 | `list.index` returns a position holding the value, and no earlier position holds it |
| ResultExtraction.ArgMin | tsp_cl_full.py:103-104 | fails iff the distances are empty; otherwise an index k is the result iff its distance is at most every distance and every earlier distance is strictly greater |
| ResultExtraction.PySlice | tsp_cl_full.py:111 | a slice with bounds clamped to the buffer: its length is the clamped width and its k-th entry is the buffer's entry at start + k |
| ResultExtraction.BestPath | tsp_cl_full.py:109-111 | the reported path is window `minIndex` of stride `num_of_genes + 1`, cut short where the buffer ends: its length is the stride, the rest of the buffer, or 0 past the end, and its k-th entry is the buffer's entry at `minIndex * (num_of_genes + 1) + k` |
| ResultExtraction.BestPathInBounds | tsp_cl_full.py:109-111 | when window `minIndex` of stride `num_of_genes + 1` lies inside the buffer, the reported path is exactly that window |
| ResultExtraction.BestPathFullWindow | tsp_cl_full.py:107-111 | on a buffer as long as the encoding of n single-id genes per chromosome, the path reported for any individual is its whole window of n + 1 entries |
| ResultExtraction.ExtractBest | tsp_cl_full.py:103-111 | fails iff the population is empty; otherwise reports the first minimum's index, its distance, and the buffer slice `[minIndex*(n+1), (minIndex+1)*(n+1))` with n the first chromosome's gene count |
| ResultExtraction.BestPathOfEncoding | tsp_cl_full.py:107-111 | on an encoded buffer the reported path is the winner's city ids with its first city repeated at the end |
| CityTable.CityPoints | tsp_cl_full.py:20 | the city points are the dictionary's values, one per entry, in insertion order |
| CityTable.Expand | tsp_cl_full.py:39 | fails iff there are no cities; otherwise the table has one more entry than the city list, entry 0 is the first city, and entry k + 1 is city k |
| CityTable.LookupNumbered | tsp_cl_full.py:117-118 | in a dictionary whose keys are consecutive from `base` in insertion order, looking up key id finds entry id - base |
| CityTable.KernelIndexAddressesCity | tsp_cl_full.py:37-39 | for cities numbered 1..n, kernel index id (1 ≤ id ≤ n) addresses the point of city id, and the table has n + 1 entries |
| IncludePath.IsWindows | tsp_cl_full.py:32 | the platform counts as Windows iff its name has "win" as a prefix |
| IncludePath.Escape | tsp_cl_full.py:32 | replacing every space by the escape character and a space makes the path one character longer per space |
| IncludePath.EscapeCounts | tsp_cl_full.py:32 | the escape character occurs once more per space of the path; every other character, the space included, occurs as often as in the path |
| IncludePath.IncludeOptions | tsp_cl_full.py:29-33 | one option per include directory, in order, each "-I " followed by the path escaped for the platform |
| IncludePath.EscapeHead | tsp_cl_full.py:32 | an escaped non-empty path never starts with a space |
| IncludePath.EscapeRoundTrip | tsp_cl_full.py:32 | escaping loses nothing: reading the escape sequences back gives the original path, so non-space characters are kept in order |
| IncludePath.EscapeNoSpaces | tsp_cl_full.py:32 | a path without spaces is unchanged by escaping |
| IncludePath.EscapeGuardsSpaces | tsp_cl_full.py:32 | every space of the escaped path stands right after the escape character ('^' when the platform name starts with "win", '\\' otherwise) |
| IncludePath.KernelFlag | tsp_cl_full.py:31-33 | the option built for the kernel directory is "-I kernel" on every platform |
| GenerationLoop.DispatchLoop | tsp_cl_full.py:84-99 | the step runs exactly max(generations, 0) times, each on the previous result; one event is issued per dispatch, in order; the last event is kept, or none when nothing was dispatched; the host waits iff generations > 0 |
| GenerationLoop.IteratePreserves | tsp_cl_full.py:85-97 | a property every generation step preserves holds after any number of dispatches |
| TspGa.Init | tsp_cl_full.py:17-46 | fails iff there are no cities; otherwise keeps the population and the city points, the expanded table has one entry more than the cities, and the build options are exactly ["-I kernel"] |
| TspGa.LaunchFor | tsp_cl_full.py:86-97 | every dispatch uses global and local size equal to the population size, and passes a city count equal to the length of the expanded table |
| TspGa.Upload | tsp_cl_full.py:65-82 | fails iff the tour buffer or the population is empty (a zero-byte device buffer); otherwise the device holds the encoded tours, one zero distance and one false survivor flag per chromosome, and the seed |
| TspGa.GenerationsKeepSizes | tsp_cl_full.py:77-80 | a kernel that writes within its buffers leaves every buffer at its allocated size after any number of generations |
| TspGa.RunImpl | tsp_cl_full.py:51-113 | on a malformed population fails with the encoding error of the first chromosome that stops the loop (index error for an empty first chromosome, assertion for a gene-count mismatch); on a well-formed one fails iff the upload would be empty, with the zero-size buffer error; otherwise reports the first minimum of the final distances and that individual's window of the final tour buffer; with no generation dispatched it reports index 0 at distance 0; on a population of n single-id genes per chromosome the reported path has n + 1 entries after any number of generations |
| TspGa.ZeroGenerationsReportFirst | tsp_cl_full.py:82-111 | with no dispatch, the read-back distances are the uploaded zeros, so the first individual is reported at distance 0 with its own ids and its first id repeated |

## Left out

- The generation kernel (`kernel/tsp_cl_full_float.c`) is not part of this model: tour length, survivor selection, crossover, mutation and its random numbers. It is the `Kernel` parameter, assumed only to keep buffer sizes. No claim about permutations being preserved across generations is made.
- The OpenCL context, queue, memory pool, program build, buffer allocation and the copies to and from the device (lines 22-27, 34, 40-42, 69-82, 100-101): device I/O and foreign calls. Build failures, device errors during a dispatch and out-of-memory are not modelled; the only device error modelled is the zero-byte buffer of an empty upload.
- Seeding with `random.randint(1, int(time()))` (line 72) is a parameter `seed`.
- The demo `run()` (lines 115-136) and its random coordinates. Its city numbering 1..n is used only as the hypothesis of `CityTable.KernelIndexAddressesCity`.
- The survivor buffer is allocated without a host copy (line 80). Its initial contents are modelled as all false.
- Concurrency between kernel workers and the shared random seed: the model has no parallelism.
- Distances are `real`: float32 rounding and NaN are not modelled.
- `numpy.int32` and `numpy.float32` conversions of the buffer, the counts and the probabilities (lines 67, 94-97) are not modelled: values are unbounded integers and reals, with no wrap-around.
- `BaseGeneticAlgorithm`, `utils` (custom mutate and crossover, distance helpers, chromosome creation), the no-op `evaluate_fitness` and the chromosome class: `num_of_genes` is taken to be the length of `dna`. A gene is a list of city ids that `+=` appends. The stride and window results assume one id per gene.
- `print` reporting and timing (lines 105, 111-112): the reported values are returned as `Best`.
- `IncludePath.IncludeOptions` runs over any list of directories; the source's list is the constant ["kernel"].
